/**
  The word-list reader (`WordParser` in src/core/word_parser.py).

  The word file is read with `readlines()`; each line is stripped, skipped
  when it is a heading or too short, and otherwise matched against
  `^([a-zA-Z\-]+)\s+(\[.*?\])?\s+(.+)$`.  Lines that do not match are
  dropped; the others become records in file order, and a record's
  position in the result is the word's corpus index.

  The regular expression is modelled twice: `IsMatch` says declaratively
  what a match of the whole pattern is (where the groups are cut), and
  `MatchCut` follows the order in which the backtracking matcher tries the
  alternatives; `MatchLine` reads the groups off its cut.  The soundness
  and completeness lemmas connect the two.
*/
module Parser {
  import opened Wrappers

  datatype Word = Word(word: string, phonetic: string, definition: string)

  /** Python's `str.isspace()`; the `\s` class of a str pattern is the same set. */
  predicate IsSpace(c: char) {
    var x := c as int;
    || 9 <= x <= 13
    || 28 <= x <= 32
    || x == 0x85 || x == 0xA0 || x == 0x1680
    || 0x2000 <= x <= 0x200A
    || x == 0x2028 || x == 0x2029 || x == 0x202F || x == 0x205F || x == 0x3000
  }

  /** The character class `[a-zA-Z\-]`. */
  predicate IsHeadwordChar(c: char) {
    'a' <= c <= 'z' || 'A' <= c <= 'Z' || c == '-'
  }

  /** A line as `readlines()` yields it: a newline can only be its last character. */
  predicate FileLine(line: string) {
    forall i :: 0 <= i < |line| - 1 ==> line[i] != '\n'
  }

  /** Neither end is whitespace: what `strip()` leaves. */
  predicate Stripped(s: string) {
    s == [] || (!IsSpace(s[0]) && !IsSpace(s[|s| - 1]))
  }

  /** What the line pattern is applied to: a stripped line without a newline in it. */
  predicate Candidate(s: string) {
    Stripped(s) && '\n' !in s
  }

  /** `str.strip()`: the line without its leading and trailing whitespace. */
  function Strip(s: string): (r: string)
    ensures Stripped(r)
    ensures var a := SpaceEnd(s, 0);
      && a + |r| <= |s|
      && (forall i :: 0 <= i < |r| ==> r[i] == s[a + i])
      && (forall k :: a + |r| <= k < |s| ==> IsSpace(s[k]))
  {
    var a := SpaceEnd(s, 0);
    var b := TrailStart(s, a, |s|);
    s[a..b]
  }

  /** A stripped file line is something the line pattern can be applied to. */
  lemma StripLine(line: string)
    requires FileLine(line)
    ensures Candidate(Strip(line))
  {
    var r := Strip(line);
    var a := SpaceEnd(line, 0);
    forall i | 0 <= i < |r|
      ensures r[i] != '\n'
    {
      assert r[i] == line[a + i];
      if a + i == |line| - 1 {
        assert i == |r| - 1 && !IsSpace(r[i]);
      }
    }
  }

  // ---- the pieces of the matcher ----

  /** Greedy `[a-zA-Z\-]+` from `i`: where the run of headword characters ends. */
  function HeadwordEnd(s: string, i: nat): (e: nat)
    requires i <= |s|
    ensures i <= e <= |s|
    ensures forall k :: i <= k < e ==> IsHeadwordChar(s[k])
    ensures e == |s| || !IsHeadwordChar(s[e])
    decreases |s| - i
  {
    if i < |s| && IsHeadwordChar(s[i]) then HeadwordEnd(s, i + 1) else i
  }

  /** Greedy `\s+` from `i`: where the run of whitespace ends. */
  function SpaceEnd(s: string, i: nat): (e: nat)
    requires i <= |s|
    ensures i <= e <= |s|
    ensures forall k :: i <= k < e ==> IsSpace(s[k])
    ensures e == |s| || !IsSpace(s[e])
    decreases |s| - i
  {
    if i < |s| && IsSpace(s[i]) then SpaceEnd(s, i + 1) else i
  }

  /** Where the whitespace at the end of `s[lo..j]` starts. */
  function TrailStart(s: string, lo: nat, j: nat): (e: nat)
    requires lo <= j <= |s|
    ensures lo <= e <= j
    ensures forall k :: e <= k < j ==> IsSpace(s[k])
    ensures e == lo || !IsSpace(s[e - 1])
    decreases j
  {
    if lo < j && IsSpace(s[j - 1]) then TrailStart(s, lo, j - 1) else j
  }

  /**
    Lazy `.*?\]` followed by `\s`: the first `]` at or after `i` with
    whitespace right after it.  A `]` with anything else after it is
    taken into the phonetic and the search goes on.
  */
  function CloseBracket(s: string, i: nat): (k: Option<nat>)
    requires i <= |s|
    ensures k.Some? ==> i <= k.value && k.value + 1 < |s| && s[k.value] == ']' && IsSpace(s[k.value + 1])
    ensures k.Some? ==> forall j :: i <= j < k.value ==> !(s[j] == ']' && IsSpace(s[j + 1]))
    ensures k.None? ==> forall j :: i <= j && j + 1 < |s| ==> !(s[j] == ']' && IsSpace(s[j + 1]))
    decreases |s| - i
  {
    if i + 1 >= |s| then None
    else if s[i] == ']' && IsSpace(s[i + 1]) then Some(i)
    else CloseBracket(s, i + 1)
  }

  /** A headword run from `i` that ends at `j` is the one `HeadwordEnd` finds. */
  lemma {:induction false} HeadwordEndAt(s: string, i: nat, j: nat)
    requires i <= j <= |s|
    requires forall k :: i <= k < j ==> IsHeadwordChar(s[k])
    requires j == |s| || !IsHeadwordChar(s[j])
    ensures HeadwordEnd(s, i) == j
    decreases j - i
  {
    if i < j {
      HeadwordEndAt(s, i + 1, j);
    }
  }

  /** A whitespace run from `i` that ends at `j` is the one `SpaceEnd` finds. */
  lemma {:induction false} SpaceEndAt(s: string, i: nat, j: nat)
    requires i <= j <= |s|
    requires forall k :: i <= k < j ==> IsSpace(s[k])
    requires j == |s| || !IsSpace(s[j])
    ensures SpaceEnd(s, i) == j
    decreases j - i
  {
    if i < j {
      SpaceEndAt(s, i + 1, j);
    }
  }

  /** A greedy run of whitespace reaches at least as far as any run of whitespace. */
  lemma {:induction false} SpaceEndAtLeast(s: string, i: nat, j: nat)
    requires i <= j <= |s|
    requires forall k :: i <= k < j ==> IsSpace(s[k])
    ensures SpaceEnd(s, i) >= j
    decreases j - i
  {
    if i < j {
      SpaceEndAtLeast(s, i + 1, j);
    }
  }

  /** In a stripped line a whitespace run never reaches the end. */
  lemma {:induction false} SpaceEndInside(s: string, i: nat)
    requires Stripped(s) && i < |s|
    ensures SpaceEnd(s, i) < |s|
    decreases |s| - i
  {
    if IsSpace(s[i]) {
      SpaceEndInside(s, i + 1);
    }
  }

  /** The lazy search stops at the first `]` followed by whitespace, so no later than any of them. */
  lemma {:induction false} CloseBracketFinds(s: string, i: nat, j: nat)
    requires i <= j && j + 1 < |s| && s[j] == ']' && IsSpace(s[j + 1])
    ensures CloseBracket(s, i).Some? && CloseBracket(s, i).value <= j
    decreases j - i
  {
    if !(s[i] == ']' && IsSpace(s[i + 1])) {
      CloseBracketFinds(s, i + 1, j);
    }
  }

  /** The fields a matched line yields: a headword, an empty or bracketed phonetic, a definition. */
  predicate WellShaped(x: Word) {
    && |x.word| > 0 && (forall i :: 0 <= i < |x.word| ==> IsHeadwordChar(x.word[i]))
    && (x.phonetic == [] || (|x.phonetic| >= 2 && x.phonetic[0] == '[' && x.phonetic[|x.phonetic| - 1] == ']'))
    && |x.definition| > 0
  }

  /**
    Where a match of the line pattern cuts the line: the headword is
    `s[..w]`, the phonetic `s[a..p]` (empty when the optional group is
    not used) and the definition `s[d..]`.
  */
  datatype Cut = Cut(w: nat, a: nat, p: nat, d: nat)

  // ---- the pattern, declaratively ----

  /**
    `c` is one way for `^([a-zA-Z\-]+)\s+(\[.*?\])?\s+(.+)$` to match the
    whole of `s`: headword characters, whitespace, an optional `[`...`]`,
    whitespace, and at least one character up to the end.
  */
  predicate IsMatch(s: string, c: Cut) {
    && 0 < c.w < c.a <= c.p < c.d < |s|
    && (forall k :: 0 <= k < c.w ==> IsHeadwordChar(s[k]))
    && (forall k :: c.w <= k < c.a ==> IsSpace(s[k]))
    && (c.p == c.a || (c.p >= c.a + 2 && s[c.a] == '[' && s[c.p - 1] == ']'))
    && (forall k :: c.p <= k < c.d ==> IsSpace(s[k]))
  }

  /** The groups a match captures, as a record. */
  function Fields(s: string, c: Cut): (x: Word)
    requires IsMatch(s, c)
    ensures WellShaped(x)
    ensures |x.word| == c.w && |x.phonetic| == c.p - c.a && x.definition[0] == s[c.d]
  {
    var x := Word(s[..c.w], s[c.a..c.p], s[c.d..]);
    assert forall i :: 0 <= i < c.w ==> x.word[i] == s[i];
    x
  }

  // ---- the matcher, as Python's backtracking engine runs it ----

  /**
    `re.match` of the line pattern on a stripped line, in the order the
    backtracking matcher tries things: the headword run is maximal; the
    first `\s+` first takes the whole whitespace run and the optional group
    is tried there; failing that, the first `\s+` gives back one character
    for the second `\s+`, which needs a run of two.
  */
  function MatchCut(s: string): (r: Option<Cut>)
    requires Candidate(s)
    ensures r.Some? ==> IsMatch(s, r.value) && !IsSpace(s[r.value.d])
    ensures r.Some? && r.value.p == r.value.a ==> r.value.d == r.value.a + 1
  {
    var w := HeadwordEnd(s, 0);
    var q := SpaceEnd(s, w);
    if w == 0 || q == w || q == |s| then None
    else if s[q] == '[' && CloseBracket(s, q + 1).Some? then
      var k := CloseBracket(s, q + 1).value;
      PhoneticCut(s, w, q, k);
      Some(Cut(w, q, k + 1, SpaceEnd(s, k + 1)))
    else if q - w >= 2 then
      PlainCut(s, w, q);
      Some(Cut(w, q - 1, q - 1, q))
    else None
  }

  /** The cut the matcher makes when the optional group matches at `q`, up to the `]` at `k`. */
  lemma PhoneticCut(s: string, w: nat, q: nat, k: nat)
    requires Candidate(s) && 0 < w < q < k && k + 1 < |s|
    requires forall i :: 0 <= i < w ==> IsHeadwordChar(s[i])
    requires forall i :: w <= i < q ==> IsSpace(s[i])
    requires s[q] == '[' && s[k] == ']' && IsSpace(s[k + 1])
    ensures IsMatch(s, Cut(w, q, k + 1, SpaceEnd(s, k + 1)))
    ensures !IsSpace(s[SpaceEnd(s, k + 1)])
  {
    SpaceEndInside(s, k + 1);
  }

  /** The cut the matcher makes without the optional group: the last whitespace character before `q` is the second `\s+`. */
  lemma PlainCut(s: string, w: nat, q: nat)
    requires Candidate(s) && 0 < w && w + 2 <= q < |s|
    requires forall i :: 0 <= i < w ==> IsHeadwordChar(s[i])
    requires forall i :: w <= i < q ==> IsSpace(s[i])
    requires !IsSpace(s[q])
    ensures IsMatch(s, Cut(w, q - 1, q - 1, q))
  {
  }

  /** The record of a line, or nothing when the pattern does not match. */
  function MatchLine(s: string): (r: Option<Word>)
    requires Candidate(s)
    ensures r.Some? ==> WellShaped(r.value) && !IsSpace(r.value.definition[0])
    ensures r.Some? && r.value.phonetic == [] ==>
      |r.value.word| + 1 < |s| && IsSpace(s[|r.value.word|]) && IsSpace(s[|r.value.word| + 1])
  {
    match MatchCut(s)
    case None => None
    case Some(c) => Some(Fields(s, c))
  }

  /** Every record the matcher yields is what some match of the whole pattern captures. */
  lemma MatchLineSound(s: string)
    requires Candidate(s) && MatchLine(s).Some?
    ensures exists c :: IsMatch(s, c) && MatchLine(s).value == Fields(s, c)
  {
    var c := MatchCut(s).value;
    assert IsMatch(s, c) && MatchLine(s).value == Fields(s, c);
  }

  /** The headword of any match is the maximal headword run. */
  lemma SplitHeadword(s: string, c: Cut)
    requires IsMatch(s, c)
    ensures HeadwordEnd(s, 0) == c.w
  {
    assert IsSpace(s[c.w]) && !IsHeadwordChar(s[c.w]);
    HeadwordEndAt(s, 0, c.w);
  }

  /**
    With a bracketed part `s[a..a + n]` after the whitespace run that
    follows the headword, the first `\s+` stops at its `[` and the lazy
    search finds a `]` no later than its end.
  */
  lemma BracketAfterSpaces(s: string, w: nat, a: nat, n: nat)
    requires w < a && 2 <= n && a + n < |s|
    requires forall k :: w <= k < a ==> IsSpace(s[k])
    requires s[a] == '[' && s[a + n - 1] == ']' && IsSpace(s[a + n])
    ensures SpaceEnd(s, w) == a
    ensures CloseBracket(s, a + 1).Some? && CloseBracket(s, a + 1).value < a + n
  {
    SpaceEndAt(s, w, a);
    CloseBracketFinds(s, a + 1, a + n - 1);
  }

  /**
    Whenever the whole pattern can match, the line is kept, with the
    same headword; and when it can match with a phonetic, the line is
    kept with a phonetic no longer than that one (the group is greedy,
    its `.*?` lazy).
  */
  lemma {:induction false} MatchLineComplete(s: string, c: Cut)
    requires Candidate(s) && IsMatch(s, c)
    ensures MatchLine(s).Some? && MatchLine(s).value.word == Fields(s, c).word
    ensures c.p > c.a ==>
      MatchLine(s).value.phonetic != [] && |MatchLine(s).value.phonetic| <= c.p - c.a
  {
    MatchCutComplete(s, c);
    var m := MatchCut(s).value;
    assert Fields(s, m).word == s[..c.w] == Fields(s, c).word;
  }

  /** `MatchLineComplete` on cuts: the matcher's cut has the same headword and, with a phonetic, no longer a phonetic. */
  lemma MatchCutComplete(s: string, c: Cut)
    requires Candidate(s) && IsMatch(s, c)
    ensures MatchCut(s).Some? && MatchCut(s).value.w == c.w
    ensures c.p > c.a ==> MatchCut(s).value.a < MatchCut(s).value.p <= MatchCut(s).value.a + (c.p - c.a)
  {
    SplitHeadword(s, c);
    if c.p > c.a {
      BracketAfterSpaces(s, c.w, c.a, c.p - c.a);
      PhoneticTaken(s, c.w, c.a);
    } else {
      SpaceEndAtLeast(s, c.w, c.d);
      SpaceEndInside(s, c.w);
    }
  }

  /** When the whitespace after the headword ends at a `[` that a `]` and whitespace close, the matcher takes the phonetic branch. */
  lemma PhoneticTaken(s: string, w: nat, q: nat)
    requires Candidate(s) && HeadwordEnd(s, 0) == w > 0 && SpaceEnd(s, w) == q > w
    requires q < |s| && s[q] == '[' && CloseBracket(s, q + 1).Some?
    ensures MatchCut(s).Some? && MatchCut(s).value.w == w && MatchCut(s).value.a == q
    ensures MatchCut(s).value.p == CloseBracket(s, q + 1).value + 1
  {
  }

  /** Without a phonetic, a single space between headword and definition is not enough: the line is dropped. */
  lemma SingleSpaceDropped()
    ensures MatchLine("go away") == None
    ensures MatchLine("go  away") == Some(Word("go", "", "away"))
  {
    var s, t := "go away", "go  away";
    assert Candidate(s) && Candidate(t);
    HeadwordEndAt(s, 0, 2);
    SpaceEndAt(s, 2, 3);
    HeadwordEndAt(t, 0, 2);
    SpaceEndAt(t, 2, 4);
    assert t[..2] == "go" && t[3..3] == "" && t[4..] == "away";
  }

  // ---- lines and the whole file ----

  /** The heading and noise lines the reader skips before matching. */
  predicate Skipped(s: string): (b: bool)
    ensures |s| <= 1 ==> b
    ensures b ==> |s| <= 1 || s[0] == '大' || s[0] == '('
  {
    || s == []
    || "大学英语" <= s
    || "(共" <= s
    || |s| == 1
  }

  /** No skipped line would have matched: the skip rules never change the result. */
  lemma SkipRulesRedundant(s: string)
    requires Candidate(s) && Skipped(s)
    ensures MatchLine(s).None?
  {
    if s != [] && |s| != 1 {
      assert !IsHeadwordChar(s[0]) by {
        if "大学英语" <= s { assert s[0] == '大'; } else { assert s[0] == '('; }
      }
    }
  }

  /** One line of the file: skipped, dropped by the pattern, or a record. */
  function Classify(line: string): (r: Option<Word>)
    requires FileLine(line)
    ensures r.Some? ==> WellShaped(r.value)
  {
    var s := Strip(line);
    StripLine(line);
    if Skipped(s) then None else MatchLine(s)
  }

  predicate FileLines(lines: seq<string>) {
    forall i :: 0 <= i < |lines| ==> FileLine(lines[i])
  }

  /** What each line of the file yields. */
  function Classified(lines: seq<string>): (opts: seq<Option<Word>>)
    requires FileLines(lines)
    ensures |opts| == |lines|
    ensures forall i :: 0 <= i < |lines| ==> opts[i] == Classify(lines[i])
  {
    seq(|lines|, i requires 0 <= i < |lines| => Classify(lines[i]))
  }

  /** The records kept from a sequence of per-line outcomes, in order. */
  function Kept(opts: seq<Option<Word>>): (ws: seq<Word>)
    ensures |ws| <= |opts|
  {
    if opts == [] then []
    else
      var init := Kept(opts[..|opts| - 1]);
      match opts[|opts| - 1]
      case Some(x) => init + [x]
      case None => init
  }

  lemma KeptStep(opts: seq<Option<Word>>, i: nat)
    requires i < |opts|
    ensures Kept(opts[..i + 1]) ==
      match opts[i]
      case Some(x) => Kept(opts[..i]) + [x]
      case None => Kept(opts[..i])
  {
    assert opts[..i + 1][..i] == opts[..i];
  }

  /** The positions of the outcomes that are records, ascending. */
  function KeptAt(opts: seq<Option<Word>>): (ps: seq<nat>)
    ensures forall i, j :: 0 <= i < j < |ps| ==> ps[i] < ps[j]
    ensures forall i :: 0 <= i < |ps| ==> ps[i] < |opts| && opts[ps[i]].Some?
    ensures forall j :: 0 <= j < |opts| && opts[j].Some? ==> j in ps
  {
    if opts == [] then []
    else
      var init := KeptAt(opts[..|opts| - 1]);
      if opts[|opts| - 1].Some? then init + [|opts| - 1] else init
  }

  /** The k-th record kept is the outcome at the k-th position that holds one. */
  lemma {:induction false} KeptInOrder(opts: seq<Option<Word>>)
    ensures |Kept(opts)| == |KeptAt(opts)|
    ensures forall k :: 0 <= k < |Kept(opts)| ==> Kept(opts)[k] == opts[KeptAt(opts)[k]].value
  {
    if opts != [] {
      KeptInOrder(opts[..|opts| - 1]);
    }
  }

  /** Every kept record is the record of some line, and every line's record is kept. */
  lemma KeptMembers(opts: seq<Option<Word>>)
    ensures forall i :: 0 <= i < |Kept(opts)| ==> Some(Kept(opts)[i]) in opts
    ensures forall j :: 0 <= j < |opts| && opts[j].Some? ==> opts[j].value in Kept(opts)
  {
    var ws, ps := Kept(opts), KeptAt(opts);
    KeptInOrder(opts);
    forall i | 0 <= i < |ws|
      ensures Some(ws[i]) in opts
    {
      assert opts[ps[i]] == Some(ws[i]);
    }
    forall j | 0 <= j < |opts| && opts[j].Some?
      ensures opts[j].value in ws
    {
      var k :| 0 <= k < |ps| && ps[k] == j;
      assert ws[k] == opts[j].value;
    }
  }

  /** The records of a file, one per line that yields one, in file order. */
  function Parsed(lines: seq<string>): (ws: seq<Word>)
    requires FileLines(lines)
    ensures forall i :: 0 <= i < |ws| ==> WellShaped(ws[i])
  {
    var opts := Classified(lines);
    KeptInOrder(opts);
    Kept(opts)
  }

  /**
    The k-th record of the file is the record of its k-th matching line:
    a word's corpus index is its position among the lines that matched.
  */
  lemma ParsedInFileOrder(lines: seq<string>)
    requires FileLines(lines)
    ensures var ps := KeptAt(Classified(lines));
      && |Parsed(lines)| == |ps|
      && (forall i, j :: 0 <= i < j < |ps| ==> ps[i] < ps[j])
      && (forall j :: 0 <= j < |lines| ==> (Classify(lines[j]).Some? <==> j in ps))
      && forall k :: 0 <= k < |ps| ==> Parsed(lines)[k] == Classify(lines[ps[k]]).value
  {
    KeptInOrder(Classified(lines));
  }

  class WordParser {
    /** The word file, as `readlines()` returns it. */
    const fileLines: seq<string>
    /** The records of the last `Parse`, or empty before the first. */
    var words: seq<Word>

    ghost predicate Valid()
      reads this
    {
      FileLines(fileLines) && (words == [] || words == Parsed(fileLines))
    }

    constructor (fileLines: seq<string>)
      requires FileLines(fileLines)
      ensures this.fileLines == fileLines && words == [] && Valid()
    {
      this.fileLines := fileLines;
      words := [];
    }

    /** `parse()`: reads every line, keeps the records, and stores them in `words`. */
    method Parse() returns (result: seq<Word>)
      requires Valid()
      modifies this
      ensures Valid()
      ensures result == Parsed(fileLines) && words == result
    {
      result := [];
      var i := 0;
      ghost var opts := Classified(fileLines);
      while i < |fileLines|
        invariant 0 <= i <= |fileLines|
        invariant result == Kept(opts[..i])
      {
        var x := Classify(fileLines[i]);
        assert x == opts[i];
        KeptStep(opts, i);
        if x.Some? {
          result := result + [x.value];
        }
        i := i + 1;
      }
      assert opts[..i] == opts;
      assert result == Parsed(fileLines);
      words := result;
    }

    /** `get_word_count()`: parses first only when no records are held (also after a parse that found none). */
    method GetWordCount() returns (n: nat)
      requires Valid()
      modifies this
      ensures Valid()
      ensures n == |words| == |Parsed(fileLines)|
      ensures old(words) != [] ==> words == old(words)
    {
      if words == [] {
        var _ := Parse();
      }
      n := |words|;
    }
  }
}
