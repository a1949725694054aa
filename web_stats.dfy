/**
  The statistics page's aggregates over the history file (src/web/app.py):
  the learning streak, the 30-day histogram of new words, and the counts
  and lists of `calculate_statistics`.

  `words` of the history file is a dictionary from word index to record;
  here it is the sequence of its entries in the file's order, which is the
  order Python iterates them in.  Fields the page reads with a default or
  a truthiness test are optional; dates are day numbers (day 0 is
  1970-01-01, the default for a missing `last_review`).
*/
module WebStats {
  import opened Wrappers
  import opened Indices


  /** `TOTAL_WORDS`, the word-list size the page assumes. */
  const TotalWords: nat := 4537

  /** The page counts a word as mastered from this level on (the scheduler's progress uses 5). */
  const MasteredFrom: int := 3

  /** `'1970-01-01'`, the sort key of a word never reviewed. */
  const Epoch: Day := 0

  /** Days in the histogram. */
  const Window: nat := 30

  /** How many entries of the sorted list `recent_words` keeps in the end. */
  const RecentCount: nat := 5

  /** One entry of the history file's `words`, as the page reads it: its key and its record. */
  datatype StoredWord = StoredWord(
    index: nat,
    word: string,
    firstLearned: Option<Day>,
    lastReview: Option<Day>,
    nextReview: Option<Day>,
    reviewCount: Option<int>,
    masteryLevel: Option<int>)

  datatype DayCount = DayCount(date: Day, count: nat)

  datatype LevelCount = LevelCount(level: int, count: nat)

  datatype Statistics = Statistics(
    totalLearned: nat,
    totalReviews: int,
    masteryRate: real,
    progress: real,
    streakDays: nat,
    todayReviewCount: nat,
    masteryDistribution: seq<LevelCount>,
    recentWords: seq<StoredWord>,
    dailyStats: seq<DayCount>)

  // ---- streak ----

  function DatesOf(w: StoredWord): set<Day> {
    (if w.firstLearned.Some? then {w.firstLearned.value} else {})
    + (if w.lastReview.Some? then {w.lastReview.value} else {})
  }

  /** Every date on which some word was first learned or last reviewed. */
  function StudyDates(ws: seq<StoredWord>): set<Day> {
    if ws == [] then {} else StudyDates(ws[..|ws| - 1]) + DatesOf(ws[|ws| - 1])
  }

  predicate StrictlyDescending(s: seq<Day>) {
    forall i, j :: 0 <= i < j < |s| ==> s[i] > s[j]
  }


  function InsertDescending(x: Day, s: seq<Day>): (t: seq<Day>)
    requires StrictlyDescending(s) && x !in s
    ensures StrictlyDescending(t) && |t| == |s| + 1
    ensures forall y :: y in t <==> y == x || y in s
  {
    if s == [] || x > s[0] then [x] + s
    else
      var rest := InsertDescending(x, s[1..]);
      assert forall j :: 0 <= j < |rest| ==> rest[j] < s[0] by {
        forall j | 0 <= j < |rest|
          ensures rest[j] < s[0]
        {
          assert rest[j] in rest;
          if rest[j] != x {
            var p :| 0 <= p < |s[1..]| && s[1..][p] == rest[j];
            assert s[p + 1] == rest[j];
          }
        }
      }
      [s[0]] + rest
  }

  /** `sorted(dates, reverse=True)` on distinct dates. */
  function SortDescending(s: seq<Day>): (t: seq<Day>)
    requires Distinct(s)
    ensures StrictlyDescending(t) && |t| == |s|
    ensures forall y :: y in t <==> y in s
  {
    if s == [] then [] else InsertDescending(s[0], SortDescending(s[1..]))
  }

  /** The loop of `calculate_streak` that gathers the study dates. */
  method CollectDates(words: seq<StoredWord>) returns (dates: set<Day>)
    ensures dates == StudyDates(words)
  {
    dates := {};
    for i := 0 to |words|
      invariant dates == StudyDates(words[..i])
    {
      assert words[..i + 1][..i] == words[..i];
      var w := words[i];
      if w.firstLearned.Some? {
        dates := dates + {w.firstLearned.value};
      }
      if w.lastReview.Some? {
        dates := dates + {w.lastReview.value};
      }
    }
    assert words[..|words|] == words;
  }

  /** A set of dates that is not empty has a member. */
  lemma EmptyOrMember(s: set<Day>)
    ensures s == {} || exists d :: d in s
  {
    if !exists d :: d in s {
      assert s == {};
    }
  }

  /** The dates of a set, listed once each in some order, as iterating the set does. */
  method ListDates(dates: set<Day>) returns (listed: seq<Day>)
    ensures Distinct(listed)
    ensures forall y :: y in listed <==> y in dates
  {
    listed := [];
    var rest := dates;
    while rest != {}
      invariant rest <= dates
      invariant Distinct(listed)
      invariant forall y :: y in listed ==> y in dates && y !in rest
      invariant forall y :: y in dates && y !in rest ==> y in listed
      decreases rest
    {
      EmptyOrMember(rest);
      var d :| d in rest;
      listed := listed + [d];
      rest := rest - {d};
    }
  }

  /**
    `n` is the streak over `dates` on `today`: the days `today - n + 1` up
    to `today` all lie in `dates` and the day before them does not, or `n`
    is 0 because some date lies after today.
  */
  predicate IsStreak(dates: set<Day>, today: Day, n: nat) {
    && n <= |dates|
    && (forall d :: today - n < d <= today ==> d in dates)
    && (n > 0 ==> forall d :: d in dates ==> d <= today)
    && ((forall d :: d in dates ==> d <= today) ==> today - n !in dates)
  }

  /** At most one number is the streak, so the conditions of `IsStreak` fix the result. */
  lemma StreakUnique(dates: set<Day>, today: Day, n1: nat, n2: nat)
    requires IsStreak(dates, today, n1) && IsStreak(dates, today, n2)
    ensures n1 == n2
  {
  }

  /**
    `calculate_streak`: walk the study dates from the latest down, against
    today, yesterday and so on, and stop at the first date that does not
    line up.  The result is the number of consecutive days up to today on
    which something was studied, and 0 when some date lies after today.
  */
  method CalculateStreak(words: seq<StoredWord>, today: Day) returns (streak: nat)
    ensures StudyDates(words) == {} ==> streak == 0
    ensures IsStreak(StudyDates(words), today, streak)
  {
    if words == [] {
      return 0;
    }
    var dates := CollectDates(words);
    streak := RunUpTo(dates, today);
  }

  /** The part of `calculate_streak` after the dates are gathered. */
  method RunUpTo(dates: set<Day>, today: Day) returns (streak: nat)
    ensures dates == {} ==> streak == 0
    ensures IsStreak(dates, today, streak)
  {
    if dates == {} {
      return 0;
    }
    var listed := ListDates(dates);
    var sortedDates := SortDescending(listed);
    streak := WalkRun(sortedDates, today);
    StreakIsRun(sortedDates, dates, today, streak);
  }

  /** The loop of `calculate_streak`: count the dates, latest first, that are today, yesterday and so on. */
  method WalkRun(sorted: seq<Day>, today: Day) returns (n: nat)
    ensures n <= |sorted| && forall k :: 0 <= k < n ==> sorted[k] == today - k
    ensures n < |sorted| ==> sorted[n] != today - n
  {
    n := 0;
    while n < |sorted|
      invariant n <= |sorted|
      invariant forall k :: 0 <= k < n ==> sorted[k] == today - k
    {
      if sorted[n] == today - n {
        n := n + 1;
      } else {
        break;
      }
    }
  }

  /** Why the walk over the sorted dates measures the run of days ending today. */
  lemma StreakIsRun(sorted: seq<Day>, dates: set<Day>, today: Day, n: nat)
    requires StrictlyDescending(sorted) && (forall y :: y in sorted <==> y in dates)
    requires n <= |sorted| && forall k :: 0 <= k < n ==> sorted[k] == today - k
    requires n < |sorted| ==> sorted[n] != today - n
    ensures forall d :: today - n < d <= today ==> d in dates
    ensures n > 0 ==> forall d :: d in dates ==> d <= today
    ensures (forall d :: d in dates ==> d <= today) ==> today - n !in dates
    ensures n <= |dates|
  {
    forall d | today - n < d <= today
      ensures d in dates
    {
      assert sorted[today - d] == d;
    }
    forall d | d in dates && n > 0
      ensures d <= today
    {
      var p :| 0 <= p < |sorted| && sorted[p] == d;
      assert p == 0 || sorted[0] > sorted[p];
    }
    if forall d :: d in dates ==> d <= today {
      forall p | 0 <= p < |sorted|
        ensures sorted[p] != today - n
      {
        if p < n {
          assert sorted[p] == today - p;
        } else if n < p {
          assert sorted[p] < sorted[n];
          if n == 0 {
            assert sorted[0] in sorted;
          } else {
            assert sorted[n - 1] > sorted[n];
          }
        }
      }
    }
    var listed := set k | 0 <= k < |sorted| :: sorted[k];
    assert listed == dates;
    SizeOfDescending(sorted);
  }

  lemma {:induction false} SizeOfDescending(s: seq<Day>)
    requires StrictlyDescending(s)
    ensures |set k | 0 <= k < |s| :: s[k]| == |s|
  {
    if s != [] {
      var t := s[1..];
      SizeOfDescending(t);
      assert (set k | 0 <= k < |s| :: s[k]) == {s[0]} + (set k | 0 <= k < |t| :: t[k]);
      assert s[0] !in (set k | 0 <= k < |t| :: t[k]);
    }
  }

  // ---- daily histogram ----

  /** How many words were first learned on day `d`. */
  function LearnedOn(ws: seq<StoredWord>, d: Day): (n: nat)
    ensures n <= |ws|
  {
    if ws == [] then 0
    else LearnedOn(ws[..|ws| - 1], d) + (if ws[|ws| - 1].firstLearned == Some(d) then 1 else 0)
  }

  /** How many words were first learned on one of the days in `days`. */
  function LearnedWithin(ws: seq<StoredWord>, days: set<Day>): (n: nat)
    ensures n <= |ws|
  {
    if ws == [] then 0
    else
      var w := ws[|ws| - 1];
      LearnedWithin(ws[..|ws| - 1], days) + (if w.firstLearned.Some? && w.firstLearned.value in days then 1 else 0)
  }

  lemma {:induction false} LearnedSplit(ws: seq<StoredWord>, days: set<Day>, d: Day)
    requires d !in days
    ensures LearnedWithin(ws, days + {d}) == LearnedWithin(ws, days) + LearnedOn(ws, d)
  {
    if ws != [] {
      LearnedSplit(ws[..|ws| - 1], days, d);
    }
  }

  function TotalCount(rs: seq<DayCount>): nat {
    if rs == [] then 0 else TotalCount(rs[..|rs| - 1]) + rs[|rs| - 1].count
  }

  function DatesListed(rs: seq<DayCount>): (s: set<Day>)
    ensures forall d :: d in s ==> exists i :: 0 <= i < |rs| && rs[i].date == d
  {
    if rs == [] then {} else DatesListed(rs[..|rs| - 1]) + {rs[|rs| - 1].date}
  }

  /**
    Counts of distinct days, each the number of words first learned that
    day, add up to the words first learned on any of them, and so to at
    most the number of words.
  */
  lemma {:induction false} DailyCountsBounded(rs: seq<DayCount>, ws: seq<StoredWord>)
    requires forall i, j :: 0 <= i < j < |rs| ==> rs[i].date != rs[j].date
    requires forall i :: 0 <= i < |rs| ==> rs[i].count == LearnedOn(ws, rs[i].date)
    ensures TotalCount(rs) == LearnedWithin(ws, DatesListed(rs)) <= |ws|
  {
    if rs == [] {
      NoneLearnedWithinNoDays(ws);
    } else {
      var init := rs[..|rs| - 1];
      var last := rs[|rs| - 1];
      DailyCountsBounded(init, ws);
      LearnedSplit(ws, DatesListed(init), last.date);
    }
  }

  lemma {:induction false} NoneLearnedWithinNoDays(ws: seq<StoredWord>)
    ensures LearnedWithin(ws, {}) == 0
  {
    if ws != [] {
      NoneLearnedWithinNoDays(ws[..|ws| - 1]);
    }
  }

  /** The thirty days ending today, oldest first, each with the words first learned on it. */
  predicate IsDailyStats(words: seq<StoredWord>, today: Day, result: seq<DayCount>) {
    && |result| == Window
    && forall k :: 0 <= k < |result| ==>
         result[k].date == today - (Window - 1) + k && result[k].count == LearnedOn(words, result[k].date)
  }

  /**
    `calculate_daily_stats`: count the words first learned on each date,
    then report the 30 days ending today, oldest first, with 0 for a day
    nobody started on.
  */
  method CalculateDailyStats(words: seq<StoredWord>, today: Day) returns (result: seq<DayCount>)
    ensures IsDailyStats(words, today, result)
    ensures TotalCount(result) <= |words|
  {
    var counts: map<Day, nat> := map[];
    for i := 0 to |words|
      invariant forall d :: d in counts ==> counts[d] == LearnedOn(words[..i], d)
      invariant forall d :: d !in counts ==> LearnedOn(words[..i], d) == 0
    {
      assert words[..i + 1][..i] == words[..i];
      var first := words[i].firstLearned;
      if first.Some? {
        var d := first.value;
        counts := counts[d := (if d in counts then counts[d] else 0) + 1];
      }
    }
    assert words[..|words|] == words;
    result := [];
    var i: int := Window - 1;
    while i >= 0
      invariant -1 <= i < Window && |result| == Window - 1 - i
      invariant forall k :: 0 <= k < |result| ==>
        result[k].date == today - (Window - 1) + k && result[k].count == LearnedOn(words, result[k].date)
    {
      var date := today - i;
      result := result + [DayCount(date, if date in counts then counts[date] else 0)];
      i := i - 1;
    }
    DailyCountsBounded(result, words);
  }

  // ---- calculate_statistics ----

  /** `sum(w.get('review_count', 0) ...)` */
  function TotalReviews(ws: seq<StoredWord>): (r: int)
    ensures (forall i :: 0 <= i < |ws| ==> ws[i].reviewCount.GetOr(0) >= 0) ==>
      r >= 0 && forall i :: 0 <= i < |ws| ==> ws[i].reviewCount.GetOr(0) <= r
  {
    if ws == [] then 0 else TotalReviews(ws[..|ws| - 1]) + ws[|ws| - 1].reviewCount.GetOr(0)
  }

  /** The total over two parts of the file is the sum of the totals; a word without a count adds nothing. */
  lemma {:induction false} TotalReviewsAppend(a: seq<StoredWord>, b: seq<StoredWord>)
    ensures TotalReviews(a + b) == TotalReviews(a) + TotalReviews(b)
    decreases |b|
  {
    if b == [] {
      assert a + b == a;
    } else {
      assert (a + b)[..|a + b| - 1] == a + b[..|b| - 1];
      assert (a + b)[|a + b| - 1] == b[|b| - 1];
      TotalReviewsAppend(a, b[..|b| - 1]);
    }
  }

  /** A word's level as the page reads it: `mastery_level`, 0 when absent. */
  function LevelOf(w: StoredWord): int {
    w.masteryLevel.GetOr(0)
  }

  function CountLevel(ws: seq<StoredWord>, level: int): (n: nat)
    ensures n <= |ws|
  {
    if ws == [] then 0
    else CountLevel(ws[..|ws| - 1], level) + (if LevelOf(ws[|ws| - 1]) == level then 1 else 0)
  }

  /** How many words are at level `from` or above. */
  function CountFrom(ws: seq<StoredWord>, from: int): (n: nat)
    ensures n <= |ws|
  {
    if ws == [] then 0
    else CountFrom(ws[..|ws| - 1], from) + (if LevelOf(ws[|ws| - 1]) >= from then 1 else 0)
  }

  function Levels(h: seq<LevelCount>): (s: set<int>)
    ensures forall i :: 0 <= i < |h| ==> h[i].level in s
  {
    if h == [] then {} else {h[0].level} + Levels(h[1..])
  }

  /** No level has two entries. */
  predicate DistinctLevels(h: seq<LevelCount>) {
    h == [] || (h[0].level !in Levels(h[1..]) && DistinctLevels(h[1..]))
  }

  /** The sum of all counts of a histogram. */
  function SumCounts(h: seq<LevelCount>): nat {
    if h == [] then 0 else h[0].count + SumCounts(h[1..])
  }

  /** The sum of the counts of the levels `from` and above. */
  function SumFrom(h: seq<LevelCount>, from: int): nat {
    if h == [] then 0 else (if h[0].level >= from then h[0].count else 0) + SumFrom(h[1..], from)
  }

  /** The count a histogram holds for one level (0 when it has no entry). */
  function CountOf(h: seq<LevelCount>, level: int): nat {
    if h == [] then 0 else (if h[0].level == level then h[0].count else 0) + CountOf(h[1..], level)
  }

  /** `mastery_counts[level] += 1` on a dictionary that keeps its first-insertion order. */
  function Bump(h: seq<LevelCount>, level: int): (b: seq<LevelCount>)
    requires DistinctLevels(h)
    ensures DistinctLevels(b) && Levels(b) == Levels(h) + {level}
    ensures SumCounts(b) == SumCounts(h) + 1
    ensures SumFrom(b, MasteredFrom) == SumFrom(h, MasteredFrom) + (if level >= MasteredFrom then 1 else 0)
    ensures forall l :: CountOf(b, l) == CountOf(h, l) + (if l == level then 1 else 0)
    ensures (forall i :: 0 <= i < |h| ==> h[i].count > 0) ==> forall i :: 0 <= i < |b| ==> b[i].count > 0
  {
    if h == [] then
      var b := [LevelCount(level, 1)];
      assert b[1..] == [];
      b
    else if h[0].level == level then
      var b := [h[0].(count := h[0].count + 1)] + h[1..];
      assert b[1..] == h[1..];
      b
    else
      var b := [h[0]] + Bump(h[1..], level);
      assert b[1..] == Bump(h[1..], level);
      b
  }

  /**
    `mastery_counts`: the number of words per level, levels in the order
    they first occur.  Every level present has an entry and no other; the
    counts add up to the number of words, and those from level 3 up to the
    number of words at level 3 or above.
  */
  function Histogram(ws: seq<StoredWord>): (h: seq<LevelCount>)
    ensures DistinctLevels(h)
    ensures forall i :: 0 <= i < |h| ==> h[i].count > 0
    ensures forall l :: CountOf(h, l) == CountLevel(ws, l)
    ensures forall i :: 0 <= i < |ws| ==> LevelOf(ws[i]) in Levels(h)
    ensures SumCounts(h) == |ws|
    ensures SumFrom(h, MasteredFrom) == CountFrom(ws, MasteredFrom)
  {
    if ws == [] then []
    else
      var init := Histogram(ws[..|ws| - 1]);
      assert forall i :: 0 <= i < |ws| - 1 ==> ws[i] == ws[..|ws| - 1][i];
      Bump(init, LevelOf(ws[|ws| - 1]))
  }

  /** In a histogram with distinct levels, the count of an entry's level is that entry's count. */
  lemma {:induction false} CountOfEntry(h: seq<LevelCount>, i: nat)
    requires DistinctLevels(h) && i < |h|
    ensures CountOf(h, h[i].level) == h[i].count
  {
    if i == 0 {
      CountOfAbsent(h[1..], h[0].level);
    } else {
      assert h[i] == h[1..][i - 1];
      CountOfEntry(h[1..], i - 1);
    }
  }

  lemma {:induction false} CountOfAbsent(h: seq<LevelCount>, level: int)
    requires level !in Levels(h)
    ensures CountOf(h, level) == 0
  {
    if h != [] {
      CountOfAbsent(h[1..], level);
    }
  }

  /** Each entry of the distribution is the number of words at its level. */
  lemma DistributionCounts(ws: seq<StoredWord>)
    ensures forall i :: 0 <= i < |Histogram(ws)| ==>
      Histogram(ws)[i].count == CountLevel(ws, Histogram(ws)[i].level)
  {
    var h := Histogram(ws);
    forall i | 0 <= i < |h|
      ensures h[i].count == CountLevel(ws, h[i].level)
    {
      CountOfEntry(h, i);
    }
  }

  /** `mastered`: the summed counts of levels 3 and up. */
  function Mastered(ws: seq<StoredWord>): (m: nat)
    ensures m == CountFrom(ws, MasteredFrom) <= |ws|
  {
    SumFrom(Histogram(ws), MasteredFrom)
  }

  /** `mastery_rate`, as an exact ratio; between 0 and 100. */
  function MasteryRate(ws: seq<StoredWord>): (r: real)
    ensures 0.0 <= r <= 100.0
    ensures ws == [] ==> r == 0.0
  {
    Percent(Mastered(ws), |ws|)
  }

  /** `progress`, as an exact ratio against `TOTAL_WORDS`. */
  function ProgressPercent(ws: seq<StoredWord>): (p: real)
    ensures p >= 0.0 && (|ws| <= TotalWords ==> p <= 100.0)
  {
    Percent(|ws|, TotalWords)
  }

  /** Words whose next review is set to day `t` or earlier. */
  function DueBy(ws: seq<StoredWord>, t: Day): (n: nat)
    ensures n <= |ws|
  {
    if ws == [] then 0
    else
      var w := ws[|ws| - 1];
      DueBy(ws[..|ws| - 1], t) + (if w.nextReview.Some? && w.nextReview.value <= t then 1 else 0)
  }

  /** `today_review`: words whose next review is exactly today. */
  function TodayReviewCount(ws: seq<StoredWord>, today: Day): (n: nat)
    ensures n <= |ws|
  {
    if ws == [] then 0
    else TodayReviewCount(ws[..|ws| - 1], today) + (if ws[|ws| - 1].nextReview == Some(today) then 1 else 0)
  }

  /**
    The page's count of today's reviews leaves out overdue words: it is
    the words due by today less those already due by yesterday.
  */
  lemma {:induction false} TodayExcludesOverdue(ws: seq<StoredWord>, today: Day)
    ensures TodayReviewCount(ws, today) == DueBy(ws, today) - DueBy(ws, today - 1)
    ensures DueBy(ws, today - 1) <= DueBy(ws, today)
  {
    if ws != [] {
      TodayExcludesOverdue(ws[..|ws| - 1], today);
    }
  }

  /** The sort key of `recent_words`: `last_review`, or 1970-01-01. */
  function RecentKey(w: StoredWord): Day {
    w.lastReview.GetOr(Epoch)
  }

  predicate LatestFirst(s: seq<StoredWord>) {
    forall i, j :: 0 <= i < j < |s| ==> RecentKey(s[i]) >= RecentKey(s[j])
  }

  /** Insert ahead of the first entry whose key is not larger: an earlier entry stays ahead of equal keys. */
  function InsertRecent(x: StoredWord, s: seq<StoredWord>): (t: seq<StoredWord>)
    requires LatestFirst(s)
    ensures LatestFirst(t) && multiset(t) == multiset(s) + multiset{x} && |t| == |s| + 1
    ensures t[0] == x || (s != [] && t[0] == s[0])
  {
    if s == [] || RecentKey(x) >= RecentKey(s[0]) then
      ConsLatest(x, s);
      [x] + s
    else
      var rest := InsertRecent(x, s[1..]);
      assert rest[0] == x || rest[0] == s[1];
      ConsLatest(s[0], rest);
      ConsCount(s, rest, x);
      [s[0]] + rest
  }

  lemma ConsCount(s: seq<StoredWord>, rest: seq<StoredWord>, x: StoredWord)
    requires s != [] && multiset(rest) == multiset(s[1..]) + multiset{x}
    ensures multiset([s[0]] + rest) == multiset(s) + multiset{x}
  {
    assert s == [s[0]] + s[1..];
  }

  /** A word reviewed no earlier than the head of a latest-first list can go in front of it. */
  lemma ConsLatest(h: StoredWord, s: seq<StoredWord>)
    requires LatestFirst(s) && (s == [] || RecentKey(s[0]) <= RecentKey(h))
    ensures LatestFirst([h] + s)
  {
    var t := [h] + s;
    forall i, j | 0 <= i < j < |t|
      ensures RecentKey(t[i]) >= RecentKey(t[j])
    {
      if i == 0 {
        assert t[j] == s[j - 1];
        if j > 1 {
          assert RecentKey(s[0]) >= RecentKey(s[j - 1]);
        }
      } else {
        assert t[i] == s[i - 1] && t[j] == s[j - 1];
      }
    }
  }

  /** `sorted(words.items(), key=last_review, reverse=True)`, a stable sort. */
  function SortRecent(ws: seq<StoredWord>): (t: seq<StoredWord>)
    ensures LatestFirst(t) && multiset(t) == multiset(ws) && |t| == |ws|
  {
    if ws == [] then []
    else
      assert ws == [ws[0]] + ws[1..];
      InsertRecent(ws[0], SortRecent(ws[1..]))
  }

  /**
    `recent_words[:5]` of `sorted(...)[:10]`: the five words reviewed last,
    latest first.  No word left out was reviewed later than any word kept.
  */
  function RecentWords(ws: seq<StoredWord>): (r: seq<StoredWord>)
    ensures |r| == if |ws| < RecentCount then |ws| else RecentCount
    ensures LatestFirst(r) && multiset(r) <= multiset(ws)
    ensures forall x :: x in multiset(ws) - multiset(r) ==>
      forall i :: 0 <= i < |r| ==> RecentKey(x) <= RecentKey(r[i])
  {
    var sorted := SortRecent(ws);
    var top := sorted[..Min(|sorted|, 10)];
    var n: nat := Min(|top|, RecentCount);
    assert top[..n] == sorted[..n];
    TopOfSorted(sorted, n);
    LeftOutAreOlder(ws, sorted[..n], sorted[n..]);
    top[..n]
  }

  /** What is left out of a split of the words was reviewed no later than anything kept. */
  lemma LeftOutAreOlder(ws: seq<StoredWord>, r: seq<StoredWord>, rest: seq<StoredWord>)
    requires multiset(ws) == multiset(r) + multiset(rest)
    requires forall x :: x in multiset(rest) ==> forall i :: 0 <= i < |r| ==> RecentKey(x) <= RecentKey(r[i])
    ensures multiset(r) <= multiset(ws)
    ensures forall x :: x in multiset(ws) - multiset(r) ==>
      forall i :: 0 <= i < |r| ==> RecentKey(x) <= RecentKey(r[i])
  {
    assert multiset(ws) - multiset(r) == multiset(rest);
  }

  /** The first `n` entries of a latest-first list were reviewed no earlier than any of the others. */
  lemma TopOfSorted(sorted: seq<StoredWord>, n: nat)
    requires LatestFirst(sorted) && n <= |sorted|
    ensures LatestFirst(sorted[..n])
    ensures multiset(sorted) == multiset(sorted[..n]) + multiset(sorted[n..])
    ensures forall x :: x in multiset(sorted[n..]) ==>
      forall i :: 0 <= i < n ==> RecentKey(x) <= RecentKey(sorted[..n][i])
  {
    var rest := sorted[n..];
    assert sorted == sorted[..n] + rest;
    forall x | x in multiset(rest)
      ensures forall i :: 0 <= i < n ==> RecentKey(x) <= RecentKey(sorted[i])
    {
      var j :| 0 <= j < |rest| && rest[j] == x;
      assert sorted[n + j] == x;
    }
  }

  /** `calculate_statistics` without the float rounding and the timestamp. */
  method CalculateStatistics(words: seq<StoredWord>, today: Day) returns (s: Statistics)
    ensures s.totalLearned == |words|
    ensures s.totalReviews == TotalReviews(words)
    ensures s.masteryDistribution == Histogram(words)
    ensures s.masteryRate == MasteryRate(words) && s.progress == ProgressPercent(words)
    ensures IsStreak(StudyDates(words), today, s.streakDays)
    ensures s.todayReviewCount == TodayReviewCount(words, today)
    ensures s.recentWords == RecentWords(words)
    ensures IsDailyStats(words, today, s.dailyStats) && TotalCount(s.dailyStats) <= |words|
  {
    var streak := CalculateStreak(words, today);
    var daily := CalculateDailyStats(words, today);
    s := Statistics(
      |words|, TotalReviews(words), MasteryRate(words), ProgressPercent(words),
      streak, TodayReviewCount(words, today), Histogram(words), RecentWords(words), daily);
  }
}
