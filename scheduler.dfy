/**
  The spaced-repetition word scheduler (`WordSelectorV2` in
  src/core/word_selector.py).

  It keeps a review record per introduced word, keyed by corpus index,
  and the set of indices already introduced as new words.  Each day it
  hands out the words whose review date has come, tops the day's quota up
  with new words, and after a review moves the word's next review along
  the interval table.  When too few unused words remain, it forgets all
  history and starts over on the whole corpus.

  Dates are day numbers and "today" is a parameter; every call of
  `random.sample` is replaced by a draw the caller supplies, which must
  be one that `random.sample` could have returned.
*/
module Scheduler {
  import opened Wrappers
  import opened Indices
  import opened Parser


  /** `REVIEW_INTERVALS`: days until the next review, indexed by mastery level. */
  const ReviewIntervals: seq<nat> := [1, 2, 4, 7, 15, 30]

  /** Mastery is clamped to the last index of the interval table. */
  const MaxLevel: nat := |ReviewIntervals| - 1

  /** `get_progress` calls a word mastered from this level on; a literal, not derived from the table. */
  const MasteredLevel: nat := 5

  /** One entry of `words_data`. */
  datatype Record = Record(
    word: string,
    firstLearned: Day,
    reviewCount: nat,
    lastReview: Day,
    nextReview: Day,
    masteryLevel: nat)

  /** A word handed out for the day: a corpus entry tagged with its index and `is_review`. */
  datatype Pick =
    | NewWord(entry: Word, index: nat)
    | ReviewWord(entry: Word, index: nat, reviewCount: nat, masteryLevel: nat)
  {
    predicate IsReview() { ReviewWord? }
  }

  datatype Progress = Progress(
    total: nat,
    learned: nat,
    mastered: nat,
    progressPercent: real,
    masteryPercent: real)

  /** The persisted state: `words` and `used_indices` of the history file. */
  datatype Saved = Saved(words: map<nat, Record>, usedIndices: set<nat>)

  // ---- records ----

  /** What the scheduler keeps true of each record it writes. */
  predicate RecordOk(r: Record) {
    && r.masteryLevel == Min(r.reviewCount, MaxLevel)
    && r.lastReview < r.nextReview
  }

  /** The state invariant: every record belongs to an introduced index, and every record is consistent. */
  predicate StateOk(data: map<nat, Record>, used: set<nat>) {
    && data.Keys <= used
    && forall k :: k in data ==> RecordOk(data[k])
  }

  /** The record of a word introduced today. */
  function Fresh(word: string, today: Day): (r: Record)
    ensures RecordOk(r) && r.reviewCount == 0 && r.masteryLevel == 0
    ensures r.firstLearned == r.lastReview == today && r.nextReview == today + 1
  {
    Record(word, today, 0, today, today + ReviewIntervals[0], 0)
  }

  /** Days until the next review at a mastery level; 30 past the end of the table. */
  function Interval(level: nat): (days: nat)
    ensures days > 0
  {
    if level < |ReviewIntervals| then ReviewIntervals[level] else 30
  }

  /**
    `mark_reviewed` on a known word: one more review, reviewed today,
    mastery the review count clamped to the table, next review after the
    interval of that level.
  */
  function Advance(r: Record, today: Day): (a: Record)
    ensures RecordOk(a)
    ensures a.word == r.word && a.firstLearned == r.firstLearned
    ensures a.reviewCount == r.reviewCount + 1 && a.lastReview == today
  {
    var count := r.reviewCount + 1;
    var level := Min(count, MaxLevel);
    r.(reviewCount := count, lastReview := today, masteryLevel := level,
       nextReview := today + Interval(level))
  }

  /** Mastery never exceeds the last level, never goes down, and the next review is strictly later than today. */
  lemma AdvanceProgresses(r: Record, today: Day)
    requires RecordOk(r)
    ensures r.masteryLevel <= Advance(r, today).masteryLevel <= MaxLevel
    ensures Advance(r, today).nextReview > Advance(r, today).lastReview == today
  {
  }

  /** The level `mark_reviewed` computes is always inside the table: the 30-day fallback is never taken. */
  lemma FallbackUnreachable(r: Record, today: Day)
    ensures Advance(r, today).masteryLevel < |ReviewIntervals|
    ensures Advance(r, today).nextReview == today + ReviewIntervals[Advance(r, today).masteryLevel]
  {
  }

  /** `n` reviews on successive days, starting on `today`. */
  function AdvanceTimes(r: Record, n: nat, today: Day): Record
    decreases n
  {
    if n == 0 then r else AdvanceTimes(Advance(r, today), n - 1, today + 1)
  }

  /**
    From a fresh record, after `n` reviews the mastery level is `min(n, 5)`:
    levels 1, 2, 3, 4, 5, 5, ... and the review count is `n`.
  */
  lemma {:induction false} MasteryLadder(r: Record, n: nat, today: Day)
    requires RecordOk(r)
    ensures AdvanceTimes(r, n, today).reviewCount == r.reviewCount + n
    ensures AdvanceTimes(r, n, today).masteryLevel == Min(r.reviewCount + n, MaxLevel)
    ensures r.masteryLevel <= AdvanceTimes(r, n, today).masteryLevel
    decreases n
  {
    if n > 0 {
      MasteryLadder(Advance(r, today), n - 1, today + 1);
    }
  }

  /** Once at the top level, every further review waits 30 days, the last entry of the table. */
  lemma TopLevelWaitsThirty(r: Record, today: Day)
    requires r.reviewCount + 1 >= MaxLevel
    ensures Advance(r, today).masteryLevel == MaxLevel
    ensures Advance(r, today).nextReview == today + 30
  {
  }

  // ---- due words ----

  /** The indices `get_due_review_words` reports: a record due by today, inside the corpus. */
  function DueIndices(data: map<nat, Record>, n: nat, today: Day): set<nat> {
    set k | k in data && data[k].nextReview <= today && k < n
  }

  /** The review entry for a due index: the corpus word with the stored count and level. */
  function ReviewOf(corpus: seq<Word>, data: map<nat, Record>, k: nat): Pick
    requires k in data && k < |corpus|
  {
    ReviewWord(corpus[k], k, data[k].reviewCount, data[k].masteryLevel)
  }

  /** The corpus indices of a list of entries, in order. */
  function IndexSeq(ps: seq<Pick>): (ix: seq<nat>)
    ensures |ix| == |ps| && forall i :: 0 <= i < |ps| ==> ix[i] == ps[i].index
  {
    seq(|ps|, i requires 0 <= i < |ps| => ps[i].index)
  }

  /** The due list is exactly the due records, each once, as review entries. */
  predicate IsDueList(due: seq<Pick>, corpus: seq<Word>, data: map<nat, Record>, today: Day) {
    && Elems(IndexSeq(due)) == DueIndices(data, |corpus|, today)
    && |due| == |DueIndices(data, |corpus|, today)|
    && Distinct(IndexSeq(due))
    && forall i :: 0 <= i < |due| ==>
         due[i].index in data && due[i].index < |corpus| && due[i] == ReviewOf(corpus, data, due[i].index)
  }

  // ---- new words ----

  /** The review data after the chosen indices get fresh records on top of `base`. */
  function WithFresh(base: map<nat, Record>, choice: seq<nat>, corpus: seq<Word>, today: Day): (data: map<nat, Record>)
    requires forall i :: 0 <= i < |choice| ==> choice[i] < |corpus|
    ensures data.Keys == base.Keys + Elems(choice)
  {
    map k | k in base.Keys + Elems(choice) :: if k in choice then Fresh(corpus[k].word, today) else base[k]
  }

  lemma WithFreshStep(base: map<nat, Record>, choice: seq<nat>, i: nat, corpus: seq<Word>, today: Day)
    requires i < |choice| && forall j :: 0 <= j < |choice| ==> choice[j] < |corpus|
    ensures WithFresh(base, choice[..i + 1], corpus, today) ==
      WithFresh(base, choice[..i], corpus, today)[choice[i] := Fresh(corpus[choice[i]].word, today)]
    ensures NewPicks(choice[..i + 1], corpus) ==
      NewPicks(choice[..i], corpus) + [NewWord(corpus[choice[i]], choice[i])]
    ensures Elems(choice[..i + 1]) == Elems(choice[..i]) + {choice[i]}
  {
    assert choice[..i + 1] == choice[..i] + [choice[i]];
  }

  /** The history a draw of `count` starts from: everything, or nothing after the exhaustion reset. */
  function BaseData(data: map<nat, Record>, used: set<nat>, n: nat, count: nat): map<nat, Record> {
    if Resets(used, n, count) then map[] else data
  }

  function BaseUsed(used: set<nat>, n: nat, count: nat): set<nat> {
    if Resets(used, n, count) then {} else used
  }

  /** `choice` is a draw `select_new_words` may make for `count` words. */
  predicate IsNewDraw(choice: seq<nat>, used: set<nat>, n: nat, count: nat) {
    IsSample(choice, Pool(used, n, count), Min(count, |Pool(used, n, count)|))
  }

  /** The new-word entries for a draw, in draw order. */
  function NewPicks(choice: seq<nat>, corpus: seq<Word>): (ps: seq<Pick>)
    requires forall i :: 0 <= i < |choice| ==> choice[i] < |corpus|
    ensures |ps| == |choice|
    ensures forall i :: 0 <= i < |ps| ==> !ps[i].IsReview() && ps[i].index == choice[i]
  {
    seq(|choice|, i requires 0 <= i < |choice| => NewWord(corpus[choice[i]], choice[i]))
  }

  lemma DrawInCorpus(choice: seq<nat>, used: set<nat>, n: nat, count: nat)
    requires IsNewDraw(choice, used, n, count)
    ensures forall i :: 0 <= i < |choice| ==> choice[i] < n
  {
  }

  /**
    A draw takes `min(count, pool size)` distinct indices; without the reset
    none of them was introduced before, and after the reset the pool is the
    whole corpus.
  */
  lemma DrawShape(choice: seq<nat>, used: set<nat>, n: nat, count: nat)
    requires IsNewDraw(choice, used, n, count)
    ensures Distinct(choice)
    ensures !Resets(used, n, count) ==> |choice| == count && Elems(choice) !! used
    ensures Resets(used, n, count) ==> |choice| == Min(count, n)
  {
  }

  /**
    The reset: when fewer unused indices remain than requested, after the
    draw the introduced set and the record keys are exactly the drawn
    indices; all earlier history is gone.
  */
  lemma ResetForgetsHistory(data: map<nat, Record>, used: set<nat>, corpus: seq<Word>, count: nat, choice: seq<nat>, today: Day)
    requires IsNewDraw(choice, used, |corpus|, count) && Resets(used, |corpus|, count)
    ensures BaseUsed(used, |corpus|, count) + Elems(choice) == Elems(choice)
    ensures WithFresh(BaseData(data, used, |corpus|, count), choice, corpus, today).Keys == Elems(choice)
  {
  }

  /**
    The introduced set grows by exactly the number of words drawn, from
    what it was (or from nothing after the reset).
  */
  lemma UsedGrowth(used: set<nat>, n: nat, count: nat, choice: seq<nat>)
    requires IsNewDraw(choice, used, n, count)
    ensures |BaseUsed(used, n, count) + Elems(choice)| == |BaseUsed(used, n, count)| + |choice|
  {
    DistinctCard(choice);
    if !Resets(used, n, count) {
      assert Elems(choice) !! used;
    }
  }

  /** A draw keeps the state invariant; after the reset it holds whatever the state was before. */
  lemma DrawKeepsState(data: map<nat, Record>, used: set<nat>, corpus: seq<Word>, count: nat, choice: seq<nat>, today: Day)
    requires IsNewDraw(choice, used, |corpus|, count)
    requires StateOk(data, used) || Resets(used, |corpus|, count)
    ensures StateOk(
      WithFresh(BaseData(data, used, |corpus|, count), choice, corpus, today),
      BaseUsed(used, |corpus|, count) + Elems(choice))
  {
  }

  /**
    Records of indices that were not drawn are untouched by a draw without
    reset; after a reset they are gone, even for a word that was handed out
    as a review in the same `select_words` call.
  */
  lemma UndrawnRecords(data: map<nat, Record>, used: set<nat>, corpus: seq<Word>, count: nat, choice: seq<nat>, today: Day, k: nat)
    requires IsNewDraw(choice, used, |corpus|, count) && k !in choice
    ensures var after := WithFresh(BaseData(data, used, |corpus|, count), choice, corpus, today);
      && (!Resets(used, |corpus|, count) && k in data ==> k in after && after[k] == data[k])
      && (Resets(used, |corpus|, count) ==> k !in after)
  {
  }

  /** Successive draws with no reset in between never hand out the same index twice. */
  lemma NoRepeatedNewWords(used: set<nat>, n: nat, c1: nat, ch1: seq<nat>, c2: nat, ch2: seq<nat>)
    requires IsNewDraw(ch1, used, n, c1)
    requires IsNewDraw(ch2, BaseUsed(used, n, c1) + Elems(ch1), n, c2)
    requires !Resets(BaseUsed(used, n, c1) + Elems(ch1), n, c2)
    ensures Elems(ch1) !! Elems(ch2)
  {
    forall i | 0 <= i < |ch2|
      ensures ch2[i] !in Elems(ch1)
    {
      assert ch2[i] in Pool(BaseUsed(used, n, c1) + Elems(ch1), n, c2);
    }
  }

  // ---- select_words ----

  /** Reviews handed out: all due ones, or `reviewCount` of them when more are due. */
  function ReviewQuota(dueCount: nat, reviewCount: nat): (q: nat)
    ensures dueCount > reviewCount ==> q == reviewCount
    ensures dueCount <= reviewCount ==> q == dueCount
  {
    Min(dueCount, reviewCount)
  }

  /** New words requested: the new quota plus the review shortfall. */
  function NewQuota(dueCount: nat, newCount: nat, reviewCount: nat): (m: nat)
    ensures ReviewQuota(dueCount, reviewCount) + m == newCount + reviewCount
    ensures m >= newCount && (dueCount >= reviewCount ==> m == newCount)
  {
    newCount + (reviewCount - ReviewQuota(dueCount, reviewCount))
  }

  /**
    The day's total is `newCount + reviewCount` whenever the corpus has
    that many words, however many reviews were due.
  */
  lemma QuotaKept(used: set<nat>, n: nat, dueCount: nat, newCount: nat, reviewCount: nat, choice: seq<nat>)
    requires IsNewDraw(choice, used, n, NewQuota(dueCount, newCount, reviewCount))
    requires n >= newCount + reviewCount
    ensures |choice| + ReviewQuota(dueCount, reviewCount) == newCount + reviewCount
  {
    var count := NewQuota(dueCount, newCount, reviewCount);
    DrawShape(choice, used, n, count);
  }

  /** `random.sample(review_words, review_count)`: positions of the due list. */
  predicate IsReviewDraw(positions: seq<nat>, dueCount: nat, reviewCount: nat) {
    dueCount > reviewCount ==> IsSample(positions, Range(dueCount), reviewCount)
  }

  // ---- progress ----

  function MasteredKeys(data: map<nat, Record>): set<nat> {
    set k | k in data && data[k].masteryLevel >= MasteredLevel
  }

  /** `get_progress`, with the percentages as exact ratios. */
  function ProgressOf(data: map<nat, Record>, used: set<nat>, total: nat): (p: Progress)
    ensures total == 0 ==> p.progressPercent == 0.0
    ensures p.learned == 0 ==> p.masteryPercent == 0.0
  {
    var learned := |used|;
    var mastered := |MasteredKeys(data)|;
    Progress(
      total, learned, mastered,
      Percent(learned, total), Percent(mastered, learned))
  }

  /**
    Under the state invariant no more words are mastered than were
    introduced, so the mastery percentage is at most 100; mastered words
    are exactly those reviewed at least five times.
  */
  lemma MasteredWithinLearned(data: map<nat, Record>, used: set<nat>, total: nat)
    requires StateOk(data, used)
    ensures ProgressOf(data, used, total).mastered <= ProgressOf(data, used, total).learned
    ensures 0.0 <= ProgressOf(data, used, total).masteryPercent <= 100.0
    ensures forall k :: k in MasteredKeys(data) <==> k in data && data[k].reviewCount >= 5
  {
    var m := MasteredKeys(data);
    assert m <= used;
    assert used == m + (used - m);
  }

  // ---- the scheduler object ----

  class WordSelectorV2 {
    /** `words_data` */
    var wordsData: map<nat, Record>
    /** `used_indices` */
    var usedIndices: set<nat>

    ghost predicate Inv()
      reads this
    {
      StateOk(wordsData, usedIndices)
    }

    /** `load_history`: the saved state, or an empty one when the file is missing or corrupt. */
    constructor (saved: Option<Saved>)
      ensures saved.None? ==> wordsData == map[] && usedIndices == {} && Inv()
      ensures saved.Some? ==> wordsData == saved.value.words && usedIndices == saved.value.usedIndices
    {
      match saved
      case None =>
        wordsData := map[];
        usedIndices := {};
      case Some(s) =>
        wordsData := s.words;
        usedIndices := s.usedIndices;
    }

    /** `get_due_review_words`: every due record inside the corpus, as a review entry. */
    method DueReviewWords(corpus: seq<Word>, today: Day) returns (due: seq<Pick>)
      ensures IsDueList(due, corpus, wordsData, today)
      ensures forall i :: 0 <= i < |due| ==> due[i].IsReview()
    {
      due := [];
      var pending := wordsData.Keys;
      ghost var dueSet := DueIndices(wordsData, |corpus|, today);
      while pending != {}
        invariant pending <= wordsData.Keys
        invariant Distinct(IndexSeq(due))
        invariant forall i :: 0 <= i < |due| ==>
          && due[i].index in dueSet && due[i].index !in pending
          && due[i].index in wordsData && due[i].index < |corpus| && due[i] == ReviewOf(corpus, wordsData, due[i].index)
        invariant forall k :: k in dueSet && k !in pending ==> k in Elems(IndexSeq(due))
        decreases pending
      {
        var k :| k in pending;
        pending := pending - {k};
        if wordsData[k].nextReview <= today && k < |corpus| {
          assert IndexSeq(due + [ReviewOf(corpus, wordsData, k)]) == IndexSeq(due) + [k];
          due := due + [ReviewOf(corpus, wordsData, k)];
        }
      }
      DistinctCard(IndexSeq(due));
    }

    /**
      `select_new_words`: when fewer unused indices remain than `count`,
      forget all history; then give each drawn index a fresh record, mark
      it introduced, and return it as a new word.
    */
    method SelectNewWords(corpus: seq<Word>, count: nat, today: Day, choice: seq<nat>) returns (picked: seq<Pick>)
      requires IsNewDraw(choice, usedIndices, |corpus|, count)
      modifies this
      ensures forall i :: 0 <= i < |choice| ==> choice[i] < |corpus|
      ensures picked == NewPicks(choice, corpus)
      ensures |picked| == Min(count, |Pool(old(usedIndices), |corpus|, count)|)
      ensures usedIndices == BaseUsed(old(usedIndices), |corpus|, count) + Elems(choice)
      ensures wordsData == WithFresh(BaseData(old(wordsData), old(usedIndices), |corpus|, count), choice, corpus, today)
      ensures old(Inv()) || Resets(old(usedIndices), |corpus|, count) ==> Inv()
    {
      DrawInCorpus(choice, usedIndices, |corpus|, count);
      ghost var wasOk := Inv();
      ghost var reset := Resets(usedIndices, |corpus|, count);
      ghost var data0, used0 := wordsData, usedIndices;
      var available := Available(|corpus|, usedIndices);
      if |available| < count {
        usedIndices := {};
        wordsData := map[];
        available := Range(|corpus|);
      }
      picked := AddFresh(corpus, choice, today);
      if wasOk || reset {
        DrawKeepsState(data0, used0, corpus, count, choice, today);
      }
    }

    /** The loop of `select_new_words`: record each drawn word as new today and mark it used. */
    method AddFresh(corpus: seq<Word>, choice: seq<nat>, today: Day) returns (picked: seq<Pick>)
      requires forall i :: 0 <= i < |choice| ==> choice[i] < |corpus|
      modifies this
      ensures picked == NewPicks(choice, corpus)
      ensures usedIndices == old(usedIndices) + Elems(choice)
      ensures wordsData == WithFresh(old(wordsData), choice, corpus, today)
    {
      ghost var base, used0 := wordsData, usedIndices;
      picked := [];
      var i := 0;
      while i < |choice|
        invariant 0 <= i <= |choice|
        invariant usedIndices == used0 + Elems(choice[..i])
        invariant wordsData == WithFresh(base, choice[..i], corpus, today)
        invariant picked == NewPicks(choice[..i], corpus)
      {
        var idx := choice[i];
        WithFreshStep(base, choice, i, corpus, today);
        wordsData := wordsData[idx := Fresh(corpus[idx].word, today)];
        usedIndices := usedIndices + {idx};
        picked := picked + [NewWord(corpus[idx], idx)];
        i := i + 1;
      }
      assert choice[..i] == choice;
    }

    /**
      `select_words`: the due reviews (a draw of `reviewCount` of them when
      more are due), then new words for the new quota plus the review
      shortfall.  The reviews are found before the new-word draw, which may
      reset the history.
    */
    method SelectWords(corpus: seq<Word>, today: Day, reviewDraw: seq<nat>, newDraw: seq<nat>,
                       newCount: nat := 3, reviewCount: nat := 2)
      returns (newWords: seq<Pick>, reviewWords: seq<Pick>)
      requires IsReviewDraw(reviewDraw, |DueIndices(wordsData, |corpus|, today)|, reviewCount)
      requires IsNewDraw(newDraw, usedIndices, |corpus|,
        NewQuota(|DueIndices(wordsData, |corpus|, today)|, newCount, reviewCount))
      modifies this
      ensures var due := DueIndices(old(wordsData), |corpus|, today);
        && |reviewWords| == ReviewQuota(|due|, reviewCount)
        && (forall i, j :: 0 <= i < j < |reviewWords| ==> reviewWords[i].index != reviewWords[j].index)
        && (forall i :: 0 <= i < |reviewWords| ==>
              (reviewWords[i].index in due && reviewWords[i] == ReviewOf(corpus, old(wordsData), reviewWords[i].index)))
        && (|due| <= reviewCount ==> Elems(IndexSeq(reviewWords)) == due)
      ensures var count := NewQuota(|DueIndices(old(wordsData), |corpus|, today)|, newCount, reviewCount);
        && newWords == NewPicks(newDraw, corpus)
        && usedIndices == BaseUsed(old(usedIndices), |corpus|, count) + Elems(newDraw)
        && wordsData == WithFresh(BaseData(old(wordsData), old(usedIndices), |corpus|, count), newDraw, corpus, today)
        && (old(Inv()) || Resets(old(usedIndices), |corpus|, count) ==> Inv())
      ensures |corpus| >= newCount + reviewCount ==> |newWords| + |reviewWords| == newCount + reviewCount
    {
      var due := DueReviewWords(corpus, today);
      reviewWords := due;
      if |due| > reviewCount {
        reviewWords := seq(reviewCount, i requires 0 <= i < reviewCount => due[reviewDraw[i]]);
        forall i, j | 0 <= i < j < |reviewWords|
          ensures reviewWords[i].index != reviewWords[j].index
        {
          assert reviewDraw[i] != reviewDraw[j];
        }
      }
      var actualReview := |reviewWords|;
      var actualNew := newCount + (reviewCount - actualReview);
      ghost var count := NewQuota(|DueIndices(wordsData, |corpus|, today)|, newCount, reviewCount);
      assert actualNew == count;
      newWords := SelectNewWords(corpus, actualNew, today, newDraw);
      if |corpus| >= newCount + reviewCount {
        QuotaKept(old(usedIndices), |corpus|, |DueIndices(old(wordsData), |corpus|, today)|, newCount, reviewCount, newDraw);
      }
    }

    /** `mark_reviewed`: advance a known word's schedule; an unknown index changes nothing. */
    method MarkReviewed(index: nat, today: Day)
      modifies this
      ensures usedIndices == old(usedIndices)
      ensures index !in old(wordsData) ==> wordsData == old(wordsData)
      ensures index in old(wordsData) ==>
        wordsData == old(wordsData)[index := Advance(old(wordsData)[index], today)]
      ensures old(Inv()) ==> Inv()
    {
      if index !in wordsData {
        return;
      }
      var info := wordsData[index];
      info := info.(reviewCount := info.reviewCount + 1, lastReview := today);
      info := info.(masteryLevel := Min(info.reviewCount, |ReviewIntervals| - 1));
      var level := info.masteryLevel;
      if level < |ReviewIntervals| {
        info := info.(nextReview := today + ReviewIntervals[level]);
      } else {
        info := info.(nextReview := today + 30);
      }
      wordsData := wordsData[index := info];
    }

    /** `get_progress` */
    function GetProgress(totalWords: nat): (p: Progress)
      reads this
      ensures p == ProgressOf(wordsData, usedIndices, totalWords)
      ensures Inv() ==> p.mastered <= p.learned
    {
      var p := ProgressOf(wordsData, usedIndices, totalWords);
      if StateOk(wordsData, usedIndices) then
        MasteredWithinLearned(wordsData, usedIndices, totalWords);
        p
      else
        p
    }
  }
}
