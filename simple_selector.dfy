/**
  The older word selector (`WordSelector` in word_selector.py).

  It keeps only the set of indices already handed out.  Each call draws
  `count` unused words; when fewer than `count` remain it first forgets
  the whole history and draws from the whole list.  Unlike the scheduler
  it asks `random.sample` for exactly `count` words, so a request larger
  than the word list fails, after the history has been wiped.
*/
module SimpleSelector {
  import opened Wrappers
  import opened Indices
  import opened Parser

  /** `random.sample` raising `ValueError`: the sample is larger than the population. */
  datatype SelectError = SampleLargerThanPopulation

  datatype Progress = Progress(total: nat, learned: nat, remaining: int, progressPercent: real)

  /** The introduced set after a successful draw of `choice`. */
  function NextUsed(used: set<nat>, n: nat, count: nat, choice: seq<nat>): set<nat> {
    (if Resets(used, n, count) then {} else used) + Elems(choice)
  }

  /** `choice` is a draw `select_words` may make: exactly `count` distinct indices of the pool. */
  predicate IsDraw(choice: seq<nat>, used: set<nat>, n: nat, count: nat) {
    IsSample(choice, Pool(used, n, count), count)
  }

  /** A draw of `count` exists exactly when the list has at least `count` words. */
  lemma DrawPossible(used: set<nat>, n: nat, count: nat)
    ensures |Pool(used, n, count)| >= count <==> count <= n
  {
    var a := Available(n, used);
    if !Resets(used, n, count) {
      assert |a| <= n by {
        assert |set x | x in used && x < n| >= 0;
      }
    }
  }

  /**
    After a draw the introduced set is the earlier one (or the empty set
    after a reset) with the drawn indices added; it grows by exactly
    `count`, and no index drawn without a reset had been introduced.
  */
  lemma {:induction false} Growth(used: set<nat>, n: nat, count: nat, choice: seq<nat>)
    requires IsDraw(choice, used, n, count)
    ensures !Resets(used, n, count) ==> Elems(choice) !! used
    ensures |NextUsed(used, n, count, choice)| ==
      (if Resets(used, n, count) then 0 else |used|) + count
  {
    DistinctCard(choice);
    if !Resets(used, n, count) {
      assert Elems(choice) !! used;
    }
  }

  /** Successive calls with no reset in between never return the same index twice. */
  lemma NoRepeats(used: set<nat>, n: nat, c1: nat, ch1: seq<nat>, c2: nat, ch2: seq<nat>)
    requires IsDraw(ch1, used, n, c1)
    requires IsDraw(ch2, NextUsed(used, n, c1, ch1), n, c2)
    requires !Resets(NextUsed(used, n, c1, ch1), n, c2)
    ensures Elems(ch1) !! Elems(ch2)
  {
    forall i | 0 <= i < |ch2|
      ensures ch2[i] !in Elems(ch1)
    {
      assert ch2[i] in Pool(NextUsed(used, n, c1, ch1), n, c2);
    }
  }

  /** `get_progress`, with the percentage as an exact ratio. */
  function ProgressOf(used: set<nat>, total: nat): (p: Progress)
    ensures p.learned + p.remaining == total
    ensures total == 0 ==> p.progressPercent == 0.0
  {
    Progress(total, |used|, total - |used|, Percent(|used|, total))
  }

  /** While every introduced index lies inside the list, nothing remains negative and progress is at most 100. */
  lemma ProgressBounded(used: set<nat>, total: nat)
    requires forall i :: i in used ==> i < total
    ensures ProgressOf(used, total).remaining >= 0
    ensures 0.0 <= ProgressOf(used, total).progressPercent <= 100.0
  {
    BoundedSetCard(used, total);
  }

  class WordSelector {
    /** `used_indices` */
    var usedIndices: set<nat>

    /** `load_history`: the saved indices, or none when the file is missing or corrupt. */
    constructor (saved: Option<set<nat>>)
      ensures usedIndices == saved.GetOr({})
    {
      usedIndices := saved.GetOr({});
    }

    /**
      `select_words` without writing the history file: draw `count` words
      of the pool; when the list itself is shorter than `count` the draw
      fails, and the history has been cleared by then.
    */
    method SelectWords(words: seq<Word>, count: nat, choice: seq<nat>) returns (r: Result<seq<Word>, SelectError>)
      requires count <= |words| ==> IsDraw(choice, usedIndices, |words|, count)
      modifies this
      ensures count > |words| ==> r == Failure(SampleLargerThanPopulation) && usedIndices == {}
      ensures count <= |words| ==>
        && r.Success?
        && |r.value| == count
        && (forall i :: 0 <= i < count ==> choice[i] < |words| && r.value[i] == words[choice[i]])
        && usedIndices == NextUsed(old(usedIndices), |words|, count, choice)
    {
      var total := |words|;
      var available := Available(total, usedIndices);
      if |available| < count {
        usedIndices := {};
        available := Range(total);
      }
      if count > |available| {
        DrawPossible(old(usedIndices), total, count);
        return Failure(SampleLargerThanPopulation);
      }
      DrawPossible(old(usedIndices), total, count);
      var selected := seq(count, i requires 0 <= i < count => words[choice[i]]);
      usedIndices := usedIndices + Elems(choice);
      r := Success(selected);
    }

    /** `get_progress` */
    function GetProgress(totalWords: nat): (p: Progress)
      reads this
      ensures p == ProgressOf(usedIndices, totalWords)
      ensures (forall i :: i in usedIndices ==> i < totalWords) ==> p.remaining >= 0
    {
      var p := ProgressOf(usedIndices, totalWords);
      if forall i :: i in usedIndices ==> i < totalWords then
        ProgressBounded(usedIndices, totalWords);
        p
      else
        p
    }
  }
}
