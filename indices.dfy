/**
  Corpus positions and the candidate pool that both word selectors draw from:
  `[i for i in range(total) if i not in used]`, the exhaustion reset that
  replaces it by `range(total)`, and what a `random.sample` draw from it is.
*/
module Indices {

  /** A calendar date, as a day number. */
  type Day = int

  function Min(a: int, b: int): (m: int)
    ensures m <= a && m <= b && (m == a || m == b)
  {
    if a <= b then a else b
  }

  /** `part / whole * 100` as an exact ratio, 0 when `whole` is 0. */
  function Percent(part: nat, whole: nat): (r: real)
    ensures r >= 0.0
    ensures whole == 0 ==> r == 0.0
    ensures part <= whole ==> r <= 100.0
  {
    if whole > 0 then
      assert part <= whole ==> part as real / whole as real <= 1.0;
      part as real / whole as real * 100.0
    else 0.0
  }

  /** No index occurs twice. */
  predicate Distinct<T(==)>(s: seq<T>) {
    forall i, j :: 0 <= i < j < |s| ==> s[i] != s[j]
  }

  /** The set of indices a sequence holds. */
  function Elems(s: seq<nat>): set<nat> {
    set x | x in s
  }

  lemma {:induction false} DistinctCard(s: seq<nat>)
    requires Distinct(s)
    ensures |Elems(s)| == |s|
  {
    if s != [] {
      var t := s[..|s| - 1];
      assert Distinct(t);
      DistinctCard(t);
      assert Elems(s) == Elems(t) + {s[|s| - 1]};
      assert s[|s| - 1] !in Elems(t);
    }
  }

  /** The indices below `n` that are not in `used`, ascending. */
  function Available(n: nat, used: set<nat>): (r: seq<nat>)
    ensures forall i, j :: 0 <= i < j < |r| ==> r[i] < r[j]
    ensures forall i :: 0 <= i < |r| ==> r[i] < n && r[i] !in used
    ensures forall x: nat :: x < n && x !in used ==> x in r
    ensures |r| + |set x | x in used && x < n| == n
  {
    if n == 0 then
      assert (set x | x in used && x < n) == {};
      []
    else
      var r := Available(n - 1, used);
      var below := set x | x in used && x < n - 1;
      assert (set x | x in used && x < n) == below + (if n - 1 in used then {n - 1} else {});
      if n - 1 in used then r else r + [n - 1]
  }

  /** `list(range(n))`. */
  function Range(n: nat): (r: seq<nat>)
    ensures |r| == n && forall i :: 0 <= i < n ==> r[i] == i
  {
    seq(n, i => i)
  }

  /** Fewer unused indices remain than were asked for: the selector wipes its history. */
  predicate Resets(used: set<nat>, n: nat, count: nat) {
    |Available(n, used)| < count
  }

  /** The pool a draw of `count` is taken from, after the exhaustion reset if there is one. */
  function Pool(used: set<nat>, n: nat, count: nat): (pool: seq<nat>)
    ensures Resets(used, n, count) ==> pool == Range(n)
    ensures !Resets(used, n, count) ==> |pool| >= count && forall i :: 0 <= i < |pool| ==> pool[i] !in used
    ensures forall i :: 0 <= i < |pool| ==> pool[i] < n
  {
    if Resets(used, n, count) then Range(n) else Available(n, used)
  }

  /** `choice` is what `random.sample(pool, k)` may return: `k` distinct members of the pool. */
  predicate IsSample(choice: seq<nat>, pool: seq<nat>, k: nat) {
    && |choice| == k
    && Distinct(choice)
    && forall i :: 0 <= i < |choice| ==> choice[i] in pool
  }

  /** Any set of indices below `n` has at most `n` members. */
  lemma BoundedSetCard(s: set<nat>, n: nat)
    requires forall x :: x in s ==> x < n
    ensures |s| <= n
  {
    var none: set<nat> := {};
    var r := Available(n, none);
    assert (set x | x in none && x < n) == {};
    assert s <= Elems(r);
    DistinctCard(r);
    assert Elems(r) == s + (Elems(r) - s);
  }
}
