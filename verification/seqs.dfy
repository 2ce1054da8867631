/** Queries over a collection kept in insertion order. */
module Seqs {
  import opened Base

  /** No position occurs twice. */
  predicate Distinct(r: seq<nat>) {
    forall i, j :: 0 <= i < j < |r| ==> r[i] != r[j]
  }

  /** `findOne(filter)` in natural order: the position of the oldest document that
      matches, if any. */
  function FindFirst<T>(s: seq<T>, p: T -> bool): (r: Option<nat>)
    ensures r.Some? ==> r.value < |s| && p(s[r.value])
    ensures r.Some? ==> forall j :: 0 <= j < r.value ==> !p(s[j])
    ensures r.None? <==> forall j :: 0 <= j < |s| ==> !p(s[j])
    decreases |s|
  {
    if |s| == 0 then None
    else if p(s[0]) then Some(0)
    else
      match FindFirst(s[1..], p)
      case None => None
      case Some(k) => Some(k + 1)
  }

  /** The positions below `n` whose documents match, oldest first (`find(filter)`). */
  function Positions<T>(s: seq<T>, p: T -> bool, n: nat): (r: seq<nat>)
    requires n <= |s|
    ensures forall k :: k in r ==> k < n
    ensures forall k :: 0 <= k < n ==> (k in r <==> p(s[k]))
    ensures forall i, j :: 0 <= i < j < |r| ==> r[i] < r[j]
    decreases n
  {
    if n == 0 then []
    else
      var before := Positions(s, p, n - 1);
      assert forall i :: 0 <= i < |before| ==> before[i] in before;
      if p(s[n - 1]) then before + [n - 1] else before
  }

  /** The positions below `n` whose documents match, newest first
      (`find(filter).sort({ createdAt: -1 })`). */
  function PositionsNewestFirst<T>(s: seq<T>, p: T -> bool, n: nat): (r: seq<nat>)
    requires n <= |s|
    ensures forall k :: k in r ==> k < n
    ensures forall k :: 0 <= k < n ==> (k in r <==> p(s[k]))
    ensures forall i, j :: 0 <= i < j < |r| ==> r[i] > r[j]
    decreases n
  {
    if n == 0 then []
    else
      var rest := PositionsNewestFirst(s, p, n - 1);
      assert forall i :: 0 <= i < |rest| ==> rest[i] in rest;
      if p(s[n - 1]) then [n - 1] + rest else rest
  }
}
