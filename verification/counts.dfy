/**
 The value-count dictionary shared by the ranking code, and the queries made of
 it: its keys, the keys whose count equals a given number, the largest such key,
 and those keys in descending order.
 */
module Counts {
  import opened Optional

  /**
   Map from each value to its number of occurrences, built left to right the way
   `reduce(into: [:])` does: every value bumps its entry, starting from 0.
   */
  function ValueCounts(vals: seq<int>): (m: map<int, nat>)
    ensures forall v :: v in m <==> v in vals
    ensures forall v :: v in m ==> m[v] == multiset(vals)[v]
    decreases |vals|
  {
    if |vals| == 0 then map[]
    else
      var counts := ValueCounts(vals[..|vals| - 1]);
      var v := vals[|vals| - 1];
      assert vals == vals[..|vals| - 1] + [v];
      counts[v := (if v in counts then counts[v] else 0) + 1]
  }

  /** No value appears twice in `xs`. */
  predicate Distinct(xs: seq<int>) {
    forall i, j :: 0 <= i < j < |xs| ==> xs[i] != xs[j]
  }

  /**
   The keys of `ValueCounts(vals)`, each once, in order of first occurrence
   (the dictionary's `keys`; their order never matters to the callers).
   */
  function Keys(vals: seq<int>): (ks: seq<int>)
    ensures Distinct(ks)
    ensures forall v :: v in ks <==> v in vals
    decreases |vals|
  {
    if |vals| == 0 then []
    else
      var ks := Keys(vals[..|vals| - 1]);
      var v := vals[|vals| - 1];
      assert vals == vals[..|vals| - 1] + [v];
      if v in ks then ks else ks + [v]
  }

  /** The keys among `ks` whose count in `m` is exactly `c` (a `filter` on the dictionary). */
  function KeysWithCount(ks: seq<int>, m: map<int, nat>, c: int): (r: seq<int>)
    requires forall k :: k in ks ==> k in m
    ensures forall k :: k in r <==> k in ks && m[k] == c
    ensures Distinct(ks) ==> Distinct(r)
    ensures |r| <= |ks|
    decreases |ks|
  {
    if |ks| == 0 then []
    else
      var rest := KeysWithCount(ks[1..], m, c);
      var k := ks[0];
      assert k in ks;
      assert forall j :: j in ks[1..] ==> j in ks;
      if m[k] == c then [k] + rest else rest
  }

  /** The largest element of `vals`, or None when it is empty (Swift's `max()`). */
  function MaxOf(vals: seq<int>): (r: Option<int>)
    ensures r.None? <==> |vals| == 0
    ensures r.Some? ==> r.value in vals && forall i :: 0 <= i < |vals| ==> vals[i] <= r.value
    decreases |vals|
  {
    if |vals| == 0 then None
    else
      var rest := MaxOf(vals[1..]);
      if rest.Some? && rest.value > vals[0] then rest else Some(vals[0])
  }

  /** `xs` is in non-increasing order. */
  predicate Descending(xs: seq<int>) {
    forall i, j :: 0 <= i < j < |xs| ==> xs[i] >= xs[j]
  }

  /** Putting a bound of a descending sequence in front keeps it descending. */
  lemma ConsDescending(a: int, xs: seq<int>)
    requires Descending(xs)
    requires forall y :: y in xs ==> y <= a
    ensures Descending([a] + xs)
  {
    var r := [a] + xs;
    forall i, j | 0 <= i < j < |r|
      ensures r[i] >= r[j]
    {
      assert r[j] == xs[j - 1] && xs[j - 1] in xs;
      if i > 0 {
        assert r[i] == xs[i - 1];
      }
    }
  }

  /** Puts `x` into the descending sequence `xs` at its place. */
  function Insert(x: int, xs: seq<int>): (r: seq<int>)
    requires Descending(xs)
    ensures Descending(r)
    ensures multiset(r) == multiset(xs) + multiset{x}
    decreases |xs|
  {
    if |xs| == 0 || x >= xs[0] then
      ConsDescending(x, xs);
      [x] + xs
    else
      var rest := Insert(x, xs[1..]);
      assert xs == [xs[0]] + xs[1..];
      assert forall y :: y in rest ==> y <= xs[0] by {
        forall y | y in rest
          ensures y <= xs[0]
        {
          assert y in multiset(rest);
        }
      }
      ConsDescending(xs[0], rest);
      [xs[0]] + rest
  }

  /** The elements of `xs`, largest first (Swift's `sorted(by: >)`). */
  function SortDescending(xs: seq<int>): (r: seq<int>)
    ensures Descending(r)
    ensures multiset(r) == multiset(xs)
    decreases |xs|
  {
    if |xs| == 0 then []
    else
      assert xs == [xs[0]] + xs[1..];
      Insert(xs[0], SortDescending(xs[1..]))
  }

  /** In a sequence without repeats every value is counted at most once. */
  lemma {:induction false} DistinctCountsOnce(xs: seq<int>)
    requires Distinct(xs)
    ensures forall v :: multiset(xs)[v] <= 1
    decreases |xs|
  {
    if |xs| > 0 {
      assert xs == [xs[0]] + xs[1..];
      DistinctCountsOnce(xs[1..]);
      assert xs[0] !in xs[1..];
    }
  }

  /** A value at two positions is counted at least twice. */
  lemma {:induction false} TwiceCounted(xs: seq<int>, i: nat, j: nat)
    requires i < j < |xs| && xs[i] == xs[j]
    ensures multiset(xs)[xs[i]] >= 2
  {
    assert xs == xs[..i] + [xs[i]] + xs[i + 1..j] + [xs[j]] + xs[j + 1..];
  }

  /** Sorting a sequence without repeats gives a strictly decreasing sequence of the same values. */
  lemma {:induction false} SortDistinct(xs: seq<int>)
    requires Distinct(xs)
    ensures |SortDescending(xs)| == |xs|
    ensures forall v :: v in SortDescending(xs) <==> v in xs
    ensures forall i, j :: 0 <= i < j < |SortDescending(xs)| ==> SortDescending(xs)[i] > SortDescending(xs)[j]
  {
    var r := SortDescending(xs);
    assert |r| == |multiset(r)| == |multiset(xs)| == |xs|;
    forall v
      ensures v in r <==> v in xs
    {
      assert v in r <==> v in multiset(r);
      assert v in xs <==> v in multiset(xs);
    }
    DistinctCountsOnce(xs);
    forall i, j | 0 <= i < j < |r|
      ensures r[i] > r[j]
    {
      if r[i] == r[j] {
        TwiceCounted(r, i, j);
      }
    }
  }
}
