/**
 A stable ranking of a list, told by places: one item comes before another when it ranks above it,
 or as high and earlier in the list.
 */
module Ranking {
  import opened Basics

  ghost predicate Better<T>(above: (T, T) -> bool, items: seq<T>, i: nat, j: nat)
    requires i < |items| && j < |items|
  {
    above(items[i], items[j]) || (!above(items[j], items[i]) && i < j)
  }

  ghost predicate Places<T>(above: (T, T) -> bool, items: seq<T>, places: seq<nat>, ranked: seq<T>) {
    && |places| == |ranked|
    && (forall k :: 0 <= k < |places| ==> places[k] < |items| && ranked[k] == items[places[k]])
    && (forall k, l :: 0 <= k < l < |places| ==> Better(above, items, places[k], places[l]))
  }

  // Every item has its place.
  ghost predicate AllPlaced(places: seq<nat>, n: nat) {
    |places| == n && forall j: nat :: j < n ==> j in places
  }

  lemma PlacesOneMore<T>(above: (T, T) -> bool, items: seq<T>, places: seq<nat>, ranked: seq<T>, n: nat, k: nat)
    requires n + 1 == |items| && Places(above, items[..n], places, ranked) && k <= |ranked|
    requires forall l :: 0 <= l < k ==> !above(items[n], ranked[l])
    requires forall l :: k <= l < |ranked| ==> above(items[n], ranked[l])
    ensures Places(above, items, places[..k] + [n] + places[k..], ranked[..k] + [items[n]] + ranked[k..])
  {
    var after := places[..k] + [n] + places[k..];
    forall a, b | 0 <= a < b < |after|
      ensures Better(above, items, after[a], after[b])
    {
      assert after[a] == if a < k then places[a] else if a == k then n else places[a - 1];
      assert after[b] == if b < k then places[b] else if b == k then n else places[b - 1];
      if a != k && b != k {
        assert Better(above, items[..n], after[a], after[b]);
      }
    }
  }

  lemma PlacedOneMore(places: seq<nat>, n: nat, k: nat)
    requires AllPlaced(places, n) && k <= n
    ensures AllPlaced(places[..k] + [n] + places[k..], n + 1)
  {
    var after := places[..k] + [n] + places[k..];
    assert after[k] == n;
    forall j: nat | j < n
      ensures j in after
    {
      assert j in places;
      var i :| 0 <= i < |places| && places[i] == j;
      assert after[if i < k then i else i + 1] == j;
    }
  }

  // Of a ranked list cut to the limit the good items are the first p; what is left out is not good, or
  // the limit is reached and all of them are better.
  lemma LeftOutIsWorse<T>(above: (T, T) -> bool, good: T -> bool, items: seq<T>, all: seq<nat>, ranked: seq<T>,
                          limit: nat, p: nat, j: nat)
    requires Places(above, items, all, ranked) && AllPlaced(all, |items|)
    requires forall a, b :: !above(b, a) && good(b) ==> good(a)
    requires forall a, b :: above(a, b) ==> !above(b, a)
    requires p <= |Take(ranked, limit)|
    requires forall k :: 0 <= k < |Take(ranked, limit)| ==> (good(Take(ranked, limit)[k]) <==> k < p)
    requires j < |items| && j !in all[..p] && good(items[j])
    ensures p == limit && forall k :: 0 <= k < p ==> Better(above, items, all[k], j)
  {
    var cut := Take(ranked, limit);
    assert j in all;
    var l :| 0 <= l < |all| && all[l] == j;
    assert l >= p by { assert forall k :: 0 <= k < p ==> all[..p][k] == all[k]; }
    assert forall k :: 0 <= k < |cut| ==> cut[k] == ranked[k];
    assert |cut| <= l;
    if cut != [] { assert Better(above, items, all[|cut| - 1], all[l]); }
  }
}
