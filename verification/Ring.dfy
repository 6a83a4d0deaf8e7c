/** Index arithmetic of a descriptor ring of `size` slots. A position is named by its
    distance from a reference slot, so wrap-around stays linear. */
module Ring {

  function NextDx(size: nat, dx: nat): nat
  {
    if dx + 1 >= size then 0 else dx + 1
  }

  function AvailDx(size: nat, head: nat, tail: nat): int
  {
    if tail >= head then size - 1 - tail + head else head - tail - 1
  }

  predicate DxInRange(h: nat, i: nat, t: nat)
  {
    if h < t then h < i && i < t else h < i || i < t
  }

  /** How many steps of NextDx lead from slot `from` to slot `to`. */
  function Dist(size: nat, from: nat, to: nat): nat
    requires from < size && to < size
  {
    if to >= from then to - from else to - from + size
  }

  /** The slot `k` steps after slot `h`. */
  function At(size: nat, h: nat, k: nat): (i: nat)
    requires h < size && k < size
    ensures i < size && Dist(size, h, i) == k
  {
    if h + k >= size then h + k - size else h + k
  }

  /** The range test is strict circular betweenness; with h == t it asks only for i != h. */
  lemma InRangeIsBetween(size: nat, h: nat, i: nat, t: nat)
    requires h < size && i < size && t < size
    ensures DxInRange(h, i, t) <==>
            0 < Dist(size, h, i) < (if h == t then size else Dist(size, h, t))
  {}

  /** Live slots and free slots always add up to size - 1. */
  lemma LivePlusAvail(size: nat, head: nat, tail: nat)
    requires head < size && tail < size
    ensures Dist(size, head, tail) + AvailDx(size, head, tail) == size - 1
  {}

  /** NextDx walks the positions in order and closes the circle after `size` steps. */
  lemma NextIsAt(size: nat, h: nat, k: nat)
    requires h < size && k < size
    ensures NextDx(size, At(size, h, k)) == if k + 1 < size then At(size, h, k + 1) else h
    ensures k > 0 ==> At(size, NextDx(size, h), k - 1) == At(size, h, k)
  {}

  /** The n slots of a ring from slot `tail` on. */
  function Window<T>(ring: seq<T>, tail: nat, n: nat): (r: seq<T>)
    requires tail < |ring| && n <= |ring|
    ensures |r| == n
  {
    seq(n, k requires 0 <= k < n => ring[At(|ring|, tail, k)])
  }

  /** Store xs in the slots from `at` on. */
  function Store<T>(ring: seq<T>, at: nat, xs: seq<T>): (r: seq<T>)
    requires at < |ring|
    ensures |r| == |ring|
    decreases |xs|
  {
    if xs == [] then ring else Store(ring[at := xs[0]], NextDx(|ring|, at), xs[1..])
  }

  /** What was stored can be read back, and nothing else has changed. */
  lemma {:induction false} StoreWindow<T>(ring: seq<T>, at: nat, xs: seq<T>)
    requires at < |ring| && |xs| <= |ring|
    ensures Window(Store(ring, at, xs), at, |xs|) == xs
    ensures forall i :: 0 <= i < |ring| && Dist(|ring|, at, i) >= |xs| ==> Store(ring, at, xs)[i] == ring[i]
    decreases |xs|
  {
    if xs != [] {
      var next := NextDx(|ring|, at);
      StoreWindow(ring[at := xs[0]], next, xs[1..]);
      var r := Store(ring, at, xs);
      assert Dist(|ring|, next, at) == |ring| - 1 || |ring| == 1;
      assert r[at] == xs[0];
      forall k | 0 < k < |xs|
        ensures r[At(|ring|, at, k)] == xs[k]
      {
        NextIsAt(|ring|, at, k);
        assert Window(r, next, |xs| - 1)[k - 1] == xs[1..][k - 1];
      }
      forall i | 0 <= i < |ring| && Dist(|ring|, at, i) >= |xs|
        ensures r[i] == ring[i]
      {
        assert Dist(|ring|, next, i) == Dist(|ring|, at, i) - 1;
      }
      assert At(|ring|, at, 0) == at;
    }
  }
}
