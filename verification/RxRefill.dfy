/** The loop of aq_ring_rx_fill slot by slot, and what it comes to: a whole refill when no page
    is refused, the first part of one otherwise. */
module RxRefill {
  import opened Wrappers
  import opened Ring
  import opened RxProtocol
  import opened RxSafety
  import opened RxDelivery
  import Pages = RxPages

  datatype Filling = Filling(ring: seq<RxSlot>, tail: nat, ps: Pages.State, ok: bool)

  function FreshSlot(b: RxSlot): RxSlot
  {
    b.(isEop := false, isError := false, isCleaned := false, len := RX_FRAME_MAX)
  }

  /** The loop with n slots to go. */
  function FillAll(ring: seq<RxSlot>, tail: nat, ps: Pages.State, n: nat, given: nat -> Option<nat>, k: nat): Filling
    requires tail < |ring| == |ps.slots| == |ps.taken|
    decreases n
  {
    if n == 0 then Filling(ring, tail, ps, true)
    else
      var cleared := ring[tail := FreshSlot(ring[tail])];
      var qs := Pages.GetRxPages(ps, tail, given(k));
      if qs.slots[tail].None? then Filling(cleared, tail, qs, false)
      else FillAll(cleared, NextDx(|ring|, tail), qs, n - 1, given, k + 1)
  }

  lemma WindowNext<T>(ring: seq<T>, tail: nat, x: T, m: nat)
    requires tail < |ring| && 0 < m <= |ring|
    ensures Window(ring, tail, m) == [ring[tail]] + Window(ring[tail := x], NextDx(|ring|, tail), m - 1)
  {
    var next := NextDx(|ring|, tail);
    var rest := Window(ring[tail := x], next, m - 1);
    assert At(|ring|, tail, 0) == tail;
    forall j | 0 <= j < m - 1
      ensures rest[j] == Window(ring, tail, m)[j + 1]
    {
      NextIsAt(|ring|, tail, j + 1);
      assert At(|ring|, next, j) == At(|ring|, tail, j + 1) != tail;
    }
  }

  lemma RefreshNext(b: RxSlot, rest: seq<RxSlot>)
    ensures Refreshed([b] + rest) == [FreshSlot(b)] + Refreshed(rest)
  {}

  lemma ClearOne(ring: seq<RxSlot>, tail: nat, m: nat)
    requires tail < |ring| && 0 < m <= |ring|
    ensures var cleared := ring[tail := FreshSlot(ring[tail])];
            Cleared(ring, tail, m) == Cleared(cleared, NextDx(|ring|, tail), m - 1)
  {
    var cleared, next := ring[tail := FreshSlot(ring[tail])], NextDx(|ring|, tail);
    WindowNext(ring, tail, FreshSlot(ring[tail]), m);
    RefreshNext(ring[tail], Window(cleared, next, m - 1));
    var rest := Refreshed(Window(cleared, next, m - 1));
    StoreNext(ring, tail, FreshSlot(ring[tail]), rest);
  }

  lemma StoreNext<T>(ring: seq<T>, at: nat, x: T, rest: seq<T>)
    requires at < |ring|
    ensures Store(ring, at, [x] + rest) == Store(ring[at := x], NextDx(|ring|, at), rest)
  {
    assert ([x] + rest)[1..] == rest;
  }

  lemma {:induction false} FillAllPages(ring: seq<RxSlot>, tail: nat, ps: Pages.State, n: nat,
                                        given: nat -> Option<nat>, k: nat)
    requires tail < |ring| == |ps.slots| == |ps.taken| && n < |ring|
    ensures var f, m := FillAll(ring, tail, ps, n, given, k), Refilled(ps, tail, n, given, k);
            f.ps == FillPages(ps, tail, n, given, k) && f.ok == (m == n) && f.tail == At(|ring|, tail, m)
    decreases n
  {
    if n > 0 {
      var next := NextDx(|ring|, tail);
      var qs := Pages.GetRxPages(ps, tail, given(k));
      if qs.slots[tail].Some? {
        FillAllPages(ring[tail := FreshSlot(ring[tail])], next, qs, n - 1, given, k + 1);
        NextIsAt(|ring|, tail, Refilled(ps, tail, n, given, k));
      }
    }
  }

  /** How many slots the loop resets: those it gets through, and the one it fails at. */
  function Reset(m: nat, n: nat): nat
  {
    if m == n then n else m + 1
  }

  function Cleared(ring: seq<RxSlot>, tail: nat, m: nat): seq<RxSlot>
    requires tail < |ring| && m <= |ring|
  {
    Store(ring, tail, Refreshed(Window(ring, tail, m)))
  }

  /** One slot more of the loop, seen from the ring. */
  lemma ClearedMore(ring: seq<RxSlot>, tail: nat, ps: Pages.State, n: nat, given: nat -> Option<nat>, k: nat)
    requires tail < |ring| == |ps.slots| == |ps.taken| && 0 < n < |ring|
    ensures var next, cleared := NextDx(|ring|, tail), ring[tail := FreshSlot(ring[tail])];
            var qs := Pages.GetRxPages(ps, tail, given(k));
            Cleared(ring, tail, Reset(Refilled(ps, tail, n, given, k), n)) ==
            if qs.slots[tail].None? then cleared
            else Cleared(cleared, next, Reset(Refilled(qs, next, n - 1, given, k + 1), n - 1))
  {
    var cleared := ring[tail := FreshSlot(ring[tail])];
    ClearOne(ring, tail, Reset(Refilled(ps, tail, n, given, k), n));
    assert Cleared(cleared, NextDx(|ring|, tail), 0) == cleared;
  }

  lemma {:induction false} FillAllRing(ring: seq<RxSlot>, tail: nat, ps: Pages.State, n: nat,
                                       given: nat -> Option<nat>, k: nat)
    requires tail < |ring| == |ps.slots| == |ps.taken| && n < |ring|
    ensures FillAll(ring, tail, ps, n, given, k).ring == Cleared(ring, tail, Reset(Refilled(ps, tail, n, given, k), n))
    decreases n
  {
    if n > 0 {
      ClearedMore(ring, tail, ps, n, given, k);
      var qs := Pages.GetRxPages(ps, tail, given(k));
      if qs.slots[tail].Some? {
        FillAllRing(ring[tail := FreshSlot(ring[tail])], NextDx(|ring|, tail), qs, n - 1, given, k + 1);
      }
    } else {
      assert Cleared(ring, tail, 0) == ring;
    }
  }

  /** Every slot the loop gets to is reset, and so is the one it fails at; the tail and the
      pages have moved over those it got through. */
  lemma FillAllIs(ring: seq<RxSlot>, tail: nat, ps: Pages.State, n: nat, given: nat -> Option<nat>, k: nat)
    requires tail < |ring| == |ps.slots| == |ps.taken| && n < |ring|
    ensures var f, m := FillAll(ring, tail, ps, n, given, k), Refilled(ps, tail, n, given, k);
            && f.ps == FillPages(ps, tail, n, given, k)
            && f.ok == (m == n) && f.tail == At(|ring|, tail, m)
            && f.ring == Store(ring, tail, Refreshed(Window(ring, tail, Reset(m, n))))
  {
    FillAllPages(ring, tail, ps, n, given, k);
    FillAllRing(ring, tail, ps, n, given, k);
  }

  /** The descriptors for the n slots behind `at`. */
  function Posts(ps: Pages.State, at: nat, n: nat): (r: seq<RxDesc>)
    requires at < |ps.slots| == |ps.taken| && n < |ps.slots|
    requires forall j :: 0 <= j < n ==> ps.slots[At(|ps.slots|, at, j)].Some?
    ensures |r| == n
  {
    seq(n, j requires 0 <= j < n => Posted(Addr(ps, At(|ps.slots|, at, j))))
  }

  lemma PostOne(ps: Pages.State, at: nat, n: nat)
    requires at < |ps.slots| == |ps.taken| && 0 < n < |ps.slots|
    requires forall j :: 0 <= j < n ==> ps.slots[At(|ps.slots|, at, j)].Some?
    ensures var next := NextDx(|ps.slots|, at);
            && ps.slots[at].Some?
            && (forall j :: 0 <= j < n - 1 ==> ps.slots[At(|ps.slots|, next, j)].Some?)
            && Posts(ps, at, n) == [Posted(Addr(ps, at))] + Posts(ps, next, n - 1)
  {
    var size, next := |ps.slots|, NextDx(|ps.slots|, at);
    assert At(size, at, 0) == at;
    forall j | 0 <= j < n - 1
      ensures At(size, next, j) == At(size, at, j + 1) && ps.slots[At(size, next, j)].Some?
    {
      NextIsAt(size, at, j + 1);
    }
  }

  /** The part of a refill that is written down before anything is posted. */
  ghost predicate Filled(s: State, ps: Pages.State, n: nat, given: nat -> Option<nat>, t: State, qs: Pages.State)
  {
    && s.swTail < s.size == |s.ring| == |ps.slots| == |ps.taken| && n < s.size
    && var f := FillAll(s.ring, s.swTail, ps, n, given, 0);
       t == s.(ring := f.ring, swTail := f.tail) && qs == f.ps
  }

  /** When every page was had, the free slots are reset and have their pages. */
  lemma FilledWhole(s: State, ps: Pages.State, n: nat, given: nat -> Option<nat>, t: State, qs: Pages.State)
    requires s.swTail < s.size && Pages.Inv(ps) && Filled(s, ps, n, given, t, qs)
    requires AllocatorOk(ps, s.swTail, n, given, 0) && Refilled(ps, s.swTail, n, given, 0) == n
    ensures qs == FillPages(ps, s.swTail, n, given, 0) && FreeSlotsReady(s, ps, qs, n)
    ensures t == s.(ring := Store(s.ring, s.swTail, Refreshed(Window(s.ring, s.swTail, n))),
                    swTail := At(s.size, s.swTail, n))
  {
    FillAllIs(s.ring, s.swTail, ps, n, given, 0);
    CompleteFill(s, ps, n, given);
  }

  /** Publishing them completes the refill. */
  lemma FilledAndPosted(s: State, ps: Pages.State, refillThres: nat, given: nat -> Option<nat>,
                        t: State, qs: Pages.State)
    requires s.swHead < s.size == |s.dx| && s.swTail < s.size == |ps.slots| && Pages.Inv(ps)
    requires var n := AvailDx(s.size, s.swHead, s.swTail);
             && RefillThreshold(s.size, refillThres) <= n && n < s.size
             && AllocatorOk(ps, s.swTail, n, given, 0)
             && Filled(s, ps, n, given, t, qs) && Refilled(ps, s.swTail, n, given, 0) == n
    ensures var n := AvailDx(s.size, s.swHead, s.swTail);
            && FreeSlotsReady(s, ps, qs, n)
            && t.swTail == At(s.size, s.swTail, n)
            && RefillStep(s, ps, refillThres, given,
                          t.(dx := Store(s.dx, s.swTail, Posts(qs, s.swTail, n)), posted := s.posted + n), qs)
  {
    var n := AvailDx(s.size, s.swHead, s.swTail);
    FilledWhole(s, ps, n, given, t, qs);
    PostsAre(qs, s.swTail, n);
  }

  lemma PostsAre(qs: Pages.State, at: nat, n: nat)
    requires at < |qs.slots| == |qs.taken| && n < |qs.slots|
    requires forall j :: 0 <= j < n ==> qs.slots[At(|qs.slots|, at, j)].Some?
    ensures var addrs := Addresses(qs, at, n);
            Posts(qs, at, n) == seq(|addrs|, i requires 0 <= i < |addrs| => Posted(addrs[i]))
  {}

  /** When a page is refused, this is the failed refill of StaleReceiveIff. */
  lemma FilledInPart(s: State, ps: Pages.State, given: nat -> Option<nat>, t: State, qs: Pages.State)
    requires s.swHead < s.size && s.swTail < s.size == |s.ring|
    requires var n := AvailDx(s.size, s.swHead, s.swTail);
             n >= 0 && Filled(s, ps, n, given, t, qs) && Refilled(ps, s.swTail, n, given, 0) < n
    ensures t == FailedRefill(s, Refilled(ps, s.swTail, AvailDx(s.size, s.swHead, s.swTail), given, 0))
    ensures qs == FillPages(ps, s.swTail, AvailDx(s.size, s.swHead, s.swTail), given, 0)
  {
    FillAllIs(s.ring, s.swTail, ps, AvailDx(s.size, s.swHead, s.swTail), given, 0);
  }

  // ---------------------------------------------------------------- the poll

  function Free(s: State): nat
    requires s.swHead < s.size && s.swTail < s.size
  {
    AvailDx(s.size, s.swHead, s.swTail)
  }

  /** Whether aq_ring_rx_fill gets every page it asks for. */
  predicate FillWorks(s: State, ps: Pages.State, refillThres: nat, given: nat -> Option<nat>)
    requires s.swHead < s.size && s.swTail < s.size == |ps.slots| == |ps.taken|
  {
    Free(s) < RefillThreshold(s.size, refillThres) || Refilled(ps, s.swTail, Free(s), given, 0) == Free(s)
  }

  /** Whether it fails after it has moved the tail over some slots. */
  predicate FailsMidway(s: State, ps: Pages.State, refillThres: nat, given: nat -> Option<nat>)
    requires s.swHead < s.size && s.swTail < s.size == |ps.slots| == |ps.taken|
  {
    !FillWorks(s, ps, refillThres, given) && Refilled(ps, s.swTail, Free(s), given, 0) > 0
  }

  /** What refill and publication come to, however many pages are refused. */
  ghost predicate RefillOutcome(s: State, ps: Pages.State, refillThres: nat, given: nat -> Option<nat>,
                                t: State, qs: Pages.State)
    requires s.swHead < s.size && s.swTail < s.size == |s.ring| == |ps.slots| == |ps.taken|
  {
    if FailsMidway(s, ps, refillThres, given) then
      && t == FailedRefill(s, Refilled(ps, s.swTail, Free(s), given, 0))
      && qs == FillPages(ps, s.swTail, Free(s), given, 0)
    else RefillStep(s, ps, refillThres, given, t, qs)
  }

  /** What the hardware calls of the RX half report: hw_ring_rx_receive and hw_ring_rx_fill. */
  datatype HwRx = HwRx(receiveOk: bool, postOk: bool)

  ghost predicate PollAllocatorOk(s: State, ps: Pages.State, c: Call, given: nat -> Option<nat>)
  {
    var r := CleanAll(Receive(s), ps, c, 0);
    && r.s.swHead < r.s.size && r.s.swTail < r.s.size == |r.ps.slots| == |r.ps.taken|
    && AllocatorOk(r.ps, r.s.swTail, Free(r.s), given, 0)
  }

  /** Whether a poll gets past the receive, and has anything to do then. */
  ghost predicate PollGoesOn(s: State, hw: HwRx)
  {
    hw.receiveOk && HasWork(Receive(s))
  }

  /** Whether a poll gets to its end: no skb and no page is refused, and the hardware reports no error. */
  ghost predicate PollWorks(s: State, ps: Pages.State, c: Call, refillThres: nat, given: nat -> Option<nat>, hw: HwRx)
    requires PollAllocatorOk(s, ps, c, given)
  {
    var r := CleanAll(Receive(s), ps, c, 0);
    hw.receiveOk && (PollGoesOn(s, hw) ==> !r.failed && FillWorks(r.s, r.ps, refillThres, given) && hw.postOk)
  }

  /** Whether it ends in a refill that fails half way. */
  ghost predicate PollFailsMidway(s: State, ps: Pages.State, c: Call, refillThres: nat, given: nat -> Option<nat>,
                                  hw: HwRx)
    requires PollAllocatorOk(s, ps, c, given)
  {
    var r := CleanAll(Receive(s), ps, c, 0);
    PollGoesOn(s, hw) && !r.failed && FailsMidway(r.s, r.ps, refillThres, given)
  }

  /** A whole poll: take in what the hardware has written back; unless it has reported an error, and
      if that leaves anything to do, clean under the budget, and unless an skb was refused, refill. */
  ghost predicate PollStep(s: State, ps: Pages.State, c: Call, refillThres: nat, given: nat -> Option<nat>, hw: HwRx,
                           t: State, qs: Pages.State)
  {
    if PollGoesOn(s, hw) then
      var r := CleanAll(Receive(s), ps, c, 0);
      if r.failed then t == r.s && qs == r.ps
      else
        && r.s.swHead < r.s.size && r.s.swTail < r.s.size == |r.s.ring| == |r.ps.slots| == |r.ps.taken|
        && RefillOutcome(r.s, r.ps, refillThres, given, t, qs)
    else t == Receive(s) && qs == ps
  }

  /** A refill that gets no page at all is a step of the protocol, too. */
  lemma FilledNothing(s: State, ps: Pages.State, refillThres: nat, given: nat -> Option<nat>, t: State, qs: Pages.State)
    requires s.swHead < s.size == |s.ring| == |s.dx| == |ps.slots| == |ps.taken| && s.swTail < s.size
    requires AvailDx(s.size, s.swHead, s.swTail) >= RefillThreshold(s.size, refillThres)
    requires AllocatorOk(ps, s.swTail, Free(s), given, 0) && Refilled(ps, s.swTail, Free(s), given, 0) == 0 < Free(s)
    requires Filled(s, ps, Free(s), given, t, qs)
    ensures RefillStep(s, ps, refillThres, given, t, qs)
  {
    FillAllIs(s.ring, s.swTail, ps, Free(s), given, 0);
    FilledInPart(s, ps, given, t, qs);
  }
}
