/** The RX ring together with the pages behind its slots: what delivering a packet does to them,
    and what a refill posts. */
module RxDelivery {
  import opened Wrappers
  import opened Ring
  import opened RxChains
  import opened RxProtocol
  import opened RxSafety
  import Pages = RxPages

  const RX_HDR_SIZE: nat := 256

  /** What the kernel brings along: the room build_skb needs behind the data, and the header
      length found in the k-th turn's packet. */
  datatype Kernel = Kernel(skbAlign: nat, headLen: nat -> nat)

  predicate Usable(ps: Pages.State, i: nat)
  {
    i < |ps.slots| == |ps.taken| && ps.slots[i].Some?
  }

  predicate AllUsable(ps: Pages.State, ring: seq<RxSlot>, path: seq<nat>)
  {
    forall k :: 0 <= k < |path| ==> path[k] < |ring| && Usable(ps, path[k])
  }

  /** The followers of a packet: each gives the bytes it received to the skb. */
  function TakeRest(ps: Pages.State, ring: seq<RxSlot>, path: seq<nat>): Pages.State
    requires AllUsable(ps, ring, path)
    decreases |path|
  {
    if path == [] then ps
    else
      var i := path[0];
      assert i < |ring| && Usable(ps, i);
      var off := ps.slots[i].value.off;
      var qs := Pages.Take(ps, i, off, off + ring[i].len);
      assert forall k :: 0 <= k < |path[1..]| ==> path[1..][k] == path[k + 1] && Usable(qs, path[k + 1]);
      TakeRest(qs, ring, path[1..])
  }

  /** How many bytes of the first buffer are copied into the skb. */
  function HdrLen(len: nat, headLen: nat): nat
  {
    if len > RX_HDR_SIZE then (if headLen < RX_HDR_SIZE then headLen else RX_HDR_SIZE) else len
  }

  /** What is left of the first buffer behind the copied headers, if anything. */
  function TakeHead(ps: Pages.State, head: nat, len: nat, hdr: nat): (r: Pages.State)
    requires Usable(ps, head)
    ensures r.slots == ps.slots && |r.taken| == |ps.taken|
  {
    var off := ps.slots[head].value.off;
    if len > hdr then Pages.Take(ps, head, off + hdr, off + len) else ps
  }

  /** A single buffer with room to spare becomes the skb itself; otherwise the skb gets a copy
      of the headers, the rest of the first buffer if there is any, and the other buffers. */
  function TakePacket(ps: Pages.State, ring: seq<RxSlot>, head: nat, path: seq<nat>, skbAlign: nat, headLen: nat)
    : Pages.State
    requires head < |ring| && Usable(ps, head)
    requires AllUsable(ps, ring, path)
  {
    var off, len := ps.slots[head].value.off, ring[head].len;
    if ring[head].isEop && len + skbAlign <= RX_FRAME_MAX then Pages.Take(ps, head, off, off + RX_FRAME_MAX)
    else
      var qs := TakeHead(ps, head, len, HdrLen(len, headLen));
      assert forall k :: 0 <= k < |path| ==> Usable(ps, path[k]) && Usable(qs, path[k]);
      TakeRest(qs, ring, path)
  }

  /** Whether this turn of the cleaning loop delivers a packet. */
  predicate Delivers(s: State, alloc: bool)
    requires HasWork(s)
  {
    !s.ring[s.swHead].isCleaned && HeadPath(s).Some? && !HeadError(s) && alloc
  }

  /** Whether this turn stops the loop because there is no skb for a packet that is ready. */
  predicate Starved(s: State, alloc: bool)
    requires HasWork(s)
  {
    !s.ring[s.swHead].isCleaned && HeadPath(s).Some? && !HeadError(s) && !alloc
  }

  /** Whether a call of aq_ring_rx_clean ends with an allocation failure. */
  predicate CleanFails(s: State, budget: nat, alloc: nat -> bool, k: nat)
    decreases budget
  {
    budget > 0 && HasWork(s) &&
    (if Passes(s, alloc(k)) then CleanFails(CleanOne(s, alloc(k)), budget - 1, alloc, k + 1)
     else Starved(s, alloc(k)))
  }

  predicate PathUsable(s: State, ps: Pages.State)
    requires HasWork(s)
  {
    && Usable(ps, s.swHead)
    && (HeadPath(s).Some? ==> AllUsable(ps, s.ring, HeadPath(s).value))
  }

  function TurnPages(s: State, ps: Pages.State, alloc: bool, skbAlign: nat, headLen: nat): Pages.State
    requires HasWork(s)
  {
    if Delivers(s, alloc) && PathUsable(s, ps) then
      TakePacket(ps, s.ring, s.swHead, HeadPath(s).value, skbAlign, headLen)
    else ps
  }

  /** What a call of aq_ring_rx_clean does to the pages. */
  function CleanPages(s: State, ps: Pages.State, budget: nat, alloc: nat -> bool, kernel: Kernel, k: nat): Pages.State
    decreases budget
  {
    if budget == 0 || !HasWork(s) || !Passes(s, alloc(k)) then ps
    else
      CleanPages(CleanOne(s, alloc(k)), TurnPages(s, ps, alloc(k), kernel.skbAlign, kernel.headLen(k)),
                 budget - 1, alloc, kernel, k + 1)
  }

  /** A call of aq_ring_rx_clean: what it works with, and how it is answered. */
  datatype Call = Call(budget: nat, alloc: nat -> bool, kernel: Kernel)

  datatype CleanResult = CleanResult(s: State, ps: Pages.State, failed: bool)

  function CleanAll(s: State, ps: Pages.State, c: Call, k: nat): CleanResult
  {
    CleanResult(Clean(s, c.budget, c.alloc, k), CleanPages(s, ps, c.budget, c.alloc, c.kernel, k),
                CleanFails(s, c.budget, c.alloc, k))
  }

  /** A turn that passes leaves the rest of the call to do, one that does not ends it. */
  lemma CleanTurn(s: State, ps: Pages.State, c: Call, k: nat)
    requires c.budget > 0 && HasWork(s)
    ensures CleanAll(s, ps, c, k) ==
            var t, qs := CleanOne(s, c.alloc(k)), TurnPages(s, ps, c.alloc(k), c.kernel.skbAlign, c.kernel.headLen(k));
            if Passes(s, c.alloc(k)) then CleanAll(t, qs, c.(budget := c.budget - 1), k + 1)
            else CleanResult(t, qs, Starved(s, c.alloc(k)))
  {}

  lemma CleanEnd(s: State, ps: Pages.State, c: Call, k: nat)
    requires c.budget == 0 || !HasWork(s)
    ensures CleanAll(s, ps, c, k) == CleanResult(s, ps, false)
  {}

  /** What refilling n slots from slot `at` on does to the pages, up to the first refusal;
      given(k) is the page the allocator would give to the k-th request. */
  function FillPages(ps: Pages.State, at: nat, n: nat, given: nat -> Option<nat>, k: nat): (r: Pages.State)
    requires at < |ps.slots| == |ps.taken|
    ensures |r.slots| == |r.taken| == |ps.slots|
    decreases n
  {
    if n == 0 then ps
    else
      var qs := Pages.GetRxPages(ps, at, given(k));
      if qs.slots[at].None? then qs else FillPages(qs, NextDx(|ps.slots|, at), n - 1, given, k + 1)
  }

  /** How many slots that refill gets through. */
  function Refilled(ps: Pages.State, at: nat, n: nat, given: nat -> Option<nat>, k: nat): (r: nat)
    requires at < |ps.slots| == |ps.taken|
    ensures r <= n
    decreases n
  {
    if n == 0 then 0
    else
      var qs := Pages.GetRxPages(ps, at, given(k));
      if qs.slots[at].None? then 0 else 1 + Refilled(qs, NextDx(|ps.slots|, at), n - 1, given, k + 1)
  }

  /** The allocator never gives a page that overlaps one still in use, up to the first request it
      refuses. */
  ghost predicate AllocatorOk(ps: Pages.State, at: nat, n: nat, given: nat -> Option<nat>, k: nat)
    requires at < |ps.slots| == |ps.taken|
    decreases n
  {
    n == 0 ||
    (&& (given(k).Some? ==> Pages.Unused(ps, given(k).value))
     && var qs := Pages.GetRxPages(ps, at, given(k));
        (qs.slots[at].Some? ==> AllocatorOk(qs, NextDx(|ps.slots|, at), n - 1, given, k + 1)))
  }

  function Addr(ps: Pages.State, i: nat): nat
    requires Usable(ps, i)
  {
    ps.slots[i].value.page + ps.slots[i].value.off
  }

  // ---------------------------------------------------------------- the link between the two

  /** Every live slot has a page; it has been handed out only if its packet has been passed; and
      what is posted is the window of its page. */
  ghost predicate Linked(s: State, ps: Pages.State)
    requires Ordered(s)
  {
    && |ps.slots| == |ps.taken| == s.size
    && (forall p :: s.done <= p < s.posted ==> LiveSlot(s, ps, p))
    && (forall p :: |s.hist| <= p < s.posted ==> PostsWindow(s, ps, p))
  }

  ghost predicate LiveSlot(s: State, ps: Pages.State, p: nat)
    requires Ordered(s) && |ps.slots| == |ps.taken| == s.size && s.done <= p < s.posted
  {
    var i := SlotAt(s, p);
    && ps.slots[i].Some?
    && (ps.taken[i] ==> p < s.recv && Head(s.hist, p) < s.done)
  }

  ghost predicate PostsWindow(s: State, ps: Pages.State, p: nat)
    requires Ordered(s) && |ps.slots| == |ps.taken| == s.size && |s.hist| <= p < s.posted
  {
    var i := SlotAt(s, p);
    ps.slots[i].Some? && s.dx[i] == Posted(Addr(ps, i))
  }

  ghost predicate BothInv(s: State, ps: Pages.State)
  {
    Inv(s) && Pages.Inv(ps) && Linked(s, ps) && LensOk(s.hist)
  }

  ghost predicate LensOk(h: History)
  {
    forall p :: 0 <= p < |h| ==> h[p].len <= RX_FRAME_MAX
  }

  /** What the hardware may still write into never overlaps what a live skb holds. */
  lemma HardwareWritesAreSafe(s: State, ps: Pages.State, p: nat)
    requires BothInv(s, ps) && |s.hist| <= p < s.posted
    ensures var i := SlotAt(s, p);
            && ps.slots[i].Some?
            && s.dx[i] == Posted(Addr(ps, i))
            && Pages.WindowSafe(ps, i)
  {
    assert LiveSlot(s, ps, p) && PostsWindow(s, ps, p);
    Pages.UntouchedIsSafe(ps, SlotAt(s, p));
  }

  // ---------------------------------------------------------------- delivering

  /** Slots that differ from those of ring0 in marks alone. */
  predicate OnlyMarks(ring: seq<RxSlot>, ring0: seq<RxSlot>)
  {
    && |ring| == |ring0|
    && forall i :: 0 <= i < |ring| ==> ring[i] == ring0[i].(isCleaned := ring[i].isCleaned)
  }

  /** Half way along `path`: `rest` is still to be marked, and slot `cur` links to it. */
  ghost predicate HalfMarked(ring: seq<RxSlot>, ring0: seq<RxSlot>, path: seq<nat>, cur: nat, rest: seq<nat>)
  {
    && OnlyMarks(ring, ring0) && cur < |ring| && Within(path, |ring|) && Within(rest, |ring|)
    && Chained(ring0, cur, rest)
    && Mark(ring, rest) == Mark(ring0, path)
  }

  lemma TakeOne(ps: Pages.State, ring: seq<RxSlot>, path: seq<nat>)
    requires path != [] && AllUsable(ps, ring, path)
    ensures path[0] < |ring| && Usable(ps, path[0])
    ensures var off := ps.slots[path[0]].value.off;
            var qs := Pages.Take(ps, path[0], off, off + ring[path[0]].len);
            AllUsable(qs, ring, path[1..]) && TakeRest(ps, ring, path) == TakeRest(qs, ring, path[1..])
  {
    var i := path[0];
    assert i < |ring| && Usable(ps, i);
    var qs := Pages.Take(ps, i, ps.slots[i].value.off, ps.slots[i].value.off + ring[i].len);
    assert forall k :: 0 <= k < |path[1..]| ==> path[1..][k] == path[k + 1] && Usable(qs, path[k + 1]);
  }

  lemma MarkOne(ring: seq<RxSlot>, ring0: seq<RxSlot>, path: seq<nat>, cur: nat, rest: seq<nat>)
    requires HalfMarked(ring, ring0, path, cur, rest)
    ensures ring[cur].next == rest[0] < |ring| && ring[rest[0]].isEop == ring0[rest[0]].isEop
    ensures var next := rest[0];
            var ring' := ring[next := ring[next].(isCleaned := true)];
            if ring[next].isEop then ring' == Mark(ring0, path) && rest[1..] == []
            else HalfMarked(ring', ring0, path, next, rest[1..])
  {
    assert ring[cur] == ring0[cur].(isCleaned := ring[cur].isCleaned);
  }

  /** Half way along `path`, delivering. */
  ghost predicate HalfDelivered(ring: seq<RxSlot>, ps: Pages.State, pieces: seq<Piece>,
                                ring0: seq<RxSlot>, ps0: Pages.State, path: seq<nat>, cur: nat, rest: seq<nat>)
  {
    && HalfMarked(ring, ring0, path, cur, rest)
    && AllUsable(ps, ring0, rest) && AllUsable(ps0, ring0, path)
    && TakeRest(ps, ring0, rest) == TakeRest(ps0, ring0, path)
    && pieces + Gather(ring0, rest) == Gather(ring0, path)
  }

  lemma NextToDeliver(ring: seq<RxSlot>, ps: Pages.State, pieces: seq<Piece>,
                      ring0: seq<RxSlot>, ps0: Pages.State, path: seq<nat>, cur: nat, rest: seq<nat>)
    requires HalfDelivered(ring, ps, pieces, ring0, ps0, path, cur, rest)
    ensures ring[cur].next == rest[0] < |ring| && Usable(ps, rest[0])
    ensures ring[rest[0]].len == ring0[rest[0]].len && ring[rest[0]].data == ring0[rest[0]].data
  {
    MarkOne(ring, ring0, path, cur, rest);
    TakeOne(ps, ring0, rest);
    SameContents(ring, ring0, rest[0]);
  }

  lemma DeliverOne(ring: seq<RxSlot>, ps: Pages.State, pieces: seq<Piece>,
                   ring0: seq<RxSlot>, ps0: Pages.State, path: seq<nat>, cur: nat, rest: seq<nat>,
                   ring': seq<RxSlot>, qs: Pages.State, more: seq<Piece>)
    requires HalfDelivered(ring, ps, pieces, ring0, ps0, path, cur, rest)
    requires rest[0] < |ring| && Usable(ps, rest[0])
    requires ring' == ring[rest[0] := ring[rest[0]].(isCleaned := true)]
    requires var off := ps.slots[rest[0]].value.off;
             qs == Pages.Take(ps, rest[0], off, off + ring0[rest[0]].len)
    requires more == pieces + [Piece(ring0[rest[0]].data, ring0[rest[0]].len)]
    ensures if ring[rest[0]].isEop then
              ring' == Mark(ring0, path) && qs == TakeRest(ps0, ring0, path) && more == Gather(ring0, path)
            else HalfDelivered(ring', qs, more, ring0, ps0, path, rest[0], rest[1..])
  {
    MarkOne(ring, ring0, path, cur, rest);
    TakeOne(ps, ring0, rest);
    GatherOne(ring0, rest, pieces);
    if ring[rest[0]].isEop {
      assert TakeRest(qs, ring0, []) == qs && Gather(ring0, []) == [];
    }
  }

  lemma SameContents(ring: seq<RxSlot>, ring0: seq<RxSlot>, i: nat)
    requires OnlyMarks(ring, ring0) && i < |ring|
    ensures ring[i].len == ring0[i].len && ring[i].data == ring0[i].data && ring[i].isEop == ring0[i].isEop
  {
    assert ring[i] == ring0[i].(isCleaned := ring[i].isCleaned);
  }

  lemma GatherOne(ring: seq<RxSlot>, path: seq<nat>, pieces: seq<Piece>)
    requires path != [] && Within(path, |ring|)
    ensures (pieces + [Piece(ring[path[0]].data, ring[path[0]].len)]) + Gather(ring, path[1..]) ==
            pieces + Gather(ring, path)
  {}

  lemma {:induction false} TakeRestKeepsInv(ps: Pages.State, ring: seq<RxSlot>, path: seq<nat>)
    requires Pages.Inv(ps) && AllUsable(ps, ring, path)
    requires forall k :: 0 <= k < |path| ==> ring[path[k]].len <= RX_FRAME_MAX
    ensures Pages.Inv(TakeRest(ps, ring, path))
    decreases |path|
  {
    if path != [] {
      var i := path[0];
      TakeOne(ps, ring, path);
      var off := ps.slots[i].value.off;
      Pages.TakeKeepsInv(ps, i, off, off + ring[i].len);
      var qs := Pages.Take(ps, i, off, off + ring[i].len);
      assert forall k :: 0 <= k < |path[1..]| ==> path[1..][k] == path[k + 1];
      TakeRestKeepsInv(qs, ring, path[1..]);
    }
  }

  lemma {:induction false} TakeRestTakes(ps: Pages.State, ring: seq<RxSlot>, path: seq<nat>)
    requires AllUsable(ps, ring, path)
    ensures var qs := TakeRest(ps, ring, path);
            && qs.slots == ps.slots && |qs.taken| == |ps.taken|
            && (forall i :: 0 <= i < |ps.taken| ==> qs.taken[i] == (ps.taken[i] || i in path))
    decreases |path|
  {
    if path != [] {
      TakeOne(ps, ring, path);
      var off := ps.slots[path[0]].value.off;
      TakeRestTakes(Pages.Take(ps, path[0], off, off + ring[path[0]].len), ring, path[1..]);
      assert path == [path[0]] + path[1..];
    }
  }

  /** Delivering keeps the page accounts, and marks no slot but those of the packet. */
  lemma TakePacketKeeps(ps: Pages.State, ring: seq<RxSlot>, head: nat, path: seq<nat>, skbAlign: nat, headLen: nat)
    requires Pages.Inv(ps) && head < |ring| && Usable(ps, head) && AllUsable(ps, ring, path)
    requires ring[head].len <= RX_FRAME_MAX
    requires forall k :: 0 <= k < |path| ==> ring[path[k]].len <= RX_FRAME_MAX
    ensures var qs := TakePacket(ps, ring, head, path, skbAlign, headLen);
            && Pages.Inv(qs) && qs.slots == ps.slots && |qs.taken| == |ps.taken|
            && (forall i :: 0 <= i < |ps.taken| && qs.taken[i] ==> ps.taken[i] || i == head || i in path)
  {
    var off, len := ps.slots[head].value.off, ring[head].len;
    if ring[head].isEop && len + skbAlign <= RX_FRAME_MAX {
      Pages.TakeKeepsInv(ps, head, off, off + RX_FRAME_MAX);
    } else {
      TakeHeadKeeps(ps, head, len, HdrLen(len, headLen));
      TakeRestKeeps(ps, TakeHead(ps, head, len, HdrLen(len, headLen)), ring, path);
    }
  }

  lemma TakeRestKeeps(ps: Pages.State, qs: Pages.State, ring: seq<RxSlot>, path: seq<nat>)
    requires Pages.Inv(qs) && AllUsable(ps, ring, path) && qs.slots == ps.slots && |qs.taken| == |ps.taken|
    requires forall k :: 0 <= k < |path| ==> ring[path[k]].len <= RX_FRAME_MAX
    ensures AllUsable(qs, ring, path)
    ensures var us := TakeRest(qs, ring, path);
            && Pages.Inv(us) && us.slots == ps.slots && |us.taken| == |ps.taken|
            && (forall i :: 0 <= i < |ps.taken| ==> us.taken[i] == (qs.taken[i] || i in path))
  {
    assert forall k :: 0 <= k < |path| ==> Usable(ps, path[k]) && Usable(qs, path[k]);
    TakeRestKeepsInv(qs, ring, path);
    TakeRestTakes(qs, ring, path);
  }

  lemma TakeHeadKeeps(ps: Pages.State, head: nat, len: nat, hdr: nat)
    requires Pages.Inv(ps) && Usable(ps, head) && len <= RX_FRAME_MAX
    ensures Pages.Inv(TakeHead(ps, head, len, hdr))
    ensures forall i :: 0 <= i < |ps.taken| && TakeHead(ps, head, len, hdr).taken[i] ==> ps.taken[i] || i == head
  {
    if len > hdr {
      var off := ps.slots[head].value.off;
      Pages.TakeKeepsInv(ps, head, off + hdr, off + len);
    }
  }

  lemma PathIsUsable(s: State, ps: Pages.State)
    requires BothInv(s, ps) && HasWork(s) && HeadPath(s).Some?
    ensures PathUsable(s, ps)
    ensures s.ring[s.swHead].len <= RX_FRAME_MAX
    ensures forall k :: 0 <= k < |HeadPath(s).value| ==> s.ring[HeadPath(s).value[k]].len <= RX_FRAME_MAX
  {
    HeadFacts(s);
    HeadPathIs(s);
    MembersInRing(s, s.done);
    var all, ms := ChainSlots(s, s.done), Members(Received(s), s.done);
    forall k | 0 <= k < |all|
      ensures Usable(ps, all[k]) && s.ring[all[k]].len <= RX_FRAME_MAX
    {
      assert LiveSlot(s, ps, ms[k]) && SlotOk(s, ms[k]);
    }
    assert all[0] == s.swHead;
    assert forall k :: 0 <= k < |HeadPath(s).value| ==> HeadPath(s).value[k] == all[k + 1];
  }

  lemma TurnKeepsPages(s: State, ps: Pages.State, alloc: bool, skbAlign: nat, headLen: nat)
    requires BothInv(s, ps) && HasWork(s)
    ensures var qs := TurnPages(s, ps, alloc, skbAlign, headLen);
            && Pages.Inv(qs) && qs.slots == ps.slots && |qs.taken| == |ps.taken|
            && (forall i :: 0 <= i < |ps.taken| && qs.taken[i] ==>
                  ps.taken[i] || (Delivers(s, alloc) && (i == s.swHead || i in HeadPath(s).value)))
  {
    if Delivers(s, alloc) {
      PathIsUsable(s, ps);
      TakePacketKeeps(ps, s.ring, s.swHead, HeadPath(s).value, skbAlign, headLen);
    }
  }

  /** A turn that hands out only slots of packets that are then passed keeps the link. */
  lemma HandOutKeepsLink(s: State, ps: Pages.State, t: State, qs: Pages.State)
    requires Ordered(s) && Linked(s, ps) && Ordered(t)
    requires SameIntake(s, t) && t.dx == s.dx && s.done <= t.done
    requires forall p :: t.done <= p < s.posted ==> SlotAt(t, p) == SlotAt(s, p)
    requires qs.slots == ps.slots && |qs.taken| == |ps.taken|
    requires forall p :: t.done <= p < s.posted && qs.taken[SlotAt(s, p)] ==>
               ps.taken[SlotAt(s, p)] || (p < s.recv && Head(s.hist, p) < t.done)
    ensures Linked(t, qs)
  {
    forall p | t.done <= p < t.posted
      ensures LiveSlot(t, qs, p)
    {
      assert LiveSlot(s, ps, p);
    }
    forall p | |t.hist| <= p < t.posted
      ensures PostsWindow(t, qs, p)
    {
      assert PostsWindow(s, ps, p);
    }
  }

  lemma TurnKeepsLink(s: State, ps: Pages.State, alloc: bool, skbAlign: nat, headLen: nat)
    requires BothInv(s, ps) && HasWork(s)
    ensures BothInv(CleanOne(s, alloc), TurnPages(s, ps, alloc, skbAlign, headLen))
  {
    var t, qs := CleanOne(s, alloc), TurnPages(s, ps, alloc, skbAlign, headLen);
    CleanOneKeepsInv(s, alloc);
    TurnKeepsPages(s, ps, alloc, skbAlign, headLen);
    HeadFacts(s);
    TurnFrame(s, alloc);
    forall p | t.done <= p < s.posted && qs.taken[SlotAt(s, p)]
      ensures ps.taken[SlotAt(s, p)] || (p < s.recv && Head(s.hist, p) < t.done)
    {
      if Delivers(s, alloc) {
        HandedOutIsPassed(s, alloc, p);
      }
    }
    HandOutKeepsLink(s, ps, t, qs);
  }

  /** A move of the head over one position leaves the others in their slots. */
  lemma MoveKeepsSlots(s: State, t: State)
    requires Ordered(s) && Ordered(t) && s.done < s.recv && t.size == s.size && t.posted == s.posted
    requires t.done == s.done + 1 && t.swHead == NextDx(s.size, s.swHead)
    ensures forall p :: t.done <= p < s.posted ==> SlotAt(t, p) == SlotAt(s, p)
  {
    forall p | t.done <= p < s.posted
      ensures SlotAt(t, p) == SlotAt(s, p)
    {
      AdvancedSlotAt(s, t, p);
    }
  }

  /** A turn moves the head over one slot or leaves it, and writes no descriptor. */
  lemma TurnShape(s: State, alloc: bool)
    requires HasWork(s)
    ensures var t := CleanOne(s, alloc);
            && t.dx == s.dx && t.size == s.size && t.posted == s.posted
            && (if t.done == s.done then t.swHead == s.swHead
                else t.done == s.done + 1 && t.swHead == NextDx(s.size, s.swHead))
  {}

  /** What a turn leaves where it is. */
  lemma TurnFrame(s: State, alloc: bool)
    requires Ordered(s) && s.done < s.recv && HasWork(s) && Ordered(CleanOne(s, alloc))
    ensures var t := CleanOne(s, alloc);
            && t.dx == s.dx && s.done <= t.done
            && (forall p :: t.done <= p < s.posted ==> SlotAt(t, p) == SlotAt(s, p))
  {
    TurnShape(s, alloc);
    KeepsSlots(s, CleanOne(s, alloc));
  }

  lemma KeepsSlots(s: State, t: State)
    requires Ordered(s) && Ordered(t) && s.done < s.recv && t.size == s.size && t.posted == s.posted
    requires if t.done == s.done then t.swHead == s.swHead
             else t.done == s.done + 1 && t.swHead == NextDx(s.size, s.swHead)
    ensures forall p :: t.done <= p < s.posted ==> SlotAt(t, p) == SlotAt(s, p)
  {
    if t.done != s.done {
      MoveKeepsSlots(s, t);
    }
  }

  /** A slot that the path goes through holds a member of the packet. */
  lemma OnPathIsMember(s: State, p: nat)
    requires Inv(s) && HasWork(s) && HeadPath(s).Some? && s.done < p < s.posted && SlotAt(s, p) in HeadPath(s).value
    ensures p < s.recv
  {
    HeadFacts(s);
    HeadPathIs(s);
    MembersInRing(s, s.done);
    var all, ms := ChainSlots(s, s.done), Members(Received(s), s.done);
    var j :| 0 <= j < |HeadPath(s).value| && HeadPath(s).value[j] == SlotAt(s, p);
    assert all[j + 1] == SlotAt(s, ms[j + 1]);
    assert ms[j + 1] == p;
  }

  lemma HandedOutIsPassed(s: State, alloc: bool, p: nat)
    requires Inv(s) && HasWork(s) && Delivers(s, alloc) && s.done < p < s.posted
    ensures SlotAt(s, p) != s.swHead
    ensures SlotAt(s, p) in HeadPath(s).value ==> p < s.recv && Head(s.hist, p) == s.done
  {
    if SlotAt(s, p) in HeadPath(s).value {
      OnPathIsMember(s, p);
      HeadFacts(s);
      OnPathIff(s, p);
    }
  }

  /** A whole call of aq_ring_rx_clean keeps ring and pages together. */
  lemma {:induction false} CleanKeepsLink(inv: (State, Pages.State) -> bool, s: State, ps: Pages.State, budget: nat,
                                          alloc: nat -> bool, kernel: Kernel, k: nat)
    requires inv(s, ps)
    requires forall u, us, a, h :: inv(u, us) && HasWork(u) ==>
               inv(CleanOne(u, a), TurnPages(u, us, a, kernel.skbAlign, h))
    requires forall u, us, a :: inv(u, us) && HasWork(u) && !Passes(u, a) ==> inv(CleanOne(u, a), us)
    ensures inv(Clean(s, budget, alloc, k), CleanPages(s, ps, budget, alloc, kernel, k))
    decreases budget
  {
    if budget > 0 && HasWork(s) && Passes(s, alloc(k)) {
      CleanKeepsLink(inv, CleanOne(s, alloc(k)), TurnPages(s, ps, alloc(k), kernel.skbAlign, kernel.headLen(k)),
                     budget - 1, alloc, kernel, k + 1);
    }
  }

  lemma CleanKeepsBoth(s: State, ps: Pages.State, budget: nat, alloc: nat -> bool, kernel: Kernel)
    requires BothInv(s, ps)
    ensures BothInv(Clean(s, budget, alloc, 0), CleanPages(s, ps, budget, alloc, kernel, 0))
  {
    forall u, us, a, h | BothInv(u, us) && HasWork(u)
      ensures BothInv(CleanOne(u, a), TurnPages(u, us, a, kernel.skbAlign, h))
    {
      TurnKeepsLink(u, us, a, kernel.skbAlign, h);
    }
    forall u, us, a | BothInv(u, us) && HasWork(u) && !Passes(u, a)
      ensures BothInv(CleanOne(u, a), us)
    {
      TurnKeepsLink(u, us, a, kernel.skbAlign, 0);
      assert TurnPages(u, us, a, kernel.skbAlign, 0) == us;
    }
    CleanKeepsLink(BothInv, s, ps, budget, alloc, kernel, 0);
  }

  // ---------------------------------------------------------------- refilling

  lemma {:induction false} FillKeepsPages(ps: Pages.State, at: nat, n: nat, given: nat -> Option<nat>, k: nat)
    requires Pages.Inv(ps) && at < |ps.slots| && AllocatorOk(ps, at, n, given, k)
    ensures Pages.Inv(FillPages(ps, at, n, given, k))
    decreases n
  {
    if n > 0 {
      Pages.GetRxPagesKeepsInv(ps, at, given(k));
      var qs := Pages.GetRxPages(ps, at, given(k));
      if qs.slots[at].Some? {
        FillKeepsPages(qs, NextDx(|ps.slots|, at), n - 1, given, k + 1);
      }
    }
  }

  /** A refill of n slots leaves the other slots alone. */
  lemma {:induction false} FillSpares(ps: Pages.State, at: nat, n: nat, given: nat -> Option<nat>, k: nat, i: nat)
    requires at < |ps.slots| == |ps.taken| && n < |ps.slots| && i < |ps.slots| && Dist(|ps.slots|, at, i) >= n
    ensures var qs := FillPages(ps, at, n, given, k);
            qs.slots[i] == ps.slots[i] && qs.taken[i] == ps.taken[i]
    decreases n
  {
    if n > 0 {
      var next, us := NextDx(|ps.slots|, at), Pages.GetRxPages(ps, at, given(k));
      OnlySlotChanges(ps, at, given(k));
      if us.slots[at].Some? {
        assert Dist(|ps.slots|, next, i) == Dist(|ps.slots|, at, i) - 1;
        FillSpares(us, next, n - 1, given, k + 1, i);
      }
    }
  }

  /** It gives each slot it gets through an untouched window. */
  lemma {:induction false} FillGives(ps: Pages.State, at: nat, n: nat, given: nat -> Option<nat>, k: nat, j: nat)
    requires at < |ps.slots| == |ps.taken| && n < |ps.slots| && j < Refilled(ps, at, n, given, k)
    ensures var qs := FillPages(ps, at, n, given, k);
            qs.slots[At(|ps.slots|, at, j)].Some? && !qs.taken[At(|ps.slots|, at, j)]
    decreases n
  {
    var next, us := NextDx(|ps.slots|, at), Pages.GetRxPages(ps, at, given(k));
    OnlySlotChanges(ps, at, given(k));
    if j == 0 {
      assert Dist(|ps.slots|, next, at) == |ps.slots| - 1;
      FillSpares(us, next, n - 1, given, k + 1, at);
    } else {
      NextIsAt(|ps.slots|, at, j);
      FillGives(us, next, n - 1, given, k + 1, j - 1);
    }
  }

  lemma FillWrites(ps: Pages.State, at: nat, n: nat, given: nat -> Option<nat>, k: nat)
    requires at < |ps.slots| == |ps.taken| && n < |ps.slots|
    ensures var qs := FillPages(ps, at, n, given, k);
            && (forall i :: 0 <= i < |ps.slots| && Dist(|ps.slots|, at, i) >= n ==>
                  qs.slots[i] == ps.slots[i] && qs.taken[i] == ps.taken[i])
            && (forall j :: 0 <= j < Refilled(ps, at, n, given, k) ==>
                  qs.slots[At(|ps.slots|, at, j)].Some? && !qs.taken[At(|ps.slots|, at, j)])
  {
    var qs := FillPages(ps, at, n, given, k);
    forall i | 0 <= i < |ps.slots| && Dist(|ps.slots|, at, i) >= n
      ensures qs.slots[i] == ps.slots[i] && qs.taken[i] == ps.taken[i]
    {
      FillSpares(ps, at, n, given, k, i);
    }
    forall j | 0 <= j < Refilled(ps, at, n, given, k)
      ensures qs.slots[At(|ps.slots|, at, j)].Some? && !qs.taken[At(|ps.slots|, at, j)]
    {
      FillGives(ps, at, n, given, k, j);
    }
  }

  lemma OnlySlotChanges(ps: Pages.State, at: nat, given: Option<nat>)
    requires at < |ps.slots| == |ps.taken|
    ensures var qs := Pages.GetRxPages(ps, at, given);
            && (forall i :: 0 <= i < |ps.slots| && i != at ==> qs.slots[i] == ps.slots[i] && qs.taken[i] == ps.taken[i])
            && !qs.taken[at]
  {}

  /** The addresses that a complete refill posts. */
  function Addresses(qs: Pages.State, at: nat, n: nat): (r: seq<nat>)
    requires at < |qs.slots| == |qs.taken| && n < |qs.slots|
    requires forall j :: 0 <= j < n ==> qs.slots[At(|qs.slots|, at, j)].Some?
    ensures |r| == n
    ensures forall j :: 0 <= j < n ==> r[j] == Addr(qs, At(|qs.slots|, at, j))
  {
    seq(n, j requires 0 <= j < n => Addr(qs, At(|qs.slots|, at, j)))
  }

  lemma RefilledLiveSlot(s: State, ps: Pages.State, t: State, qs: Pages.State, n: nat, p: nat)
    requires Ordered(s) && Linked(s, ps) && Ordered(t) && |qs.slots| == |qs.taken| == s.size
    requires n == AvailDx(s.size, s.swHead, s.swTail) && t.posted == s.posted + n && t.done <= p < t.posted
    requires t == s.(ring := t.ring, dx := t.dx, swTail := t.swTail, posted := t.posted)
    requires forall i :: 0 <= i < s.size && Dist(s.size, s.swTail, i) >= n ==>
               qs.slots[i] == ps.slots[i] && qs.taken[i] == ps.taken[i]
    requires forall j :: 0 <= j < n ==>
               qs.slots[At(s.size, s.swTail, j)].Some? && !qs.taken[At(s.size, s.swTail, j)]
    ensures LiveSlot(t, qs, p)
    ensures p < s.posted ==> qs.slots[SlotAt(s, p)] == ps.slots[SlotAt(s, p)]
    ensures p >= s.posted ==> SlotAt(s, p) == At(s.size, s.swTail, p - s.posted)
  {
    LivePlusAvail(s.size, s.swHead, s.swTail);
    if p < s.posted {
      assert LiveSlot(s, ps, p);
      assert Dist(s.size, s.swTail, SlotAt(s, p)) >= n;
    } else {
      assert SlotAt(s, p) == At(s.size, s.swTail, p - s.posted);
    }
  }

  /** The free slots after a complete refill of the pages. */
  ghost predicate FreeSlotsReady(s: State, ps: Pages.State, qs: Pages.State, n: nat)
  {
    && s.swTail < s.size && |qs.slots| == |qs.taken| == |ps.slots| == |ps.taken| == s.size && n < s.size
    && (forall i :: 0 <= i < s.size && Dist(s.size, s.swTail, i) >= n ==>
          qs.slots[i] == ps.slots[i] && qs.taken[i] == ps.taken[i])
    && (forall j :: 0 <= j < n ==>
          qs.slots[At(s.size, s.swTail, j)].Some? && !qs.taken[At(s.size, s.swTail, j)])
  }

  lemma CompleteFill(s: State, ps: Pages.State, n: nat, given: nat -> Option<nat>)
    requires Pages.Inv(ps) && s.swTail < s.size == |ps.slots| && n < s.size
    requires AllocatorOk(ps, s.swTail, n, given, 0) && Refilled(ps, s.swTail, n, given, 0) == n
    ensures Pages.Inv(FillPages(ps, s.swTail, n, given, 0))
    ensures FreeSlotsReady(s, ps, FillPages(ps, s.swTail, n, given, 0), n)
  {
    FillKeepsPages(ps, s.swTail, n, given, 0);
    FillWrites(ps, s.swTail, n, given, 0);
  }

  lemma RefillLinks(s: State, ps: Pages.State, qs: Pages.State, refillThres: nat, n: nat)
    requires Inv(s) && Linked(s, ps) && FreeSlotsReady(s, ps, qs, n)
    requires n == AvailDx(s.size, s.swHead, s.swTail) >= RefillThreshold(s.size, refillThres)
    ensures var t := Refill(s, refillThres, Addresses(qs, s.swTail, n));
            Inv(t) && t.hist == s.hist && Linked(t, qs)
  {
    var addrs := Addresses(qs, s.swTail, n);
    RefillKeepsInv(s, refillThres, addrs);
    RefillWritesBehind(s, refillThres, addrs);
    RefillKeepsLink(s, ps, Refill(s, refillThres, addrs), qs, n);
  }

  /** A complete refill keeps ring and pages together: it posts the window of every slot that
      was free. */
  lemma RefillKeepsBoth(s: State, ps: Pages.State, refillThres: nat, given: nat -> Option<nat>, n: nat)
    requires BothInv(s, ps) && n == AvailDx(s.size, s.swHead, s.swTail) >= RefillThreshold(s.size, refillThres)
    requires AllocatorOk(ps, s.swTail, n, given, 0) && Refilled(ps, s.swTail, n, given, 0) == n
    ensures var qs := FillPages(ps, s.swTail, n, given, 0);
            && FreeSlotsReady(s, ps, qs, n)
            && BothInv(Refill(s, refillThres, Addresses(qs, s.swTail, n)), qs)
  {
    LivePlusAvail(s.size, s.swHead, s.swTail);
    CompleteFill(s, ps, n, given);
    RefillLinks(s, ps, FillPages(ps, s.swTail, n, given, 0), refillThres, n);
  }

  lemma RefillKeepsLink(s: State, ps: Pages.State, t: State, qs: Pages.State, n: nat)
    requires Ordered(s) && Linked(s, ps) && Ordered(t) && |qs.slots| == |qs.taken| == s.size
    requires n == AvailDx(s.size, s.swHead, s.swTail) && n < s.size && t.posted == s.posted + n
    requires t == s.(ring := t.ring, dx := t.dx, swTail := t.swTail, posted := t.posted)
    requires forall i :: 0 <= i < s.size && Dist(s.size, s.swTail, i) >= n ==>
               qs.slots[i] == ps.slots[i] && qs.taken[i] == ps.taken[i]
    requires forall j :: 0 <= j < n ==>
               qs.slots[At(s.size, s.swTail, j)].Some? && !qs.taken[At(s.size, s.swTail, j)]
    requires forall p :: s.done <= p < s.posted ==> t.dx[SlotAt(s, p)] == s.dx[SlotAt(s, p)]
    requires s.posted + n < s.done + s.size
    requires forall j :: 0 <= j < n ==> t.dx[SlotAt(s, s.posted + j)] == Posted(Addr(qs, At(s.size, s.swTail, j)))
    ensures Linked(t, qs)
  {
    forall p | t.done <= p < t.posted
      ensures LiveSlot(t, qs, p)
    {
      RefilledLiveSlot(s, ps, t, qs, n, p);
    }
    forall p | |t.hist| <= p < t.posted
      ensures PostsWindow(t, qs, p)
    {
      RefilledLiveSlot(s, ps, t, qs, n, p);
      if p < s.posted {
        assert PostsWindow(s, ps, p);
      } else {
        assert t.dx[SlotAt(s, s.posted + (p - s.posted))] == Posted(Addr(qs, At(s.size, s.swTail, p - s.posted)));
      }
    }
  }

  /** A refill that gets no page at all gives up at the first free slot, which may have lost its
      page, and posts nothing. */
  lemma FailedAtOnceKeepsBoth(s: State, ps: Pages.State, given: nat -> Option<nat>, n: nat)
    requires BothInv(s, ps) && n == AvailDx(s.size, s.swHead, s.swTail) && n > 0
    requires AllocatorOk(ps, s.swTail, n, given, 0) && Refilled(ps, s.swTail, n, given, 0) == 0
    ensures BothInv(FailedRefill(s, 0), FillPages(ps, s.swTail, n, given, 0))
  {
    FailureKeepsInvIff(s, 0);
    FillKeepsPages(ps, s.swTail, n, given, 0);
    var t, qs := FailedRefill(s, 0), FillPages(ps, s.swTail, n, given, 0);
    OnlySlotChanges(ps, s.swTail, given(0));
    FreeSlotKeepsLink(s, ps, t, qs);
  }

  /** The link does not care about the first free slot. */
  lemma FreeSlotKeepsLink(s: State, ps: Pages.State, t: State, qs: Pages.State)
    requires Ordered(s) && Linked(s, ps) && Ordered(t) && AvailDx(s.size, s.swHead, s.swTail) > 0
    requires t == s.(ring := t.ring) && |qs.slots| == |qs.taken| == s.size
    requires forall i :: 0 <= i < s.size && i != s.swTail ==> qs.slots[i] == ps.slots[i] && qs.taken[i] == ps.taken[i]
    ensures Linked(t, qs)
  {
    LivePlusAvail(s.size, s.swHead, s.swTail);
    forall p | t.done <= p < t.posted
      ensures LiveSlot(t, qs, p)
    {
      assert LiveSlot(s, ps, p);
      assert SlotAt(s, p) != s.swTail;
    }
    forall p | |t.hist| <= p < t.posted
      ensures PostsWindow(t, qs, p)
    {
      assert PostsWindow(s, ps, p);
      assert SlotAt(s, p) != s.swTail;
    }
  }

  // ---------------------------------------------------------------- whole runs

  datatype Action =
    | WrittenBack(w: RawWb)
    | ReceiveCall
    | CleanCall(budget: nat, alloc: nat -> bool, kernel: Kernel)
    | RefillCall(refillThres: nat, given: nat -> Option<nat>)
    | SkbShared(k: nat)
    | SkbReleased(k: nat)

  /** The free slots, refilled: nothing below the threshold, otherwise every one of them, with
      pages that nobody uses; or none, when the very first page is refused. */
  ghost predicate RefillStep(s: State, ps: Pages.State, refillThres: nat, given: nat -> Option<nat>,
                             t: State, qs: Pages.State)
  {
    && s.swHead < s.size == |s.ring| == |s.dx| == |ps.slots| == |ps.taken| && s.swTail < s.size
    && var n := AvailDx(s.size, s.swHead, s.swTail);
       if n < RefillThreshold(s.size, refillThres) then t == s && qs == ps
       else
         && AllocatorOk(ps, s.swTail, n, given, 0)
         && qs == FillPages(ps, s.swTail, n, given, 0)
         && (if Refilled(ps, s.swTail, n, given, 0) == n then
               FreeSlotsReady(s, ps, qs, n) && t == Refill(s, refillThres, Addresses(qs, s.swTail, n))
             else
               Refilled(ps, s.swTail, n, given, 0) == 0 && t == FailedRefill(s, 0))
  }

  ghost predicate Step(s: State, ps: Pages.State, a: Action, t: State, qs: Pages.State)
  {
    match a
    case WrittenBack(w) => HwWrite(s, t, w) && qs == ps
    case ReceiveCall => t == Receive(s) && qs == ps
    case CleanCall(budget, alloc, kernel) =>
      t == Clean(s, budget, alloc, 0) && qs == CleanPages(s, ps, budget, alloc, kernel, 0)
    case RefillCall(refillThres, given) => RefillStep(s, ps, refillThres, given, t, qs)
    case SkbShared(k) => t == s && k < |ps.regions| && qs == Pages.Share(ps, k)
    case SkbReleased(k) =>
      t == s && k < |ps.regions| && Pages.RefCount(ps, ps.regions[k].page) > 0 && qs == Pages.Release(ps, k)
  }

  ghost predicate Init(s: State, ps: Pages.State)
  {
    && 0 < s.size == |s.ring| == |s.dx| == |ps.slots|
    && s.swHead == 0 && s.hwHead == 0 && s.swTail == 0
    && s.hist == [] && s.recv == 0 && s.done == 0 && s.posted == 0
    && s.delivered == [] && s.errors == 0
    && Pages.Init(ps)
  }

  lemma InitIsSafe(s: State, ps: Pages.State)
    requires Init(s, ps)
    ensures BothInv(s, ps)
  {
    assert Ordered(s);
  }

  ghost predicate Run(states: seq<(State, Pages.State)>, actions: seq<Action>)
  {
    && |states| == |actions| + 1
    && Init(states[0].0, states[0].1)
    && forall i :: 0 <= i < |actions| ==>
         Step(states[i].0, states[i].1, actions[i], states[i + 1].0, states[i + 1].1)
  }

  lemma GrownHistoryKeepsLink(s: State, ps: Pages.State, t: State)
    requires Ordered(s) && Linked(s, ps) && Ordered(t) && WellLinked(t.hist) && s.hist <= t.hist
    requires t == s.(dx := t.dx, hist := t.hist)
    requires forall p :: |t.hist| <= p < t.posted ==> t.dx[SlotAt(t, p)] == s.dx[SlotAt(s, p)]
    ensures Linked(t, ps)
  {
    forall p | t.done <= p < t.posted
      ensures LiveSlot(t, ps, p)
    {
      assert LiveSlot(s, ps, p);
      if p < s.recv {
        HeadIsStable(s.hist, t.hist, p);
      }
    }
    forall p | |t.hist| <= p < t.posted
      ensures PostsWindow(t, ps, p)
    {
      assert PostsWindow(s, ps, p);
    }
  }

  lemma HwWriteKeepsBoth(s: State, ps: Pages.State, w: RawWb, t: State)
    requires BothInv(s, ps) && HwWrite(s, t, w)
    ensures BothInv(t, ps)
  {
    HwWriteKeepsInv(s, t, w);
    HwWriteKeepsLink(s, ps, w, t);
  }

  lemma HwWriteKeepsLink(s: State, ps: Pages.State, w: RawWb, t: State)
    requires Ordered(s) && Linked(s, ps) && HwWrite(s, t, w)
    ensures Ordered(t) && Linked(t, ps)
  {
    HwWriteKeepsOrder(s, t, w);
    forall p | |t.hist| <= p < t.posted
      ensures t.dx[SlotAt(t, p)] == s.dx[SlotAt(s, p)]
    {
      HwWriteElsewhere(s, t, w, p);
    }
    GrownHistoryKeepsLink(s, ps, t);
  }

  lemma {:induction false} ReceiveFrame(s: State)
    ensures var t := Receive(s);
            t == s.(ring := t.ring, hwHead := t.hwHead, recv := t.recv) && t.recv >= s.recv
    decreases if CanReceive(s) then Dist(s.size, s.hwHead, s.swTail) else 0
  {
    if CanReceive(s) {
      ReceiveFrame(ReceiveOne(s));
    }
  }

  lemma ReceiveKeepsBoth(s: State, ps: Pages.State)
    requires BothInv(s, ps)
    ensures BothInv(Receive(s), ps)
  {
    var t := Receive(s);
    ReceiveKeepsInv(s);
    ReceiveFrame(s);
    IntakeKeepsLink(s, ps, t);
  }

  lemma IntakeKeepsLink(s: State, ps: Pages.State, t: State)
    requires Ordered(s) && Linked(s, ps) && Ordered(t) && t.recv >= s.recv
    requires t == s.(ring := t.ring, hwHead := t.hwHead, recv := t.recv)
    ensures Linked(t, ps)
  {
    forall p | t.done <= p < t.posted
      ensures LiveSlot(t, ps, p)
    {
      assert LiveSlot(s, ps, p);
    }
    forall p | |t.hist| <= p < t.posted
      ensures PostsWindow(t, ps, p)
    {
      assert PostsWindow(s, ps, p);
    }
  }

  lemma SkbKeepsBoth(s: State, ps: Pages.State, qs: Pages.State)
    requires BothInv(s, ps) && Pages.Inv(qs) && qs.slots == ps.slots && qs.taken == ps.taken
    ensures BothInv(s, qs)
  {
    forall p | s.done <= p < s.posted
      ensures LiveSlot(s, qs, p)
    {
      assert LiveSlot(s, ps, p);
    }
    forall p | |s.hist| <= p < s.posted
      ensures PostsWindow(s, qs, p)
    {
      assert PostsWindow(s, ps, p);
    }
  }

  lemma StepKeepsBoth(s: State, ps: Pages.State, a: Action, t: State, qs: Pages.State)
    requires BothInv(s, ps) && Step(s, ps, a, t, qs)
    ensures BothInv(t, qs)
  {
    match a
    case WrittenBack(w) => HwWriteKeepsBoth(s, ps, w, t);
    case ReceiveCall => ReceiveKeepsBoth(s, ps);
    case CleanCall(budget, alloc, kernel) => CleanKeepsBoth(s, ps, budget, alloc, kernel);
    case RefillCall(refillThres, given) =>
      var n := AvailDx(s.size, s.swHead, s.swTail);
      if n >= RefillThreshold(s.size, refillThres) {
        if Refilled(ps, s.swTail, n, given, 0) == n {
          RefillKeepsBoth(s, ps, refillThres, given, n);
        } else {
          FailedAtOnceKeepsBoth(s, ps, given, n);
        }
      }
    case SkbShared(k) =>
      Pages.ShareKeepsInv(ps, k);
      SkbKeepsBoth(s, ps, qs);
    case SkbReleased(k) =>
      Pages.ReleaseKeepsInv(ps, k);
      SkbKeepsBoth(s, ps, qs);
  }

  lemma {:induction false} EveryRunKeepsBoth(states: seq<(State, Pages.State)>, actions: seq<Action>)
    requires Run(states, actions)
    ensures BothInv(states[|actions|].0, states[|actions|].1)
    decreases |actions|
  {
    var n := |actions|;
    if n > 0 {
      EveryRunKeepsBoth(states[..n], actions[..n - 1]);
      assert states[..n][n - 1] == states[n - 1];
      StepKeepsBoth(states[n - 1].0, states[n - 1].1, actions[n - 1], states[n].0, states[n].1);
    } else {
      InitIsSafe(states[0].0, states[0].1);
    }
  }

  /** What the stack has got, and what the hardware may write to:
      - the stack has got exactly the error-free packets whose head has been passed, in the order
        of their heads, and the others are counted as errors;
      - every passed descriptor belongs to exactly one packet, received as a whole;
      - whatever the hardware may still write to is disjoint from all that live skbs hold. */
  ghost predicate Safe(s: State, ps: Pages.State)
  {
    && s.swHead < s.size && s.done <= s.recv <= |s.hist| <= s.posted < s.done + s.size
    && s.delivered == Delivered(s.hist, s.done)
    && s.errors == Errors(s.hist, s.done)
    && (forall q :: 0 <= q < s.done ==> PassedInOnePacket(s, q))
    && (forall p :: |s.hist| <= p < s.posted ==> ReadySlot(s, ps, p))
  }

  lemma BothInvIsSafe(s: State, ps: Pages.State)
    requires BothInv(s, ps)
    ensures Safe(s, ps)
  {
    forall q | 0 <= q < s.done
      ensures PassedInOnePacket(s, q)
    {
      PassedExactlyOnce(s, q);
    }
    forall p | |s.hist| <= p < s.posted
      ensures ReadySlot(s, ps, p)
    {
      HardwareWritesAreSafe(s, ps, p);
    }
  }

  // ---------------------------------------------------------------- runs with refills of every kind

  /** A refill that gets some pages, but not all: the tail has moved over the slots that got one,
      and nothing is posted. */
  ghost predicate MidwayStep(s: State, ps: Pages.State, a: Action, t: State, qs: Pages.State)
  {
    && a.RefillCall?
    && s.swHead < s.size == |s.ring| == |s.dx| == |ps.slots| == |ps.taken| && s.swTail < s.size
    && var n := AvailDx(s.size, s.swHead, s.swTail);
       && RefillThreshold(s.size, a.refillThres) <= n
       && AllocatorOk(ps, s.swTail, n, a.given, 0) && 0 < Refilled(ps, s.swTail, n, a.given, 0) < n
       && qs == FillPages(ps, s.swTail, n, a.given, 0)
       && t == FailedRefill(s, Refilled(ps, s.swTail, n, a.given, 0))
  }

  ghost predicate AnyStep(states: seq<(State, Pages.State)>, actions: seq<Action>, i: nat)
    requires i < |actions| < |states|
  {
    Step(states[i].0, states[i].1, actions[i], states[i + 1].0, states[i + 1].1) || Midway(states, actions, i)
  }

  ghost predicate Midway(states: seq<(State, Pages.State)>, actions: seq<Action>, i: nat)
    requires i < |actions| < |states|
  {
    MidwayStep(states[i].0, states[i].1, actions[i], states[i + 1].0, states[i + 1].1)
  }

  ghost predicate AnyRun(states: seq<(State, Pages.State)>, actions: seq<Action>)
  {
    && |states| == |actions| + 1
    && Init(states[0].0, states[0].1)
    && forall i :: 0 <= i < |actions| ==> AnyStep(states, actions, i)
  }

  ghost predicate Holds(states: seq<(State, Pages.State)>, i: nat)
    requires i < |states|
  {
    BothInv(states[i].0, states[i].1)
  }

  /** None of the first n steps is a refill that fails half way. */
  ghost predicate NoneMidway(states: seq<(State, Pages.State)>, actions: seq<Action>, n: nat)
    requires n <= |actions| < |states|
  {
    forall i :: 0 <= i < n ==> !Midway(states, actions, i)
  }

  /** Up to the first refill that fails half way a run is one of those above. */
  lemma RunsUntilMidway(states: seq<(State, Pages.State)>, actions: seq<Action>, n: nat)
    requires AnyRun(states, actions) && n <= |actions|
    requires NoneMidway(states, actions, n)
    ensures Run(states[..n + 1], actions[..n]) && Holds(states, n)
  {
    forall i | 0 <= i < n
      ensures Step(states[i].0, states[i].1, actions[i], states[i + 1].0, states[i + 1].1)
    {
      assert AnyStep(states, actions, i);
    }
    EveryRunKeepsBoth(states[..n + 1], actions[..n]);
  }

  lemma MidwayBreaks(s: State, ps: Pages.State, a: Action, t: State, qs: Pages.State)
    requires BothInv(s, ps) && MidwayStep(s, ps, a, t, qs)
    ensures !BothInv(t, qs)
  {
    FailureKeepsInvIff(s, Refilled(ps, s.swTail, AvailDx(s.size, s.swHead, s.swTail), a.given, 0));
  }

  /** The invariants of ring and pages hold all through a run, whatever pages and skbs are refused
      in it, if and only if none of its refills fails half way. */
  lemma EveryStateHoldsIff(states: seq<(State, Pages.State)>, actions: seq<Action>)
    requires AnyRun(states, actions)
    ensures (forall i :: 0 <= i <= |actions| ==> Holds(states, i)) <==> NoneMidway(states, actions, |actions|)
  {
    if NoneMidway(states, actions, |actions|) {
      forall i | 0 <= i <= |actions|
        ensures Holds(states, i)
      {
        RunsUntilMidway(states, actions, i);
      }
    } else {
      var i :| 0 <= i < |actions| && Midway(states, actions, i);
      if Holds(states, i) {
        MidwayBreaks(states[i].0, states[i].1, actions[i], states[i + 1].0, states[i + 1].1);
        assert !Holds(states, i + 1);
      }
    }
  }

  /** In every run, whatever the interleaving of the hardware, the poll and the stack, and whatever
      the budgets and the failed allocations, every state up to the first refill that fails half
      way is safe. */
  lemma EveryRunIsSafe(states: seq<(State, Pages.State)>, actions: seq<Action>)
    requires AnyRun(states, actions)
    ensures forall n :: 0 <= n <= |actions| && NoneMidway(states, actions, n) ==> Safe(states[n].0, states[n].1)
  {
    forall n | 0 <= n <= |actions| && NoneMidway(states, actions, n)
      ensures Safe(states[n].0, states[n].1)
    {
      RunsUntilMidway(states, actions, n);
      BothInvIsSafe(states[n].0, states[n].1);
    }
  }

  /** The descriptor of position p is posted, with a window that no live skb refers to. */
  ghost predicate ReadySlot(s: State, ps: Pages.State, p: nat)
    requires s.swHead < s.size && s.done <= p < s.done + s.size
  {
    var i := SlotAt(s, p);
    && i < |s.dx| && Usable(ps, i)
    && s.dx[i] == Posted(Addr(ps, i))
    && Pages.WindowSafe(ps, i)
  }
}
