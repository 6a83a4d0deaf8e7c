/** What every step of the RX protocol keeps, and what follows for whole runs. */
module RxSafety {
  import opened Wrappers
  import opened Ring
  import opened RxChains
  import opened RxProtocol

  // ---------------------------------------------------------------- the hardware

  /** The write-back w, done to the descriptor at absolute position p in slot `slot`. */
  function Meaning(size: nat, slot: nat, p: nat, w: RawWb): WriteBack
    requires slot < size && (w.eop || LinkOf(size, slot, w) < size)
  {
    WriteBack(w.eop, w.err, if w.eop then 0 else p + Dist(size, slot, LinkOf(size, slot, w)), RxLen(w), w.data)
  }

  /** The next descriptor that the hardware writes back. */
  function NextSlot(s: State): nat
    requires s.swHead < s.size && s.done <= |s.hist| < s.done + s.size
  {
    At(s.size, s.swHead, |s.hist| - s.done)
  }

  /** The hardware writes posted descriptors back, in order, and links each unfinished packet
      to a later descriptor that no other packet uses. */
  ghost predicate HwWrite(s: State, t: State, w: RawWb)
  {
    && s.swHead < s.size == |s.dx|
    && s.done <= |s.hist| < s.posted < s.done + s.size
    && var slot := NextSlot(s);
       && (w.eop || LinkOf(s.size, slot, w) < s.size)
       && var x := Meaning(s.size, slot, |s.hist|, w);
          && (!x.eop ==> x.next <= s.posted)
          && WellLinked(s.hist + [x])
          && t == s.(dx := s.dx[slot := Done(w)], hist := s.hist + [x])
  }

  // ---------------------------------------------------------------- the invariant

  ghost predicate Ordered(s: State)
  {
    && 0 < s.size == |s.ring| == |s.dx|
    && s.swHead < s.size && s.hwHead < s.size && s.swTail < s.size
    && s.done <= s.recv <= |s.hist| <= s.posted
    && s.recv - s.done == Dist(s.size, s.swHead, s.hwHead)
    && s.posted - s.done == Dist(s.size, s.swHead, s.swTail)
  }

  /** The slot and the descriptor of absolute position p. */
  function SlotAt(s: State, p: nat): nat
    requires s.swHead < s.size && s.done <= p < s.done + s.size
  {
    At(s.size, s.swHead, p - s.done)
  }

  /** Shared memory: what the driver has not received yet is exactly what is marked done. */
  ghost predicate DescriptorsOk(s: State)
    requires Ordered(s)
  {
    && (forall p :: |s.hist| <= p < s.posted ==> PostedAt(s, p))
    && (forall p :: s.recv <= p < |s.hist| ==> Waiting(s, p))
  }

  ghost predicate PostedAt(s: State, p: nat)
    requires Ordered(s) && |s.hist| <= p < s.posted
  {
    s.dx[SlotAt(s, p)].Posted?
  }

  ghost predicate Waiting(s: State, p: nat)
    requires Ordered(s) && s.recv <= p < |s.hist|
  {
    var i := SlotAt(s, p);
    && s.dx[i].Done?
    && (s.dx[i].w.eop || LinkOf(s.size, i, s.dx[i].w) < s.size)
    && s.hist[p] == Meaning(s.size, i, p, s.dx[i].w)
  }

  function Received(s: State): (r: History)
    requires s.recv <= |s.hist|
  {
    s.hist[..s.recv]
  }

  /** A received slot says what was written back; it is marked cleaned exactly when the packet
      it belongs to has been passed. */
  ghost predicate SlotOk(s: State, p: nat)
    requires Ordered(s) && s.done <= p < s.recv
  {
    var b, w := s.ring[SlotAt(s, p)], s.hist[p];
    && b.isEop == w.eop && b.len == w.len && b.data == w.data
    && (!w.eop ==> p < w.next < s.done + s.size && b.next == SlotAt(s, w.next))
    && (b.isCleaned <==> Head(s.hist, p) < s.done)
    && (w.err ==> b.isError)
    && (b.isError ==> w.err || (p == s.done && AnyError(s.hist, p)))
  }

  ghost predicate LinksOk(s: State)
  {
    && WellLinked(s.hist)
    && (forall p :: 0 <= p < |s.hist| && !s.hist[p].eop ==> s.hist[p].next <= s.posted)
  }

  /** Everything delivered or dropped so far is what the packets before the head ask for. */
  ghost predicate Outcome(s: State)
    requires Ordered(s)
  {
    && CompleteUpTo(Received(s), s.done)
    && s.delivered == Delivered(s.hist, s.done)
    && s.errors == Errors(s.hist, s.done)
  }

  ghost predicate Inv(s: State)
  {
    && Ordered(s) && DescriptorsOk(s) && LinksOk(s) && Outcome(s)
    && (forall p :: s.done <= p < s.recv ==> SlotOk(s, p))
  }

  // ---------------------------------------------------------------- write-back and receive

  lemma PrefixWellLinked(h: History, g: History)
    requires h <= g && WellLinked(g)
    ensures WellLinked(h)
  {}

  lemma HwWriteKeepsOrder(s: State, t: State, w: RawWb)
    requires Ordered(s) && HwWrite(s, t, w)
    ensures Ordered(t) && t.dx[SlotAt(t, |s.hist|)] == Done(w)
  {}

  /** A write-back changes one descriptor. */
  lemma HwWriteElsewhere(s: State, t: State, w: RawWb, p: nat)
    requires Ordered(s) && HwWrite(s, t, w) && Ordered(t) && s.done <= p < s.posted && p != |s.hist|
    ensures t.dx[SlotAt(t, p)] == s.dx[SlotAt(s, p)]
  {}

  lemma WaitingFrame(s: State, t: State, p: nat)
    requires Ordered(s) && Ordered(t) && s.recv <= p < |s.hist| && s.hist <= t.hist && Waiting(s, p)
    requires t.size == s.size && t.swHead == s.swHead && t.done == s.done && t.recv == s.recv
    requires t.dx[SlotAt(t, p)] == s.dx[SlotAt(s, p)]
    ensures Waiting(t, p)
  {}

  lemma NewcomerWaits(s: State, t: State, w: RawWb)
    requires Ordered(s) && HwWrite(s, t, w) && Ordered(t) && t.dx[SlotAt(t, |s.hist|)] == Done(w)
    ensures Waiting(t, |s.hist|)
  {}

  lemma HwWriteKeepsWaiting(s: State, t: State, w: RawWb, p: nat)
    requires Ordered(s) && HwWrite(s, t, w) && Ordered(t) && s.recv <= p < |t.hist|
    requires t.dx[SlotAt(t, |s.hist|)] == Done(w) && (p < |s.hist| ==> Waiting(s, p))
    ensures Waiting(t, p)
  {
    if p < |s.hist| {
      HwWriteElsewhere(s, t, w, p);
      WaitingFrame(s, t, p);
    } else {
      NewcomerWaits(s, t, w);
    }
  }

  lemma HwWriteKeepsDescriptors(s: State, t: State, w: RawWb)
    requires Ordered(s) && DescriptorsOk(s) && HwWrite(s, t, w)
    ensures Ordered(t) && DescriptorsOk(t)
  {
    HwWriteKeepsOrder(s, t, w);
    forall p | |t.hist| <= p < t.posted
      ensures PostedAt(t, p)
    {
      assert PostedAt(s, p);
      HwWriteElsewhere(s, t, w, p);
    }
    forall p | t.recv <= p < |t.hist|
      ensures Waiting(t, p)
    {
      HwWriteKeepsWaiting(s, t, w, p);
    }
  }

  lemma GrownHistoryKeepsSlot(s: State, t: State, p: nat)
    requires Ordered(s) && Ordered(t) && s.done <= p < s.recv && SlotOk(s, p)
    requires WellLinked(t.hist) && s.hist <= t.hist
    requires t == s.(dx := t.dx, hist := t.hist)
    ensures SlotOk(t, p)
  {
    HeadIsStable(s.hist, t.hist, p);
    if AnyError(s.hist, p) {
      ErrorIsStable(s.hist, t.hist, p);
    }
  }

  lemma HwWriteKeepsInv(s: State, t: State, w: RawWb)
    requires Inv(s) && HwWrite(s, t, w)
    ensures Inv(t)
  {
    HwWriteKeepsDescriptors(s, t, w);
    forall p | t.done <= p < t.recv
      ensures SlotOk(t, p)
    {
      GrownHistoryKeepsSlot(s, t, p);
    }
    OutcomeIsStable(s, t);
  }

  lemma OutcomeIsStable(s: State, t: State)
    requires Ordered(s) && Outcome(s) && Ordered(t) && WellLinked(t.hist)
    requires s.hist <= t.hist && t.recv >= s.recv && t.done == s.done
    requires t.delivered == s.delivered && t.errors == s.errors
    ensures Outcome(t)
  {
    var r := Received(s);
    assert r <= Received(t) <= t.hist;
    PrefixWellLinked(Received(t), t.hist);
    PrefixWellLinked(s.hist, t.hist);
    CompletenessIsStable(r, s.hist, s.done);
    CompletenessIsStable(r, Received(t), s.done);
    DeliveredIsStable(s.hist, t.hist, s.done);
  }

  /** A newly received slot never belongs to a packet that has already been passed. */
  lemma NewcomerIsFresh(s: State)
    requires Ordered(s) && LinksOk(s) && Outcome(s) && s.recv < |s.hist|
    ensures Head(s.hist, s.recv) >= s.done
  {
    var r, p := Received(s), s.recv;
    var h := Head(s.hist, p);
    if h < s.done {
      HeadIsStable(r, s.hist, h);
      CompleteIsStable(r, s.hist, h);
      MemberOfItsHead(s.hist, p);
      MembersInside(r, h);
      assert false;
    }
  }

  /** The loop of the driver goes on exactly while something has been written back. */
  lemma CanReceiveIffWaiting(s: State)
    requires Ordered(s) && DescriptorsOk(s)
    ensures CanReceive(s) <==> s.recv < |s.hist|
    ensures s.recv < |s.hist| ==> s.hwHead == SlotAt(s, s.recv) && Waiting(s, s.recv)
  {
    if s.recv < |s.hist| {
      assert s.hwHead == SlotAt(s, s.recv) && Waiting(s, s.recv);
    } else if s.recv < s.posted {
      assert PostedAt(s, s.recv);
    }
  }

  lemma ReceiveOneKeepsOrder(s: State)
    requires Ordered(s) && CanReceive(s) && s.recv < |s.hist|
    ensures Ordered(ReceiveOne(s))
  {}

  lemma ReceiveOneKeepsDescriptors(s: State)
    requires Ordered(s) && DescriptorsOk(s) && CanReceive(s) && s.recv < |s.hist|
    ensures Ordered(ReceiveOne(s)) && DescriptorsOk(ReceiveOne(s))
  {
    var t := ReceiveOne(s);
    ReceiveOneKeepsOrder(s);
    forall p | |t.hist| <= p < t.posted
      ensures PostedAt(t, p)
    {
      assert PostedAt(s, p);
    }
    forall p | t.recv <= p < |t.hist|
      ensures Waiting(t, p)
    {
      assert Waiting(s, p);
    }
  }

  lemma ReceivedSlot(s: State)
    requires Inv(s) && CanReceive(s) && s.recv < |s.hist| && Ordered(ReceiveOne(s))
    ensures SlotOk(ReceiveOne(s), s.recv)
  {
    CanReceiveIffWaiting(s);
    NewcomerIsFresh(s);
    assert Waiting(s, s.recv);
  }

  lemma EarlierSlotKept(s: State, p: nat)
    requires Ordered(s) && CanReceive(s) && Ordered(ReceiveOne(s)) && s.hwHead == SlotAt(s, s.recv)
    requires s.done <= p < s.recv < |s.hist| && SlotOk(s, p)
    ensures SlotOk(ReceiveOne(s), p)
  {
    assert SlotAt(s, p) != s.hwHead;
  }

  lemma EarlierSlotsKept(s: State)
    requires Ordered(s) && CanReceive(s) && Ordered(ReceiveOne(s)) && s.hwHead == SlotAt(s, s.recv)
    requires s.recv < |s.hist| && forall p :: s.done <= p < s.recv ==> SlotOk(s, p)
    ensures var t := ReceiveOne(s);
            forall p :: t.done <= p < s.recv ==> SlotOk(t, p)
  {
    forall p | s.done <= p < s.recv
      ensures SlotOk(ReceiveOne(s), p)
    {
      EarlierSlotKept(s, p);
    }
  }

  lemma ReceiveOneKeepsSlots(s: State)
    requires Inv(s) && CanReceive(s) && s.recv < |s.hist| && Ordered(ReceiveOne(s))
    ensures var t := ReceiveOne(s);
            forall p :: t.done <= p < t.recv ==> SlotOk(t, p)
  {
    CanReceiveIffWaiting(s);
    ReceivedSlot(s);
    EarlierSlotsKept(s);
  }

  lemma ReceiveOneKeepsInv(s: State)
    requires Inv(s) && CanReceive(s)
    ensures s.recv < |s.hist| && Inv(ReceiveOne(s))
  {
    CanReceiveIffWaiting(s);
    ReceiveOneKeepsDescriptors(s);
    ReceiveOneKeepsSlots(s);
    OutcomeIsStable(s, ReceiveOne(s));
  }

  /** Receiving takes in everything that has been written back, and nothing else. */
  lemma {:induction false} ReceiveKeepsInv(s: State)
    requires Inv(s)
    ensures Inv(Receive(s))
    ensures Receive(s).recv == |s.hist|
    ensures Receive(s).hist == s.hist && Receive(s).done == s.done && Receive(s).posted == s.posted
    decreases |s.hist| - s.recv
  {
    CanReceiveIffWaiting(s);
    if CanReceive(s) {
      ReceiveOneKeepsInv(s);
      ReceiveKeepsInv(ReceiveOne(s));
    }
  }

  // ---------------------------------------------------------------- the chain walk

  function SlotsOf(s: State, ps: seq<nat>): (r: seq<nat>)
    requires s.swHead < s.size && forall k :: 0 <= k < |ps| ==> s.done <= ps[k] < s.done + s.size
    ensures |r| == |ps| && Within(r, s.size)
    ensures forall k :: 0 <= k < |ps| ==> r[k] == SlotAt(s, ps[k])
  {
    if ps == [] then [] else [SlotAt(s, ps[0])] + SlotsOf(s, ps[1..])
  }

  lemma MembersInRing(s: State, p: nat)
    requires Ordered(s) && s.done <= p
    ensures forall k :: 0 <= k < |Members(Received(s), p)| ==>
              p <= Members(Received(s), p)[k] < s.recv < s.done + s.size
  {
    MembersInside(Received(s), p);
    forall k | 0 <= k < |Members(Received(s), p)|
      ensures p <= Members(Received(s), p)[k] < s.recv
    {
      assert Members(Received(s), p)[k] in Members(Received(s), p);
    }
  }

  /** The slots of the received part of the chain that goes on at p. */
  ghost function ChainSlots(s: State, p: nat): (r: seq<nat>)
    requires Ordered(s) && s.done <= p
    ensures Within(r, s.size)
  {
    MembersInRing(s, p);
    SlotsOf(s, Members(Received(s), p))
  }

  /** One link of the walk: it stays in range exactly when it stays in what has been received. */
  lemma OneLink(s: State, q: nat)
    requires Inv(s) && s.done <= q < s.recv && !s.hist[q].eop
    ensures var cur, next := SlotAt(s, q), s.hist[q].next;
            && q < next < s.done + s.size
            && s.ring[cur].next == SlotAt(s, next)
            && (DxInRange(s.swHead, SlotAt(s, next), s.hwHead) <==> next < s.recv)
            && Dist(s.size, s.swHead, cur) == q - s.done && Dist(s.size, s.swHead, SlotAt(s, next)) == next - s.done
  {
    assert SlotOk(s, q);
    InRangeIsBetween(s.size, s.swHead, SlotAt(s, s.hist[q].next), s.hwHead);
  }

  /** The walk finds the rest of the packet when that has been received, and otherwise stops. */
  lemma {:induction false} PathIs(s: State, q: nat)
    requires Inv(s) && s.done <= q < s.recv && !s.hist[q].eop
    ensures var path := Path(s.ring, s.swHead, s.hwHead, SlotAt(s, q));
            path == if Complete(Received(s), q) then Some(ChainSlots(s, s.hist[q].next)) else None
    decreases s.recv - q
  {
    var r, next := Received(s), s.hist[q].next;
    OneLink(s, q);
    MembersInRing(s, next);
    if next < s.recv {
      assert SlotOk(s, next);
      if !s.hist[next].eop {
        PathIs(s, next);
        MembersInRing(s, s.hist[next].next);
        assert Members(r, next)[1..] == Members(r, s.hist[next].next);
      } else {
        assert Members(r, next) == [next] && ChainSlots(s, next) == [SlotAt(s, next)];
      }
    }
  }

  lemma {:induction false} PacketsAreWalkable(s: State, q: nat)
    requires Inv(s) && s.done <= q < s.recv && !s.hist[q].eop
    ensures Walkable(s.ring, s.swHead, s.hwHead, SlotAt(s, q))
    decreases s.recv - q
  {
    OneLink(s, q);
    var next := s.hist[q].next;
    if next < s.recv {
      assert SlotOk(s, next);
      if !s.hist[next].eop {
        PacketsAreWalkable(s, next);
      }
    }
  }

  lemma HeadIsWalkable(s: State)
    requires Inv(s) && HasWork(s)
    ensures s.ring[s.swHead].isEop || Walkable(s.ring, s.swHead, s.hwHead, s.swHead)
  {
    assert SlotAt(s, s.done) == s.swHead && SlotOk(s, s.done);
    if !s.hist[s.done].eop {
      PacketsAreWalkable(s, s.done);
    }
  }

  /** The walk collects the errors of the rest of the packet. */
  lemma {:induction false} WalkErrorIs(s: State, q: nat)
    requires Inv(s) && s.done <= q < s.recv && !s.hist[q].eop
    ensures WalkError(s.ring, s.swHead, s.hwHead, SlotAt(s, q)) <==> AnyError(Received(s), s.hist[q].next)
    decreases s.recv - q
  {
    var next := s.hist[q].next;
    OneLink(s, q);
    if next < s.recv {
      assert SlotOk(s, next);
      if !s.hist[next].eop {
        OneLink(s, next);
        WalkErrorIs(s, next);
      }
    }
  }

  /** What one turn of the cleaning loop sees at the head. */
  lemma HeadFacts(s: State)
    requires Inv(s) && HasWork(s)
    ensures s.done < s.recv
    ensures s.ring[s.swHead].isCleaned <==> !IsHead(s.hist, s.done)
    ensures HeadPath(s).Some? <==> Complete(Received(s), s.done)
    ensures HeadError(s) ==> AnyError(s.hist, s.done)
    ensures Complete(Received(s), s.done) ==> (HeadError(s) <==> AnyError(s.hist, s.done))
    ensures s.hist[s.done].err ==> HeadError(s)
  {
    var p, r := s.done, Received(s);
    assert SlotAt(s, p) == s.swHead && SlotOk(s, p);
    if !s.hist[p].eop {
      OneLink(s, p);
      PathIs(s, p);
      WalkErrorIs(s, p);
    }
    if AnyError(r, p) {
      ErrorIsStable(r, s.hist, p);
    }
    if Complete(r, p) {
      CompleteIsStable(r, s.hist, p);
    }
  }

  /** The slots that a turn marks as cleaned are those of the rest of the head's packet. */
  lemma HeadPathIs(s: State)
    requires Inv(s) && HasWork(s) && Complete(Received(s), s.done)
    ensures s.done < s.recv && SlotAt(s, s.done) == s.swHead
    ensures HeadPath(s).Some? && [s.swHead] + HeadPath(s).value == ChainSlots(s, s.done)
  {
    var p, r := s.done, Received(s);
    assert SlotAt(s, p) == s.swHead && SlotOk(s, p);
    if s.hist[p].eop {
      assert Members(r, p) == [p] && ChainSlots(s, p) == [s.swHead];
    } else {
      OneLink(s, p);
      PathIs(s, p);
      assert Members(r, p)[1..] == Members(r, s.hist[p].next);
    }
  }

  /** The packet handed to the stack is the packet that was written back. */
  lemma GatheredPacket(s: State)
    requires Inv(s) && HasWork(s) && Complete(Received(s), s.done)
    ensures HeadPath(s).Some? && Within([s.swHead] + HeadPath(s).value, s.size)
    ensures Gather(s.ring, [s.swHead] + HeadPath(s).value) == PacketAt(s.hist, s.done)
  {
    var p, r := s.done, Received(s);
    HeadPathIs(s);
    PacketIsStable(r, s.hist, p);
    MembersInRing(s, p);
    forall k | 0 <= k < |Members(r, p)|
      ensures Gather(s.ring, ChainSlots(s, p))[k] == PacketAt(r, p)[k]
    {
      assert SlotOk(s, Members(r, p)[k]);
    }
  }

  /** A slot is on the head's path exactly when its packet is the head's packet. */
  lemma OnPathIff(s: State, q: nat)
    requires Inv(s) && HasWork(s) && Complete(Received(s), s.done) && IsHead(s.hist, s.done)
    requires s.done < q < s.recv
    ensures HeadPath(s).Some? && (SlotAt(s, q) in HeadPath(s).value <==> Head(s.hist, q) == s.done)
  {
    var p, r := s.done, Received(s);
    HeadPathIs(s);
    MembersInRing(s, p);
    CompleteIsStable(r, s.hist, p);
    ExactlyOnePacket(s.hist, p, q);
    var all := ChainSlots(s, p);
    assert SlotAt(s, q) in HeadPath(s).value <==> SlotAt(s, q) in all;
    if q in Members(r, p) {
      var k :| 0 <= k < |Members(r, p)| && Members(r, p)[k] == q;
      assert all[k] == SlotAt(s, q);
    }
    if SlotAt(s, q) in all {
      var k :| 0 <= k < |all| && all[k] == SlotAt(s, q);
      assert Members(r, p)[k] == q;
    }
  }

  // ---------------------------------------------------------------- one turn

  /** A turn gets past the head unless its packet is incomplete or there is no skb for it. */
  lemma PassesIff(s: State, alloc: bool)
    requires Inv(s) && HasWork(s)
    ensures Passes(s, alloc) <==>
            !IsHead(s.hist, s.done) ||
            (Complete(Received(s), s.done) && (alloc || AnyError(s.hist, s.done)))
  {
    HeadFacts(s);
  }

  /** The slots behind the head after a turn that passes it: only marks of its packet change. */
  ghost predicate Passed(s: State, ring: seq<RxSlot>)
    requires Ordered(s)
  {
    && |ring| == s.size
    && forall q :: s.done < q < s.recv ==> PassedSlot(s, ring, q)
  }

  ghost predicate PassedSlot(s: State, ring: seq<RxSlot>, q: nat)
    requires Ordered(s) && |ring| == s.size && s.done < q < s.recv
  {
    ring[SlotAt(s, q)] == s.ring[SlotAt(s, q)].(isCleaned := Head(s.hist, q) <= s.done)
  }

  /** A later head sees the same slots under the same positions. */
  lemma AdvancedSlotAt(s: State, t: State, p: nat)
    requires Ordered(s) && s.done < s.recv && t.size == s.size
    requires t.done == s.done + 1 && t.swHead == NextDx(s.size, s.swHead)
    requires t.done <= p < s.done + s.size
    ensures t.swHead < t.size && SlotAt(t, p) == SlotAt(s, p)
  {}

  lemma AdvanceKeepsOrder(s: State, t: State)
    requires Ordered(s) && DescriptorsOk(s) && s.done < s.recv && |t.ring| == s.size
    requires t == Advance(s).(ring := t.ring, delivered := t.delivered, errors := t.errors)
    ensures Ordered(t) && DescriptorsOk(t)
  {
    assert Ordered(t);
    forall p | |t.hist| <= p < t.posted
      ensures PostedAt(t, p)
    {
      assert PostedAt(s, p);
      AdvancedSlotAt(s, t, p);
    }
    forall p | t.recv <= p < |t.hist|
      ensures Waiting(t, p)
    {
      assert Waiting(s, p);
      AdvancedSlotAt(s, t, p);
    }
  }

  lemma AdvancedSlotOk(s: State, t: State, q: nat)
    requires Ordered(s) && s.done < q < s.recv && |t.ring| == s.size && Ordered(t)
    requires SlotOk(s, q) && PassedSlot(s, t.ring, q)
    requires t == Advance(s).(ring := t.ring, delivered := t.delivered, errors := t.errors)
    ensures SlotOk(t, q)
  {
    AdvancedSlotAt(s, t, q);
    if !s.hist[q].eop {
      AdvancedSlotAt(s, t, s.hist[q].next);
    }
  }

  lemma AdvanceKeepsSlots(s: State, t: State)
    requires Inv(s) && s.done < s.recv && Passed(s, t.ring) && Ordered(t)
    requires t == Advance(s).(ring := t.ring, delivered := t.delivered, errors := t.errors)
    ensures forall q :: t.done <= q < t.recv ==> SlotOk(t, q)
  {
    forall q | t.done <= q < t.recv
      ensures SlotOk(t, q)
    {
      assert SlotOk(s, q) && PassedSlot(s, t.ring, q);
      AdvancedSlotOk(s, t, q);
    }
  }

  lemma AdvanceKeepsOutcome(s: State, t: State)
    requires Ordered(s) && LinksOk(s) && Outcome(s) && s.done < s.recv
    requires Ordered(t) && t.hist == s.hist && t.recv == s.recv && t.done == s.done + 1
    requires IsHead(s.hist, s.done) ==> Complete(Received(s), s.done)
    requires t.delivered == s.delivered + DeliveredAt(s.hist, s.done)
    requires t.errors == s.errors + ErrorsAt(s.hist, s.done)
    ensures Outcome(t)
  {
    HeadIsStable(Received(s), s.hist, s.done);
    CompleteOneMore(Received(s), s.done);
    assert Received(t) == Received(s);
  }

  lemma CompleteOneMore(h: History, n: nat)
    requires CompleteUpTo(h, n) && (IsHead(h, n) ==> Complete(h, n))
    ensures CompleteUpTo(h, n + 1)
  {}

  /** Passing a position adds what that position asks for. */
  lemma AdvanceKeepsInv(s: State, t: State)
    requires Inv(s) && HasWork(s) && Passed(s, t.ring)
    requires t == Advance(s).(ring := t.ring, delivered := t.delivered, errors := t.errors)
    requires IsHead(s.hist, s.done) ==> Complete(Received(s), s.done)
    requires t.delivered == s.delivered + DeliveredAt(s.hist, s.done)
    requires t.errors == s.errors + ErrorsAt(s.hist, s.done)
    ensures Inv(t)
  {
    assert s.done < s.recv;
    AdvanceKeepsOrder(s, t);
    AdvanceKeepsSlots(s, t);
    AdvanceKeepsOutcome(s, t);
  }

  lemma SkippedSlot(s: State, q: nat)
    requires Ordered(s) && s.done < q < s.recv && SlotOk(s, q) && !IsHead(s.hist, s.done)
    ensures PassedSlot(s, s.ring, q)
  {}

  lemma SkipIsPassed(s: State)
    requires Inv(s) && !IsHead(s.hist, s.done)
    ensures Passed(s, s.ring)
  {
    forall q | s.done < q < s.recv
      ensures PassedSlot(s, s.ring, q)
    {
      assert SlotOk(s, q);
      SkippedSlot(s, q);
    }
  }

  lemma SkipKeepsInv(s: State)
    requires Inv(s) && HasWork(s) && !IsHead(s.hist, s.done)
    ensures Inv(Advance(s))
  {
    SkipIsPassed(s);
    AdvanceKeepsInv(s, Advance(s));
  }

  lemma MarkedIsPassed(s: State)
    requires Inv(s) && HasWork(s) && Complete(Received(s), s.done) && IsHead(s.hist, s.done)
    ensures HeadPath(s).Some? && Passed(s, Mark(Touch(s).ring, HeadPath(s).value))
  {
    HeadPathIs(s);
    var ring := Mark(Touch(s).ring, HeadPath(s).value);
    forall q | s.done < q < s.recv
      ensures PassedSlot(s, ring, q)
    {
      assert SlotOk(s, q);
      OnPathIff(s, q);
    }
  }

  lemma PassHeadKeepsInv(s: State, alloc: bool)
    requires Inv(s) && HasWork(s) && IsHead(s.hist, s.done) && Passes(s, alloc)
    ensures Inv(CleanOne(s, alloc))
  {
    HeadFacts(s);
    MarkedIsPassed(s);
    GatheredPacket(s);
    AdvanceKeepsInv(s, CleanOne(s, alloc));
  }

  lemma DescriptorsFrame(s: State, t: State)
    requires Ordered(s) && DescriptorsOk(s) && |t.ring| == s.size && t == s.(ring := t.ring)
    ensures Ordered(t) && DescriptorsOk(t)
  {
    forall p | |t.hist| <= p < t.posted
      ensures PostedAt(t, p)
    {
      assert PostedAt(s, p);
    }
    forall p | t.recv <= p < |t.hist|
      ensures Waiting(t, p)
    {
      assert Waiting(s, p);
    }
  }

  lemma TouchedSlot(s: State, t: State, e: bool, q: nat)
    requires Ordered(s) && s.done <= q < s.recv && SlotOk(s, q) && Ordered(t)
    requires t == s.(ring := s.ring[s.swHead := s.ring[s.swHead].(isError := e)])
    requires (s.hist[s.done].err ==> e) && (e ==> AnyError(s.hist, s.done))
    ensures SlotOk(t, q)
  {
    assert SlotAt(s, q) == s.swHead <==> q == s.done;
  }

  lemma TouchKeepsInv(s: State)
    requires Inv(s) && HasWork(s)
    ensures Inv(Touch(s))
  {
    DescriptorsFrame(s, Touch(s));
    HeadFacts(s);
    forall q | s.done <= q < s.recv
      ensures SlotOk(Touch(s), q)
    {
      TouchedSlot(s, Touch(s), HeadError(s), q);
    }
    OutcomeIsStable(s, Touch(s));
  }

  /** What a turn leaves alone. */
  ghost predicate SameIntake(s: State, t: State)
  {
    t.size == s.size && t.hist == s.hist && t.recv == s.recv && t.posted == s.posted
  }

  lemma CleanOneKeepsInv(s: State, alloc: bool)
    requires Inv(s) && HasWork(s)
    ensures Inv(CleanOne(s, alloc)) && SameIntake(s, CleanOne(s, alloc))
    ensures CleanOne(s, alloc).done == s.done + (if Passes(s, alloc) then 1 else 0)
  {
    HeadFacts(s);
    if !IsHead(s.hist, s.done) {
      SkipKeepsInv(s);
    } else if Passes(s, alloc) {
      PassHeadKeepsInv(s, alloc);
    } else {
      TouchKeepsInv(s);
    }
  }

  // ---------------------------------------------------------------- a whole call

  /** A turn that starts from what inv describes leaves what inv describes, and moves as it should. */
  ghost predicate TurnOk(inv: State -> bool, s: State, alloc: bool)
  {
    inv(s) && HasWork(s) ==> inv(CleanOne(s, alloc)) && TurnMoves(s, CleanOne(s, alloc), alloc)
  }

  /** What every turn keeps, a whole call keeps. */
  lemma {:induction false} CleanPreserves(inv: State -> bool, s: State, budget: nat, alloc: nat -> bool, k: nat)
    requires inv(s)
    requires forall u, a :: TurnOk(inv, u, a)
    ensures var t := Clean(s, budget, alloc, k);
            inv(t) && SameIntake(s, t) && s.done <= t.done <= s.done + budget
    decreases budget
  {
    assert TurnOk(inv, s, alloc(k));
    if budget > 0 && HasWork(s) && Passes(s, alloc(k)) {
      CleanPreserves(inv, CleanOne(s, alloc(k)), budget - 1, alloc, k + 1);
    }
  }

  ghost predicate TurnMoves(s: State, t: State, alloc: bool)
    requires HasWork(s)
  {
    SameIntake(s, t) && t.done == s.done + if Passes(s, alloc) then 1 else 0
  }

  lemma EveryTurnIsOk()
    ensures forall u, a :: TurnOk(Inv, u, a)
  {
    forall u, a
      ensures TurnOk(Inv, u, a)
    {
      if Inv(u) && HasWork(u) {
        CleanOneKeepsInv(u, a);
      }
    }
  }

  /** One call of aq_ring_rx_clean keeps the invariant, takes in nothing new and passes at most
      `budget` positions. */
  lemma CleanKeepsInv(s: State, budget: nat, alloc: nat -> bool, k: nat)
    requires Inv(s)
    ensures Inv(Clean(s, budget, alloc, k)) && SameIntake(s, Clean(s, budget, alloc, k))
    ensures s.done <= Clean(s, budget, alloc, k).done <= s.done + budget
  {
    EveryTurnIsOk();
    CleanPreserves(Inv, s, budget, alloc, k);
  }

  /** Where cleaning stops for good, seen from one turn. */
  ghost predicate StopsHere(s: State, alloc: bool)
  {
    && s.done <= s.recv <= |s.hist|
    && var stop := StopAt(Received(s), s.done);
       && (!HasWork(s) ==> stop == s.done)
       && (HasWork(s) && Passes(s, alloc) ==> s.done < s.recv && stop == StopAt(Received(s), s.done + 1))
       && (HasWork(s) && !Passes(s, true) ==> stop == s.done)
  }

  lemma StopsFrom(s: State, alloc: bool)
    requires s.done < s.recv <= |s.hist| && HasWork(s)
    requires IsHead(s.hist, s.done) <==> IsHead(Received(s), s.done)
    requires forall a :: Passes(s, a) <==>
               !IsHead(s.hist, s.done) || (Complete(Received(s), s.done) && (a || AnyError(s.hist, s.done)))
    ensures StopsHere(s, alloc)
  {}

  lemma StopStep(s: State, alloc: bool)
    requires Inv(s)
    ensures StopsHere(s, alloc)
  {
    if HasWork(s) {
      HeadIsStable(Received(s), s.hist, s.done);
      forall a
        ensures Passes(s, a) <==>
                !IsHead(s.hist, s.done) || (Complete(Received(s), s.done) && (a || AnyError(s.hist, s.done)))
      {
        PassesIff(s, a);
      }
      StopsFrom(s, alloc);
    }
  }

  ghost predicate StopOk(inv: State -> bool, s: State, alloc: bool)
  {
    inv(s) ==> StopsHere(s, alloc)
  }

  lemma EveryStopIsOk()
    ensures forall u, a :: StopOk(Inv, u, a)
  {
    forall u, a
      ensures StopOk(Inv, u, a)
    {
      if Inv(u) {
        StopStep(u, a);
      }
    }
  }

  /** From s, a call with this budget gets to t: never beyond the stop, and when every skb it
      asks for is granted, to the stop or to the end of its budget. */
  ghost predicate Reaches(s: State, t: State, budget: nat, granted: bool)
    requires s.recv <= |s.hist|
  {
    var stop := StopAt(Received(s), s.done);
    && t.done <= stop
    && (granted ==> t.done == if s.done + budget < stop then s.done + budget else stop)
  }

  lemma ReachesEnd(s: State, alloc: bool, budget: nat, granted: bool)
    requires StopsHere(s, alloc) && (granted ==> alloc)
    requires HasWork(s) ==> TurnMoves(s, CleanOne(s, alloc), alloc)
    ensures budget == 0 || !HasWork(s) ==> Reaches(s, s, budget, granted)
    ensures budget > 0 && HasWork(s) && !Passes(s, alloc) ==> Reaches(s, CleanOne(s, alloc), budget, granted)
  {}

  lemma ReachesOneMore(s: State, alloc: bool, t: State, budget: nat, granted: bool)
    requires budget > 0 && HasWork(s) && Passes(s, alloc) && StopsHere(s, alloc)
    requires TurnMoves(s, CleanOne(s, alloc), alloc) && Reaches(CleanOne(s, alloc), t, budget - 1, granted)
    ensures Reaches(s, t, budget, granted)
  {
    assert Received(CleanOne(s, alloc)) == Received(s);
  }

  /** The stop that StopStep describes is where a call stops. */
  lemma {:induction false} CleanStops(inv: State -> bool, s: State, budget: nat, alloc: nat -> bool, k: nat,
                                      granted: bool)
    requires inv(s) && (granted ==> forall i :: alloc(i))
    requires forall u, a :: TurnOk(inv, u, a)
    requires forall u, a :: StopOk(inv, u, a)
    ensures s.recv <= |s.hist| && Reaches(s, Clean(s, budget, alloc, k), budget, granted)
    decreases budget
  {
    assert StopOk(inv, s, alloc(k)) && TurnOk(inv, s, alloc(k));
    ReachesEnd(s, alloc(k), budget, granted);
    if budget > 0 && HasWork(s) && Passes(s, alloc(k)) {
      CleanStops(inv, CleanOne(s, alloc(k)), budget - 1, alloc, k + 1, granted);
      ReachesOneMore(s, alloc(k), Clean(CleanOne(s, alloc(k)), budget - 1, alloc, k + 1), budget, granted);
    }
  }

  /** It never passes the first incomplete packet; and when every skb it asks for is granted,
      it stops there or where its budget ends, whichever comes first. */
  lemma CleanReaches(s: State, budget: nat, alloc: nat -> bool, k: nat)
    requires Inv(s)
    ensures var t, stop := Clean(s, budget, alloc, k), StopAt(Received(s), s.done);
            && t.done <= stop
            && ((forall i :: alloc(i)) ==> t.done == if s.done + budget < stop then s.done + budget else stop)
  {
    EveryTurnIsOk();
    EveryStopIsOk();
    CleanStops(Inv, s, budget, alloc, k, forall i :: alloc(i));
  }

  // ---------------------------------------------------------------- refilling

  /** A refill posts the free slots behind the tail it starts from, and no other. */
  lemma RefillPosts(u: State, refillThres: nat, addrs: seq<nat>, i: nat)
    requires u.swHead < u.size == |u.ring| == |u.dx| && u.swTail < u.size && i < u.size
    requires |addrs| == AvailDx(u.size, u.swHead, u.swTail) >= RefillThreshold(u.size, refillThres)
    ensures var d := Dist(u.size, u.swTail, i);
            Refill(u, refillThres, addrs).dx[i] == if d < |addrs| then Posted(addrs[d]) else u.dx[i]
  {
    LivePlusAvail(u.size, u.swHead, u.swTail);
    var posts := seq(|addrs|, j requires 0 <= j < |addrs| => Posted(addrs[j]));
    StoreWindow(u.dx, u.swTail, posts);
    var d := Dist(u.size, u.swTail, i);
    if d < |addrs| {
      assert At(u.size, u.swTail, d) == i;
      assert Window(Store(u.dx, u.swTail, posts), u.swTail, |addrs|)[d] == posts[d];
    }
  }

  /** A refill resets no other slots. */
  lemma RefillResets(u: State, refillThres: nat, addrs: seq<nat>, i: nat)
    requires u.swHead < u.size == |u.ring| == |u.dx| && u.swTail < u.size && i < u.size
    requires |addrs| == AvailDx(u.size, u.swHead, u.swTail) >= RefillThreshold(u.size, refillThres)
    requires Dist(u.size, u.swTail, i) >= |addrs|
    ensures Refill(u, refillThres, addrs).ring[i] == u.ring[i]
  {
    LivePlusAvail(u.size, u.swHead, u.swTail);
    StoreWindow(u.ring, u.swTail, Refreshed(Window(u.ring, u.swTail, |addrs|)));
  }

  lemma RefillKeepsOrder(s: State, refillThres: nat, addrs: seq<nat>)
    requires Ordered(s) && |addrs| == AvailDx(s.size, s.swHead, s.swTail) >= RefillThreshold(s.size, refillThres)
    ensures var t := Refill(s, refillThres, addrs);
            Ordered(t) && t.posted == s.posted + |addrs| == s.done + s.size - 1
  {
    LivePlusAvail(s.size, s.swHead, s.swTail);
  }

  /** The slots a refill writes lie behind every live one. */
  lemma RefillWritesBehind(s: State, refillThres: nat, addrs: seq<nat>)
    requires Ordered(s) && |addrs| == AvailDx(s.size, s.swHead, s.swTail)
    requires |addrs| >= RefillThreshold(s.size, refillThres)
    ensures var t := Refill(s, refillThres, addrs);
            && Ordered(t) && t.posted == s.posted + |addrs| == s.done + s.size - 1
            && (forall p :: s.done <= p < s.posted ==>
                  t.dx[SlotAt(s, p)] == s.dx[SlotAt(s, p)] && t.ring[SlotAt(s, p)] == s.ring[SlotAt(s, p)])
            && (forall i :: 0 <= i < |addrs| ==> t.dx[SlotAt(s, s.posted + i)] == Posted(addrs[i]))
  {
    var t := Refill(s, refillThres, addrs);
    RefillKeepsOrder(s, refillThres, addrs);
    LivePlusAvail(s.size, s.swHead, s.swTail);
    forall i | 0 <= i < |addrs|
      ensures t.dx[SlotAt(s, s.posted + i)] == Posted(addrs[i])
    {
      assert SlotAt(s, s.posted + i) == At(s.size, s.swTail, i);
      RefillPosts(s, refillThres, addrs, SlotAt(s, s.posted + i));
    }
    forall p | s.done <= p < s.posted
      ensures t.dx[SlotAt(s, p)] == s.dx[SlotAt(s, p)] && t.ring[SlotAt(s, p)] == s.ring[SlotAt(s, p)]
    {
      assert Dist(s.size, s.swTail, SlotAt(s, p)) >= |addrs|;
      RefillPosts(s, refillThres, addrs, SlotAt(s, p));
      RefillResets(s, refillThres, addrs, SlotAt(s, p));
    }
  }

  /** A refill above the threshold leaves no slot free and posts every refilled slot's address
      once, in order; below the threshold it does nothing. */
  lemma RefillFillsTheRing(s: State, refillThres: nat, addrs: seq<nat>)
    requires Inv(s) && |addrs| == AvailDx(s.size, s.swHead, s.swTail)
    ensures var t := Refill(s, refillThres, addrs);
            if |addrs| < RefillThreshold(s.size, refillThres) then t == s
            else
              && AvailDx(t.size, t.swHead, t.swTail) == 0
              && Window(t.dx, s.swTail, |addrs|) == seq(|addrs|, i requires 0 <= i < |addrs| => Posted(addrs[i]))
  {
    if |addrs| >= RefillThreshold(s.size, refillThres) {
      RefillWritesBehind(s, refillThres, addrs);
      LivePlusAvail(s.size, s.swHead, s.swTail);
      StoreWindow(s.dx, s.swTail, seq(|addrs|, i requires 0 <= i < |addrs| => Posted(addrs[i])));
    }
  }

  lemma RefilledIsPosted(s: State, t: State, addrs: seq<nat>, p: nat)
    requires Ordered(s) && DescriptorsOk(s) && Ordered(t) && |t.hist| <= p < t.posted == s.posted + |addrs|
    requires t == s.(ring := t.ring, dx := t.dx, swTail := t.swTail, posted := t.posted)
    requires t.dx[SlotAt(s, p)] == if p < s.posted then s.dx[SlotAt(s, p)] else Posted(addrs[p - s.posted])
    ensures PostedAt(t, p)
  {
    if p < s.posted {
      assert PostedAt(s, p);
    }
  }

  lemma RefillKeepsDescriptors(s: State, refillThres: nat, addrs: seq<nat>)
    requires Ordered(s) && DescriptorsOk(s) && |addrs| == AvailDx(s.size, s.swHead, s.swTail)
    requires |addrs| >= RefillThreshold(s.size, refillThres)
    ensures Ordered(Refill(s, refillThres, addrs)) && DescriptorsOk(Refill(s, refillThres, addrs))
  {
    var t := Refill(s, refillThres, addrs);
    RefillWritesBehind(s, refillThres, addrs);
    forall p | |t.hist| <= p < t.posted
      ensures PostedAt(t, p)
    {
      assert p >= s.posted ==> t.dx[SlotAt(s, s.posted + (p - s.posted))] == Posted(addrs[p - s.posted]);
      RefilledIsPosted(s, t, addrs, p);
    }
    forall p | t.recv <= p < |t.hist|
      ensures Waiting(t, p)
    {
      assert Waiting(s, p);
    }
  }

  lemma GrownTailKeepsSlot(s: State, t: State, p: nat)
    requires Ordered(s) && Ordered(t) && s.done <= p < s.recv && SlotOk(s, p)
    requires t == s.(ring := t.ring, dx := t.dx, swTail := t.swTail, posted := t.posted)
    requires t.ring[SlotAt(s, p)] == s.ring[SlotAt(s, p)]
    ensures SlotOk(t, p)
  {}

  lemma GrownTailKeepsInv(s: State, t: State)
    requires Inv(s) && Ordered(t) && DescriptorsOk(t) && s.posted <= t.posted
    requires t == s.(ring := t.ring, dx := t.dx, swTail := t.swTail, posted := t.posted)
    requires forall p :: s.done <= p < s.posted ==> t.ring[SlotAt(s, p)] == s.ring[SlotAt(s, p)]
    ensures Inv(t)
  {
    forall p | t.done <= p < t.recv
      ensures SlotOk(t, p)
    {
      assert SlotOk(s, p);
      GrownTailKeepsSlot(s, t, p);
    }
    OutcomeIsStable(s, t);
  }

  lemma RefillKeepsInv(s: State, refillThres: nat, addrs: seq<nat>)
    requires Inv(s) && |addrs| == AvailDx(s.size, s.swHead, s.swTail)
    ensures Inv(Refill(s, refillThres, addrs))
    ensures forall p :: s.done <= p < s.posted ==>
              var i := SlotAt(s, p);
              Refill(s, refillThres, addrs).dx[i] == s.dx[i] && Refill(s, refillThres, addrs).ring[i] == s.ring[i]
  {
    if |addrs| >= RefillThreshold(s.size, refillThres) {
      RefillWritesBehind(s, refillThres, addrs);
      RefillKeepsDescriptors(s, refillThres, addrs);
      GrownTailKeepsInv(s, Refill(s, refillThres, addrs));
    }
  }

  // ---------------------------------------------------------------- what the invariant says

  /** Position q, which the head has passed, belongs to exactly one packet, which has been
      received as a whole. */
  ghost predicate PassedInOnePacket(s: State, q: nat)
    requires s.done <= |s.hist| && q < s.done
  {
    var h := Head(s.hist, q);
    && h < s.done && Complete(s.hist, h)
    && (forall p :: 0 <= p <= q && IsHead(s.hist, p) ==> (q in Members(s.hist, p) <==> p == h))
    && (forall m :: m in Members(s.hist, h) ==> m < s.recv)
  }

  lemma PassedExactlyOnce(s: State, q: nat)
    requires Inv(s) && q < s.done
    ensures PassedInOnePacket(s, q)
  {
    var h := Head(s.hist, q);
    HeadIsStable(Received(s), s.hist, h);
    CompleteIsStable(Received(s), s.hist, h);
    MembersInside(Received(s), h);
    forall p | 0 <= p <= q && IsHead(s.hist, p)
      ensures q in Members(s.hist, p) <==> p == h
    {
      ExactlyOnePacket(s.hist, p, q);
    }
  }

  /** Polls can be cut anywhere. Whatever a first call did with its budget and its failed
      allocations, going on with enough of both delivers what one uninterrupted pass delivers. */
  lemma CutAnywhere(s: State, budget: nat, alloc: nat -> bool, more: nat, always: nat -> bool)
    requires Inv(s) && (forall i :: always(i)) && more >= s.recv - s.done
    ensures var cut := Clean(Clean(s, budget, alloc, 0), more, always, 0);
            var whole := Clean(s, more, always, 0);
            && cut.done == whole.done
            && cut.delivered == whole.delivered && cut.errors == whole.errors
  {
    var u := Clean(s, budget, alloc, 0);
    CleanKeepsInv(s, budget, alloc, 0);
    CleanReaches(s, budget, alloc, 0);
    CleanKeepsInv(u, more, always, 0);
    CleanReaches(u, more, always, 0);
    CleanKeepsInv(s, more, always, 0);
    CleanReaches(s, more, always, 0);
    StopFromAnywhere(Received(s), s.done, u.done);
  }

  // ---------------------------------------------------------------- a refill that fails

  /** aq_ring_rx_fill after k pages when the next one is refused: the tail has moved over k
      slots, and the poll returns without writing their descriptors. */
  function FailedRefill(s: State, k: nat): State
    requires s.swHead < s.size == |s.ring| && s.swTail < s.size
    requires k < AvailDx(s.size, s.swHead, s.swTail)
  {
    s.(ring := Store(s.ring, s.swTail, Refreshed(Window(s.ring, s.swTail, k + 1))),
       swTail := At(s.size, s.swTail, k))
  }

  /** The driver's next receive runs on f, whose tail lies k slots beyond the tail that was
      published for s. */
  ghost predicate TailRanAhead(s: State, f: State, k: nat)
  {
    && s.swHead < s.size && s.swTail < s.size
    && k < AvailDx(s.size, s.swHead, s.swTail)
    && f.size == s.size == |f.ring| && f.dx == s.dx && f.hwHead == s.hwHead && f.recv == s.recv
    && f.swTail == At(s.size, s.swTail, k)
  }

  lemma {:induction false} ReceiveAdvances(s: State)
    ensures Receive(s).recv >= s.recv
    decreases if CanReceive(s) then Dist(s.size, s.hwHead, s.swTail) else 0
  {
    if CanReceive(s) {
      ReceiveAdvances(ReceiveOne(s));
    }
  }

  /** What has been written back is received with either tail. */
  lemma AheadReceives(s: State, f: State, k: nat)
    requires Ordered(s) && CanReceive(s) && TailRanAhead(s, f, k) && s.recv < |s.hist|
    ensures CanReceive(f) && TailRanAhead(ReceiveOne(s), ReceiveOne(f), k)
  {
    LivePlusAvail(s.size, s.swHead, s.swTail);
  }

  /** With everything received, the head runs on past the published tail exactly when there is
      nothing posted in front of it, and the first slot behind shows an old write-back. */
  lemma AheadStops(s: State, f: State, k: nat)
    requires Ordered(s) && TailRanAhead(s, f, k) && s.recv == |s.hist|
    requires s.recv < s.posted ==> s.dx[s.hwHead].Posted?
    ensures CanReceive(f) <==> |s.hist| == s.posted && k > 0 && s.dx[s.swTail].Done?
  {
    LivePlusAvail(s.size, s.swHead, s.swTail);
  }

  lemma {:induction false} StaleFrom(s: State, f: State, k: nat)
    requires Inv(s) && TailRanAhead(s, f, k)
    ensures Receive(f).recv > |s.hist| <==> |s.hist| == s.posted && k > 0 && s.dx[s.swTail].Done?
    decreases |s.hist| - s.recv
  {
    CanReceiveIffWaiting(s);
    if s.recv < |s.hist| {
      AheadReceives(s, f, k);
      ReceiveOneKeepsInv(s);
      StaleFrom(ReceiveOne(s), ReceiveOne(f), k);
    } else {
      if s.recv < s.posted {
        NothingWaits(s);
      }
      AheadStops(s, f, k);
      if CanReceive(f) {
        ReceiveAdvances(ReceiveOne(f));
      }
    }
  }

  lemma NothingWaits(s: State)
    requires Ordered(s) && DescriptorsOk(s) && s.recv == |s.hist| < s.posted
    ensures s.dx[s.hwHead].Posted?
  {
    assert PostedAt(s, s.recv);
  }

  /** After such a failure the next receive takes descriptors that the hardware has not written
      back, if and only if at least one page was had, all that was published has been written
      back, and the first slot behind it still shows an old write-back. */
  lemma StaleReceiveIff(s: State, k: nat)
    requires Inv(s) && k < AvailDx(s.size, s.swHead, s.swTail)
    ensures Receive(FailedRefill(s, k)).recv > |s.hist| <==> |s.hist| == s.posted && k > 0 && s.dx[s.swTail].Done?
  {
    StaleFrom(s, FailedRefill(s, k), k);
  }

  /** The hardware goes on writing back meanwhile as if the refill had not failed, so what
      StaleReceiveIff says of s it also says after any write-backs in between. */
  lemma FailureAndHardwareCommute(s: State, t: State, w: RawWb, k: nat)
    requires s.swHead < s.size == |s.ring| && s.swTail < s.size && k < AvailDx(s.size, s.swHead, s.swTail)
    ensures HwWrite(s, t, w) ==> HwWrite(FailedRefill(s, k), FailedRefill(t, k), w)
  {}

  /** The invariant survives exactly when not a single page was had. */
  lemma FailureKeepsInvIff(s: State, k: nat)
    requires Inv(s) && k < AvailDx(s.size, s.swHead, s.swTail)
    ensures Inv(FailedRefill(s, k)) <==> k == 0
  {
    LivePlusAvail(s.size, s.swHead, s.swTail);
    if k == 0 {
      var t := FailedRefill(s, 0);
      StoreWindow(s.ring, s.swTail, Refreshed(Window(s.ring, s.swTail, 1)));
      forall p | s.done <= p < s.posted
        ensures t.ring[SlotAt(s, p)] == s.ring[SlotAt(s, p)]
      {
        assert Dist(s.size, s.swTail, SlotAt(s, p)) >= 1;
      }
      DescriptorsFrame(s, t);
      GrownTailKeepsInv(s, t);
    }
  }

  /** A failed refill moves the tail over slots that it does not post. What becomes of such a slot i,
      or of any that shows an old write-back, in the next complete refill, in whatever state u that
      comes: the old word stays, and the tail is published beyond it, if and only if the driver takes
      the slot for one it has posted, or it is the one slot that is kept free. Otherwise the driver
      has run over the slot and posts it again. */
  lemma OldWordStaysIff(u: State, refillThres: nat, addrs: seq<nat>, i: nat)
    requires u.size == |u.ring| == |u.dx| && u.swHead < u.size && u.swTail < u.size
    requires |addrs| == AvailDx(u.size, u.swHead, u.swTail) >= RefillThreshold(u.size, refillThres)
    requires i < u.size && u.dx[i].Done?
    ensures Refill(u, refillThres, addrs).dx[i].Done? <==>
            Dist(u.size, u.swHead, i) < Dist(u.size, u.swHead, u.swTail) || NextDx(u.size, i) == u.swHead
  {
    RefillPosts(u, refillThres, addrs, i);
    LivePlusAvail(u.size, u.swHead, u.swTail);
  }

  /** When the refill comes before the head has moved, that is every slot the failed one has passed. */
  lemma SkippedSlotsStay(s: State, k: nat, refillThres: nat, addrs: seq<nat>, i: nat)
    requires Inv(s) && k < AvailDx(s.size, s.swHead, s.swTail) && i < s.size && Dist(s.size, s.swTail, i) < k
    requires |addrs| == AvailDx(s.size, s.swHead, At(s.size, s.swTail, k)) >= RefillThreshold(s.size, refillThres)
    ensures Refill(FailedRefill(s, k), refillThres, addrs).dx[i] == s.dx[i]
  {
    LivePlusAvail(s.size, s.swHead, s.swTail);
    LivePlusAvail(s.size, s.swHead, At(s.size, s.swTail, k));
    RefillPosts(FailedRefill(s, k), refillThres, addrs, i);
  }

  /** So an old write-back in the first of these slots is then handed to the hardware as an address,
      exactly when at least one page was had. */
  lemma OldWordsBecomeAddressesIff(s: State, k: nat, refillThres: nat, addrs: seq<nat>)
    requires Inv(s) && k < AvailDx(s.size, s.swHead, s.swTail) && s.dx[s.swTail].Done?
    requires |addrs| == AvailDx(s.size, s.swHead, At(s.size, s.swTail, k)) >= RefillThreshold(s.size, refillThres)
    ensures Refill(FailedRefill(s, k), refillThres, addrs).dx[s.swTail].Done? <==> k > 0
  {
    LivePlusAvail(s.size, s.swHead, s.swTail);
    LivePlusAvail(s.size, s.swHead, At(s.size, s.swTail, k));
    RefillPosts(FailedRefill(s, k), refillThres, addrs, s.swTail);
  }

  /** A ring of four slots after one full turn. */
  ghost function FullTurn(): State
  {
    var h := seq(4, _ => WriteBack(true, false, 0, 1, 0));
    State(4, 0, 0, 0, seq(4, _ => RxSlot(true, false, false, 0, 1, 0)),
          seq(4, _ => Done(RawWb(true, false, 0, 1, 0, 0))), h, 4, 4, 4, Delivered(h, 4), Errors(h, 4))
  }

  lemma FullTurnIsOk()
    ensures Inv(FullTurn()) && AvailDx(FullTurn().size, FullTurn().swHead, FullTurn().swTail) == 3
  {
    assert Received(FullTurn()) == FullTurn().hist;
  }

  /** The failure is real. */
  lemma StaleReceiveHappens()
    ensures var s := FullTurn();
            && Inv(s) && AvailDx(s.size, s.swHead, s.swTail) == 3
            && Receive(FailedRefill(s, 1)).recv > |s.hist|
  {
    FullTurnIsOk();
    StaleReceiveIff(FullTurn(), 1);
  }

  lemma SinglePasses(s: State)
    requires HasWork(s) && s.ring[s.swHead].isEop && !s.ring[s.swHead].isCleaned && !s.ring[s.swHead].isError
    ensures Passes(s, true)
    ensures var t := CleanOne(s, true);
            t == Advance(s).(delivered := t.delivered)
  {
    assert s.ring[s.swHead := s.ring[s.swHead].(isError := false)] == s.ring;
  }

  /** Two packets of one slot at the head: both are delivered. */
  lemma TwoSinglesPass(s: State)
    requires HasWork(s) && s.hwHead == NextDx(s.size, NextDx(s.size, s.swHead)) && NextDx(s.size, s.swHead) != s.hwHead
    requires var i := s.swHead; s.ring[i].isEop && !s.ring[i].isCleaned && !s.ring[i].isError
    requires var i := NextDx(s.size, s.swHead); s.ring[i].isEop && !s.ring[i].isCleaned && !s.ring[i].isError
    ensures var t := Clean(s, 2, _ => true, 0);
            t == s.(swHead := s.hwHead, done := s.done + 2, delivered := t.delivered)
  {
    SinglePasses(s);
    var t := CleanOne(s, true);
    SinglePasses(t);
    assert Clean(t, 1, _ => true, 1) == CleanOne(t, true);
  }

  /** What the two slots behind the published ones hold once they have been received again. */
  lemma TwoStaleReceived()
    ensures var s := FullTurn();
            var t := Receive(FailedRefill(s, 2));
            && t.size == 4 && t.swHead == 0 && t.hwHead == t.swTail == 2 && t.done == 4 && t.recv == |s.hist| + 2
            && t.dx == s.dx && |t.ring| == 4
            && (forall i :: 0 <= i < 2 ==> t.ring[i].isEop && !t.ring[i].isCleaned && !t.ring[i].isError)
  {
    var f := FailedRefill(FullTurn(), 2);
    var f1 := ReceiveOne(f);
    var f2 := ReceiveOne(f1);
    assert CanReceive(f1) && !CanReceive(f2);
    assert Receive(f1) == f2;
  }

  /** And the driver can run over what a refill has skipped: two stale descriptors are received and
      passed, and the next refill posts the first of the skipped slots. */
  lemma SkippedSlotComesBack(addrs: seq<nat>)
    requires |addrs| == 3
    ensures var s := FullTurn();
            var u := Clean(Receive(FailedRefill(s, 2)), 2, _ => true, 0);
            && u.size == |u.ring| == |u.dx| == 4 && u.swHead == u.swTail == 2 && u.done == |s.hist| + 2
            && Refill(u, 0, addrs).dx[s.swTail] == Posted(addrs[2])
  {
    TwoStaleReceived();
    TwoSinglesPass(Receive(FailedRefill(FullTurn(), 2)));
    RefillPosts(Clean(Receive(FailedRefill(FullTurn(), 2)), 2, _ => true, 0), 0, addrs, 0);
  }
}
