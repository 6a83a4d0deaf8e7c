/** The TX ring as the driver updates it: mapping a packet into slots, writing descriptors for
    them, following the hardware head, reclaiming, and stopping the queue. Every method is
    tied to a step of TxProtocol. */
module TxRing {
  import opened Wrappers
  import opened Bits
  import opened Ring
  import opened TxPackets
  import opened TxBuffers
  import opened TxMapping
  import opened TxSlots
  import opened TxDescriptors
  import P = TxProtocol

  const TX_CLEAN_BUDGET: nat := 256
  const RESTART_DESC_THRES: nat := SKB_FRAGS_MAX * 2
  const MIN_TXD: nat := 40

  datatype Verdict = Dropped | Busy | Sent(slots: nat)

  /** Every slot that a packet needs is free whenever the queue is not stopped, if it needs at
      most this many. */
  const SLOTS_GUARANTEED: nat := SKB_FRAGS_MAX + 1

  class TxRing {
    const size: nat
    const buff: array<TxBuff>
    const dx: array<Txd>
    var swHead: nat
    var hwHead: nat
    var swTail: nat
    var stopped: bool
    ghost var hist: seq<P.Entry>
    ghost var reclaimed: nat
    ghost var passed: nat
    ghost var unmaps: seq<Range>
    ghost var frees: seq<nat>

    ghost function Abs(): P.State
      reads this, buff
    {
      P.State(size, swHead, hwHead, swTail, buff[..], hist, reclaimed, passed, unmaps, frees)
    }

    ghost predicate Valid()
      reads this, buff
    {
      buff.Length == size && dx.Length == size && P.Inv(Abs())
    }

    constructor (txds: nat)
      requires 0 < txds <= NO_EOP
      ensures Valid() && P.Init(Abs()) && size == txds && !stopped
      ensures fresh(buff) && fresh(dx)
    {
      size := txds;
      buff := new TxBuff[txds](_ => TxBuff(0, 0, 0, false, false, false, false, false, false, false, false, 0));
      dx := new Txd[txds](_ => Txd(0, 0, 0));
      swHead, hwHead, swTail, stopped := 0, 0, 0, false;
      hist, reclaimed, passed, unmaps, frees := [], 0, 0, [], [];
    }

    /** One turn of the loop of aq_ring_tx_clean. */
    method CleanTurn() returns (go: bool)
      requires buff.Length == size && swHead < size && swHead != hwHead
      modifies this`swHead, this`reclaimed, this`unmaps, this`frees, buff
      ensures go == P.CanClean(old(Abs()))
      ensures Abs() == if go then P.CleanOne(old(Abs())) else old(Abs())
    {
      var b := buff[swHead];
      if b.isMapped {
        if b.isSop {
          if !b.isEop && b.eopIndex != NO_EOP && !DxInRange(swHead, b.eopIndex, hwHead) {
            return false;
          }
        }
        unmaps := unmaps + [Range(b.w0, b.len)];
      }
      if b.isEop {
        frees := frees + [b.w1];
      }
      buff[swHead] := b.(w0 := 0, eopIndex := NO_EOP);
      swHead := NextDx(size, swHead);
      reclaimed := reclaimed + 1;
      go := true;
    }

    method CleanLoop() returns (budgetLeft: bool)
      requires buff.Length == size && swHead < size
      modifies this`swHead, this`reclaimed, this`unmaps, this`frees, buff
      ensures Abs() == P.Clean(old(Abs()), TX_CLEAN_BUDGET)
      ensures budgetLeft <==> reclaimed - old(reclaimed) < TX_CLEAN_BUDGET
    {
      var budget := TX_CLEAN_BUDGET;
      while swHead != hwHead && budget > 0
        invariant buff.Length == size && swHead < size
        invariant P.Clean(Abs(), budget) == P.Clean(old(Abs()), TX_CLEAN_BUDGET)
        invariant reclaimed - old(reclaimed) + budget == TX_CLEAN_BUDGET
        decreases budget
      {
        var go := CleanTurn();
        if !go {
          break;
        }
        budget := budget - 1;
      }
      budgetLeft := budget > 0;
    }

    /** aq_ring_tx_clean. */
    method Clean() returns (budgetLeft: bool)
      requires Valid()
      modifies this`swHead, this`reclaimed, this`unmaps, this`frees, buff
      ensures Valid()
      ensures Abs() == P.Clean(old(Abs()), TX_CLEAN_BUDGET)
      ensures budgetLeft <==> reclaimed - old(reclaimed) < TX_CLEAN_BUDGET
    {
      P.CleanKeepsInv(Abs(), TX_CLEAN_BUDGET);
      budgetLeft := CleanLoop();
    }

    // ------------------------------------------------------------ aq_nic_map_skb

    /** The context slot, when the skb wants one. */
    method WriteContext(skb: Skb) returns (dx: nat, ret: nat)
      requires 0 < buff.Length == size && swTail < size
      modifies buff
      ensures ret == CtxSlots(skb) && dx == if ret == 1 then NextDx(size, swTail) else swTail
      ensures buff[..] == if ret == 1 then old(buff[..])[swTail := CtxSlot(old(buff[..])[swTail], skb)]
                          else old(buff[..])
    {
      ret := 0;
      dx := swTail;
      var b := buff[dx].Cleared();
      if skb.isGso {
        b := WithGso(b, skb);
        ret := 1;
      }
      if skb.vlan.Some? {
        b := WithVlan(b, skb.vlan.value, Len(skb));
        ret := 1;
      }
      if ret == 1 {
        buff[dx] := b;
        dx := NextDx(size, dx);
      }
    }

    /** The loop that cuts the rest h of an oversized head, mapped at pa, into pieces. */
    method CutRest(ghost h: seq<byte>, pa: nat, n: nat, at: nat, count: nat) returns (dx: nat, ret: nat)
      requires buff.Length == size && at < size && n == |h| && |Chunks(h)| < size
      modifies buff
      ensures buff[..] == Fill(old(buff[..]), at, Spread(pa, Chunks(h)))
      ensures ret == count + |Chunks(h)| && dx == At(size, at, |Chunks(h)|)
    {
      dx, ret := at, count;
      var fragSize, fragPa := n, pa;
      ghost var rest := h;
      while fragSize > 0
        invariant fragSize == |rest| && ret + |Chunks(rest)| == count + |Chunks(h)|
        invariant count <= ret && dx == At(size, at, ret - count)
        invariant Fill(buff[..], dx, Spread(fragPa, Chunks(rest))) == Fill(old(buff[..]), at, Spread(pa, Chunks(h)))
      {
        SpreadOne(fragPa, rest);
        var buffSize := PieceSize(fragSize);
        dx := NextDx(size, dx);
        buff[dx] := buff[dx].Piece(fragPa, buffSize);
        rest := rest[buffSize..];
        fragSize, fragPa := fragSize - buffSize, fragPa + buffSize;
        ret := ret + 1;
      }
    }

    /** One piece of a fragment, mapped at pa. */
    method PutPiece(pa: nat, buffSize: nat, ghost dma: Dma, ghost call: nat, ghost rest: seq<seq<byte>>, dx0: nat,
                    ghost n: nat, ghost all: seq<seq<byte>>, ghost at: nat, ghost ring0: seq<TxBuff>)
      returns (dx: nat)
      requires buff.Length == size && at < |ring0| && Midway(dma, call, rest, dx0, n, buff[..], all, at, ring0)
      requires rest != [] && dma(call) == Some(pa) && buffSize == |rest[0]|
      modifies buff
      ensures Midway(dma, call + 1, rest[1..], dx, n + 1, buff[..], all, at, ring0)
    {
      ghost var ring := buff[..];
      MidwayStep(dma, call, rest, dx0, n, ring, all, at, ring0);
      dx := NextDx(size, dx0);
      buff[dx] := buff[dx].Piece(pa, buffSize);
      assert buff[..] == ring[dx := ring[dx].Piece(pa, buffSize)];
    }

    /** The loop over the pieces of one fragment, `later` being the pieces of those behind it;
        stops at the first mapping that is refused. */
    method MapFrag(frag: seq<byte>, dma: Dma, call0: nat, dx0: nat, n0: nat, ghost later: seq<seq<byte>>,
                   ghost all: seq<seq<byte>>, ghost at: nat, ghost ring0: seq<TxBuff>)
      returns (call: nat, dx: nat, n: nat, ok: bool)
      requires buff.Length == size && at < |ring0|
      requires Midway(dma, call0, Chunks(frag) + later, dx0, n0, buff[..], all, at, ring0)
      modifies buff
      ensures ok ==> Midway(dma, call, later, dx, n, buff[..], all, at, ring0)
      ensures !ok ==> dma(call).None? && exists rest ::
                rest != [] && Midway(dma, call, rest, dx, n, buff[..], all, at, ring0)
    {
      call, dx, n, ok := call0, dx0, n0, true;
      var buffOffset := 0;
      LeftOverEnds(frag, later);
      while buffOffset < |frag|
        invariant buffOffset <= |frag|
        invariant Midway(dma, call, LeftOver(frag, buffOffset, later), dx, n, buff[..], all, at, ring0)
      {
        ghost var rest := LeftOver(frag, buffOffset, later);
        var buffSize := PieceSize(|frag| - buffOffset);
        NextChunk(frag, buffOffset, later);
        var answer := dma(call);
        if answer.None? {
          ok := false;
          return;
        }
        dx := PutPiece(answer.value, buffSize, dma, call, rest, dx, n, all, at, ring0);
        buffOffset, call, n := buffOffset + buffSize, call + 1, n + 1;
      }
    }

    /** The loop over the fragments. */
    method MapFrags(skb: Skb, dma: Dma, at: nat) returns (dx: nat, n: nat, ok: bool)
      requires buff.Length == size && at < size && |FragPieces(skb.frags)| < size
      modifies buff
      ensures var rs := FragMaps(dma, 1, FragPieces(skb.frags));
              buff[..] == Fill(old(buff[..]), at, rs) && n == |rs| && dx == At(size, at, n)
      ensures ok == AllMapped(dma, 1, FragPieces(skb.frags))
    {
      dx, n, ok := at, 0, true;
      var fragCount, call := 0, 1;
      ghost var all, ring0 := FragPieces(skb.frags), buff[..];
      assert skb.frags[0..] == skb.frags;
      while fragCount < |skb.frags|
        invariant fragCount <= |skb.frags|
        invariant Midway(dma, call, FragPieces(skb.frags[fragCount..]), dx, n, buff[..], all, at, ring0)
      {
        assert skb.frags[fragCount..][1..] == skb.frags[fragCount + 1..];
        call, dx, n, ok := MapFrag(skb.frags[fragCount], dma, call, dx, n,
                                   FragPieces(skb.frags[fragCount + 1..]), all, at, ring0);
        if !ok {
          return;
        }
        fragCount := fragCount + 1;
      }
    }

    /** The error path: give back every mapping of this call, and leave the ring alone. */
    method Rollback(ret: nat, ghost skb: Skb, ghost rs: seq<Range>) returns (ghost undone: seq<Range>)
      requires buff.Length == size && swTail < size && ret == CtxSlots(skb) + |rs| < size
      requires CtxSlots(skb) == 1 ==> IsContext(buff[swTail], skb)
      requires forall k :: 0 <= k < |rs| ==> LaidPiece(buff[..], swTail, skb, rs, k)
      ensures undone == Undo(rs)
    {
      undone := [];
      var left, dx := ret, swTail;
      while left > 0
        invariant 0 <= left <= ret && dx == At(size, swTail, ret - left)
        invariant ret - left < CtxSlots(skb) ==> undone == []
        invariant ret - left >= CtxSlots(skb) ==> undone == Undo(rs[..ret - left - CtxSlots(skb)])
      {
        var b := buff[dx];
        ghost var k := ret - left - CtxSlots(skb);
        if k >= 0 {
          assert LaidPiece(buff[..], swTail, skb, rs, k);
          UndoSnoc(rs, k);
        }
        if !b.isGso && !b.isVlan && b.w0 != 0 {
          undone := undone + [Range(b.w0, b.len)];
        }
        NextIsAt(size, swTail, ret - left);
        left, dx := left - 1, NextDx(size, dx);
      }
      assert rs[..|rs|] == rs;
    }

    /** The head, cut into pieces when it is oversized. */
    method MapHead(skb: Skb, pa: nat, first: nat) returns (dx: nat, n: nat)
      requires buff.Length == size && first < size && |HeadPieces(skb)| < size
      modifies buff
      ensures buff[..] == HeadLaid(old(buff[..]), first, skb, pa)
      ensures n == |HeadPieces(skb)| && dx == At(size, first, n - 1)
    {
      ghost var h := HeadBytes(skb);
      var headLen := |skb.head| % 0x1_0000;
      dx, n := first, 1;
      var tooLong := PutHead(skb, pa, first, headLen);
      if tooLong {
        dx, n := CutRest(h[TX_FRAME_MAX..], pa + TX_FRAME_MAX, headLen - TX_FRAME_MAX, dx, n);
      } else {
        assert HeadRest(skb, pa) == [];
      }
    }

    /** The first slot of the head, cut to the size of a piece. */
    method PutHead(skb: Skb, pa: nat, first: nat, headLen: nat) returns (tooLong: bool)
      requires first < buff.Length && headLen == |HeadBytes(skb)|
      modifies buff
      ensures buff[..] == old(buff[..])[first := HeadSlot(old(buff[first]), skb, Range(pa, PieceSize(headLen)))]
      ensures tooLong == (headLen > TX_FRAME_MAX)
    {
      ghost var ring0 := buff[..];
      buff[first] := HeadSlot(buff[first], skb, Range(pa, headLen));
      tooLong := buff[first].len > TX_FRAME_MAX;
      if tooLong {
        buff[first] := buff[first].(len := TX_FRAME_MAX);
      }
      assert buff[..] == ring0[first := buff[first]];
    }

    /** Head and fragments, from slot `first` on. */
    method MapPieces(skb: Skb, dma: Dma, pa: nat, first: nat) returns (dx: nat, n: nat, ok: bool)
      requires buff.Length == size && first < size && |Pieces(skb)| < size && dma(0) == Some(pa)
      modifies buff
      ensures buff[..] == Fill(HeadLaid(old(buff[..]), first, skb, pa),
                               At(size, first, |HeadPieces(skb)| - 1), FragMaps(dma, 1, FragPieces(skb.frags)))
      ensures n == |SlotRanges(skb, dma)| && dx == At(size, first, n - 1)
      ensures ok == AllMapped(dma, 1, FragPieces(skb.frags))
    {
      dx, n := MapHead(skb, pa, first);
      var m;
      dx, m, ok := MapFrags(skb, dma, dx);
      n := n + m;
    }

    /** The first slot names the last; the last one takes the skb. */
    method Close(first: nat, last: nat, ptr: nat)
      requires first < buff.Length && last < buff.Length
      modifies buff
      ensures buff[..] == Closed(old(buff[..]), first, last, ptr)
    {
      ghost var r := buff[..];
      buff[first] := buff[first].(eopIndex := last);
      assert buff[..] == r[first := r[first].(eopIndex := last)];
      buff[last] := buff[last].(isEop := true, w1 := ptr);
    }

    /** The error path with the ring as the mapping loops have left it. */
    method UndoMapping(ret: nat, ghost skb: Skb, ghost dma: Dma, ghost ring0: seq<TxBuff>)
      returns (ghost undone: seq<Range>)
      requires buff.Length == size == |ring0| && swTail < size && dma(0).Some? && Fits(skb)
      requires ret == CtxSlots(skb) + |SlotRanges(skb, dma)| < size
      requires buff[..] == Laid(ring0, swTail, skb, SlotRanges(skb, dma))
      ensures undone == Undo(SlotRanges(skb, dma))
    {
      LaidHolds(ring0, swTail, skb, SlotRanges(skb, dma));
      undone := Rollback(ret, skb, SlotRanges(skb, dma));
    }

    /** Map the pieces, the head being mapped at pa. */
    method LayPieces(skb: Skb, dma: Dma, pa: nat, first: nat, ghost ring0: seq<TxBuff>)
      returns (dx: nat, n: nat, ok: bool)
      requires buff.Length == size == |ring0| && swTail < size && SlotsNeeded(skb) < size && dma(0) == Some(pa)
      requires first == At(size, swTail, CtxSlots(skb))
      requires buff[..] == if CtxSlots(skb) == 1 then ring0[swTail := CtxSlot(ring0[swTail], skb)] else ring0
      modifies buff
      ensures buff[..] == Laid(ring0, swTail, skb, SlotRanges(skb, dma))
      ensures n == |SlotRanges(skb, dma)| && dx == At(size, first, n - 1)
      ensures ok == Mappable(skb, dma)
      ensures CtxSlots(skb) + n <= SlotsNeeded(skb) && (ok ==> CtxSlots(skb) + n == SlotsNeeded(skb))
    {
      AllMappedCount(dma, 1, FragPieces(skb.frags));
      LaidInOrder(ring0, swTail, skb, dma);
      dx, n, ok := MapPieces(skb, dma, pa, first);
    }

    /** Finish the packet, or undo it. */
    method FinishOrUndo(first: nat, last: nat, ret0: nat, ok: bool, skb: Skb, ghost dma: Dma, ghost ring0: seq<TxBuff>)
      returns (ret: nat, ghost undone: seq<Range>)
      requires buff.Length == size == |ring0| && swTail < size && SlotsNeeded(skb) < size && dma(0).Some? && Fits(skb)
      requires first == At(size, swTail, CtxSlots(skb)) && ret0 == CtxSlots(skb) + |SlotRanges(skb, dma)| < size
      requires last == At(size, swTail, ret0 - 1) && ok == Mappable(skb, dma) && (ok ==> ret0 == SlotsNeeded(skb))
      requires buff[..] == Laid(ring0, swTail, skb, SlotRanges(skb, dma))
      modifies buff
      ensures MapOutcome(ring0, buff[..], swTail, skb, dma, ret) && undone == UndoneBy(skb, dma)
    {
      undone := [];
      ret := ret0;
      if !ok {
        undone := UndoMapping(ret, skb, dma, ring0);
        return 0, undone;
      }
      Close(first, last, skb.ptr);
      MappedOutcome(ring0, swTail, skb, dma);
    }

    /** Map the pieces and finish the packet or undo it. */
    method MapGranted(skb: Skb, dma: Dma, pa: nat, first: nat, ctx: nat, ghost ring0: seq<TxBuff>)
      returns (ret: nat, ghost undone: seq<Range>)
      requires buff.Length == size == |ring0| && swTail < size && SlotsNeeded(skb) < size && dma(0) == Some(pa)
      requires Fits(skb) && ctx == CtxSlots(skb) && first == At(size, swTail, ctx)
      requires buff[..] == if ctx == 1 then ring0[swTail := CtxSlot(ring0[swTail], skb)] else ring0
      modifies buff
      ensures MapOutcome(ring0, buff[..], swTail, skb, dma, ret) && undone == UndoneBy(skb, dma)
    {
      var dx, n, ok := LayPieces(skb, dma, pa, first, ring0);
      ret, undone := FinishOrUndo(first, dx, ctx + n, ok, skb, dma, ring0);
    }

    /** aq_nic_map_skb. */
    method MapSkb(skb: Skb, dma: Dma) returns (ret: nat, ghost undone: seq<Range>)
      requires buff.Length == size && swTail < size && SlotsNeeded(skb) < size && Fits(skb)
      modifies buff
      ensures MapOutcome(old(buff[..]), buff[..], swTail, skb, dma, ret)
      ensures undone == UndoneBy(skb, dma)
    {
      undone := [];
      var first, ctx := WriteContext(skb);
      ret := ctx;
      var answer := dma(0);
      if answer.None? {
        buff[first] := buff[first].Cleared().(len := |skb.head| % 0x1_0000);
        return;
      }
      ret, undone := MapGranted(skb, dma, answer.value, first, ctx, old(buff[..]));
    }

    // ------------------------------------------------------------ transmit

    /** hw_atl_b0_hw_ring_tx_xmit: descriptors for the slots behind the tail, then the tail. */
    method RingTxXmit(frags: nat)
      requires buff.Length == dx.Length == size && swTail < size && 0 < frags < size
      modifies this`swTail, dx
      ensures swTail == At(size, old(swTail), frags)
      ensures dx[..] == Store(old(dx[..]), old(swTail), Encode(Window(buff[..], old(swTail), frags)))
    {
      ghost var tail := swTail;
      ghost var w := Window(buff[..], tail, frags);
      var e := Start(buff[swTail]);
      var fragCount := 0;
      assert w[0..] == w;
      while fragCount < frags
        invariant fragCount <= frags && swTail == At(size, tail, fragCount)
        invariant Store(dx[..], swTail, EncodeFrom(w[fragCount..], e)) == Store(old(dx[..]), tail, Encode(w))
      {
        var b := buff[swTail];
        assert b == w[fragCount] && w[fragCount..][1..] == w[fragCount + 1..];
        dx[swTail] := EncodeOne(b, e);
        e := NextEncoder(b, e);
        swTail := NextDx(size, swTail);
        fragCount := fragCount + 1;
      }
    }

    /** hw_atl_b0_hw_ring_tx_head_update: the register may show any position the hardware has
        reached, `n` slots beyond the last one seen. */
    method HeadUpdate(register: nat, ghost n: nat)
      requires Valid() && passed + n <= |hist| && register == At(size, swHead, passed + n - reclaimed)
      modifies this`hwHead, this`passed
      ensures Valid() && P.HwMove(old(Abs()), Abs()) && passed == old(passed) + n
    {
      hwHead := register;
      passed := passed + n;
      P.HwMoveKeepsInv(old(Abs()), Abs());
    }

    /** aq_ring_update_queue_state. */
    method UpdateQueueState()
      requires Valid()
      modifies this`stopped
      ensures Abs() == old(Abs()) && Valid()
      ensures stopped == QueueState(old(stopped), AvailDx(size, swHead, swTail))
      ensures AvailDx(size, swHead, swTail) <= SKB_FRAGS_MAX ==> stopped
      ensures AvailDx(size, swHead, swTail) > 2 * SKB_FRAGS_MAX ==> !stopped
    {
      if AvailDx(size, swHead, swTail) <= SKB_FRAGS_MAX {
        stopped := true;
      } else if AvailDx(size, swHead, swTail) > RESTART_DESC_THRES {
        stopped := false;
      }
    }

    /** Hand what was mapped to the hardware, if anything. */
    method Send(frags: nat) returns (v: Verdict)
      requires dx.Length == buff.Length == size && swTail < size && frags < size
      modifies this`swTail, this`hist, dx
      ensures Handed(old(Abs()), Abs(), frags, v, old(dx[..]), dx[..])
    {
      if frags == 0 {
        return Busy;
      }
      ghost var slots := Window(buff[..], swTail, frags);
      RingTxXmit(frags);
      hist := hist + P.Entries(slots, |hist|);
      v := Sent(frags);
    }

    /** Map and send: aq_nic_xmit once the queue is known to be running. It does not look for room;
        with room the ring stays valid, and a packet sent without leaves it broken. */
    method Transmit(skb: Skb, dma: Dma) returns (v: Verdict, ghost undone: seq<Range>)
      requires Valid() && Fits(skb) && SlotsNeeded(skb) < size
      modifies this`swTail, this`hist, buff, dx
      ensures undone == UndoneBy(skb, dma)
      ensures Attempted(old(Abs()), Abs(), skb, dma, v, old(dx[..]), dx[..])
      ensures SlotsNeeded(skb) <= old(AvailDx(size, swHead, swTail)) ==>
                Valid() && Transmitted(old(Abs()), Abs(), skb, dma, v, old(dx[..]), dx[..])
      ensures v.Sent? ==> (P.Inv(Abs()) <==> v.slots <= old(AvailDx(size, swHead, swTail)))
    {
      ghost var s, dx0 := Abs(), dx[..];
      var frags;
      frags, undone := MapSkb(skb, dma);
      ghost var u := Abs();
      v := Send(frags);
      HandedIsAttempted(s, u, Abs(), skb, dma, frags, v, dx0, dx[..]);
      RoomDecides(s, Abs(), skb, dma, v, dx0, dx[..]);
    }

    /** aq_nic_xmit. */
    method Xmit(skb: Skb, dma: Dma) returns (v: Verdict, ghost undone: seq<Range>)
      requires Valid() && Fits(skb) && (|skb.frags| + 1 <= SKB_FRAGS_MAX ==> SlotsNeeded(skb) < size)
      modifies this`swTail, this`stopped, this`hist, buff, dx
      ensures v.Dropped? <==> |skb.frags| + 1 > SKB_FRAGS_MAX
      ensures stopped == if v.Dropped? then old(stopped)
                         else QueueState(old(stopped), AvailDx(size, swHead, old(swTail)))
      ensures v.Dropped? || stopped ==> Valid() && Abs() == old(Abs()) && !v.Sent? && undone == []
      ensures !v.Dropped? && !stopped ==>
                undone == UndoneBy(skb, dma) && Attempted(old(Abs()), Abs(), skb, dma, v, old(dx[..]), dx[..])
      ensures !v.Dropped? && !stopped && SlotsNeeded(skb) <= old(AvailDx(size, swHead, swTail)) ==>
                Valid() && Transmitted(old(Abs()), Abs(), skb, dma, v, old(dx[..]), dx[..])
      ensures v.Sent? ==> (P.Inv(Abs()) <==> v.slots <= old(AvailDx(size, swHead, swTail)))
      ensures SlotsNeeded(skb) <= SLOTS_GUARANTEED ==> Valid()
    {
      undone := [];
      if |skb.frags| + 1 > SKB_FRAGS_MAX {
        return Dropped, undone;
      }
      UpdateQueueState();
      if stopped {
        return Busy, undone;
      }
      v, undone := Transmit(skb, dma);
    }
  }

  /** The slots behind the tail, `frags` of them, have been handed to the hardware. */
  ghost predicate Handed(s: P.State, t: P.State, frags: nat, v: Verdict, dx: seq<Txd>, dx': seq<Txd>)
  {
    && s.swTail < |s.ring| && s.swTail < |dx| && frags < |s.ring|
    && if frags == 0 then v == Busy && t == s && dx' == dx
       else
         var slots := Window(s.ring, s.swTail, frags);
         && v == Sent(frags) && dx' == Store(dx, s.swTail, Encode(slots))
         && t == s.(swTail := At(|s.ring|, s.swTail, frags), hist := s.hist + P.Entries(slots, |s.hist|))
  }

  /** What a transmit has done, with or without room for it: what mapping leaves in the ring, and
      the slots it counted handed to the hardware. */
  ghost predicate Attempted(s: P.State, t: P.State, skb: Skb, dma: Dma, v: Verdict, dx: seq<Txd>, dx': seq<Txd>)
  {
    var frags := if v.Sent? then v.slots else 0;
    && s.swTail < |s.ring| && SlotsNeeded(skb) < |s.ring|
    && MapOutcome(s.ring, t.ring, s.swTail, skb, dma, frags)
    && Handed(s.(ring := t.ring), t, frags, v, dx, dx')
  }

  lemma HandedIsAttempted(s: P.State, u: P.State, t: P.State, skb: Skb, dma: Dma, frags: nat, v: Verdict,
                          dx: seq<Txd>, dx': seq<Txd>)
    requires s.swTail < |s.ring| && SlotsNeeded(skb) < |s.ring| && u == s.(ring := u.ring)
    requires MapOutcome(s.ring, u.ring, s.swTail, skb, dma, frags) && Handed(u, t, frags, v, dx, dx')
    ensures Attempted(s, t, skb, dma, v, dx, dx')
  {}

  /** A well-formed packet that has been handed over is published. */
  lemma HandedIsPublished(s: P.State, t: P.State, frags: nat)
    requires Indices(s) && |t.ring| == s.size && 0 < frags < s.size && frags <= AvailDx(s.size, s.swHead, s.swTail)
    requires P.PacketShape(s.size, s.swTail, Window(t.ring, s.swTail, frags)) && P.SameLive(s, t.ring)
    requires t == s.(ring := t.ring, swTail := At(s.size, s.swTail, frags),
                     hist := s.hist + P.Entries(Window(t.ring, s.swTail, frags), |s.hist|))
    ensures P.Publish(s, t, Window(t.ring, s.swTail, frags))
  {}

  lemma RoomPublishes(s: P.State, t: P.State, skb: Skb, dma: Dma, v: Verdict, dx: seq<Txd>, dx': seq<Txd>)
    requires Indices(s) && |dx| == s.size && Fits(skb) && Attempted(s, t, skb, dma, v, dx, dx')
    requires SlotsNeeded(skb) <= AvailDx(s.size, s.swHead, s.swTail)
    ensures if v.Sent? then
              0 < v.slots < s.size && |t.ring| == s.size && P.Publish(s, t, Window(t.ring, s.swTail, v.slots))
              && Publishes(Window(t.ring, s.swTail, v.slots), s.ring[s.swTail], skb, dma,
                           At(s.size, s.swTail, v.slots - 1))
            else v == Busy && P.Abandon(s, t)
  {
    var frags := if v.Sent? then v.slots else 0;
    MapKeepsLive(s, t.ring, skb, dma, frags);
    if frags > 0 {
      HandedIsPublished(s, t, frags);
    }
  }

  /** With room, what was handed over is a packet published behind the live slots. */
  lemma RoomSuffices(s: P.State, t: P.State, skb: Skb, dma: Dma, v: Verdict, dx: seq<Txd>, dx': seq<Txd>)
    requires P.Inv(s) && |s.ring| == |dx| == s.size && Fits(skb) && Attempted(s, t, skb, dma, v, dx, dx')
    requires SlotsNeeded(skb) <= AvailDx(s.size, s.swHead, s.swTail)
    ensures P.Inv(t) && Transmitted(s, t, skb, dma, v, dx, dx')
  {
    RoomPublishes(s, t, skb, dma, v, dx, dx');
    if v.Sent? {
      P.PublishKeepsInv(s, t, Window(t.ring, s.swTail, v.slots));
    } else {
      P.AbandonKeepsInv(s, t);
    }
  }

  /** More live slots than the ring can tell apart. */
  lemma NoRoomBreaks(s: P.State, t: P.State, frags: nat)
    requires P.Inv(s) && t.size == s.size && t.swHead == s.swHead && t.reclaimed == s.reclaimed
    requires |t.hist| == |s.hist| + frags && frags > AvailDx(s.size, s.swHead, s.swTail)
    ensures !P.Inv(t)
  {
    LivePlusAvail(s.size, s.swHead, s.swTail);
  }

  lemma LoneContextPublishes(s: P.State, t: P.State, skb: Skb, dma: Dma, dx: seq<Txd>, dx': seq<Txd>)
    requires Indices(s) && |dx| == s.size && Fits(skb) && Attempted(s, t, skb, dma, Sent(1), dx, dx')
    requires dma(0).None? && 1 <= AvailDx(s.size, s.swHead, s.swTail)
    ensures |t.ring| == s.size && 1 < s.size && P.Publish(s, t, Window(t.ring, s.swTail, 1))
  {
    LivePlusAvail(s.size, s.swHead, s.swTail);
    WritesBehindTail(s, t.ring, 2);
    ContextReadsBack(s.ring[s.swTail], skb);
    assert P.LinkedSlot(Window(t.ring, s.swTail, 1), 0);
    HandedIsPublished(s, t, 1);
  }

  /** A refused head sends one slot, or none, and touches no more than the one behind it. */
  lemma LoneContextSuffices(s: P.State, t: P.State, skb: Skb, dma: Dma, v: Verdict, dx: seq<Txd>, dx': seq<Txd>)
    requires P.Inv(s) && |s.ring| == |dx| == s.size && Fits(skb) && Attempted(s, t, skb, dma, v, dx, dx')
    requires dma(0).None? && v == Sent(1) && 1 <= AvailDx(s.size, s.swHead, s.swTail)
    ensures P.Inv(t)
  {
    LoneContextPublishes(s, t, skb, dma, dx, dx');
    P.PublishKeepsInv(s, t, Window(t.ring, s.swTail, 1));
  }

  /** A sent packet leaves the ring valid if and only if there was room for the slots it took. */
  lemma RoomDecides(s: P.State, t: P.State, skb: Skb, dma: Dma, v: Verdict, dx: seq<Txd>, dx': seq<Txd>)
    requires P.Inv(s) && |s.ring| == |dx| == s.size && Fits(skb) && Attempted(s, t, skb, dma, v, dx, dx')
    ensures SlotsNeeded(skb) <= AvailDx(s.size, s.swHead, s.swTail) ==>
              P.Inv(t) && Transmitted(s, t, skb, dma, v, dx, dx')
    ensures v.Sent? ==> (P.Inv(t) <==> v.slots <= AvailDx(s.size, s.swHead, s.swTail))
  {
    if SlotsNeeded(skb) <= AvailDx(s.size, s.swHead, s.swTail) {
      RoomSuffices(s, t, skb, dma, v, dx, dx');
    }
    if v.Sent? && v.slots > AvailDx(s.size, s.swHead, s.swTail) {
      NoRoomBreaks(s, t, v.slots);
    } else if v.Sent? && dma(0).None? {
      LoneContextSuffices(s, t, skb, dma, v, dx, dx');
    }
  }

  /** What a transmit that got past the queue test has done to the ring and its descriptors. */
  ghost predicate Transmitted(s: P.State, t: P.State, skb: Skb, dma: Dma, v: Verdict, dx: seq<Txd>, dx': seq<Txd>)
    requires P.Inv(s)
  {
    if v.Sent? then
      && 0 < v.slots <= |t.ring| && s.swTail < |t.ring| && s.swTail < |dx|
      && var slots := Window(t.ring, s.swTail, v.slots);
         && P.Publish(s, t, slots)
         && dx' == Store(dx, s.swTail, Encode(slots))
         && Publishes(slots, s.ring[s.swTail], skb, dma, At(|t.ring|, s.swTail, v.slots - 1))
    else
      v == Busy && P.Abandon(s, t) && !Mappable(skb, dma) && (dma(0).None? ==> CtxSlots(skb) == 0)
  }

  /** The slots published: the whole packet when every mapping was granted, otherwise only the
      context slot, behind which the head could not be mapped. */
  ghost predicate Publishes(slots: seq<TxBuff>, old_: TxBuff, skb: Skb, dma: Dma, last: nat)
  {
    if Mappable(skb, dma) then CarriesPacket(slots, skb, SlotRanges(skb, dma), last)
    else dma(0).None? && CtxSlots(skb) == 1 && slots == [CtxSlot(old_, skb)]
  }

  /** Stop below one threshold, wake above another, and otherwise leave the queue alone. */
  function QueueState(stopped: bool, avail: int): bool
  {
    if avail <= SKB_FRAGS_MAX then true
    else if avail > RESTART_DESC_THRES then false
    else stopped
  }

  lemma CarriesShape(size: nat, tail: nat, slots: seq<TxBuff>, skb: Skb, rs: seq<Range>)
    requires tail < size && 0 < |slots| < size && CarriesPacket(slots, skb, rs, At(size, tail, |slots| - 1))
    ensures P.PacketShape(size, tail, slots)
  {
    var c := CtxSlots(skb);
    forall k | 0 <= k < |slots|
      ensures P.LinkedSlot(slots, k)
    {
      if k >= c {
        assert DescribesPiece(slots[c + (k - c)], skb, rs[k - c], k == c);
      }
      if k > c {
        assert DescribesPiece(slots[c + (k - 1 - c)], skb, rs[k - 1 - c], k - 1 == c);
      }
    }
    forall k | 0 <= k < |slots| && slots[k].isMapped && slots[k].isSop
      ensures slots[k].eopIndex == At(size, tail, |slots| - 1)
    {
      assert k >= c && DescribesPiece(slots[c + (k - c)], skb, rs[k - c], k == c);
    }
  }

  ghost predicate Indices(s: P.State)
  {
    s.swHead < s.size == |s.ring| && s.swTail < s.size
  }

  /** Slots far enough behind the tail are not live. */
  lemma WritesBehindTail(s: P.State, ring: seq<TxBuff>, n: nat)
    requires Indices(s) && |ring| == s.size && n <= AvailDx(s.size, s.swHead, s.swTail) + 1
    requires forall i :: 0 <= i < s.size && Dist(s.size, s.swTail, i) >= n ==> ring[i] == s.ring[i]
    ensures P.SameLive(s, ring)
  {
    LivePlusAvail(s.size, s.swHead, s.swTail);
  }

  lemma HeadRefused(s: P.State, ring: seq<TxBuff>, skb: Skb, dma: Dma, ret: nat)
    requires Indices(s) && Fits(skb) && SlotsNeeded(skb) <= AvailDx(s.size, s.swHead, s.swTail)
    requires SlotsNeeded(skb) < s.size && MapOutcome(s.ring, ring, s.swTail, skb, dma, ret) && dma(0).None?
    ensures P.SameLive(s, ring)
    ensures ret > 0 ==>
              && Window(ring, s.swTail, ret) == [CtxSlot(s.ring[s.swTail], skb)]
              && P.PacketShape(s.size, s.swTail, Window(ring, s.swTail, ret))
  {
    WritesBehindTail(s, ring, CtxSlots(skb) + 1);
    if ret == 1 {
      ContextReadsBack(s.ring[s.swTail], skb);
      assert P.LinkedSlot(Window(ring, s.swTail, 1), 0);
    }
  }

  lemma MappedCarries(ring: seq<TxBuff>, tail: nat, skb: Skb, dma: Dma)
    requires tail < |ring| && SlotsNeeded(skb) < |ring| && Mappable(skb, dma) && Fits(skb)
    ensures var n, r := SlotsNeeded(skb), MappedRing(ring, tail, skb, dma);
            && |r| == |ring|
            && CarriesPacket(Window(r, tail, n), skb, SlotRanges(skb, dma), At(|ring|, tail, n - 1))
  {
    AllSlotsMapped(skb, dma);
    ClosedCarriesPacket(ring, tail, skb, SlotRanges(skb, dma));
  }

  lemma AllSlotsMapped(skb: Skb, dma: Dma)
    requires Mappable(skb, dma)
    ensures SlotsNeeded(skb) == CtxSlots(skb) + |SlotRanges(skb, dma)|
  {
    AllMappedCount(dma, 1, FragPieces(skb.frags));
  }

  lemma AllGranted(s: P.State, ring: seq<TxBuff>, skb: Skb, dma: Dma, ret: nat)
    requires Indices(s) && Fits(skb) && SlotsNeeded(skb) < s.size
    requires MapOutcome(s.ring, ring, s.swTail, skb, dma, ret) && Mappable(skb, dma)
    ensures var slots := Window(ring, s.swTail, ret);
            && CarriesPacket(slots, skb, SlotRanges(skb, dma), At(s.size, s.swTail, ret - 1))
            && P.PacketShape(s.size, s.swTail, slots)
  {
    MappedCarries(s.ring, s.swTail, skb, dma);
    CarriesShape(s.size, s.swTail, Window(ring, s.swTail, ret), skb, SlotRanges(skb, dma));
  }

  /** A finished packet leaves the slots behind it as they were. */
  lemma MappedElsewhere(ring: seq<TxBuff>, tail: nat, skb: Skb, dma: Dma, i: nat)
    requires tail < |ring| && SlotsNeeded(skb) < |ring| && Mappable(skb, dma) && Fits(skb)
    requires i < |ring| && Dist(|ring|, tail, i) >= SlotsNeeded(skb)
    ensures |MappedRing(ring, tail, skb, dma)| == |ring| && MappedRing(ring, tail, skb, dma)[i] == ring[i]
  {
    var rs := SlotRanges(skb, dma);
    AllMappedCount(dma, 1, FragPieces(skb.frags));
    LaidHolds(ring, tail, skb, rs);
    assert Laid(ring, tail, skb, rs)[i] == ring[i];
  }

  lemma AllGrantedKeepsLive(s: P.State, skb: Skb, dma: Dma)
    requires Indices(s) && Fits(skb) && SlotsNeeded(skb) <= AvailDx(s.size, s.swHead, s.swTail)
    requires SlotsNeeded(skb) < s.size && Mappable(skb, dma)
    ensures |MappedRing(s.ring, s.swTail, skb, dma)| == s.size
    ensures P.SameLive(s, MappedRing(s.ring, s.swTail, skb, dma))
  {
    forall i | 0 <= i < s.size && Dist(s.size, s.swTail, i) >= SlotsNeeded(skb)
      ensures MappedRing(s.ring, s.swTail, skb, dma)[i] == s.ring[i]
    {
      MappedElsewhere(s.ring, s.swTail, skb, dma, i);
    }
    WritesBehindTail(s, MappedRing(s.ring, s.swTail, skb, dma), SlotsNeeded(skb));
  }

  ghost predicate MappedWell(s: P.State, ring: seq<TxBuff>, skb: Skb, dma: Dma, ret: nat)
  {
    && s.swHead < s.size == |ring| == |s.ring| && s.swTail < s.size && ret < s.size
    && P.SameLive(s, ring)
    && (ret > 0 ==>
          var slots := Window(ring, s.swTail, ret);
          && P.PacketShape(s.size, s.swTail, slots)
          && Publishes(slots, s.ring[s.swTail], skb, dma, At(s.size, s.swTail, ret - 1)))
  }

  /** What aq_nic_map_skb leaves, success or not: the live slots, and a well-formed packet
      behind the tail when it counts any slot. */
  lemma MapKeepsLive(s: P.State, ring: seq<TxBuff>, skb: Skb, dma: Dma, ret: nat)
    requires Indices(s) && Fits(skb) && SlotsNeeded(skb) <= AvailDx(s.size, s.swHead, s.swTail)
    requires SlotsNeeded(skb) < s.size && MapOutcome(s.ring, ring, s.swTail, skb, dma, ret)
    ensures ret <= SlotsNeeded(skb) && MappedWell(s, ring, skb, dma, ret)
  {
    if dma(0).None? {
      HeadRefused(s, ring, skb, dma, ret);
    } else if Mappable(skb, dma) {
      AllGranted(s, ring, skb, dma, ret);
      AllGrantedKeepsLive(s, skb, dma);
    } else {
      LaidHolds(s.ring, s.swTail, skb, SlotRanges(skb, dma));
      WritesBehindTail(s, ring, CtxSlots(skb) + |SlotRanges(skb, dma)|);
    }
  }

  // ---------------------------------------------------------------- end to end

  lemma {:induction false} PiecesUnmap(e: seq<P.Entry>, rs: seq<Range>)
    requires |e| == |rs|
    requires forall k :: 0 <= k < |e| ==> P.UnmapOf(e[k].buf) == [rs[k]]
    ensures P.UnmapsOf(e) == rs
    decreases |e|
  {
    if e != [] {
      var n := |e| - 1;
      PiecesUnmap(e[..n], rs[..n]);
      assert rs == rs[..n] + [rs[n]];
    }
  }

  lemma {:induction false} NoneFrees(e: seq<P.Entry>)
    requires forall k :: 0 <= k < |e| ==> !e[k].buf.isEop
    ensures P.FreesOf(e) == []
    decreases |e|
  {
    if e != [] {
      NoneFrees(e[..|e| - 1]);
    }
  }

  lemma LastFrees(e: seq<P.Entry>, ptr: nat)
    requires e != [] && forall k :: 0 <= k < |e| ==> e[k].buf.isEop == (k == |e| - 1)
    requires e[|e| - 1].buf.w1 == ptr
    ensures P.FreesOf(e) == [ptr]
  {
    NoneFrees(e[..|e| - 1]);
  }

  lemma DataReleases(slots: seq<TxBuff>, skb: Skb, rs: seq<Range>, last: nat, first: nat)
    requires CarriesPacket(slots, skb, rs, last)
    ensures var data := P.Entries(slots, first)[CtxSlots(skb)..];
            P.UnmapsOf(data) == rs && P.FreesOf(data) == [skb.ptr]
  {
    var e, c := P.Entries(slots, first), CtxSlots(skb);
    var data := e[c..];
    forall k | 0 <= k < |rs|
      ensures DescribesPiece(data[k].buf, skb, rs[k], k == 0) && data[k].buf.isEop == (k == |rs| - 1)
    {
      assert data[k].buf == slots[c + k];
      assert DescribesPiece(slots[c + k], skb, rs[k], k == 0);
    }
    PiecesUnmap(data, rs);
    LastFrees(data, skb.ptr);
  }

  lemma OneEntryLogs(e: P.Entry)
    ensures P.UnmapsOf([e]) == P.UnmapOf(e.buf) && P.FreesOf([e]) == P.FreeOf(e.buf)
  {
    P.LogsSnoc([], e);
    assert [] + [e] == [e];
  }

  /** Reclaiming a packet that was mapped in full gives back exactly the ranges its slots name,
      each once and in order, and frees its skb, once. */
  lemma PacketReleasesItself(slots: seq<TxBuff>, skb: Skb, rs: seq<Range>, last: nat, first: nat)
    requires CarriesPacket(slots, skb, rs, last)
    ensures P.UnmapsOf(P.Entries(slots, first)) == rs
    ensures P.FreesOf(P.Entries(slots, first)) == [skb.ptr]
  {
    var e, c := P.Entries(slots, first), CtxSlots(skb);
    DataReleases(slots, skb, rs, last, first);
    if c == 1 {
      OneEntryLogs(e[0]);
      assert e == [e[0]] + e[1..];
      P.LogsAppend([e[0]], e[1..]);
    } else {
      assert e[0..] == e;
    }
  }

  /** An skb that transmit has accepted is freed when its slots are reclaimed if and only if the
      head mapping was granted: behind a context slot, a refused head is still counted as sent. */
  lemma AcceptedIsFreedIffHeadMapped(slots: seq<TxBuff>, old_: TxBuff, skb: Skb, dma: Dma, last: nat, first: nat)
    requires Fits(skb) && Publishes(slots, old_, skb, dma, last)
    ensures P.FreesOf(P.Entries(slots, first)) == [skb.ptr] <==> dma(0).Some?
    ensures dma(0).None? ==> P.FreesOf(P.Entries(slots, first)) == [] && P.UnmapsOf(P.Entries(slots, first)) == []
  {
    if Mappable(skb, dma) {
      PacketReleasesItself(slots, skb, SlotRanges(skb, dma), last, first);
    } else {
      ContextReadsBack(old_, skb);
      var e := P.Entries(slots, first);
      assert e[..0] == [];
    }
  }

  /** The stop threshold keeps room for a packet, whatever the ring and the queue look like, if
      and only if the packet needs at most SLOTS_GUARANTEED slots. */
  lemma ThresholdGuarantees(skb: Skb)
    ensures (forall stopped: bool, avail: int :: !QueueState(stopped, avail) ==> SlotsNeeded(skb) <= avail) <==>
            SlotsNeeded(skb) <= SLOTS_GUARANTEED
  {
    assert !QueueState(false, SLOTS_GUARANTEED);
  }

  /** A packet of less than 64 KB in a head and up to 28 fragments finds room whenever the queue
      has not been stopped. */
  lemma RoomAtEveryTransmit(skb: Skb, stopped: bool, avail: int)
    requires |skb.frags| <= 28 && Len(skb) < 0x1_0000 && !QueueState(stopped, avail)
    ensures SlotsNeeded(skb) <= avail
  {
    SlotBound(skb);
    ThresholdGuarantees(skb);
  }

  /** The driver accepts packets that the threshold does not cover: 32 buffers, one of which
      needs two slots. */
  lemma ThresholdNotEnough() returns (skb: Skb)
    ensures |skb.frags| + 1 <= SKB_FRAGS_MAX && Len(skb) < 0x1_0000 && Fits(skb)
    ensures SlotsNeeded(skb) == SLOTS_GUARANTEED + 1
  {
    var big := seq(TX_FRAME_MAX + 1, _ => 0);
    var small := seq(30, _ => [0]);
    SmallFrags(small);
    var frags := [big] + small;
    skb := Skb(0, [0], frags, false, 0, 0, 0, false, Some(0), false, false, false);
    assert Chunks(big)[1..] == Chunks(big[TX_FRAME_MAX..]);
    assert |Chunks(big)| == 2;
    assert frags[1..] == small;
  }

  /** An accepted packet of less than 112 KB needs fewer slots than the smallest ring has. */
  lemma FitsEveryRing(skb: Skb, size: nat)
    requires |skb.frags| + 1 <= SKB_FRAGS_MAX && |skb.head| < 0x1_0000 && Len(skb) < 7 * TX_FRAME_MAX
    requires MIN_TXD <= size
    ensures SlotsNeeded(skb) < size
  {
    SlotBound(skb);
  }

  lemma {:induction false} SmallFrags(frags: seq<seq<byte>>)
    requires forall f :: f in frags ==> |f| == 1
    ensures |FragPieces(frags)| == |frags| == |Concat(frags)|
  {
    if frags != [] {
      SmallFrags(frags[1..]);
    }
  }

  /** From the skb to the wire: for a packet that was mapped in full, the engine reads a context
      that says what the skb asks for, and then addresses and lengths that cover, byte for byte
      and in order, the memory mapped for the head and the fragments, with one end mark. */
  lemma DescriptorsDescribePacket(slots: seq<TxBuff>, skb: Skb, dma: Dma, last: nat)
    requires Fits(skb) && |skb.head| < 0x1_0000 && Mappable(skb, dma)
    requires CarriesPacket(slots, skb, SlotRanges(skb, dma), last)
    ensures var ds, c, rs := Encode(slots), CtxSlots(skb), SlotRanges(skb, dma);
            && |ds| == c + |rs| && |rs| == |Pieces(skb)|
            && (c == 1 ==> ReadContext(ds[0]) == ContextOf(skb))
            && (forall k :: 0 <= k < |rs| ==>
                  ReadData(ds[c + k]) == DataOf(skb, rs[k], k == 0, k == |rs| - 1))
            && (forall k :: 0 <= k < |rs| ==> rs[k].len == |Pieces(skb)[k]|)
            && Concat(Pieces(skb)) == Bytes(skb)
            && AddrsOf(rs) == AddrsOf(Mapped(skb, dma))
  {
    var rs := SlotRanges(skb, dma);
    AllMappedCount(dma, 1, FragPieces(skb.frags));
    PiecesPartitionPacket(skb);
    SlotsNameMappedBytes(skb, dma);
    assert forall k :: 0 <= k < |rs| ==> rs[k].len == |Pieces(skb)[k]| && Pieces(skb)[k] in Pieces(skb);
    if |rs| == 1 {
      assert Concat(Pieces(skb)) == Pieces(skb)[0] + Concat([]);
    }
    StreamMeansPacket(slots, skb, rs, last);
  }
}
