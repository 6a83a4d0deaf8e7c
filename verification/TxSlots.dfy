/** The slots aq_nic_map_skb leaves behind the tail, as a function of the ring it found. */
module TxSlots {
  import opened Bits
  import opened Ring
  import opened TxPackets
  import opened TxBuffers

  /** The context slot of an skb that wants one. */
  function CtxSlot(b: TxBuff, skb: Skb): TxBuff
  {
    var c := if skb.isGso then WithGso(b.Cleared(), skb) else b.Cleared();
    if skb.vlan.Some? then WithVlan(c, skb.vlan.value, Len(skb)) else c
  }

  function HeadSlot(b: TxBuff, skb: Skb, r: Range): TxBuff
  {
    b.Cleared().(len := r.len, w0 := r.pa, w1 := Put(b.w1, 0, 32, Len(skb)), isSop := true, isMapped := true,
      isIpCso := skb.isIpCso, isUdpCso := skb.isUdpCso, isTcpCso := skb.isTcpCso)
  }

  /** Page pieces, one slot each, behind slot dx. */
  function Fill(ring: seq<TxBuff>, dx: nat, rs: seq<Range>): (r: seq<TxBuff>)
    requires dx < |ring|
    ensures |r| == |ring|
    decreases |rs|
  {
    if rs == [] then ring
    else
      var next := NextDx(|ring|, dx);
      Fill(ring[next := ring[next].Piece(rs[0].pa, rs[0].len)], next, rs[1..])
  }

  /** An optional context slot, a head slot and the pieces rs behind it. */
  function Lay(ring: seq<TxBuff>, tail: nat, c: nat, ctx: TxBuff, head: TxBuff, rs: seq<Range>): (r: seq<TxBuff>)
    requires tail < |ring| && c <= 1 && c + 1 + |rs| < |ring|
    ensures |r| == |ring|
  {
    var first := At(|ring|, tail, c);
    Fill(ring[tail := ctx][first := head], first, rs)
  }

  /** Context, head and pieces, before the last slot is marked. */
  function Laid(ring: seq<TxBuff>, tail: nat, skb: Skb, rs: seq<Range>): (r: seq<TxBuff>)
    requires tail < |ring| && CtxSlots(skb) + |rs| < |ring| && rs != []
    ensures |r| == |ring|
  {
    var first := At(|ring|, tail, CtxSlots(skb));
    Lay(ring, tail, CtxSlots(skb), CtxSlot(ring[tail], skb), HeadSlot(ring[first], skb, rs[0]), rs[1..])
  }

  /** The first slot names the last, and the last one holds the skb. */
  function Closed(ring: seq<TxBuff>, first: nat, last: nat, ptr: nat): seq<TxBuff>
    requires first < |ring| && last < |ring|
  {
    var r := ring[first := ring[first].(eopIndex := last)];
    r[last := r[last].(isEop := true, w1 := ptr)]
  }

  // ---------------------------------------------------------------- what the window holds

  /** Fill writes the slots behind dx and no other. */
  lemma {:induction false} FillWrites(ring: seq<TxBuff>, dx: nat, rs: seq<Range>)
    requires dx < |ring| && |rs| < |ring|
    ensures forall i :: 0 <= i < |ring| && !(0 < Dist(|ring|, dx, i) <= |rs|) ==> Fill(ring, dx, rs)[i] == ring[i]
    ensures forall k :: 0 <= k < |rs| ==>
              var j := At(|ring|, dx, k + 1);
              Fill(ring, dx, rs)[j] == ring[j].Piece(rs[k].pa, rs[k].len)
    decreases |rs|
  {
    if rs != [] {
      var next := NextDx(|ring|, dx);
      var ring' := ring[next := ring[next].Piece(rs[0].pa, rs[0].len)];
      FillWrites(ring', next, rs[1..]);
      forall k | 0 <= k < |rs|
        ensures var j := At(|ring|, dx, k + 1);
                Fill(ring, dx, rs)[j] == ring[j].Piece(rs[k].pa, rs[k].len)
      {
        if k > 0 {
          assert At(|ring|, next, k) == At(|ring|, dx, k + 1);
          assert rs[1..][k - 1] == rs[k];
        }
      }
    }
  }

  /** Filling in two goes is filling in one. */
  lemma {:induction false} FillAppend(ring: seq<TxBuff>, dx: nat, a: seq<Range>, b: seq<Range>)
    requires dx < |ring| && |a| < |ring|
    ensures Fill(ring, dx, a + b) == Fill(Fill(ring, dx, a), At(|ring|, dx, |a|), b)
    decreases |a|
  {
    if a == [] {
      assert a + b == b;
    } else {
      var next := NextDx(|ring|, dx);
      assert (a + b)[1..] == a[1..] + b;
      FillAppend(ring[next := ring[next].Piece(a[0].pa, a[0].len)], next, a[1..], b);
      NextIsAt(|ring|, dx, 0);
      assert At(|ring|, next, |a| - 1) == At(|ring|, dx, |a|);
    }
  }

  /** The k-th of the pieces laid out from the tail on. */
  ghost predicate LaidPiece(ring: seq<TxBuff>, tail: nat, skb: Skb, rs: seq<Range>, k: nat)
    requires tail < |ring| && CtxSlots(skb) + |rs| < |ring| && k < |rs|
  {
    var b := ring[At(|ring|, tail, CtxSlots(skb) + k)];
    DescribesPiece(b, skb, rs[k], k == 0) && !b.isEop && (k == 0 ==> b.LenPkt() == Len(skb))
  }

  lemma LaidHead(ring: seq<TxBuff>, tail: nat, c: nat, ctx: TxBuff, head: TxBuff, rs: seq<Range>)
    requires tail < |ring| && c <= 1 && c + 1 + |rs| < |ring|
    ensures var r := Lay(ring, tail, c, ctx, head, rs);
            |r| == |ring| && (c == 1 ==> r[tail] == ctx) && r[At(|ring|, tail, c)] == head
  {
    var first := At(|ring|, tail, c);
    FillWrites(ring[tail := ctx][first := head], first, rs);
    assert c == 1 ==> Dist(|ring|, first, tail) == |ring| - 1;
    assert Dist(|ring|, first, first) == 0;
  }

  lemma LaidAt(ring: seq<TxBuff>, tail: nat, c: nat, ctx: TxBuff, head: TxBuff, rs: seq<Range>, k: nat)
    requires tail < |ring| && c <= 1 && c + 1 + |rs| < |ring| && k < |rs|
    ensures var j := At(|ring|, tail, c + 1 + k);
            Lay(ring, tail, c, ctx, head, rs)[j] == ring[j].Piece(rs[k].pa, rs[k].len)
  {
    var first := At(|ring|, tail, c);
    FillWrites(ring[tail := ctx][first := head], first, rs);
    assert At(|ring|, tail, c + 1 + k) == At(|ring|, first, k + 1);
  }

  lemma LaidElsewhere(ring: seq<TxBuff>, tail: nat, c: nat, ctx: TxBuff, head: TxBuff, rs: seq<Range>, i: nat)
    requires tail < |ring| && c <= 1 && c + 1 + |rs| < |ring| && i < |ring| && Dist(|ring|, tail, i) > c + |rs|
    ensures Lay(ring, tail, c, ctx, head, rs)[i] == ring[i]
  {
    var first := At(|ring|, tail, c);
    FillWrites(ring[tail := ctx][first := head], first, rs);
    assert Dist(|ring|, first, i) == Dist(|ring|, tail, i) - c;
  }

  lemma LayPlaces(ring: seq<TxBuff>, tail: nat, c: nat, ctx: TxBuff, head: TxBuff, rs: seq<Range>)
    requires tail < |ring| && c <= 1 && c + 1 + |rs| < |ring|
    ensures var r := Lay(ring, tail, c, ctx, head, rs);
            && (c == 1 ==> r[tail] == ctx)
            && r[At(|ring|, tail, c)] == head
            && (forall k :: 0 <= k < |rs| ==>
                  var j := At(|ring|, tail, c + 1 + k);
                  r[j] == ring[j].Piece(rs[k].pa, rs[k].len))
            && (forall i :: 0 <= i < |ring| && Dist(|ring|, tail, i) > c + |rs| ==> r[i] == ring[i])
  {
    LaidHead(ring, tail, c, ctx, head, rs);
    forall k | 0 <= k < |rs|
      ensures var j := At(|ring|, tail, c + 1 + k);
              Lay(ring, tail, c, ctx, head, rs)[j] == ring[j].Piece(rs[k].pa, rs[k].len)
    {
      LaidAt(ring, tail, c, ctx, head, rs, k);
    }
    forall i | 0 <= i < |ring| && Dist(|ring|, tail, i) > c + |rs|
      ensures Lay(ring, tail, c, ctx, head, rs)[i] == ring[i]
    {
      LaidElsewhere(ring, tail, c, ctx, head, rs, i);
    }
  }

  ghost predicate HeadOf(h: TxBuff, skb: Skb, r: Range)
  {
    DescribesPiece(h, skb, r, true) && !h.isEop && h.LenPkt() == Len(skb)
  }

  lemma LayHolds(ring: seq<TxBuff>, tail: nat, skb: Skb, ctx: TxBuff, head: TxBuff, rs: seq<Range>)
    requires tail < |ring| && CtxSlots(skb) + |rs| < |ring| && rs != []
    requires CtxSlots(skb) == 1 ==> IsContext(ctx, skb)
    requires HeadOf(head, skb, rs[0])
    ensures var r := Lay(ring, tail, CtxSlots(skb), ctx, head, rs[1..]);
            && (CtxSlots(skb) == 1 ==> IsContext(r[tail], skb))
            && (forall k :: 0 <= k < |rs| ==> LaidPiece(r, tail, skb, rs, k))
            && (forall i :: 0 <= i < |ring| && Dist(|ring|, tail, i) >= CtxSlots(skb) + |rs| ==> r[i] == ring[i])
  {
    var c := CtxSlots(skb);
    LayPlaces(ring, tail, c, ctx, head, rs[1..]);
    forall k | 0 <= k < |rs|
      ensures LaidPiece(Lay(ring, tail, c, ctx, head, rs[1..]), tail, skb, rs, k)
    {
      if k > 0 {
        assert At(|ring|, tail, c + k) == At(|ring|, tail, c + 1 + (k - 1));
        assert rs[1..][k - 1] == rs[k];
      }
    }
  }

  /** What Laid puts in the ring, and that it stays behind the tail. */
  lemma LaidHolds(ring: seq<TxBuff>, tail: nat, skb: Skb, rs: seq<Range>)
    requires tail < |ring| && CtxSlots(skb) + |rs| < |ring| && rs != [] && Fits(skb)
    ensures var r := Laid(ring, tail, skb, rs);
            && (CtxSlots(skb) == 1 ==> IsContext(r[tail], skb))
            && (forall k :: 0 <= k < |rs| ==> LaidPiece(r, tail, skb, rs, k))
            && (forall i :: 0 <= i < |ring| && Dist(|ring|, tail, i) >= CtxSlots(skb) + |rs| ==> r[i] == ring[i])
  {
    var b := ring[At(|ring|, tail, CtxSlots(skb))];
    LenPktReadsBack(b.w1, Len(skb));
    if CtxSlots(skb) == 1 {
      ContextReadsBack(ring[tail], skb);
    }
    LayHolds(ring, tail, skb, CtxSlot(ring[tail], skb), HeadSlot(b, skb, rs[0]), rs);
  }

  /** What closing a packet of m pieces does to its k-th piece. */
  lemma ClosedPiece(laid: seq<TxBuff>, tail: nat, c: nat, m: nat, ptr: nat, k: nat)
    requires tail < |laid| && c <= 1 && k < m && c + m < |laid|
    ensures var first, last := At(|laid|, tail, c), At(|laid|, tail, c + m - 1);
            var b, r := laid[At(|laid|, tail, c + k)], Closed(laid, first, last, ptr)[At(|laid|, tail, c + k)];
            && r == b.(eopIndex := if k == 0 then last else b.eopIndex, isEop := k == m - 1 || b.isEop,
                       w1 := if k == m - 1 then ptr else b.w1)
  {}

  lemma ClosedPieceMeans(laid: seq<TxBuff>, tail: nat, skb: Skb, rs: seq<Range>, k: nat)
    requires tail < |laid| && CtxSlots(skb) + |rs| < |laid| && k < |rs|
    requires LaidPiece(laid, tail, skb, rs, k)
    ensures var c := CtxSlots(skb);
            var first, last := At(|laid|, tail, c), At(|laid|, tail, c + |rs| - 1);
            var b := Closed(laid, first, last, skb.ptr)[At(|laid|, tail, c + k)];
            && DescribesPiece(b, skb, rs[k], k == 0)
            && b.isEop == (k == |rs| - 1)
            && (k == 0 ==> b.eopIndex == last)
            && (k == 0 && |rs| > 1 ==> b.LenPkt() == Len(skb))
            && (k == |rs| - 1 ==> b.w1 == skb.ptr)
  {
    ClosedPiece(laid, tail, CtxSlots(skb), |rs|, skb.ptr, k);
  }

  /** The k-th data slot of a finished packet. */
  ghost predicate FinishedPiece(w: seq<TxBuff>, skb: Skb, rs: seq<Range>, k: nat, last: nat)
    requires k < |rs| && |w| == CtxSlots(skb) + |rs|
  {
    var b := w[CtxSlots(skb) + k];
    && DescribesPiece(b, skb, rs[k], k == 0) && b.isEop == (k == |rs| - 1)
    && (k == 0 ==> b.eopIndex == last) && (k == |rs| - 1 ==> b.w1 == skb.ptr)
    && (k == 0 && |rs| > 1 ==> b.LenPkt() == Len(skb))
  }

  lemma ClosedWindowPiece(laid: seq<TxBuff>, tail: nat, skb: Skb, rs: seq<Range>, k: nat)
    requires tail < |laid| && CtxSlots(skb) + |rs| < |laid| && k < |rs|
    requires LaidPiece(laid, tail, skb, rs, k)
    ensures var c := CtxSlots(skb);
            var last := At(|laid|, tail, c + |rs| - 1);
            var w := Window(Closed(laid, At(|laid|, tail, c), last, skb.ptr), tail, c + |rs|);
            FinishedPiece(w, skb, rs, k, last)
  {
    ClosedPieceMeans(laid, tail, skb, rs, k);
  }

  /** What CarriesPacket asks of the k-th data slot. */
  lemma FinishedAt(w: seq<TxBuff>, skb: Skb, rs: seq<Range>, k: nat, last: nat)
    requires k < |rs| && |w| == CtxSlots(skb) + |rs| && FinishedPiece(w, skb, rs, k, last)
    ensures DescribesPiece(w[CtxSlots(skb) + k], skb, rs[k], k == 0) && w[CtxSlots(skb) + k].isEop == (k == |rs| - 1)
    ensures k == 0 ==> w[CtxSlots(skb)].eopIndex == last
    ensures k == 0 && |rs| > 1 ==> w[CtxSlots(skb)].LenPkt() == Len(skb)
    ensures k == |rs| - 1 ==> w[|w| - 1].w1 == skb.ptr
  {}

  lemma FinishedCarries(w: seq<TxBuff>, skb: Skb, rs: seq<Range>, last: nat)
    requires rs != [] && |w| == CtxSlots(skb) + |rs| && (CtxSlots(skb) == 1 ==> IsContext(w[0], skb))
    requires forall k :: 0 <= k < |rs| ==> FinishedPiece(w, skb, rs, k, last)
    ensures CarriesPacket(w, skb, rs, last)
  {
    var end := |rs| - 1;
    FinishedAt(w, skb, rs, 0, last);
    FinishedAt(w, skb, rs, end, last);
    forall k | 0 <= k < |rs|
      ensures DescribesPiece(w[CtxSlots(skb) + k], skb, rs[k], k == 0) && w[CtxSlots(skb) + k].isEop == (k == end)
    {
      FinishedAt(w, skb, rs, k, last);
    }
  }

  lemma ClosedContext(laid: seq<TxBuff>, tail: nat, skb: Skb, m: nat, last: nat)
    requires tail < |laid| && 0 < m && CtxSlots(skb) + m < |laid| && last == At(|laid|, tail, CtxSlots(skb) + m - 1)
    ensures var r := Closed(laid, At(|laid|, tail, CtxSlots(skb)), last, skb.ptr);
            |r| == |laid| && (CtxSlots(skb) == 1 ==> Window(r, tail, CtxSlots(skb) + m)[0] == laid[tail])
  {
    assert At(|laid|, tail, 0) == tail;
  }

  lemma CloseCarries(laid: seq<TxBuff>, tail: nat, skb: Skb, rs: seq<Range>)
    requires tail < |laid| && CtxSlots(skb) + |rs| < |laid| && rs != []
    requires CtxSlots(skb) == 1 ==> IsContext(laid[tail], skb)
    requires forall k :: 0 <= k < |rs| ==> LaidPiece(laid, tail, skb, rs, k)
    ensures var n := CtxSlots(skb) + |rs|;
            var last := At(|laid|, tail, n - 1);
            CarriesPacket(Window(Closed(laid, At(|laid|, tail, CtxSlots(skb)), last, skb.ptr), tail, n), skb, rs, last)
  {
    var c := CtxSlots(skb);
    var last := At(|laid|, tail, c + |rs| - 1);
    var w := Window(Closed(laid, At(|laid|, tail, c), last, skb.ptr), tail, c + |rs|);
    ClosedContext(laid, tail, skb, |rs|, last);
    forall k | 0 <= k < |rs|
      ensures FinishedPiece(w, skb, rs, k, last)
    {
      ClosedWindowPiece(laid, tail, skb, rs, k);
    }
    FinishedCarries(w, skb, rs, last);
  }

  /** The finished window carries the packet. */
  lemma ClosedCarriesPacket(ring: seq<TxBuff>, tail: nat, skb: Skb, rs: seq<Range>)
    requires tail < |ring| && CtxSlots(skb) + |rs| < |ring| && rs != [] && Fits(skb)
    ensures var n := CtxSlots(skb) + |rs|;
            var last := At(|ring|, tail, n - 1);
            var r := Closed(Laid(ring, tail, skb, rs), At(|ring|, tail, CtxSlots(skb)), last, skb.ptr);
            CarriesPacket(Window(r, tail, n), skb, rs, last)
  {
    LaidHolds(ring, tail, skb, rs);
    CloseCarries(Laid(ring, tail, skb, rs), tail, skb, rs);
  }
}
