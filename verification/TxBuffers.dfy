/** One slot of the TX ring with its overlaid layout: the first eight bytes (w0) hold a bus
    address or, in a context slot, the header lengths; the next eight (w1) hold the packet
    length and VLAN tag or, in the last slot of a packet, the address of the skb. */
module TxBuffers {
  import opened Bits
  import opened TxPackets

  const NO_EOP: nat := 0xFFFF

  datatype TxBuff = TxBuff(
    w0: nat, w1: nat, len: nat,
    isIpCso: bool, isUdpCso: bool, isTcpCso: bool, isSop: bool, isEop: bool,
    isGso: bool, isMapped: bool, isVlan: bool, eopIndex: nat)
  {
    function Mss(): nat { Field(w0, 0, 32) }
    function LenL2(): nat { Field(w0, 32, 8) }
    function LenL3(): nat { Field(w0, 40, 8) }
    function LenL4(): nat { Field(w0, 48, 8) }
    function IsIpv6(): nat { Field(w0, 56, 1) }
    function LenPkt(): nat { Field(w1, 0, 32) }
    function VlanTag(): nat { Field(w1, 32, 16) }

    /** flags = 0: the whole third word, the length and the EOP index included. */
    function Cleared(): TxBuff
    {
      TxBuff(w0, w1, 0, false, false, false, false, false, false, false, false, 0)
    }

    /** A page piece of a packet. */
    function Piece(pa: nat, n: nat): TxBuff
    {
      Cleared().(w0 := pa, len := n, isMapped := true, eopIndex := NO_EOP)
    }
  }

  /** A range of bus addresses handed to or taken back from the DMA layer. */
  datatype Range = Range(pa: nat, len: nat)

  /** The large-send half of a context slot. */
  function WithGso(b: TxBuff, skb: Skb): TxBuff
  {
    var w := Put(Put(Put(Put(Put(b.w0, 0, 32, skb.gsoSize), 32, 8, ETH_HLEN), 40, 8, skb.lenL3),
                         48, 8, skb.lenL4), 56, 1, if skb.isIpv6 then 1 else 0);
    b.(w0 := w, isGso := true, w1 := Put(b.w1, 0, 32, Len(skb)), eopIndex := NO_EOP)
  }

  /** The VLAN half of a context slot. */
  function WithVlan(b: TxBuff, tag: nat, len: nat): TxBuff
  {
    b.(w1 := Put(Put(b.w1, 32, 16, tag), 0, 32, len), isVlan := true)
  }

  /** A context slot that says what the skb asks for. */
  ghost predicate IsContext(b: TxBuff, skb: Skb)
  {
    && !b.isMapped && !b.isSop && !b.isEop
    && b.isGso == skb.isGso && b.isVlan == skb.vlan.Some?
    && b.LenPkt() == Len(skb)
    && (skb.isGso ==>
          && b.Mss() == skb.gsoSize && b.LenL2() == ETH_HLEN
          && b.LenL3() == skb.lenL3 && b.LenL4() == skb.lenL4
          && b.IsIpv6() == if skb.isIpv6 then 1 else 0)
    && (skb.vlan.Some? ==> b.VlanTag() == skb.vlan.value)
  }

  lemma Pow2Facts()
    ensures Pow2(1) == 2 && Pow2(8) == 0x100 && Pow2(16) == 0x1_0000 && Pow2(32) == 0x1_0000_0000
  {
    assert Pow2(4) == 16;
    assert Pow2(12) == 0x1000;
    assert Pow2(20) == 0x10_0000;
    assert Pow2(28) == 0x1000_0000;
  }

  lemma GsoReadsBack(b: TxBuff, skb: Skb)
    requires Fits(skb)
    ensures var c := WithGso(b, skb);
            && c.Mss() == skb.gsoSize && c.LenL2() == ETH_HLEN && c.LenL3() == skb.lenL3
            && c.LenL4() == skb.lenL4 && c.IsIpv6() == (if skb.isIpv6 then 1 else 0)
            && c.LenPkt() == Len(skb)
  {
    Pow2Facts();
    var v6 := if skb.isIpv6 then 1 else 0;
    var w1 := Put(b.w0, 0, 32, skb.gsoSize);
    var w2 := Put(w1, 32, 8, ETH_HLEN);
    var w3 := Put(w2, 40, 8, skb.lenL3);
    var w4 := Put(w3, 48, 8, skb.lenL4);
    FieldPut(b.w0, 0, 32, skb.gsoSize, 0, 32);
    FieldPut(w1, 32, 8, ETH_HLEN, 0, 32);
    FieldPut(w1, 32, 8, ETH_HLEN, 32, 8);
    FieldPut(w2, 40, 8, skb.lenL3, 0, 32);
    FieldPut(w2, 40, 8, skb.lenL3, 32, 8);
    FieldPut(w2, 40, 8, skb.lenL3, 40, 8);
    FieldPut(w3, 48, 8, skb.lenL4, 0, 32);
    FieldPut(w3, 48, 8, skb.lenL4, 32, 8);
    FieldPut(w3, 48, 8, skb.lenL4, 40, 8);
    FieldPut(w3, 48, 8, skb.lenL4, 48, 8);
    FieldPut(w4, 56, 1, v6, 0, 32);
    FieldPut(w4, 56, 1, v6, 32, 8);
    FieldPut(w4, 56, 1, v6, 40, 8);
    FieldPut(w4, 56, 1, v6, 48, 8);
    FieldPut(w4, 56, 1, v6, 56, 1);
    FieldPut(b.w1, 0, 32, Len(skb), 0, 32);
  }

  /** What the stores into a context slot leave there, whatever the slot held before. */
  lemma ContextReadsBack(b: TxBuff, skb: Skb)
    requires Fits(skb) && CtxSlots(skb) == 1
    ensures var c0 := if skb.isGso then WithGso(b.Cleared(), skb) else b.Cleared();
            var c := if skb.vlan.Some? then WithVlan(c0, skb.vlan.value, Len(skb)) else c0;
            IsContext(c, skb)
  {
    Pow2Facts();
    var c0 := if skb.isGso then WithGso(b.Cleared(), skb) else b.Cleared();
    if skb.isGso {
      GsoReadsBack(b.Cleared(), skb);
    }
    if skb.vlan.Some? {
      var tag := skb.vlan.value;
      var w := Put(c0.w1, 32, 16, tag);
      FieldPut(c0.w1, 32, 16, tag, 32, 16);
      FieldPut(w, 0, 32, Len(skb), 0, 32);
      FieldPut(w, 0, 32, Len(skb), 32, 16);
    }
  }

  lemma LenPktReadsBack(w1: nat, len: nat)
    requires len < 0x1_0000_0000
    ensures Field(Put(w1, 0, 32, len), 0, 32) == len
  {
    Pow2Facts();
    FieldPut(w1, 0, 32, len, 0, 32);
  }

  /** A slot that names one mapped piece of a packet. */
  predicate IsPiece(b: TxBuff, r: Range, first: bool)
  {
    b.isMapped && b.w0 == r.pa && b.len == r.len && b.isSop == first && !b.isGso && !b.isVlan
  }

  /** Such a slot with the checksum requests, which the first piece alone carries. */
  predicate DescribesPiece(b: TxBuff, skb: Skb, r: Range, first: bool)
  {
    && IsPiece(b, r, first)
    && b.isIpCso == (first && skb.isIpCso)
    && b.isUdpCso == (first && skb.isUdpCso)
    && b.isTcpCso == (first && skb.isTcpCso)
  }

  /** The slots that carry a packet, given the bus ranges of its pieces and the slot index of
      its last piece: everything the encoder and the reclaimer will read. */
  ghost predicate CarriesPacket(slots: seq<TxBuff>, skb: Skb, ranges: seq<Range>, endSlot: nat)
  {
    var c := CtxSlots(skb);
    && |ranges| > 0 && |slots| == c + |ranges|
    && (c == 1 ==> IsContext(slots[0], skb))
    && (forall k :: 0 <= k < |ranges| ==>
          && DescribesPiece(slots[c + k], skb, ranges[k], k == 0)
          && slots[c + k].isEop == (k == |ranges| - 1))
    && slots[c].eopIndex == endSlot
    && slots[|slots| - 1].w1 == skb.ptr
    && (|ranges| > 1 ==> slots[c].LenPkt() == Len(skb))
  }
}
