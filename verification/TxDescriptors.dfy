/** The words hw_atl_b0_hw_ring_tx_xmit writes for the DMA engine, and the reader of those
    words given by the field layouts of the trace events. */
module TxDescriptors {
  import opened Bits
  import opened TxPackets
  import opened TxBuffers

  datatype Txd = Txd(bufAddr: nat, ctl: nat, ctl2: nat)

  /** What the encoder remembers from one slot to the next. */
  datatype Encoder = Encoder(pktLen: nat, isGso: bool, isVlan: bool)

  const DESC_TYPE_TXD: nat := 1
  const DESC_TYPE_TXC: nat := 2

  function Bool(b: bool): nat
  {
    if b then 1 else 0
  }

  /** The terms OR-ed into `ctl` and `ctl2` of a data descriptor, in order; a flag that is not
      raised is a zero term. A mask that drops high bits is written as the field that survives
      it (MaskShifted). */
  function DataCtl(b: TxBuff, e: Encoder): seq<Part>
  {
    [Part(Field(b.len, 0, 16), 16, 4), Part(DESC_TYPE_TXD, 3, 0), Part(Bool(e.isGso), 1, 26),
     Part(Bool(b.isIpCso), 1, 24), Part(Bool(b.isUdpCso || b.isTcpCso), 1, 25),
     Part(Bool(e.isVlan), 1, 22), Part(Bool(b.isEop), 1, 21), Part(Bool(b.isEop), 1, 27)]
  }

  function DataCtl2(b: TxBuff, e: Encoder): seq<Part>
  {
    [Part(Field(e.pktLen, 0, 18), 18, 14), Part(Bool(e.isGso || e.isVlan), 1, 13)]
  }

  /** The same for a context descriptor, which may hold a large-send half, a VLAN half or both. */
  function CtxCtl(b: TxBuff): seq<Part>
  {
    [Part(Bool(b.isGso), 1, 22), Part(if b.isGso then DESC_TYPE_TXC else 0, 3, 0),
     Part(if b.isGso then Field(b.LenL3(), 0, 1) else 0, 1, 31),
     Part(if b.isGso then b.LenL2() else 0, 7, 24),
     Part(if b.isGso then b.IsIpv6() else 0, 1, 21),
     Part(if b.isVlan then DESC_TYPE_TXC else 0, 3, 0),
     Part(if b.isVlan then b.VlanTag() else 0, 16, 4)]
  }

  function CtxCtl2(b: TxBuff): seq<Part>
  {
    [Part(if b.isGso then Field(b.Mss(), 0, 16) else 0, 16, 16),
     Part(if b.isGso then b.LenL4() else 0, 8, 8),
     Part(if b.isGso then b.LenL3() / 2 else 0, 7, 0)]
  }

  function EncodeOne(b: TxBuff, e: Encoder): Txd
  {
    if !b.isGso && !b.isVlan then Txd(b.w0, Pack(DataCtl(b, e)), Pack(DataCtl2(b, e)))
    else Txd(0, Pack(CtxCtl(b)), Pack(CtxCtl2(b)))
  }

  function NextEncoder(b: TxBuff, e: Encoder): Encoder
  {
    var len := if b.isGso then U32Minus(e.pktLen, b.LenL4() + b.LenL3() + b.LenL2()) else e.pktLen;
    var data := !b.isGso && !b.isVlan;
    if data && b.isEop then Encoder(len, false, false)
    else Encoder(len, e.isGso || b.isGso, e.isVlan || b.isVlan)
  }

  /** Subtraction in 32-bit unsigned arithmetic. */
  function U32Minus(a: nat, b: nat): nat
  {
    (a - b) % 0x1_0000_0000
  }

  function EncodeFrom(slots: seq<TxBuff>, e: Encoder): (r: seq<Txd>)
    ensures |r| == |slots|
  {
    if slots == [] then []
    else [EncodeOne(slots[0], e)] + EncodeFrom(slots[1..], NextEncoder(slots[0], e))
  }

  function Start(b: TxBuff): Encoder
  {
    Encoder(if b.isEop && b.isSop then b.len else b.LenPkt(), false, false)
  }

  function Encode(slots: seq<TxBuff>): (r: seq<Txd>)
    requires slots != []
    ensures |r| == |slots|
  {
    EncodeFrom(slots, Start(slots[0]))
  }

  // ---------------------------------------------------------------- reading the words back

  /** DESCR_FIELD(descr, first, last) on the second 64-bit word of a descriptor. */
  function DescrField(d: Txd, first: nat, last: nat): nat
    requires last <= first
  {
    Field(Or(d.ctl, Shl(d.ctl2, 32)), last, first - last + 1)
  }

  datatype DataDescr = DataDescr(
    addr: nat, payLen: nat, ctEn: nat, lso: nat, tucso: nat, ipcso: nat, vlan: nat, wb: nat,
    eop: nat, bufLen: nat, desTyp: nat)

  function ReadData(d: Txd): DataDescr
  {
    DataDescr(d.bufAddr, DescrField(d, 63, 46), DescrField(d, 45, 45), DescrField(d, 26, 26),
              DescrField(d, 25, 25), DescrField(d, 24, 24), DescrField(d, 22, 22),
              DescrField(d, 27, 27), DescrField(d, 21, 21), DescrField(d, 19, 4), DescrField(d, 2, 0))
  }

  datatype CtxDescr = CtxDescr(
    mss: nat, lenL4: nat, lenL3: nat, lenL2: nat, tcp: nat, ipv6: nat, vlanTag: nat, desTyp: nat)

  function ReadContext(d: Txd): CtxDescr
  {
    CtxDescr(DescrField(d, 63, 48), DescrField(d, 47, 40), DescrField(d, 39, 31),
             DescrField(d, 30, 24), DescrField(d, 22, 22), DescrField(d, 21, 21),
             DescrField(d, 19, 4), DescrField(d, 2, 0))
  }

  // ---------------------------------------------------------------- the reader inverts the writer

  /** A field that lies inside the low word. */
  lemma LowField(d: Txd, first: nat, last: nat)
    requires last <= first < 32
    ensures DescrField(d, first, last) == Field(d.ctl, last, first - last + 1)
  {
    FieldOr(d.ctl, Shl(d.ctl2, 32), last, first - last + 1);
    FieldBelow(d.ctl2, 32, last, first - last + 1);
    OrZero(Field(d.ctl, last, first - last + 1));
  }

  /** A field that lies inside the high word. */
  lemma HighField(d: Txd, first: nat, last: nat)
    requires 32 <= last <= first && d.ctl < Pow2(32)
    ensures DescrField(d, first, last) == Field(d.ctl2, last - 32, first - last + 1)
  {
    var n := first - last + 1;
    FieldOr(d.ctl, Shl(d.ctl2, 32), last, n);
    FieldShl(d.ctl2, 32, last, n);
    FieldAbove(d.ctl, 32, last, n);
    OrZero(Field(d.ctl2, last - 32, n));
  }

  lemma {:induction false} PackBound(parts: seq<Part>, n: nat)
    requires forall j :: 0 <= j < |parts| ==> parts[j].v < Pow2(parts[j].w) && parts[j].k + parts[j].w <= n
    ensures Pack(parts) < Pow2(n)
  {
    if parts != [] {
      var init, p := parts[..|parts| - 1], parts[|parts| - 1];
      PackBound(init, n);
      ShlBound(p.v, p.w, p.k);
      PowMonotone(p.w + p.k, n);
      OrBound(Pack(init), Shl(p.v, p.k), n);
    }
  }

  lemma {:induction false} OrBound(a: nat, b: nat, n: nat)
    requires a < Pow2(n) && b < Pow2(n)
    ensures Or(a, b) < Pow2(n)
    decreases n
  {
    if a != 0 && b != 0 {
      OrBound(a / 2, b / 2, n - 1);
    }
  }

  lemma SmallPowers()
    ensures Pow2(1) == 2 && Pow2(3) == 8 && Pow2(7) == 128 && Pow2(8) == 256
    ensures Pow2(16) == 0x1_0000 && Pow2(18) == 0x4_0000 && Pow2(32) == 0x1_0000_0000
  {
    Pow2Facts();
    assert Pow2(17) == 2 * Pow2(16);
  }

  /** The parts of a data word, whatever their values. */
  predicate DataParts(c: seq<Part>, len: nat, lso: nat, ip: nat, tu: nat, vlan: nat, eop: nat)
  {
    && len < 0x1_0000 && lso < 2 && ip < 2 && tu < 2 && vlan < 2 && eop < 2
    && c == [Part(len, 16, 4), Part(DESC_TYPE_TXD, 3, 0), Part(lso, 1, 26), Part(ip, 1, 24),
             Part(tu, 1, 25), Part(vlan, 1, 22), Part(eop, 1, 21), Part(eop, 1, 27)]
  }

  lemma DataCtlField(c: seq<Part>, len: nat, lso: nat, ip: nat, tu: nat, vlan: nat, eop: nat, i: nat, p: Part)
    requires DataParts(c, len, lso, ip, tu, vlan, eop) && i < |c| && c[i] == p
    ensures Field(Pack(c), p.k, p.w) == p.v
  {
    SmallPowers();
    PackedField(c, i);
  }

  lemma DataCtlBound(c: seq<Part>, len: nat, lso: nat, ip: nat, tu: nat, vlan: nat, eop: nat)
    requires DataParts(c, len, lso, ip, tu, vlan, eop)
    ensures Pack(c) < Pow2(32)
  {
    SmallPowers();
    PackBound(c, 32);
  }

  lemma DataCtlFields(c: seq<Part>, len: nat, lso: nat, ip: nat, tu: nat, vlan: nat, eop: nat)
    requires DataParts(c, len, lso, ip, tu, vlan, eop)
    ensures Pack(c) < Pow2(32)
    ensures Field(Pack(c), 4, 16) == len && Field(Pack(c), 0, 3) == DESC_TYPE_TXD
    ensures Field(Pack(c), 26, 1) == lso && Field(Pack(c), 24, 1) == ip && Field(Pack(c), 25, 1) == tu
    ensures Field(Pack(c), 22, 1) == vlan && Field(Pack(c), 21, 1) == eop && Field(Pack(c), 27, 1) == eop
  {
    DataCtlBound(c, len, lso, ip, tu, vlan, eop);
    DataCtlField(c, len, lso, ip, tu, vlan, eop, 0, Part(len, 16, 4));
    DataCtlField(c, len, lso, ip, tu, vlan, eop, 1, Part(DESC_TYPE_TXD, 3, 0));
    DataCtlField(c, len, lso, ip, tu, vlan, eop, 2, Part(lso, 1, 26));
    DataCtlField(c, len, lso, ip, tu, vlan, eop, 3, Part(ip, 1, 24));
    DataCtlField(c, len, lso, ip, tu, vlan, eop, 4, Part(tu, 1, 25));
    DataCtlField(c, len, lso, ip, tu, vlan, eop, 5, Part(vlan, 1, 22));
    DataCtlField(c, len, lso, ip, tu, vlan, eop, 6, Part(eop, 1, 21));
    DataCtlField(c, len, lso, ip, tu, vlan, eop, 7, Part(eop, 1, 27));
  }

  /** The parts of a context word, whatever their values. */
  predicate CtxParts(c: seq<Part>, gso: nat, l3: nat, l2: nat, v6: nat, vlan: nat, tag: nat)
  {
    && gso < 2 && l3 < 2 && l2 < 128 && v6 < 2 && vlan < 2 && tag < 0x1_0000 && gso + vlan > 0
    && c == [Part(gso, 1, 22), Part(2 * gso, 3, 0), Part(l3, 1, 31), Part(l2, 7, 24), Part(v6, 1, 21),
             Part(2 * vlan, 3, 0), Part(tag, 16, 4)]
  }

  lemma CtxPartFits(c: seq<Part>, gso: nat, l3: nat, l2: nat, v6: nat, vlan: nat, tag: nat, j: nat)
    requires CtxParts(c, gso, l3, l2, v6, vlan, tag) && j < |c|
    ensures c[j].v < Pow2(c[j].w)
  {
    SmallPowers();
  }

  /** Every part lies beside the field of p, or says the same: only the type is stored twice. */
  lemma CtxPartApart(c: seq<Part>, gso: nat, l3: nat, l2: nat, v6: nat, vlan: nat, tag: nat, i: nat, p: Part, j: nat)
    requires CtxParts(c, gso, l3, l2, v6, vlan, tag) && i < |c| && c[i] == p && j < |c|
    requires p.k != 0 || p.v == 2
    ensures Apart(c[j], p.k, p.w) || c[j] == p
  {}

  lemma CtxCtlField(c: seq<Part>, gso: nat, l3: nat, l2: nat, v6: nat, vlan: nat, tag: nat, i: nat, p: Part)
    requires CtxParts(c, gso, l3, l2, v6, vlan, tag) && i < |c| && c[i] == p
    requires p.k != 0 || p.v == 2
    ensures Field(Pack(c), p.k, p.w) == p.v
  {
    forall j | 0 <= j < |c|
      ensures Tolerates(c[j], p.k, p.w, p.v)
    {
      CtxPartFits(c, gso, l3, l2, v6, vlan, tag, j);
      CtxPartApart(c, gso, l3, l2, v6, vlan, tag, i, p, j);
    }
    PackedField(c, i);
  }

  lemma CtxCtlBound(c: seq<Part>, gso: nat, l3: nat, l2: nat, v6: nat, vlan: nat, tag: nat)
    requires CtxParts(c, gso, l3, l2, v6, vlan, tag)
    ensures Pack(c) < Pow2(32)
  {
    SmallPowers();
    PackBound(c, 32);
  }

  /** Above bit 31 the word is empty, so the nine bits from there on hold l3 alone. */
  lemma CtxCtlTop(c: seq<Part>, gso: nat, l3: nat, l2: nat, v6: nat, vlan: nat, tag: nat)
    requires CtxParts(c, gso, l3, l2, v6, vlan, tag)
    ensures Field(Pack(c), 31, 9) == l3
  {
    SmallPowers();
    FieldPack(c, 31, 9, l3);
    assert l3 != 0 ==> !Apart(c[2], 31, 9);
  }

  lemma CtxCtlFields(c: seq<Part>, gso: nat, l3: nat, l2: nat, v6: nat, vlan: nat, tag: nat)
    requires CtxParts(c, gso, l3, l2, v6, vlan, tag)
    ensures Pack(c) < Pow2(32)
    ensures Field(Pack(c), 22, 1) == gso && Field(Pack(c), 24, 7) == l2 && Field(Pack(c), 21, 1) == v6
    ensures Field(Pack(c), 4, 16) == tag && Field(Pack(c), 0, 3) == DESC_TYPE_TXC && Field(Pack(c), 31, 9) == l3
  {
    CtxCtlBound(c, gso, l3, l2, v6, vlan, tag);
    CtxCtlTop(c, gso, l3, l2, v6, vlan, tag);
    CtxCtlField(c, gso, l3, l2, v6, vlan, tag, 0, Part(gso, 1, 22));
    CtxCtlField(c, gso, l3, l2, v6, vlan, tag, if gso == 1 then 1 else 5, Part(2, 3, 0));
    CtxCtlField(c, gso, l3, l2, v6, vlan, tag, 3, Part(l2, 7, 24));
    CtxCtlField(c, gso, l3, l2, v6, vlan, tag, 4, Part(v6, 1, 21));
    CtxCtlField(c, gso, l3, l2, v6, vlan, tag, 6, Part(tag, 16, 4));
  }

  lemma DataCtl2ReadsBack(b: TxBuff, e: Encoder)
    ensures var c := Pack(DataCtl2(b, e));
            && Field(c, 14, 18) == Field(e.pktLen, 0, 18)
            && Field(c, 13, 1) == Bool(e.isGso || e.isVlan)
  {
    SmallPowers();
    var c := DataCtl2(b, e);
    FieldBound(e.pktLen, 0, 18);
    PackedField(c, 0);
    PackedField(c, 1);
  }

  lemma DataWordsReadBack(b: TxBuff, e: Encoder)
    requires b.len < 0x1_0000
    ensures var c := Pack(DataCtl(b, e));
            && c < Pow2(32)
            && Field(c, 26, 1) == Bool(e.isGso) && Field(c, 25, 1) == Bool(b.isUdpCso || b.isTcpCso)
            && Field(c, 24, 1) == Bool(b.isIpCso) && Field(c, 22, 1) == Bool(e.isVlan)
            && Field(c, 27, 1) == Bool(b.isEop) && Field(c, 21, 1) == Bool(b.isEop)
            && Field(c, 4, 16) == b.len && Field(c, 0, 3) == DESC_TYPE_TXD
  {
    FieldWhole(b.len, 16);
    SmallPowers();
    DataCtlFields(DataCtl(b, e), b.len, Bool(e.isGso), Bool(b.isIpCso), Bool(b.isUdpCso || b.isTcpCso),
                  Bool(e.isVlan), Bool(b.isEop));
  }

  /** A data descriptor reads back as the slot's address, length and end mark, with the
      payload length the encoder carries, kept to its 18-bit field. */
  lemma ReadDataInverts(b: TxBuff, e: Encoder)
    requires !b.isGso && !b.isVlan && b.len < 0x1_0000
    ensures ReadData(EncodeOne(b, e)) ==
            DataDescr(b.w0, Field(e.pktLen, 0, 18), Bool(e.isGso || e.isVlan), Bool(e.isGso),
                      Bool(b.isUdpCso || b.isTcpCso), Bool(b.isIpCso), Bool(e.isVlan), Bool(b.isEop),
                      Bool(b.isEop), b.len, DESC_TYPE_TXD)
  {
    DataWordsReadBack(b, e);
    DataCtl2ReadsBack(b, e);
    ReadDataOf(EncodeOne(b, e));
  }

  /** The data layout, field by field. */
  lemma ReadDataOf(d: Txd)
    requires d.ctl < Pow2(32)
    ensures ReadData(d) ==
            DataDescr(d.bufAddr, Field(d.ctl2, 14, 18), Field(d.ctl2, 13, 1), Field(d.ctl, 26, 1), Field(d.ctl, 25, 1),
                      Field(d.ctl, 24, 1), Field(d.ctl, 22, 1), Field(d.ctl, 27, 1), Field(d.ctl, 21, 1),
                      Field(d.ctl, 4, 16), Field(d.ctl, 0, 3))
  {
    HighField(d, 63, 46);
    HighField(d, 45, 45);
    LowField(d, 26, 26);
    LowField(d, 25, 25);
    LowField(d, 24, 24);
    LowField(d, 22, 22);
    LowField(d, 27, 27);
    LowField(d, 21, 21);
    LowField(d, 19, 4);
    LowField(d, 2, 0);
  }

  /** The context layout, field by field; the L3 length lies across the two words. */
  lemma ReadContextOf(d: Txd)
    requires d.ctl < Pow2(32)
    ensures ReadContext(d) ==
            CtxDescr(Field(d.ctl2, 16, 16), Field(d.ctl2, 8, 8),
                     Or(Field(d.ctl, 31, 9), Shl(Field(d.ctl2, 0, 8), 1)), Field(d.ctl, 24, 7),
                     Field(d.ctl, 22, 1), Field(d.ctl, 21, 1), Field(d.ctl, 4, 16), Field(d.ctl, 0, 3))
  {
    LowField(d, 30, 24);
    LowField(d, 22, 22);
    LowField(d, 21, 21);
    LowField(d, 19, 4);
    LowField(d, 2, 0);
    HighField(d, 63, 48);
    HighField(d, 47, 40);
    FieldOr(d.ctl, Shl(d.ctl2, 32), 31, 9);
    FieldStraddle(d.ctl2, 32, 31, 9);
  }

  /** A context descriptor reads back as the context slot: the L3 length is put together from
      the top bit of one word and the low bits of the other. */
  lemma ReadContextInverts(b: TxBuff, e: Encoder)
    requires b.isGso || b.isVlan
    requires b.isGso ==> b.Mss() < 0x1_0000 && b.LenL2() < 128
    ensures ReadContext(EncodeOne(b, e)) ==
            CtxDescr(if b.isGso then b.Mss() else 0, if b.isGso then b.LenL4() else 0,
                     if b.isGso then b.LenL3() else 0, if b.isGso then b.LenL2() else 0,
                     Bool(b.isGso), if b.isGso then b.IsIpv6() else 0,
                     if b.isVlan then b.VlanTag() else 0, DESC_TYPE_TXC)
  {
    CtxWordsReadBack(b);
    ReadContextOf(EncodeOne(b, e));
    L3Halves(if b.isGso then b.LenL3() else 0);
  }

  lemma L3Halves(l3: nat)
    ensures Or(l3 % 2, Shl(l3 / 2, 1)) == l3
    ensures Field(l3, 0, 1) == l3 % 2
  {
    assert Shl(l3 / 2, 1) == 2 * Shl(l3 / 2, 0);
    assert Field(l3, 0, 1) == l3 % 2 + 2 * Field(l3 / 2, 0, 0);
    OrZero(l3 / 2);
  }

  lemma CtxWordsReadBack(b: TxBuff)
    requires b.isGso || b.isVlan
    requires b.isGso ==> b.Mss() < 0x1_0000 && b.LenL2() < 128
    ensures var c, c2, l3 := Pack(CtxCtl(b)), Pack(CtxCtl2(b)), if b.isGso then b.LenL3() else 0;
            && c < Pow2(32)
            && Field(c, 24, 7) == (if b.isGso then b.LenL2() else 0) && Field(c, 22, 1) == Bool(b.isGso)
            && Field(c, 21, 1) == (if b.isGso then b.IsIpv6() else 0)
            && Field(c, 4, 16) == (if b.isVlan then b.VlanTag() else 0) && Field(c, 0, 3) == DESC_TYPE_TXC
            && Field(c, 31, 9) == l3 % 2
            && Field(c2, 0, 8) == l3 / 2
            && Field(c2, 16, 16) == (if b.isGso then b.Mss() else 0)
            && Field(c2, 8, 8) == (if b.isGso then b.LenL4() else 0)
  {
    SmallPowers();
    var c := CtxCtl(b);
    var l3 := if b.isGso then b.LenL3() else 0;
    L3Halves(l3);
    FieldBound(b.w1, 32, 16);
    FieldBound(b.w0, 56, 1);
    FieldBound(b.w0, 40, 8);
    FieldBound(b.w0, 48, 8);
    CtxCtlFields(c, Bool(b.isGso), l3 % 2, if b.isGso then b.LenL2() else 0, if b.isGso then b.IsIpv6() else 0,
                 Bool(b.isVlan), if b.isVlan then b.VlanTag() else 0);
    if b.isGso {
      FieldWhole(b.Mss(), 16);
    }
    CtxCtl2Field(CtxCtl2(b), l3 / 2, if b.isGso then b.LenL4() else 0, if b.isGso then b.Mss() else 0);
  }

  lemma CtxCtl2Field(c: seq<Part>, l3: nat, l4: nat, mss: nat)
    requires l3 < 128 && l4 < 256 && mss < 0x1_0000
    requires c == [Part(mss, 16, 16), Part(l4, 8, 8), Part(l3, 7, 0)]
    ensures Field(Pack(c), 0, 8) == l3 && Field(Pack(c), 8, 8) == l4 && Field(Pack(c), 16, 16) == mss
  {
    SmallPowers();
    CtxCtl2High(c, l3, l4, mss);
    CtxCtl2Low(c, l3, l4, mss);
  }

  lemma CtxCtl2High(c: seq<Part>, l3: nat, l4: nat, mss: nat)
    requires l3 < Pow2(7) && l4 < Pow2(8) && mss < Pow2(16)
    requires c == [Part(mss, 16, 16), Part(l4, 8, 8), Part(l3, 7, 0)]
    ensures Field(Pack(c), 8, 8) == l4 && Field(Pack(c), 16, 16) == mss
  {
    PackedField(c, 0);
    PackedField(c, 1);
  }

  lemma CtxCtl2Low(c: seq<Part>, l3: nat, l4: nat, mss: nat)
    requires l3 < 128 && c == [Part(mss, 16, 16), Part(l4, 8, 8), Part(l3, 7, 0)]
    requires l4 < Pow2(8) && mss < Pow2(16)
    ensures Field(Pack(c), 0, 8) == l3
  {
    SmallPowers();
    FieldPack(c, 0, 8, l3);
    assert l3 != 0 ==> !Apart(c[2], 0, 8);
  }

  // ---------------------------------------------------------------- the stream means the packet

  /** The payload length of a packet: the headers are left out of a large send. */
  function PayLen(skb: Skb): nat
  {
    if skb.isGso then U32Minus(Len(skb), skb.lenL4 + skb.lenL3 + ETH_HLEN) else Len(skb)
  }

  function ContextOf(skb: Skb): CtxDescr
  {
    CtxDescr(if skb.isGso then skb.gsoSize else 0, if skb.isGso then skb.lenL4 else 0,
             if skb.isGso then skb.lenL3 else 0, if skb.isGso then ETH_HLEN else 0,
             Bool(skb.isGso), if skb.isGso then Bool(skb.isIpv6) else 0,
             if skb.vlan.Some? then skb.vlan.value else 0, DESC_TYPE_TXC)
  }

  function DataOf(skb: Skb, r: Range, first: bool, last: bool): DataDescr
  {
    DataDescr(r.pa, Field(PayLen(skb), 0, 18), CtxSlots(skb), Bool(skb.isGso),
              Bool(first && (skb.isUdpCso || skb.isTcpCso)), Bool(first && skb.isIpCso),
              Bool(skb.vlan.Some?), Bool(last), Bool(last), r.len, DESC_TYPE_TXD)
  }

  /** Plain data slots before the last one leave the encoder as it is. */
  lemma {:induction false} EncodeFromAt(slots: seq<TxBuff>, e: Encoder, k: nat)
    requires k < |slots|
    requires forall j :: 0 <= j < k ==> NextEncoder(slots[j], e) == e
    ensures EncodeFrom(slots, e)[k] == EncodeOne(slots[k], e)
  {
    if k > 0 {
      assert NextEncoder(slots[0], e) == e;
      EncodeFromAt(slots[1..], e, k - 1);
    }
  }

  /** The state of the encoder when it reaches the first data slot. */
  lemma EncoderAtData(slots: seq<TxBuff>, skb: Skb, ranges: seq<Range>, endSlot: nat)
    requires Fits(skb) && CarriesPacket(slots, skb, ranges, endSlot)
    requires |ranges| == 1 ==> ranges[0].len == Len(skb)
    ensures var e := Encoder(PayLen(skb), skb.isGso, skb.vlan.Some?);
            if CtxSlots(skb) == 1 then NextEncoder(slots[0], Start(slots[0])) == e else Start(slots[0]) == e
  {
    assert DescribesPiece(slots[CtxSlots(skb)], skb, ranges[0], true);
  }

  lemma DataSlotMeans(slots: seq<TxBuff>, skb: Skb, ranges: seq<Range>, endSlot: nat, k: nat)
    requires Fits(skb) && CarriesPacket(slots, skb, ranges, endSlot)
    requires k < |ranges| && ranges[k].len < 0x1_0000
    ensures var e := Encoder(PayLen(skb), skb.isGso, skb.vlan.Some?);
            ReadData(EncodeFrom(slots[CtxSlots(skb)..], e)[k]) == DataOf(skb, ranges[k], k == 0, k == |ranges| - 1)
  {
    var c := CtxSlots(skb);
    var e := Encoder(PayLen(skb), skb.isGso, skb.vlan.Some?);
    var data := slots[c..];
    assert DescribesPiece(slots[c + k], skb, ranges[k], k == 0);
    forall j | 0 <= j < k
      ensures NextEncoder(data[j], e) == e
    {
      assert data[j] == slots[c + j] && DescribesPiece(slots[c + j], skb, ranges[j], j == 0);
    }
    EncodeFromAt(data, e, k);
    ReadDataInverts(data[k], e);
  }

  /** What the engine reads in the words written for a packet is the packet: its context, then
      the address and length of every piece in order, the end mark on the last one only, and
      the same payload length everywhere, although the address of the skb overlays the packet length
      in the last slot. */
  lemma StreamMeansPacket(slots: seq<TxBuff>, skb: Skb, ranges: seq<Range>, endSlot: nat)
    requires Fits(skb) && CarriesPacket(slots, skb, ranges, endSlot)
    requires |ranges| == 1 ==> ranges[0].len == Len(skb)
    requires forall k :: 0 <= k < |ranges| ==> ranges[k].len < 0x1_0000
    ensures var ds, c := Encode(slots), CtxSlots(skb);
            && |ds| == c + |ranges|
            && (c == 1 ==> ReadContext(ds[0]) == ContextOf(skb))
            && forall k :: 0 <= k < |ranges| ==>
                 ReadData(ds[c + k]) == DataOf(skb, ranges[k], k == 0, k == |ranges| - 1)
  {
    EncodedSplit(slots, skb, ranges, endSlot);
    forall k | 0 <= k < |ranges|
      ensures ReadData(Encode(slots)[CtxSlots(skb) + k]) == DataOf(skb, ranges[k], k == 0, k == |ranges| - 1)
    {
      DataDescriptorMeans(slots, skb, ranges, endSlot, k);
    }
    if CtxSlots(skb) == 1 {
      ContextSlotMeans(slots[0], skb);
    }
  }

  lemma DataDescriptorMeans(slots: seq<TxBuff>, skb: Skb, ranges: seq<Range>, endSlot: nat, k: nat)
    requires Fits(skb) && CarriesPacket(slots, skb, ranges, endSlot)
    requires |ranges| == 1 ==> ranges[0].len == Len(skb)
    requires k < |ranges| && ranges[k].len < 0x1_0000
    ensures |Encode(slots)| == CtxSlots(skb) + |ranges|
    ensures ReadData(Encode(slots)[CtxSlots(skb) + k]) == DataOf(skb, ranges[k], k == 0, k == |ranges| - 1)
  {
    EncodedSplit(slots, skb, ranges, endSlot);
    DataSlotMeans(slots, skb, ranges, endSlot, k);
    assert Encode(slots)[CtxSlots(skb)..][k] == Encode(slots)[CtxSlots(skb) + k];
  }

  /** The data slots are encoded from where the context slot, if there is one, has left the encoder. */
  lemma EncodedSplit(slots: seq<TxBuff>, skb: Skb, ranges: seq<Range>, endSlot: nat)
    requires Fits(skb) && CarriesPacket(slots, skb, ranges, endSlot)
    requires |ranges| == 1 ==> ranges[0].len == Len(skb)
    ensures var ds, c := Encode(slots), CtxSlots(skb);
            && |ds| == c + |ranges|
            && ds[c..] == EncodeFrom(slots[c..], Encoder(PayLen(skb), skb.isGso, skb.vlan.Some?))
            && (c == 1 ==> ds[0] == EncodeOne(slots[0], Start(slots[0])))
  {
    EncoderAtData(slots, skb, ranges, endSlot);
    if CtxSlots(skb) == 0 {
      assert slots[0..] == slots;
    }
  }

  lemma ContextSlotMeans(b: TxBuff, skb: Skb)
    requires Fits(skb) && IsContext(b, skb) && CtxSlots(skb) == 1
    ensures ReadContext(EncodeOne(b, Start(b))) == ContextOf(skb)
  {
    ReadContextInverts(b, Start(b));
  }

  /** PAY_LEN is the payload length exactly when that fits the field's 18 bits. */
  lemma PayLenExact(skb: Skb)
    ensures Field(PayLen(skb), 0, 18) == PayLen(skb) <==> PayLen(skb) < 0x4_0000
    ensures skb.isGso && skb.lenL4 + skb.lenL3 + ETH_HLEN <= Len(skb) < 0x1_0000_0000 ==>
              PayLen(skb) == Len(skb) - (skb.lenL4 + skb.lenL3 + ETH_HLEN)
  {
    SmallPowers();
    FieldBound(PayLen(skb), 0, 18);
    if PayLen(skb) < 0x4_0000 {
      FieldWhole(PayLen(skb), 18);
    }
  }
}
