/** The interrupt map: for each of 32 RX and 32 TX rings an interrupt number and an enable bit,
    two rings of each kind to a register. */
module IrqMap {
  import opened Wrappers
  import opened Bits
  import opened Registers

  const RINGS: nat := 32

  datatype Kind = EnRx | EnTx | Rx | Tx

  // ---------------------------------------------------------------- the tables of the setters

  function ImrAdr(ring: nat): nat
  {
    0x2100 + 4 * (ring / 2)
  }

  function ImrMsk(kind: Kind, ring: nat): nat
  {
    match kind
    case EnRx => if ring % 2 == 0 then 0x0000_8000 else 0x0000_0080
    case EnTx => if ring % 2 == 0 then 0x8000_0000 else 0x0080_0000
    case Rx => if ring % 2 == 0 then 0x0000_1F00 else 0x0000_001F
    case Tx => if ring % 2 == 0 then 0x1F00_0000 else 0x001F_0000
  }

  function ImrShift(kind: Kind, ring: nat): nat
  {
    match kind
    case EnRx => if ring % 2 == 0 then 15 else 7
    case EnTx => if ring % 2 == 0 then 31 else 23
    case Rx => if ring % 2 == 0 then 8 else 0
    case Tx => if ring % 2 == 0 then 24 else 16
  }

  /** The field that a setter owns, and the write it makes. */
  function Place(kind: Kind, ring: nat): Loc
  {
    Loc(ImrAdr(ring), ImrShift(kind, ring), if kind.EnRx? || kind.EnTx? then 1 else 5)
  }

  function Setting(kind: Kind, ring: nat, val: nat): FieldWrite
  {
    FieldWrite(Place(kind, ring), val)
  }

  method IrqMapEnRxSet(hw: AqHw, irqMapEnRx: nat, rx: nat)
    requires hw.Valid() && rx < RINGS
    modifies hw
    ensures hw.Valid() && hw.log == old(hw.log) + [AccessOf(Setting(EnRx, rx, irqMapEnRx))]
  {
    MaskIsShiftedOnes(EnRx, rx);
    hw.WriteRegBit(ImrAdr(rx), ImrMsk(EnRx, rx), ImrShift(EnRx, rx), irqMapEnRx);
  }

  method IrqMapEnTxSet(hw: AqHw, irqMapEnTx: nat, tx: nat)
    requires hw.Valid() && tx < RINGS
    modifies hw
    ensures hw.Valid() && hw.log == old(hw.log) + [AccessOf(Setting(EnTx, tx, irqMapEnTx))]
  {
    MaskIsShiftedOnes(EnTx, tx);
    hw.WriteRegBit(ImrAdr(tx), ImrMsk(EnTx, tx), ImrShift(EnTx, tx), irqMapEnTx);
  }

  method IrqMapRxSet(hw: AqHw, irqMapRx: nat, rx: nat)
    requires hw.Valid() && rx < RINGS
    modifies hw
    ensures hw.Valid() && hw.log == old(hw.log) + [AccessOf(Setting(Rx, rx, irqMapRx))]
  {
    MaskIsShiftedOnes(Rx, rx);
    hw.WriteRegBit(ImrAdr(rx), ImrMsk(Rx, rx), ImrShift(Rx, rx), irqMapRx);
  }

  method IrqMapTxSet(hw: AqHw, irqMapTx: nat, tx: nat)
    requires hw.Valid() && tx < RINGS
    modifies hw
    ensures hw.Valid() && hw.log == old(hw.log) + [AccessOf(Setting(Tx, tx, irqMapTx))]
  {
    MaskIsShiftedOnes(Tx, tx);
    hw.WriteRegBit(ImrAdr(tx), ImrMsk(Tx, tx), ImrShift(Tx, tx), irqMapTx);
  }

  // ---------------------------------------------------------------- independent fields

  datatype Call = Call(kind: Kind, ring: nat, val: nat)

  predicate InRange(c: Call)
  {
    c.ring < RINGS && c.val < Pow2(Place(c.kind, c.ring).width)
  }

  function Settings(calls: seq<Call>): (r: seq<FieldWrite>)
    ensures |r| == |calls|
  {
    seq(|calls|, i requires 0 <= i < |calls| => Setting(calls[i].kind, calls[i].ring, calls[i].val))
  }

  /** The registers after a sequence of calls of the setters. */
  function Run(r: Regs, calls: seq<Call>): Regs
  {
    Exec(r, Accesses(Settings(calls)))
  }

  /** The value of the last call for this field. */
  function LastCall(calls: seq<Call>, kind: Kind, ring: nat): Option<nat>
    decreases |calls|
  {
    if calls == [] then None
    else
      var c := calls[|calls| - 1];
      if c.kind == kind && c.ring == ring then Some(c.val) else LastCall(calls[..|calls| - 1], kind, ring)
  }

  lemma MaskIsShiftedOnes(kind: Kind, ring: nat)
    ensures Mask(Place(kind, ring)) == ImrMsk(kind, ring)
  {
    assert Pow2(1) == 2 && Pow2(5) == 32;
    assert Shl(1, 15) == 0x8000 && Shl(1, 7) == 0x80;
    assert Shl(31, 8) == 0x1F00 && Shl(31, 16) == 0x1F_0000;
    assert Shl(1, 23) == 0x80_0000 && Shl(31, 24) == 0x1F00_0000;
    assert Shl(1, 31) == 0x8000_0000;
  }

  /** The tables give every setter a field of its own. */
  lemma PlacesAreDisjoint(kind: Kind, ring: nat, kind': Kind, ring': nat)
    requires kind != kind' || ring != ring'
    ensures Disjoint(Place(kind, ring), Place(kind', ring'))
  {}

  lemma {:induction false} LastCallIsLastWritten(calls: seq<Call>, kind: Kind, ring: nat)
    ensures LastWritten(Settings(calls), Place(kind, ring)) == LastCall(calls, kind, ring)
    decreases |calls|
  {
    if calls != [] {
      var init, c := calls[..|calls| - 1], calls[|calls| - 1];
      LastCallIsLastWritten(init, kind, ring);
      assert Settings(calls)[..|calls| - 1] == Settings(init);
      if c.kind != kind || c.ring != ring {
        PlacesAreDisjoint(c.kind, c.ring, kind, ring);
      }
    }
  }

  /** After any sequence of calls of the four setters, reading a ring's field gives the value
      last set for it, or what it held before there was one. */
  lemma EachKeepsItsOwn(r: Regs, calls: seq<Call>, kind: Kind, ring: nat)
    requires forall i :: 0 <= i < |calls| ==> InRange(calls[i])
    ensures var last := LastCall(calls, kind, ring);
            ReadBit(Run(r, calls), ImrAdr(ring), ImrMsk(kind, ring), ImrShift(kind, ring)) ==
            if last.Some? then last.value else Get(r, Place(kind, ring))
  {
    var ws := Settings(calls);
    forall i | 0 <= i < |ws|
      ensures Respects(ws[i], Place(kind, ring))
    {
      assert InRange(calls[i]);
      if calls[i].kind != kind || calls[i].ring != ring {
        PlacesAreDisjoint(calls[i].kind, calls[i].ring, kind, ring);
      }
    }
    FieldsAreIndependent(r, ws, Place(kind, ring));
    LastCallIsLastWritten(calls, kind, ring);
    MaskIsShiftedOnes(kind, ring);
    ReadBitReads(Run(r, calls), Place(kind, ring));
  }

  /** Everything outside the fields that are set, in whatever register, keeps its value. */
  lemma RestIsUntouched(r: Regs, calls: seq<Call>, m: Loc)
    requires forall i :: 0 <= i < |calls| ==> InRange(calls[i])
    requires 0 < m.width && m.lo + m.width <= 32
    requires forall i :: 0 <= i < |calls| ==> Disjoint(Place(calls[i].kind, calls[i].ring), m)
    ensures Get(Run(r, calls), m) == Get(r, m)
  {
    var ws := Settings(calls);
    forall i | 0 <= i < |ws|
      ensures Respects(ws[i], m) && ws[i].loc != m
    {
      assert InRange(calls[i]) && Disjoint(Place(calls[i].kind, calls[i].ring), m);
    }
    FieldsAreIndependent(r, ws, m);
    NeverWritten(ws, m);
  }
}
