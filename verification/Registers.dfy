/** The register file of the device, and the read-modify-write of one bit field. */
module Registers {
  import opened Wrappers
  import opened Bits

  /** What the 32-bit registers hold; one that was never written holds zero. */
  type Regs = map<nat, nat>

  function Read(r: Regs, addr: nat): nat
  {
    if addr in r then r[addr] else 0
  }

  /** One call of aq_hw_write_reg_bit. */
  datatype Access = Access(addr: nat, msk: nat, shift: nat, val: nat)

  function Truncate(v: nat): nat
  {
    Field(v, 0, 32)
  }

  function Write(r: Regs, a: Access): Regs
  {
    if a.msk == 0xFFFF_FFFF then r[a.addr := a.val]
    else
      var regNew := Or(AndNot(Read(r, a.addr), a.msk), Truncate(Shl(a.val, a.shift)));
      if Read(r, a.addr) != regNew then r[a.addr := regNew] else r
  }

  function Exec(r: Regs, accesses: seq<Access>): Regs
    decreases |accesses|
  {
    if accesses == [] then r
    else Write(Exec(r, accesses[..|accesses| - 1]), accesses[|accesses| - 1])
  }

  function Shr(a: nat, k: nat): nat
    decreases k
  {
    if k == 0 then a else Shr(a / 2, k - 1)
  }

  /** aq_hw_read_reg_bit. */
  function ReadBit(r: Regs, addr: nat, msk: nat, shift: nat): nat
  {
    Shr(And(Read(r, addr), msk), shift)
  }

  /** `log` holds every access there has been. */
  class AqHw {
    var regs: Regs
    ghost const start: Regs
    ghost var log: seq<Access>

    ghost predicate Valid()
      reads this
    {
      regs == Exec(start, log)
    }

    constructor (r: Regs)
      ensures Valid() && regs == r && log == []
    {
      regs, start, log := r, r, [];
    }

    /** aq_hw_write_reg_bit. */
    method WriteRegBit(addr: nat, msk: nat, shift: nat, val: nat)
      requires Valid()
      modifies this
      ensures Valid() && log == old(log) + [Access(addr, msk, shift, val)]
      ensures regs == Write(old(regs), Access(addr, msk, shift, val))
      ensures forall other :: other != addr ==> Read(regs, other) == Read(old(regs), other)
    {
      log := log + [Access(addr, msk, shift, val)];
      if msk != 0xFFFF_FFFF {
        var regOld := Read(regs, addr);
        var regNew := Or(AndNot(regOld, msk), Truncate(Shl(val, shift)));
        if regOld != regNew {
          regs := regs[addr := regNew];
        }
      } else {
        regs := regs[addr := val];
      }
    }
  }

  lemma {:induction false} ExecConcat(r: Regs, p: seq<Access>, q: seq<Access>)
    ensures Exec(r, p + q) == Exec(Exec(r, p), q)
    decreases |q|
  {
    if q == [] {
      assert p + q == p;
    } else {
      assert (p + q)[..|p + q| - 1] == p + q[..|q| - 1];
      ExecConcat(r, p, q[..|q| - 1]);
    }
  }

  // ---------------------------------------------------------------- bit fields

  /** A bit field of a register. */
  datatype Loc = Loc(addr: nat, lo: nat, width: nat)

  function Get(r: Regs, l: Loc): nat
  {
    Field(Read(r, l.addr), l.lo, l.width)
  }

  function Mask(l: Loc): nat
  {
    Shl(Pow2(l.width) - 1, l.lo)
  }

  /** A field and a value for it. */
  datatype FieldWrite = FieldWrite(loc: Loc, val: nat)

  predicate Fits(w: FieldWrite)
  {
    w.loc.lo + w.loc.width <= 32 && w.val < Pow2(w.loc.width)
  }

  function AccessOf(w: FieldWrite): Access
  {
    Access(w.loc.addr, Mask(w.loc), w.loc.lo, w.val)
  }

  function Accesses(ws: seq<FieldWrite>): (r: seq<Access>)
    ensures |r| == |ws|
    ensures forall i :: 0 <= i < |ws| ==> r[i] == AccessOf(ws[i])
  {
    seq(|ws|, i requires 0 <= i < |ws| => AccessOf(ws[i]))
  }

  predicate Disjoint(l: Loc, m: Loc)
  {
    l.addr != m.addr || l.lo + l.width <= m.lo || m.lo + m.width <= l.lo
  }

  lemma {:induction false} OnesField(w: nat, lo: nat, n: nat)
    requires lo + n <= w
    ensures Field(Pow2(w) - 1, lo, n) == Pow2(n) - 1
    decreases lo, n
  {
    if w > 0 {
      var m: nat := Pow2(w) - 1;
      assert m == 1 + 2 * (Pow2(w - 1) - 1);
      assert m % 2 == 1 && m / 2 == Pow2(w - 1) - 1;
      if lo > 0 {
        OnesField(w - 1, lo - 1, n);
      } else if n > 0 {
        OnesField(w - 1, 0, n - 1);
      }
    }
  }

  lemma {:induction false} FieldEmpty(w: nat, lo: nat)
    ensures Field(w, lo, 0) == 0
    decreases lo
  {
    if lo > 0 {
      FieldEmpty(w / 2, lo - 1);
    }
  }

  lemma Pow2Of32()
    ensures Pow2(32) == 0x1_0000_0000
  {
    assert Pow2(8) == 0x100;
    assert Pow2(16) == 0x1_0000;
    assert Pow2(24) == 0x100_0000;
  }

  /** The mask has all ones only when the field is the whole register. */
  lemma FullMask(l: Loc, m: Loc)
    requires Mask(l) == 0xFFFF_FFFF && m.lo + m.width <= 32
    ensures l.lo == 0
    ensures l.lo + l.width <= m.lo || m.lo + m.width <= l.lo ==> m.width == 0
  {
    Pow2Of32();
    var ones: nat := Pow2(l.width) - 1;
    if l.lo > 0 {
      OnesField(32, 0, 1);
      FieldBelow(ones, l.lo, 0, 1);
    }
    if l.lo + l.width <= m.lo || m.lo + m.width <= l.lo {
      OnesField(32, m.lo, m.width);
      FieldOfShl(ones, l.width, l.lo, m.lo, m.width);
    }
  }

  lemma WriteWhole(r: Regs, w: FieldWrite, m: Loc)
    requires Fits(w) && m.lo + m.width <= 32 && Mask(w.loc) == 0xFFFF_FFFF
    ensures Get(Write(r, AccessOf(w)), w.loc) == w.val
    ensures Disjoint(w.loc, m) ==> Get(Write(r, AccessOf(w)), m) == Get(r, m)
  {
    FullMask(w.loc, m);
    FieldWhole(w.val, w.loc.width);
    FieldEmpty(Read(r, w.loc.addr), m.lo);
    FieldEmpty(w.val, m.lo);
  }

  lemma FitsRegister(w: FieldWrite)
    requires Fits(w)
    ensures Truncate(Shl(w.val, w.loc.lo)) == Shl(w.val, w.loc.lo)
  {
    ShlBound(w.val, w.loc.width, w.loc.lo);
    PowMonotone(w.loc.width + w.loc.lo, 32);
    FieldWhole(Shl(w.val, w.loc.lo), 32);
  }

  lemma WritePart(r: Regs, w: FieldWrite)
    requires Fits(w) && Mask(w.loc) != 0xFFFF_FFFF
    ensures Read(Write(r, AccessOf(w)), w.loc.addr) == Put(Read(r, w.loc.addr), w.loc.lo, w.loc.width, w.val)
  {
    FitsRegister(w);
  }

  /** Writing a field, with either branch of the write, makes it read its value and leaves every
      field apart from it as it was. */
  lemma GetWrite(r: Regs, w: FieldWrite, m: Loc)
    requires Fits(w) && m.lo + m.width <= 32
    ensures Get(Write(r, AccessOf(w)), w.loc) == w.val
    ensures Disjoint(w.loc, m) ==> Get(Write(r, AccessOf(w)), m) == Get(r, m)
  {
    var l := w.loc;
    if Mask(l) == 0xFFFF_FFFF {
      WriteWhole(r, w, m);
    } else {
      WritePart(r, w);
      FieldPut(Read(r, l.addr), l.lo, l.width, w.val, l.lo, l.width);
      FieldPut(Read(r, l.addr), l.lo, l.width, w.val, m.lo, m.width);
    }
  }

  /** The value that the last of these writes gave to the field. */
  function LastWritten(ws: seq<FieldWrite>, l: Loc): Option<nat>
    decreases |ws|
  {
    if ws == [] then None
    else if ws[|ws| - 1].loc == l then Some(ws[|ws| - 1].val)
    else LastWritten(ws[..|ws| - 1], l)
  }

  lemma {:induction false} NeverWritten(ws: seq<FieldWrite>, l: Loc)
    requires forall i :: 0 <= i < |ws| ==> ws[i].loc != l
    ensures LastWritten(ws, l) == None
    decreases |ws|
  {
    if ws != [] {
      NeverWritten(ws[..|ws| - 1], l);
    }
  }

  lemma {:induction false} LastOfConcat(p: seq<FieldWrite>, q: seq<FieldWrite>, l: Loc)
    ensures LastWritten(p + q, l) == if LastWritten(q, l).Some? then LastWritten(q, l) else LastWritten(p, l)
    decreases |q|
  {
    if q == [] {
      assert p + q == p;
    } else {
      assert (p + q)[..|p + q| - 1] == p + q[..|q| - 1];
      LastOfConcat(p, q[..|q| - 1], l);
    }
  }

  /** The write is one of field l, or of a field apart from it. */
  predicate Respects(w: FieldWrite, l: Loc)
  {
    Fits(w) && (w.loc == l || Disjoint(w.loc, l))
  }

  /** After any sequence of writes to separate fields, each reads the value last written to it,
      or what it held before there was one. */
  lemma {:induction false} FieldsAreIndependent(r: Regs, ws: seq<FieldWrite>, l: Loc)
    requires l.lo + l.width <= 32
    requires forall i :: 0 <= i < |ws| ==> Respects(ws[i], l)
    ensures var last := LastWritten(ws, l);
            Get(Exec(r, Accesses(ws)), l) == if last.Some? then last.value else Get(r, l)
    decreases |ws|
  {
    if ws != [] {
      var init, w := ws[..|ws| - 1], ws[|ws| - 1];
      FieldsAreIndependent(r, init, l);
      assert Respects(w, l);
      assert Accesses(ws)[..|ws| - 1] == Accesses(init);
      GetWrite(Exec(r, Accesses(init)), w, l);
    }
  }

  lemma {:induction false} ShrAndOnes(w: nat, lo: nat, n: nat)
    ensures Shr(And(w, Shl(Pow2(n) - 1, lo)), lo) == Field(w, lo, n)
    decreases lo, n
  {
    if lo > 0 {
      var m := Shl(Pow2(n) - 1, lo - 1);
      assert And(w, 2 * m) / 2 == And(w / 2, m);
      ShrAndOnes(w / 2, lo - 1, n);
    } else if n > 0 {
      var m: nat := Pow2(n) - 1;
      assert m == 1 + 2 * (Pow2(n - 1) - 1);
      assert m % 2 == 1 && m / 2 == Pow2(n - 1) - 1;
      ShrAndOnes(w / 2, 0, n - 1);
      FieldZero(0, n);
    }
  }

  /** aq_hw_read_reg_bit reads the field. */
  lemma ReadBitReads(r: Regs, l: Loc)
    ensures ReadBit(r, l.addr, Mask(l), l.lo) == Get(r, l)
  {
    ShrAndOnes(Read(r, l.addr), l.lo, l.width);
  }
}
