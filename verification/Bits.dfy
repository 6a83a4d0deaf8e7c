/** Bitwise operators on unbounded naturals, and reading a bit field out of a word.
    Every operator is defined one bit at a time, so its laws need no arithmetic
    beyond division by two. */
module Bits {

  function Pow2(n: nat): (r: nat)
    ensures r > 0
  {
    if n == 0 then 1 else 2 * Pow2(n - 1)
  }

  function Or(a: nat, b: nat): nat
  {
    if a == 0 then b
    else if b == 0 then a
    else (if a % 2 == 1 || b % 2 == 1 then 1 else 0) + 2 * Or(a / 2, b / 2)
  }

  /** The C expression a & ~m. */
  function AndNot(a: nat, m: nat): nat
  {
    if a == 0 then 0
    else (if m % 2 == 1 then 0 else a % 2) + 2 * AndNot(a / 2, m / 2)
  }

  function And(a: nat, b: nat): nat
  {
    if a == 0 || b == 0 then 0
    else (if a % 2 == 1 && b % 2 == 1 then 1 else 0) + 2 * And(a / 2, b / 2)
  }

  function Shl(v: nat, k: nat): nat
  {
    if k == 0 then v else 2 * Shl(v, k - 1)
  }

  /** The n bits of w that start at bit lo. */
  function Field(w: nat, lo: nat, n: nat): nat
    decreases lo, n, w
  {
    if lo > 0 then Field(w / 2, lo - 1, n)
    else if n == 0 then 0
    else w % 2 + 2 * Field(w / 2, 0, n - 1)
  }

  lemma OrHalves(a: nat, b: nat)
    ensures Or(a, b) / 2 == Or(a / 2, b / 2)
    ensures Or(a, b) % 2 == if a % 2 == 1 || b % 2 == 1 then 1 else 0
  {}

  lemma AndNotHalves(a: nat, m: nat)
    ensures AndNot(a, m) / 2 == AndNot(a / 2, m / 2)
    ensures AndNot(a, m) % 2 == if m % 2 == 1 then 0 else a % 2
  {}

  lemma FieldHalves(w: nat, n: nat)
    requires n > 0
    ensures Field(w, 0, n) / 2 == Field(w / 2, 0, n - 1) && Field(w, 0, n) % 2 == w % 2
  {}

  lemma SameHalves(x: nat, y: nat)
    requires x / 2 == y / 2 && x % 2 == y % 2
    ensures x == y
  {}

  lemma {:induction false} FieldOr(a: nat, b: nat, lo: nat, n: nat)
    ensures Field(Or(a, b), lo, n) == Or(Field(a, lo, n), Field(b, lo, n))
    decreases lo, n
  {
    OrHalves(a, b);
    if lo > 0 {
      FieldOr(a / 2, b / 2, lo - 1, n);
    } else if n > 0 {
      FieldOr(a / 2, b / 2, 0, n - 1);
      FieldHalves(a, n);
      FieldHalves(b, n);
      FieldHalves(Or(a, b), n);
      OrHalves(Field(a, 0, n), Field(b, 0, n));
      SameHalves(Field(Or(a, b), 0, n), Or(Field(a, 0, n), Field(b, 0, n)));
    }
  }

  lemma {:induction false} FieldAndNot(a: nat, m: nat, lo: nat, n: nat)
    ensures Field(AndNot(a, m), lo, n) == AndNot(Field(a, lo, n), Field(m, lo, n))
    decreases lo, n
  {
    AndNotHalves(a, m);
    if lo > 0 {
      FieldAndNot(a / 2, m / 2, lo - 1, n);
    } else if n > 0 {
      FieldAndNot(a / 2, m / 2, 0, n - 1);
      FieldHalves(a, n);
      FieldHalves(m, n);
      FieldHalves(AndNot(a, m), n);
      AndNotHalves(Field(a, 0, n), Field(m, 0, n));
      SameHalves(Field(AndNot(a, m), 0, n), AndNot(Field(a, 0, n), Field(m, 0, n)));
    }
  }

  lemma {:induction false} FieldZero(lo: nat, n: nat)
    ensures Field(0, lo, n) == 0
    decreases lo, n
  {
    if lo > 0 {
      FieldZero(lo - 1, n);
    } else if n > 0 {
      FieldZero(0, n - 1);
    }
  }

  lemma OrZero(a: nat)
    ensures Or(a, 0) == a && Or(0, a) == a
  {}

  /** A shifted value has nothing below its shift. */
  lemma {:induction false} FieldBelow(v: nat, k: nat, lo: nat, n: nat)
    requires lo + n <= k
    ensures Field(Shl(v, k), lo, n) == 0
    decreases lo, n
  {
    if lo > 0 {
      FieldBelow(v, k - 1, lo - 1, n);
    } else if n > 0 {
      FieldBelow(v, k - 1, 0, n - 1);
    }
  }

  /** A shifted value read from at or above its shift is the value itself, shifted back. */
  lemma {:induction false} FieldShl(v: nat, k: nat, lo: nat, n: nat)
    requires k <= lo
    ensures Field(Shl(v, k), lo, n) == Field(v, lo - k, n)
    decreases k
  {
    if k > 0 {
      FieldShl(v, k - 1, lo - 1, n);
    }
  }

  /** A value of w bits has nothing above bit w. */
  lemma {:induction false} FieldAbove(v: nat, w: nat, lo: nat, n: nat)
    requires v < Pow2(w) && w <= lo
    ensures Field(v, lo, n) == 0
    decreases w
  {
    if w == 0 {
      FieldZero(lo, n);
    } else {
      FieldAbove(v / 2, w - 1, lo - 1, n);
    }
  }

  /** A value that fits in n bits is its own low field. */
  lemma {:induction false} FieldWhole(v: nat, n: nat)
    requires v < Pow2(n)
    ensures Field(v, 0, n) == v
    decreases n
  {
    if n > 0 {
      FieldWhole(v / 2, n - 1);
    }
  }

  lemma {:induction false} FieldBound(w: nat, lo: nat, n: nat)
    ensures Field(w, lo, n) < Pow2(n)
    decreases lo, n
  {
    if lo > 0 {
      FieldBound(w / 2, lo - 1, n);
    } else if n > 0 {
      FieldBound(w / 2, 0, n - 1);
    }
  }

  /** What a w-bit value shifted to bit k contributes to the field [lo, lo + n):
      itself when the field is exactly its place, nothing when they are apart. */
  lemma FieldOfShl(v: nat, w: nat, k: nat, lo: nat, n: nat)
    requires v < Pow2(w)
    ensures lo + n <= k || k + w <= lo ==> Field(Shl(v, k), lo, n) == 0
    ensures lo == k && n >= w ==> Field(Shl(v, k), lo, n) == v
  {
    if lo + n <= k {
      FieldBelow(v, k, lo, n);
    } else if k <= lo {
      FieldShl(v, k, lo, n);
      if k + w <= lo {
        FieldAbove(v, w, lo - k, n);
      } else if lo == k && n >= w {
        PowMonotone(w, n);
        FieldWhole(v, n);
      }
    }
  }

  lemma {:induction false} ShlTimes(v: nat, k: nat)
    ensures Shl(v, k) == v * Pow2(k)
  {
    if k > 0 {
      ShlTimes(v, k - 1);
      assert v * (2 * Pow2(k - 1)) == 2 * (v * Pow2(k - 1));
    }
  }

  lemma {:induction false} PowMonotone(a: nat, b: nat)
    requires a <= b
    ensures Pow2(a) <= Pow2(b)
    decreases b
  {
    if a < b {
      PowMonotone(a, b - 1);
    }
  }

  lemma {:induction false} ShlBound(v: nat, w: nat, k: nat)
    requires v < Pow2(w)
    ensures Shl(v, k) < Pow2(w + k)
    decreases k
  {
    if k > 0 {
      ShlBound(v, w, k - 1);
    }
  }

  /** The read-modify-write of one field: (w & ~mask) | (v << lo), with the mask of n bits at lo. */
  function Put(w: nat, lo: nat, n: nat, v: nat): nat
  {
    Or(AndNot(w, Shl(Pow2(n) - 1, lo)), Shl(v, lo))
  }

  lemma {:induction false} AndNotOnes(x: nat, n: nat)
    requires x < Pow2(n)
    ensures AndNot(x, Pow2(n) - 1) == 0
    decreases n
  {
    if n > 0 {
      var m := Pow2(n) - 1;
      assert m == 1 + 2 * (Pow2(n - 1) - 1);
      assert m % 2 == 1 && m / 2 == Pow2(n - 1) - 1;
      AndNotOnes(x / 2, n - 1);
    }
  }

  lemma {:induction false} AndNotZero(x: nat)
    ensures AndNot(x, 0) == x
  {
    if x > 0 {
      AndNotZero(x / 2);
    }
  }

  /** A field reads back what was put there, and every field apart from it is untouched. */
  lemma FieldPut(w: nat, lo: nat, n: nat, v: nat, p: nat, q: nat)
    requires v < Pow2(n)
    ensures p == lo && q == n ==> Field(Put(w, lo, n, v), p, q) == v
    ensures p + q <= lo || lo + n <= p ==> Field(Put(w, lo, n, v), p, q) == Field(w, p, q)
  {
    var mask := Pow2(n) - 1;
    FieldOr(AndNot(w, Shl(mask, lo)), Shl(v, lo), p, q);
    FieldAndNot(w, Shl(mask, lo), p, q);
    FieldOfShl(mask, n, lo, p, q);
    FieldOfShl(v, n, lo, p, q);
    FieldBound(w, p, q);
    AndNotZero(Field(w, p, q));
    if p == lo && q == n {
      AndNotOnes(Field(w, p, q), n);
    }
  }

  /** The value v, of w bits, shifted to bit k. */
  datatype Part = Part(v: nat, w: nat, k: nat)

  /** The word left by OR-ing the parts in, one after the other. */
  function Pack(parts: seq<Part>): nat
  {
    if parts == [] then 0
    else Or(Pack(parts[..|parts| - 1]), Shl(parts[|parts| - 1].v, parts[|parts| - 1].k))
  }

  /** A part that leaves the field [lo, lo + n) alone. */
  predicate Apart(p: Part, lo: nat, n: nat)
  {
    p.v == 0 || lo + n <= p.k || p.k + p.w <= lo
  }

  /** A part that does not stop the field [lo, lo + n) from reading v. */
  predicate Tolerates(p: Part, lo: nat, n: nat, v: nat)
  {
    p.v < Pow2(p.w) && (Apart(p, lo, n) || (p.k == lo && p.w <= n && p.v == v))
  }

  lemma {:induction false} OrSame(a: nat)
    ensures Or(a, a) == a
  {
    if a > 0 {
      OrSame(a / 2);
    }
  }

  lemma {:induction false} ShlOfZero(k: nat)
    ensures Shl(0, k) == 0
  {
    if k > 0 {
      ShlOfZero(k - 1);
    }
  }

  /** A field of a packed word, when every part is either clear of it or is exactly v there. */
  lemma {:induction false} FieldPack(parts: seq<Part>, lo: nat, n: nat, v: nat)
    requires forall j :: 0 <= j < |parts| ==> Tolerates(parts[j], lo, n, v)
    ensures Field(Pack(parts), lo, n) ==
            if exists j :: 0 <= j < |parts| && !Apart(parts[j], lo, n) then v else 0
  {
    if parts == [] {
      FieldZero(lo, n);
    } else {
      var init, p := parts[..|parts| - 1], parts[|parts| - 1];
      assert Tolerates(p, lo, n, v);
      FieldPack(init, lo, n, v);
      FieldOr(Pack(init), Shl(p.v, p.k), lo, n);
      FieldOfShl(p.v, p.w, p.k, lo, n);
      OrSame(v);
      if p.v == 0 {
        ShlOfZero(p.k);
        FieldZero(lo, n);
      }
      assert forall j :: 0 <= j < |init| ==> init[j] == parts[j];
      if Apart(p, lo, n) {
        assert forall j :: 0 <= j < |parts| && !Apart(parts[j], lo, n) ==> j < |init| && !Apart(init[j], lo, n);
      }
    }
  }

  /** The field at a part's own place reads that part, when all other parts tolerate it. */
  lemma PackedField(parts: seq<Part>, i: nat)
    requires i < |parts|
    requires forall j :: 0 <= j < |parts| ==> Tolerates(parts[j], parts[i].k, parts[i].w, parts[i].v)
    ensures Field(Pack(parts), parts[i].k, parts[i].w) == parts[i].v
  {
    FieldPack(parts, parts[i].k, parts[i].w, parts[i].v);
  }

  /** A field that lies across the boundary between a low word and the high word above it. */
  lemma {:induction false} FieldStraddle(v: nat, k: nat, lo: nat, n: nat)
    requires lo < k < lo + n
    ensures Field(Shl(v, k), lo, n) == Shl(Field(v, 0, lo + n - k), k - lo)
    decreases lo, n
  {
    if lo > 0 {
      FieldStraddle(v, k - 1, lo - 1, n);
    } else if k == 1 {
    } else {
      FieldStraddle(v, k - 1, 0, n - 1);
    }
  }

  /** Masking a shifted value with n ones at its place keeps its low n bits. */
  lemma {:induction false} MaskShifted(v: nat, n: nat, k: nat)
    ensures And(Shl(Pow2(n) - 1, k), Shl(v, k)) == Shl(Field(v, 0, n), k)
    decreases k, n
  {
    if k > 0 {
      MaskShifted(v, n, k - 1);
      AndZeroIff(Shl(Pow2(n) - 1, k - 1), Shl(v, k - 1));
    } else if n > 0 {
      var m := Pow2(n) - 1;
      assert m == 1 + 2 * (Pow2(n - 1) - 1);
      assert m % 2 == 1 && m / 2 == Pow2(n - 1) - 1;
      MaskShifted(v / 2, n - 1, 0);
      FieldZero(0, n);
    }
  }

  lemma AndZeroIff(a: nat, b: nat)
    ensures And(2 * a, 2 * b) == 2 * And(a, b)
  {}
}
