/** The clock period that the driver programs for a counter frequency and an adjustment: whole
    nanoseconds and a 32-bit binary fraction, computed in 64-bit integers. */
module PtpClock {

  newtype int64 = x: int | -0x8000_0000_0000_0000 <= x < 0x8000_0000_0000_0000
  newtype uint64 = x: int | 0 <= x < 0x1_0000_0000_0000_0000
  newtype uint32 = x: int | 0 <= x < 0x1_0000_0000

  const MAX_ADJ: int := 999999999

  // ---------------------------------------------------------------- the computation on integers

  /** The period in units of 1e-9 ns, rounded down. */
  function BaseNs(freq: nat, adj: int): nat
    requires freq > 0 && adj >= -MAX_ADJ
  {
    (adj + 1000000000) * 1000000000 / freq
  }

  /** rem / 1e9 as a 32-bit fraction, by way of two truncating divisions. */
  function Fraction(rem: nat): nat
    requires rem < 1000000000
  {
    if rem == 0 then 0
    else
      FractionOf(1000000000000000000 / rem)
  }

  function FractionOf(divisor: nat): nat
  {
    if divisor == 0 then 0 else 0x1_0000_0000 * 1000000000 / divisor
  }

  /** The period in units of 2^-32 ns. */
  function Period(freq: nat, adj: int): nat
    requires freq > 0 && adj >= -MAX_ADJ
  {
    BaseNs(freq, adj) / 1000000000 * 0x1_0000_0000 + Fraction(BaseNs(freq, adj) % 1000000000)
  }

  // ---------------------------------------------------------------- how exact it is

  lemma DivBounds(a: nat, b: nat)
    requires b > 0
    ensures a / b * b <= a < a / b * b + b
  {}

  lemma DivLess(a: nat, b: nat, k: nat)
    requires b > 0
    ensures a / b < k <==> a < k * b
  {
    DivBounds(a, b);
    if a / b < k {
      MulMono(a / b + 1, k, b);
    } else {
      MulMono(k, a / b, b);
    }
  }

  lemma DivisorRange(rem: nat)
    requires 0 < rem < 1000000000
    ensures 1000000000 < 1000000000000000000 / rem <= 1000000000000000000
  {
    DivLess(1000000000000000000, rem, 1000000001);
    DivLess(1000000000000000000, rem, 1000000000000000001);
  }

  lemma MulMono(a: int, b: int, c: int)
    requires a <= b && c >= 0
    ensures a * c <= b * c
  {}

  /** The fraction fits 32 bits. */
  lemma FractionFits(rem: nat)
    requires rem < 1000000000
    ensures Fraction(rem) < 0x1_0000_0000
  {
    if rem > 0 {
      DivisorRange(rem);
      DivLess(0x1_0000_0000 * 1000000000, 1000000000000000000 / rem, 0x1_0000_0000);
    }
  }

  /** The two divisions together are off by less than one unit down and 4.3 units up. */
  lemma FractionBounds(rem: nat)
    requires rem < 1000000000
    ensures 0x1_0000_0000 * rem - 1000000000 < Fraction(rem) * 1000000000 < 0x1_0000_0000 * (rem + 1)
  {
    if rem > 0 {
      DivisorRange(rem);
      FractionFits(rem);
      var d, n, all := 1000000000000000000 / rem, Fraction(rem), 0x1_0000_0000 * 1000000000;
      DivBounds(1000000000000000000, rem);
      DivBounds(all, d);
      FractionLower(rem, d, n);
      FractionUpper(rem, d, n);
    }
  }

  lemma FractionLower(rem: nat, d: nat, n: nat)
    requires d * rem <= 1000000000000000000
    requires 0x1_0000_0000 * 1000000000 < n * d + d && rem > 0
    ensures 0x1_0000_0000 * rem - 1000000000 < n * 1000000000
  {
    assert (n * d + d) * rem == (n + 1) * (d * rem);
    MulMono(d * rem, 1000000000000000000, n + 1);
    assert (d * rem) * (n + 1) == (n + 1) * (d * rem);
    assert 0x1_0000_0000 * 1000000000 * rem < (n * d + d) * rem by {
      MulMono(0x1_0000_0000 * 1000000000 + 1, n * d + d, rem);
    }
  }

  lemma FractionUpper(rem: nat, d: nat, n: nat)
    requires 1000000000000000000 < d * rem + rem && n * d <= 0x1_0000_0000 * 1000000000
    requires rem < 1000000000 && n < 0x1_0000_0000
    ensures n * 1000000000 < 0x1_0000_0000 * (rem + 1)
  {
    MulMono(n * d, 0x1_0000_0000 * 1000000000, rem);
    assert (n * d) * rem == n * (d * rem);
    MulMono(1000000000000000000 - rem, d * rem, n);
    assert (1000000000000000000 - rem) * n == 1000000000000000000 * n - rem * n;
    MulMono(n, 0x1_0000_0000, rem);
    assert n * (d * rem) == (d * rem) * n && rem * n == n * rem;
  }

  /** The programmed period is within six units of 2^-32 ns of the exact one,
      (adj + 1e9) / freq, for any frequency. */
  lemma PeriodIsClose(freq: nat, adj: int)
    requires freq > 0 && -MAX_ADJ <= adj
    ensures -6 * freq < Period(freq, adj) * freq - (adj + 1000000000) * 0x1_0000_0000 < 5 * freq
  {
    var base, m := BaseNs(freq, adj), adj + 1000000000;
    DivBounds(m * 1000000000, freq);
    FractionBounds(base % 1000000000);
    var v := Period(freq, adj);
    var q, r := base / 1000000000, base % 1000000000;
    assert v == q * 0x1_0000_0000 + Fraction(r) && base == q * 1000000000 + r;
    Scaled(freq, m, base, v);
  }

  lemma Scaled(freq: nat, m: nat, base: nat, v: nat)
    requires freq > 0 && base * freq <= m * 1000000000 < base * freq + freq
    requires 0x1_0000_0000 * base - 1000000000 < v * 1000000000 < 0x1_0000_0000 * (base + 1)
    ensures -6 * freq < v * freq - m * 0x1_0000_0000 < 5 * freq
  {
    var b, w := base * freq, v * freq;
    MulMono(v * 1000000000, 0x1_0000_0000 * (base + 1), freq);
    MulMono(0x1_0000_0000 * base - 1000000000, v * 1000000000, freq);
    assert v * 1000000000 * freq == 1000000000 * w;
    assert 0x1_0000_0000 * (base + 1) * freq == 0x1_0000_0000 * b + 0x1_0000_0000 * freq;
    assert (0x1_0000_0000 * base - 1000000000) * freq == 0x1_0000_0000 * b - 1000000000 * freq;
  }

  // ---------------------------------------------------------------- monotone

  lemma DivMono(a: nat, b: nat, d: nat)
    requires a <= b && d > 0
    ensures a / d <= b / d
  {
    DivLess(b, d, b / d + 1);
    DivLess(a, d, b / d + 1);
  }

  lemma DivAnti(a: nat, d: nat, e: nat)
    requires 0 < d <= e
    ensures a / e <= a / d
  {
    DivLess(a, d, a / d + 1);
    DivLess(a, e, a / d + 1);
    MulMono(d, e, a / d + 1);
    assert d * (a / d + 1) == (a / d + 1) * d && e * (a / d + 1) == (a / d + 1) * e;
  }

  lemma FractionMono(rem: nat, rem': nat)
    requires rem <= rem' < 1000000000
    ensures Fraction(rem) <= Fraction(rem')
  {
    if rem > 0 {
      DivisorRange(rem);
      DivisorRange(rem');
      DivAnti(1000000000000000000, rem, rem');
      DivAnti(0x1_0000_0000 * 1000000000, 1000000000000000000 / rem', 1000000000000000000 / rem);
    }
  }

  /** A greater adjustment never gives a shorter period. */
  lemma PeriodIsMonotone(freq: nat, adj: int, adj': int)
    requires freq > 0 && -MAX_ADJ <= adj <= adj'
    ensures Period(freq, adj) <= Period(freq, adj')
  {
    var b, b' := BaseNs(freq, adj), BaseNs(freq, adj');
    DivMono((adj + 1000000000) * 1000000000, (adj' + 1000000000) * 1000000000, freq);
    FractionFits(b % 1000000000);
    FractionFits(b' % 1000000000);
    if b / 1000000000 == b' / 1000000000 {
      FractionMono(b % 1000000000, b' % 1000000000);
    }
  }

  // ---------------------------------------------------------------- the driver's function

  lemma BaseRange(freq: nat, adj: int)
    requires freq > 0 && -MAX_ADJ <= adj <= MAX_ADJ
    ensures 0 < (adj + 1000000000) * 1000000000 < 2000000000000000000
    ensures BaseNs(freq, adj) < 2000000000000000000
  {
    DivLess((adj + 1000000000) * 1000000000, freq, 2000000000000000000);
  }

  /** hw_atl_b0_adj_params_get, in the integer types of the source: none of them overflows for
      any frequency and any adjustment that the clock admits. */
  method AdjParamsGet(freq: uint64, adj: int64) returns (ns: uint32, fns: uint32)
    requires freq > 0 && -MAX_ADJ <= adj as int <= MAX_ADJ
    ensures ns as int * 0x1_0000_0000 + fns as int == Period(freq as int, adj as int)
    ensures var off := (ns as int * 0x1_0000_0000 + fns as int) * freq as int
                       - (adj as int + 1000000000) * 0x1_0000_0000;
            -6 * freq as int < off < 5 * freq as int
  {
    PeriodIsClose(freq as int, adj as int);
    BaseRange(freq as int, adj as int);
    var baseNs: int64 := (((adj + 1000000000) * 1000000000) as uint64 / freq) as int64;
    var nsi: uint32 := (baseNs / 1000000000) as uint32;
    var nsiFrac: uint32 := 0;
    if baseNs != nsi as int64 * 1000000000 {
      var rem: int64 := baseNs - nsi as int64 * 1000000000;
      DivisorRange(rem as int);
      FractionFits(rem as int);
      var divisor: int64 := 1000000000000000000 / rem;
      nsiFrac := (0x1_0000_0000 * 1000000000 / divisor) as uint32;
    }
    ns, fns := nsi, nsiFrac;
  }
}
