/** The RSS redirection table: 64 queue numbers of 3 bits, packed over 12 words of 16 bits. */
module Rss {
  import opened Bits

  const REDIRECTION_MAX: nat := 64
  const WORDS: nat := 12

  /** The number that entries i and up leave when they are OR-ed in at three bits each. */
  function Packed(table: seq<nat>, q: nat, i: nat): seq<Part>
    requires i <= |table| && q > 0
    decreases |table| - i
  {
    if i == |table| then [] else Packed(table, q, i + 1) + [Part(table[i] % q, 3, 3 * i)]
  }

  function Number(table: seq<nat>, q: nat, i: nat): nat
    requires i <= |table| && q > 0
  {
    Pack(Packed(table, q, i))
  }

  /** The words hold the number n, 16 bits each. */
  ghost predicate Holds(words: seq<nat>, n: nat)
  {
    forall k :: 0 <= k < |words| ==> words[k] == Field(n, 16 * k, 16)
  }

  /** Bit p of the table as the device holds it. */
  function TableBit(words: seq<nat>, p: nat): nat
    requires p / 16 < |words|
  {
    Field(words[p / 16], p % 16, 1)
  }

  /** Entry i of the table as the device reads it. */
  function Entry(words: seq<nat>, i: nat): nat
    requires (3 * i + 2) / 16 < |words|
  {
    TableBit(words, 3 * i) + 2 * TableBit(words, 3 * i + 1) + 4 * TableBit(words, 3 * i + 2)
  }

  // ---------------------------------------------------------------- fields of fields

  lemma {:induction false} FieldOfField(w: nat, lo: nat, m: nat, s: nat, n: nat)
    requires s + n <= m
    ensures Field(Field(w, lo, m), s, n) == Field(w, lo + s, n)
    decreases lo, m
  {
    if lo > 0 {
      FieldOfField(w / 2, lo - 1, m, s, n);
    } else if s > 0 {
      FieldOfField(w / 2, 0, m - 1, s - 1, n);
    } else if n > 0 {
      FieldOfField(w / 2, 0, m - 1, 0, n - 1);
    }
  }

  lemma {:induction false} FieldSplit(w: nat, lo: nat, n: nat)
    requires n > 0
    ensures Field(w, lo, n) == Field(w, lo, 1) + 2 * Field(w, lo + 1, n - 1)
    decreases lo
  {
    if lo > 0 {
      FieldSplit(w / 2, lo - 1, n);
    } else {
      assert Field(w, 0, 1) == w % 2 + 2 * Field(w / 2, 0, 0);
    }
  }

  lemma {:induction false} FieldShifted(v: nat, a: nat, s: nat, lo: nat, n: nat)
    ensures Field(Shl(v, a + s), a + lo, n) == Field(Shl(v, s), lo, n)
    decreases a
  {
    if a > 0 {
      FieldShifted(v, a - 1, s, lo, n);
    }
  }

  lemma EntryReads(words: seq<nat>, n: nat, i: nat)
    requires Holds(words, n) && (3 * i + 2) / 16 < |words|
    ensures Entry(words, i) == Field(n, 3 * i, 3)
  {
    BitReads(words, n, 3 * i);
    BitReads(words, n, 3 * i + 1);
    BitReads(words, n, 3 * i + 2);
    FieldSplit(n, 3 * i, 3);
    FieldSplit(n, 3 * i + 1, 2);
  }

  lemma BitReads(words: seq<nat>, n: nat, p: nat)
    requires Holds(words, n) && p / 16 < |words|
    ensures TableBit(words, p) == Field(n, p, 1)
  {
    FieldOfField(n, 16 * (p / 16), 16, p % 16, 1);
  }

  // ---------------------------------------------------------------- one OR

  /** The 32 bits that lie in two neighbouring words. */
  function Joined(lo: nat, hi: nat): nat
  {
    Or(lo, Shl(hi, 16))
  }

  lemma PowersUsed()
    ensures Pow2(3) == 8 && Pow2(16) == 0x1_0000
  {
    assert Pow2(8) == 0x100;
  }

  /** OR-ing into two joined words is OR-ing into each. */
  lemma JoinedFields(lo: nat, hi: nat, v: nat, s: nat)
    requires lo < 0x1_0000 && hi < 0x1_0000
    ensures Field(Or(Joined(lo, hi), Shl(v, s)), 0, 16) == Or(lo, Field(Shl(v, s), 0, 16))
    ensures Field(Or(Joined(lo, hi), Shl(v, s)), 16, 16) == Or(hi, Field(Shl(v, s), 16, 16))
  {
    PowersUsed();
    FieldOr(Joined(lo, hi), Shl(v, s), 0, 16);
    FieldOr(Joined(lo, hi), Shl(v, s), 16, 16);
    FieldOr(lo, Shl(hi, 16), 0, 16);
    FieldOr(lo, Shl(hi, 16), 16, 16);
    FieldWhole(lo, 16);
    FieldAbove(lo, 16, 16, 16);
    FieldOfShl(hi, 16, 16, 0, 16);
    FieldOfShl(hi, 16, 16, 16, 16);
    OrZero(lo);
    OrZero(hi);
  }

  /** What OR-ing v in at bit s of word k does to word j. */
  lemma WordOfOr(n: nat, v: nat, k: nat, s: nat, j: nat)
    requires v < 8 && s < 16
    ensures Field(Or(n, Shl(v, 16 * k + s)), 16 * j, 16) ==
            if j == k then Or(Field(n, 16 * j, 16), Field(Shl(v, s), 0, 16))
            else if j == k + 1 then Or(Field(n, 16 * j, 16), Field(Shl(v, s), 16, 16))
            else Field(n, 16 * j, 16)
  {
    PowersUsed();
    FieldOr(n, Shl(v, 16 * k + s), 16 * j, 16);
    if j == k {
      FieldShifted(v, 16 * k, s, 0, 16);
    } else if j == k + 1 {
      FieldShifted(v, 16 * k, s, 16, 16);
    } else {
      FieldOfShl(v, 3, 16 * k + s, 16 * j, 16);
      OrZero(Field(n, 16 * j, 16));
    }
  }

  lemma WordHolds(words: seq<nat>, n: nat, v: nat, k: nat, s: nat, j: nat)
    requires Holds(words, n) && k + 1 < |words| && v < 8 && s < 16 && j < |words|
    ensures var u := Or(Joined(words[k], words[k + 1]), Shl(v, s));
            words[k := Field(u, 0, 16)][k + 1 := Field(u, 16, 16)][j] == Field(Or(n, Shl(v, 16 * k + s)), 16 * j, 16)
  {
    PowersUsed();
    FieldBound(n, 16 * k, 16);
    FieldBound(n, 16 * (k + 1), 16);
    JoinedFields(words[k], words[k + 1], v, s);
    WordOfOr(n, v, k, s, j);
  }

  /** Words that hold n hold n | (v << (16 k + s)) once v has been OR-ed in at bit s of words k
      and k + 1. */
  lemma OrKeepsHolds(words: seq<nat>, n: nat, v: nat, k: nat, s: nat)
    requires Holds(words, n) && k + 1 < |words| && v < 8 && s < 16
    ensures var u := Or(Joined(words[k], words[k + 1]), Shl(v, s));
            Holds(words[k := Field(u, 0, 16)][k + 1 := Field(u, 16, 16)], Or(n, Shl(v, 16 * k + s)))
  {
    var u := Or(Joined(words[k], words[k + 1]), Shl(v, s));
    var words' := words[k := Field(u, 0, 16)][k + 1 := Field(u, 16, 16)];
    forall j | 0 <= j < |words|
      ensures words'[j] == Field(Or(n, Shl(v, 16 * k + s)), 16 * j, 16)
    {
      WordHolds(words, n, v, k, s, j);
    }
  }

  // ---------------------------------------------------------------- the whole table

  lemma {:induction false} PackedParts(table: seq<nat>, q: nat, i: nat)
    requires i <= |table| && q > 0
    ensures var parts := Packed(table, q, i);
            && |parts| == |table| - i
            && forall j :: 0 <= j < |parts| ==> parts[j] == Part(table[|table| - 1 - j] % q, 3, 3 * (|table| - 1 - j))
    decreases |table| - i
  {
    if i < |table| {
      PackedParts(table, q, i + 1);
    }
  }

  lemma NumberField(table: seq<nat>, q: nat, i: nat)
    requires i < |table| && 0 < q <= 8
    ensures Field(Number(table, q, 0), 3 * i, 3) == table[i] % q
  {
    PackedParts(table, q, 0);
    PowersUsed();
    var parts, j := Packed(table, q, 0), |table| - 1 - i;
    PackedField(parts, j);
  }

  lemma NumberStep(table: seq<nat>, q: nat, i: nat)
    requires i < |table| && q > 0
    ensures Number(table, q, i) == Or(Number(table, q, i + 1), Shl(table[i] % q, 3 * i))
  {
    var parts := Packed(table, q, i);
    assert parts[..|parts| - 1] == Packed(table, q, i + 1);
  }

  /** OR a value in at entry i, as 32 bits that begin at the word of its first bit. */
  method OrEntry(bitary: array<nat>, i: nat, v: nat, ghost n: nat)
    requires bitary.Length == WORDS + 1 && i < REDIRECTION_MAX && v < 8 && Holds(bitary[..], n)
    modifies bitary
    ensures Holds(bitary[..], Or(n, Shl(v, 3 * i)))
  {
    var k: nat, s: nat := i * 3 / 16, i * 3 % 16;
    ghost var words: seq<nat> := bitary[..];
    OrKeepsHolds(words, n, v, k, s);
    var u := Or(Joined(bitary[k], bitary[k + 1]), Shl(v, s));
    bitary[k], bitary[k + 1] := Field(u, 0, 16), Field(u, 16, 16);
    assert bitary[..] == words[k := Field(u, 0, 16)][k + 1 := Field(u, 16, 16)];
  }

  /** hw_atl_b0_hw_rss_set, up to the words it hands to the device; the OR of 32 bits reaches one
      word beyond the twelve. */
  method PackTable(table: seq<nat>, numRssQueues: nat) returns (bitary: array<nat>)
    requires |table| == REDIRECTION_MAX && numRssQueues <= 8
    ensures fresh(bitary) && bitary.Length == WORDS + 1
    ensures forall i :: 0 <= i < REDIRECTION_MAX ==>
              Entry(bitary[..WORDS], i) == table[i] % (if numRssQueues == 0 then 1 else numRssQueues)
    ensures bitary[WORDS] == 0
  {
    var q := if 1 > numRssQueues then 1 else numRssQueues;
    bitary := new nat[WORDS + 1](_ => 0);
    var i := |table|;
    StartHolds(bitary[..]);
    while i > 0
      invariant 0 <= i <= |table| && fresh(bitary)
      invariant Holds(bitary[..], Number(table, q, i))
    {
      i := i - 1;
      OrEntry(bitary, i, table[i] % q, Number(table, q, i + 1));
      NumberStep(table, q, i);
    }
    TableReads(table, q, bitary[..]);
  }

  lemma StartHolds(words: seq<nat>)
    requires forall k :: 0 <= k < |words| ==> words[k] == 0
    ensures Holds(words, 0)
  {
    forall k | 0 <= k < |words|
      ensures Field(0, 16 * k, 16) == 0
    {
      FieldZero(16 * k, 16);
    }
  }

  lemma TableReads(table: seq<nat>, q: nat, words: seq<nat>)
    requires |table| == REDIRECTION_MAX && 0 < q <= 8 && |words| == WORDS + 1 && Holds(words, Number(table, q, 0))
    ensures forall i :: 0 <= i < REDIRECTION_MAX ==> Entry(words[..WORDS], i) == table[i] % q
    ensures words[WORDS] == 0
  {
    forall i | 0 <= i < REDIRECTION_MAX
      ensures Entry(words[..WORDS], i) == table[i] % q
    {
      EntryReads(words[..WORDS], Number(table, q, 0), i);
      NumberField(table, q, i);
    }
    BehindTheTable(table, q);
  }

  lemma BehindTheTable(table: seq<nat>, q: nat)
    requires |table| == REDIRECTION_MAX && 0 < q <= 8
    ensures Field(Number(table, q, 0), 16 * WORDS, 16) == 0
  {
    PackedParts(table, q, 0);
    PowersUsed();
    var parts := Packed(table, q, 0);
    forall j | 0 <= j < |parts|
      ensures Apart(parts[j], 16 * WORDS, 16) && Tolerates(parts[j], 16 * WORDS, 16, 0)
    {}
    FieldPack(parts, 16 * WORDS, 16, 0);
  }

  lemma BitBound(w: nat, p: nat)
    ensures Field(w, p, 1) <= 1
  {
    FieldBound(w, p, 1);
    assert Pow2(1) == 2;
  }

  /** The limit of eight queues is exact: beyond it some table does not survive the packing. */
  lemma NoPackingBeyondEight(q: nat, words: seq<nat>)
    requires q > 8 && |words| == WORDS
    ensures Entry(words, 0) != 8 % q
  {
    BitBound(words[0], 0);
    BitBound(words[0], 1);
    BitBound(words[0], 2);
    assert 8 % q == 8;
  }

  // ---------------------------------------------------------------- the default table

  /** Entry i of aq_nic_rss_init, on 32-bit unsigned numbers. */
  function DefaultEntry(i: nat, numRssQueues: nat): nat
  {
    And(if numRssQueues == 0 then 0xFFFF_FFFF else numRssQueues - 1, i)
  }

  lemma MaskIsField(i: nat, n: nat)
    ensures And(Pow2(n) - 1, i) == Field(i, 0, n)
  {
    MaskShifted(i, n, 0);
  }

  /** aq_nic_rss_init: with one, two, four or eight queues, which is what aq_nic_cfg_start makes
      of them, the table deals the entries out to the queues in turn. */
  method RssInit(table: array<nat>, numRssQueues: nat)
    requires table.Length == REDIRECTION_MAX
    modifies table
    ensures forall i :: 0 <= i < REDIRECTION_MAX ==> table[i] == DefaultEntry(i, numRssQueues)
    ensures numRssQueues in {1, 2, 4, 8} ==> forall i :: 0 <= i < REDIRECTION_MAX ==> table[i] == i % numRssQueues
  {
    var i := table.Length;
    while i > 0
      invariant 0 <= i <= table.Length
      invariant forall k :: i <= k < table.Length ==> table[k] == DefaultEntry(k, numRssQueues)
    {
      i := i - 1;
      table[i] := DefaultEntry(i, numRssQueues);
    }
    forall k | 0 <= k < REDIRECTION_MAX && numRssQueues in {1, 2, 4, 8}
      ensures DefaultEntry(k, numRssQueues) == k % numRssQueues
    {
      DefaultDeals(k, numRssQueues);
    }
  }

  lemma FieldLow(w: nat, n: nat)
    requires n > 0
    ensures Field(w, 0, n) == w % 2 + 2 * Field(w / 2, 0, n - 1)
    ensures Field(w, 0, 0) == 0
  {}

  lemma LowTwo(i: nat)
    ensures Field(i, 0, 2) == i % 4
  {
    FieldLow(i, 2);
    FieldLow(i / 2, 1);
    FieldLow(i / 2 / 2, 1);
  }

  lemma LowThree(i: nat)
    ensures Field(i, 0, 3) == i % 8
  {
    FieldLow(i, 3);
    LowTwo(i / 2);
    TwiceMod(i);
  }

  lemma TwiceMod(i: nat)
    ensures i % 2 + 2 * (i / 2 % 4) == i % 8
  {
    var h := i / 2;
    var q := h / 4;
    assert i == 8 * q + (i % 2 + 2 * (h % 4));
  }

  lemma DefaultDeals(i: nat, n: nat)
    requires n in {1, 2, 4, 8}
    ensures DefaultEntry(i, n) == i % n
  {
    if n == 1 {
      MaskIsField(i, 0);
    } else if n == 2 {
      MaskIsField(i, 1);
      FieldLow(i, 1);
      FieldLow(i / 2, 1);
    } else if n == 4 {
      MaskIsField(i, 2);
      assert Pow2(2) == 4;
      LowTwo(i);
    } else {
      MaskIsField(i, 3);
      assert Pow2(3) == 8;
      LowThree(i);
    }
  }

  /** Three queues would not be served in turn: the second would get nothing. */
  lemma ThreeQueuesAreNotDealt(i: nat)
    ensures DefaultEntry(i, 3) != 1
  {
    assert And(2, i) == 2 * And(1, i / 2);
  }
}
