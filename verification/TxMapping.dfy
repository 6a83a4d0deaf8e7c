/** What aq_nic_map_skb asks of the DMA layer: one mapping for the head, one for each piece of
    each fragment, any of which may be refused. `dma(k)` is the answer to its k-th request. */
module TxMapping {
  import opened Wrappers
  import opened TxPackets
  import opened TxBuffers
  import opened TxSlots
  import opened Ring

  type Dma = nat -> Option<nat>

  /** Consecutive pieces of one mapping that starts at bus address pa. */
  function Spread(pa: nat, pieces: seq<seq<byte>>): (r: seq<Range>)
    ensures |r| == |pieces|
    ensures forall k :: 0 <= k < |r| ==> r[k].len == |pieces[k]|
    decreases |pieces|
  {
    if pieces == [] then [] else [Range(pa, |pieces[0]|)] + Spread(pa + |pieces[0]|, pieces[1..])
  }

  /** The ranges mapped for fragment pieces, from request `call` on, up to the first refusal. */
  function FragMaps(dma: Dma, call: nat, pieces: seq<seq<byte>>): (r: seq<Range>)
    ensures |r| <= |pieces|
    ensures forall k :: 0 <= k < |r| ==> r[k].len == |pieces[k]|
    decreases |pieces|
  {
    if pieces == [] || dma(call).None? then []
    else [Range(dma(call).value, |pieces[0]|)] + FragMaps(dma, call + 1, pieces[1..])
  }

  predicate AllMapped(dma: Dma, call: nat, pieces: seq<seq<byte>>)
    decreases |pieces|
  {
    pieces == [] || (dma(call).Some? && AllMapped(dma, call + 1, pieces[1..]))
  }

  lemma {:induction false} AllMappedCount(dma: Dma, call: nat, pieces: seq<seq<byte>>)
    ensures AllMapped(dma, call, pieces) <==> |FragMaps(dma, call, pieces)| == |pieces|
    decreases |pieces|
  {
    if pieces != [] && dma(call).Some? {
      AllMappedCount(dma, call + 1, pieces[1..]);
    }
  }

  /** Whether the driver gets all the mappings it asks for. */
  predicate Mappable(skb: Skb, dma: Dma)
  {
    dma(0).Some? && AllMapped(dma, 1, FragPieces(skb.frags))
  }

  /** The ranges obtained from the DMA layer before the first refusal. */
  function Mapped(skb: Skb, dma: Dma): seq<Range>
  {
    if dma(0).None? then []
    else [Range(dma(0).value, |HeadBytes(skb)|)] + FragMaps(dma, 1, FragPieces(skb.frags))
  }

  /** The ranges the slots name: the same, with the head cut into its pieces. */
  function SlotRanges(skb: Skb, dma: Dma): (r: seq<Range>)
    requires dma(0).Some?
    ensures |r| > 0
  {
    Spread(dma(0).value, HeadPieces(skb)) + FragMaps(dma, 1, FragPieces(skb.frags))
  }

  /** The bus addresses of a range, in order. */
  function Addrs(r: Range): seq<nat>
  {
    seq(r.len, j requires 0 <= j < r.len => r.pa + j)
  }

  function AddrsOf(rs: seq<Range>): seq<nat>
  {
    if rs == [] then [] else Addrs(rs[0]) + AddrsOf(rs[1..])
  }

  /** What the error path gives back: it takes a zero address for an unused slot. */
  function Undo(rs: seq<Range>): seq<Range>
  {
    if rs == [] then []
    else Undo(rs[..|rs| - 1]) + if rs[|rs| - 1].pa != 0 then [rs[|rs| - 1]] else []
  }

  lemma {:induction false} AddrsAppend(a: seq<Range>, b: seq<Range>)
    ensures AddrsOf(a + b) == AddrsOf(a) + AddrsOf(b)
  {
    if a == [] {
      assert a + b == b;
    } else {
      assert (a + b)[1..] == a[1..] + b;
      AddrsAppend(a[1..], b);
    }
  }

  lemma {:induction false} SpreadAddrs(pa: nat, pieces: seq<seq<byte>>)
    ensures AddrsOf(Spread(pa, pieces)) == Addrs(Range(pa, |Concat(pieces)|))
    decreases |pieces|
  {
    if pieces != [] {
      SpreadAddrs(pa + |pieces[0]|, pieces[1..]);
      assert Spread(pa, pieces)[1..] == Spread(pa + |pieces[0]|, pieces[1..]);
    }
  }

  /** The slots name, byte for byte and in order, the addresses obtained from the DMA layer,
      although the head is mapped once and named piece by piece. */
  lemma SlotsNameMappedBytes(skb: Skb, dma: Dma)
    requires dma(0).Some?
    ensures AddrsOf(SlotRanges(skb, dma)) == AddrsOf(Mapped(skb, dma))
  {
    var pa, h, fs := dma(0).value, HeadBytes(skb), FragMaps(dma, 1, FragPieces(skb.frags));
    ChunksPartition(h);
    if h == [] {
      assert Concat(HeadPieces(skb)) == h + Concat([]);
    }
    SpreadAddrs(pa, HeadPieces(skb));
    AddrsAppend(Spread(pa, HeadPieces(skb)), fs);
    assert Mapped(skb, dma)[1..] == fs;
  }

  lemma {:induction false} UndoLength(rs: seq<Range>)
    ensures |AddrsOf(Undo(rs))| <= |AddrsOf(rs)|
    ensures (forall r :: r in rs ==> r.pa != 0 || r.len == 0) ==> AddrsOf(Undo(rs)) == AddrsOf(rs)
    ensures (exists r :: r in rs && r.pa == 0 && r.len > 0) ==> |AddrsOf(Undo(rs))| < |AddrsOf(rs)|
  {
    if rs != [] {
      var init, r := rs[..|rs| - 1], rs[|rs| - 1];
      assert rs == init + [r];
      UndoLength(init);
      AddrsAppend(init, [r]);
      AddrsAppend(Undo(init), if r.pa != 0 then [r] else []);
      assert AddrsOf([r]) == Addrs(r) + AddrsOf([]);
    }
  }

  /** The error path gives back exactly what was obtained, each byte once and in order, if and
      only if the DMA layer did not hand out bus address zero. */
  lemma RollbackExact(skb: Skb, dma: Dma)
    requires dma(0).Some?
    ensures AddrsOf(Undo(SlotRanges(skb, dma))) == AddrsOf(Mapped(skb, dma)) <==>
            forall r :: r in SlotRanges(skb, dma) ==> r.pa != 0 || r.len == 0
  {
    SlotsNameMappedBytes(skb, dma);
    UndoLength(SlotRanges(skb, dma));
  }

  function PieceSize(n: nat): nat
  {
    if n > TX_FRAME_MAX then TX_FRAME_MAX else n
  }

  lemma SpreadOne(pa: nat, s: seq<byte>)
    requires s != []
    ensures var n := PieceSize(|s|);
            Spread(pa, Chunks(s)) == [Range(pa, n)] + Spread(pa + n, Chunks(s[n..]))
  {
    if |s| <= TX_FRAME_MAX {
      assert s[|s|..] == [];
    }
  }

  /** What is left to map `off` bytes into a fragment, `later` being the pieces of those behind it. */
  ghost function LeftOver(frag: seq<byte>, off: nat, later: seq<seq<byte>>): seq<seq<byte>>
    requires off <= |frag|
  {
    Chunks(frag[off..]) + later
  }

  lemma LeftOverEnds(frag: seq<byte>, later: seq<seq<byte>>)
    ensures LeftOver(frag, 0, later) == Chunks(frag) + later
    ensures LeftOver(frag, |frag|, later) == later
  {
    assert frag[0..] == frag;
  }

  lemma NextChunk(s: seq<byte>, off: nat, later: seq<seq<byte>>)
    requires off < |s|
    ensures var rest, n := LeftOver(s, off, later), PieceSize(|s| - off);
            rest != [] && |rest[0]| == n && off + n <= |s| && rest[1..] == LeftOver(s, off + n, later)
  {
    var n := PieceSize(|s| - off);
    assert s[off..][n..] == s[off + n..];
    assert Chunks(s[off..])[1..] == Chunks(s[off + n..]);
  }

  /** Half way through the fragments: n pieces are in the ring, and mapping the pieces that
      `rest` lists from request `call` on would leave what the whole call leaves. */
  ghost predicate Midway(dma: Dma, call: nat, rest: seq<seq<byte>>, dx: nat, n: int, ring: seq<TxBuff>,
                         all: seq<seq<byte>>, at: nat, ring0: seq<TxBuff>)
    requires at < |ring0|
  {
    && |ring| == |ring0| && |all| < |ring| && 0 <= n
    && n + |rest| == |all| && dx == At(|ring|, at, n)
    && n + |FragMaps(dma, call, rest)| == |FragMaps(dma, 1, all)|
    && Fill(ring, dx, FragMaps(dma, call, rest)) == Fill(ring0, at, FragMaps(dma, 1, all))
    && AllMapped(dma, call, rest) == AllMapped(dma, 1, all)
  }

  lemma MidwayStep(dma: Dma, call: nat, rest: seq<seq<byte>>, dx: nat, n: int, ring: seq<TxBuff>,
                   all: seq<seq<byte>>, at: nat, ring0: seq<TxBuff>)
    requires at < |ring0| && Midway(dma, call, rest, dx, n, ring, all, at, ring0)
    requires rest != [] && dma(call).Some?
    ensures var next := NextDx(|ring|, dx);
            Midway(dma, call + 1, rest[1..], next, n + 1,
                   ring[next := ring[next].Piece(dma(call).value, |rest[0]|)], all, at, ring0)
  {
    NextIsAt(|ring|, at, n);
  }

  /** The first slot of the head, and what is left for the loop behind it. */
  lemma HeadRangesSplit(skb: Skb, pa: nat)
    ensures var h := HeadBytes(skb);
            var n := PieceSize(|h|);
            Spread(pa, HeadPieces(skb)) == [Range(pa, n)] + Spread(pa + n, Chunks(h[n..]))
  {
    var h := HeadBytes(skb);
    if h != [] {
      SpreadOne(pa, h);
    }
  }

  /** The head slot and, behind it, the rest of the head. */
  function HeadLaid(ring: seq<TxBuff>, first: nat, skb: Skb, pa: nat): (r: seq<TxBuff>)
    requires first < |ring|
    ensures |r| == |ring|
  {
    var head := HeadSlot(ring[first], skb, Range(pa, PieceSize(|HeadBytes(skb)|)));
    Fill(ring[first := head], first, HeadRest(skb, pa))
  }

  lemma LayInOrder(ring: seq<TxBuff>, tail: nat, c: nat, ctx: TxBuff, head: TxBuff, a: seq<Range>, b: seq<Range>)
    requires tail < |ring| && c <= 1 && c + 1 + |a| + |b| < |ring|
    ensures var first := At(|ring|, tail, c);
            var base := if c == 1 then ring[tail := ctx] else ring;
            Lay(ring, tail, c, ctx, head, a + b) == Fill(Fill(base[first := head], first, a), At(|ring|, first, |a|), b)
  {
    var first := At(|ring|, tail, c);
    FillAppend(ring[tail := ctx][first := head], first, a, b);
    assert c == 0 ==> ring[tail := ctx][first := head] == ring[first := head];
  }

  function HeadRest(skb: Skb, pa: nat): (r: seq<Range>)
    ensures |r| == |HeadPieces(skb)| - 1
  {
    HeadRangesSplit(skb, pa);
    var n := PieceSize(|HeadBytes(skb)|);
    Spread(pa + n, Chunks(HeadBytes(skb)[n..]))
  }

  lemma ConsAppend<T>(x: T, a: seq<T>, b: seq<T>)
    ensures (([x] + a) + b)[0] == x && (([x] + a) + b)[1..] == a + b
  {}

  lemma SlotRangesSplit(skb: Skb, dma: Dma)
    requires dma(0).Some?
    ensures var rs, pa := SlotRanges(skb, dma), dma(0).value;
            && rs[0] == Range(pa, PieceSize(|HeadBytes(skb)|))
            && rs[1..] == HeadRest(skb, pa) + FragMaps(dma, 1, FragPieces(skb.frags))
  {
    var pa := dma(0).value;
    HeadRangesSplit(skb, pa);
    ConsAppend(Range(pa, PieceSize(|HeadBytes(skb)|)), HeadRest(skb, pa), FragMaps(dma, 1, FragPieces(skb.frags)));
  }

  /** Context, head, rest of the head and fragments, written one after the other, are Laid. */
  lemma LaidInOrder(ring: seq<TxBuff>, tail: nat, skb: Skb, dma: Dma)
    requires dma(0).Some? && tail < |ring| && SlotsNeeded(skb) < |ring|
    ensures var first := At(|ring|, tail, CtxSlots(skb));
            var base := if CtxSlots(skb) == 1 then ring[tail := CtxSlot(ring[tail], skb)] else ring;
            Laid(ring, tail, skb, SlotRanges(skb, dma)) ==
            Fill(HeadLaid(base, first, skb, dma(0).value), At(|ring|, first, |HeadPieces(skb)| - 1),
                 FragMaps(dma, 1, FragPieces(skb.frags)))
  {
    var rs, pa := SlotRanges(skb, dma), dma(0).value;
    SlotRangesSplit(skb, dma);
    var first := At(|ring|, tail, CtxSlots(skb));
    LayInOrder(ring, tail, CtxSlots(skb), CtxSlot(ring[tail], skb), HeadSlot(ring[first], skb, rs[0]),
               HeadRest(skb, pa), FragMaps(dma, 1, FragPieces(skb.frags)));
  }

  /** The ring after a packet has been mapped in full. */
  function MappedRing(ring: seq<TxBuff>, tail: nat, skb: Skb, dma: Dma): (r: seq<TxBuff>)
    requires tail < |ring| && SlotsNeeded(skb) < |ring| && dma(0).Some?
  {
    Closed(Laid(ring, tail, skb, SlotRanges(skb, dma)), At(|ring|, tail, CtxSlots(skb)),
           At(|ring|, tail, SlotsNeeded(skb) - 1), skb.ptr)
  }

  /** What one call of aq_nic_map_skb on `ring` leaves in it and returns. A refused head leaves
      the context slot counted when there is one; a refused fragment is rolled back. */
  ghost predicate MapOutcome(ring: seq<TxBuff>, ring': seq<TxBuff>, tail: nat, skb: Skb, dma: Dma, ret: nat)
    requires tail < |ring| && SlotsNeeded(skb) < |ring|
  {
    && |ring'| == |ring|
    && if Mappable(skb, dma) then
         ret == SlotsNeeded(skb) && ring' == MappedRing(ring, tail, skb, dma)
       else if dma(0).Some? then
         ret == 0 && ring' == Laid(ring, tail, skb, SlotRanges(skb, dma))
       else
         && ret == CtxSlots(skb)
         && (ret == 1 ==> ring'[tail] == CtxSlot(ring[tail], skb))
         && (forall i :: 0 <= i < |ring| && Dist(|ring|, tail, i) > ret ==> ring'[i] == ring[i])
  }

  lemma MappedOutcome(ring: seq<TxBuff>, tail: nat, skb: Skb, dma: Dma)
    requires tail < |ring| && SlotsNeeded(skb) < |ring| && dma(0).Some? && Mappable(skb, dma)
    ensures MapOutcome(ring, MappedRing(ring, tail, skb, dma), tail, skb, dma, SlotsNeeded(skb))
  {}

  /** The mappings that the call gives back itself. */
  function UndoneBy(skb: Skb, dma: Dma): seq<Range>
  {
    if dma(0).Some? && !Mappable(skb, dma) then Undo(SlotRanges(skb, dma)) else []
  }

  lemma UndoSnoc(rs: seq<Range>, k: nat)
    requires k < |rs|
    ensures Undo(rs[..k + 1]) == Undo(rs[..k]) + if rs[k].pa != 0 then [rs[k]] else []
  {
    assert rs[..k + 1][..k] == rs[..k];
  }
}
