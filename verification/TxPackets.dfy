/** What the stack hands to transmit, and how it is cut into pieces of at most TX_FRAME_MAX
    bytes, one descriptor each. */
module TxPackets {
  import opened Wrappers

  type byte = b: int | 0 <= b < 256

  const TX_FRAME_MAX: nat := 16 * 1024
  const SKB_FRAGS_MAX: nat := 32
  const ETH_HLEN: nat := 14

  /** An skb: its linear head, its fragments, and the fields transmit reads from its headers.
      `vlan` is the tag to insert, when there is one and insertion is enabled. */
  datatype Skb = Skb(
    ptr: nat, head: seq<byte>, frags: seq<seq<byte>>,
    isGso: bool, gsoSize: nat, lenL3: nat, lenL4: nat, isIpv6: bool, vlan: Option<nat>,
    isIpCso: bool, isUdpCso: bool, isTcpCso: bool)

  /** Values that fit the fields they are stored in; an skb is GSO exactly when it has a segment
      size. */
  predicate Fits(skb: Skb)
  {
    && skb.ptr < 0x1_0000_0000_0000_0000
    && Len(skb) < 0x1_0000_0000
    && (skb.isGso <==> skb.gsoSize > 0)
    && skb.gsoSize < 0x1_0000 && skb.lenL3 < 0x100 && skb.lenL4 < 0x100
    && (skb.vlan.Some? ==> skb.vlan.value < 0x1_0000)
  }

  function Concat(ss: seq<seq<byte>>): seq<byte>
  {
    if ss == [] then [] else ss[0] + Concat(ss[1..])
  }

  function Bytes(skb: Skb): seq<byte>
  {
    skb.head + Concat(skb.frags)
  }

  function Len(skb: Skb): nat
  {
    |Bytes(skb)|
  }

  function CtxSlots(skb: Skb): nat
  {
    if skb.isGso || skb.vlan.Some? then 1 else 0
  }

  /** The part of the head that a slot's 16-bit length field can name. */
  function HeadBytes(skb: Skb): seq<byte>
  {
    skb.head[..|skb.head| % 0x1_0000]
  }

  function Chunks(s: seq<byte>): seq<seq<byte>>
    decreases |s|
  {
    if s == [] then []
    else if |s| <= TX_FRAME_MAX then [s]
    else [s[..TX_FRAME_MAX]] + Chunks(s[TX_FRAME_MAX..])
  }

  /** The head always takes a slot, even when it is empty. */
  function HeadPieces(skb: Skb): (r: seq<seq<byte>>)
    ensures |r| > 0
  {
    var h := HeadBytes(skb);
    if h == [] then [h] else Chunks(h)
  }

  function FragPieces(frags: seq<seq<byte>>): seq<seq<byte>>
  {
    if frags == [] then [] else Chunks(frags[0]) + FragPieces(frags[1..])
  }

  function Pieces(skb: Skb): seq<seq<byte>>
  {
    HeadPieces(skb) + FragPieces(skb.frags)
  }

  function SlotsNeeded(skb: Skb): nat
  {
    CtxSlots(skb) + |Pieces(skb)|
  }

  lemma {:induction false} ConcatAppend(a: seq<seq<byte>>, b: seq<seq<byte>>)
    ensures Concat(a + b) == Concat(a) + Concat(b)
  {
    if a == [] {
      assert a + b == b;
    } else {
      assert (a + b)[1..] == a[1..] + b;
      ConcatAppend(a[1..], b);
    }
  }

  lemma {:induction false} ChunksPartition(s: seq<byte>)
    ensures Concat(Chunks(s)) == s
    ensures forall p :: p in Chunks(s) ==> 0 < |p| <= TX_FRAME_MAX
    decreases |s|
  {
    if |s| > TX_FRAME_MAX {
      var rest := s[TX_FRAME_MAX..];
      ChunksPartition(rest);
      assert Chunks(s)[1..] == Chunks(rest);
      assert s == s[..TX_FRAME_MAX] + rest;
    } else if s != [] {
      assert Chunks(s)[1..] == [];
    }
  }

  lemma {:induction false} FragPiecesPartition(frags: seq<seq<byte>>)
    ensures Concat(FragPieces(frags)) == Concat(frags)
    ensures forall p :: p in FragPieces(frags) ==> 0 < |p| <= TX_FRAME_MAX
  {
    if frags != [] {
      ChunksPartition(frags[0]);
      FragPiecesPartition(frags[1..]);
      ConcatAppend(Chunks(frags[0]), FragPieces(frags[1..]));
    }
  }

  lemma {:induction false} ChunkCount(s: seq<byte>)
    ensures 16384 * |Chunks(s)| < |s| + 16384
    decreases |s|
  {
    if |s| > TX_FRAME_MAX {
      ChunkCount(s[TX_FRAME_MAX..]);
    }
  }

  lemma {:induction false} FragPieceCount(frags: seq<seq<byte>>)
    ensures 16384 * |FragPieces(frags)| <= |Concat(frags)| + 16384 * |frags|
  {
    if frags != [] {
      ChunkCount(frags[0]);
      FragPieceCount(frags[1..]);
    }
  }

  /** The pieces of a packet, in order, are its head followed by its fragments: all of it when
      the head fits a 16-bit length, and only then. */
  lemma PiecesPartitionPacket(skb: Skb)
    ensures Concat(Pieces(skb)) == HeadBytes(skb) + Concat(skb.frags)
    ensures Concat(Pieces(skb)) == Bytes(skb) <==> |skb.head| < 0x1_0000
    ensures forall p :: p in Pieces(skb) ==> |p| <= TX_FRAME_MAX
    ensures forall k :: 0 < k < |Pieces(skb)| ==> Pieces(skb)[k] != []
  {
    var h := HeadBytes(skb);
    ChunksPartition(h);
    FragPiecesPartition(skb.frags);
    ConcatAppend(HeadPieces(skb), FragPieces(skb.frags));
    if h == [] {
      assert Concat(HeadPieces(skb)) == h + Concat([]);
    }
    forall k | 0 < k < |Pieces(skb)|
      ensures Pieces(skb)[k] != []
    {
      assert Pieces(skb)[k] in Chunks(h) || Pieces(skb)[k] in FragPieces(skb.frags);
    }
    if |skb.head| < 0x1_0000 {
      assert h == skb.head;
    } else {
      assert |Concat(Pieces(skb))| < |Bytes(skb)|;
    }
  }

  /** The number of slots a packet takes, and the bound the stop threshold relies on. */
  lemma SlotBound(skb: Skb)
    requires |skb.head| < 0x1_0000
    ensures SlotsNeeded(skb) <= 1 + (|skb.frags| + 1) + Len(skb) / TX_FRAME_MAX
    ensures |skb.frags| <= 28 && Len(skb) < 0x1_0000 ==> SlotsNeeded(skb) <= SKB_FRAGS_MAX + 1
  {
    var pieces, frags, len := |Pieces(skb)|, |skb.frags|, Len(skb);
    assert 16384 * pieces <= len + 16384 * (frags + 1) by {
      ChunkCount(HeadBytes(skb));
      FragPieceCount(skb.frags);
      assert HeadBytes(skb) == skb.head;
    }
    assert pieces <= frags + 1 + len / 16384;
  }
}
