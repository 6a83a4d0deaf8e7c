/** Packets as the RX hardware writes them back: one descriptor after another, each either the
    last of its packet or naming the position where the packet goes on. Packets may interleave.
    Positions are absolute: the p-th descriptor written back since the ring was started. */
module RxChains {

  /** `data` stands for the bytes the hardware has put in the buffer of that descriptor. */
  datatype WriteBack = WriteBack(eop: bool, err: bool, next: nat, len: nat, data: nat)

  type History = seq<WriteBack>

  /** What the driver relies on: links go forward, and no two of them meet. */
  ghost predicate WellLinked(h: History)
  {
    && (forall p :: 0 <= p < |h| && !h[p].eop ==> p < h[p].next)
    && (forall p, q :: 0 <= p < q < |h| && !h[p].eop && !h[q].eop ==> h[p].next != h[q].next)
  }

  /** The chain that goes on at p has been written back up to its end. */
  predicate Complete(h: History, p: nat)
    decreases |h| - p
  {
    p < |h| && (h[p].eop || (p < h[p].next && Complete(h, h[p].next)))
  }

  /** The positions of the chain that goes on at p, as far as it has been written back. */
  function Members(h: History, p: nat): (r: seq<nat>)
    ensures r != [] <==> p < |h|
    ensures r != [] ==> r[0] == p
    decreases |h| - p
  {
    if p >= |h| then []
    else if h[p].eop || h[p].next <= p then [p]
    else [p] + Members(h, h[p].next)
  }

  predicate AnyError(h: History, p: nat)
    decreases |h| - p
  {
    p < |h| && (h[p].err || (!h[p].eop && p < h[p].next && AnyError(h, h[p].next)))
  }

  /** Descriptor q goes on at p. */
  predicate Links(h: History, q: nat, p: nat)
  {
    q < p && q < |h| && !h[q].eop && h[q].next == p
  }

  ghost predicate IsHead(h: History, p: nat)
  {
    forall q :: 0 <= q < p ==> !Links(h, q, p)
  }

  /** The first position of the packet that p belongs to. */
  ghost function Head(h: History, p: nat): (r: nat)
    ensures r <= p && IsHead(h, r)
  {
    if IsHead(h, p) then p
    else
      var q :| 0 <= q < p && Links(h, q, p);
      Head(h, q)
  }

  lemma HeadOfLink(h: History, q: nat, p: nat)
    requires WellLinked(h) && Links(h, q, p)
    ensures Head(h, p) == Head(h, q)
  {
    assert forall r :: 0 <= r < p && Links(h, r, p) ==> r == q;
  }

  /** Every member of a chain belongs to the packet of its first member. */
  lemma {:induction false} MembersShareHead(h: History, p: nat, q: nat)
    requires WellLinked(h) && q in Members(h, p)
    ensures p <= q < |h| && Head(h, q) == Head(h, p)
    decreases |h| - p
  {
    if q != p {
      assert Links(h, p, h[p].next);
      MembersShareHead(h, h[p].next, q);
      HeadOfLink(h, p, h[p].next);
    }
  }

  /** A chain contains the position its member links to. */
  lemma {:induction false} MembersFollowLinks(h: History, p: nat, q: nat)
    requires WellLinked(h) && q < |h| && q in Members(h, p) && !h[q].eop && h[q].next < |h|
    ensures h[q].next in Members(h, p)
    decreases |h| - p
  {
    if q == p {
      assert Members(h, h[p].next)[0] == h[p].next;
    } else {
      MembersFollowLinks(h, h[p].next, q);
    }
  }

  lemma {:induction false} MemberOfItsHead(h: History, q: nat)
    requires WellLinked(h) && q < |h|
    ensures q in Members(h, Head(h, q))
    decreases q
  {
    if IsHead(h, q) {
      assert Members(h, q)[0] == q;
    } else {
      var r :| 0 <= r < q && Links(h, r, q);
      HeadOfLink(h, r, q);
      MemberOfItsHead(h, r);
      MembersFollowLinks(h, Head(h, r), r);
    }
  }

  /** Every written-back descriptor belongs to exactly one packet: the chains of the head
      positions cover all positions and do not meet. */
  lemma ExactlyOnePacket(h: History, p: nat, q: nat)
    requires WellLinked(h) && q < |h| && IsHead(h, p)
    ensures q in Members(h, p) <==> Head(h, q) == p
  {
    MemberOfItsHead(h, q);
    if q in Members(h, p) {
      MembersShareHead(h, p, q);
    }
  }

  // ---------------------------------------------------------------- growing history

  /** What is known of a complete packet does not change when more is written back. */
  lemma {:induction false} CompleteIsStable(h: History, g: History, p: nat)
    requires h <= g && Complete(h, p)
    ensures Complete(g, p) && Members(g, p) == Members(h, p) && AnyError(g, p) == AnyError(h, p)
    decreases |h| - p
  {
    if !h[p].eop {
      CompleteIsStable(h, g, h[p].next);
    }
  }

  lemma {:induction false} ErrorIsStable(h: History, g: History, p: nat)
    requires h <= g && AnyError(h, p)
    ensures AnyError(g, p)
    decreases |h| - p
  {
    if !h[p].err {
      ErrorIsStable(h, g, h[p].next);
    }
  }

  lemma {:induction false} HeadIsStable(h: History, g: History, p: nat)
    requires WellLinked(g) && h <= g && p <= |h|
    ensures Head(g, p) == Head(h, p) && (IsHead(g, p) <==> IsHead(h, p))
    decreases p
  {
    assert forall q :: 0 <= q < p ==> Links(g, q, p) == Links(h, q, p);
    if !IsHead(h, p) {
      var q :| 0 <= q < p && Links(h, q, p);
      HeadOfLink(g, q, p);
      HeadOfLink(h, q, p);
      HeadIsStable(h, g, q);
    }
  }

  /** A complete packet ends inside the history, so what is written back next is not part of it. */
  lemma {:induction false} CompleteMembersClosed(h: History, p: nat, q: nat)
    requires Complete(h, p) && q in Members(h, p)
    ensures q < |h| && (h[q].eop || h[q].next in Members(h, p))
    decreases |h| - p
  {
    if !h[p].eop {
      if q == p {
        assert Members(h, h[p].next)[0] == h[p].next;
      } else {
        CompleteMembersClosed(h, h[p].next, q);
      }
    }
  }

  // ---------------------------------------------------------------- what must be delivered

  datatype Piece = Piece(data: nat, len: nat)

  function PiecesOf(h: History, ps: seq<nat>): (r: seq<Piece>)
    requires forall p :: p in ps ==> p < |h|
    ensures |r| == |ps|
  {
    seq(|ps|, i requires 0 <= i < |ps| => assert ps[i] in ps; Piece(h[ps[i]].data, h[ps[i]].len))
  }

  lemma {:induction false} MembersInside(h: History, p: nat)
    ensures forall q :: q in Members(h, p) ==> p <= q < |h|
    decreases |h| - p
  {
    if p < |h| && !h[p].eop && p < h[p].next {
      MembersInside(h, h[p].next);
    }
  }

  function PacketAt(h: History, p: nat): seq<Piece>
  {
    MembersInside(h, p);
    PiecesOf(h, Members(h, p))
  }

  /** The packets whose head is before position n, in the order of their heads, without those
      that hold an error. */
  ghost function Delivered(h: History, n: nat): seq<seq<Piece>>
  {
    if n == 0 then [] else Delivered(h, n - 1) + DeliveredAt(h, n - 1)
  }

  ghost function DeliveredAt(h: History, p: nat): seq<seq<Piece>>
  {
    if IsHead(h, p) && !AnyError(h, p) then [PacketAt(h, p)] else []
  }

  ghost function Errors(h: History, n: nat): nat
  {
    if n == 0 then 0 else Errors(h, n - 1) + ErrorsAt(h, n - 1)
  }

  ghost function ErrorsAt(h: History, p: nat): nat
  {
    if IsHead(h, p) && AnyError(h, p) then 1 else 0
  }

  /** All packets whose head is before n are complete. */
  ghost predicate CompleteUpTo(h: History, n: nat)
  {
    forall p :: 0 <= p < n && IsHead(h, p) ==> Complete(h, p)
  }

  lemma PacketIsStable(h: History, g: History, p: nat)
    requires h <= g && Complete(h, p)
    ensures PacketAt(g, p) == PacketAt(h, p)
  {
    CompleteIsStable(h, g, p);
    MembersInside(h, p);
    assert forall i :: 0 <= i < |Members(h, p)| ==> Members(h, p)[i] in Members(h, p);
  }

  lemma OutcomeIsStable(h: History, g: History, p: nat)
    requires WellLinked(g) && h <= g && p < |h| && (IsHead(h, p) ==> Complete(h, p))
    ensures DeliveredAt(g, p) == DeliveredAt(h, p) && ErrorsAt(g, p) == ErrorsAt(h, p)
    ensures IsHead(g, p) ==> Complete(g, p)
  {
    HeadIsStable(h, g, p);
    if IsHead(h, p) {
      CompleteIsStable(h, g, p);
      PacketIsStable(h, g, p);
    }
  }

  lemma CompletenessIsStable(h: History, g: History, n: nat)
    requires WellLinked(g) && h <= g && n <= |h| && CompleteUpTo(h, n)
    ensures CompleteUpTo(g, n)
  {
    forall p | 0 <= p < n && IsHead(g, p)
      ensures Complete(g, p)
    {
      OutcomeIsStable(h, g, p);
    }
  }

  lemma {:induction false} SameOutcomes(h: History, g: History, n: nat)
    requires forall p :: 0 <= p < n ==> DeliveredAt(g, p) == DeliveredAt(h, p)
    requires forall p :: 0 <= p < n ==> ErrorsAt(g, p) == ErrorsAt(h, p)
    ensures Delivered(g, n) == Delivered(h, n) && Errors(g, n) == Errors(h, n)
    decreases n
  {
    if n > 0 {
      SameOutcomes(h, g, n - 1);
    }
  }

  lemma DeliveredIsStable(h: History, g: History, n: nat)
    requires WellLinked(g) && h <= g && n <= |h| && CompleteUpTo(h, n)
    ensures Delivered(g, n) == Delivered(h, n) && Errors(g, n) == Errors(h, n)
  {
    forall p | 0 <= p < n
      ensures DeliveredAt(g, p) == DeliveredAt(h, p) && ErrorsAt(g, p) == ErrorsAt(h, p)
    {
      OutcomeIsStable(h, g, p);
    }
    SameOutcomes(h, g, n);
  }

  /** Where cleaning gets to: the first head whose packet is not complete. */
  ghost function StopAt(h: History, p: nat): (r: nat)
    ensures p <= |h| ==> p <= r <= |h|
    decreases |h| - p
  {
    if p >= |h| || (IsHead(h, p) && !Complete(h, p)) then p else StopAt(h, p + 1)
  }

  lemma {:induction false} StopFromAnywhere(h: History, p: nat, q: nat)
    requires p <= q <= StopAt(h, p)
    ensures StopAt(h, q) == StopAt(h, p)
    decreases q - p
  {
    if p < q {
      StopFromAnywhere(h, p + 1, q);
    }
  }
}
