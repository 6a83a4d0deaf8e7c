/** The TX ring as a protocol between the driver, which publishes packets at the tail and
    reclaims slots at the head, and the DMA engine, which moves the hardware head.
    `hist` records every slot ever published, so that safety can speak about whole runs. */
module TxProtocol {
  import opened Ring
  import opened TxBuffers

  /** A published slot together with the absolute bounds of the packet it belongs to. */
  datatype Entry = Entry(buf: TxBuff, first: nat, last: nat)

  datatype State = State(
    size: nat, swHead: nat, hwHead: nat, swTail: nat, ring: seq<TxBuff>,
    hist: seq<Entry>, reclaimed: nat, passed: nat,
    unmaps: seq<Range>, frees: seq<nat>)

  // ---------------------------------------------------------------- reclaiming

  /** The test that stops aq_ring_tx_clean in front of a packet still in flight. */
  predicate CleanBlocked(s: State)
    requires s.swHead < |s.ring|
  {
    var b := s.ring[s.swHead];
    b.isMapped && b.isSop && !b.isEop && b.eopIndex != NO_EOP &&
    !DxInRange(s.swHead, b.eopIndex, s.hwHead)
  }

  /** One turn of the loop of aq_ring_tx_clean. */
  function CleanOne(s: State): State
    requires s.swHead < |s.ring|
  {
    var b := s.ring[s.swHead];
    s.(ring := s.ring[s.swHead := b.(w0 := 0, eopIndex := NO_EOP)],
       unmaps := s.unmaps + UnmapOf(b),
       frees := s.frees + FreeOf(b),
       swHead := NextDx(s.size, s.swHead),
       reclaimed := s.reclaimed + 1)
  }

  predicate CanClean(s: State)
  {
    s.swHead < s.size == |s.ring| && s.swHead != s.hwHead && !CleanBlocked(s)
  }

  function Clean(s: State, budget: nat): State
    decreases budget
  {
    if budget == 0 || !CanClean(s) then s else Clean(CleanOne(s), budget - 1)
  }

  function UnmapOf(b: TxBuff): seq<Range>
  {
    if b.isMapped then [Range(b.w0, b.len)] else []
  }

  function FreeOf(b: TxBuff): seq<nat>
  {
    if b.isEop then [b.w1] else []
  }

  /** What reclaiming the slots of h, in order, unmaps and frees. */
  function UnmapsOf(h: seq<Entry>): seq<Range>
  {
    if |h| == 0 then [] else UnmapsOf(h[..|h| - 1]) + UnmapOf(h[|h| - 1].buf)
  }

  function FreesOf(h: seq<Entry>): seq<nat>
  {
    if |h| == 0 then [] else FreesOf(h[..|h| - 1]) + FreeOf(h[|h| - 1].buf)
  }

  // ---------------------------------------------------------------- the other two steps

  /** A run of slots that forms one packet published from slot `tail`: an optional context
      slot, then data slots of which the first names the last. A context slot alone is what
      remains when the head could not be mapped. */
  predicate PacketShape(size: nat, tail: nat, slots: seq<TxBuff>)
  {
    && 0 < |slots| < size && tail < size
    && (forall k :: 0 <= k < |slots| ==> LinkedSlot(slots, k))
    && (forall k :: 0 <= k < |slots| && slots[k].isMapped && slots[k].isSop ==>
          slots[k].eopIndex == At(size, tail, |slots| - 1))
  }

  predicate LinkedSlot(slots: seq<TxBuff>, k: nat)
    requires k < |slots|
  {
    var b := slots[k];
    if !b.isMapped then k == 0 && !b.isEop
    else (b.isEop <==> k == |slots| - 1) && (b.isSop || (k > 0 && slots[k - 1].isMapped))
  }

  function Entries(slots: seq<TxBuff>, first: nat): (r: seq<Entry>)
    ensures |r| == |slots|
  {
    seq(|slots|, k requires 0 <= k < |slots| => Entry(slots[k], first, first + |slots| - 1))
  }

  /** Transmit: the slots in front of the tail now hold a packet, and the tail is past it. */
  ghost predicate Publish(s: State, t: State, slots: seq<TxBuff>)
  {
    && PacketShape(s.size, s.swTail, slots)
    && s.swHead < s.size == |s.ring| == |t.ring|
    && |slots| <= AvailDx(s.size, s.swHead, s.swTail)
    && t == s.(ring := t.ring, swTail := At(s.size, s.swTail, |slots|),
               hist := s.hist + Entries(slots, |s.hist|))
    && (forall k :: 0 <= k < |slots| ==> t.ring[At(s.size, s.swTail, k)] == slots[k])
    && SameLive(s, t.ring)
  }

  /** The live slots of s are unchanged in ring. */
  ghost predicate SameLive(s: State, ring: seq<TxBuff>)
    requires s.swHead < s.size == |s.ring| == |ring| && s.swTail < s.size
  {
    forall i :: 0 <= i < s.size && Dist(s.size, s.swHead, i) < Dist(s.size, s.swHead, s.swTail) ==>
      ring[i] == s.ring[i]
  }

  /** The DMA engine may stop anywhere between its old head and the published tail. */
  ghost predicate HwMove(s: State, t: State)
  {
    && s.passed <= t.passed <= |s.hist|
    && s.swHead < s.size
    && s.reclaimed <= s.passed && t.passed - s.reclaimed < s.size
    && t == s.(passed := t.passed, hwHead := At(s.size, s.swHead, t.passed - s.reclaimed))
  }

  ghost predicate Reclaim(s: State, t: State, budget: nat)
  {
    t == Clean(s, budget)
  }

  // ---------------------------------------------------------------- the invariant

  /** The head, hardware head and tail are in circular order, and the live slots hold the
      last entries of the history. */
  ghost predicate Synced(s: State)
  {
    && 0 < s.size == |s.ring| && s.size <= NO_EOP
    && s.swHead < s.size && s.hwHead < s.size && s.swTail < s.size
    && s.reclaimed <= s.passed <= |s.hist|
    && s.passed - s.reclaimed == Dist(s.size, s.swHead, s.hwHead)
    && |s.hist| - s.reclaimed == Dist(s.size, s.swHead, s.swTail)
    && (forall p :: s.reclaimed <= p < |s.hist| ==> LiveAt(s, p))
  }

  /** Position p of the history is live, and its slot holds it. */
  ghost predicate LiveAt(s: State, p: nat)
  {
    && s.reclaimed <= p < |s.hist| && s.size == |s.ring| && s.swHead < s.size && p - s.reclaimed < s.size
    && s.ring[At(s.size, s.swHead, p - s.reclaimed)] == s.hist[p].buf
  }

  /** Slot p of the history has its place in a whole packet. */
  ghost predicate InPacket(h: seq<Entry>, p: nat)
    requires p < |h|
  {
    var e := h[p];
    && e.first <= p <= e.last < |h|
    && (forall q :: e.first <= q <= e.last ==> h[q].first == e.first && h[q].last == e.last)
    && (if !e.buf.isMapped then p == e.first && !e.buf.isEop
        else (e.buf.isEop <==> p == e.last) &&
             (e.buf.isSop || (p > e.first && h[p - 1].buf.isMapped)))
  }

  /** The history is tiled by whole packets, and a live first slot names its last slot. */
  ghost predicate Tiled(s: State)
    requires Synced(s)
  {
    && (forall p :: 0 <= p < |s.hist| ==> InPacket(s.hist, p))
    && (forall p :: s.reclaimed <= p < |s.hist| && s.hist[p].buf.isMapped && s.hist[p].buf.isSop ==>
          NamesLast(s, p))
  }

  ghost predicate NamesLast(s: State, p: nat)
    requires Synced(s) && p < |s.hist|
  {
    && s.reclaimed <= s.hist[p].last < |s.hist|
    && s.hist[p].buf.eopIndex == At(s.size, s.swHead, s.hist[p].last - s.reclaimed)
  }

  /** A slot whose buffer has been given back belongs to a packet the hardware has left. */
  ghost predicate ReleasedAfterEop(s: State)
    requires s.reclaimed <= |s.hist|
  {
    forall p :: 0 <= p < s.reclaimed && s.hist[p].buf.isMapped ==> s.hist[p].last < s.passed
  }

  /** The logs hold exactly the reclaimed part of the history, each slot once and in order. */
  ghost predicate ReleasedOnce(s: State)
    requires s.reclaimed <= |s.hist|
  {
    && s.unmaps == UnmapsOf(s.hist[..s.reclaimed])
    && s.frees == FreesOf(s.hist[..s.reclaimed])
  }

  ghost predicate Inv(s: State)
  {
    Synced(s) && Tiled(s) && ReleasedAfterEop(s) && ReleasedOnce(s)
  }

  lemma PublishedLiveAt(s: State, t: State, slots: seq<TxBuff>, p: nat)
    requires Synced(s) && Publish(s, t, slots) && s.reclaimed <= p < |t.hist|
    requires p < |s.hist| ==> LiveAt(s, p)
    ensures LiveAt(t, p)
  {
    LivePlusAvail(s.size, s.swHead, s.swTail);
    if p >= |s.hist| {
      assert At(s.size, s.swHead, p - s.reclaimed) == At(s.size, s.swTail, p - |s.hist|);
    }
  }

  lemma PublishKeepsSynced(s: State, t: State, slots: seq<TxBuff>)
    requires Synced(s) && Publish(s, t, slots)
    ensures Synced(t)
  {
    LivePlusAvail(s.size, s.swHead, s.swTail);
    forall p | t.reclaimed <= p < |t.hist|
      ensures LiveAt(t, p)
    {
      PublishedLiveAt(s, t, slots, p);
    }
  }

  lemma PublishedInPacket(h: seq<Entry>, size: nat, tail: nat, slots: seq<TxBuff>, p: nat)
    requires PacketShape(size, tail, slots)
    requires |h| <= p < |h| + |slots|
    ensures InPacket(h + Entries(slots, |h|), p)
  {
    assert LinkedSlot(slots, p - |h|);
  }

  lemma PublishKeepsTiled(s: State, t: State, slots: seq<TxBuff>)
    requires Synced(s) && Tiled(s) && Publish(s, t, slots) && Synced(t)
    ensures Tiled(t)
  {
    var n := |s.hist|;
    forall p | 0 <= p < |t.hist|
      ensures InPacket(t.hist, p)
    {
      if p < n {
        assert InPacket(s.hist, p);
      } else {
        PublishedInPacket(s.hist, s.size, s.swTail, slots, p);
      }
    }
    forall p | t.reclaimed <= p < |t.hist| && t.hist[p].buf.isMapped && t.hist[p].buf.isSop
      ensures NamesLast(t, p)
    {
      if p < n {
        assert InPacket(s.hist, p) && NamesLast(s, p);
      }
    }
  }

  lemma PublishKeepsInv(s: State, t: State, slots: seq<TxBuff>)
    requires Inv(s) && Publish(s, t, slots)
    ensures Inv(t)
  {
    PublishKeepsSynced(s, t, slots);
    PublishKeepsTiled(s, t, slots);
    assert t.hist[..t.reclaimed] == s.hist[..s.reclaimed];
  }

  lemma HwMoveKeepsSynced(s: State, t: State)
    requires Synced(s) && HwMove(s, t)
    ensures Synced(t)
  {
    forall p | t.reclaimed <= p < |t.hist|
      ensures LiveAt(t, p)
    {
      assert LiveAt(s, p);
    }
  }

  lemma SameHistoryTiled(s: State, t: State)
    requires Synced(s) && Tiled(s) && Synced(t)
    requires t.hist == s.hist && t.reclaimed == s.reclaimed && t.size == s.size && t.swHead == s.swHead
    ensures Tiled(t)
  {
    forall p | 0 <= p < |t.hist|
      ensures InPacket(t.hist, p)
    {
      assert InPacket(s.hist, p);
    }
    forall p | t.reclaimed <= p < |t.hist| && t.hist[p].buf.isMapped && t.hist[p].buf.isSop
      ensures NamesLast(t, p)
    {
      assert NamesLast(s, p);
    }
  }

  lemma HwMoveKeepsInv(s: State, t: State)
    requires Inv(s) && HwMove(s, t)
    ensures Inv(t)
  {
    HwMoveKeepsSynced(s, t);
    SameHistoryTiled(s, t);
  }

  lemma CleanedLiveAt(s: State, q: nat)
    requires LiveAt(s, q) && q > s.reclaimed
    ensures LiveAt(CleanOne(s), q)
  {
    NextIsAt(s.size, s.swHead, q - s.reclaimed);
  }

  lemma CleanOneKeepsSynced(s: State)
    requires Synced(s) && s.swHead != s.hwHead
    ensures Synced(CleanOne(s))
  {
    var t := CleanOne(s);
    forall q | t.reclaimed <= q < |t.hist|
      ensures LiveAt(t, q)
    {
      assert LiveAt(s, q);
      CleanedLiveAt(s, q);
    }
  }

  lemma CleanOneKeepsTiled(s: State)
    requires Synced(s) && Tiled(s) && s.swHead != s.hwHead && Synced(CleanOne(s))
    ensures Tiled(CleanOne(s))
  {
    var t := CleanOne(s);
    forall q | t.reclaimed <= q < |t.hist| && t.hist[q].buf.isMapped && t.hist[q].buf.isSop
      ensures NamesLast(t, q)
    {
      assert InPacket(s.hist, q) && NamesLast(s, q);
      NextIsAt(s.size, s.swHead, t.hist[q].last - s.reclaimed);
    }
  }

  /** The slot about to be reclaimed: the in-range test is what makes it safe. */
  lemma HeadPacketPassed(s: State)
    requires Synced(s) && Tiled(s) && ReleasedAfterEop(s) && CanClean(s)
    ensures s.reclaimed < s.passed
    ensures s.ring[s.swHead] == s.hist[s.reclaimed].buf
    ensures s.hist[s.reclaimed].buf.isMapped ==> s.hist[s.reclaimed].last < s.passed
  {
    var p := s.reclaimed;
    var e := s.hist[p];
    assert LiveAt(s, p) && At(s.size, s.swHead, 0) == s.swHead;
    assert InPacket(s.hist, p);
    if e.buf.isMapped && e.buf.isSop && !e.buf.isEop {
      assert NamesLast(s, p);
      InRangeIsBetween(s.size, s.swHead, e.buf.eopIndex, s.hwHead);
    }
  }

  lemma CleanOneLogs(s: State)
    requires s.reclaimed < |s.hist| && ReleasedOnce(s) && s.swHead < |s.ring|
    requires s.ring[s.swHead] == s.hist[s.reclaimed].buf
    ensures ReleasedOnce(CleanOne(s))
  {
    assert s.hist[..s.reclaimed + 1][..s.reclaimed] == s.hist[..s.reclaimed];
  }

  lemma CleanOneReleases(s: State)
    requires s.reclaimed < |s.hist| && ReleasedAfterEop(s) && s.swHead < |s.ring|
    requires s.hist[s.reclaimed].buf.isMapped ==> s.hist[s.reclaimed].last < s.passed
    ensures ReleasedAfterEop(CleanOne(s))
  {}

  lemma CleanOneKeepsInv(s: State)
    requires Inv(s) && CanClean(s)
    ensures Inv(CleanOne(s))
  {
    CleanOneKeepsSynced(s);
    CleanOneKeepsTiled(s);
    HeadPacketPassed(s);
    CleanOneReleases(s);
    CleanOneLogs(s);
  }

  lemma {:induction false} CleanKeepsInv(s: State, budget: nat)
    requires Inv(s)
    ensures Inv(Clean(s, budget))
    decreases budget
  {
    if budget > 0 && CanClean(s) {
      CleanOneKeepsInv(s);
      CleanKeepsInv(CleanOne(s), budget - 1);
    }
  }

  // ---------------------------------------------------------------- whole runs

  ghost predicate Init(s: State)
  {
    && 0 < s.size == |s.ring| && s.size <= NO_EOP
    && s.swHead == 0 && s.hwHead == 0 && s.swTail == 0
    && s.hist == [] && s.reclaimed == 0 && s.passed == 0 && s.unmaps == [] && s.frees == []
  }

  /** A transmit that was rolled back may have scribbled on free slots only. */
  ghost predicate Abandon(s: State, t: State)
  {
    && s.swHead < s.size == |s.ring| == |t.ring| && s.swTail < s.size
    && t == s.(ring := t.ring)
    && SameLive(s, t.ring)
  }

  lemma AbandonKeepsInv(s: State, t: State)
    requires Inv(s) && Abandon(s, t)
    ensures Inv(t)
  {
    forall p | t.reclaimed <= p < |t.hist|
      ensures LiveAt(t, p)
    {
      assert LiveAt(s, p);
    }
    SameHistoryTiled(s, t);
  }

  datatype Action = Transmit(slots: seq<TxBuff>) | Rollback | HwProgress | CleanCall(budget: nat)

  ghost predicate Step(s: State, a: Action, t: State)
  {
    match a
    case Transmit(slots) => Publish(s, t, slots)
    case Rollback => Abandon(s, t)
    case HwProgress => HwMove(s, t)
    case CleanCall(budget) => Reclaim(s, t, budget)
  }

  ghost predicate Run(states: seq<State>, actions: seq<Action>)
  {
    && |states| == |actions| + 1
    && Init(states[0])
    && forall i :: 0 <= i < |actions| ==> Step(states[i], actions[i], states[i + 1])
  }

  /** Every interleaving of transmits, hardware progress and budgeted cleaning is safe. */
  lemma {:induction false} EveryRunIsSafe(states: seq<State>, actions: seq<Action>)
    requires Run(states, actions)
    ensures Inv(states[|actions|])
    decreases |actions|
  {
    var n := |actions|;
    if n == 0 {
    } else {
      EveryRunIsSafe(states[..n], actions[..n - 1]);
      var s, t := states[n - 1], states[n];
      assert Step(s, actions[n - 1], t);
      match actions[n - 1]
      case Transmit(slots) => PublishKeepsInv(s, t, slots);
      case Rollback => AbandonKeepsInv(s, t);
      case HwProgress => HwMoveKeepsInv(s, t);
      case CleanCall(budget) => CleanKeepsInv(s, budget);
    }
  }

  lemma {:induction false} LogsOfPrefix(h: seq<Entry>, k: nat)
    requires k <= |h|
    ensures UnmapsOf(h[..k]) <= UnmapsOf(h)
    ensures FreesOf(h[..k]) <= FreesOf(h)
    decreases |h|
  {
    if k == |h| {
      assert h[..k] == h;
    } else {
      assert h[..|h| - 1][..k] == h[..k];
      LogsOfPrefix(h[..|h| - 1], k);
    }
  }

  lemma LogsSnoc(h: seq<Entry>, e: Entry)
    ensures UnmapsOf(h + [e]) == UnmapsOf(h) + UnmapOf(e.buf)
    ensures FreesOf(h + [e]) == FreesOf(h) + FreeOf(e.buf)
  {
    assert (h + [e])[..|h|] == h;
  }

  lemma {:induction false} UnmapsAppend(a: seq<Entry>, b: seq<Entry>)
    ensures UnmapsOf(a + b) == UnmapsOf(a) + UnmapsOf(b)
    decreases |b|
  {
    if b == [] {
      assert a + b == a;
    } else {
      assert (a + b)[..|a + b| - 1] == a + b[..|b| - 1];
      UnmapsAppend(a, b[..|b| - 1]);
    }
  }

  lemma {:induction false} FreesAppend(a: seq<Entry>, b: seq<Entry>)
    ensures FreesOf(a + b) == FreesOf(a) + FreesOf(b)
    decreases |b|
  {
    if b == [] {
      assert a + b == a;
    } else {
      assert (a + b)[..|a + b| - 1] == a + b[..|b| - 1];
      FreesAppend(a, b[..|b| - 1]);
    }
  }

  lemma LogsAppend(a: seq<Entry>, b: seq<Entry>)
    ensures UnmapsOf(a + b) == UnmapsOf(a) + UnmapsOf(b)
    ensures FreesOf(a + b) == FreesOf(a) + FreesOf(b)
  {
    UnmapsAppend(a, b);
    FreesAppend(a, b);
  }

  /** In every reachable state, the buffers unmapped and the skbs freed so far are an initial
      part of those published, so none is given back twice and none out of order; and each
      buffer given back belongs to a packet whose last slot the hardware has passed. */
  lemma ReleaseSafety(states: seq<State>, actions: seq<Action>)
    requires Run(states, actions)
    ensures var s := states[|actions|];
            && s.reclaimed <= s.passed <= |s.hist|
            && s.unmaps == UnmapsOf(s.hist[..s.reclaimed]) <= UnmapsOf(s.hist)
            && s.frees == FreesOf(s.hist[..s.reclaimed]) <= FreesOf(s.hist)
            && (forall p :: 0 <= p < s.reclaimed && (s.hist[p].buf.isMapped || s.hist[p].buf.isEop) ==>
                  s.hist[p].last < s.passed)
  {
    EveryRunIsSafe(states, actions);
    var s := states[|actions|];
    LogsOfPrefix(s.hist, s.reclaimed);
    forall p | 0 <= p < s.reclaimed && (s.hist[p].buf.isMapped || s.hist[p].buf.isEop)
      ensures s.hist[p].last < s.passed
    {
      assert InPacket(s.hist, p);
    }
  }

  // ---------------------------------------------------------------- where cleaning stops

  /** Cleaning waits in front of a slot exactly when it is the first slot of a packet whose
      last slot the hardware has not passed. */
  lemma BlockedIffInFlight(s: State)
    requires Inv(s) && s.swHead != s.hwHead
    ensures CleanBlocked(s) <==>
            s.hist[s.reclaimed].buf.isMapped && s.hist[s.reclaimed].buf.isSop &&
            s.hist[s.reclaimed].last >= s.passed
  {
    var p := s.reclaimed;
    var e := s.hist[p];
    assert LiveAt(s, p) && At(s.size, s.swHead, 0) == s.swHead;
    assert InPacket(s.hist, p);
    if e.buf.isMapped && e.buf.isSop {
      assert NamesLast(s, p);
      InRangeIsBetween(s.size, s.swHead, e.buf.eopIndex, s.hwHead);
    }
  }

  /** The slots that one call can reclaim with an unlimited budget. */
  ghost function Reach(s: State): nat
    requires Inv(s)
    decreases Dist(s.size, s.swHead, s.hwHead)
  {
    if !CanClean(s) then 0 else
      CleanOneKeepsInv(s);
      1 + Reach(CleanOne(s))
  }

  lemma {:induction false} CleanReaches(s: State, budget: nat)
    requires Inv(s)
    ensures Clean(s, budget).reclaimed == s.reclaimed + (if Reach(s) < budget then Reach(s) else budget)
    decreases budget
  {
    if budget > 0 && CanClean(s) {
      CleanOneKeepsInv(s);
      CleanReaches(CleanOne(s), budget - 1);
    }
  }

  /** A call that runs out of budget loses nothing: the next call goes on from there. */
  lemma {:induction false} CleanCutAnywhere(s: State, a: nat, b: nat)
    ensures Clean(Clean(s, a), b) == Clean(s, a + b)
    decreases a
  {
    if a > 0 {
      if CanClean(s) {
        CleanCutAnywhere(CleanOne(s), a - 1, b);
      }
    }
  }

  /** Once the hardware has caught up with the tail nothing is in flight, so cleaning is
      limited by its budget alone. */
  lemma {:induction false} DrainedWhenHardwareIdle(s: State)
    requires Inv(s) && s.passed == |s.hist|
    ensures Reach(s) == |s.hist| - s.reclaimed
    decreases Dist(s.size, s.swHead, s.hwHead)
  {
    if s.swHead != s.hwHead {
      assert InPacket(s.hist, s.reclaimed);
      BlockedIffInFlight(s);
      CleanOneKeepsInv(s);
      DrainedWhenHardwareIdle(CleanOne(s));
    }
  }
}
