/** The RX rings of a device, each with its pages: what one ring posts misses what the skbs of
    another hold. */
module RxRings {
  import opened Wrappers
  import opened Ring
  import opened RxChains
  import opened RxProtocol
  import opened RxSafety
  import opened RxDelivery
  import Pages = RxPages

  // ---------------------------------------------------------------- the pages that a step uses

  /** No page has come into use. */
  ghost predicate UsesNoMore(s: Pages.State, t: Pages.State)
  {
    t.bytes == s.bytes && forall p :: Pages.RefCount(t, p) > 0 ==> Pages.RefCount(s, p) > 0
  }

  lemma TakeUsesNoMore(ps: Pages.State, i: nat, lo: nat, hi: nat)
    requires Pages.Inv(ps) && Usable(ps, i)
    ensures UsesNoMore(ps, Pages.Take(ps, i, lo, hi))
  {
    Pages.PageOfSlotInUse(ps, i);
  }

  lemma {:induction false} TakeRestUsesNoMore(ps: Pages.State, ring: seq<RxSlot>, path: seq<nat>)
    requires Pages.Inv(ps) && AllUsable(ps, ring, path)
    requires forall k :: 0 <= k < |path| ==> ring[path[k]].len <= RX_FRAME_MAX
    ensures UsesNoMore(ps, TakeRest(ps, ring, path))
    decreases |path|
  {
    if path != [] {
      var i := path[0];
      TakeOne(ps, ring, path);
      var off := ps.slots[i].value.off;
      Pages.TakeKeepsInv(ps, i, off, off + ring[i].len);
      TakeUsesNoMore(ps, i, off, off + ring[i].len);
      assert forall k :: 0 <= k < |path[1..]| ==> path[1..][k] == path[k + 1];
      TakeRestUsesNoMore(Pages.Take(ps, i, off, off + ring[i].len), ring, path[1..]);
    }
  }

  lemma TakePacketUsesNoMore(ps: Pages.State, ring: seq<RxSlot>, head: nat, path: seq<nat>, skbAlign: nat, headLen: nat)
    requires Pages.Inv(ps) && head < |ring| && Usable(ps, head) && AllUsable(ps, ring, path)
    requires ring[head].len <= RX_FRAME_MAX
    requires forall k :: 0 <= k < |path| ==> ring[path[k]].len <= RX_FRAME_MAX
    ensures UsesNoMore(ps, TakePacket(ps, ring, head, path, skbAlign, headLen))
  {
    var off, len, hdr := ps.slots[head].value.off, ring[head].len, HdrLen(ring[head].len, headLen);
    if ring[head].isEop && len + skbAlign <= RX_FRAME_MAX {
      TakeUsesNoMore(ps, head, off, off + RX_FRAME_MAX);
    } else {
      var qs := TakeHead(ps, head, len, hdr);
      if len > hdr {
        TakeUsesNoMore(ps, head, off + hdr, off + len);
      }
      TakeHeadKeeps(ps, head, len, hdr);
      TakeRestKeeps(ps, qs, ring, path);
      TakeRestUsesNoMore(qs, ring, path);
    }
  }

  lemma TurnUsesNoMore(s: State, ps: Pages.State, alloc: bool, skbAlign: nat, headLen: nat)
    requires BothInv(s, ps) && HasWork(s)
    ensures UsesNoMore(ps, TurnPages(s, ps, alloc, skbAlign, headLen))
  {
    if Delivers(s, alloc) {
      PathIsUsable(s, ps);
      TakePacketUsesNoMore(ps, s.ring, s.swHead, HeadPath(s).value, skbAlign, headLen);
    }
  }

  lemma CleanUsesNoMore(s: State, ps: Pages.State, budget: nat, alloc: nat -> bool, kernel: Kernel)
    requires BothInv(s, ps)
    ensures UsesNoMore(ps, CleanPages(s, ps, budget, alloc, kernel, 0))
  {
    var inv := (u, us) => BothInv(u, us) && UsesNoMore(ps, us);
    forall u, us, a, h | inv(u, us) && HasWork(u)
      ensures inv(CleanOne(u, a), TurnPages(u, us, a, kernel.skbAlign, h))
    {
      TurnKeepsLink(u, us, a, kernel.skbAlign, h);
      TurnUsesNoMore(u, us, a, kernel.skbAlign, h);
    }
    forall u, us, a | inv(u, us) && HasWork(u) && !Passes(u, a)
      ensures inv(CleanOne(u, a), us)
    {
      TurnKeepsLink(u, us, a, kernel.skbAlign, 0);
      assert TurnPages(u, us, a, kernel.skbAlign, 0) == us;
    }
    CleanKeepsLink(inv, s, ps, budget, alloc, kernel, 0);
  }

  ghost predicate IsGiven(given: nat -> Option<nat>, page: nat)
  {
    exists k :: given(k) == Some(page)
  }

  /** Only pages that the allocator has given have come into use. */
  ghost predicate UsesOnly(s: Pages.State, t: Pages.State, given: nat -> Option<nat>)
  {
    && t.bytes == s.bytes
    && forall p :: Pages.RefCount(t, p) > 0 ==> Pages.RefCount(s, p) > 0 || IsGiven(given, p)
  }

  lemma {:induction false} FillUsesOnly(ps: Pages.State, at: nat, n: nat, given: nat -> Option<nat>, k: nat)
    requires at < |ps.slots| == |ps.taken|
    ensures UsesOnly(ps, FillPages(ps, at, n, given, k), given)
    decreases n
  {
    if n > 0 {
      var qs := Pages.GetRxPages(ps, at, given(k));
      assert UsesOnly(ps, qs, given);
      if qs.slots[at].Some? {
        FillUsesOnly(qs, NextDx(|ps.slots|, at), n - 1, given, k + 1);
      }
    }
  }

  /** The pages a step may bring into use. */
  ghost predicate Brings(a: Action, page: nat)
  {
    a.RefillCall? && IsGiven(a.given, page)
  }

  lemma StepUsesOnly(s: State, ps: Pages.State, a: Action, t: State, qs: Pages.State)
    requires BothInv(s, ps) && Step(s, ps, a, t, qs)
    ensures qs.bytes == ps.bytes
    ensures forall p :: Pages.RefCount(qs, p) > 0 ==> Pages.RefCount(ps, p) > 0 || Brings(a, p)
  {
    match a
    case WrittenBack(w) =>
    case ReceiveCall =>
    case CleanCall(budget, alloc, kernel) => CleanUsesNoMore(s, ps, budget, alloc, kernel);
    case RefillCall(refillThres, given) =>
      FillUsesOnly(ps, s.swTail, AvailDx(s.size, s.swHead, s.swTail), given, 0);
    case SkbShared(k) =>
      assert Pages.CountedAt(ps, ps.regions[k].page);
      Pages.InUse(ps, ps.regions[k].page);
    case SkbReleased(k) =>
  }

  // ---------------------------------------------------------------- all rings of a device

  datatype RxHalf = RxHalf(s: State, ps: Pages.State)

  /** The pages in use of one ring overlap none in use of the other. */
  ghost predicate Clear(ps: Pages.State, qs: Pages.State)
  {
    && ps.bytes == qs.bytes
    && forall p, q :: Pages.RefCount(ps, p) > 0 && Pages.RefCount(qs, q) > 0 ==> Pages.Apart(ps.bytes, p, q)
  }

  ghost predicate AllClear(rings: seq<RxHalf>)
  {
    && (forall i :: 0 <= i < |rings| ==> BothInv(rings[i].s, rings[i].ps))
    && (forall i, j :: 0 <= i < j < |rings| ==> Clear(rings[i].ps, rings[j].ps))
  }

  /** Ring i makes a step; a page given to it overlaps none in use of any other. */
  ghost predicate DeviceStep(rings: seq<RxHalf>, i: nat, a: Action, next: seq<RxHalf>)
  {
    && i < |rings| == |next| && next == rings[i := next[i]]
    && Step(rings[i].s, rings[i].ps, a, next[i].s, next[i].ps)
    && forall p, j :: 0 <= j < |rings| && j != i && Brings(a, p) ==> Pages.Unused(rings[j].ps, p)
  }

  lemma ClearIsSymmetric(ps: Pages.State, qs: Pages.State)
    requires Clear(ps, qs)
    ensures Clear(qs, ps)
  {
    forall q, p | Pages.RefCount(qs, q) > 0 && Pages.RefCount(ps, p) > 0
      ensures Pages.Apart(qs.bytes, q, p)
    {
      assert Pages.Apart(ps.bytes, p, q);
    }
  }

  lemma StepKeepsClear(s: State, ps: Pages.State, a: Action, t: State, qs: Pages.State, other: Pages.State)
    requires BothInv(s, ps) && Step(s, ps, a, t, qs) && Clear(ps, other)
    requires forall p :: Brings(a, p) ==> Pages.Unused(other, p)
    ensures Clear(qs, other)
  {
    StepUsesOnly(s, ps, a, t, qs);
    forall p, q | Pages.RefCount(qs, p) > 0 && Pages.RefCount(other, q) > 0
      ensures Pages.Apart(ps.bytes, p, q)
    {
      if Pages.RefCount(ps, p) == 0 {
        assert Brings(a, p) && Pages.Unused(other, p);
        assert Pages.Apart(other.bytes, q, p);
      }
    }
  }

  lemma DeviceStepKeepsClear(rings: seq<RxHalf>, i: nat, a: Action, next: seq<RxHalf>)
    requires AllClear(rings) && DeviceStep(rings, i, a, next)
    ensures AllClear(next)
  {
    StepKeepsBoth(rings[i].s, rings[i].ps, a, next[i].s, next[i].ps);
    forall k, j | 0 <= k < j < |next|
      ensures Clear(next[k].ps, next[j].ps)
    {
      if k == i {
        StepKeepsClear(rings[i].s, rings[i].ps, a, next[i].s, next[i].ps, rings[j].ps);
      } else if j == i {
        ClearIsSymmetric(rings[k].ps, rings[i].ps);
        StepKeepsClear(rings[i].s, rings[i].ps, a, next[i].s, next[i].ps, rings[k].ps);
        ClearIsSymmetric(next[i].ps, rings[k].ps);
      }
    }
  }

  ghost predicate DeviceInit(rings: seq<RxHalf>)
  {
    && (forall i :: 0 <= i < |rings| ==> Init(rings[i].s, rings[i].ps))
    && (forall i, j :: 0 <= i < j < |rings| ==> rings[i].ps.bytes == rings[j].ps.bytes)
  }

  /** turns[i] says which ring makes the i-th step. */
  ghost predicate DeviceRun(states: seq<seq<RxHalf>>, turns: seq<nat>, actions: seq<Action>)
  {
    && |states| == |actions| + 1 == |turns| + 1
    && DeviceInit(states[0])
    && forall i :: 0 <= i < |actions| ==> DeviceStep(states[i], turns[i], actions[i], states[i + 1])
  }

  lemma InitIsClear(rings: seq<RxHalf>)
    requires DeviceInit(rings)
    ensures AllClear(rings)
  {
    forall i | 0 <= i < |rings|
      ensures BothInv(rings[i].s, rings[i].ps)
    {
      InitIsSafe(rings[i].s, rings[i].ps);
    }
  }

  lemma {:induction false} EveryRunIsClear(states: seq<seq<RxHalf>>, turns: seq<nat>, actions: seq<Action>)
    requires DeviceRun(states, turns, actions)
    ensures AllClear(states[|actions|])
    decreases |actions|
  {
    var n := |actions|;
    if n == 0 {
      InitIsClear(states[0]);
    } else {
      assert forall i :: 0 <= i < n - 1 ==> DeviceStep(states[i], turns[i], actions[i], states[i + 1]);
      EveryRunIsClear(states[..n], turns[..n - 1], actions[..n - 1]);
      DeviceStepKeepsClear(states[n - 1], turns[n - 1], actions[n - 1], states[n]);
    }
  }

  /** The window of slot i of one ring, as bus addresses, overlaps nothing that a live skb of the
      other ring holds, and no window of the other ring. */
  ghost predicate Misses(ps: Pages.State, i: nat, qs: Pages.State)
    requires Usable(ps, i)
  {
    var a := Addr(ps, i);
    && (forall k :: 0 <= k < |qs.regions| ==>
          var r := qs.regions[k];
          Pages.NoOverlap(a, a + RX_FRAME_MAX, r.page + r.lo, r.page + r.hi))
    && (forall j :: 0 <= j < |qs.slots| && Usable(qs, j) ==>
          Pages.NoOverlap(a, a + RX_FRAME_MAX, Addr(qs, j), Addr(qs, j) + RX_FRAME_MAX))
  }

  lemma ClearMisses(ps: Pages.State, i: nat, qs: Pages.State)
    requires Pages.Inv(ps) && Pages.Inv(qs) && Clear(ps, qs) && Usable(ps, i) && |qs.slots| > 0
    ensures Misses(ps, i, qs)
  {
    Pages.PageOfSlotInUse(ps, i);
    forall k | 0 <= k < |qs.regions|
      ensures var a, r := Addr(ps, i), qs.regions[k];
              Pages.NoOverlap(a, a + RX_FRAME_MAX, r.page + r.lo, r.page + r.hi)
    {
      assert Pages.RegionOk(qs, k, 0) && Pages.CountedAt(qs, qs.regions[k].page);
      Pages.InUse(qs, qs.regions[k].page);
      assert Pages.Apart(ps.bytes, ps.slots[i].value.page, qs.regions[k].page);
    }
    forall j | 0 <= j < |qs.slots| && Usable(qs, j)
      ensures Pages.NoOverlap(Addr(ps, i), Addr(ps, i) + RX_FRAME_MAX, Addr(qs, j), Addr(qs, j) + RX_FRAME_MAX)
    {
      Pages.PageOfSlotInUse(qs, j);
      assert Pages.Apart(ps.bytes, ps.slots[i].value.page, qs.slots[j].value.page);
    }
  }

  /** In every reachable state of the rings together, what the hardware may still write to for one
      ring misses all live skbs and all windows of every other. */
  lemma RingsKeepApart(states: seq<seq<RxHalf>>, turns: seq<nat>, actions: seq<Action>, i: nat, j: nat, p: nat)
    requires DeviceRun(states, turns, actions)
    requires i < |states[|actions|]| && j < |states[|actions|]| && i != j
    requires var s := states[|actions|][i].s; |s.hist| <= p < s.posted
    ensures var u, v := states[|actions|][i], states[|actions|][j];
            && u.s.swHead < u.s.size && u.s.done <= p < u.s.done + u.s.size
            && ReadySlot(u.s, u.ps, p) && Misses(u.ps, SlotAt(u.s, p), v.ps)
  {
    EveryRunIsClear(states, turns, actions);
    var u, v := states[|actions|][i], states[|actions|][j];
    HardwareWritesAreSafe(u.s, u.ps, p);
    if j < i {
      ClearIsSymmetric(v.ps, u.ps);
    }
    ClearMisses(u.ps, SlotAt(u.s, p), v.ps);
  }
}
