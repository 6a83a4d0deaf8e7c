/** Reuse of receive pages. A slot of the RX ring owns one page and posts a window of it to the
    hardware; delivered skbs keep regions of the page alive through its reference count, and
    the driver slides the window, rewinds it or replaces the page when it refills the slot. */
module RxPages {
  import opened Wrappers

  const RX_FRAME_MAX: nat := 2 * 1024

  datatype RxPage = RxPage(page: nat, off: nat)

  /** A piece of a page that a live skb refers to. */
  datatype Region = Region(page: nat, lo: nat, hi: nat)

  /** `taken[i]` says that slot i has been handed to an skb since it was last posted. */
  datatype State = State(
    bytes: nat, slots: seq<Option<RxPage>>, taken: seq<bool>, refs: map<nat, nat>, regions: seq<Region>,
    flips: nat, losts: nat, reuses: nat)

  function RefCount(s: State, page: nat): nat
  {
    if page in s.refs then s.refs[page] else 0
  }

  function Count(rs: seq<Region>, page: nat): nat
  {
    if rs == [] then 0 else Count(rs[..|rs| - 1], page) + if rs[|rs| - 1].page == page then 1 else 0
  }

  predicate Owns(s: State, i: nat, page: nat)
  {
    i < |s.slots| && s.slots[i].Some? && s.slots[i].value.page == page
  }

  // ---------------------------------------------------------------- the steps

  /** An skb gets the bytes [lo, hi) of slot i's window. */
  function Take(s: State, i: nat, lo: nat, hi: nat): (r: State)
    requires i < |s.slots| == |s.taken| && s.slots[i].Some?
    ensures r.slots == s.slots && r.taken == s.taken[i := true]
  {
    var p := s.slots[i].value.page;
    s.(regions := s.regions + [Region(p, lo, hi)], taken := s.taken[i := true],
       refs := s.refs[p := RefCount(s, p) + 1])
  }

  /** A live region gets a second holder. */
  function Share(s: State, k: nat): State
    requires k < |s.regions|
  {
    var p := s.regions[k].page;
    s.(regions := s.regions + [s.regions[k]], refs := s.refs[p := RefCount(s, p) + 1])
  }

  /** The holder of a region lets it go. */
  function Release(s: State, k: nat): State
    requires k < |s.regions| && RefCount(s, s.regions[k].page) > 0
  {
    var p := s.regions[k].page;
    s.(regions := s.regions[..k] + s.regions[k + 1..], refs := s.refs[p := RefCount(s, p) - 1])
  }

  /** The first half of aq_get_rxpages: what becomes of the page the slot has. */
  function Reuse(s: State, i: nat): State
    requires i < |s.slots| && s.slots[i].Some?
  {
    var b := s.slots[i].value;
    if RefCount(s, b.page) > 1 then
      var off := b.off + RX_FRAME_MAX;
      if off + RX_FRAME_MAX <= s.bytes then
        s.(slots := s.slots[i := Some(RxPage(b.page, off))], flips := s.flips + 1)
      else
        s.(slots := s.slots[i := None], refs := s.refs[b.page := RefCount(s, b.page) - 1], losts := s.losts + 1)
    else
      s.(slots := s.slots[i := Some(RxPage(b.page, 0))], reuses := s.reuses + 1)
  }

  /** aq_get_rxpages; `given` is the page the allocator would give, if any. The slot ends up
      without a page exactly when the call fails. */
  function GetRxPages(s: State, i: nat, given: Option<nat>): (r: State)
    requires i < |s.slots| == |s.taken|
    ensures |r.slots| == |r.taken| == |s.slots|
  {
    var t := if s.slots[i].Some? then Reuse(s, i) else s;
    var u := t.(taken := t.taken[i := false]);
    if u.slots[i].Some? || given.None? then u
    else u.(slots := u.slots[i := Some(RxPage(given.value, 0))], refs := u.refs[given.value := 1])
  }

  // ---------------------------------------------------------------- the invariant

  /** Slots own different pages. */
  ghost predicate Separate(s: State)
  {
    forall i, j :: 0 <= i < j < |s.slots| && s.slots[i].Some? && s.slots[j].Some? ==>
      s.slots[i].value.page != s.slots[j].value.page
  }

  ghost predicate Owned(s: State, page: nat)
  {
    exists i :: Owns(s, i, page)
  }

  /** The reference count of a page counts its slot and the regions alive on it. */
  ghost predicate CountedAt(s: State, page: nat)
  {
    RefCount(s, page) == Count(s.regions, page) + if Owned(s, page) then 1 else 0
  }

  ghost predicate Counted(s: State)
  {
    forall p :: CountedAt(s, p)
  }

  /** A live region lies inside its page; it lies below the window of the slot that has the page
      when that slot is untouched, and not beyond the window otherwise. */
  ghost predicate RegionOk(s: State, k: nat, i: nat)
    requires k < |s.regions| && i < |s.slots| == |s.taken|
  {
    && s.regions[k].lo <= s.regions[k].hi <= s.bytes
    && (Owns(s, i, s.regions[k].page) ==>
          s.regions[k].hi <= s.slots[i].value.off + if s.taken[i] then RX_FRAME_MAX else 0)
  }

  ghost predicate Below(s: State)
    requires |s.taken| == |s.slots|
  {
    forall k, i :: 0 <= k < |s.regions| && 0 <= i < |s.slots| ==> RegionOk(s, k, i)
  }

  /** Two pages of this many bytes do not overlap. */
  predicate Apart(bytes: nat, p: nat, q: nat)
  {
    p + bytes <= q || q + bytes <= p
  }

  /** Pages in use do not overlap; a page is named by its bus address. */
  ghost predicate Spaced(s: State)
  {
    forall p, q :: p != q && RefCount(s, p) > 0 && RefCount(s, q) > 0 ==> Apart(s.bytes, p, q)
  }

  /** A page that the allocator may give: it overlaps none that is in use. */
  ghost predicate Unused(s: State, page: nat)
  {
    forall p :: RefCount(s, p) > 0 ==> Apart(s.bytes, p, page)
  }

  ghost predicate Inv(s: State)
  {
    && |s.taken| == |s.slots| && RX_FRAME_MAX <= s.bytes
    && Separate(s) && Counted(s) && Below(s) && Spaced(s)
    && (forall i :: 0 <= i < |s.slots| && s.slots[i].Some? ==> s.slots[i].value.off + RX_FRAME_MAX <= s.bytes)
  }

  lemma {:induction false} CountZero(rs: seq<Region>, page: nat)
    ensures Count(rs, page) == 0 <==> forall k :: 0 <= k < |rs| ==> rs[k].page != page
  {
    if rs != [] {
      var init := rs[..|rs| - 1];
      CountZero(init, page);
      assert forall k :: 0 <= k < |rs| - 1 ==> init[k] == rs[k];
    }
  }

  lemma {:induction false} CountAppend(a: seq<Region>, b: seq<Region>, page: nat)
    ensures Count(a + b, page) == Count(a, page) + Count(b, page)
    decreases |b|
  {
    if b == [] {
      assert a + b == a;
    } else {
      assert (a + b)[..|a + b| - 1] == a + b[..|b| - 1];
      CountAppend(a, b[..|b| - 1], page);
    }
  }

  lemma CountOne(r: Region, page: nat)
    ensures Count([r], page) == if r.page == page then 1 else 0
  {
    assert [r][..0] == [];
  }

  lemma CountRemove(rs: seq<Region>, k: nat, page: nat)
    requires k < |rs|
    ensures Count(rs[..k] + rs[k + 1..], page) == Count(rs, page) - if rs[k].page == page then 1 else 0
  {
    assert rs == rs[..k] + ([rs[k]] + rs[k + 1..]);
    CountAppend(rs[..k], [rs[k]] + rs[k + 1..], page);
    CountAppend([rs[k]], rs[k + 1..], page);
    CountAppend(rs[..k], rs[k + 1..], page);
    CountOne(rs[k], page);
  }

  // ---------------------------------------------------------------- every step keeps it

  lemma InUse(s: State, page: nat)
    requires CountedAt(s, page)
    ensures RefCount(s, page) > 0 <==> Owned(s, page) || exists k :: 0 <= k < |s.regions| && s.regions[k].page == page
  {
    CountZero(s.regions, page);
  }

  /** A region more on page r.page, with its reference. */
  lemma OneMoreCounted(s: State, t: State, r: Region, page: nat)
    requires CountedAt(s, page) && t.regions == s.regions + [r] && t.slots == s.slots
    requires t.refs == s.refs[r.page := RefCount(s, r.page) + 1]
    ensures CountedAt(t, page)
  {
    CountAppend(s.regions, [r], page);
    CountOne(r, page);
    assert forall i :: Owns(t, i, page) == Owns(s, i, page);
  }

  /** Pages that were not in use before are not in use now. */
  lemma StillSpaced(s: State, t: State)
    requires Spaced(s) && t.bytes == s.bytes && forall p :: RefCount(t, p) > 0 ==> RefCount(s, p) > 0
    ensures Spaced(t)
  {}

  lemma OneMoreKeepsInv(s: State, t: State, r: Region)
    requires Inv(s) && t.bytes == s.bytes && t.slots == s.slots && |t.taken| == |s.taken|
    requires t.regions == s.regions + [r] && t.refs == s.refs[r.page := RefCount(s, r.page) + 1]
    requires RefCount(s, r.page) > 0
    requires forall i :: 0 <= i < |s.taken| && s.taken[i] ==> t.taken[i]
    requires forall i :: 0 <= i < |s.slots| ==> RegionOk(t, |s.regions|, i)
    ensures Inv(t)
  {
    forall p: nat
      ensures CountedAt(t, p)
    {
      assert CountedAt(s, p);
      OneMoreCounted(s, t, r, p);
    }
    StillSpaced(s, t);
    forall k, i | 0 <= k < |t.regions| && 0 <= i < |t.slots|
      ensures RegionOk(t, k, i)
    {
      if k < |s.regions| {
        assert RegionOk(s, k, i);
      }
    }
  }

  lemma TakeKeepsInv(s: State, i: nat, lo: nat, hi: nat)
    requires Inv(s) && i < |s.slots| && s.slots[i].Some?
    requires s.slots[i].value.off <= lo <= hi <= s.slots[i].value.off + RX_FRAME_MAX
    ensures Inv(Take(s, i, lo, hi))
  {
    var r := Region(s.slots[i].value.page, lo, hi);
    assert Owns(s, i, r.page);
    assert CountedAt(s, r.page);
    OneMoreKeepsInv(s, Take(s, i, lo, hi), r);
  }

  lemma ShareKeepsInv(s: State, k: nat)
    requires Inv(s) && k < |s.regions|
    ensures Inv(Share(s, k))
  {
    var r := s.regions[k];
    assert CountedAt(s, r.page);
    InUse(s, r.page);
    forall i | 0 <= i < |s.slots|
      ensures RegionOk(Share(s, k), |s.regions|, i)
    {
      assert RegionOk(s, k, i);
    }
    OneMoreKeepsInv(s, Share(s, k), r);
  }

  lemma OneLessCounted(s: State, k: nat, page: nat)
    requires k < |s.regions| && RefCount(s, s.regions[k].page) > 0 && CountedAt(s, page)
    ensures CountedAt(Release(s, k), page)
  {
    CountRemove(s.regions, k, page);
    assert forall i :: Owns(Release(s, k), i, page) == Owns(s, i, page);
  }

  lemma ReleaseKeepsInv(s: State, k: nat)
    requires Inv(s) && k < |s.regions|
    ensures RefCount(s, s.regions[k].page) > 0 && Inv(Release(s, k))
  {
    assert CountedAt(s, s.regions[k].page);
    InUse(s, s.regions[k].page);
    var t := Release(s, k);
    forall p: nat
      ensures CountedAt(t, p)
    {
      assert CountedAt(s, p);
      OneLessCounted(s, k, p);
    }
    StillSpaced(s, t);
    forall m, i | 0 <= m < |t.regions| && 0 <= i < |t.slots|
      ensures RegionOk(t, m, i)
    {
      assert t.regions[m] == s.regions[if m < k then m else m + 1];
      assert RegionOk(s, if m < k then m else m + 1, i);
    }
  }

  /** Slot i untouched again, after the first half of its refill. */
  function Reused(s: State, i: nat): State
    requires i < |s.slots| == |s.taken| && s.slots[i].Some?
  {
    var r := Reuse(s, i);
    r.(taken := r.taken[i := false])
  }

  lemma OthersOwn(s: State, t: State, i: nat, page: nat)
    requires i < |s.slots| == |t.slots| && forall j :: 0 <= j < |s.slots| && j != i ==> t.slots[j] == s.slots[j]
    requires Owns(t, i, page) == Owns(s, i, page)
    ensures Owned(t, page) <==> Owned(s, page)
  {
    assert forall j :: Owns(t, j, page) == Owns(s, j, page);
  }

  lemma ReuseCounted(s: State, i: nat, page: nat)
    requires |s.taken| == |s.slots| && Separate(s) && CountedAt(s, page) && i < |s.slots| && s.slots[i].Some?
    ensures CountedAt(Reused(s, i), page)
  {
    var b, t := s.slots[i].value, Reused(s, i);
    if t.slots[i].Some? || page != b.page {
      OthersOwn(s, t, i, page);
    } else {
      assert Owns(s, i, b.page);
      assert forall j :: !Owns(t, j, b.page);
    }
  }

  lemma ReuseKeepsRegion(s: State, i: nat, k: nat, j: nat)
    requires Inv(s) && i < |s.slots| && s.slots[i].Some? && k < |s.regions| && j < |s.slots|
    ensures RegionOk(Reused(s, i), k, j)
  {
    assert RegionOk(s, k, j);
    if j == i && s.regions[k].page == s.slots[i].value.page {
      assert CountedAt(s, s.slots[i].value.page);
      assert Owns(s, i, s.slots[i].value.page);
      CountZero(s.regions, s.slots[i].value.page);
    }
  }

  /** The page a slot keeps, or gives up, when the slot is refilled. */
  lemma ReuseKeepsInv(s: State, i: nat)
    requires Inv(s) && i < |s.slots| && s.slots[i].Some?
    ensures Inv(Reused(s, i))
  {
    var t := Reused(s, i);
    forall p: nat
      ensures CountedAt(t, p)
    {
      assert CountedAt(s, p);
      ReuseCounted(s, i, p);
    }
    StillSpaced(s, t);
    forall k, j | 0 <= k < |t.regions| && 0 <= j < |t.slots|
      ensures RegionOk(t, k, j)
    {
      ReuseKeepsRegion(s, i, k, j);
    }
  }

  /** A slot with a new page. */
  function Renewed(s: State, i: nat, page: nat): State
    requires i < |s.slots|
  {
    s.(slots := s.slots[i := Some(RxPage(page, 0))], refs := s.refs[page := 1])
  }

  lemma FreshCounted(s: State, i: nat, page: nat, p: nat)
    requires i < |s.slots| && s.slots[i].None? && RefCount(s, page) == 0 && CountedAt(s, page) && CountedAt(s, p)
    ensures CountedAt(Renewed(s, i, page), p)
  {
    var t := Renewed(s, i, page);
    if p == page {
      assert Owns(t, i, page);
    } else {
      OthersOwn(s, t, i, p);
    }
  }

  lemma UnusedIsFree(s: State, page: nat)
    requires Unused(s, page) && s.bytes > 0
    ensures RefCount(s, page) == 0
  {
    assert RefCount(s, page) > 0 ==> Apart(s.bytes, page, page);
  }

  lemma FreshSpaced(s: State, i: nat, page: nat)
    requires i < |s.slots| && Spaced(s) && Unused(s, page)
    ensures Spaced(Renewed(s, i, page))
  {
    var t := Renewed(s, i, page);
    forall p: nat, q: nat | p != q && RefCount(t, p) > 0 && RefCount(t, q) > 0
      ensures Apart(t.bytes, p, q)
    {
      if p != page && q != page {
        assert RefCount(s, p) > 0 && RefCount(s, q) > 0;
      } else {
        assert RefCount(s, if p == page then q else p) > 0;
      }
    }
  }

  /** A new page: no live region is on it, because the allocator does not give pages in use. */
  lemma FreshKeepsInv(s: State, i: nat, page: nat)
    requires Inv(s) && i < |s.slots| && s.slots[i].None? && !s.taken[i] && Unused(s, page)
    ensures Inv(Renewed(s, i, page))
  {
    var t := Renewed(s, i, page);
    UnusedIsFree(s, page);
    assert CountedAt(s, page);
    InUse(s, page);
    FreshSpaced(s, i, page);
    forall p: nat
      ensures CountedAt(t, p)
    {
      assert CountedAt(s, p);
      FreshCounted(s, i, page, p);
    }
    forall k, j | 0 <= k < |t.regions| && 0 <= j < |t.slots|
      ensures RegionOk(t, k, j)
    {
      assert RegionOk(s, k, j);
    }
    forall j | 0 <= j < |s.slots| && s.slots[j].Some?
      ensures s.slots[j].value.page != page
    {
      assert !Owns(s, j, page);
    }
  }

  lemma EmptySlotKeepsInv(s: State, i: nat)
    requires Inv(s) && i < |s.slots| && s.slots[i].None?
    ensures Inv(s.(taken := s.taken[i := false]))
  {
    var t := s.(taken := s.taken[i := false]);
    forall p: nat
      ensures CountedAt(t, p)
    {
      assert CountedAt(s, p);
      OthersOwn(s, t, i, p);
    }
    StillSpaced(s, t);
    forall k, j | 0 <= k < |t.regions| && 0 <= j < |t.slots|
      ensures RegionOk(t, k, j)
    {
      assert RegionOk(s, k, j);
    }
  }

  /** What a slot gives up does not bring a page into use. */
  lemma ReuseUsesNoMore(s: State, i: nat, page: nat)
    requires i < |s.slots| == |s.taken| && s.slots[i].Some? && Unused(s, page)
    ensures Unused(Reused(s, i), page)
  {
    forall p | RefCount(Reused(s, i), p) > 0
      ensures Apart(s.bytes, p, page)
    {
      assert RefCount(s, p) > 0;
    }
  }

  /** aq_get_rxpages keeps the invariant, and a slot that comes out with a page is ready to be
      posted. */
  lemma GetRxPagesKeepsInv(s: State, i: nat, given: Option<nat>)
    requires Inv(s) && i < |s.slots|
    requires given.Some? ==> Unused(s, given.value)
    ensures Inv(GetRxPages(s, i, given)) && !GetRxPages(s, i, given).taken[i]
  {
    var t := s.(taken := s.taken[i := false]);
    if s.slots[i].Some? {
      ReuseKeepsInv(s, i);
      t := Reused(s, i);
      if given.Some? {
        ReuseUsesNoMore(s, i, given.value);
      }
    } else {
      EmptySlotKeepsInv(s, i);
      if given.Some? {
        assert forall p :: RefCount(t, p) == RefCount(s, p);
      }
    }
    if t.slots[i].None? && given.Some? {
      FreshKeepsInv(t, i, given.value);
    }
  }

  // ---------------------------------------------------------------- whole runs

  /** Byte ranges of bus addresses that do not overlap. */
  predicate NoOverlap(a: nat, aEnd: nat, b: nat, bEnd: nat)
  {
    aEnd <= b || bEnd <= a
  }

  /** The window of slot i, as the bus addresses that are posted for it, lies inside its page and
      overlaps neither what an skb holds nor the window of another slot. */
  ghost predicate WindowSafe(s: State, i: nat)
    requires i < |s.slots| && s.slots[i].Some?
  {
    var b := s.slots[i].value;
    var a := b.page + b.off;
    && b.off + RX_FRAME_MAX <= s.bytes
    && (forall k :: 0 <= k < |s.regions| ==>
          var r := s.regions[k];
          NoOverlap(a, a + RX_FRAME_MAX, r.page + r.lo, r.page + r.hi))
    && (forall j :: 0 <= j < |s.slots| && j != i && s.slots[j].Some? ==>
          var c := s.slots[j].value;
          NoOverlap(a, a + RX_FRAME_MAX, c.page + c.off, c.page + c.off + RX_FRAME_MAX))
  }

  lemma PageOfSlotInUse(s: State, i: nat)
    requires Inv(s) && i < |s.slots| && s.slots[i].Some?
    ensures RefCount(s, s.slots[i].value.page) > 0
  {
    assert CountedAt(s, s.slots[i].value.page);
    assert Owns(s, i, s.slots[i].value.page);
  }

  /** The window of a slot that no skb has touched is safe. */
  lemma UntouchedIsSafe(s: State, i: nat)
    requires Inv(s) && i < |s.slots| && s.slots[i].Some? && !s.taken[i]
    ensures WindowSafe(s, i)
  {
    var b := s.slots[i].value;
    PageOfSlotInUse(s, i);
    forall k | 0 <= k < |s.regions|
      ensures var r := s.regions[k];
              NoOverlap(b.page + b.off, b.page + b.off + RX_FRAME_MAX, r.page + r.lo, r.page + r.hi)
    {
      assert RegionOk(s, k, i) && CountedAt(s, s.regions[k].page);
      InUse(s, s.regions[k].page);
      assert s.regions[k].page != b.page ==> Apart(s.bytes, s.regions[k].page, b.page);
    }
    forall j | 0 <= j < |s.slots| && j != i && s.slots[j].Some?
      ensures var c := s.slots[j].value;
              NoOverlap(b.page + b.off, b.page + b.off + RX_FRAME_MAX, c.page + c.off, c.page + c.off + RX_FRAME_MAX)
    {
      PageOfSlotInUse(s, j);
      assert Apart(s.bytes, s.slots[j].value.page, b.page);
    }
  }

  datatype Action =
    | Delivered(i: nat, lo: nat, hi: nat)
    | Shared(k: nat)
    | Released(k: nat)
    | Refilled(i: nat, given: Option<nat>)

  ghost predicate Step(s: State, a: Action, t: State)
  {
    match a
    case Delivered(i, lo, hi) =>
      && i < |s.slots| == |s.taken| && s.slots[i].Some?
      && s.slots[i].value.off <= lo <= hi <= s.slots[i].value.off + RX_FRAME_MAX
      && t == Take(s, i, lo, hi)
    case Shared(k) => k < |s.regions| && t == Share(s, k)
    case Released(k) => k < |s.regions| && RefCount(s, s.regions[k].page) > 0 && t == Release(s, k)
    case Refilled(i, given) =>
      && i < |s.slots| == |s.taken|
      && (given.Some? ==> Unused(s, given.value))
      && t == GetRxPages(s, i, given)
  }

  ghost predicate Init(s: State)
  {
    && |s.taken| == |s.slots| && RX_FRAME_MAX <= s.bytes
    && (forall i :: 0 <= i < |s.slots| ==> s.slots[i].None?)
    && s.refs == map[] && s.regions == []
  }

  ghost predicate Run(states: seq<State>, actions: seq<Action>)
  {
    && |states| == |actions| + 1
    && Init(states[0])
    && forall i :: 0 <= i < |actions| ==> Step(states[i], actions[i], states[i + 1])
  }

  lemma StepKeepsInv(s: State, a: Action, t: State)
    requires Inv(s) && Step(s, a, t)
    ensures Inv(t)
  {
    match a
    case Delivered(i, lo, hi) => TakeKeepsInv(s, i, lo, hi);
    case Shared(k) => ShareKeepsInv(s, k);
    case Released(k) => ReleaseKeepsInv(s, k);
    case Refilled(i, given) => GetRxPagesKeepsInv(s, i, given);
  }

  lemma {:induction false} EveryRunIsSafe(states: seq<State>, actions: seq<Action>)
    requires Run(states, actions)
    ensures Inv(states[|actions|])
    decreases |actions|
  {
    var n := |actions|;
    if n > 0 {
      EveryRunIsSafe(states[..n], actions[..n - 1]);
      StepKeepsInv(states[n - 1], actions[n - 1], states[n]);
    }
  }

  /** In every reachable state, whatever the order of deliveries, releases and refills: each
      window that is posted, or ready to be, lies inside its page and overlaps neither a live
      region nor another window. */
  lemma PostedWindowsAreSafe(states: seq<State>, actions: seq<Action>, i: nat)
    requires Run(states, actions)
    requires i < |states[|actions|].slots|
    requires states[|actions|].slots[i].Some?
    ensures i < |states[|actions|].taken|
    ensures !states[|actions|].taken[i] ==> WindowSafe(states[|actions|], i)
  {
    EveryRunIsSafe(states, actions);
    if !states[|actions|].taken[i] {
      UntouchedIsSafe(states[|actions|], i);
    }
  }

  /** A page is given up exactly when somebody else holds it and its last window is used up;
      otherwise the slot keeps it, at the next window or, when the ring is its only user, at
      the first one. */
  lemma WhenPagesAreReplaced(s: State, i: nat)
    requires Inv(s) && i < |s.slots| && s.slots[i].Some?
    ensures var b := s.slots[i].value;
            var held := exists k :: 0 <= k < |s.regions| && s.regions[k].page == b.page;
            var t := Reuse(s, i);
            && (t.slots[i].None? <==> held && b.off + 2 * RX_FRAME_MAX > s.bytes)
            && (t.slots[i].Some? ==>
                  t.slots[i].value == RxPage(b.page, if held then b.off + RX_FRAME_MAX else 0))
  {
    assert CountedAt(s, s.slots[i].value.page);
    assert Owns(s, i, s.slots[i].value.page);
    CountZero(s.regions, s.slots[i].value.page);
  }
}
