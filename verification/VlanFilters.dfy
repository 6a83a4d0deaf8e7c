/** The VLAN filter as the driver keeps it: a table and a bitmap in memory, and their copy in
    the registers of the device, which accepts every VLAN while the copy is being changed. */
module VlanFilters {
  import opened Wrappers
  import opened Bits
  import opened Registers
  import opened VlanTable

  // ---------------------------------------------------------------- the registers

  const PROMIS_LOC: Loc := Loc(0x5280, 1, 1)

  function EnLoc(filter: nat): Loc { Loc(0x5290 + filter * 4, 31, 1) }
  function RxqEnLoc(filter: nat): Loc { Loc(0x5290 + filter * 4, 28, 1) }
  function RxqLoc(filter: nat): Loc { Loc(0x5290 + filter * 4, 20, 5) }
  function ActLoc(filter: nat): Loc { Loc(0x5290 + filter * 4, 16, 3) }
  function IdLoc(filter: nat): Loc { Loc(0x5290 + filter * 4, 0, 12) }

  lemma Masks(filter: nat)
    ensures Mask(PROMIS_LOC) == 0x0000_0002 && Mask(EnLoc(filter)) == 0x8000_0000
    ensures Mask(RxqEnLoc(filter)) == 0x1000_0000 && Mask(RxqLoc(filter)) == 0x01F0_0000
    ensures Mask(ActLoc(filter)) == 0x0007_0000 && Mask(IdLoc(filter)) == 0x0000_0FFF
  {
    assert Pow2(1) == 2 && Pow2(3) == 8 && Pow2(5) == 32 && Pow2(12) == 4096;
    assert Pow2(16) == 0x1_0000;
    assert Pow2(20) == 0x10_0000;
    assert Pow2(28) == 256 * Pow2(20);
    assert Pow2(31) == 8 * Pow2(28);
    ShlTimes(1, 1);
    ShlTimes(1, 31);
    ShlTimes(1, 28);
    ShlTimes(31, 20);
    ShlTimes(7, 16);
  }

  /** Frames of VLAN v get through: all VLANs do, or an enabled filter sends this one on. */
  ghost predicate Accepts(r: Regs, v: nat)
  {
    Get(r, PROMIS_LOC) == 1 ||
    exists i :: 0 <= i < VLAN_MAX_FILTERS && Passes(r, i, v)
  }

  predicate Passes(r: Regs, filter: nat, v: nat)
  {
    Get(r, EnLoc(filter)) == 1 && Get(r, ActLoc(filter)) == 1 && Get(r, IdLoc(filter)) == v
  }

  // ---------------------------------------------------------------- what an update writes

  function QueueWrites(f: VlanFilter, filter: nat): seq<FieldWrite>
  {
    if f.queue == QUEUE_INVALID then []
    else [FieldWrite(RxqLoc(filter), f.queue), FieldWrite(RxqEnLoc(filter), 1)]
  }

  function ClearWrites(filter: nat): seq<FieldWrite>
  {
    [FieldWrite(EnLoc(filter), 0), FieldWrite(RxqEnLoc(filter), 0)]
  }

  function EnableWrites(vlanId: nat, filter: nat): seq<FieldWrite>
  {
    [FieldWrite(IdLoc(filter), vlanId), FieldWrite(ActLoc(filter), 1), FieldWrite(EnLoc(filter), 1)]
  }

  function FilterWrites(f: VlanFilter, filter: nat): seq<FieldWrite>
  {
    ClearWrites(filter) + if f.enable then EnableWrites(f.vlanId, filter) + QueueWrites(f, filter) else []
  }

  function TableWrites(t: Table, n: nat): seq<FieldWrite>
    requires n <= |t|
  {
    if n == 0 then [] else TableWrites(t, n - 1) + FilterWrites(t[n - 1], n - 1)
  }

  function Promis(on: nat): FieldWrite
  {
    FieldWrite(PROMIS_LOC, on)
  }

  function UpdateWrites(t: Table, weight: nat): seq<FieldWrite>
  {
    [Promis(1)] + ([Promis(1)] + TableWrites(t, |t|)) + if weight <= VLAN_MAX_FILTERS then [Promis(0)] else []
  }

  /** What fits the fields of a filter. */
  predicate TableOk(t: Table)
  {
    |t| == VLAN_MAX_FILTERS &&
    forall i :: 0 <= i < |t| ==> t[i].vlanId < VLAN_N_VID && (t[i].queue < 32 || t[i].queue == QUEUE_INVALID)
  }

  // ---------------------------------------------------------------- reading the writes

  /** What a field of filter i reads when the table has been written. */
  function Expected(f: VlanFilter, filter: nat, l: Loc): Option<nat>
  {
    if l == EnLoc(filter) then Some(if f.enable then 1 else 0)
    else if l == RxqEnLoc(filter) then Some(if Pinned(f) then 1 else 0)
    else if l == IdLoc(filter) && f.enable then Some(f.vlanId)
    else if l == ActLoc(filter) && f.enable then Some(1)
    else if l == RxqLoc(filter) && Pinned(f) then Some(f.queue)
    else None
  }

  lemma LastOfFilter(f: VlanFilter, filter: nat, l: Loc)
    ensures LastWritten(FilterWrites(f, filter), l) == Expected(f, filter, l)
  {
    var a := [FieldWrite(EnLoc(filter), 0), FieldWrite(RxqEnLoc(filter), 0)];
    LastOfPair(EnLoc(filter), 0, RxqEnLoc(filter), 0, l);
    if f.enable {
      var b := [FieldWrite(IdLoc(filter), f.vlanId), FieldWrite(ActLoc(filter), 1), FieldWrite(EnLoc(filter), 1)];
      assert b == [FieldWrite(IdLoc(filter), f.vlanId), FieldWrite(ActLoc(filter), 1)] + [FieldWrite(EnLoc(filter), 1)];
      LastOfPair(IdLoc(filter), f.vlanId, ActLoc(filter), 1, l);
      LastOfConcat([FieldWrite(IdLoc(filter), f.vlanId), FieldWrite(ActLoc(filter), 1)],
                   [FieldWrite(EnLoc(filter), 1)], l);
      LastOfConcat(b, QueueWrites(f, filter), l);
      LastOfConcat(a, b + QueueWrites(f, filter), l);
      LastOfPair(RxqLoc(filter), f.queue, RxqEnLoc(filter), 1, l);
      LastOfOne(FieldWrite(EnLoc(filter), 1), l);
    } else {
      assert a + [] == a;
    }
  }

  lemma LastOfOne(w: FieldWrite, l: Loc)
    ensures LastWritten([w], l) == if w.loc == l then Some(w.val) else None
  {
    assert [w][..0] == [];
  }

  lemma LastOfPair(l0: Loc, v0: nat, l1: Loc, v1: nat, l: Loc)
    ensures LastWritten([FieldWrite(l0, v0), FieldWrite(l1, v1)], l) ==
            if l1 == l then Some(v1) else if l0 == l then Some(v0) else None
  {
    assert [FieldWrite(l0, v0), FieldWrite(l1, v1)][..1] == [FieldWrite(l0, v0)];
    LastOfOne(FieldWrite(l0, v0), l);
  }

  lemma {:induction false} LastOfTable(t: Table, n: nat, i: nat, l: Loc)
    requires n <= |t| && i < |t| && l.addr == 0x5290 + i * 4
    ensures LastWritten(TableWrites(t, n), l) == if i < n then Expected(t[i], i, l) else None
    decreases n
  {
    if n > 0 {
      LastOfTable(t, n - 1, i, l);
      LastOfFilter(t[n - 1], n - 1, l);
      LastOfConcat(TableWrites(t, n - 1), FilterWrites(t[n - 1], n - 1), l);
    }
  }

  // ---------------------------------------------------------------- an update, write by write

  ghost predicate VlanLoc(l: Loc)
  {
    l == PROMIS_LOC ||
    exists i: nat :: l == EnLoc(i) || l == RxqEnLoc(i) || l == RxqLoc(i) || l == ActLoc(i) || l == IdLoc(i)
  }

  lemma VlanLocsAreSeparate(l: Loc, m: Loc)
    requires VlanLoc(l) && VlanLoc(m)
    ensures l == m || Disjoint(l, m)
  {}

  ghost predicate WriteOk(w: FieldWrite)
  {
    Fits(w) && VlanLoc(w.loc) && (w.loc == PROMIS_LOC ==> w.val == 1)
  }

  lemma FilterWritesOk(f: VlanFilter, filter: nat, k: nat)
    requires f.vlanId < VLAN_N_VID && (f.queue < 32 || f.queue == QUEUE_INVALID)
    requires k < |FilterWrites(f, filter)|
    ensures WriteOk(FilterWrites(f, filter)[k])
  {
    assert Pow2(1) == 2 && Pow2(3) == 8 && Pow2(5) == 32 && Pow2(12) == 4096;
    assert VlanLoc(EnLoc(filter)) && VlanLoc(RxqEnLoc(filter)) && VlanLoc(RxqLoc(filter));
    assert VlanLoc(ActLoc(filter)) && VlanLoc(IdLoc(filter));
  }

  lemma {:induction false} TableWritesOk(t: Table, n: nat)
    requires TableOk(t) && n <= |t|
    ensures forall k :: 0 <= k < |TableWrites(t, n)| ==> WriteOk(TableWrites(t, n)[k])
    decreases n
  {
    if n > 0 {
      TableWritesOk(t, n - 1);
      var last := FilterWrites(t[n - 1], n - 1);
      forall k | 0 <= k < |last|
        ensures WriteOk(last[k])
      {
        FilterWritesOk(t[n - 1], n - 1, k);
      }
    }
  }

  /** All writes of an update but the one that may end it. */
  function Covered(t: Table): seq<FieldWrite>
  {
    [Promis(1)] + ([Promis(1)] + TableWrites(t, |t|))
  }

  lemma CoveredOk(t: Table)
    requires TableOk(t)
    ensures forall k :: 0 <= k < |Covered(t)| ==> WriteOk(Covered(t)[k])
  {
    TableWritesOk(t, |t|);
    assert Pow2(1) == 2;
    assert WriteOk(Promis(1));
  }

  lemma {:induction false} StillPromis(ws: seq<FieldWrite>)
    requires ws != [] && ws[0] == Promis(1) && forall k :: 0 <= k < |ws| ==> WriteOk(ws[k])
    ensures LastWritten(ws, PROMIS_LOC) == Some(1)
    decreases |ws|
  {
    var n := |ws| - 1;
    assert WriteOk(ws[n]);
    if ws[n].loc != PROMIS_LOC {
      StillPromis(ws[..n]);
    }
  }

  /** From the first register write of an update to the last but one, the device accepts every
      VLAN. */
  lemma NothingIsLostMeanwhile(r: Regs, t: Table, weight: nat, k: nat, v: nat)
    requires TableOk(t) && 0 < k <= |Covered(t)|
    ensures k <= |UpdateWrites(t, weight)| && Accepts(Exec(r, Accesses(UpdateWrites(t, weight)[..k])), v)
  {
    var ws := Covered(t)[..k];
    assert UpdateWrites(t, weight)[..k] == ws;
    CoveredOk(t);
    StillPromis(ws);
    forall i | 0 <= i < |ws|
      ensures Respects(ws[i], PROMIS_LOC)
    {
      assert WriteOk(Covered(t)[i]);
      VlanLocsAreSeparate(ws[i].loc, PROMIS_LOC);
    }
    FieldsAreIndependent(r, ws, PROMIS_LOC);
  }

  /** The registers when the update is over. */
  function Updated(r: Regs, t: Table, weight: nat): Regs
  {
    Exec(r, Accesses(UpdateWrites(t, weight)))
  }

  lemma UpdatedReads(r: Regs, t: Table, weight: nat, l: Loc)
    requires TableOk(t) && VlanLoc(l)
    ensures var last := LastWritten(UpdateWrites(t, weight), l);
            Get(Updated(r, t, weight), l) == if last.Some? then last.value else Get(r, l)
  {
    var ws := UpdateWrites(t, weight);
    CoveredOk(t);
    assert Pow2(1) == 2;
    forall i | 0 <= i < |ws|
      ensures Respects(ws[i], l)
    {
      if i < |Covered(t)| {
        assert ws[i] == Covered(t)[i] && WriteOk(Covered(t)[i]);
      }
      VlanLocsAreSeparate(ws[i].loc, l);
    }
    FieldsAreIndependent(r, ws, l);
  }

  lemma LastOfUpdate(t: Table, weight: nat, i: nat, l: Loc)
    requires i < |t| && l.addr == 0x5290 + i * 4
    ensures LastWritten(UpdateWrites(t, weight), l) == Expected(t[i], i, l)
  {
    var last := if weight <= VLAN_MAX_FILTERS then [Promis(0)] else [];
    LastOfTable(t, |t|, i, l);
    LastOfOne(Promis(1), l);
    LastOfOne(Promis(0), l);
    LastOfConcat([Promis(1)], TableWrites(t, |t|), l);
    LastOfConcat([Promis(1)], [Promis(1)] + TableWrites(t, |t|), l);
    LastOfConcat(Covered(t), last, l);
  }

  lemma PromisOfUpdate(t: Table, weight: nat)
    requires TableOk(t)
    ensures LastWritten(UpdateWrites(t, weight), PROMIS_LOC) == Some(if weight <= VLAN_MAX_FILTERS then 0 else 1)
  {
    CoveredOk(t);
    StillPromis(Covered(t));
    LastOfOne(Promis(0), PROMIS_LOC);
    if weight <= VLAN_MAX_FILTERS {
      LastOfConcat(Covered(t), [Promis(0)], PROMIS_LOC);
    } else {
      assert UpdateWrites(t, weight) == Covered(t);
    }
  }

  lemma UpdatedFilterField(r: Regs, t: Table, weight: nat, i: nat, l: Loc)
    requires TableOk(t) && i < |t| && l in {EnLoc(i), RxqEnLoc(i), RxqLoc(i), ActLoc(i), IdLoc(i)}
    ensures var e := Expected(t[i], i, l);
            e.Some? ==> Get(Updated(r, t, weight), l) == e.value
  {
    LastOfUpdate(t, weight, i, l);
    UpdatedReads(r, t, weight, l);
  }

  /** Filter i passes what slot i of the table lists, on to the queue of its rule if it has one. */
  lemma FilterAfterUpdate(r: Regs, t: Table, weight: nat, i: nat)
    requires TableOk(t) && i < |t|
    ensures var u := Updated(r, t, weight);
            && (forall v :: Passes(u, i, v) <==> t[i].enable && t[i].vlanId == v)
            && (Get(u, RxqEnLoc(i)) == 1 <==> Pinned(t[i]))
            && (Pinned(t[i]) ==> Get(u, RxqLoc(i)) == t[i].queue)
  {
    UpdatedFilterField(r, t, weight, i, EnLoc(i));
    UpdatedFilterField(r, t, weight, i, RxqEnLoc(i));
    UpdatedFilterField(r, t, weight, i, RxqLoc(i));
    UpdatedFilterField(r, t, weight, i, ActLoc(i));
    UpdatedFilterField(r, t, weight, i, IdLoc(i));
  }

  /** What the device accepts after an update: every VLAN if more are active than the table has
      slots, otherwise those in the table. */
  lemma AcceptedAfterUpdate(r: Regs, t: Table, weight: nat, v: nat)
    requires TableOk(t)
    ensures Accepts(Updated(r, t, weight), v) <==> weight > VLAN_MAX_FILTERS || Listed(t, v)
  {
    var u := Updated(r, t, weight);
    PromisOfUpdate(t, weight);
    UpdatedReads(r, t, weight, PROMIS_LOC);
    forall i | 0 <= i < |t|
      ensures Passes(u, i, v) <==> t[i].enable && t[i].vlanId == v
    {
      FilterAfterUpdate(r, t, weight, i);
    }
  }

  // ---------------------------------------------------------------- the whole update

  lemma RebuiltOk(t: Table, active: Bitmap)
    requires TableOk(t) && |active| == VLAN_N_VID
    ensures TableOk(Rebuilt(t, active))
  {
    forall i | 0 <= i < |t|
      ensures var f := Rebuilt(t, active)[i];
              f.vlanId < VLAN_N_VID && (f.queue < 32 || f.queue == QUEUE_INVALID)
    {
      RebuiltAt(t, active, i);
      WaitingIs(t, active, 0);
      var w := Waiting(t, active, 0);
      if !Pinned(t[i]) && FreeBelow(t, i) < |w| {
        assert w[FreeBelow(t, i)] in w;
      }
    }
  }

  /** The registers after aq_filters_vlans_update. */
  function AfterUpdate(r: Regs, t: Table, active: Bitmap): Regs
  {
    Updated(r, Rebuilt(t, active), Weight(active))
  }

  /** No active VLAN is shut out after an update, exactly when more are active than the table has
      slots, or the active ones without a rule fit in the slots without one. */
  lemma NothingIsLostAfterwardsIff(r: Regs, t: Table, active: Bitmap)
    requires TableOk(t) && |active| == VLAN_N_VID
    ensures (forall v :: 0 <= v < |active| && active[v] ==> Accepts(AfterUpdate(r, t, active), v)) <==>
            Weight(active) > VLAN_MAX_FILTERS || |Waiting(t, active, 0)| <= FreeBelow(t, |t|)
  {
    RebuiltOk(t, active);
    EveryActiveListedIff(t, active);
    forall v: nat
      ensures Accepts(AfterUpdate(r, t, active), v) <==>
              Weight(active) > VLAN_MAX_FILTERS || Listed(Rebuilt(t, active), v)
    {
      AcceptedAfterUpdate(r, Rebuilt(t, active), Weight(active), v);
    }
  }

  /** With different rules, for active VLANs: when the table has room for all active VLANs the
      device accepts exactly those, and otherwise everything. */
  lemma ExactlyTheActive(r: Regs, t: Table, active: Bitmap, v: nat)
    requires TableOk(t) && |active| == VLAN_N_VID && v < VLAN_N_VID
    requires RulesDistinct(t) && RulesActive(t, active)
    ensures Accepts(AfterUpdate(r, t, active), v) <==> Weight(active) > VLAN_MAX_FILTERS || active[v]
  {
    RebuiltOk(t, active);
    AcceptedAfterUpdate(r, Rebuilt(t, active), Weight(active), v);
    if Weight(active) <= VLAN_MAX_FILTERS {
      ExactlyTheActiveListed(t, active, v);
    }
  }

  // ---------------------------------------------------------------- hardware that reports errors

  /** Whether the three hardware calls of an update report success; each has made its register
      accesses by then. */
  datatype HwAnswers = HwAnswers(ctrlOff: bool, tableSet: bool, ctrlOn: bool)

  /** The accesses of an update that ends at the first call that reports an error. */
  function WritesUntilError(t: Table, weight: nat, a: HwAnswers): seq<FieldWrite>
  {
    if !a.ctrlOff then [Promis(1)]
    else if !a.tableSet then Covered(t)
    else UpdateWrites(t, weight)
  }

  predicate EndsEarly(a: HwAnswers)
  {
    !a.ctrlOff || !a.tableSet
  }

  /** An update that ends early leaves the device accepting every VLAN. */
  lemma EarlyEndAcceptsAll(r: Regs, t: Table, weight: nat, a: HwAnswers, v: nat)
    requires TableOk(t) && EndsEarly(a)
    ensures Accepts(Exec(r, Accesses(WritesUntilError(t, weight, a))), v)
  {
    var ws := WritesUntilError(t, weight, a);
    assert UpdateWrites(t, weight)[..|ws|] == ws;
    NothingIsLostMeanwhile(r, t, weight, |ws|, v);
  }

  // ---------------------------------------------------------------- the driver's state

  class VlanState {
    const aqVlans: array<VlanFilter>
    var activeVlans: Bitmap

    ghost predicate Valid()
      reads this, aqVlans
    {
      TableOk(aqVlans[..]) && |activeVlans| == VLAN_N_VID
    }

    constructor ()
      ensures Valid() && fresh(aqVlans)
      ensures RulesDistinct(aqVlans[..]) && RulesActive(aqVlans[..], activeVlans)
    {
      aqVlans := new VlanFilter[VLAN_MAX_FILTERS](_ => VlanFilter(false, 0, 0, 0));
      activeVlans := seq(VLAN_N_VID, _ => false);
    }

    method IsBusy(vlan: nat) returns (busy: bool)
      ensures busy == Busy(aqVlans[..], vlan)
    {
      busy := false;
      for j := 0 to aqVlans.Length
        invariant !busy && forall k :: 0 <= k < j ==> !(Pinned(aqVlans[k]) && aqVlans[k].vlanId == vlan)
      {
        if Pinned(aqVlans[j]) && aqVlans[j].vlanId == vlan {
          assert aqVlans[..][j] == aqVlans[j];
          return true;
        }
      }
    }

    /** The first VLAN that the next search looks at. */
    function After(vlan: int): (r: nat)
      requires -1 <= vlan <= |activeVlans|
      reads this
      ensures r <= |activeVlans|
    {
      if vlan == |activeVlans| then |activeVlans| else vlan + 1
    }

    /** Give slot i to the next VLAN that wants one, if there is one. */
    method FillSlot(i: nat, vlan0: int) returns (vlan: int)
      requires i < aqVlans.Length && !Pinned(aqVlans[i]) && -1 <= vlan0 <= |activeVlans|
      modifies aqVlans
      ensures -1 <= vlan <= |activeVlans|
      ensures var t, v := old(aqVlans[..]), NextWanted(old(aqVlans[..]), activeVlans, After(vlan0));
              && vlan == v
              && aqVlans[..] == t[i := Filler(t[i], activeVlans, v)]
    {
      vlan := vlan0;
      ghost var t := aqVlans[..];
      var vlanBusy := false;
      while true
        invariant aqVlans[..] == t && -1 <= vlan <= |activeVlans|
        invariant NextWanted(t, activeVlans, After(vlan)) == NextWanted(t, activeVlans, After(vlan0))
        decreases |activeVlans| - vlan
      {
        ghost var before := After(vlan);
        if vlan != |activeVlans| {
          vlan := FindNextBit(activeVlans, vlan + 1);
        }
        SkipInactive(t, activeVlans, before, vlan);
        if vlan == |activeVlans| {
          aqVlans[i] := Off(aqVlans[i]);
          return;
        }
        vlanBusy := IsBusy(vlan);
        if !vlanBusy {
          aqVlans[i] := On(aqVlans[i], vlan);
        }
        if !(vlanBusy && vlan != |activeVlans|) {
          break;
        }
      }
    }

    /** aq_fvlan_rebuild. */
    method Rebuild()
      modifies aqVlans
      ensures aqVlans[..] == Rebuilt(old(aqVlans[..]), activeVlans)
    {
      ghost var t := aqVlans[..];
      var vlan: int := -1;
      for i := 0 to aqVlans.Length
        invariant -1 <= vlan <= |activeVlans|
        invariant HalfRebuilt(aqVlans[..], t, activeVlans, i, After(vlan))
      {
        vlan := RebuildSlot(i, vlan, t);
      }
    }

    /** One turn of its loop. */
    method RebuildSlot(i: nat, vlan0: int, ghost t: Table) returns (vlan: int)
      requires i < aqVlans.Length && -1 <= vlan0 <= |activeVlans|
      requires HalfRebuilt(aqVlans[..], t, activeVlans, i, After(vlan0))
      modifies aqVlans
      ensures -1 <= vlan <= |activeVlans|
      ensures HalfRebuilt(aqVlans[..], t, activeVlans, i + 1, After(vlan))
    {
      NextSlot(aqVlans[..], t, activeVlans, i, After(vlan0));
      vlan := vlan0;
      if !aqVlans[i].enable || aqVlans[i].queue == QUEUE_INVALID {
        vlan := FillSlot(i, vlan);
      }
    }

    /** aq_set_data_fvlan: a rule for a location is set, or removed. */
    method SetDataFvlan(location: nat, vlan: nat, queue: nat, add: bool)
      requires Valid() && location < VLAN_MAX_FILTERS && vlan < VLAN_N_VID && queue < 32
      modifies aqVlans
      ensures Valid() && aqVlans[..] == RuleSet(old(aqVlans[..]), location, vlan, queue, add)
    {
      aqVlans[location] := VlanFilter(false, 0, 0, 0);
      if !add {
        return;
      }
      ghost var t := aqVlans[..];
      for i := 0 to aqVlans.Length
        invariant aqVlans[..] == Disabled(t, vlan, i)
      {
        if aqVlans[i].vlanId == vlan {
          aqVlans[i] := aqVlans[i].(enable := false);
        }
      }
      aqVlans[location] := VlanFilter(true, location, vlan, queue);
    }

    /** The sum of hweight_long over the 64 words of the bitmap. */
    method CountActive() returns (hweight: nat)
      requires |activeVlans| == VLAN_N_VID
      ensures hweight == Weight(activeVlans)
    {
      hweight := 0;
      for i := 0 to 64
        invariant hweight == Weight(activeVlans[..64 * i])
      {
        WeightConcat(activeVlans[..64 * i], activeVlans[64 * i..64 * i + 64]);
        assert activeVlans[..64 * i] + activeVlans[64 * i..64 * i + 64] == activeVlans[..64 * (i + 1)];
        hweight := hweight + Weight(activeVlans[64 * i..64 * i + 64]);
      }
      assert activeVlans[..64 * 64] == activeVlans;
    }

    /** aq_filters_vlans_update. */
    method FiltersVlansUpdate(hw: AqHw, a: HwAnswers) returns (ok: bool)
      requires Valid() && hw.Valid()
      modifies hw, aqVlans
      ensures Valid() && hw.Valid()
      ensures aqVlans[..] == Rebuilt(old(aqVlans[..]), activeVlans)
      ensures Wrote(old(hw.log), hw.log, WritesUntilError(aqVlans[..], Weight(activeVlans), a))
      ensures hw.regs == Exec(old(hw.regs), Accesses(WritesUntilError(aqVlans[..], Weight(activeVlans), a)))
      ensures ok <==> !EndsEarly(a) && (Weight(activeVlans) <= VLAN_MAX_FILTERS ==> a.ctrlOn)
      ensures ok ==> hw.regs == AfterUpdate(old(hw.regs), old(aqVlans[..]), activeVlans)
    {
      RebuiltOk(aqVlans[..], activeVlans);
      Rebuild();
      var hweight := CountActive();
      ok := WriteTable(hw, hweight, a);
      ExecConcat(hw.start, old(hw.log), Accesses(WritesUntilError(aqVlans[..], hweight, a)));
    }

    /** The three hardware calls of an update. */
    method WriteTable(hw: AqHw, hweight: nat, a: HwAnswers) returns (ok: bool)
      requires hw.Valid()
      modifies hw
      ensures hw.Valid() && Wrote(old(hw.log), hw.log, WritesUntilError(aqVlans[..], hweight, a))
      ensures ok <==> !EndsEarly(a) && (hweight <= VLAN_MAX_FILTERS ==> a.ctrlOn)
    {
      ghost var t, log0 := aqVlans[..], hw.log;
      VlanCtrl(hw, false);
      if !a.ctrlOff {
        return false;
      }
      ghost var log := hw.log;
      VlanSet(hw, aqVlans);
      WroteBoth(log0, log, hw.log, [Promis(1)], [Promis(1)] + TableWrites(t, |t|));
      if !a.tableSet {
        return false;
      }
      log := hw.log;
      if hweight <= VLAN_MAX_FILTERS {
        VlanCtrl(hw, true);
        WroteBoth(log0, log, hw.log, Covered(t), [Promis(0)]);
        return a.ctrlOn;
      }
      assert UpdateWrites(t, hweight) == Covered(t);
      ok := true;
    }
  }

  // ---------------------------------------------------------------- writing the registers

  /** Between two states of the log, exactly these writes were made. */
  ghost predicate Wrote(before: seq<Access>, after: seq<Access>, ws: seq<FieldWrite>)
  {
    after == before + Accesses(ws)
  }

  lemma WroteBoth(a: seq<Access>, b: seq<Access>, c: seq<Access>, p: seq<FieldWrite>, q: seq<FieldWrite>)
    requires Wrote(a, b, p) && Wrote(b, c, q)
    ensures Wrote(a, c, p + q)
  {
    assert Accesses(p + q) == Accesses(p) + Accesses(q);
  }

  lemma WroteTwo(a: seq<Access>, b: seq<Access>, c: seq<Access>, v: FieldWrite, w: FieldWrite)
    requires Wrote(a, b, [v]) && Wrote(b, c, [w])
    ensures Wrote(a, c, [v, w])
  {
    WroteBoth(a, b, c, [v], [w]);
    assert [v] + [w] == [v, w];
  }

  method PromModeEnSet(hw: AqHw, on: nat)
    requires hw.Valid()
    modifies hw
    ensures hw.Valid() && Wrote(old(hw.log), hw.log, [Promis(on)])
  {
    Masks(0);
    hw.WriteRegBit(0x5280, 0x0000_0002, 1, on);
  }

  method FlrEnSet(hw: AqHw, en: nat, filter: nat)
    requires hw.Valid()
    modifies hw
    ensures hw.Valid() && Wrote(old(hw.log), hw.log, [FieldWrite(EnLoc(filter), en)])
  {
    Masks(filter);
    hw.WriteRegBit(0x5290 + filter * 4, 0x8000_0000, 31, en);
  }

  method FlrActSet(hw: AqHw, act: nat, filter: nat)
    requires hw.Valid()
    modifies hw
    ensures hw.Valid() && Wrote(old(hw.log), hw.log, [FieldWrite(ActLoc(filter), act)])
  {
    Masks(filter);
    hw.WriteRegBit(0x5290 + filter * 4, 0x0007_0000, 16, act);
  }

  method IdFlrSet(hw: AqHw, id: nat, filter: nat)
    requires hw.Valid()
    modifies hw
    ensures hw.Valid() && Wrote(old(hw.log), hw.log, [FieldWrite(IdLoc(filter), id)])
  {
    Masks(filter);
    hw.WriteRegBit(0x5290 + filter * 4, 0x0000_0FFF, 0, id);
  }

  method RxqEnFlrSet(hw: AqHw, en: nat, filter: nat)
    requires hw.Valid()
    modifies hw
    ensures hw.Valid() && Wrote(old(hw.log), hw.log, [FieldWrite(RxqEnLoc(filter), en)])
  {
    Masks(filter);
    hw.WriteRegBit(0x5290 + filter * 4, 0x1000_0000, 28, en);
  }

  method RxqFlrSet(hw: AqHw, rxq: nat, filter: nat)
    requires hw.Valid()
    modifies hw
    ensures hw.Valid() && Wrote(old(hw.log), hw.log, [FieldWrite(RxqLoc(filter), rxq)])
  {
    Masks(filter);
    hw.WriteRegBit(0x5290 + filter * 4, 0x01F0_0000, 20, rxq);
  }

  /** hw_atl_b0_hw_vlan_ctrl. */
  method VlanCtrl(hw: AqHw, enable: bool)
    requires hw.Valid()
    modifies hw
    ensures hw.Valid() && Wrote(old(hw.log), hw.log, [Promis(if enable then 0 else 1)])
  {
    PromModeEnSet(hw, if enable then 0 else 1);
  }

  method FilterClear(hw: AqHw, i: nat)
    requires hw.Valid()
    modifies hw
    ensures hw.Valid() && Wrote(old(hw.log), hw.log, ClearWrites(i))
  {
    FlrEnSet(hw, 0, i);
    ghost var log := hw.log;
    RxqEnFlrSet(hw, 0, i);
    WroteTwo(old(hw.log), log, hw.log, FieldWrite(EnLoc(i), 0), FieldWrite(RxqEnLoc(i), 0));
  }

  method FilterEnable(hw: AqHw, vlanId: nat, i: nat)
    requires hw.Valid()
    modifies hw
    ensures hw.Valid() && Wrote(old(hw.log), hw.log, EnableWrites(vlanId, i))
  {
    IdFlrSet(hw, vlanId, i);
    ghost var log := hw.log;
    FlrActSet(hw, 1, i);
    WroteBoth(old(hw.log), log, hw.log, [FieldWrite(IdLoc(i), vlanId)], [FieldWrite(ActLoc(i), 1)]);
    log := hw.log;
    FlrEnSet(hw, 1, i);
    WroteBoth(old(hw.log), log, hw.log, [FieldWrite(IdLoc(i), vlanId), FieldWrite(ActLoc(i), 1)],
              [FieldWrite(EnLoc(i), 1)]);
  }

  method FilterQueue(hw: AqHw, f: VlanFilter, i: nat)
    requires hw.Valid()
    modifies hw
    ensures hw.Valid() && Wrote(old(hw.log), hw.log, QueueWrites(f, i))
  {
    if f.queue != QUEUE_INVALID {
      RxqFlrSet(hw, f.queue, i);
      ghost var log := hw.log;
      RxqEnFlrSet(hw, 1, i);
      WroteTwo(old(hw.log), log, hw.log, FieldWrite(RxqLoc(i), f.queue), FieldWrite(RxqEnLoc(i), 1));
    }
  }

  /** One turn of the loop of hw_atl_b0_hw_vlan_set. */
  method FilterSet(hw: AqHw, f: VlanFilter, i: nat)
    requires hw.Valid()
    modifies hw
    ensures hw.Valid() && Wrote(old(hw.log), hw.log, FilterWrites(f, i))
  {
    FilterClear(hw, i);
    if f.enable {
      ghost var log := hw.log;
      FilterEnable(hw, f.vlanId, i);
      ghost var log' := hw.log;
      FilterQueue(hw, f, i);
      WroteBoth(log, log', hw.log, EnableWrites(f.vlanId, i), QueueWrites(f, i));
      WroteBoth(old(hw.log), log, hw.log, ClearWrites(i), EnableWrites(f.vlanId, i) + QueueWrites(f, i));
    } else {
      assert FilterWrites(f, i) == ClearWrites(i);
    }
  }

  /** hw_atl_b0_hw_vlan_set. */
  method VlanSet(hw: AqHw, aqVlans: array<VlanFilter>)
    requires hw.Valid()
    modifies hw
    ensures hw.Valid() && Wrote(old(hw.log), hw.log, [Promis(1)] + TableWrites(aqVlans[..], aqVlans.Length))
  {
    PromModeEnSet(hw, 1);
    ghost var t, log0 := aqVlans[..], hw.log;
    assert Wrote(log0, log0, []);
    for i := 0 to aqVlans.Length
      invariant hw.Valid() && Wrote(log0, hw.log, TableWrites(t, i))
    {
      ghost var log := hw.log;
      FilterSet(hw, aqVlans[i], i);
      WroteBoth(log0, log, hw.log, TableWrites(t, i), FilterWrites(t[i], i));
    }
    WroteBoth(old(hw.log), log0, hw.log, [Promis(1)], TableWrites(t, |t|));
  }

  /** The slots below i are rebuilt, the others are as they were. */
  ghost predicate HalfRebuilt(a: Table, t: Table, active: Bitmap, i: nat, from: nat)
  {
    && i <= |a| == |t|
    && a[..i] + RebuiltFrom(t, active, i, from) == Rebuilt(t, active)
    && (forall j :: i <= j < |t| ==> a[j] == t[j])
    && (forall v :: Busy(a, v) <==> Busy(t, v))
  }

  lemma KeptSlot(a: Table, t: Table, active: Bitmap, i: nat, from: nat)
    requires HalfRebuilt(a, t, active, i, from) && i < |a| && Pinned(a[i])
    ensures HalfRebuilt(a, t, active, i + 1, from)
  {
    assert a[..i + 1] == a[..i] + [a[i]];
  }

  /** What goes into a free slot when the cursor stands at `from`. */
  function Filler(f: VlanFilter, active: Bitmap, v: nat): VlanFilter
  {
    if v == |active| then Off(f) else On(f, v)
  }

  lemma RebuiltFilled(t: Table, active: Bitmap, i: nat, from: nat)
    requires i < |t| && !Pinned(t[i])
    ensures var v := NextWanted(t, active, from);
            RebuiltFrom(t, active, i, from) ==
            [Filler(t[i], active, v)] + RebuiltFrom(t, active, i + 1, if v == |active| then v else v + 1)
  {}

  lemma FilledPrefix(a: Table, t: Table, active: Bitmap, i: nat, from: nat)
    requires i < |a| == |t| && !Pinned(t[i])
    ensures var v := NextWanted(t, active, from);
            a[i := Filler(t[i], active, v)][..i + 1] + RebuiltFrom(t, active, i + 1, if v == |active| then v else v + 1)
            == a[..i] + RebuiltFrom(t, active, i, from)
  {
    var v := NextWanted(t, active, from);
    var f := Filler(t[i], active, v);
    RebuiltFilled(t, active, i, from);
    Shift(a, i, f, RebuiltFrom(t, active, i + 1, if v == |active| then v else v + 1));
  }

  lemma Shift(a: Table, i: nat, f: VlanFilter, rest: Table)
    requires i < |a|
    ensures a[i := f][..i + 1] + rest == a[..i] + ([f] + rest)
  {}

  lemma FilledSlot(a: Table, t: Table, active: Bitmap, i: nat, from: nat)
    requires HalfRebuilt(a, t, active, i, from) && i < |a| && !Pinned(a[i])
    ensures var v := NextWanted(a, active, from);
            HalfRebuilt(a[i := Filler(a[i], active, v)], t, active, i + 1, if v == |active| then v else v + 1)
  {
    SameBusySameNext(a, t, active, from);
    UnpinnedChange(a, i, Filler(a[i], active, NextWanted(a, active, from)));
    FilledPrefix(a, t, active, i, from);
  }

  lemma NextSlot(a: Table, t: Table, active: Bitmap, i: nat, from: nat)
    requires HalfRebuilt(a, t, active, i, from) && i < |a|
    ensures Pinned(a[i]) ==> HalfRebuilt(a, t, active, i + 1, from)
    ensures !Pinned(a[i]) ==>
              var v := NextWanted(a, active, from);
              HalfRebuilt(a[i := Filler(a[i], active, v)], t, active, i + 1, if v == |active| then v else v + 1)
  {
    if Pinned(a[i]) {
      KeptSlot(a, t, active, i, from);
    } else {
      FilledSlot(a, t, active, i, from);
    }
  }

  lemma {:induction false} SkipInactive(t: Table, active: Bitmap, from: nat, to: nat)
    requires from <= to <= |active| && forall v :: from <= v < to ==> !active[v]
    ensures NextWanted(t, active, from) == NextWanted(t, active, to)
    decreases |active| - from
  {
    if from < to {
      SkipInactive(t, active, from + 1, to);
    }
  }

  lemma {:induction false} SameBusySameNext(t: Table, u: Table, active: Bitmap, v: nat)
    requires forall w :: Busy(t, w) <==> Busy(u, w)
    ensures NextWanted(t, active, v) == NextWanted(u, active, v)
    decreases |active| - v
  {
    if v < |active| {
      assert Wanted(t, active, v) == Wanted(u, active, v);
      SameBusySameNext(t, u, active, v + 1);
    }
  }

  lemma UnpinnedChange(t: Table, i: nat, f: VlanFilter)
    requires i < |t| && !Pinned(t[i]) && !Pinned(f)
    ensures forall v :: Busy(t[i := f], v) <==> Busy(t, v)
  {
    forall v
      ensures Busy(t[i := f], v) <==> Busy(t, v)
    {
      assert forall j :: 0 <= j < |t| && j != i ==> t[i := f][j] == t[j];
      if Busy(t, v) {
        var j :| 0 <= j < |t| && Pinned(t[j]) && t[j].vlanId == v;
        assert t[i := f][j] == t[j];
      }
    }
  }
}
