/** The 16-slot VLAN table: slots pinned by user rules stay, the others are given to the active
    VLANs that need one. */
module VlanTable {

  const VLAN_MAX_FILTERS: nat := 16
  const VLAN_N_VID: nat := 4096
  const QUEUE_INVALID: nat := 0xFF

  datatype VlanFilter = VlanFilter(enable: bool, location: nat, vlanId: nat, queue: nat)

  type Table = seq<VlanFilter>

  /** Bit v says that VLAN v is in use. */
  type Bitmap = seq<bool>

  /** A user rule has put this slot to use. */
  predicate Pinned(f: VlanFilter)
  {
    f.enable && f.queue != QUEUE_INVALID
  }

  /** Some user rule is for VLAN v. */
  predicate Busy(t: Table, v: nat)
  {
    exists j :: 0 <= j < |t| && Pinned(t[j]) && t[j].vlanId == v
  }

  function FindNextBit(active: Bitmap, from: nat): (r: nat)
    ensures from <= |active| ==> from <= r <= |active|
    ensures r < |active| ==> active[r]
    ensures forall v :: from <= v < r && v < |active| ==> !active[v]
    decreases |active| - from
  {
    if from >= |active| then |active| else if active[from] then from else FindNextBit(active, from + 1)
  }

  // ---------------------------------------------------------------- what rebuilding means

  /** VLAN v is active and no user rule is for it. */
  predicate Wanted(t: Table, active: Bitmap, v: nat)
  {
    v < |active| && active[v] && !Busy(t, v)
  }

  /** The first such VLAN from v on, or the number of VLANs. */
  function NextWanted(t: Table, active: Bitmap, v: nat): (r: nat)
    ensures v <= |active| ==> v <= r <= |active|
    ensures r < |active| ==> Wanted(t, active, r)
    ensures r >= |active| ==> r == |active|
    decreases |active| - v
  {
    if v >= |active| then |active| else if Wanted(t, active, v) then v else NextWanted(t, active, v + 1)
  }

  function Off(f: VlanFilter): VlanFilter
  {
    f.(enable := false, vlanId := 0, queue := QUEUE_INVALID)
  }

  function On(f: VlanFilter, v: nat): VlanFilter
  {
    f.(enable := true, vlanId := v, queue := QUEUE_INVALID)
  }

  /** The slots from i on, when VLANs below `from` have been dealt with. */
  function RebuiltFrom(t: Table, active: Bitmap, i: nat, from: nat): (r: Table)
    requires i <= |t|
    ensures |r| == |t| - i
    decreases |t| - i
  {
    if i == |t| then []
    else if Pinned(t[i]) then [t[i]] + RebuiltFrom(t, active, i + 1, from)
    else
      var v := NextWanted(t, active, from);
      if v == |active| then [Off(t[i])] + RebuiltFrom(t, active, i + 1, v)
      else [On(t[i], v)] + RebuiltFrom(t, active, i + 1, v + 1)
  }

  function Rebuilt(t: Table, active: Bitmap): (r: Table)
    ensures |r| == |t|
  {
    RebuiltFrom(t, active, 0, 0)
  }

  /** The VLANs from v on that need a slot, in ascending order. */
  function Waiting(t: Table, active: Bitmap, v: nat): seq<nat>
    decreases |active| - v
  {
    if v >= |active| then []
    else if Wanted(t, active, v) then [v] + Waiting(t, active, v + 1)
    else Waiting(t, active, v + 1)
  }

  ghost predicate Ascending(w: seq<nat>)
  {
    forall a, b :: 0 <= a < b < |w| ==> w[a] < w[b]
  }

  lemma {:induction false} WaitingHolds(t: Table, active: Bitmap, v: nat)
    ensures forall u :: u in Waiting(t, active, v) <==> v <= u && Wanted(t, active, u)
    decreases |active| - v
  {
    if v < |active| {
      WaitingHolds(t, active, v + 1);
    }
  }

  lemma AscendingCons(v: nat, rest: seq<nat>)
    requires Ascending(rest) && forall u :: u in rest ==> v < u
    ensures Ascending([v] + rest)
  {
    assert forall b :: 0 <= b < |rest| ==> rest[b] in rest;
  }

  lemma {:induction false} WaitingAscends(t: Table, active: Bitmap, v: nat)
    ensures Ascending(Waiting(t, active, v))
    decreases |active| - v
  {
    if v < |active| {
      WaitingAscends(t, active, v + 1);
      WaitingHolds(t, active, v + 1);
      AscendingCons(v, Waiting(t, active, v + 1));
    }
  }

  lemma WaitingIs(t: Table, active: Bitmap, v: nat)
    ensures forall u :: u in Waiting(t, active, v) <==> v <= u && Wanted(t, active, u)
    ensures Ascending(Waiting(t, active, v))
  {
    WaitingHolds(t, active, v);
    WaitingAscends(t, active, v);
  }

  /** How many of the slots below i no user rule has. */
  function FreeBelow(t: Table, i: nat): (r: nat)
    requires i <= |t|
    ensures r <= i
    ensures forall j :: 0 <= j < i && !Pinned(t[j]) ==> r > 0
  {
    if i == 0 then 0 else FreeBelow(t, i - 1) + if Pinned(t[i - 1]) then 0 else 1
  }

  lemma {:induction false} FreeBelowMonotone(t: Table, i: nat, j: nat)
    requires i <= j <= |t|
    ensures FreeBelow(t, i) <= FreeBelow(t, j)
    ensures forall k :: i <= k < j && !Pinned(t[k]) ==> FreeBelow(t, i) < FreeBelow(t, j)
    decreases j
  {
    if i < j {
      FreeBelowMonotone(t, i, j - 1);
    }
  }

  lemma {:induction false} WaitingFromNext(t: Table, active: Bitmap, v: nat)
    requires v <= |active|
    ensures var n := NextWanted(t, active, v);
            Waiting(t, active, v) == if n == |active| then [] else [n] + Waiting(t, active, n + 1)
    decreases |active| - v
  {
    if v < |active| && !Wanted(t, active, v) {
      WaitingFromNext(t, active, v + 1);
    }
  }

  /** Slot i after a rebuild, when the VLANs w are waiting and `rank` free slots lie before it. */
  predicate SlotIs(t: Table, i: nat, f: VlanFilter, w: seq<nat>, rank: nat)
    requires i < |t|
  {
    if Pinned(t[i]) then f == t[i]
    else if rank < |w| then f == On(t[i], w[rank])
    else f == Off(t[i])
  }

  lemma RebuiltHead(t: Table, active: Bitmap, i: nat, from: nat)
    requires i < |t| && from <= |active|
    ensures SlotIs(t, i, RebuiltFrom(t, active, i, from)[0], Waiting(t, active, from), 0)
  {
    WaitingFromNext(t, active, from);
  }

  /** Where the cursor stands after slot i. */
  function Cursor(t: Table, active: Bitmap, i: nat, from: nat): (r: nat)
    requires i < |t| && from <= |active|
    ensures r <= |active|
  {
    if Pinned(t[i]) then from
    else
      var v := NextWanted(t, active, from);
      if v == |active| then v else v + 1
  }

  lemma RebuiltTail(t: Table, active: Bitmap, i: nat, from: nat, k: nat)
    requires i < k < |t| && from <= |active|
    ensures RebuiltFrom(t, active, i, from)[k - i] ==
            RebuiltFrom(t, active, i + 1, Cursor(t, active, i, from))[k - i - 1]
  {}

  lemma WaitingBehindCursor(t: Table, active: Bitmap, i: nat, from: nat)
    requires i < |t| && from <= |active|
    ensures var w, rest := Waiting(t, active, from), Waiting(t, active, Cursor(t, active, i, from));
            rest == if Pinned(t[i]) then w else if w == [] then [] else w[1..]
  {
    if !Pinned(t[i]) {
      var n := NextWanted(t, active, from);
      WaitingFromNext(t, active, from);
      if n == |active| {
        assert Waiting(t, active, |active|) == [];
      } else {
        TailOf(n, Waiting(t, active, n + 1));
      }
    }
  }

  lemma TailOf(x: nat, s: seq<nat>)
    ensures ([x] + s)[1..] == s
  {}

  /** The part of a rebuild from slot i on is right about slot k. */
  ghost predicate RightAbout(t: Table, active: Bitmap, i: nat, from: nat, k: nat)
  {
    && i <= k < |t| && from <= |active| && FreeBelow(t, i) <= FreeBelow(t, k)
    && SlotIs(t, k, RebuiltFrom(t, active, i, from)[k - i], Waiting(t, active, from),
              FreeBelow(t, k) - FreeBelow(t, i))
  }

  lemma RightOneEarlier(t: Table, active: Bitmap, i: nat, from: nat, k: nat)
    requires i < |t| && from <= |active| && RightAbout(t, active, i + 1, Cursor(t, active, i, from), k)
    ensures RightAbout(t, active, i, from, k)
  {
    RebuiltTail(t, active, i, from, k);
    WaitingBehindCursor(t, active, i, from);
    SlotIsBehind(t, i, k, RebuiltFrom(t, active, i, from)[k - i], Waiting(t, active, from),
                 FreeBelow(t, k) - FreeBelow(t, i + 1));
    FreeStep(t, i);
  }

  lemma {:induction false} RebuiltFromAt(t: Table, active: Bitmap, i: nat, from: nat, k: nat)
    requires i <= k < |t| && from <= |active|
    ensures RightAbout(t, active, i, from, k)
    decreases k - i
  {
    if k == i {
      RebuiltHead(t, active, i, from);
    } else {
      RebuiltFromAt(t, active, i + 1, Cursor(t, active, i, from), k);
      RightOneEarlier(t, active, i, from, k);
    }
  }

  lemma FreeStep(t: Table, i: nat)
    requires i < |t|
    ensures FreeBelow(t, i + 1) == FreeBelow(t, i) + if Pinned(t[i]) then 0 else 1
  {}

  lemma SlotIsBehind(t: Table, i: nat, k: nat, f: VlanFilter, w: seq<nat>, rank: nat)
    requires i < |t| && k < |t|
    requires SlotIs(t, k, f, if Pinned(t[i]) then w else if w == [] then [] else w[1..], rank)
    ensures SlotIs(t, k, f, w, rank + if Pinned(t[i]) then 0 else 1)
  {}

  /** The table after a rebuild, slot by slot: user rules stay, and the r-th of the other slots
      holds the r-th active VLAN without a rule, or nothing when there are not so many. */
  lemma RebuiltAt(t: Table, active: Bitmap, i: nat)
    requires i < |t|
    ensures SlotIs(t, i, Rebuilt(t, active)[i], Waiting(t, active, 0), FreeBelow(t, i))
  {
    RebuiltFromAt(t, active, 0, 0, i);
  }

  // ---------------------------------------------------------------- what follows

  /** Rebuilding neither adds nor drops a user rule. */
  lemma RebuildKeepsRules(t: Table, active: Bitmap)
    ensures forall i :: 0 <= i < |t| ==> (Pinned(Rebuilt(t, active)[i]) <==> Pinned(t[i]))
    ensures forall i :: 0 <= i < |t| && Pinned(t[i]) ==> Rebuilt(t, active)[i] == t[i]
    ensures forall v :: Busy(Rebuilt(t, active), v) <==> Busy(t, v)
  {
    var r := Rebuilt(t, active);
    forall i | 0 <= i < |t|
      ensures Pinned(r[i]) <==> Pinned(t[i])
      ensures Pinned(t[i]) ==> r[i] == t[i]
    {
      RebuiltAt(t, active, i);
    }
    forall v
      ensures Busy(r, v) <==> Busy(t, v)
    {
      if Busy(t, v) {
        var j :| 0 <= j < |t| && Pinned(t[j]) && t[j].vlanId == v;
        assert Pinned(r[j]) && r[j].vlanId == v;
      }
      if Busy(r, v) {
        var j :| 0 <= j < |t| && Pinned(r[j]) && r[j].vlanId == v;
        assert Pinned(t[j]) && t[j].vlanId == v;
      }
    }
  }

  /** User rules are for different VLANs. */
  ghost predicate RulesDistinct(t: Table)
  {
    forall i, j :: 0 <= i < j < |t| && Pinned(t[i]) && Pinned(t[j]) ==> t[i].vlanId != t[j].vlanId
  }

  /** No VLAN is in two enabled slots. */
  ghost predicate NoDuplicates(t: Table)
  {
    forall i, j :: 0 <= i < j < |t| && t[i].enable && t[j].enable ==> t[i].vlanId != t[j].vlanId
  }

  lemma RebuildHasNoDuplicates(t: Table, active: Bitmap)
    ensures NoDuplicates(Rebuilt(t, active)) <==> RulesDistinct(t)
  {
    var r := Rebuilt(t, active);
    RebuildKeepsRules(t, active);
    WaitingIs(t, active, 0);
    if RulesDistinct(t) {
      forall i, j | 0 <= i < j < |t| && r[i].enable && r[j].enable
        ensures r[i].vlanId != r[j].vlanId
      {
        RebuiltAt(t, active, i);
        RebuiltAt(t, active, j);
        FreeBelowMonotone(t, i, j);
        var w := Waiting(t, active, 0);
        if !Pinned(t[i]) && Pinned(t[j]) {
          assert w[FreeBelow(t, i)] in w;
        } else if Pinned(t[i]) && !Pinned(t[j]) {
          assert w[FreeBelow(t, j)] in w;
        }
      }
    } else {
      var i, j :| 0 <= i < j < |t| && Pinned(t[i]) && Pinned(t[j]) && t[i].vlanId == t[j].vlanId;
      assert r[i] == t[i] && r[j] == t[j];
    }
  }

  lemma {:induction false} SameRulesSameWaiting(t: Table, r: Table, active: Bitmap, v: nat)
    requires forall u :: Busy(r, u) <==> Busy(t, u)
    ensures Waiting(r, active, v) == Waiting(t, active, v)
    decreases |active| - v
  {
    if v < |active| {
      assert Wanted(r, active, v) == Wanted(t, active, v);
      SameRulesSameWaiting(t, r, active, v + 1);
    }
  }

  lemma {:induction false} SameRulesSameFree(t: Table, r: Table, i: nat)
    requires |r| == |t| && i <= |t|
    requires forall j :: 0 <= j < |t| ==> (Pinned(r[j]) <==> Pinned(t[j]))
    ensures FreeBelow(r, i) == FreeBelow(t, i)
  {
    if i > 0 {
      SameRulesSameFree(t, r, i - 1);
    }
  }

  /** Rebuilding twice is rebuilding once. */
  lemma RebuildIsIdempotent(t: Table, active: Bitmap)
    ensures Rebuilt(Rebuilt(t, active), active) == Rebuilt(t, active)
  {
    var r := Rebuilt(t, active);
    RebuildKeepsRules(t, active);
    SameRulesSameWaiting(t, r, active, 0);
    forall i | 0 <= i < |t|
      ensures Rebuilt(r, active)[i] == r[i]
    {
      SameRulesSameFree(t, r, i);
      RebuiltAt(t, active, i);
      RebuiltAt(r, active, i);
    }
  }

  /** VLAN v is in an enabled slot. */
  ghost predicate Listed(t: Table, v: nat)
  {
    exists i :: 0 <= i < |t| && t[i].enable && t[i].vlanId == v
  }

  /** There is a free slot for every rank below the number of free slots. */
  lemma {:induction false} SlotOfRank(t: Table, n: nat, rank: nat) returns (i: nat)
    requires n <= |t| && rank < FreeBelow(t, n)
    ensures i < n && !Pinned(t[i]) && FreeBelow(t, i) == rank
  {
    if !Pinned(t[n - 1]) && rank == FreeBelow(t, n - 1) {
      i := n - 1;
    } else {
      i := SlotOfRank(t, n - 1, rank);
    }
  }

  /** VLAN v is one of the waiting ones for which there is a free slot. */
  ghost predicate Served(t: Table, active: Bitmap, v: nat)
  {
    exists k :: 0 <= k < |Waiting(t, active, 0)| && k < FreeBelow(t, |t|) && Waiting(t, active, 0)[k] == v
  }

  lemma ListedOnlyIf(t: Table, active: Bitmap, v: nat)
    requires Listed(Rebuilt(t, active), v)
    ensures Busy(t, v) || Served(t, active, v)
  {
    var r, w := Rebuilt(t, active), Waiting(t, active, 0);
    var i :| 0 <= i < |t| && r[i].enable && r[i].vlanId == v;
    RebuiltAt(t, active, i);
    FreeBelowMonotone(t, i, |t|);
    if !Pinned(t[i]) {
      assert w[FreeBelow(t, i)] == v;
    }
  }

  /** An enabled slot lists the VLAN of a rule, or one of the waiting VLANs that got a slot. */
  lemma RebuildLists(t: Table, active: Bitmap, v: nat)
    ensures Listed(Rebuilt(t, active), v) <==> Busy(t, v) || Served(t, active, v)
  {
    var r, w := Rebuilt(t, active), Waiting(t, active, 0);
    if Listed(r, v) {
      ListedOnlyIf(t, active, v);
    }
    if Busy(t, v) {
      var j :| 0 <= j < |t| && Pinned(t[j]) && t[j].vlanId == v;
      RebuiltAt(t, active, j);
      assert r[j].enable && r[j].vlanId == v;
    } else if Served(t, active, v) {
      var k :| 0 <= k < |w| && k < FreeBelow(t, |t|) && w[k] == v;
      var i := SlotOfRank(t, |t|, k);
      RebuiltAt(t, active, i);
      assert r[i].enable && r[i].vlanId == v;
    }
  }

  /** Every active VLAN is in the table exactly when the waiting ones are not more than the free
      slots. */
  lemma EveryActiveListedIff(t: Table, active: Bitmap)
    ensures (forall v :: 0 <= v < |active| && active[v] ==> Listed(Rebuilt(t, active), v)) <==>
            |Waiting(t, active, 0)| <= FreeBelow(t, |t|)
  {
    var r, w, free := Rebuilt(t, active), Waiting(t, active, 0), FreeBelow(t, |t|);
    WaitingIs(t, active, 0);
    if |w| <= free {
      forall v | 0 <= v < |active| && active[v]
        ensures Listed(r, v)
      {
        RebuildLists(t, active, v);
        if !Busy(t, v) {
          assert v in w;
          var k :| 0 <= k < |w| && w[k] == v;
          assert k < free;
        }
      }
    } else {
      var v := w[free];
      assert v in w;
      RebuildLists(t, active, v);
      assert forall k :: 0 <= k < free ==> w[k] < v;
    }
  }

  // ---------------------------------------------------------------- counting

  /** The sum of hweight_long over the words of the bitmap. */
  function Weight(active: Bitmap): nat
  {
    if active == [] then 0 else Weight(active[..|active| - 1]) + if active[|active| - 1] then 1 else 0
  }

  lemma {:induction false} WeightConcat(a: Bitmap, b: Bitmap)
    ensures Weight(a + b) == Weight(a) + Weight(b)
    decreases |b|
  {
    if b == [] {
      assert a + b == a;
    } else {
      assert (a + b)[..|a + b| - 1] == a + b[..|b| - 1];
      WeightConcat(a, b[..|b| - 1]);
    }
  }

  function ActiveBelow(active: Bitmap, n: nat): set<nat>
    requires n <= |active|
  {
    set v: nat | v < n && active[v]
  }

  lemma {:induction false} WeightCounts(active: Bitmap)
    ensures Weight(active) == |ActiveBelow(active, |active|)|
  {
    if active != [] {
      var n := |active| - 1;
      WeightCounts(active[..n]);
      assert ActiveBelow(active, n) == ActiveBelow(active[..n], n);
      assert ActiveBelow(active, n + 1) == ActiveBelow(active, n) + if active[n] then {n} else {};
    }
  }

  lemma WeightOneMore(active: Bitmap, v: nat)
    requires v < |active| && !active[v]
    ensures Weight(active[v := true]) == Weight(active) + 1
  {
    WeightCounts(active);
    WeightCounts(active[v := true]);
    assert ActiveBelow(active[v := true], |active|) == ActiveBelow(active, |active|) + {v};
  }

  lemma WeightNone(active: Bitmap)
    requires forall v :: 0 <= v < |active| ==> !active[v]
    ensures Weight(active) == 0
  {
    WeightCounts(active);
    assert ActiveBelow(active, |active|) == {};
  }

  function RuleVids(t: Table, n: nat): set<nat>
    requires n <= |t|
  {
    set j: nat | j < n && Pinned(t[j]) :: t[j].vlanId
  }

  lemma {:induction false} RulesCounted(t: Table, n: nat)
    requires n <= |t| && RulesDistinct(t)
    ensures |RuleVids(t, n)| + FreeBelow(t, n) == n
  {
    if n > 0 {
      RulesCounted(t, n - 1);
      var rest := RuleVids(t, n - 1);
      if Pinned(t[n - 1]) {
        assert t[n - 1].vlanId !in rest;
        assert RuleVids(t, n) == rest + {t[n - 1].vlanId};
      } else {
        assert RuleVids(t, n) == rest;
      }
    }
  }

  function Elements(w: seq<nat>): set<nat>
  {
    set v | v in w
  }

  lemma {:induction false} AscendingCounted(w: seq<nat>)
    requires Ascending(w)
    ensures |Elements(w)| == |w|
  {
    if w != [] {
      var init, last := w[..|w| - 1], w[|w| - 1];
      AscendingCounted(init);
      assert w == init + [last];
      assert last !in Elements(init);
      assert Elements(w) == Elements(init) + {last};
    }
  }

  /** Every rule is for an active VLAN. */
  ghost predicate RulesActive(t: Table, active: Bitmap)
  {
    forall i :: 0 <= i < |t| && Pinned(t[i]) ==> t[i].vlanId < |active| && active[t[i].vlanId]
  }

  /** The VLANs of rules that are not active. */
  function InactiveVids(t: Table, active: Bitmap): (r: set<nat>)
    ensures r <= RuleVids(t, |t|)
  {
    set v | v in RuleVids(t, |t|) && !(v < |active| && active[v])
  }

  lemma ActiveIsRulesAndWaiting(t: Table, active: Bitmap)
    ensures RuleVids(t, |t|) !! Elements(Waiting(t, active, 0))
    ensures ActiveBelow(active, |active|) ==
            (RuleVids(t, |t|) - InactiveVids(t, active)) + Elements(Waiting(t, active, 0))
  {
    var waiting, rules := Elements(Waiting(t, active, 0)), RuleVids(t, |t|);
    WaitingIs(t, active, 0);
    forall v: nat
      ensures v in rules <==> Busy(t, v)
    {}
    forall v: nat
      ensures v in waiting <==> Wanted(t, active, v)
    {}
  }

  lemma SplitSize(all: set<nat>, rules: set<nat>, inactive: set<nat>, waiting: set<nat>)
    requires inactive <= rules && rules !! waiting && all == (rules - inactive) + waiting
    ensures |all| + |inactive| == |rules| + |waiting|
  {
    assert |all| == |rules - inactive| + |waiting|;
    assert rules == (rules - inactive) + inactive;
    assert |rules| == |rules - inactive| + |inactive|;
  }

  /** With different rules, the free slots are enough for the active VLANs without one, if and only
      if the active VLANs and the rules for inactive ones are together not more than the slots. */
  lemma EnoughSlotsIff(t: Table, active: Bitmap)
    requires RulesDistinct(t)
    ensures |Waiting(t, active, 0)| <= FreeBelow(t, |t|) <==> Weight(active) + |InactiveVids(t, active)| <= |t|
  {
    var w := Waiting(t, active, 0);
    WaitingIs(t, active, 0);
    WeightCounts(active);
    RulesCounted(t, |t|);
    AscendingCounted(w);
    ActiveIsRulesAndWaiting(t, active);
    SplitSize(ActiveBelow(active, |active|), RuleVids(t, |t|), InactiveVids(t, active), Elements(w));
  }

  /** With different rules for active VLANs that is the test the driver makes. */
  lemma EnoughSlots(t: Table, active: Bitmap)
    requires RulesDistinct(t) && RulesActive(t, active)
    ensures |Waiting(t, active, 0)| <= FreeBelow(t, |t|) <==> Weight(active) <= |t|
  {
    EnoughSlotsIff(t, active);
    assert InactiveVids(t, active) == {};
  }

  lemma ServedIsWanted(t: Table, active: Bitmap, v: nat)
    requires Served(t, active, v)
    ensures Wanted(t, active, v)
  {
    var w := Waiting(t, active, 0);
    WaitingIs(t, active, 0);
    var k :| 0 <= k < |w| && k < FreeBelow(t, |t|) && w[k] == v;
    assert w[k] in w;
  }

  lemma ServedIffWanted(t: Table, active: Bitmap, v: nat)
    requires |Waiting(t, active, 0)| <= FreeBelow(t, |t|)
    ensures Served(t, active, v) <==> Wanted(t, active, v)
  {
    var w := Waiting(t, active, 0);
    WaitingIs(t, active, 0);
    if Wanted(t, active, v) {
      assert v in w;
      var k :| 0 <= k < |w| && w[k] == v;
      assert k < FreeBelow(t, |t|);
    }
  }

  /** With different rules for active VLANs and room for all active ones, the table lists exactly
      the active VLANs. */
  lemma ExactlyTheActiveListed(t: Table, active: Bitmap, v: nat)
    requires RulesDistinct(t) && RulesActive(t, active) && Weight(active) <= |t| && v < |active|
    ensures Listed(Rebuilt(t, active), v) <==> active[v]
  {
    EnoughSlots(t, active);
    ServedIffWanted(t, active, v);
    RebuildLists(t, active, v);
  }

  // ---------------------------------------------------------------- user rules

  /** The table after a user rule for a location is set, or removed. */
  function RuleSet(t: Table, location: nat, vlan: nat, queue: nat, add: bool): (r: Table)
    requires location < |t|
    ensures |r| == |t|
  {
    var cleared := t[location := VlanFilter(false, 0, 0, 0)];
    if !add then cleared
    else Disabled(cleared, vlan, |t|)[location := VlanFilter(true, location, vlan, queue)]
  }

  /** The first n slots disabled where they are for the VLAN. */
  function Disabled(t: Table, vlan: nat, n: nat): (r: Table)
    requires n <= |t|
    ensures |r| == |t|
    ensures forall i :: 0 <= i < |t| ==> r[i] == if i < n && t[i].vlanId == vlan then t[i].(enable := false) else t[i]
  {
    if n == 0 then t
    else
      var r := Disabled(t, vlan, n - 1);
      if t[n - 1].vlanId == vlan then r[n - 1 := t[n - 1].(enable := false)] else r
  }

  /** Setting or removing a rule keeps rules different, and touches no rule at another location
      that is for another VLAN. */
  lemma RuleSetKeepsDistinct(t: Table, location: nat, vlan: nat, queue: nat, add: bool)
    requires location < |t| && queue != QUEUE_INVALID && RulesDistinct(t)
    ensures var r := RuleSet(t, location, vlan, queue, add);
            && RulesDistinct(r)
            && (Pinned(r[location]) <==> add)
            && (forall v :: Busy(r, v) <==>
                  (add && v == vlan) ||
                  (exists j ::
                     0 <= j < |t| && j != location && Pinned(t[j]) && t[j].vlanId == v && !(add && v == vlan)))
  {
    var r := RuleSet(t, location, vlan, queue, add);
    forall v
      ensures Busy(r, v) <==>
              (add && v == vlan) ||
              (exists j :: 0 <= j < |t| && j != location && Pinned(t[j]) && t[j].vlanId == v && !(add && v == vlan))
    {
      if add && v == vlan {
        assert Pinned(r[location]) && r[location].vlanId == v;
      } else {
        assert forall j :: 0 <= j < |t| && j != location && t[j].vlanId == v ==> r[j] == t[j];
        if Busy(r, v) {
          var j :| 0 <= j < |r| && Pinned(r[j]) && r[j].vlanId == v;
          assert j != location && Pinned(t[j]) && t[j].vlanId == v;
        }
      }
    }
  }
}
