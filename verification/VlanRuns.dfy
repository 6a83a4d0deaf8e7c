/** Whole runs of the VLAN filter: VLANs come and go, and user rules of every kind are added,
    replaced and deleted. Bitmap, table, rule list and registers are kept together. */
module VlanRuns {
  import opened Wrappers
  import opened Registers
  import opened VlanTable
  import opened VlanFilters
  import F = FilterRules

  /** `seen` is the bitmap that the last update of table and registers worked with. */
  datatype State = State(t: Table, active: Bitmap, f: F.State, regs: Regs, seen: Bitmap)

  predicate Shaped(s: State)
  {
    |s.t| == VLAN_MAX_FILTERS && |s.active| == VLAN_N_VID && |s.seen| == VLAN_N_VID
  }

  // ---------------------------------------------------------------- rules and the table

  predicate IsVlan(m: F.Match)
  {
    m.ext && m.maskTci == F.VLAN_VID_MASK
  }

  /** The VLAN and the queue that a VLAN rule puts into its slot. */
  function Vid(m: F.Match): (v: nat)
    ensures v < VLAN_N_VID
  {
    m.vlanTci % 4096
  }

  function QueueOf(cookie: F.Cookie): (q: nat)
    ensures q < 32
  {
    match cookie
    case Queue(q) => q % 32
    case Discard => 31
  }

  /** aq_filters_vlans_update, when the hardware reports no error. */
  function Refreshed(s: State, t: Table): State
  {
    s.(t := Rebuilt(t, s.active), regs := AfterUpdate(s.regs, t, s.active), seen := s.active)
  }

  /** What taking the rule at a location away does to the table. */
  function Unpinned(s: State, location: nat): (r: State)
    requires Shaped(s)
    ensures Shaped(r)
  {
    if location in s.f.rules && IsVlan(s.f.rules[location].m) && location < VLAN_MAX_FILTERS then
      Refreshed(s, RuleSet(s.t, location, 0, 0, false))
    else s
  }

  /** aq_del_rxnfc_rule. */
  function Deleted(s: State, location: nat, hwOk: bool): (r: State)
    requires Shaped(s)
    ensures Shaped(r)
  {
    Unpinned(s, location).(f := F.Removed(s.f, location, hwOk).0)
  }

  /** The first rule of the list that carries tag v, from location `from` on: the search of
      aq_del_fvlan_by_vlan, which looks at rules of every kind. */
  function FirstWith(rules: map<nat, F.Fsp>, v: nat, from: nat): (r: Option<nat>)
    ensures r.Some? ==> from <= r.value <= F.LAST_LOC_FL3L4 && r.value in rules && rules[r.value].m.vlanTci == v
    ensures r.None? ==> forall loc :: from <= loc <= F.LAST_LOC_FL3L4 && loc in rules ==> rules[loc].m.vlanTci != v
    ensures r.Some? ==> forall loc :: from <= loc < r.value && loc in rules ==> rules[loc].m.vlanTci != v
    decreases F.LAST_LOC_FL3L4 + 1 - from
  {
    if from > F.LAST_LOC_FL3L4 then None
    else if from in rules && rules[from].m.vlanTci == v then Some(from)
    else FirstWith(rules, v, from + 1)
  }

  // ---------------------------------------------------------------- the steps

  datatype Op =
    | AddVid(v: nat)
    | KillVid(v: nat, hwOk: bool)
    | AddRule(env: F.Env, fsp: F.Fsp, a: F.Answers)
    | DropRule(location: nat, hwOk: bool)

  predicate OpOk(op: Op)
  {
    match op
    case AddVid(v) => v < VLAN_N_VID
    case KillVid(v, _) => v < VLAN_N_VID
    case AddRule(_, _, _) => true
    case DropRule(_, _) => true
  }

  /** The checks ask the bitmap whether a VLAN is active; what they find behind its end is left to
      the environment. */
  function EnvOf(s: State, env: F.Env): F.Env
  {
    env.(vlanActive := (v: nat) => if v < |s.active| then s.active[v] else env.vlanActive(v))
  }

  /** A VLAN rule is not refused by the hardware. */
  function AnswersOf(m: F.Match, a: F.Answers): F.Answers
  {
    a.(hwAdd := a.hwAdd || IsVlan(m))
  }

  /** The table with an admitted rule in the place of the one at its location. */
  function WithRule(s: State, fsp: F.Fsp): (r: State)
    requires Shaped(s)
    ensures Shaped(r)
  {
    var u := Unpinned(s, fsp.location);
    if IsVlan(fsp.m) && fsp.location < VLAN_MAX_FILTERS then
      Refreshed(u, RuleSet(u.t, fsp.location, Vid(fsp.m), QueueOf(fsp.cookie), true))
    else u
  }

  predicate IsAdmitted(s: State, env: F.Env, fsp: F.Fsp, a: F.Answers)
  {
    F.CheckRule(s.f, EnvOf(s, env), fsp).1 == F.OK && a.memory
  }

  function Step(s: State, op: Op): (r: State)
    requires Shaped(s) && OpOk(op)
    ensures Shaped(r)
  {
    match op
    case AddVid(v) =>
      var u := s.(active := s.active[v := true]);
      Refreshed(u, u.t)
    case KillVid(v, hwOk) =>
      var u := s.(active := s.active[v := false]);
      var first := FirstWith(s.f.rules, v, 0);
      if first.Some? then Deleted(u, first.value, hwOk) else Refreshed(u, u.t)
    case AddRule(env, fsp, a) =>
      var g := F.Added(s.f, EnvOf(s, env), fsp, AnswersOf(fsp.m, a)).0;
      if IsAdmitted(s, env, fsp, a) then WithRule(s, fsp).(f := g) else s.(f := g)
    case DropRule(location, hwOk) => Deleted(s, location, hwOk)
  }

  // ---------------------------------------------------------------- what every step keeps

  /** Rules are under their own location, and the VLAN rules are those at VLAN locations. */
  ghost predicate InList(rules: map<nat, F.Fsp>)
  {
    forall loc :: loc in rules ==>
      && rules[loc].location == loc && loc <= F.LAST_LOC_FL3L4
      && (IsVlan(rules[loc].m) <==> loc < VLAN_MAX_FILTERS)
  }

  /** A pinned slot is at the location of a rule for its VLAN. */
  ghost predicate Backed(t: Table, rules: map<nat, F.Fsp>)
  {
    forall i :: 0 <= i < |t| && Pinned(t[i]) ==>
      i in rules && IsVlan(rules[i].m) && Vid(rules[i].m) == t[i].vlanId
  }

  ghost predicate TableFits(t: Table, rules: map<nat, F.Fsp>)
  {
    TableOk(t) && RulesDistinct(t) && Backed(t, rules)
  }

  /** Table and registers are as the last update left them. */
  ghost predicate Current(s: State)
  {
    && Rebuilt(s.t, s.seen) == s.t
    && (forall v: nat :: Accepts(s.regs, v) <==> Weight(s.seen) > VLAN_MAX_FILTERS || Listed(s.t, v))
  }

  ghost predicate Kept(s: State)
  {
    Shaped(s) && InList(s.f.rules) && TableFits(s.t, s.f.rules) && Current(s)
  }

  lemma RefreshKeeps(s: State, t: Table)
    requires Shaped(s) && TableFits(t, s.f.rules)
    ensures TableFits(Refreshed(s, t).t, s.f.rules) && Current(Refreshed(s, t))
  {
    var u := Refreshed(s, t);
    RebuiltOk(t, s.active);
    RebuildKeepsRules(t, s.active);
    RebuildIsIdempotent(t, s.active);
    forall v: nat
      ensures Accepts(u.regs, v) <==> Weight(u.seen) > VLAN_MAX_FILTERS || Listed(u.t, v)
    {
      AcceptedAfterUpdate(s.regs, Rebuilt(t, s.active), Weight(s.active), v);
    }
  }

  /** A refresh keeps the pinned slots as they are. */
  lemma RefreshKeepsPins(s: State, t: Table)
    ensures forall i :: 0 <= i < |t| ==>
              (Pinned(Refreshed(s, t).t[i]) <==> Pinned(t[i])) && (Pinned(t[i]) ==> Refreshed(s, t).t[i] == t[i])
  {
    RebuildKeepsRules(t, s.active);
  }

  lemma RefreshKeepsPin(s: State, t: Table, i: nat)
    requires i < |t| && Pinned(t[i])
    ensures Refreshed(s, t).t[i] == t[i]
  {
    RefreshKeepsPins(s, t);
  }

  lemma RuleSetFits(t: Table, rules: map<nat, F.Fsp>, location: nat, fsp: F.Fsp)
    requires TableFits(t, rules) && location < VLAN_MAX_FILTERS
    ensures TableFits(RuleSet(t, location, 0, 0, false), rules - {location})
    ensures IsVlan(fsp.m) ==>
              TableFits(RuleSet(t, location, Vid(fsp.m), QueueOf(fsp.cookie), true), rules[location := fsp])
  {
    RuleSetKeepsDistinct(t, location, 0, 0, false);
    RuleSetKeepsDistinct(t, location, Vid(fsp.m), QueueOf(fsp.cookie), true);
  }

  lemma UnpinnedKeeps(s: State, location: nat)
    requires Kept(s)
    ensures var u := Unpinned(s, location);
            && TableFits(u.t, s.f.rules - {location}) && Current(u)
            && u.active == s.active && u.f == s.f
    ensures forall i :: 0 <= i < |s.t| && i != location && Pinned(s.t[i]) ==> Unpinned(s, location).t[i] == s.t[i]
    ensures forall i :: 0 <= i < |s.t| && Pinned(Unpinned(s, location).t[i]) ==> i != location && Pinned(s.t[i])
  {
    if location in s.f.rules && IsVlan(s.f.rules[location].m) {
      var t := RuleSet(s.t, location, 0, 0, false);
      RuleSetFits(s.t, s.f.rules, location, s.f.rules[location]);
      RefreshFits(s, t, s.f.rules - {location});
      RefreshKeepsPins(s, t);
    }
  }

  lemma RefreshFits(s: State, t: Table, rules: map<nat, F.Fsp>)
    requires Shaped(s) && TableFits(t, rules)
    ensures TableFits(Refreshed(s, t).t, rules) && Current(Refreshed(s, t))
  {
    RefreshKeeps(s.(f := s.f.(rules := rules)), t);
    var u := Refreshed(s.(f := s.f.(rules := rules)), t);
    assert u.t == Refreshed(s, t).t && u.regs == Refreshed(s, t).regs && u.seen == Refreshed(s, t).seen;
  }

  /** Deleting a rule keeps everything in order, and drops its pin and no other. */
  lemma DeletedKeeps(s: State, location: nat, hwOk: bool)
    requires Kept(s)
    ensures Kept(Deleted(s, location, hwOk))
    ensures forall i :: 0 <= i < |s.t| && i != location && Pinned(s.t[i]) ==> Deleted(s, location, hwOk).t[i] == s.t[i]
    ensures forall i :: 0 <= i < |s.t| && Pinned(Deleted(s, location, hwOk).t[i]) ==> i != location && Pinned(s.t[i])
  {
    UnpinnedKeeps(s, location);
    RemovedRules(s.f, location, hwOk);
  }

  lemma RemovedRules(f: F.State, location: nat, hwOk: bool)
    ensures F.Removed(f, location, hwOk).0.rules == f.rules - {location}
  {}

  /** Where an admitted rule that some filter can hold goes. */
  lemma AdmittedPlace(s: F.State, env: F.Env, fsp: F.Fsp)
    requires F.CheckRule(s, env, fsp).1 == F.OK && F.HasFilter(fsp.m)
    requires F.IsL3L4(fsp.m) ==> F.InFl3l4(fsp.location)
    ensures fsp.location <= F.LAST_LOC_FL3L4 && (IsVlan(fsp.m) <==> fsp.location < VLAN_MAX_FILTERS)
    ensures IsVlan(fsp.m) ==> env.vlanActive(fsp.m.vlanTci)
  {}

  /** The rules before and after an admitted one has been tried. */
  ghost predicate Exchanged(rules: map<nat, F.Fsp>, rules': map<nat, F.Fsp>, fsp: F.Fsp)
  {
    if IsVlan(fsp.m) then fsp.location < VLAN_MAX_FILTERS && rules' == rules[fsp.location := fsp]
    else
      || rules' == rules - {fsp.location}
      || (rules' == rules[fsp.location := fsp] && VLAN_MAX_FILTERS <= fsp.location <= F.LAST_LOC_FL3L4)
  }

  lemma AdmittedExchanges(s: State, env: F.Env, fsp: F.Fsp, a: F.Answers)
    requires Shaped(s) && IsAdmitted(s, env, fsp, a)
    ensures Exchanged(s.f.rules, Step(s, AddRule(env, fsp, a)).f.rules, fsp)
    ensures IsVlan(fsp.m) && fsp.m.vlanTci < |s.active| ==> s.active[fsp.m.vlanTci]
  {
    var e, b := EnvOf(s, env), AnswersOf(fsp.m, a);
    F.AddedRules(s.f, e, fsp, b);
    if F.HasFilter(fsp.m) && (F.IsL3L4(fsp.m) ==> F.InFl3l4(fsp.location)) {
      AdmittedPlace(s.f, e, fsp);
    }
  }

  lemma ExchangedInList(rules: map<nat, F.Fsp>, rules': map<nat, F.Fsp>, fsp: F.Fsp)
    requires InList(rules) && Exchanged(rules, rules', fsp)
    ensures InList(rules')
  {}

  lemma PinnedRuleFits(u: State, rules: map<nat, F.Fsp>, fsp: F.Fsp)
    requires Shaped(u) && IsVlan(fsp.m) && fsp.location < VLAN_MAX_FILTERS && TableFits(u.t, rules - {fsp.location})
    ensures var t := RuleSet(u.t, fsp.location, Vid(fsp.m), QueueOf(fsp.cookie), true);
            TableFits(Refreshed(u, t).t, rules[fsp.location := fsp]) && Current(Refreshed(u, t))
  {
    var t := RuleSet(u.t, fsp.location, Vid(fsp.m), QueueOf(fsp.cookie), true);
    RuleSetFits(u.t, rules - {fsp.location}, fsp.location, fsp);
    assert (rules - {fsp.location})[fsp.location := fsp] == rules[fsp.location := fsp];
    RefreshFits(u, t, rules[fsp.location := fsp]);
  }

  /** A rule at a location of another kind does not matter to the table. */
  lemma OtherRuleFits(t: Table, rules: map<nat, F.Fsp>, fsp: F.Fsp)
    requires TableFits(t, rules - {fsp.location}) && fsp.location >= VLAN_MAX_FILTERS
    ensures TableFits(t, rules[fsp.location := fsp])
  {}

  lemma WithRuleKeeps(s: State, fsp: F.Fsp, rules: map<nat, F.Fsp>)
    requires Kept(s) && Exchanged(s.f.rules, rules, fsp)
    ensures var u := WithRule(s, fsp);
            TableFits(u.t, rules) && Current(u) && u.active == s.active && (s.seen == s.active ==> u.seen == s.seen)
  {
    UnpinnedKeeps(s, fsp.location);
    var u := Unpinned(s, fsp.location);
    if IsVlan(fsp.m) {
      PinnedRuleFits(u, s.f.rules, fsp);
    } else if rules != s.f.rules - {fsp.location} {
      OtherRuleFits(u.t, s.f.rules, fsp);
    }
  }

  /** A pin after a rule has been put in was there before, or is the rule's own. */
  ghost predicate PinFrom(t: Table, t': Table, fsp: F.Fsp, i: nat)
    requires i < |t| == |t'|
  {
    Pinned(t'[i]) ==>
      (Pinned(t[i]) && t'[i] == t[i]) || (IsVlan(fsp.m) && t'[i].vlanId == Vid(fsp.m))
  }

  lemma WithRulePins(s: State, fsp: F.Fsp, i: nat)
    requires Kept(s) && i < |s.t| && (IsVlan(fsp.m) ==> fsp.location < VLAN_MAX_FILTERS)
    ensures PinFrom(s.t, WithRule(s, fsp).t, fsp, i)
  {
    UnpinnedKeeps(s, fsp.location);
    var u := Unpinned(s, fsp.location);
    if IsVlan(fsp.m) {
      RefreshKeepsPins(u, RuleSet(u.t, fsp.location, Vid(fsp.m), QueueOf(fsp.cookie), true));
    }
  }

  lemma AddRuleKeeps(s: State, env: F.Env, fsp: F.Fsp, a: F.Answers)
    requires Kept(s)
    ensures Kept(Step(s, AddRule(env, fsp, a)))
    ensures var t := Step(s, AddRule(env, fsp, a));
            t.active == s.active && (s.seen == s.active ==> t.seen == t.active)
  {
    F.AddedRules(s.f, EnvOf(s, env), fsp, AnswersOf(fsp.m, a));
    if IsAdmitted(s, env, fsp, a) {
      var rules := Step(s, AddRule(env, fsp, a)).f.rules;
      AdmittedExchanges(s, env, fsp, a);
      ExchangedInList(s.f.rules, rules, fsp);
      WithRuleKeeps(s, fsp, rules);
    }
  }

  /** Every step keeps table, list and registers in agreement: rules in the table are different
      and backed by the list, and the device accepts what the table lists, or everything when the
      last update counted more active VLANs than slots. */
  lemma StepKeeps(s: State, op: Op)
    requires Kept(s) && OpOk(op)
    ensures Kept(Step(s, op))
  {
    match op
    case AddVid(v) =>
      RefreshKeeps(s.(active := s.active[v := true]), s.t);
    case KillVid(v, hwOk) =>
      var u := s.(active := s.active[v := false]);
      var first := FirstWith(s.f.rules, v, 0);
      if first.Some? {
        DeletedKeeps(u, first.value, hwOk);
      } else {
        RefreshKeeps(u, s.t);
      }
    case AddRule(env, fsp, a) => AddRuleKeeps(s, env, fsp, a);
    case DropRule(location, hwOk) => DeletedKeeps(s, location, hwOk);
  }

  // ---------------------------------------------------------------- removing a VLAN

  /** The rule that the driver finds for the VLAN is of another kind. */
  predicate Stray(s: State, v: nat)
  {
    var first := FirstWith(s.f.rules, v, 0);
    first.Some? && !IsVlan(s.f.rules[first.value].m)
  }

  /** A rule that pins VLAN v is not the one that removing VLAN v deletes. */
  ghost predicate Outlives(s: State, v: nat)
  {
    exists i :: 0 <= i < |s.t| && Pinned(s.t[i]) && s.t[i].vlanId == v && FirstWith(s.f.rules, v, 0) != Some(i)
  }

  /** Whether the device goes on passing VLAN v once it has been removed: when the rule found is of
      another kind the registers stay as they are; otherwise it does if there still are more active
      VLANs than slots, or another rule pins it. */
  ghost predicate StillPassed(s: State, v: nat)
    requires v < |s.active|
  {
    if Stray(s, v) then Weight(s.seen) > VLAN_MAX_FILTERS || Listed(s.t, v)
    else Weight(s.active[v := false]) > VLAN_MAX_FILTERS || Outlives(s, v)
  }

  /** An inactive VLAN is listed after a refresh exactly when a rule is for it. */
  lemma RefreshedLists(s: State, t: Table, v: nat)
    requires v < |s.active| && !s.active[v]
    ensures Listed(Refreshed(s, t).t, v) <==> Busy(t, v)
  {
    RebuildLists(t, s.active, v);
    if Served(t, s.active, v) {
      ServedIsWanted(t, s.active, v);
    }
  }

  lemma KilledRuleLists(s: State, v: nat, location: nat)
    requires Kept(s) && v < |s.active| && !s.active[v]
    requires location in s.f.rules && IsVlan(s.f.rules[location].m)
    ensures Listed(Unpinned(s, location).t, v) <==>
            exists i :: 0 <= i < |s.t| && Pinned(s.t[i]) && s.t[i].vlanId == v && i != location
  {
    var t := RuleSet(s.t, location, 0, 0, false);
    RefreshedLists(s, t, v);
    assert forall i :: 0 <= i < |s.t| && i != location ==> t[i] == s.t[i];
    if i :| 0 <= i < |s.t| && Pinned(s.t[i]) && s.t[i].vlanId == v && i != location {
      assert Pinned(t[i]) && t[i].vlanId == v;
    }
  }

  lemma AcceptsListed(s: State, v: nat)
    requires Current(s)
    ensures Accepts(s.regs, v) <==> Weight(s.seen) > VLAN_MAX_FILTERS || Listed(s.t, v)
  {}

  lemma KilledLists(s: State, v: nat, hwOk: bool)
    requires Kept(s) && v < VLAN_N_VID && !Stray(s, v)
    ensures var t := Step(s, KillVid(v, hwOk));
            t.seen == s.active[v := false] && (Listed(t.t, v) <==> Outlives(s, v))
  {
    var u := s.(active := s.active[v := false]);
    var first := FirstWith(s.f.rules, v, 0);
    if first.None? {
      RefreshedLists(u, u.t, v);
    } else {
      KilledRuleLists(u, v, first.value);
    }
  }

  /** After removing VLAN v the device no longer passes it, if and only if not StillPassed. */
  lemma KillStopsIff(s: State, v: nat, hwOk: bool)
    requires Kept(s) && v < VLAN_N_VID
    ensures Accepts(Step(s, KillVid(v, hwOk)).regs, v) <==> StillPassed(s, v)
  {
    if Stray(s, v) {
      AcceptsListed(s, v);
    } else {
      StepKeeps(s, KillVid(v, hwOk));
      AcceptsListed(Step(s, KillVid(v, hwOk)), v);
      KilledLists(s, v, hwOk);
    }
  }

  /** The pins of t' are those of t, but for the one at `gone`. */
  ghost predicate PinsBut(t: Table, t': Table, gone: Option<nat>)
  {
    && |t'| == |t|
    && forall i :: 0 <= i < |t| ==>
         && (Pinned(t'[i]) <==> Pinned(t[i]) && gone != Some(i))
         && (Pinned(t'[i]) ==> t'[i] == t[i])
  }

  lemma KilledPins(s: State, v: nat, hwOk: bool)
    requires Kept(s) && v < VLAN_N_VID
    ensures var t := Step(s, KillVid(v, hwOk));
            t.active == s.active[v := false] && PinsBut(s.t, t.t, FirstWith(s.f.rules, v, 0))
  {
    var u := s.(active := s.active[v := false]);
    var first := FirstWith(s.f.rules, v, 0);
    if first.Some? {
      DeletedKeeps(u, first.value, hwOk);
    } else {
      RefreshKeepsPins(u, u.t);
    }
  }

  lemma ActiveButIff(t: Table, t': Table, gone: Option<nat>, active: Bitmap, v: nat)
    requires PinsBut(t, t', gone) && RulesActive(t, active) && v < |active|
    ensures RulesActive(t', active[v := false]) <==>
            !exists i :: 0 <= i < |t| && Pinned(t[i]) && t[i].vlanId == v && gone != Some(i)
  {
    if i :| 0 <= i < |t| && Pinned(t[i]) && t[i].vlanId == v && gone != Some(i) {
      assert Pinned(t'[i]) && t'[i].vlanId == v;
    }
  }

  /** Removing a VLAN leaves every rule in the table with an active VLAN, if and only if the rule
      that pins it, if there is one, is the first of the list with its tag. */
  lemma KillKeepsActiveIff(s: State, v: nat, hwOk: bool)
    requires Kept(s) && RulesActive(s.t, s.active) && v < VLAN_N_VID
    ensures RulesActive(Step(s, KillVid(v, hwOk)).t, Step(s, KillVid(v, hwOk)).active) <==> !Outlives(s, v)
  {
    KilledPins(s, v, hwOk);
    ActiveButIff(s.t, Step(s, KillVid(v, hwOk)).t, FirstWith(s.f.rules, v, 0), s.active, v);
  }

  // ---------------------------------------------------------------- whole runs

  /** The driver's memory as it is allocated, and its first update, whatever the registers held. */
  function Start(r: Regs): (s: State)
    ensures Shaped(s)
  {
    var none := seq(VLAN_N_VID, _ => false);
    var table := seq(VLAN_MAX_FILTERS, _ => VlanFilter(false, 0, 0, 0));
    Refreshed(State(table, none, F.Run([]), r, none), table)
  }

  predicate OpsOk(ops: seq<Op>)
  {
    forall i :: 0 <= i < |ops| ==> OpOk(ops[i])
  }

  function Run(r: Regs, ops: seq<Op>): (s: State)
    requires OpsOk(ops)
    ensures Shaped(s)
    decreases |ops|
  {
    if ops == [] then Start(r) else Step(Run(r, ops[..|ops| - 1]), ops[|ops| - 1])
  }

  lemma StartIsKept(r: Regs)
    ensures Kept(Start(r)) && RulesActive(Start(r).t, Start(r).active) && Start(r).seen == Start(r).active
  {
    var none := seq(VLAN_N_VID, _ => false);
    var table := seq(VLAN_MAX_FILTERS, _ => VlanFilter(false, 0, 0, 0));
    var s := State(table, none, F.Run([]), r, none);
    RefreshKeeps(s, table);
    RefreshKeepsPins(s, table);
  }

  /** Every run, whatever rules and VLANs it goes through, keeps table, list and registers in
      agreement. */
  lemma {:induction false} EveryRunIsKept(r: Regs, ops: seq<Op>)
    requires OpsOk(ops)
    ensures Kept(Run(r, ops))
    decreases |ops|
  {
    if ops == [] {
      StartIsKept(r);
    } else {
      EveryRunIsKept(r, ops[..|ops| - 1]);
      StepKeeps(Run(r, ops[..|ops| - 1]), ops[|ops| - 1]);
    }
  }

  /** No two VLAN rules are for the same VLAN, and none carries more in its tag than the VLAN. */
  ghost predicate NoTwins(rules: map<nat, F.Fsp>)
  {
    && (forall loc :: loc in rules && IsVlan(rules[loc].m) ==> rules[loc].m.vlanTci < VLAN_N_VID)
    && (forall a, b :: a in rules && b in rules && a != b && IsVlan(rules[a].m) && IsVlan(rules[b].m) ==>
          Vid(rules[a].m) != Vid(rules[b].m))
  }

  /** The step does not leave twins behind, and removing a VLAN finds no stray rule. */
  ghost predicate RegularStep(s: State, op: Op)
    requires Shaped(s) && OpOk(op)
  {
    NoTwins(Step(s, op).f.rules) && (op.KillVid? ==> !Stray(s, op.v))
  }

  ghost predicate Regular(r: Regs, ops: seq<Op>)
    requires OpsOk(ops)
    decreases |ops|
  {
    ops == [] ||
    (Regular(r, ops[..|ops| - 1]) && RegularStep(Run(r, ops[..|ops| - 1]), ops[|ops| - 1]))
  }

  /** What regular runs keep besides. */
  ghost predicate Tidy(s: State)
  {
    Kept(s) && NoTwins(s.f.rules) && RulesActive(s.t, s.active) && s.seen == s.active
  }

  lemma TagIsVid(rules: map<nat, F.Fsp>, location: nat)
    requires NoTwins(rules) && location in rules && IsVlan(rules[location].m)
    ensures rules[location].m.vlanTci == Vid(rules[location].m)
  {}

  lemma OnlyOne(rules: map<nat, F.Fsp>, a: nat, b: nat)
    requires NoTwins(rules) && a in rules && b in rules && IsVlan(rules[a].m) && IsVlan(rules[b].m)
    requires Vid(rules[a].m) == Vid(rules[b].m)
    ensures a == b
  {}

  lemma PinIsFirst(s: State, v: nat, i: nat)
    requires Backed(s.t, s.f.rules) && NoTwins(s.f.rules) && !Stray(s, v)
    requires i < |s.t| <= VLAN_MAX_FILTERS && Pinned(s.t[i]) && s.t[i].vlanId == v
    ensures FirstWith(s.f.rules, v, 0) == Some(i)
  {
    var rules, first := s.f.rules, FirstWith(s.f.rules, v, 0);
    assert i in rules && IsVlan(rules[i].m) && Vid(rules[i].m) == v;
    TagIsVid(rules, i);
    assert first.Some? && IsVlan(rules[first.value].m);
    TagIsVid(rules, first.value);
    OnlyOne(rules, i, first.value);
  }

  lemma FirstIsOnly(s: State, v: nat)
    requires Shaped(s) && Backed(s.t, s.f.rules) && NoTwins(s.f.rules) && !Stray(s, v)
    ensures !Outlives(s, v)
  {
    forall i | 0 <= i < |s.t| && Pinned(s.t[i]) && s.t[i].vlanId == v
      ensures FirstWith(s.f.rules, v, 0) == Some(i)
    {
      PinIsFirst(s, v, i);
    }
  }

  /** A rule that has been pinned is for an active VLAN. */
  lemma AdmittedIsActive(s: State, env: F.Env, fsp: F.Fsp, a: F.Answers)
    requires Shaped(s) && IsAdmitted(s, env, fsp, a) && IsVlan(fsp.m)
    requires NoTwins(Step(s, AddRule(env, fsp, a)).f.rules)
    ensures Vid(fsp.m) < |s.active| && s.active[Vid(fsp.m)]
  {
    AdmittedExchanges(s, env, fsp, a);
    TagIsVid(Step(s, AddRule(env, fsp, a)).f.rules, fsp.location);
  }

  lemma AddRuleKeepsActive(s: State, env: F.Env, fsp: F.Fsp, a: F.Answers)
    requires Kept(s) && RulesActive(s.t, s.active) && NoTwins(Step(s, AddRule(env, fsp, a)).f.rules)
    ensures var t := Step(s, AddRule(env, fsp, a)); RulesActive(t.t, s.active)
  {
    var t := Step(s, AddRule(env, fsp, a));
    if IsAdmitted(s, env, fsp, a) {
      AdmittedExchanges(s, env, fsp, a);
      if IsVlan(fsp.m) {
        AdmittedIsActive(s, env, fsp, a);
      }
      forall i | 0 <= i < |t.t| && Pinned(t.t[i])
        ensures t.t[i].vlanId < |s.active| && s.active[t.t[i].vlanId]
      {
        WithRulePins(s, fsp, i);
      }
    }
  }

  lemma StepKeepsTidy(s: State, op: Op)
    requires Tidy(s) && OpOk(op) && RegularStep(s, op)
    ensures Tidy(Step(s, op))
  {
    StepKeeps(s, op);
    match op
    case AddVid(v) =>
      RefreshKeepsPins(s.(active := s.active[v := true]), s.t);
    case KillVid(v, hwOk) =>
      FirstIsOnly(s, v);
      KillKeepsActiveIff(s, v, hwOk);
    case AddRule(env, fsp, a) =>
      AddRuleKeeps(s, env, fsp, a);
      AddRuleKeepsActive(s, env, fsp, a);
    case DropRule(location, hwOk) =>
      DeletedKeeps(s, location, hwOk);
  }

  /** Without twins and stray rules, rules in the table are for active VLANs after every run, and
      the registers have been written for the VLANs that are active now. */
  lemma {:induction false} EveryRunIsTidy(r: Regs, ops: seq<Op>)
    requires OpsOk(ops) && Regular(r, ops)
    ensures Tidy(Run(r, ops))
    decreases |ops|
  {
    if ops == [] {
      StartIsKept(r);
    } else {
      EveryRunIsTidy(r, ops[..|ops| - 1]);
      StepKeepsTidy(Run(r, ops[..|ops| - 1]), ops[|ops| - 1]);
    }
  }

  lemma TidyIsExact(s: State, v: nat)
    requires Tidy(s) && v < VLAN_N_VID
    ensures Accepts(s.regs, v) <==> Weight(s.active) > VLAN_MAX_FILTERS || s.active[v]
  {
    if Weight(s.active) <= VLAN_MAX_FILTERS {
      ExactlyTheActiveListed(s.t, s.active, v);
    }
  }

  /** After every such run the device accepts exactly the active VLANs, or all of them when they
      are more than the table has slots. */
  lemma EveryRunIsExact(r: Regs, ops: seq<Op>, v: nat)
    requires OpsOk(ops) && Regular(r, ops) && v < VLAN_N_VID
    ensures var s := Run(r, ops);
            Accepts(s.regs, v) <==> Weight(s.active) > VLAN_MAX_FILTERS || s.active[v]
  {
    EveryRunIsTidy(r, ops);
    TidyIsExact(Run(r, ops), v);
  }

  /** After every run whose last step was an update, no active VLAN is shut out, if and only if
      more are active than there are slots, or the active ones and the rules for inactive ones
      are together not more than that. */
  lemma ShutsOutIff(s: State)
    requires Kept(s) && s.seen == s.active
    ensures (forall v :: 0 <= v < VLAN_N_VID && s.active[v] ==> Accepts(s.regs, v)) <==>
            Weight(s.active) > VLAN_MAX_FILTERS
            || Weight(s.active) + |InactiveVids(s.t, s.active)| <= VLAN_MAX_FILTERS
  {
    EveryActiveListedIff(s.t, s.active);
    EnoughSlotsIff(s.t, s.active);
  }

  // ---------------------------------------------------------------- runs that are not regular

  const ENV: F.Env := F.Env(true, true, _ => false, 8, 8)
  const YES: F.Answers := F.Answers(true, true, true)

  /** A VLAN rule for VLAN v, for some flow type. */
  function VlanRule(flow: F.Flow, location: nat, v: nat): F.Fsp
  {
    F.Fsp(F.Match(flow, true, false, 0, 0, v, 0, F.VLAN_VID_MASK, 0, []), F.Queue(0), location)
  }

  lemma VlanRuleIsAdmitted(s: State, flow: F.Flow, location: nat, v: nat)
    requires Shaped(s) && (flow.Ether? || flow.TcpV4?) && location < VLAN_MAX_FILTERS && v < VLAN_N_VID && s.active[v]
    requires !F.AlreadyExists(s.f, VlanRule(flow, location, v))
    ensures IsAdmitted(s, ENV, VlanRule(flow, location, v), YES)
  {}

  lemma WithRuleIsPinned(s: State, fsp: F.Fsp)
    requires Shaped(s) && IsVlan(fsp.m) && fsp.location < VLAN_MAX_FILTERS && fsp.cookie.Queue?
    ensures var t := WithRule(s, fsp).t;
            Pinned(t[fsp.location]) && t[fsp.location].vlanId == Vid(fsp.m)
  {
    var u := Unpinned(s, fsp.location);
    RefreshKeepsPin(u, RuleSet(u.t, fsp.location, Vid(fsp.m), QueueOf(fsp.cookie), true), fsp.location);
  }

  lemma AdmittedIsPinned(s: State, env: F.Env, fsp: F.Fsp, a: F.Answers)
    requires Kept(s) && IsAdmitted(s, env, fsp, a) && IsVlan(fsp.m) && fsp.cookie.Queue?
    ensures var t := Step(s, AddRule(env, fsp, a));
            && Kept(t) && t.active == s.active && t.f.rules == s.f.rules[fsp.location := fsp]
            && fsp.location < |t.t| && Pinned(t.t[fsp.location]) && t.t[fsp.location].vlanId == Vid(fsp.m)
  {
    AddRuleKeeps(s, env, fsp, a);
    AdmittedExchanges(s, env, fsp, a);
    WithRuleIsPinned(s, fsp);
  }

  /** A VLAN rule for an active VLAN is admitted, and pins its slot. */
  lemma VlanRuleIsPinned(s: State, flow: F.Flow, location: nat, v: nat)
    requires Kept(s) && (flow.Ether? || flow.TcpV4?) && location < VLAN_MAX_FILTERS && v < VLAN_N_VID && s.active[v]
    requires !F.AlreadyExists(s.f, VlanRule(flow, location, v))
    ensures var t := Step(s, AddRule(ENV, VlanRule(flow, location, v), YES));
            && Kept(t) && t.active == s.active
            && t.f.rules == s.f.rules[location := VlanRule(flow, location, v)]
            && Pinned(t.t[location]) && t.t[location].vlanId == v
  {
    VlanRuleIsAdmitted(s, flow, location, v);
    AdmittedIsPinned(s, ENV, VlanRule(flow, location, v), YES);
    VlanRuleFields(flow, location, v);
  }

  lemma VlanRuleFields(flow: F.Flow, location: nat, v: nat)
    requires v < VLAN_N_VID
    ensures var fsp := VlanRule(flow, location, v);
            IsVlan(fsp.m) && Vid(fsp.m) == v && fsp.cookie.Queue? && fsp.location == location
  {}

  lemma RunSnoc(r: Regs, ops: seq<Op>, op: Op)
    requires OpsOk(ops) && OpOk(op)
    ensures OpsOk(ops + [op]) && Run(r, ops + [op]) == Step(Run(r, ops), op)
  {
    assert (ops + [op])[..|ops|] == ops;
  }

  /** A VLAN is added, and two rules for it that differ in the flow type. */
  function PairOps(v: nat): (ops: seq<Op>)
    requires v < VLAN_N_VID
    ensures OpsOk(ops)
  {
    [] + [AddVid(v)] + [AddRule(ENV, VlanRule(F.Ether, 0, v), YES)] + [AddRule(ENV, VlanRule(F.TcpV4, 1, v), YES)]
  }

  /** And then the VLAN is removed again. */
  function TwinOps(v: nat): (ops: seq<Op>)
    requires v < VLAN_N_VID
    ensures OpsOk(ops)
  {
    PairOps(v) + [KillVid(v, true)]
  }

  lemma FirstRule(r: Regs, v: nat)
    requires v < VLAN_N_VID
    ensures var ops := [] + [AddVid(v)] + [AddRule(ENV, VlanRule(F.Ether, 0, v), YES)];
            var s := Run(r, ops);
            && Kept(s) && s.active == seq(VLAN_N_VID, _ => false)[v := true]
            && s.f.rules == map[0 := VlanRule(F.Ether, 0, v)]
  {
    var add := AddRule(ENV, VlanRule(F.Ether, 0, v), YES);
    RunSnoc(r, [], AddVid(v));
    RunSnoc(r, [] + [AddVid(v)], add);
    StartIsKept(r);
    StepKeeps(Start(r), AddVid(v));
    VlanRuleIsPinned(Step(Start(r), AddVid(v)), F.Ether, 0, v);
  }

  lemma NotSetYet(s: State, v: nat)
    requires s.f.rules == map[0 := VlanRule(F.Ether, 0, v)]
    ensures !F.AlreadyExists(s.f, VlanRule(F.TcpV4, 1, v))
  {}

  lemma PairIsPinned(r: Regs, v: nat)
    requires v < VLAN_N_VID
    ensures var s := Run(r, PairOps(v));
            && Kept(s) && s.active == seq(VLAN_N_VID, _ => false)[v := true]
            && Pinned(s.t[1]) && s.t[1].vlanId == v
            && s.f.rules == map[0 := VlanRule(F.Ether, 0, v), 1 := VlanRule(F.TcpV4, 1, v)]
  {
    var ops := [] + [AddVid(v)] + [AddRule(ENV, VlanRule(F.Ether, 0, v), YES)];
    FirstRule(r, v);
    NotSetYet(Run(r, ops), v);
    RunSnoc(r, ops, AddRule(ENV, VlanRule(F.TcpV4, 1, v), YES));
    VlanRuleIsPinned(Run(r, ops), F.TcpV4, 1, v);
  }

  /** Removing the VLAN of a pinned slot 1 when the first rule found is at location 0. */
  lemma SecondStays(s: State, v: nat)
    requires Kept(s) && v < VLAN_N_VID && Pinned(s.t[1]) && s.t[1].vlanId == v
    requires 0 in s.f.rules && s.f.rules[0].m.vlanTci == v && IsVlan(s.f.rules[0].m)
    ensures var t := Step(s, KillVid(v, true));
            && Kept(t) && t.active == t.seen == s.active[v := false]
            && Accepts(t.regs, v) && t.t[1] == s.t[1]
  {
    assert FirstWith(s.f.rules, v, 0) == Some(0);
    StepKeeps(s, KillVid(v, true));
    KillStopsIff(s, v, true);
    assert Outlives(s, v);
    DeletedKeeps(s.(active := s.active[v := false]), 0, true);
  }

  /** With two rules for one VLAN, removing the VLAN deletes the first rule, and the second goes on
      pinning it: the device still passes the VLAN, though no VLAN is active. */
  lemma TwinOutlives(r: Regs, v: nat)
    requires v < VLAN_N_VID
    ensures var s := Run(r, TwinOps(v));
            && Kept(s) && s.active == s.seen == seq(VLAN_N_VID, _ => false)
            && Accepts(s.regs, v) && Pinned(s.t[1]) && s.t[1].vlanId == v
  {
    PairIsPinned(r, v);
    RunSnoc(r, PairOps(v), KillVid(v, true));
    SecondStays(Run(r, PairOps(v)), v);
    assert seq(VLAN_N_VID, _ => false)[v := true][v := false] == seq(VLAN_N_VID, _ => false);
  }

  function AddVids(from: nat, n: nat): (ops: seq<Op>)
    requires from + n <= VLAN_N_VID
    ensures |ops| == n && OpsOk(ops)
  {
    if n == 0 then [] else AddVids(from, n - 1) + [AddVid(from + n - 1)]
  }

  /** The n VLANs from `from` on are active, and slot 1 is pinned for v. */
  ghost predicate Crowded(s: State, v: nat, from: nat, n: nat)
  {
    && Shaped(s) && s.seen == s.active && Pinned(s.t[1]) && s.t[1].vlanId == v
    && (forall u :: 0 <= u < VLAN_N_VID ==> (s.active[u] <==> from <= u < from + n))
    && Weight(s.active) == n
  }

  lemma OneVidMore(s: State, v: nat, from: nat, n: nat)
    requires Crowded(s, v, from, n) && from + n < VLAN_N_VID
    ensures Crowded(Step(s, AddVid(from + n)), v, from, n + 1)
  {
    WeightOneMore(s.active, from + n);
    RefreshKeepsPin(s.(active := s.active[from + n := true]), s.t, 1);
  }

  lemma TwinIsCrowded(r: Regs, v: nat, from: nat)
    requires v < VLAN_N_VID
    ensures Crowded(Run(r, TwinOps(v)), v, from, 0)
  {
    TwinOutlives(r, v);
    WeightNone(Run(r, TwinOps(v)).active);
  }

  lemma OneAddMore(v: nat, from: nat, n: nat)
    requires v < VLAN_N_VID && 0 < n && from + n <= VLAN_N_VID
    ensures TwinOps(v) + AddVids(from, n) == TwinOps(v) + AddVids(from, n - 1) + [AddVid(from + n - 1)]
  {}

  lemma {:induction false} ManyVids(r: Regs, v: nat, from: nat, n: nat)
    requires v < VLAN_N_VID && from + n <= VLAN_N_VID
    ensures OpsOk(TwinOps(v) + AddVids(from, n)) && Crowded(Run(r, TwinOps(v) + AddVids(from, n)), v, from, n)
    decreases n
  {
    if n == 0 {
      assert TwinOps(v) + AddVids(from, 0) == TwinOps(v);
      TwinIsCrowded(r, v, from);
    } else {
      var init := TwinOps(v) + AddVids(from, n - 1);
      ManyVids(r, v, from, n - 1);
      RunSnoc(r, init, AddVid(from + n - 1));
      OneAddMore(v, from, n);
      OneVidMore(Run(r, init), v, from, n - 1);
    }
  }

  /** What is left of such a pair of rules then takes a slot from an active VLAN: with sixteen others
      active, which is as many as the driver thinks the table can hold, one of them is shut out. */
  lemma TwinShutsOut(r: Regs, v: nat, from: nat) returns (ops: seq<Op>, u: nat)
    requires v < VLAN_N_VID && from + 16 <= VLAN_N_VID && !(from <= v < from + 16)
    ensures OpsOk(ops) && |ops| == 20
    ensures var s := Run(r, ops);
            Weight(s.active) == 16 && u < VLAN_N_VID && s.active[u] && !Accepts(s.regs, u)
  {
    ops := TwinOps(v) + AddVids(from, 16);
    ManyVids(r, v, from, 16);
    EveryRunIsKept(r, ops);
    var s := Run(r, ops);
    var inactive := InactiveVids(s.t, s.active);
    assert v in inactive;
    assert |inactive| > 0;
    ShutsOutIff(s);
    u :| 0 <= u < VLAN_N_VID && s.active[u] && !Accepts(s.regs, u);
  }

  /** An ethertype rule without a tag. */
  function EtherRule(): F.Fsp
  {
    F.Fsp(F.Match(F.Ether, false, false, 0, 0, 0, 0, 0, 0xFFFF, [0x88F7]), F.Queue(0), 16)
  }

  /** VLAN 0 and an ethertype rule are added. */
  function StrayOps(): (ops: seq<Op>)
    ensures OpsOk(ops)
  {
    [] + [AddVid(0)] + [AddRule(ENV, EtherRule(), YES)]
  }

  lemma EtherRuleIsAdmitted(s: State)
    requires Shaped(s) && s.f.rules == map[]
    ensures var t := Step(s, AddRule(ENV, EtherRule(), YES));
            t.regs == s.regs && t.f.rules == map[16 := EtherRule()]
  {
    assert IsAdmitted(s, ENV, EtherRule(), YES);
    F.AddedRules(s.f, EnvOf(s, ENV), EtherRule(), YES);
  }

  lemma FirstVid(r: Regs)
    ensures var s := Step(Start(r), AddVid(0));
            Accepts(s.regs, 0) && s.f.rules == map[]
  {
    StartIsKept(r);
    assert RegularStep(Start(r), AddVid(0));
    StepKeepsTidy(Start(r), AddVid(0));
    TidyIsExact(Step(Start(r), AddVid(0)), 0);
  }

  lemma OnlyRuleIsFirst(rules: map<nat, F.Fsp>, location: nat, v: nat)
    requires location in rules && location <= F.LAST_LOC_FL3L4 && rules[location].m.vlanTci == v
    requires forall loc :: loc in rules ==> loc == location
    ensures FirstWith(rules, v, 0) == Some(location) && rules - {location} == map[]
  {}

  lemma OnlyEtherRule(s: State)
    requires Shaped(s) && s.f.rules == map[16 := EtherRule()]
    ensures var t := Step(s, KillVid(0, true));
            !t.active[0] && t.regs == s.regs && t.f.rules == map[]
  {
    var rules := s.f.rules;
    OnlyRuleIsFirst(rules, 16, 0);
    RemovedRules(s.f, 16, true);
  }

  lemma StrayRun(r: Regs)
    ensures Run(r, StrayOps()) == Step(Step(Start(r), AddVid(0)), AddRule(ENV, EtherRule(), YES))
  {
    RunSnoc(r, [], AddVid(0));
    RunSnoc(r, [] + [AddVid(0)], AddRule(ENV, EtherRule(), YES));
  }

  /** A rule without a tag carries tag zero: removing VLAN 0 finds it, deletes it and leaves the table
      as it is, so the device goes on passing VLAN 0. */
  lemma StrayKeepsVlan(r: Regs)
    ensures var s := Run(r, StrayOps() + [KillVid(0, true)]);
            !s.active[0] && Accepts(s.regs, 0) && s.f.rules == map[]
  {
    StrayRun(r);
    RunSnoc(r, StrayOps(), KillVid(0, true));
    FirstVid(r);
    EtherRuleIsAdmitted(Step(Start(r), AddVid(0)));
    OnlyEtherRule(Run(r, StrayOps()));
  }
}
