/** User rules for receive filters: which ones are admitted, and what adding, replacing and
    deleting them means for the set of rules and for the occupancy of the L3/L4 filters. */
module FilterRules {
  import opened Wrappers

  const FIRST_LOC_FVLANID: nat := 0
  const LAST_LOC_FVLANID: nat := 15
  const FIRST_LOC_FETHERT: nat := 16
  const LAST_LOC_FETHERT: nat := 31
  const FIRST_LOC_FL3L4: nat := 32
  const LAST_LOC_FL3L4: nat := 39
  const VLAN_VID_MASK: nat := 0x0FFF
  const VLAN_PRIO_MASK: nat := 0xE000

  const IPPROTO_IP: nat := 0
  const IPPROTO_TCP: nat := 6
  const IPPROTO_UDP: nat := 17
  const IPPROTO_SCTP: nat := 132

  datatype Flow =
    | Ether
    | TcpV4 | UdpV4 | SctpV4 | IpV4 | IpUser
    | TcpV6 | UdpV6 | SctpV6 | IpV6 | IpV6User
    | OtherFlow(code: nat)

  /** What two rules are compared by: flow type with its two flags, and the header fields and
      masks; `rest` is all of those that the driver does not look at itself. */
  datatype Match = Match(flow: Flow, ext: bool, macExt: bool, proto: nat, tos: nat, vlanTci: nat, vlanEtype: nat,
                         maskTci: nat, maskProto: nat, rest: seq<nat>)

  /** Where matching frames go. */
  datatype Cookie = Discard | Queue(q: nat)
  datatype Fsp = Fsp(m: Match, cookie: Cookie, location: nat)

  datatype Status = OK | EINVAL | EOPNOTSUPP | EEXIST | ENOMEM | HwFailed

  /** What the checks find in the device and the network stack. */
  datatype Env = Env(ntuple: bool, vlanFilter: bool, vlanActive: nat -> bool, rssQueues: nat, cpus: nat)

  datatype State = State(rules: map<nat, Fsp>, activeIpv4: set<nat>, activeIpv6: set<nat>, isIpv6: bool)

  predicate IsV4(f: Flow)
  {
    f.TcpV4? || f.UdpV4? || f.SctpV4? || f.IpV4? || f.IpUser?
  }

  predicate IsV6(f: Flow)
  {
    f.TcpV6? || f.UdpV6? || f.SctpV6? || f.IpV6? || f.IpV6User?
  }

  // ---------------------------------------------------------------- the checks

  predicate RuleIsApprove(m: Match)
  {
    !m.macExt &&
    match m.flow
    case IpUser => m.proto in {IPPROTO_TCP, IPPROTO_UDP, IPPROTO_SCTP, IPPROTO_IP}
    case IpV6User => m.proto in {IPPROTO_TCP, IPPROTO_UDP, IPPROTO_SCTP, IPPROTO_IP}
    case OtherFlow(_) => false
    case _ => true
  }

  /** aq_check_approve_fl3l4, with isIpv6 as the caller has just set it: what it leaves there,
      and whether it admits the rule. */
  function ApproveFl3l4(s: State, isIpv6: bool, location: nat): (bool, bool)
  {
    if isIpv6 && s.activeIpv4 != {} then (false, false)
    else if !isIpv6 && s.activeIpv6 != {} then (true, false)
    else if isIpv6 && location != FIRST_LOC_FL3L4 + 4 && location != FIRST_LOC_FL3L4 then (isIpv6, false)
    else (isIpv6, true)
  }

  predicate ApproveFl2(f: Fsp)
  {
    && FIRST_LOC_FETHERT <= f.location <= LAST_LOC_FETHERT
    && !(f.m.maskTci == VLAN_PRIO_MASK && f.m.maskProto == 0)
  }

  predicate ApproveFvlan(env: Env, f: Fsp)
  {
    && FIRST_LOC_FVLANID <= f.location <= LAST_LOC_FVLANID
    && env.vlanActive(f.m.vlanTci)
    && f.cookie.Queue? && f.cookie.q <= env.rssQueues
  }

  /** aq_check_filter: the isIpv6 it leaves, and whether the rule passes. */
  function CheckFilter(s: State, env: Env, f: Fsp): (bool, bool)
  {
    if f.m.ext then
      (s.isIpv6, if f.m.maskTci == VLAN_VID_MASK then ApproveFvlan(env, f)
                 else f.m.maskTci == VLAN_PRIO_MASK && ApproveFl2(f))
    else if f.m.flow.Ether? then (s.isIpv6, ApproveFl2(f))
    else if IsV4(f.m.flow) then ApproveFl3l4(s, false, f.location)
    else if IsV6(f.m.flow) then ApproveFl3l4(s, true, f.location)
    else (s.isIpv6, false)
  }

  predicate RuleIsNotSupport(env: Env, m: Match)
  {
    || !env.ntuple
    || ((m.vlanTci != 0 || m.vlanEtype != 0) && !env.vlanFilter)
    || !RuleIsApprove(m)
    || (!m.flow.Ether? && m.tos != 0)
  }

  /** A rule at another location says the same. */
  predicate AlreadyExists(s: State, f: Fsp)
  {
    exists loc :: loc in s.rules && loc != f.location && s.rules[loc].m == f.m
  }

  /** aq_check_rule: the isIpv6 it leaves, and its verdict. */
  function CheckRule(s: State, env: Env, f: Fsp): (bool, Status)
  {
    if f.m.macExt || f.location > LAST_LOC_FL3L4 then (s.isIpv6, EINVAL)
    else
      var (isIpv6, passes) := CheckFilter(s, env, f);
      if !passes || (f.cookie.Queue? && f.cookie.q >= env.cpus) then (isIpv6, EINVAL)
      else if RuleIsNotSupport(env, f.m) then (isIpv6, EOPNOTSUPP)
      else if AlreadyExists(s, f) then (isIpv6, EEXIST)
      else (isIpv6, OK)
  }

  // ---------------------------------------------------------------- adding and deleting

  /** The rule goes to an L3/L4 filter. */
  predicate IsL3L4(m: Match)
  {
    !m.ext && (IsV4(m.flow) || IsV6(m.flow)) && !m.flow.IpV4? && !m.flow.IpV6?
  }

  predicate HasFilter(m: Match)
  {
    if m.ext then m.maskTci == VLAN_VID_MASK || m.maskTci == VLAN_PRIO_MASK
    else m.flow.Ether? || IsL3L4(m)
  }

  predicate InFl3l4(location: nat)
  {
    FIRST_LOC_FL3L4 <= location <= LAST_LOC_FL3L4
  }

  /** aq_set_data_fl3l4 on the occupancy. */
  function SetDataFl3l4(s: State, location: nat, add: bool): State
    requires InFl3l4(location)
  {
    var k := location - FIRST_LOC_FL3L4;
    if !add then
      if !s.isIpv6 then s.(activeIpv4 := s.activeIpv4 - {k}) else s.(activeIpv6 := s.activeIpv6 - {k / 4})
    else if !s.isIpv6 then s.(activeIpv4 := s.activeIpv4 + {k})
    else s.(activeIpv6 := s.activeIpv6 + {k / 4})
  }

  /** aq_add_del_rule; hwOk says whether the hardware calls succeed. */
  function AddDelRule(s: State, f: Fsp, add: bool, hwOk: bool): (State, Status)
  {
    if !HasFilter(f.m) then (s, EINVAL)
    else if !IsL3L4(f.m) then (s, if hwOk then OK else HwFailed)
    else if !InFl3l4(f.location) then (s, EINVAL)
    else (SetDataFl3l4(s, f.location, add), if hwOk then OK else HwFailed)
  }

  /** Take the rule at a location away, if there is one. */
  function Removed(s: State, location: nat, hwOk: bool): (State, Status)
  {
    if location !in s.rules then (s, EINVAL)
    else
      var (t, err) := AddDelRule(s, s.rules[location], false, hwOk);
      (t.(rules := t.rules - {location}), err)
  }

  /** What an add meets: whether there is memory for the rule, and whether the hardware calls
      for the replaced rule and for the new one succeed. */
  datatype Answers = Answers(memory: bool, hwDel: bool, hwAdd: bool)

  /** Put a rule that has been admitted in the place of the one at its location. */
  function Put(s: State, f: Fsp, a: Answers): (State, Status)
  {
    var u := Removed(s, f.location, a.hwDel).0;
    var (w, err) := AddDelRule(u, f, true, a.hwAdd);
    if err != OK then (w, err) else (w.(rules := w.rules[f.location := f]), OK)
  }

  /** aq_add_rxnfc_rule. */
  function Added(s: State, env: Env, f: Fsp, a: Answers): (State, Status)
  {
    var (isIpv6, verdict) := CheckRule(s, env, f);
    var t := s.(isIpv6 := isIpv6);
    if verdict != OK then (t, verdict)
    else if !a.memory then (t, ENOMEM)
    else Put(t, f, a)
  }

  // ---------------------------------------------------------------- the invariants

  /** Every rule is under its own location, and only the L3/L4 locations hold L3/L4 rules. */
  ghost predicate InPlace(s: State)
  {
    forall loc :: loc in s.rules ==>
      && s.rules[loc].location == loc && loc <= LAST_LOC_FL3L4
      && (InFl3l4(loc) <==> IsL3L4(s.rules[loc].m))
  }

  predicate V4At(s: State, loc: nat)
  {
    loc in s.rules && IsL3L4(s.rules[loc].m) && IsV4(s.rules[loc].m.flow)
  }

  predicate V6At(s: State, loc: nat)
  {
    loc in s.rules && IsL3L4(s.rules[loc].m) && IsV6(s.rules[loc].m.flow)
  }

  /** An IPv4 rule owns bit k of active_ipv4. */
  predicate V4Bit(s: State, k: nat)
  {
    k < 8 && V4At(s, FIRST_LOC_FL3L4 + k)
  }

  /** An IPv6 rule owns bit k of active_ipv6. */
  predicate V6Bit(s: State, k: nat)
  {
    k < 2 && V6At(s, FIRST_LOC_FL3L4 + 4 * k)
  }

  /** The occupancy agrees with the rules. */
  ghost predicate Agrees(s: State)
  {
    && (forall k :: k in s.activeIpv4 <==> V4Bit(s, k))
    && (forall k :: k in s.activeIpv6 <==> V6Bit(s, k))
    && (forall loc :: V6At(s, loc) ==> loc == FIRST_LOC_FL3L4 || loc == FIRST_LOC_FL3L4 + 4)
  }

  /** The families are not mixed, and isIpv6 names the one that is present. */
  predicate OneFamily(s: State)
  {
    && (s.activeIpv4 != {} ==> !s.isIpv6 && s.activeIpv6 == {})
    && (s.activeIpv6 != {} ==> s.isIpv6)
  }

  /** No two rules say the same. */
  ghost predicate Distinct(s: State)
  {
    forall a, b :: a in s.rules && b in s.rules && a != b ==> s.rules[a].m != s.rules[b].m
  }

  ghost predicate Occupancy(s: State)
  {
    InPlace(s) && Agrees(s) && OneFamily(s)
  }

  /** What a rule that is admitted, and that a filter can hold, has passed. */
  lemma Admitted(s: State, env: Env, f: Fsp)
    requires CheckRule(s, env, f).1 == OK && HasFilter(f.m)
    ensures f.location <= LAST_LOC_FL3L4 && !AlreadyExists(s, f)
    ensures !IsL3L4(f.m) ==> f.location < FIRST_LOC_FL3L4 && CheckRule(s, env, f).0 == s.isIpv6
    ensures IsL3L4(f.m) ==>
              && CheckRule(s, env, f).0 == IsV6(f.m.flow)
              && (if IsV6(f.m.flow) then
                    s.activeIpv4 == {} && (f.location == FIRST_LOC_FL3L4 || f.location == FIRST_LOC_FL3L4 + 4)
                  else s.activeIpv6 == {})
  {}

  // ---------------------------------------------------------------- deleting

  lemma RemoveKeepsRules(s: State, location: nat, hwOk: bool)
    requires InPlace(s) && Distinct(s)
    ensures InPlace(Removed(s, location, hwOk).0) && Distinct(Removed(s, location, hwOk).0)
  {}

  lemma RemoveKeepsV4Bit(s: State, location: nat, hwOk: bool, k: nat)
    requires Occupancy(s) && location in s.rules && IsL3L4(s.rules[location].m)
    ensures var t := Removed(s, location, hwOk).0;
            k in t.activeIpv4 <==> V4Bit(t, k)
  {
    FamilyOf(s, location);
    assert V4Bit(s, k) == (k in s.activeIpv4);
  }

  lemma RemoveKeepsV6Bit(s: State, location: nat, hwOk: bool, k: nat)
    requires Occupancy(s) && location in s.rules && IsL3L4(s.rules[location].m)
    ensures var t := Removed(s, location, hwOk).0;
            k in t.activeIpv6 <==> V6Bit(t, k)
  {
    var t := Removed(s, location, hwOk).0;
    FamilyOf(s, location);
    assert V6Bit(s, k) == (k in s.activeIpv6);
    if k < 2 {
      assert t.rules == s.rules - {location};
      assert V6At(t, FIRST_LOC_FL3L4 + 4 * k) <==>
             V6At(s, FIRST_LOC_FL3L4 + 4 * k) && location != FIRST_LOC_FL3L4 + 4 * k;
      if V6At(s, location) {
        assert location == FIRST_LOC_FL3L4 || location == FIRST_LOC_FL3L4 + 4;
      }
    }
  }

  /** The bit that is cleared is the one the rule had, because isIpv6 names its family. */
  lemma RemoveKeepsOccupancy(s: State, location: nat, hwOk: bool)
    requires Occupancy(s)
    ensures Occupancy(Removed(s, location, hwOk).0)
  {
    var t := Removed(s, location, hwOk).0;
    if location in s.rules && IsL3L4(s.rules[location].m) {
      forall k
        ensures k in t.activeIpv4 <==> V4Bit(t, k)
        ensures k in t.activeIpv6 <==> V6Bit(t, k)
      {
        RemoveKeepsV4Bit(s, location, hwOk, k);
        RemoveKeepsV6Bit(s, location, hwOk, k);
      }
    } else {
      assert forall k :: V4Bit(t, k) == V4Bit(s, k);
      assert forall k :: V6Bit(t, k) == V6Bit(s, k);
    }
    assert forall loc :: V6At(t, loc) ==> V6At(s, loc);
  }

  lemma FamilyOf(s: State, location: nat)
    requires Occupancy(s) && location in s.rules && IsL3L4(s.rules[location].m)
    ensures s.isIpv6 == IsV6(s.rules[location].m.flow)
    ensures V4At(s, location) ==> location - FIRST_LOC_FL3L4 in s.activeIpv4
    ensures V6At(s, location) ==> (location - FIRST_LOC_FL3L4) / 4 in s.activeIpv6
  {
    var j: nat := location - FIRST_LOC_FL3L4;
    if V4At(s, location) {
      assert V4Bit(s, j);
    } else {
      assert V6At(s, location);
      assert V6Bit(s, j / 4);
    }
  }

  // ---------------------------------------------------------------- adding

  /** Checking a rule may turn isIpv6, but never away from a family that is present. */
  lemma CheckKeepsOccupancy(s: State, env: Env, f: Fsp)
    requires Occupancy(s)
    ensures Occupancy(s.(isIpv6 := CheckRule(s, env, f).0))
  {
    var t := s.(isIpv6 := CheckRule(s, env, f).0);
    assert forall k :: V4Bit(t, k) == V4Bit(s, k);
    assert forall k :: V6Bit(t, k) == V6Bit(s, k);
    assert forall loc :: V6At(t, loc) == V6At(s, loc);
  }

  /** What an add does to the rules: a rule that fails the checks changes nothing, one that
      passes replaces the rule at its location, and if it then fails, that rule is lost. */
  lemma AddedRules(s: State, env: Env, f: Fsp, a: Answers)
    ensures var (t, err) := Added(s, env, f, a);
            var admitted := CheckRule(s, env, f).1 == OK && a.memory;
            && (err == OK <==> admitted && HasFilter(f.m) && (IsL3L4(f.m) ==> InFl3l4(f.location)) && a.hwAdd)
            && t.rules == if err == OK then s.rules[f.location := f]
                          else if admitted then s.rules - {f.location} else s.rules
  {}

  lemma PutKeepsRules(s: State, f: Fsp)
    requires InPlace(s) && Distinct(s) && f.location <= LAST_LOC_FL3L4 && (InFl3l4(f.location) <==> IsL3L4(f.m))
    requires !AlreadyExists(s, f)
    ensures InPlace(s.(rules := s.rules[f.location := f])) && Distinct(s.(rules := s.rules[f.location := f]))
  {}

  /** Adding keeps rules in place and different, whatever fails. */
  lemma AddKeepsRules(s: State, env: Env, f: Fsp, a: Answers)
    requires InPlace(s) && Distinct(s)
    ensures InPlace(Added(s, env, f, a).0) && Distinct(Added(s, env, f, a).0)
  {
    AddedRules(s, env, f, a);
    var (t, err) := Added(s, env, f, a);
    if err == OK {
      Admitted(s, env, f);
      PutKeepsRules(s, f);
      assert InPlace(t) && Distinct(t);
    }
  }

  /** The hardware refuses a rule for an L3/L4 filter. */
  predicate LeavesBitBehind(s: State, env: Env, f: Fsp, a: Answers)
  {
    CheckRule(s, env, f).1 == OK && a.memory && IsL3L4(f.m) && InFl3l4(f.location) && !a.hwAdd
  }

  lemma PutKeepsOccupancy(u: State, f: Fsp)
    requires Occupancy(u) && f.location !in u.rules && IsL3L4(f.m) && InFl3l4(f.location)
    requires u.isIpv6 == IsV6(f.m.flow)
    requires if IsV6(f.m.flow) then
               u.activeIpv4 == {} && (f.location == FIRST_LOC_FL3L4 || f.location == FIRST_LOC_FL3L4 + 4)
             else u.activeIpv6 == {}
    ensures var w := SetDataFl3l4(u, f.location, true);
            Occupancy(w.(rules := w.rules[f.location := f]))
  {
    var w := SetDataFl3l4(u, f.location, true);
    var t := w.(rules := w.rules[f.location := f]);
    forall k
      ensures k in t.activeIpv4 <==> V4Bit(t, k)
    {
      assert V4Bit(u, k) == (k in u.activeIpv4);
    }
    forall k
      ensures k in t.activeIpv6 <==> V6Bit(t, k)
    {
      assert V6Bit(u, k) == (k in u.activeIpv6);
    }
    assert forall loc :: V6At(t, loc) ==> V6At(u, loc) || loc == f.location;
  }

  lemma PutElsewhereKeepsOccupancy(u: State, f: Fsp)
    requires Occupancy(u) && f.location !in u.rules && !IsL3L4(f.m) && f.location < FIRST_LOC_FL3L4
    ensures Occupancy(u.(rules := u.rules[f.location := f]))
  {
    var t := u.(rules := u.rules[f.location := f]);
    assert forall k :: V4Bit(t, k) == V4Bit(u, k);
    assert forall k :: V6Bit(t, k) == V6Bit(u, k);
    assert forall loc :: V6At(t, loc) == V6At(u, loc);
  }

  /** A rule that may go where it says. */
  predicate MayGo(s: State, f: Fsp)
  {
    if !HasFilter(f.m) then true
    else if !IsL3L4(f.m) then f.location < FIRST_LOC_FL3L4
    else
      && s.isIpv6 == IsV6(f.m.flow)
      && (if s.isIpv6 then s.activeIpv4 == {} && (f.location == FIRST_LOC_FL3L4 || f.location == FIRST_LOC_FL3L4 + 4)
          else s.activeIpv6 == {})
  }

  lemma RemovedFacts(s: State, f: Fsp, hwDel: bool)
    requires MayGo(s, f)
    ensures var u := Removed(s, f.location, hwDel).0; f.location !in u.rules && MayGo(u, f)
  {}

  lemma PutOccupancyIff(s: State, f: Fsp, a: Answers)
    requires Occupancy(s) && MayGo(s, f)
    ensures Occupancy(Put(s, f, a).0) <==> !(IsL3L4(f.m) && InFl3l4(f.location) && !a.hwAdd)
  {
    var u := Removed(s, f.location, a.hwDel).0;
    RemoveKeepsOccupancy(s, f.location, a.hwDel);
    RemovedFacts(s, f, a.hwDel);
    if HasFilter(f.m) {
      if !IsL3L4(f.m) {
        PutElsewhereKeepsOccupancy(u, f);
      } else if InFl3l4(f.location) {
        PutKeepsOccupancy(u, f);
        BitWithoutRule(u, f);
      }
    }
  }

  /** Adding keeps the occupancy in agreement with the rules exactly when the hardware does not
      refuse an L3/L4 rule: then the bit stays behind without one. */
  lemma AddKeepsOccupancyIff(s: State, env: Env, f: Fsp, a: Answers)
    requires Occupancy(s)
    ensures Occupancy(Added(s, env, f, a).0) <==> !LeavesBitBehind(s, env, f, a)
  {
    CheckKeepsOccupancy(s, env, f);
    if CheckRule(s, env, f).1 == OK && a.memory {
      if HasFilter(f.m) {
        Admitted(s, env, f);
      }
      PutOccupancyIff(s.(isIpv6 := CheckRule(s, env, f).0), f, a);
    }
  }

  lemma BitWithoutRule(u: State, f: Fsp)
    requires Occupancy(u) && f.location !in u.rules && InFl3l4(f.location)
    requires u.isIpv6 ==> f.location == FIRST_LOC_FL3L4 || f.location == FIRST_LOC_FL3L4 + 4
    ensures !Occupancy(SetDataFl3l4(u, f.location, true))
  {
    var w := SetDataFl3l4(u, f.location, true);
    var k: nat := f.location - FIRST_LOC_FL3L4;
    if u.isIpv6 {
      assert k / 4 in w.activeIpv6 && !V6Bit(w, k / 4);
    } else {
      assert k in w.activeIpv4 && !V4Bit(w, k);
    }
  }

  // ---------------------------------------------------------------- whole runs

  datatype Op = Add(env: Env, f: Fsp, a: Answers) | Delete(location: nat, hwOk: bool)

  function Step(s: State, op: Op): State
  {
    match op
    case Add(env, f, a) => Added(s, env, f, a).0
    case Delete(location, hwOk) => Removed(s, location, hwOk).0
  }

  function Run(ops: seq<Op>): State
    decreases |ops|
  {
    if ops == [] then State(map[], {}, {}, false) else Step(Run(ops[..|ops| - 1]), ops[|ops| - 1])
  }

  /** The rule that the last operation which had an effect on a location left there. */
  function LastAt(ops: seq<Op>, location: nat): Option<Fsp>
    decreases |ops|
  {
    if ops == [] then None
    else
      var before, op := ops[..|ops| - 1], ops[|ops| - 1];
      match op
      case Add(env, f, a) =>
        if f.location != location || CheckRule(Run(before), env, f).1 != OK || !a.memory then LastAt(before, location)
        else if Added(Run(before), env, f, a).1 == OK then Some(f) else None
      case Delete(l, hwOk) => if l == location then None else LastAt(before, location)
  }

  /** In every run rules stay in place and different, and each location holds the last rule
      added to it. */
  lemma {:induction false} EveryRunKeepsRules(ops: seq<Op>)
    ensures InPlace(Run(ops)) && Distinct(Run(ops))
    ensures forall loc :: Lookup(Run(ops), loc) == LastAt(ops, loc)
    decreases |ops|
  {
    if ops != [] {
      var before := ops[..|ops| - 1];
      var s := Run(before);
      EveryRunKeepsRules(before);
      match ops[|ops| - 1] {
        case Add(env, f, a) =>
          AddKeepsRules(s, env, f, a);
          AddedRules(s, env, f, a);
        case Delete(location, hwOk) =>
          RemoveKeepsRules(s, location, hwOk);
      }
      forall loc: nat
        ensures Lookup(Run(ops), loc) == LastAt(ops, loc)
      {
        assert Lookup(s, loc) == LastAt(before, loc);
      }
    }
  }

  function Lookup(s: State, location: nat): Option<Fsp>
  {
    if location in s.rules then Some(s.rules[location]) else None
  }

  /** No hardware call of the run refuses an L3/L4 rule. */
  predicate HardwareAccepts(ops: seq<Op>)
    decreases |ops|
  {
    ops == [] ||
    (&& HardwareAccepts(ops[..|ops| - 1])
     && match ops[|ops| - 1]
        case Add(env, f, a) => !LeavesBitBehind(Run(ops[..|ops| - 1]), env, f, a)
        case Delete(_, _) => true)
  }

  /** In every such run, rejected and failed adds included, the occupancy agrees with the rules,
      the families are not mixed, and isIpv6 names the one that is present. */
  lemma {:induction false} EveryRunKeepsOccupancy(ops: seq<Op>)
    requires HardwareAccepts(ops)
    ensures Occupancy(Run(ops))
    decreases |ops|
  {
    if ops != [] {
      var s := Run(ops[..|ops| - 1]);
      EveryRunKeepsOccupancy(ops[..|ops| - 1]);
      match ops[|ops| - 1]
      case Add(env, f, a) => AddKeepsOccupancyIff(s, env, f, a);
      case Delete(location, hwOk) => RemoveKeepsOccupancy(s, location, hwOk);
    }
  }

  /** Two VLAN rules that differ in the flow type alone are both admitted for one VLAN. */
  lemma TwinsAreAdmitted() returns (env: Env, f: Fsp, g: Fsp)
    ensures f.location == 0 && g.location == 1 && f.m.vlanTci == 5 && g.m == f.m.(flow := TcpV4)
    ensures f.m.ext && f.m.maskTci == VLAN_VID_MASK
    ensures var a := Answers(true, true, true);
            var (s, err) := Added(Run([]), env, f, a);
            err == OK && Added(s, env, g, a).1 == OK
  {
    env := Env(true, true, v => v == 5, 8, 8);
    var m := Match(Ether, true, false, 0, 0, 5, 0, VLAN_VID_MASK, 0, []);
    f := Fsp(m, Queue(0), 0);
    g := Fsp(m.(flow := TcpV4), Queue(1), 1);
    AddedRules(Run([]), env, f, Answers(true, true, true));
  }
}
