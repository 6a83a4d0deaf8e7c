/** The rule list as the driver keeps it: sorted by location, with a counter beside it. Its
    methods are the operations of FilterRules on the set of rules that the list stands for. */
module FilterTable {
  import opened Wrappers
  import opened FilterRules

  ghost predicate Sorted(l: seq<Fsp>)
  {
    forall i, j :: 0 <= i < j < |l| ==> l[i].location < l[j].location
  }

  /** The rules of a list, by location. */
  function ToMap(l: seq<Fsp>): map<nat, Fsp>
  {
    if l == [] then map[] else ToMap(l[..|l| - 1])[l[|l| - 1].location := l[|l| - 1]]
  }

  lemma {:induction false} InMap(l: seq<Fsp>)
    requires Sorted(l)
    ensures forall i :: 0 <= i < |l| ==> l[i].location in ToMap(l) && ToMap(l)[l[i].location] == l[i]
    ensures forall loc :: loc in ToMap(l) ==> exists i :: 0 <= i < |l| && l[i].location == loc
  {
    if l != [] {
      InMap(l[..|l| - 1]);
      assert l == l[..|l| - 1] + [l[|l| - 1]];
    }
  }

  lemma {:induction false} MapBounded(l: seq<Fsp>, n: nat)
    requires forall i :: 0 <= i < |l| ==> l[i].location < n
    ensures forall loc :: loc in ToMap(l) ==> loc < n
    decreases |l|
  {
    if l != [] {
      MapBounded(l[..|l| - 1], n);
      assert l[|l| - 1].location < n;
    }
  }

  /** The last rule has the greatest location. */
  lemma LastInMap(l: seq<Fsp>)
    requires Sorted(l) && l != []
    ensures var last := l[|l| - 1];
            && last.location in ToMap(l) && ToMap(l)[last.location] == last
            && (forall loc :: loc in ToMap(l) ==> loc <= last.location)
            && ToMap(l[..|l| - 1]) == ToMap(l) - {last.location}
  {
    var init, last := l[..|l| - 1], l[|l| - 1];
    assert forall i :: 0 <= i < |init| ==> init[i].location < last.location;
    MapBounded(init, last.location);
    PutGreatest(ToMap(init), last.location, last);
  }

  lemma PutGreatest(m: map<nat, Fsp>, k: nat, f: Fsp)
    requires forall loc :: loc in m ==> loc < k
    ensures m[k := f] - {k} == m
  {}

  lemma MapSnoc(l: seq<Fsp>, f: Fsp)
    ensures ToMap(l + [f]) == ToMap(l)[f.location := f]
  {
    assert (l + [f])[..|l|] == l;
  }

  lemma {:induction false} MapOfPut(l: seq<Fsp>, p: nat, f: Fsp)
    requires p <= |l| && forall i :: p <= i < |l| ==> l[i].location != f.location
    ensures ToMap(l[..p] + [f] + l[p..]) == ToMap(l)[f.location := f]
    decreases |l|
  {
    if p == |l| {
      assert l[..p] + [f] + l[p..] == l + [f];
      MapSnoc(l, f);
    } else {
      var init, last := l[..|l| - 1], l[|l| - 1];
      MapOfPut(init, p, f);
      assert l[..p] + [f] + l[p..] == (init[..p] + [f] + init[p..]) + [last];
      MapSnoc(init[..p] + [f] + init[p..], last);
      UpdatesCommute(ToMap(init), f, last);
    }
  }

  lemma UpdatesCommute(m: map<nat, Fsp>, f: Fsp, g: Fsp)
    requires f.location != g.location
    ensures m[f.location := f][g.location := g] == m[g.location := g][f.location := f]
  {}

  lemma {:induction false} MapOfRemove(l: seq<Fsp>, p: nat)
    requires Sorted(l) && p < |l|
    ensures ToMap(l[..p] + l[p + 1..]) == ToMap(l) - {l[p].location}
    decreases |l|
  {
    var init, last := l[..|l| - 1], l[|l| - 1];
    if p == |l| - 1 {
      LastInMap(l);
      assert l[..p] + l[p + 1..] == init;
    } else {
      MapOfRemove(init, p);
      assert l[..p] + l[p + 1..] == (init[..p] + init[p + 1..]) + [last];
      MapSnoc(init[..p] + init[p + 1..], last);
      RemoveCommutes(ToMap(init), l[p].location, last);
    }
  }

  lemma RemoveCommutes(m: map<nat, Fsp>, location: nat, g: Fsp)
    requires location != g.location
    ensures (m - {location})[g.location := g] == m[g.location := g] - {location}
  {}

  lemma EmptyMap(l: seq<Fsp>)
    requires Sorted(l)
    ensures ToMap(l) == map[] <==> l == []
  {
    if l != [] {
      LastInMap(l);
    }
  }

  lemma LastsAgree(m: map<nat, Fsp>, x: Fsp, y: Fsp)
    requires x.location in m && m[x.location] == x && y.location in m && m[y.location] == y
    requires forall loc :: loc in m ==> loc <= x.location
    requires forall loc :: loc in m ==> loc <= y.location
    ensures x == y
  {}

  lemma Peel(a: seq<Fsp>, b: seq<Fsp>)
    requires Sorted(a) && Sorted(b) && ToMap(a) == ToMap(b) && a != []
    ensures b != [] && a[|a| - 1] == b[|b| - 1]
    ensures ToMap(a[..|a| - 1]) == ToMap(b[..|b| - 1])
  {
    EmptyMap(a);
    EmptyMap(b);
    LastInMap(a);
    LastInMap(b);
    LastsAgree(ToMap(a), a[|a| - 1], b[|b| - 1]);
  }

  lemma SameEnds(a: seq<Fsp>, b: seq<Fsp>)
    requires a != [] && b != [] && a[..|a| - 1] == b[..|b| - 1] && a[|a| - 1] == b[|b| - 1]
    ensures a == b
  {
    assert a == a[..|a| - 1] + [a[|a| - 1]];
    assert b == b[..|b| - 1] + [b[|b| - 1]];
  }

  /** A sorted list is determined by the rules it stands for, so a listing shows every location
      once and in order. */
  lemma {:induction false} ListIsDetermined(a: seq<Fsp>, b: seq<Fsp>)
    requires Sorted(a) && Sorted(b) && ToMap(a) == ToMap(b)
    ensures a == b
    decreases |a|
  {
    if a == [] {
      EmptyMap(a);
      EmptyMap(b);
    } else {
      Peel(a, b);
      ListIsDetermined(a[..|a| - 1], b[..|b| - 1]);
      SameEnds(a, b);
    }
  }

  /** Setting the hardware up with the rule already in the list, as the driver does. */
  lemma PutIs(u: State, f: Fsp, hwAdd: bool)
    requires f.location !in u.rules
    ensures var (w, err) := AddDelRule(u, f, true, hwAdd);
            var (w', err') := AddDelRule(u.(rules := u.rules[f.location := f]), f, true, hwAdd);
            && err' == err && w.rules == u.rules && w' == w.(rules := u.rules[f.location := f])
            && w'.rules - {f.location} == w.rules
  {
    assert u.rules[f.location := f] - {f.location} == u.rules;
  }

  class RxFltrs {
    var filterList: seq<Fsp>
    var activeFilters: nat
    var activeIpv4: set<nat>
    var activeIpv6: set<nat>
    var isIpv6: bool

    ghost predicate Valid()
      reads this
    {
      Sorted(filterList) && activeFilters == |filterList|
    }

    ghost function Abs(): State
      reads this
    {
      State(ToMap(filterList), activeIpv4, activeIpv6, isIpv6)
    }

    constructor ()
      ensures Valid() && Abs() == Run([])
    {
      filterList, activeFilters, activeIpv4, activeIpv6, isIpv6 := [], 0, {}, {}, false;
    }

    method RuleAlreadyExists(f: Fsp) returns (exist: bool)
      requires Valid()
      ensures exist == AlreadyExists(Abs(), f)
    {
      InMap(filterList);
      for i := 0 to |filterList|
        invariant forall j :: 0 <= j < i ==> filterList[j].location == f.location || filterList[j].m != f.m
      {
        if filterList[i].location == f.location {
          continue;
        }
        if filterList[i].m == f.m {
          return true;
        }
      }
      exist := false;
    }

    /** aq_check_approve_fl3l4. */
    method CheckApproveFl3l4(location: nat) returns (ok: bool)
      modifies this`isIpv6
      ensures (isIpv6, ok) == ApproveFl3l4(old(Abs()), old(isIpv6), location)
    {
      if isIpv6 && activeIpv4 != {} {
        isIpv6 := false;
        return false;
      } else if !isIpv6 && activeIpv6 != {} {
        isIpv6 := true;
        return false;
      } else if isIpv6 && location != FIRST_LOC_FL3L4 + 4 && location != FIRST_LOC_FL3L4 {
        return false;
      }
      ok := true;
    }

    /** aq_check_filter. */
    method CheckTheFilter(env: Env, f: Fsp) returns (ok: bool)
      modifies this`isIpv6
      ensures (isIpv6, ok) == CheckFilter(old(Abs()), env, f)
    {
      if f.m.ext {
        if f.m.maskTci == VLAN_VID_MASK {
          ok := ApproveFvlan(env, f);
        } else if f.m.maskTci == VLAN_PRIO_MASK {
          ok := ApproveFl2(f);
        } else {
          ok := false;
        }
      } else if f.m.flow.Ether? {
        ok := ApproveFl2(f);
      } else if IsV4(f.m.flow) {
        isIpv6 := false;
        ok := CheckApproveFl3l4(f.location);
      } else if IsV6(f.m.flow) {
        isIpv6 := true;
        ok := CheckApproveFl3l4(f.location);
      } else {
        ok := false;
      }
    }

    /** aq_check_rule. */
    method CheckTheRule(env: Env, f: Fsp) returns (err: Status)
      requires Valid()
      modifies this`isIpv6
      ensures Valid() && (isIpv6, err) == CheckRule(old(Abs()), env, f)
    {
      if f.m.macExt || f.location > LAST_LOC_FL3L4 {
        return EINVAL;
      }
      var ok := CheckTheFilter(env, f);
      if !ok || (f.cookie.Queue? && f.cookie.q >= env.cpus) {
        return EINVAL;
      }
      if RuleIsNotSupport(env, f.m) {
        return EOPNOTSUPP;
      }
      var exist := RuleAlreadyExists(f);
      err := if exist then EEXIST else OK;
    }

    /** aq_add_del_rule, with the part of aq_set_data_fl3l4 that keeps the occupancy. */
    method AddDelTheRule(f: Fsp, add: bool, hwOk: bool) returns (err: Status)
      modifies this`activeIpv4, this`activeIpv6
      ensures (Abs(), err) == AddDelRule(old(Abs()), f, add, hwOk)
      ensures !IsL3L4(f.m) ==> activeIpv4 == old(activeIpv4) && activeIpv6 == old(activeIpv6)
      ensures isIpv6 ==> activeIpv4 == old(activeIpv4)
      ensures !isIpv6 ==> activeIpv6 == old(activeIpv6)
    {
      if !HasFilter(f.m) {
        return EINVAL;
      }
      if IsL3L4(f.m) {
        if !InFl3l4(f.location) {
          return EINVAL;
        }
        var k: nat := f.location - FIRST_LOC_FL3L4;
        if add {
          if !isIpv6 {
            activeIpv4 := activeIpv4 + {k};
          } else {
            activeIpv6 := activeIpv6 + {k / 4};
          }
        } else {
          if !isIpv6 {
            activeIpv4 := activeIpv4 - {k};
          } else {
            activeIpv6 := activeIpv6 - {k / 4};
          }
        }
      }
      err := if hwOk then OK else HwFailed;
    }

    /** The first position whose location is not below `location`. */
    method Find(location: nat) returns (p: nat)
      ensures p <= |filterList|
      ensures forall i :: 0 <= i < p ==> filterList[i].location < location
      ensures p < |filterList| ==> location <= filterList[p].location
    {
      p := 0;
      while p < |filterList|
        invariant p <= |filterList| && forall i :: 0 <= i < p ==> filterList[i].location < location
      {
        if filterList[p].location >= location {
          break;
        }
        p := p + 1;
      }
    }

    /** Take the rule at position p out of the list. */
    method Drop(p: nat, hwOk: bool) returns (err: Status)
      requires Valid() && p < |filterList|
      modifies this
      ensures Valid() && filterList == old(filterList[..p] + filterList[p + 1..])
      ensures (Abs(), err) == Removed(old(Abs()), old(filterList[p].location), hwOk)
    {
      InMap(filterList);
      MapOfRemove(filterList, p);
      err := AddDelTheRule(filterList[p], false, hwOk);
      filterList := filterList[..p] + filterList[p + 1..];
      activeFilters := activeFilters - 1;
    }

    /** The first half of aq_update_table_filters: the rule that is at the location goes. */
    method MakeRoom(location: nat, hwDel: bool) returns (p: nat)
      requires Valid()
      modifies this
      ensures Valid() && p <= |filterList|
      ensures forall i :: 0 <= i < p ==> filterList[i].location < location
      ensures forall i :: p <= i < |filterList| ==> location < filterList[i].location
      ensures Abs() == Removed(old(Abs()), location, hwDel).0
    {
      p := Find(location);
      InMap(filterList);
      if p < |filterList| && filterList[p].location == location {
        var _ := Drop(p, hwDel);
      } else {
        assert location !in ToMap(filterList);
      }
    }

    /** aq_update_table_filters, when there is a rule to put in. */
    method UpdateTableFilters(f: Fsp, hwDel: bool) returns (p: nat)
      requires Valid()
      modifies this
      ensures Valid() && p < |filterList| && filterList[p] == f
      ensures var u := Removed(old(Abs()), f.location, hwDel).0;
              Abs() == u.(rules := u.rules[f.location := f])
    {
      p := MakeRoom(f.location, hwDel);
      MapOfPut(filterList, p, f);
      filterList := filterList[..p] + [f] + filterList[p..];
      activeFilters := activeFilters + 1;
    }

    /** Put the rule in, and take it out again if that fails. */
    method PutRule(f: Fsp, a: Answers) returns (err: Status)
      requires Valid()
      modifies this
      ensures Valid() && (Abs(), err) == Put(old(Abs()), f, a)
    {
      var p := UpdateTableFilters(f, a.hwDel);
      ghost var u := Removed(old(Abs()), f.location, a.hwDel).0;
      err := AddDelTheRule(f, true, a.hwAdd);
      PutIs(u, f, a.hwAdd);
      if err != OK {
        TakeOut(p);
      }
    }

    /** A rule that failed leaves the list again. */
    method TakeOut(p: nat)
      requires Valid() && p < |filterList|
      modifies this`filterList, this`activeFilters
      ensures Valid() && ToMap(filterList) == ToMap(old(filterList)) - {old(filterList[p].location)}
    {
      MapOfRemove(filterList, p);
      filterList := filterList[..p] + filterList[p + 1..];
      activeFilters := activeFilters - 1;
    }

    /** aq_add_rxnfc_rule. */
    method AddRxnfcRule(env: Env, f: Fsp, a: Answers) returns (err: Status)
      requires Valid()
      modifies this
      ensures Valid() && (Abs(), err) == Added(old(Abs()), env, f, a)
    {
      err := CheckTheRule(env, f);
      if err != OK {
        return;
      }
      if !a.memory {
        return ENOMEM;
      }
      err := PutRule(f, a);
    }

    /** aq_del_rxnfc_rule. */
    method DelRxnfcRule(location: nat, hwOk: bool) returns (err: Status)
      requires Valid()
      modifies this
      ensures Valid() && (Abs(), err) == Removed(old(Abs()), location, hwOk)
    {
      InMap(filterList);
      for i := 0 to |filterList|
        invariant forall j :: 0 <= j < i ==> filterList[j].location != location
        invariant Valid() && Abs() == old(Abs()) && filterList == old(filterList)
      {
        if filterList[i].location == location {
          err := Drop(i, hwOk);
          return;
        }
      }
      err := EINVAL;
    }

    /** aq_get_rxnfc_rule. */
    method GetRxnfcRule(location: nat) returns (r: Option<Fsp>)
      requires Valid()
      ensures r == Lookup(Abs(), location)
    {
      InMap(filterList);
      var p := Find(location);
      if p == |filterList| || filterList[p].location != location {
        return None;
      }
      r := Some(filterList[p]);
    }

    /** aq_get_rxnfc_all_rules: every location in ascending order, when the caller has room. */
    method GetRxnfcAllRules(ruleCnt: nat) returns (locs: seq<nat>, ok: bool)
      requires Valid()
      ensures ok <==> activeFilters <= ruleCnt
      ensures forall i, j :: 0 <= i < j < |locs| ==> locs[i] < locs[j]
      ensures forall loc :: loc in locs ==> loc in Abs().rules
      ensures ok ==> forall loc :: loc in Abs().rules ==> loc in locs
    {
      InMap(filterList);
      locs := [];
      for i := 0 to |filterList|
        invariant |locs| == i <= ruleCnt && forall j :: 0 <= j < i ==> locs[j] == filterList[j].location
      {
        if i == ruleCnt {
          return locs, false;
        }
        locs := locs + [filterList[i].location];
      }
      assert forall j :: 0 <= j < |filterList| ==> filterList[j].location == locs[j];
      ok := true;
    }
  }
}
