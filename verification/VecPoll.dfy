/** One poll of a vector with its pairs of a TX and an RX ring: both halves, the work it reports,
    and what is true when it lets the interrupt back on. */
module VecPoll {
  import opened Wrappers
  import opened Ring
  import opened RxChains
  import opened RxProtocol
  import opened RxSafety
  import opened RxDelivery
  import opened RxRefill
  import Pages = RxPages
  import B = TxBuffers
  import P = TxProtocol
  import Tx = TxRing
  import Rx = RxRing

  // ---------------------------------------------------------------- nothing is left behind

  /** A TX call that did not use up its budget has reclaimed all that it may. */
  lemma {:induction false} CleanIsExhaustive(s: P.State, budget: nat)
    ensures var t := P.Clean(s, budget);
            && (t.reclaimed < s.reclaimed + budget ==> !P.CanClean(t))
            && s.reclaimed <= t.reclaimed <= s.reclaimed + budget && t.hist == s.hist && t.passed == s.passed
    decreases budget
  {
    if budget > 0 && P.CanClean(s) {
      CleanIsExhaustive(P.CleanOne(s), budget - 1);
    }
  }

  lemma NotStarvedIsStopped(s: State, alloc: bool)
    requires HasWork(s) && StopsHere(s, alloc) && !Passes(s, alloc) && !Starved(s, alloc)
    ensures StopAt(Received(s), s.done) == s.done
  {}

  /** What a call that has not failed owes to one that stops at t. */
  ghost predicate Exhausts(s: State, t: State, budget: nat, failed: bool)
    requires s.recv <= |s.hist|
  {
    !failed && t.done < s.done + budget ==> t.done == StopAt(Received(s), s.done)
  }

  lemma ExhaustsOneMore(s: State, alloc: bool, t: State, budget: nat, failed: bool)
    requires budget > 0 && HasWork(s) && Passes(s, alloc) && StopsHere(s, alloc)
    requires TurnMoves(s, CleanOne(s, alloc), alloc) && Exhausts(CleanOne(s, alloc), t, budget - 1, failed)
    ensures Exhausts(s, t, budget, failed)
  {
    assert Received(CleanOne(s, alloc)) == Received(s);
  }

  lemma ExhaustsEnd(s: State, alloc: bool, budget: nat)
    requires StopsHere(s, alloc) && (HasWork(s) ==> TurnMoves(s, CleanOne(s, alloc), alloc))
    ensures budget == 0 || !HasWork(s) ==> Exhausts(s, s, budget, false)
    ensures budget > 0 && HasWork(s) && !Passes(s, alloc) ==>
              Exhausts(s, CleanOne(s, alloc), budget, Starved(s, alloc))
  {
    if HasWork(s) && !Passes(s, alloc) && !Starved(s, alloc) {
      NotStarvedIsStopped(s, alloc);
    }
  }

  lemma {:induction false} CleanExhausts(inv: State -> bool, s: State, budget: nat, alloc: nat -> bool, k: nat)
    requires inv(s)
    requires forall u, a :: TurnOk(inv, u, a)
    requires forall u, a :: StopOk(inv, u, a)
    ensures s.recv <= |s.hist| && Exhausts(s, Clean(s, budget, alloc, k), budget, CleanFails(s, budget, alloc, k))
    decreases budget
  {
    assert StopOk(inv, s, alloc(k)) && TurnOk(inv, s, alloc(k));
    ExhaustsEnd(s, alloc(k), budget);
    if budget > 0 && HasWork(s) && Passes(s, alloc(k)) {
      var u := CleanOne(s, alloc(k));
      CleanExhausts(inv, u, budget - 1, alloc, k + 1);
      ExhaustsOneMore(s, alloc(k), Clean(u, budget - 1, alloc, k + 1), budget, CleanFails(u, budget - 1, alloc, k + 1));
    }
  }

  /** An RX call that neither failed nor used up its budget has come to a packet that is not
      complete, or to the end of what was received. */
  lemma CleanIsExhaustiveRx(s: State, budget: nat, alloc: nat -> bool)
    requires Inv(s) && !CleanFails(s, budget, alloc, 0) && Clean(s, budget, alloc, 0).done < s.done + budget
    ensures Clean(s, budget, alloc, 0).done == StopAt(Received(s), s.done)
  {
    EveryTurnIsOk();
    EveryStopIsOk();
    CleanExhausts(Inv, s, budget, alloc, 0);
  }

  /** Everything written back has been received, and no packet at the head is complete. */
  ghost predicate RxIdle(s: State)
  {
    s.recv == |s.hist| && StopAt(Received(s), s.done) == s.done
  }

  lemma PollLeavesNothing(s: State, ps: Pages.State, c: Call, refillThres: nat, given: nat -> Option<nat>, hw: HwRx,
                          t: State, qs: Pages.State)
    requires Inv(s) && PollAllocatorOk(s, ps, c, given) && PollWorks(s, ps, c, refillThres, given, hw)
    requires PollStep(s, ps, c, refillThres, given, hw, t, qs) && t.done < s.done + c.budget
    ensures RxIdle(t)
  {
    var u := Receive(s);
    ReceiveKeepsInv(s);
    if HasWork(u) {
      var v := Clean(u, c.budget, c.alloc, 0);
      CleanKeepsInv(u, c.budget, c.alloc, 0);
      assert t.hist == v.hist && t.recv == v.recv && t.done == v.done;
      CleanIsExhaustiveRx(u, c.budget, c.alloc);
      StopFromAnywhere(Received(u), u.done, v.done);
      assert Received(t) == Received(u);
    } else {
      StopStep(u, true);
    }
  }

  // ---------------------------------------------------------------- the TX rings of a vector

  /** The hardware head has been found n slots further on. */
  function Moved(s: P.State, n: nat): P.State
    requires s.swHead < s.size && s.reclaimed <= s.passed && s.passed + n - s.reclaimed < s.size
  {
    s.(passed := s.passed + n, hwHead := At(s.size, s.swHead, s.passed + n - s.reclaimed))
  }

  predicate CanMove(s: P.State, n: nat)
  {
    s.swHead < s.size && s.reclaimed <= s.passed && s.passed + n <= |s.hist| && s.passed + n - s.reclaimed < s.size
  }

  /** The TX ring as a poll leaves it. */
  function TxLeft(s: P.State, n: nat): P.State
    requires CanMove(s, n)
  {
    P.Clean(Moved(s, n), Tx.TX_CLEAN_BUDGET)
  }

  /** What cleaning the ring reports, when there is anything between the two heads. */
  function TxVerdict(s: P.State, n: nat): (r: Option<bool>)
    requires CanMove(s, n)
  {
    if Moved(s, n).swHead == Moved(s, n).hwHead then None
    else Some(TxLeft(s, n).reclaimed < s.reclaimed + Tx.TX_CLEAN_BUDGET)
  }

  /** What the turn of a pair of rings comes to: the report of the TX half, if there was anything to
      clean, what was left of the budget for the RX half, and the work of that. */
  datatype Share = Share(report: Option<bool>, rest: nat, work: nat)

  /** The flag after the rings have reported: each report replaces the one before it. */
  function WasTxCleaned(log: seq<Share>): bool
  {
    if log == [] then true
    else if log[|log| - 1].report.Some? then log[|log| - 1].report.value
    else WasTxCleaned(log[..|log| - 1])
  }

  function Work(log: seq<Share>): nat
  {
    if log == [] then 0 else Work(log[..|log| - 1]) + log[|log| - 1].work
  }

  /** Each RX half has been given what the ones before it had left of the budget. */
  predicate Shared(budget: nat, log: seq<Share>)
  {
    log == [] ||
    (var n := |log| - 1;
     Shared(budget, log[..n]) && log[n].work <= log[n].rest == budget - Work(log[..n]))
  }

  lemma OneShareMore(budget: nat, log: seq<Share>, share: Share)
    ensures WasTxCleaned(log + [share]) == if share.report.Some? then share.report.value else WasTxCleaned(log)
    ensures Work(log + [share]) == Work(log) + share.work
    ensures Shared(budget, log + [share]) <==> Shared(budget, log) && share.work <= share.rest == budget - Work(log)
  {
    assert (log + [share])[..|log|] == log;
  }

  ghost predicate FinishedLater(log: seq<Share>, i: nat)
  {
    exists j :: i < j < |log| && log[j].report == Some(true)
  }

  /** The flag is set if and only if every ring that used up its budget is followed by one that did
      not. */
  lemma {:induction false} WasTxCleanedIff(log: seq<Share>)
    ensures WasTxCleaned(log) <==>
            forall i :: 0 <= i < |log| && log[i].report == Some(false) ==> FinishedLater(log, i)
    decreases |log|
  {
    if log != [] {
      var n := |log| - 1;
      WasTxCleanedIff(log[..n]);
      match log[n].report
      case Some(b) =>
        assert b ==> forall i :: 0 <= i < n ==> FinishedLater(log, i);
        assert !FinishedLater(log, n);
      case None =>
        forall i | 0 <= i < n
          ensures FinishedLater(log, i) <==> FinishedLater(log[..n], i)
        {
          if FinishedLater(log, i) {
            var j :| i < j < |log| && log[j].report == Some(true);
            assert log[..n][j].report == Some(true);
          }
        }
    }
  }

  /** A TX ring is at rest after a call if and only if it had no more to reclaim than the budget. */
  lemma {:induction false} AtRestIff(s: P.State, budget: nat)
    requires P.Inv(s)
    ensures !P.CanClean(P.Clean(s, budget)) <==> P.Reach(s) <= budget
    decreases budget
  {
    if budget > 0 && P.CanClean(s) {
      P.CleanOneKeepsInv(s);
      AtRestIff(P.CleanOne(s), budget - 1);
    }
  }

  lemma MovedKeepsInv(s: P.State, n: nat)
    requires P.Inv(s) && CanMove(s, n)
    ensures P.Inv(Moved(s, n))
  {
    P.HwMoveKeepsInv(s, Moved(s, n));
  }

  /** A ring that is not at rest after its turn has reported so. */
  lemma NotAtRestReports(s: P.State, n: nat)
    requires P.Inv(s) && CanMove(s, n) && P.CanClean(TxLeft(s, n))
    ensures TxVerdict(s, n) == Some(false)
  {
    CleanIsExhaustive(Moved(s, n), Tx.TX_CLEAN_BUDGET);
  }

  // ---------------------------------------------------------------- a ring that is left behind

  /** The one slot of a packet of 60 bytes, the skb being i. */
  function Single(i: nat): B.TxBuff
  {
    B.TxBuff(0x1000 * i, i, 60, false, false, false, true, true, false, true, false, i)
  }

  /** A ring of n + 1 slots after k such packets. */
  function Singles(n: nat, k: nat): (s: P.State)
    requires k <= n
  {
    P.State(n + 1, 0, 0, k, seq(n + 1, i requires 0 <= i => Single(i)),
            seq(k, i requires 0 <= i => P.Entry(Single(i), i, i)), 0, 0, [], [])
  }

  lemma OneSingleMore(n: nat, k: nat)
    requires k < n
    ensures P.Publish(Singles(n, k), Singles(n, k + 1), [Single(k)])
  {
    var s, slots := Singles(n, k), [Single(k)];
    assert P.LinkedSlot(slots, 0) && At(s.size, s.swTail, 0) == k;
    assert P.Entries(slots, k) == [P.Entry(Single(k), k, k)];
    assert Singles(n, k + 1).hist == s.hist + P.Entries(slots, k);
  }

  /** A whole run leads there. */
  lemma SinglesRun(n: nat, k: nat) returns (states: seq<P.State>, actions: seq<P.Action>)
    requires k <= n < 0xFFFF
    ensures P.Run(states, actions) && states[|actions|] == Singles(n, k)
  {
    states := seq(k + 1, j requires 0 <= j <= k => Singles(n, j));
    actions := seq(k, j requires 0 <= j < k => P.Transmit([Single(j)]));
    forall j | 0 <= j < k
      ensures P.Step(states[j], actions[j], states[j + 1])
    {
      OneSingleMore(n, j);
    }
  }

  /** Once the hardware has sent them all, a call reports whether they are fewer than its budget. */
  lemma SinglesReport(n: nat, k: nat)
    requires 0 < k <= n < 0xFFFF
    ensures var s := Singles(n, k);
            && P.Inv(s) && CanMove(s, k)
            && TxVerdict(s, k) == Some(k < Tx.TX_CLEAN_BUDGET)
            && (P.CanClean(TxLeft(s, k)) <==> k > Tx.TX_CLEAN_BUDGET)
  {
    var s := Singles(n, k);
    var states, actions := SinglesRun(n, k);
    P.EveryRunIsSafe(states, actions);
    MovedKeepsInv(s, k);
    P.DrainedWhenHardwareIdle(Moved(s, k));
    AtRestIff(Moved(s, k), Tx.TX_CLEAN_BUDGET);
    P.CleanReaches(Moved(s, k), Tx.TX_CLEAN_BUDGET);
  }

  /** The flag is that of the last ring that had anything to report. Of two rings that both transmit,
      a first one with more slots to reclaim than the budget would be left with work, and a second
      one with fewer would hide that. */
  lemma SecondRingHidesFirst(n: nat, k: nat, m: nat, rest: nat)
    requires 0 < m < Tx.TX_CLEAN_BUDGET < k <= n < 0xFFFF
    ensures var s, t := Singles(n, k), Singles(n, m);
            && P.Inv(s) && P.Inv(t) && CanMove(s, k) && CanMove(t, m)
            && WasTxCleaned([Share(TxVerdict(s, k), rest, 0), Share(TxVerdict(t, m), rest, 0)])
            && P.CanClean(TxLeft(s, k))
  {
    SinglesReport(n, k);
    SinglesReport(n, m);
  }

  // ---------------------------------------------------------------- the poll

  /** What hw_ring_tx_head_update reports: the head it has read, that and an error, or an error alone
      because the device is gone. */
  datatype HeadAnswer = Read | ReadWithError | Unplugged

  /** What one pair of rings meets in a poll: the head register, and the answers to its calls. */
  datatype Turn = Turn(register: nat, n: nat, head: HeadAnswer, hw: HwRx, alloc: nat -> bool, kernel: Kernel,
                       refillThres: nat, given: nat -> Option<nat>)

  function CallOf(t: Turn, rest: nat): Call
  {
    Call(rest, t.alloc, t.kernel)
  }

  /** The rings of a pair at one moment. */
  datatype Rings = Rings(tx: P.State, rx: State, ps: Pages.State)

  /** The register shows a position the hardware may have reached, and no page in use is given. */
  ghost predicate Expects(s: Rings, t: Turn, budget: nat)
  {
    && CanMove(s.tx, t.n) && t.register == At(s.tx.size, s.tx.swHead, s.tx.passed + t.n - s.tx.reclaimed)
    && forall b :: 0 <= b <= budget ==> PollAllocatorOk(s.rx, s.ps, CallOf(t, b), t.given)
  }

  /** Whether the pair gets to the end of its turn. */
  ghost predicate Works(s: Rings, t: Turn, rest: nat)
  {
    && PollAllocatorOk(s.rx, s.ps, CallOf(t, rest), t.given)
    && t.head.Read? && PollWorks(s.rx, s.ps, CallOf(t, rest), t.refillThres, t.given, t.hw)
  }

  /** Whether the turn ends in a refill that fails half way. */
  ghost predicate FailsInRefill(s: Rings, t: Turn, rest: nat)
  {
    && PollAllocatorOk(s.rx, s.ps, CallOf(t, rest), t.given)
    && t.head.Read? && PollFailsMidway(s.rx, s.ps, CallOf(t, rest), t.refillThres, t.given, t.hw)
  }

  ghost predicate RingsOk(s: Rings)
  {
    P.Inv(s.tx) && BothInv(s.rx, s.ps)
  }

  /** The TX ring after its half, and what that reports. */
  function TxAfter(s: P.State, t: Turn): P.State
    requires CanMove(s, t.n)
  {
    match t.head
    case Read => TxLeft(s, t.n)
    case ReadWithError => Moved(s, t.n)
    case Unplugged => s
  }

  function TxReport(s: P.State, t: Turn): Option<bool>
    requires CanMove(s, t.n)
  {
    if t.head.Read? then TxVerdict(s, t.n) else None
  }

  /** The RX ring after its half. */
  ghost predicate RxAfter(s: Rings, t: Turn, rest: nat, u: Rings)
  {
    if t.head.Read? then
      PollStep(s.rx, s.ps, CallOf(t, rest), t.refillThres, t.given, t.hw, u.rx, u.ps)
    else
      u.rx == s.rx && u.ps == s.ps
  }

  /** What a pair's turn does to its rings, and what it reports and counts. */
  ghost predicate Polled(s: Rings, u: Rings, t: Turn, share: Share)
  {
    && CanMove(s.tx, t.n) && u.tx == TxAfter(s.tx, t) && P.Inv(u.tx) && RxAfter(s, t, share.rest, u)
    && share.report == TxReport(s.tx, t) && share.work == u.rx.done - s.rx.done
  }

  /** The rings stay valid unless a refill fails half way; a turn that gets to its end with budget
      left has received everything the hardware has written back, and no packet at the RX head is
      complete. */
  ghost predicate Ended(s: Rings, u: Rings, t: Turn, share: Share, ok: bool)
  {
    && share.work <= share.rest
    && ok == Works(s, t, share.rest)
    && (ok || !FailsInRefill(s, t, share.rest) ==> RingsOk(u))
    && (ok && share.work < share.rest ==> RxIdle(u.rx))
  }

  /** The pairs in the log have had their turns, and the others have not. */
  ghost predicate Visited(was: seq<Rings>, now: seq<Rings>, turns: seq<Turn>, log: seq<Share>)
  {
    && |log| <= |was| == |now| == |turns|
    && (forall j :: 0 <= j < |log| ==> Polled(was[j], now[j], turns[j], log[j]))
    && (forall j :: |log| <= j < |now| ==> now[j] == was[j])
  }

  ghost predicate AllOk(rings: seq<Rings>)
  {
    forall j :: 0 <= j < |rings| ==> RingsOk(rings[j])
  }

  ghost predicate AllTxOk(rings: seq<Rings>)
  {
    forall j :: 0 <= j < |rings| ==> P.Inv(rings[j].tx)
  }

  ghost predicate AllExpect(rings: seq<Rings>, turns: seq<Turn>, budget: nat)
  {
    |rings| == |turns| && forall j :: 0 <= j < |rings| ==> Expects(rings[j], turns[j], budget)
  }

  ghost predicate Rested(rings: seq<Rings>, n: nat)
  {
    forall j :: 0 <= j < |rings| && j < n ==> RxIdle(rings[j].rx)
  }

  /** Every pair in the log has got to the end of its turn. */
  ghost predicate AllWork(was: seq<Rings>, turns: seq<Turn>, log: seq<Share>)
  {
    && |log| <= |was| == |turns|
    && forall j :: 0 <= j < |log| ==> Works(was[j], turns[j], log[j].rest)
  }

  /** Every turn so far has got to its end. */
  ghost predicate Going(was: seq<Rings>, now: seq<Rings>, turns: seq<Turn>, budget: nat, log: seq<Share>)
  {
    && Visited(was, now, turns, log) && AllOk(now) && AllWork(was, turns, log)
    && Shared(budget, log) && Work(log) <= budget && (Work(log) < budget ==> Rested(now, |log|))
  }

  /** A turn has failed, the first to do so, and the poll has ended with it. The pairs are all valid,
      unless it was in the middle of a refill; the TX rings are, in any case. */
  ghost predicate Failed(was: seq<Rings>, now: seq<Rings>, turns: seq<Turn>, budget: nat, log: seq<Share>)
  {
    && Visited(was, now, turns, log) && log != [] && Shared(budget, log) && Work(log) <= budget
    && AllTxOk(now)
    && var k := |log| - 1;
       && AllWork(was, turns, log[..k])
       && !Works(was[k], turns[k], log[k].rest)
       && (!FailsInRefill(was[k], turns[k], log[k].rest) ==> AllOk(now))
  }

  /** Every pair has had its turn. With budget left, every RX ring is at rest; and when the flag is
      set, a TX ring that is not at rest is followed by one that was cleaned to its end. */
  ghost predicate Finished(was: seq<Rings>, now: seq<Rings>, turns: seq<Turn>, budget: nat, log: seq<Share>)
  {
    && Going(was, now, turns, budget, log) && |log| == |was|
    && (WasTxCleaned(log) ==> forall j :: 0 <= j < |now| && P.CanClean(now[j].tx) ==> FinishedLater(log, j))
  }

  lemma Starts(was: seq<Rings>, turns: seq<Turn>, budget: nat)
    requires AllOk(was) && |turns| == |was|
    ensures Going(was, was, turns, budget, [])
  {}

  lemma OneVisitMore(was: seq<Rings>, now: seq<Rings>, next: seq<Rings>, turns: seq<Turn>,
                     log: seq<Share>, share: Share)
    requires Visited(was, now, turns, log) && |log| < |now| == |next| && next == now[|log| := next[|log|]]
    requires Polled(was[|log|], next[|log|], turns[|log|], share)
    ensures Visited(was, next, turns, log + [share])
  {}

  lemma OneMore<T>(ok: T -> bool, s: seq<T>, t: seq<T>, k: nat, n: nat)
    requires k < |s| == |t| && t == s[k := t[k]] && ok(t[k])
    requires forall j :: 0 <= j < |s| && j < n ==> ok(s[j])
    ensures forall j :: 0 <= j < |t| && (j < n || j == k) ==> ok(t[j])
  {}

  lemma AllOkStill(now: seq<Rings>, next: seq<Rings>, k: nat)
    requires AllOk(now) && k < |now| == |next| && next == now[k := next[k]] && RingsOk(next[k])
    ensures AllOk(next)
  {
    OneMore(RingsOk, now, next, k, |now|);
  }

  lemma AllTxOkStill(now: seq<Rings>, next: seq<Rings>, k: nat)
    requires AllOk(now) && k < |now| == |next| && next == now[k := next[k]] && P.Inv(next[k].tx)
    ensures AllTxOk(next)
  {
    assert forall j :: 0 <= j < |now| ==> RingsOk(now[j]);
    OneMore((s: Rings) => P.Inv(s.tx), now, next, k, |now|);
  }

  lemma OneMoreRests(now: seq<Rings>, next: seq<Rings>, k: nat)
    requires Rested(now, k) && k < |now| == |next| && next == now[k := next[k]] && RxIdle(next[k].rx)
    ensures Rested(next, k + 1)
  {
    OneMore((s: Rings) => RxIdle(s.rx), now, next, k, k);
  }

  lemma OneWorksMore(was: seq<Rings>, turns: seq<Turn>, log: seq<Share>, share: Share)
    requires AllWork(was, turns, log) && |log| < |was|
    requires Works(was[|log|], turns[|log|], share.rest)
    ensures AllWork(was, turns, log + [share])
  {}

  lemma GoesOn(was: seq<Rings>, now: seq<Rings>, next: seq<Rings>, turns: seq<Turn>, budget: nat,
               log: seq<Share>, share: Share)
    requires Going(was, now, turns, budget, log) && |log| < |now| == |next| && next == now[|log| := next[|log|]]
    requires Polled(was[|log|], next[|log|], turns[|log|], share)
    requires share.rest == budget - Work(log) && Ended(was[|log|], next[|log|], turns[|log|], share, true)
    ensures Going(was, next, turns, budget, log + [share])
  {
    OneVisitMore(was, now, next, turns, log, share);
    OneShareMore(budget, log, share);
    OneWorksMore(was, turns, log, share);
    AllOkStill(now, next, |log|);
    if Work(log) + share.work < budget {
      OneMoreRests(now, next, |log|);
    }
  }

  lemma Fails(was: seq<Rings>, now: seq<Rings>, next: seq<Rings>, turns: seq<Turn>, budget: nat,
              log: seq<Share>, share: Share)
    requires Going(was, now, turns, budget, log) && |log| < |now| == |next| && next == now[|log| := next[|log|]]
    requires Polled(was[|log|], next[|log|], turns[|log|], share)
    requires share.rest == budget - Work(log) && Ended(was[|log|], next[|log|], turns[|log|], share, false)
    ensures Failed(was, next, turns, budget, log + [share])
  {
    OneVisitMore(was, now, next, turns, log, share);
    OneShareMore(budget, log, share);
    assert (log + [share])[..|log|] == log;
    AllTxOkStill(now, next, |log|);
    if RingsOk(next[|log|]) {
      AllOkStill(now, next, |log|);
    }
  }

  /** A turn is entered in the log. */
  lemma AfterTurn(was: seq<Rings>, now: seq<Rings>, next: seq<Rings>, turns: seq<Turn>, budget: nat,
                  log: seq<Share>, share: Share, ok: bool, workDone: nat, wasTxCleaned: bool)
    returns (log': seq<Share>)
    requires Going(was, now, turns, budget, log) && |log| < |now| == |next| && next == now[|log| := next[|log|]]
    requires Polled(was[|log|], next[|log|], turns[|log|], share)
    requires share.rest == budget - Work(log) && Ended(was[|log|], next[|log|], turns[|log|], share, ok)
    requires workDone == Work(log) + share.work
    requires wasTxCleaned == if share.report.Some? then share.report.value else WasTxCleaned(log)
    ensures |log'| == |log| + 1 && workDone == Work(log') && wasTxCleaned == WasTxCleaned(log')
    ensures ok ==> Going(was, next, turns, budget, log')
    ensures !ok ==> Failed(was, next, turns, budget, log')
  {
    log' := log + [share];
    assert workDone == Work(log') && wasTxCleaned == WasTxCleaned(log') by {
      OneShareMore(budget, log, share);
    }
    if ok {
      GoesOn(was, now, next, turns, budget, log, share);
    } else {
      Fails(was, now, next, turns, budget, log, share);
    }
  }

  /** A ring that has been left with work is followed by one that was cleaned to its end. */
  lemma LeftWithWork(was: seq<Rings>, now: seq<Rings>, turns: seq<Turn>, log: seq<Share>, i: nat)
    requires Visited(was, now, turns, log) && AllWork(was, turns, log) && WasTxCleaned(log) && i < |log|
    requires P.Inv(was[i].tx) && P.CanClean(now[i].tx)
    ensures FinishedLater(log, i)
  {
    assert Polled(was[i], now[i], turns[i], log[i]) && Works(was[i], turns[i], log[i].rest);
    NotAtRestReports(was[i].tx, turns[i].n);
    WasTxCleanedIff(log);
  }

  /** With one pair, which is all the driver configures, a set flag means that nothing is left. */
  lemma OnePairIsAtRest(was: seq<Rings>, now: seq<Rings>, turns: seq<Turn>, budget: nat, log: seq<Share>)
    requires AllOk(was) && Finished(was, now, turns, budget, log) && WasTxCleaned(log) && |was| == 1
    ensures !P.CanClean(now[0].tx)
  {
    if P.CanClean(now[0].tx) {
      LeftWithWork(was, now, turns, log, 0);
    }
  }

  lemma Finishes(was: seq<Rings>, now: seq<Rings>, turns: seq<Turn>, budget: nat, log: seq<Share>)
    requires AllOk(was) && Going(was, now, turns, budget, log) && |log| == |was|
    ensures Finished(was, now, turns, budget, log)
  {
    forall j | 0 <= j < |now| && P.CanClean(now[j].tx) && WasTxCleaned(log)
      ensures FinishedLater(log, j)
    {
      LeftWithWork(was, now, turns, log, j);
    }
  }

  class RingPair {
    const tx: Tx.TxRing
    const rx: Rx.RxRing

    ghost function Footprint(): set<object>
    {
      {tx, tx.buff, rx, rx.buff, rx.dx, rx.rxdata}
    }

    ghost predicate Sized()
    {
      && tx.buff.Length == tx.dx.Length == tx.size
      && rx.buff.Length == rx.dx.Length == rx.rxdata.Length == rx.size
    }

    ghost predicate Valid()
      reads Footprint()
    {
      Sized() && RingsOk(Now())
    }

    ghost function Now(): Rings
      reads Footprint()
    {
      Rings(tx.Abs(), rx.Abs(), rx.AbsPages())
    }

    constructor (txds: nat, rxds: nat, bytes: nat)
      requires 0 < txds <= 0xFFFF && 0 < rxds && Pages.RX_FRAME_MAX <= bytes
      ensures Valid()
      ensures fresh(tx) && fresh(tx.buff) && fresh(rx) && fresh(rx.buff) && fresh(rx.dx) && fresh(rx.rxdata)
    {
      tx := new Tx.TxRing(txds);
      rx := new Rx.RxRing(rxds, bytes);
    }

    /** Reclaim under the fixed budget, and look at the queue. */
    method CleanTx() returns (budgetLeft: bool)
      requires tx.Valid()
      modifies tx, tx.buff
      ensures tx.Valid() && tx.Abs() == P.Clean(old(tx.Abs()), Tx.TX_CLEAN_BUDGET)
      ensures budgetLeft <==> tx.reclaimed < old(tx.reclaimed) + Tx.TX_CLEAN_BUDGET
    {
      budgetLeft := tx.Clean();
      tx.UpdateQueueState();
    }

    /** The TX half: follow the hardware head, and clean if there is anything to reclaim. */
    method PollTx(register: nat, ghost n: nat) returns (report: Option<bool>)
      requires tx.Valid() && CanMove(tx.Abs(), n)
      requires register == At(tx.size, tx.swHead, tx.passed + n - tx.reclaimed)
      modifies tx, tx.buff
      ensures tx.Valid() && tx.Abs() == TxLeft(old(tx.Abs()), n) && report == TxVerdict(old(tx.Abs()), n)
    {
      tx.HeadUpdate(register, n);
      assert tx.Abs() == Moved(old(tx.Abs()), n);
      report := None;
      if tx.swHead != tx.hwHead {
        var budgetLeft := CleanTx();
        report := Some(budgetLeft);
      }
    }

    /** What is left of the TX half when the head update reports an error. */
    method HeadFailed(t: Turn)
      requires tx.Valid() && CanMove(tx.Abs(), t.n) && !t.head.Read?
      requires t.register == At(tx.size, tx.swHead, tx.passed + t.n - tx.reclaimed)
      modifies tx`hwHead, tx`passed
      ensures tx.Valid() && tx.Abs() == TxAfter(old(tx.Abs()), t)
    {
      if t.head.ReadWithError? {
        tx.HeadUpdate(t.register, t.n);
      }
    }

    /** The RX half; with budget left it leaves the ring at rest. */
    method PollRx(t: Turn, rest: nat) returns (work: nat, ok: bool)
      requires rx.Valid() && PollAllocatorOk(rx.Abs(), rx.AbsPages(), CallOf(t, rest), t.given)
      modifies rx, rx.buff, rx.dx, rx.rxdata
      ensures work == rx.done - old(rx.done) <= rest
      ensures ok == PollWorks(old(rx.Abs()), old(rx.AbsPages()), CallOf(t, rest), t.refillThres, t.given, t.hw)
      ensures PollStep(old(rx.Abs()), old(rx.AbsPages()), CallOf(t, rest), t.refillThres, t.given, t.hw,
                       rx.Abs(), rx.AbsPages())
      ensures ok ==> rx.Valid()
      ensures !PollFailsMidway(old(rx.Abs()), old(rx.AbsPages()), CallOf(t, rest), t.refillThres, t.given, t.hw) ==>
                rx.Valid()
      ensures ok && work < rest ==> RxIdle(rx.Abs())
    {
      ghost var s, ps := rx.Abs(), rx.AbsPages();
      work, ok := rx.Poll(CallOf(t, rest), t.refillThres, t.given, t.hw);
      if ok && work < rest {
        PollLeavesNothing(s, ps, CallOf(t, rest), t.refillThres, t.given, t.hw, rx.Abs(), rx.AbsPages());
      }
    }

    /** The pair's turn in a poll, `rest` being what is left of the budget. */
    method Poll(t: Turn, rest: nat) returns (share: Share, ok: bool)
      requires Valid() && CanMove(tx.Abs(), t.n) && PollAllocatorOk(rx.Abs(), rx.AbsPages(), CallOf(t, rest), t.given)
      requires t.register == At(tx.size, tx.swHead, tx.passed + t.n - tx.reclaimed)
      modifies Footprint()
      ensures share.rest == rest && Polled(old(Now()), Now(), t, share) && Ended(old(Now()), Now(), t, share, ok)
    {
      if t.head.Read? {
        share, ok := PollBoth(t, rest);
      } else {
        HeadFailed(t);
        share, ok := Share(None, rest, 0), false;
      }
    }

    /** Both halves, once the head has been read. */
    method PollBoth(t: Turn, rest: nat) returns (share: Share, ok: bool)
      requires Valid() && CanMove(tx.Abs(), t.n) && PollAllocatorOk(rx.Abs(), rx.AbsPages(), CallOf(t, rest), t.given)
      requires t.register == At(tx.size, tx.swHead, tx.passed + t.n - tx.reclaimed) && t.head.Read?
      modifies Footprint()
      ensures share.rest == rest && Polled(old(Now()), Now(), t, share) && Ended(old(Now()), Now(), t, share, ok)
    {
      var report := PollTx(t.register, t.n);
      var work;
      work, ok := PollRx(t, rest);
      share := Share(report, rest, work);
    }
  }

  /** The pairs have their memory to themselves. */
  ghost predicate ApartFrom(pairs: seq<RingPair>)
  {
    && (forall i, j :: 0 <= i < j < |pairs| ==> pairs[i].Footprint() !! pairs[j].Footprint())
    && (forall i :: 0 <= i < |pairs| ==> pairs[i].Sized())
  }

  lemma OnePairMore(pairs: seq<RingPair>, pair: RingPair)
    requires ApartFrom(pairs) && pair.Sized()
    requires forall i :: 0 <= i < |pairs| ==> pairs[i].Footprint() !! pair.Footprint()
    ensures ApartFrom(pairs + [pair])
  {}

  /** What is of one kind is not of another. */
  lemma ApartByKind(p: RingPair, q: RingPair)
    requires p.tx != q.tx && p.tx.buff != q.tx.buff && p.rx != q.rx
    requires p.rx.buff != q.rx.buff && p.rx.dx != q.rx.dx && p.rx.rxdata != q.rx.rxdata
    ensures p.Footprint() !! q.Footprint()
  {}

  /** A pair allocated behind the others has its memory to itself. */
  method NewPair(pairs: seq<RingPair>, txds: nat, rxds: nat, bytes: nat) returns (pair: RingPair)
    requires 0 < txds <= 0xFFFF && 0 < rxds && Pages.RX_FRAME_MAX <= bytes
    ensures pair.Valid()
    ensures forall i :: 0 <= i < |pairs| ==> pairs[i].Footprint() !! pair.Footprint()
  {
    pair := new RingPair(txds, rxds, bytes);
    forall i | 0 <= i < |pairs|
      ensures pairs[i].Footprint() !! pair.Footprint()
    {
      ApartByKind(pairs[i], pair);
    }
  }

  ghost function Objects(pairs: seq<RingPair>): set<object>
  {
    set p, o | p in pairs && o in p.Footprint() :: o
  }

  ghost function Snapshot(pairs: seq<RingPair>): (s: seq<Rings>)
    reads Objects(pairs)
    ensures |s| == |pairs| && forall i :: 0 <= i < |s| ==> s[i] == pairs[i].Now()
  {
    seq(|pairs|, i requires 0 <= i < |pairs| reads Objects(pairs) => pairs[i].Now())
  }

  lemma OneOkMore(s: seq<Rings>, t: seq<Rings>, u: Rings)
    requires AllOk(s) && t == s + [u] && RingsOk(u)
    ensures AllOk(t)
  {}

  method NewPairs(count: nat, txds: nat, rxds: nat, bytes: nat) returns (pairs: seq<RingPair>)
    requires 0 < txds <= 0xFFFF && 0 < rxds && Pages.RX_FRAME_MAX <= bytes
    ensures |pairs| == count && ApartFrom(pairs) && AllOk(Snapshot(pairs))
  {
    pairs := [];
    while |pairs| < count
      invariant |pairs| <= count && ApartFrom(pairs) && AllOk(Snapshot(pairs))
    {
      ghost var was := Snapshot(pairs);
      var pair := NewPair(pairs, txds, rxds, bytes);
      OnePairMore(pairs, pair);
      OneOkMore(was, Snapshot(pairs + [pair]), pair.Now());
      pairs := pairs + [pair];
    }
  }

  class AqVec {
    const pairs: seq<RingPair>

    ghost predicate Apart()
    {
      ApartFrom(pairs)
    }

    ghost function Footprint(): set<object>
    {
      Objects(pairs)
    }

    ghost function Now(): (s: seq<Rings>)
      reads Footprint()
      ensures s == Snapshot(pairs)
    {
      Snapshot(pairs)
    }

    ghost predicate Valid()
      reads Footprint()
    {
      Apart() && AllOk(Now())
    }

    constructor (count: nat, txds: nat, rxds: nat, bytes: nat)
      requires 0 < txds <= 0xFFFF && 0 < rxds && Pages.RX_FRAME_MAX <= bytes
      ensures Valid() && |pairs| == count
    {
      var ps := NewPairs(count, txds, rxds, bytes);
      pairs := ps;
      new;
      assert Apart() && Now() == Snapshot(ps);
    }

    twostate lemma OthersStay(i: nat)
      requires i < |pairs|
      requires forall j :: 0 <= j < |pairs| && j != i ==> pairs[j].Now() == old(pairs[j].Now())
      ensures Now() == old(Now())[i := pairs[i].Now()]
    {}

    /** The share of pair i: no other pair is touched. */
    method PollPair(i: nat, t: Turn, ghost budget: nat, rest: nat) returns (share: Share, ok: bool)
      requires i < |pairs| && Apart() && RingsOk(Now()[i]) && rest <= budget && Expects(Now()[i], t, budget)
      modifies Footprint()
      ensures Now() == old(Now())[i := Now()[i]]
      ensures share.rest == rest
      ensures Polled(old(Now())[i], Now()[i], t, share) && Ended(old(Now())[i], Now()[i], t, share, ok)
    {
      share, ok := pairs[i].Poll(t, rest);
      forall j | 0 <= j < |pairs| && j != i
        ensures pairs[j].Now() == old(pairs[j].Now())
      {
        assert pairs[j].Footprint() !! pairs[i].Footprint();
      }
      OthersStay(i);
    }

    /** One round of the loop: the turn of pair i is entered in the log, its work is added up, and its
        report replaces the flag. */
    method VisitPair(i: nat, turns: seq<Turn>, budget: nat, done: nat, flag: bool, ghost was: seq<Rings>,
                     ghost log0: seq<Share>)
      returns (workDone: nat, wasTxCleaned: bool, ok: bool, ghost log: seq<Share>)
      requires i == |log0| < |pairs| && Apart()
      requires Going(was, Now(), turns, budget, log0) && AllExpect(was, turns, budget)
      requires done == Work(log0) && flag == WasTxCleaned(log0)
      modifies Footprint()
      ensures |log| == i + 1 && workDone == Work(log) && wasTxCleaned == WasTxCleaned(log)
      ensures ok ==> Going(was, Now(), turns, budget, log)
      ensures !ok ==> Failed(was, Now(), turns, budget, log)
    {
      ghost var now := Now();
      var share;
      share, ok := PollPair(i, turns[i], budget, budget - done);
      workDone := done + share.work;
      wasTxCleaned := if share.report.Some? then share.report.value else flag;
      log := AfterTurn(was, now, Now(), turns, budget, log0, share, ok, workDone, wasTxCleaned);
    }

    /** The loop over the pairs, up to the first turn that fails. */
    method VisitPairs(turns: seq<Turn>, budget: nat, ghost was: seq<Rings>)
      returns (workDone: nat, wasTxCleaned: bool, ok: bool, ghost log: seq<Share>)
      requires Apart() && |was| == |pairs| && AllExpect(was, turns, budget) && Going(was, Now(), turns, budget, [])
      modifies Footprint()
      ensures workDone == Work(log) && wasTxCleaned == WasTxCleaned(log)
      ensures !ok ==> Failed(was, Now(), turns, budget, log)
      ensures ok ==> Going(was, Now(), turns, budget, log) && |log| == |pairs|
    {
      workDone, wasTxCleaned, ok, log := 0, true, true, [];
      var i := 0;
      while i < |pairs|
        invariant i == |log| <= |pairs| && Going(was, Now(), turns, budget, log)
        invariant ok && workDone == Work(log) && wasTxCleaned == WasTxCleaned(log)
      {
        workDone, wasTxCleaned, ok, log := VisitPair(i, turns, budget, workDone, wasTxCleaned, was, log);
        if !ok {
          return;
        }
        i := i + 1;
      }
    }

    /** aq_vec_poll. It ends with the first turn that fails; otherwise it completes, which lets the
        interrupt back on, if and only if the flag is set and the work of all pairs is below the
        budget. So it can return less than its budget without completing exactly when a turn fails. */
    method Poll(turns: seq<Turn>, budget: nat) returns (workDone: nat, completed: bool, ok: bool, ghost log: seq<Share>)
      requires Valid() && AllExpect(Now(), turns, budget)
      modifies Footprint()
      ensures !ok ==> workDone == Work(log) && !completed && Failed(old(Now()), Now(), turns, budget, log)
      ensures ok ==> workDone == (if WasTxCleaned(log) then Work(log) else budget) && completed == (workDone < budget)
      ensures ok ==> Valid() && Finished(old(Now()), Now(), turns, budget, log)
      ensures !completed && workDone < budget <==> !ok && Work(log) < budget
      ensures completed && |pairs| == 1 ==> !P.CanClean(Now()[0].tx)
    {
      ghost var was := Now();
      var wasTxCleaned;
      Starts(was, turns, budget);
      workDone, wasTxCleaned, ok, log := VisitPairs(turns, budget, was);
      completed := false;
      if !ok {
        return;
      }
      Finishes(was, Now(), turns, budget, log);
      if !wasTxCleaned {
        workDone := budget;
      }
      completed := workDone < budget;
      if completed && |pairs| == 1 {
        OnePairIsAtRest(was, Now(), turns, budget, log);
      }
    }
  }
}
