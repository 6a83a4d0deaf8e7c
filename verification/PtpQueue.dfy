/** The queue of skbs that wait for a transmit timestamp, a ring with one slot always free, and
    the timeout that watches it. */
module PtpQueue {
  import opened Wrappers
  import opened Ring
  import TxPackets

  /** The skbs queued, oldest first. */
  function Queued(size: nat, buff: seq<nat>, head: nat, tail: nat): (r: seq<nat>)
    requires head < size == |buff| && tail < size
    ensures |r| == Dist(size, tail, head)
  {
    Window(buff, tail, Dist(size, tail, head))
  }

  lemma QueuedPut(size: nat, buff: seq<nat>, head: nat, tail: nat, skb: nat)
    requires head < size == |buff| && tail < size && NextDx(size, head) != tail
    ensures Queued(size, buff[head := skb], NextDx(size, head), tail) == Queued(size, buff, head, tail) + [skb]
  {
    var n := Dist(size, tail, head);
    assert Dist(size, tail, NextDx(size, head)) == n + 1;
    assert At(size, tail, n) == head;
  }

  lemma QueuedGet(size: nat, buff: seq<nat>, head: nat, tail: nat)
    requires head < size == |buff| && tail < size && tail != head
    ensures Queued(size, buff, head, tail) == [buff[tail]] + Queued(size, buff, head, NextDx(size, tail))
  {
    var n := Dist(size, tail, head);
    var rest := Queued(size, buff, head, NextDx(size, tail));
    assert At(size, tail, 0) == tail && |rest| == n - 1;
    forall k | 0 <= k < n - 1
      ensures rest[k] == Queued(size, buff, head, tail)[k + 1]
    {
      NextIsAt(size, tail, k + 1);
    }
  }

  /** What becomes of a timestamp: it goes to the skb that has waited longest. */
  datatype Stamp = Stamp(skb: nat, ns: int)

  /** `mapped` says whether the skb could then be mapped, and so was sent. */
  datatype Event = PutEvent(skb: nat, mapped: bool) | StampEvent(ns: int) | TimeoutEvent

  /** A bounded queue, with what went through it: the skbs queued and whether each was sent, those
      that got a timestamp, and those that were dropped without one. */
  datatype State = State(
    cap: nat, queue: seq<nat>, taken: seq<nat>, mapped: seq<bool>, stamps: seq<Stamp>, lost: seq<nat>)

  function Step(s: State, e: Event): State
  {
    match e
    case PutEvent(skb, mapped) =>
      if |s.queue| < s.cap then
        s.(queue := s.queue + [skb], taken := s.taken + [skb], mapped := s.mapped + [mapped])
      else s
    case StampEvent(ns) =>
      if s.queue == [] then s else s.(queue := s.queue[1..], stamps := s.stamps + [Stamp(s.queue[0], ns)])
    case TimeoutEvent => s.(queue := [], lost := s.lost + s.queue)
  }

  lemma NextByMod(size: nat, dx: nat)
    requires dx < size
    ensures (dx + 1) % size == NextDx(size, dx)
  {}

  class PtpSkbRing {
    const size: nat
    const buff: array<nat>
    var head: nat
    var tail: nat
    ghost var taken: seq<nat>
    ghost var dropped: seq<nat>

    ghost predicate Valid()
      reads this, buff
    {
      && buff.Length == size && head < size && tail < size
      && taken == dropped + Contents()
    }

    /** The queue that the ring stands for. */
    ghost function Contents(): seq<nat>
      requires buff.Length == size && head < size && tail < size
      reads this, buff
    {
      Queued(size, buff[..], head, tail)
    }

    constructor (n: nat)
      requires n > 0
      ensures Valid() && fresh(buff) && size == n && Contents() == [] && taken == []
    {
      size, buff := n, new nat[n](_ => 0);
      head, tail := 0, 0;
      taken, dropped := [], [];
    }

    /** __aq_ptp_skb_put: queue the skb, holding a reference, unless size - 1 are queued. */
    method Put(skb: nat) returns (ok: bool)
      requires Valid()
      modifies this`head, this`taken, buff
      ensures Valid()
      ensures ok <==> |old(Contents())| < size - 1
      ensures Contents() == if ok then old(Contents()) + [skb] else old(Contents())
      ensures taken == if ok then old(taken) + [skb] else old(taken)
    {
      NextByMod(size, head);
      var nextHead := (head + 1) % size;
      if nextHead == tail {
        return false;
      }
      ghost var was := buff[..];
      QueuedPut(size, was, head, tail, skb);
      buff[head], taken := skb, taken + [skb];
      assert buff[..] == was[head := skb];
      head := nextHead;
      ok := true;
    }

    /** __aq_ptp_skb_get: the oldest skb, whose reference the caller now has to drop. */
    method Get() returns (skb: Option<nat>)
      requires Valid()
      modifies this`tail, this`dropped
      ensures Valid() && taken == old(taken)
      ensures skb.None? <==> old(Contents()) == []
      ensures skb.None? ==> Contents() == []
      ensures skb.Some? ==> old(Contents()) == [skb.value] + Contents()
    {
      if tail == head {
        return None;
      }
      QueuedGet(size, buff[..], head, tail);
      NextByMod(size, tail);
      skb, dropped := Some(buff[tail]), dropped + [buff[tail]];
      tail := (tail + 1) % size;
    }

    /** aq_ptp_skb_buf_len. */
    function BufLen(): (len: nat)
      requires Valid()
      reads this, buff
      ensures len == |Contents()|
    {
      if head >= tail then head - tail else size - tail + head
    }

    /** aq_ptp_skb_ring_clean: every queued skb is dropped. */
    method Clean()
      requires Valid()
      modifies this`tail, this`dropped
      ensures Valid() && Contents() == [] && taken == old(taken) == dropped
    {
      var skb := Get();
      while skb.Some?
        invariant Valid() && taken == old(taken)
        invariant skb.None? ==> Contents() == []
        decreases |Contents()| + if skb.Some? then 1 else 0
      {
        skb := Get();
      }
    }
  }

  const TX_TIMEOUT_SECONDS: nat := 10

  datatype Verdict = Dropped | Busy | Sent

  class AqPtp {
    const skbRing: PtpSkbRing
    const hz: nat
    var active: bool
    var txStart: nat
    ghost var mapped: seq<bool>
    ghost var stamps: seq<Stamp>
    ghost var lost: seq<nat>

    ghost function Abs(): State
      requires skbRing.Valid()
      reads this, skbRing, skbRing.buff
    {
      State(skbRing.size - 1, skbRing.Contents(), skbRing.taken, mapped, stamps, lost)
    }

    /** Between calls the timeout runs exactly while an skb is queued. */
    ghost predicate Valid()
      reads this, skbRing, skbRing.buff
    {
      && skbRing.Valid()
      && (active <==> skbRing.Contents() != [])
    }

    constructor (rxds: nat, jiffiesPerSecond: nat)
      requires rxds > 0
      ensures Valid() && fresh(skbRing) && fresh(skbRing.buff) && Abs() == Run(rxds - 1, [])
    {
      skbRing := new PtpSkbRing(rxds);
      hz, active, txStart := jiffiesPerSecond, false, 0;
      mapped, stamps, lost := [], [], [];
    }

    /** The part of aq_ptp_xmit that queues the skb and starts the timeout. */
    method QueueForStamp(skb: nat, jiffies: nat, ghost sent: bool) returns (ok: bool)
      requires Valid()
      modifies this`active, this`txStart, this`mapped, skbRing`head, skbRing`taken, skbRing.buff
      ensures Valid()
      ensures Abs() == Step(old(Abs()), PutEvent(skb, sent))
      ensures ok <==> |old(skbRing.Contents())| < skbRing.size - 1
      ensures txStart == if ok then jiffies else old(txStart)
    {
      ok := skbRing.Put(skb);
      if ok {
        active, txStart, mapped := true, jiffies, mapped + [sent];
      }
    }

    /** aq_ptp_xmit, for which mapping takes `slots` slots: the skb is queued before that is known, and
        stays queued when it is not sent. */
    method Xmit(skb: nat, len: nat, nrFrags: nat, avail: int, slots: nat, ghost sent: bool, jiffies: nat)
      returns (v: Verdict)
      requires Valid() && (sent ==> slots > 0)
      modifies this`active, this`txStart, this`mapped, skbRing`head, skbRing`taken, skbRing.buff
      ensures Valid()
      ensures v.Dropped? <==> len == 0 || nrFrags + 1 > TxPackets.SKB_FRAGS_MAX || nrFrags + 1 > avail
      ensures v.Sent? <==> !v.Dropped? && |old(skbRing.Contents())| < skbRing.size - 1 && slots > 0
      ensures Abs() == if v.Dropped? then old(Abs()) else Step(old(Abs()), PutEvent(skb, sent))
    {
      if len == 0 || nrFrags + 1 > TxPackets.SKB_FRAGS_MAX || nrFrags + 1 > avail {
        return Dropped;
      }
      var ok := QueueForStamp(skb, jiffies, sent);
      v := if ok && slots > 0 then Sent else Busy;
    }

    /** aq_ptp_tx_hwtstamp: the timestamp goes to the oldest skb, and with the last one the
        timeout stops. */
    method TxHwtstamp(ns: int)
      requires Valid()
      modifies this`active, this`stamps, skbRing`tail, skbRing`dropped
      ensures Valid() && Abs() == Step(old(Abs()), StampEvent(ns))
    {
      var skb := skbRing.Get();
      if skb.None? {
        return;
      }
      stamps := stamps + [Stamp(skb.value, ns)];
      if skbRing.BufLen() == 0 {
        active := false;
      }
    }

    /** aq_ptp_tx_timeout_check: when the last skb was queued too long ago, all are dropped. */
    method TxTimeoutCheck(jiffies: nat)
      requires Valid()
      modifies this`active, this`lost, skbRing`tail, skbRing`dropped
      ensures Valid()
      ensures Abs() == if old(active) && txStart + hz * TX_TIMEOUT_SECONDS < jiffies
                       then Step(old(Abs()), TimeoutEvent) else old(Abs())
    {
      var timeoutFlag := false;
      if active {
        timeoutFlag := txStart + hz * TX_TIMEOUT_SECONDS < jiffies;
        if timeoutFlag {
          active := false;
        }
      }
      if timeoutFlag {
        lost := lost + skbRing.Contents();
        skbRing.Clean();
      }
    }
  }

  // ---------------------------------------------------------------- whole runs

  function Run(cap: nat, events: seq<Event>): State
    decreases |events|
  {
    if events == [] then State(cap, [], [], [], [], [])
    else Step(Run(cap, events[..|events| - 1]), events[|events| - 1])
  }

  function Stamped(stamps: seq<Stamp>): (r: seq<nat>)
    ensures |r| == |stamps|
  {
    seq(|stamps|, i requires 0 <= i < |stamps| => stamps[i].skb)
  }

  lemma OneStamp(stamps: seq<Stamp>, queue: seq<nat>, ns: int)
    requires queue != []
    ensures Stamped(stamps + [Stamp(queue[0], ns)]) == Stamped(stamps) + [queue[0]]
    ensures queue == [queue[0]] + queue[1..]
  {}

  /** Without a timeout the timestamps go to the skbs in the order they were queued. */
  lemma {:induction false} StampsInOrder(cap: nat, events: seq<Event>)
    requires forall i :: 0 <= i < |events| ==> !events[i].TimeoutEvent?
    ensures InOrder(Run(cap, events))
    decreases |events|
  {
    if events != [] {
      StampsInOrder(cap, events[..|events| - 1]);
      StepInOrder(Run(cap, events[..|events| - 1]), events[|events| - 1]);
    }
  }

  predicate InOrder(s: State)
  {
    s.taken == Stamped(s.stamps) + s.queue && s.lost == []
  }

  lemma StepInOrder(s: State, e: Event)
    requires InOrder(s) && !e.TimeoutEvent?
    ensures InOrder(Step(s, e))
  {
    if e.StampEvent? && s.queue != [] {
      OneStamp(s.stamps, s.queue, e.ns);
    }
  }

  // ---------------------------------------------------------------- stamps and the skbs they belong to

  /** The places in the order of queueing at which something was sent, in the order of sending. */
  function SentAt(mapped: seq<bool>): (r: seq<nat>)
    ensures |r| <= |mapped|
    ensures forall i :: 0 <= i < |r| ==> i <= r[i] < |mapped| && mapped[r[i]]
    ensures forall i, j :: 0 <= i < j < |r| ==> r[i] < r[j]
    decreases |mapped|
  {
    if mapped == [] then []
    else
      var n := |mapped| - 1;
      var before := SentAt(mapped[..n]);
      if mapped[n] then before + [n] else before
  }

  /** Nothing was sent between one of these places and the next. */
  lemma {:induction false} NothingBetween(mapped: seq<bool>, i: nat, j: nat)
    requires i < |SentAt(mapped)| && j < SentAt(mapped)[i] && (i > 0 ==> SentAt(mapped)[i - 1] < j)
    ensures !mapped[j]
    decreases |mapped|
  {
    var n := |mapped| - 1;
    if i < |SentAt(mapped[..n])| {
      NothingBetween(mapped[..n], i, j);
    } else {
      var before := SentAt(mapped[..n]);
      forall k | 0 <= k < |before|
        ensures before[k] < j
      {
        assert before[k] == SentAt(mapped)[k];
      }
      NothingBehind(mapped[..n], j);
    }
  }

  lemma {:induction false} NothingBehind(mapped: seq<bool>, j: nat)
    requires j < |mapped| && forall i :: 0 <= i < |SentAt(mapped)| ==> SentAt(mapped)[i] < j
    ensures !mapped[j]
    decreases |mapped|
  {
    var n := |mapped| - 1;
    LastSent(mapped);
    if j < n {
      assert SentAt(mapped) == SentAt(mapped[..n]);
      NothingBehind(mapped[..n], j);
    }
  }

  lemma LastSent(mapped: seq<bool>)
    requires mapped != []
    ensures var n := |mapped| - 1;
            mapped[n] ==> exists i :: 0 <= i < |SentAt(mapped)| && SentAt(mapped)[i] == n
  {
    var n := |mapped| - 1;
    if mapped[n] {
      assert SentAt(mapped)[|SentAt(mapped[..n])|] == n;
    }
  }

  /** While everything was sent, the places are those of the queue. */
  lemma {:induction false} SentInStep(mapped: seq<bool>, k: nat, i: nat)
    requires i < |SentAt(mapped)| && i < k <= |mapped| && forall j :: 0 <= j < k ==> mapped[j]
    ensures SentAt(mapped)[i] == i
  {
    if i > 0 {
      SentInStep(mapped, k, i - 1);
    }
    if SentAt(mapped)[i] > i {
      NothingBetween(mapped, i, i);
    }
  }

  /** The stack tries an skb that was refused again before it sends another, and sends none twice. */
  ghost predicate Retried(taken: seq<nat>, mapped: seq<bool>)
  {
    && |taken| == |mapped|
    && (forall i :: 0 <= i < |taken| - 1 && !mapped[i] ==> taken[i + 1] == taken[i])
    && (forall i, j :: 0 <= i < j < |taken| && mapped[i] && mapped[j] ==> taken[i] != taken[j])
  }

  lemma {:induction false} SameUntilSent(taken: seq<nat>, mapped: seq<bool>, i: nat, j: nat)
    requires Retried(taken, mapped) && i <= j < |taken| && forall k :: i <= k < j ==> !mapped[k]
    ensures taken[i] == taken[j]
    decreases j - i
  {
    if i < j {
      SameUntilSent(taken, mapped, i + 1, j);
    }
  }

  /** The i-th timestamp is that of the i-th skb sent, and goes to the i-th queued. */
  ghost predicate Reaches(taken: seq<nat>, mapped: seq<bool>, i: nat)
    requires |taken| == |mapped| && i < |SentAt(mapped)|
  {
    taken[i] == taken[SentAt(mapped)[i]]
  }

  lemma ReachesInStep(taken: seq<nat>, mapped: seq<bool>, n: nat, i: nat)
    requires Retried(taken, mapped) && i < n <= |SentAt(mapped)| && forall j :: 0 <= j < n - 1 ==> mapped[j]
    ensures Reaches(taken, mapped, i)
  {
    var at := SentAt(mapped)[i];
    forall k | i <= k < at
      ensures !mapped[k]
    {
      if i > 0 {
        SentInStep(mapped, i, i - 1);
      }
      NothingBetween(mapped, i, k);
    }
    SameUntilSent(taken, mapped, i, at);
  }

  /** Behind the first skb that was queued and not sent, the timestamp goes astray. */
  lemma AstrayBehind(taken: seq<nat>, mapped: seq<bool>, k: nat)
    requires Retried(taken, mapped) && k + 1 < |SentAt(mapped)| && !mapped[k] && forall j :: 0 <= j < k ==> mapped[j]
    ensures !Reaches(taken, mapped, k + 1)
  {
    var at := SentAt(mapped)[k];
    assert at > k && SentAt(mapped)[k + 1] > at;
    forall j | k + 1 <= j < at
      ensures !mapped[j]
    {
      if k > 0 {
        SentInStep(mapped, k, k - 1);
      }
      NothingBetween(mapped, k, j);
    }
    SameUntilSent(taken, mapped, k + 1, at);
  }

  lemma FirstUnmapped(mapped: seq<bool>, n: nat) returns (k: nat)
    requires n <= |mapped| && exists j :: 0 <= j < n && !mapped[j]
    ensures k < n && !mapped[k] && forall j :: 0 <= j < k ==> mapped[j]
  {
    k := 0;
    while mapped[k]
      invariant k < n && forall j :: 0 <= j < k ==> mapped[j]
      decreases n - k
    {
      k := k + 1;
    }
  }

  lemma ReachIff(taken: seq<nat>, mapped: seq<bool>, n: nat)
    requires Retried(taken, mapped) && n <= |SentAt(mapped)|
    ensures (forall i :: 0 <= i < n ==> Reaches(taken, mapped, i)) <==> (forall j :: 0 <= j < n - 1 ==> mapped[j])
  {
    if forall j :: 0 <= j < n - 1 ==> mapped[j] {
      forall i | 0 <= i < n
        ensures Reaches(taken, mapped, i)
      {
        ReachesInStep(taken, mapped, n, i);
      }
    } else {
      var k := FirstUnmapped(mapped, n - 1);
      AstrayBehind(taken, mapped, k);
    }
  }

  /** Without a timeout, and when the stack retries what was refused, the first n timestamps reach
      the skbs they belong to if and only if the n - 1 skbs queued first were mapped when they were
      queued. */
  lemma StampsReachTheirSkbsIff(cap: nat, events: seq<Event>, n: nat)
    requires forall i :: 0 <= i < |events| ==> !events[i].TimeoutEvent?
    requires var s := Run(cap, events);
             n <= |s.stamps| && n <= |SentAt(s.mapped)| && Retried(s.taken, s.mapped)
    ensures var s := Run(cap, events);
            (forall i :: 0 <= i < n ==> s.stamps[i].skb == s.taken[SentAt(s.mapped)[i]]) <==>
            (forall j :: 0 <= j < n - 1 ==> s.mapped[j])
  {
    var s := Run(cap, events);
    StampsInOrder(cap, events);
    ReachIff(s.taken, s.mapped, n);
    forall i | 0 <= i < n
      ensures s.stamps[i].skb == s.taken[SentAt(s.mapped)[i]] <==> Reaches(s.taken, s.mapped, i)
    {
      assert s.taken[i] == Stamped(s.stamps)[i];
    }
  }

  lemma RunSnoc(cap: nat, events: seq<Event>, e: Event)
    ensures Run(cap, events + [e]) == Step(Run(cap, events), e)
  {
    assert (events + [e])[..|events|] == events;
  }

  /** A refused skb and its retry, and another: the second timestamp goes to the first skb. */
  lemma StampGoesAstray(cap: nat, a: nat, b: nat, x: int, y: int)
    requires cap >= 3 && a != b
    ensures var s := Run(cap, [PutEvent(a, false), PutEvent(a, true), PutEvent(b, true), StampEvent(x), StampEvent(y)]);
            s.stamps == [Stamp(a, x), Stamp(a, y)] && s.queue == [b] && Retried(s.taken, s.mapped)
  {
    var e := [PutEvent(a, false), PutEvent(a, true), PutEvent(b, true), StampEvent(x), StampEvent(y)];
    var puts := [] + [PutEvent(a, false)] + [PutEvent(a, true)] + [PutEvent(b, true)];
    RunSnoc(cap, [], PutEvent(a, false));
    RunSnoc(cap, [] + [PutEvent(a, false)], PutEvent(a, true));
    RunSnoc(cap, [] + [PutEvent(a, false)] + [PutEvent(a, true)], PutEvent(b, true));
    RunSnoc(cap, puts, StampEvent(x));
    RunSnoc(cap, puts + [StampEvent(x)], StampEvent(y));
    assert e == puts + [StampEvent(x)] + [StampEvent(y)];
  }

  // ---------------------------------------------------------------- references

  /** Each reference taken is dropped after a timestamp, dropped after a timeout, or still
      queued; and the queue is never longer than its capacity. */
  ghost predicate Accounted(s: State)
  {
    && multiset(s.taken) == multiset(Stamped(s.stamps)) + multiset(s.lost) + multiset(s.queue)
    && |s.queue| <= s.cap
  }

  lemma StepAccounts(s: State, e: Event)
    requires Accounted(s)
    ensures Accounted(Step(s, e))
  {
    if e.StampEvent? && s.queue != [] {
      OneStamp(s.stamps, s.queue, e.ns);
      assert multiset(s.queue) == multiset([s.queue[0]]) + multiset(s.queue[1..]);
    }
  }

  lemma {:induction false} EveryReferenceIsAccountedFor(cap: nat, events: seq<Event>)
    ensures Accounted(Run(cap, events)) && Run(cap, events).cap == cap
    decreases |events|
  {
    if events != [] {
      EveryReferenceIsAccountedFor(cap, events[..|events| - 1]);
      StepAccounts(Run(cap, events[..|events| - 1]), events[|events| - 1]);
    }
  }
}
