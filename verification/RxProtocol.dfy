/** The RX ring as a protocol between the driver and the DMA engine: the engine writes posted
    descriptors back in order, the driver receives them into its slots, delivers whole packets
    from the head, and posts refilled slots at the tail. */
module RxProtocol {
  import opened Wrappers
  import opened Ring
  import opened RxChains

  const RX_FRAME_MAX: nat := 2 * 1024

  /** The fields of a written-back descriptor that the driver reads; `err` is its MAC or DMA
      error, `rscCnt` its LRO counter. */
  datatype RawWb = RawWb(eop: bool, err: bool, rscCnt: nat, pktLen: nat, nextPtr: nat, data: nat)

  /** A descriptor in shared memory: posting clears the word that holds the done bit. */
  datatype RxDesc = Posted(addr: nat) | Done(w: RawWb)

  datatype RxSlot = RxSlot(isEop: bool, isError: bool, isCleaned: bool, next: nat, len: nat, data: nat)

  datatype State = State(
    size: nat, swHead: nat, hwHead: nat, swTail: nat, ring: seq<RxSlot>, dx: seq<RxDesc>,
    hist: History, recv: nat, done: nat, posted: nat,
    delivered: seq<seq<Piece>>, errors: nat)

  // ---------------------------------------------------------------- receiving

  function RxLen(w: RawWb): (r: nat)
    ensures r <= RX_FRAME_MAX
  {
    if w.eop then (if w.pktLen % 2048 != 0 then w.pktLen % 2048 else RX_FRAME_MAX)
    else if w.pktLen > RX_FRAME_MAX then RX_FRAME_MAX else w.pktLen
  }

  /** Where the packet goes on: LRO chains say it, jumbo frames use the next slot. */
  function LinkOf(size: nat, slot: nat, w: RawWb): nat
  {
    if w.rscCnt != 0 then w.nextPtr else NextDx(size, slot)
  }

  function SlotOf(size: nat, slot: nat, w: RawWb): RxSlot
  {
    RxSlot(w.eop, w.err, false, if w.eop then 0 else LinkOf(size, slot, w), RxLen(w), w.data)
  }

  predicate CanReceive(s: State)
  {
    && s.hwHead < s.size == |s.ring| == |s.dx| && s.swTail < s.size
    && s.hwHead != s.swTail && s.dx[s.hwHead].Done?
  }

  /** One turn of the loop of hw_atl_b0_hw_ring_rx_receive. */
  function ReceiveOne(s: State): State
    requires CanReceive(s)
  {
    s.(ring := s.ring[s.hwHead := SlotOf(s.size, s.hwHead, s.dx[s.hwHead].w)],
       hwHead := NextDx(s.size, s.hwHead), recv := s.recv + 1)
  }

  function Receive(s: State): State
    decreases if CanReceive(s) then Dist(s.size, s.hwHead, s.swTail) else 0
  {
    if !CanReceive(s) then s else Receive(ReceiveOne(s))
  }

  // ---------------------------------------------------------------- walking a chain

  predicate Within(path: seq<nat>, n: nat)
  {
    forall k :: 0 <= k < |path| ==> path[k] < n
  }

  /** The slots that follow slot `cur` in its packet, if all of them lie between the head h and
      the hardware head t. (A link that goes back would not let the loop of the driver end.) */
  function Path(ring: seq<RxSlot>, h: nat, t: nat, cur: nat): (r: Option<seq<nat>>)
    requires h < |ring| && t < |ring| && cur < |ring|
    ensures r.Some? ==> Within(r.value, |ring|)
    decreases |ring| - Dist(|ring|, h, cur)
  {
    var n := ring[cur].next;
    if n >= |ring| || !DxInRange(h, n, t) || Dist(|ring|, h, n) <= Dist(|ring|, h, cur) then None
    else if ring[n].isEop then Some([n])
    else
      var rest := Path(ring, h, t, n);
      if rest.None? then None else Some([n] + rest.value)
  }

  /** The slots of `path` are linked one to the next behind `cur`, and only the last ends a packet. */
  predicate Chained(ring: seq<RxSlot>, cur: nat, path: seq<nat>)
    requires cur < |ring| && Within(path, |ring|)
    decreases |path|
  {
    && path != [] && ring[cur].next == path[0]
    && (if ring[path[0]].isEop then |path| == 1 else Chained(ring, path[0], path[1..]))
  }

  lemma {:induction false} PathIsChained(ring: seq<RxSlot>, h: nat, t: nat, cur: nat)
    requires h < |ring| && t < |ring| && cur < |ring| && Path(ring, h, t, cur).Some?
    ensures Chained(ring, cur, Path(ring, h, t, cur).value)
    decreases |ring| - Dist(|ring|, h, cur)
  {
    var n := ring[cur].next;
    if !ring[n].isEop {
      PathIsChained(ring, h, t, n);
      assert Path(ring, h, t, cur).value[1..] == Path(ring, h, t, n).value;
    }
  }

  /** Whether one of the slots visited on that walk holds an error. */
  predicate WalkError(ring: seq<RxSlot>, h: nat, t: nat, cur: nat)
    requires h < |ring| && t < |ring| && cur < |ring|
    decreases |ring| - Dist(|ring|, h, cur)
  {
    var n := ring[cur].next;
    if n >= |ring| || !DxInRange(h, n, t) || Dist(|ring|, h, n) <= Dist(|ring|, h, cur) then false
    else ring[n].isError || (!ring[n].isEop && WalkError(ring, h, t, n))
  }

  /** The links from `cur` on stay inside the ring and go forward, as far as the walk takes them. */
  predicate Walkable(ring: seq<RxSlot>, h: nat, t: nat, cur: nat)
    requires h < |ring| && t < |ring| && cur < |ring|
    decreases |ring| - Dist(|ring|, h, cur)
  {
    var n := ring[cur].next;
    n < |ring| &&
    (DxInRange(h, n, t) ==> Dist(|ring|, h, cur) < Dist(|ring|, h, n) && (ring[n].isEop || Walkable(ring, h, t, n)))
  }

  function Mark(ring: seq<RxSlot>, path: seq<nat>): (r: seq<RxSlot>)
    requires Within(path, |ring|)
    ensures |r| == |ring|
    ensures forall i :: 0 <= i < |ring| ==> r[i] == if i in path then ring[i].(isCleaned := true) else ring[i]
    decreases |path|
  {
    if path == [] then ring
    else Mark(ring[path[0] := ring[path[0]].(isCleaned := true)], path[1..])
  }

  function Gather(ring: seq<RxSlot>, path: seq<nat>): (r: seq<Piece>)
    requires Within(path, |ring|)
    ensures |r| == |path|
    ensures forall k :: 0 <= k < |path| ==> r[k] == Piece(ring[path[k]].data, ring[path[k]].len)
  {
    if path == [] then []
    else [Piece(ring[path[0]].data, ring[path[0]].len)] + Gather(ring, path[1..])
  }

  // ---------------------------------------------------------------- cleaning

  predicate HasWork(s: State)
  {
    s.swHead < s.size == |s.ring| && s.hwHead < s.size && s.swHead != s.hwHead
  }

  function HeadPath(s: State): (r: Option<seq<nat>>)
    requires HasWork(s)
    ensures r.Some? ==> Within(r.value, |s.ring|)
  {
    if s.ring[s.swHead].isEop then Some([]) else Path(s.ring, s.swHead, s.hwHead, s.swHead)
  }

  predicate HeadError(s: State)
    requires HasWork(s)
  {
    var b := s.ring[s.swHead];
    b.isError || (!b.isEop && WalkError(s.ring, s.swHead, s.hwHead, s.swHead))
  }

  /** The head slot collects the errors of the slots its walk has visited. */
  function Touch(s: State): State
    requires HasWork(s)
  {
    s.(ring := s.ring[s.swHead := s.ring[s.swHead].(isError := HeadError(s))])
  }

  function Advance(s: State): State
  {
    s.(swHead := NextDx(s.size, s.swHead), done := s.done + 1)
  }

  /** Whether a turn of the loop of aq_ring_rx_clean gets past the head slot; `alloc` says
      whether an skb can be had. */
  predicate Passes(s: State, alloc: bool)
    requires HasWork(s)
  {
    s.ring[s.swHead].isCleaned || (HeadPath(s).Some? && (HeadError(s) || alloc))
  }

  function CleanOne(s: State, alloc: bool): State
    requires HasWork(s)
  {
    if s.ring[s.swHead].isCleaned then Advance(s)
    else if HeadPath(s).None? || (!HeadError(s) && !alloc) then Touch(s)
    else
      var path, t := HeadPath(s).value, Touch(s);
      var u := t.(ring := Mark(t.ring, path));
      if HeadError(s) then Advance(u.(errors := s.errors + 1))
      else Advance(u.(delivered := s.delivered + [Gather(s.ring, [s.swHead] + path)]))
  }

  /** aq_ring_rx_clean; alloc(k) answers the k-th turn. */
  function Clean(s: State, budget: nat, alloc: nat -> bool, k: nat): State
    decreases budget
  {
    if budget == 0 || !HasWork(s) then s
    else if !Passes(s, alloc(k)) then CleanOne(s, alloc(k))
    else Clean(CleanOne(s, alloc(k)), budget - 1, alloc, k + 1)
  }

  // ---------------------------------------------------------------- refilling

  function RefillThreshold(size: nat, refillThres: nat): nat
  {
    if refillThres < size / 2 then refillThres else size / 2
  }

  /** aq_ring_rx_fill and the publication behind it, when no page is refused: every free slot is
      posted again, with the address that addrs gives for it. */
  function Refill(s: State, refillThres: nat, addrs: seq<nat>): State
    requires s.swHead < s.size == |s.ring| == |s.dx| && s.swTail < s.size
    requires |addrs| == AvailDx(s.size, s.swHead, s.swTail)
  {
    if |addrs| < RefillThreshold(s.size, refillThres) then s
    else s.(ring := Store(s.ring, s.swTail, Refreshed(Window(s.ring, s.swTail, |addrs|))),
            dx := Store(s.dx, s.swTail, seq(|addrs|, i requires 0 <= i < |addrs| => Posted(addrs[i]))),
            swTail := At(s.size, s.swTail, |addrs|), posted := s.posted + |addrs|)
  }

  /** Slots with flags and length reset. */
  function Refreshed(slots: seq<RxSlot>): (r: seq<RxSlot>)
    ensures |r| == |slots|
  {
    seq(|slots|, i requires 0 <= i < |slots| =>
      slots[i].(isEop := false, isError := false, isCleaned := false, len := RX_FRAME_MAX))
  }
}
