/** The RX ring as the driver updates it: receiving write-backs, delivering packets, refilling
    slots with pages and posting them, and the poll that does one after the other. Every method
    is tied to a step of RxDelivery. */
module RxRing {
  import opened Wrappers
  import opened Ring
  import opened RxChains
  import opened RxProtocol
  import opened RxSafety
  import opened RxDelivery
  import opened RxRefill
  import Pages = RxPages

  class RxRing {
    const size: nat
    const pageBytes: nat
    const buff: array<RxSlot>
    const dx: array<RxDesc>
    const rxdata: array<Option<Pages.RxPage>>
    var swHead: nat
    var hwHead: nat
    var swTail: nat
    var refs: map<nat, nat>
    var flips: nat
    var losts: nat
    var reuses: nat
    var errors: nat
    ghost var taken: seq<bool>
    ghost var regions: seq<Pages.Region>
    ghost var hist: History
    ghost var recv: nat
    ghost var done: nat
    ghost var posted: nat
    ghost var delivered: seq<seq<Piece>>

    ghost function Abs(): State
      reads this, buff, dx
    {
      State(size, swHead, hwHead, swTail, buff[..], dx[..], hist, recv, done, posted, delivered, errors)
    }

    ghost function AbsPages(): Pages.State
      reads this, rxdata
    {
      Pages.State(pageBytes, rxdata[..], taken, refs, regions, flips, losts, reuses)
    }

    ghost predicate Valid()
      reads this, buff, dx, rxdata
    {
      && buff.Length == dx.Length == rxdata.Length == size
      && BothInv(Abs(), AbsPages())
    }

    constructor (rxds: nat, bytes: nat)
      requires 0 < rxds && Pages.RX_FRAME_MAX <= bytes
      ensures Valid() && Init(Abs(), AbsPages()) && size == rxds
      ensures fresh(buff) && fresh(dx) && fresh(rxdata)
    {
      size, pageBytes := rxds, bytes;
      buff := new RxSlot[rxds](_ => RxSlot(false, false, false, 0, 0, 0));
      dx := new RxDesc[rxds](_ => Posted(0));
      rxdata := new Option<Pages.RxPage>[rxds](_ => None);
      swHead, hwHead, swTail := 0, 0, 0;
      refs, flips, losts, reuses, errors := map[], 0, 0, 0, 0;
      taken, regions, hist, delivered := seq(rxds, _ => false), [], [], [];
      recv, done, posted := 0, 0, 0;
      new;
      InitIsSafe(Abs(), AbsPages());
    }

    /** The indices are slots of arrays of the same length. */
    ghost predicate Shape()
      reads this
    {
      && buff.Length == dx.Length == rxdata.Length == |taken| == size
      && swHead < size && hwHead < size && swTail < size
    }

    // ------------------------------------------------------------ receiving

    method ReceiveLoop()
      requires Shape()
      modifies this`hwHead, this`recv, buff
      ensures Shape() && Abs() == RxProtocol.Receive(old(Abs()))
    {
      while hwHead != swTail
        invariant Shape()
        invariant RxProtocol.Receive(Abs()) == RxProtocol.Receive(old(Abs()))
        decreases Dist(size, hwHead, swTail)
      {
        if !dx[hwHead].Done? {
          break;
        }
        ghost var s := Abs();
        buff[hwHead] := SlotOf(size, hwHead, dx[hwHead].w);
        hwHead := NextDx(size, hwHead);
        recv := recv + 1;
        assert CanReceive(s) && Abs() == ReceiveOne(s);
      }
    }

    /** hw_atl_b0_hw_ring_rx_receive. */
    method Receive()
      requires Valid()
      modifies this`hwHead, this`recv, buff
      ensures Valid() && Abs() == RxProtocol.Receive(old(Abs())) && AbsPages() == old(AbsPages())
    {
      ReceiveKeepsBoth(Abs(), AbsPages());
      ReceiveLoop();
    }

    // ------------------------------------------------------------ cleaning

    /** The first walk over the packet at the head: whether all of it has been received, and
        whether it holds an error, which the head slot keeps. */
    method Walk() returns (complete: bool)
      requires Shape() && swHead != hwHead
      requires buff[swHead].isEop || Walkable(buff[..], swHead, hwHead, swHead)
      modifies buff
      ensures complete == HeadPath(old(Abs())).Some?
      ensures Abs() == Touch(old(Abs()))
    {
      ghost var s := Abs();
      var isError := buff[swHead].isError;
      complete := true;
      if !buff[swHead].isEop {
        var cur: nat := swHead;
        while true
          invariant cur < size && Walkable(s.ring, swHead, hwHead, cur)
          invariant HeadPath(s).Some? <==> Path(s.ring, swHead, hwHead, cur).Some?
          invariant HeadError(s) == (isError || WalkError(s.ring, swHead, hwHead, cur))
          decreases size - Dist(size, swHead, cur)
        {
          var next := buff[cur].next;
          if !DxInRange(swHead, next, hwHead) {
            complete := false;
            break;
          }
          isError := isError || buff[next].isError;
          cur := next;
          if buff[cur].isEop {
            break;
          }
        }
      }
      buff[swHead] := buff[swHead].(isError := isError);
    }

    /** The loop that marks the rest of a packet that is dropped. */
    method MarkRest(first: nat, ghost path: seq<nat>)
      requires buff.Length == size && first < size && Within(path, size) && Chained(buff[..], first, path)
      modifies buff
      ensures buff[..] == Mark(old(buff[..]), path)
    {
      var cur: nat := first;
      ghost var rest, ring0 := path, buff[..];
      while true
        invariant HalfMarked(buff[..], ring0, path, cur, rest)
        decreases |rest|
      {
        MarkOne(buff[..], ring0, path, cur, rest);
        var next := buff[cur].next;
        buff[next] := buff[next].(isCleaned := true);
        cur, rest := next, rest[1..];
        if buff[cur].isEop {
          break;
        }
      }
    }

    /** One more piece of a page for an skb: skb_add_rx_frag and page_ref_inc. */
    method AddFrag(i: nat, lo: nat, hi: nat)
      requires i < rxdata.Length == |taken| && rxdata[i].Some?
      modifies this`refs, this`regions, this`taken
      ensures AbsPages() == Pages.Take(old(AbsPages()), i, lo, hi)
    {
      var p := rxdata[i].value.page;
      refs := refs[p := (if p in refs then refs[p] else 0) + 1];
      regions := regions + [Pages.Region(p, lo, hi)];
      taken := taken[i := true];
    }

    /** One buffer of a packet that is delivered. */
    method DeliverNext(cur: nat, ghost pieces: seq<Piece>, ghost ring0: seq<RxSlot>, ghost pages0: Pages.State,
                       ghost path: seq<nat>, ghost rest: seq<nat>)
      returns (next: nat, ghost more: seq<Piece>)
      requires Shape() && HalfDelivered(buff[..], AbsPages(), pieces, ring0, pages0, path, cur, rest)
      modifies this`refs, this`regions, this`taken, buff
      ensures Shape() && next < size
      ensures if buff[next].isEop then
                buff[..] == Mark(ring0, path) && AbsPages() == TakeRest(pages0, ring0, path)
                && more == Gather(ring0, path)
              else HalfDelivered(buff[..], AbsPages(), more, ring0, pages0, path, next, rest[1..])
    {
      ghost var ring, ps := buff[..], AbsPages();
      NextToDeliver(ring, ps, pieces, ring0, pages0, path, cur, rest);
      next := buff[cur].next;
      more := pieces + [Piece(buff[next].data, buff[next].len)];
      HandOver(next);
      DeliverOne(ring, ps, pieces, ring0, pages0, path, cur, rest, buff[..], AbsPages(), more);
    }

    /** The bytes received in slot i go to the skb, and the slot is marked. */
    method HandOver(i: nat)
      requires Shape() && i < size && rxdata[i].Some?
      modifies this`refs, this`regions, this`taken, buff
      ensures Shape()
      ensures var off := rxdata[i].value.off;
              AbsPages() == Pages.Take(old(AbsPages()), i, off, off + old(buff[i].len))
      ensures buff[..] == old(buff[..])[i := old(buff[i]).(isCleaned := true)]
    {
      var off := rxdata[i].value.off;
      AddFrag(i, off, off + buff[i].len);
      buff[i] := buff[i].(isCleaned := true);
    }

    /** The loop that hands over the rest of a packet that is delivered. */
    method DeliverRest(first: nat, ghost path: seq<nat>) returns (ghost pieces: seq<Piece>)
      requires Shape() && first < size && Within(path, size) && Chained(buff[..], first, path)
      requires AllUsable(AbsPages(), buff[..], path)
      modifies this`refs, this`regions, this`taken, buff
      ensures Shape() && buff[..] == Mark(old(buff[..]), path)
      ensures AbsPages() == TakeRest(old(AbsPages()), old(buff[..]), path)
      ensures pieces == Gather(old(buff[..]), path)
    {
      var cur: nat := first;
      ghost var rest, ring0, pages0 := path, buff[..], AbsPages();
      pieces := [];
      while true
        invariant Shape() && HalfDelivered(buff[..], AbsPages(), pieces, ring0, pages0, path, cur, rest)
        decreases |rest|
      {
        cur, pieces := DeliverNext(cur, pieces, ring0, pages0, path, rest);
        if buff[cur].isEop {
          break;
        }
        rest := rest[1..];
      }
    }

    // ------------------------------------------------------------ one turn

    /** The first buffer of a packet: it becomes the skb, or gives it what is left behind the
        copied headers. */
    method DeliverFirst(single: bool, headLen: nat)
      requires Shape() && rxdata[swHead].Some?
      modifies this`refs, this`regions, this`taken
      ensures Shape()
      ensures var off, len := rxdata[swHead].value.off, buff[swHead].len;
              AbsPages() == if single then Pages.Take(old(AbsPages()), swHead, off, off + RX_FRAME_MAX)
                            else TakeHead(old(AbsPages()), swHead, len, HdrLen(len, headLen))
    {
      var off, len := rxdata[swHead].value.off, buff[swHead].len;
      if single {
        AddFrag(swHead, off, off + RX_FRAME_MAX);
      } else {
        var hdrLen := HdrLen(len, headLen);
        if len > hdrLen {
          AddFrag(swHead, off + hdrLen, off + len);
        }
      }
    }

    /** Deliver the packet at the head, all of which has been received without error. */
    method Deliver(skbAlign: nat, headLen: nat, ghost path: seq<nat>) returns (ghost packet: seq<Piece>)
      requires Shape() && swHead != hwHead && Within(path, size)
      requires if buff[swHead].isEop then path == [] else Chained(buff[..], swHead, path)
      requires Usable(AbsPages(), swHead) && AllUsable(AbsPages(), buff[..], path)
      modifies this`refs, this`regions, this`taken, buff
      ensures Shape() && buff[..] == Mark(old(buff[..]), path)
      ensures AbsPages() == TakePacket(old(AbsPages()), old(buff[..]), swHead, path, skbAlign, headLen)
      ensures packet == Gather(old(buff[..]), [swHead] + path)
    {
      ghost var ring0 := buff[..];
      packet := [Piece(buff[swHead].data, buff[swHead].len)];
      var single := buff[swHead].isEop && buff[swHead].len + skbAlign <= RX_FRAME_MAX;
      DeliverFirst(single, headLen);
      assert AllUsable(AbsPages(), ring0, path) by {
        assert forall k :: 0 <= k < |path| ==> Usable(old(AbsPages()), path[k]);
      }
      if !buff[swHead].isEop {
        ghost var more := DeliverRest(swHead, path);
        packet := packet + more;
      }
      assert ([swHead] + path)[1..] == path;
    }

    method Advance()
      requires Shape()
      modifies this`swHead, this`done
      ensures Shape() && Abs() == RxProtocol.Advance(old(Abs())) && AbsPages() == old(AbsPages())
    {
      swHead := NextDx(size, swHead);
      done := done + 1;
    }

    /** Drop the packet at the head, which holds an error. */
    method Drop(ghost path: seq<nat>)
      requires Shape() && Within(path, size)
      requires if buff[swHead].isEop then path == [] else Chained(buff[..], swHead, path)
      modifies this`errors, buff
      ensures Shape() && AbsPages() == old(AbsPages())
      ensures Abs() == old(Abs()).(ring := Mark(old(buff[..]), path), errors := old(errors) + 1)
    {
      if !buff[swHead].isEop {
        MarkRest(swHead, path);
      }
      errors := errors + 1;
    }

    /** The end of a turn that delivers. */
    method DeliverTurn(skbAlign: nat, headLen: nat, ghost path: seq<nat>)
      requires Shape() && swHead != hwHead && Within(path, size)
      requires if buff[swHead].isEop then path == [] else Chained(buff[..], swHead, path)
      requires Usable(AbsPages(), swHead) && AllUsable(AbsPages(), buff[..], path)
      modifies this`swHead, this`done, this`delivered, this`refs, this`regions, this`taken, buff
      ensures Shape()
      ensures Abs() == RxProtocol.Advance(old(Abs()).(
                ring := Mark(old(buff[..]), path),
                delivered := old(delivered) + [Gather(old(buff[..]), [old(swHead)] + path)]))
      ensures AbsPages() == TakePacket(old(AbsPages()), old(buff[..]), old(swHead), path, skbAlign, headLen)
    {
      ghost var packet := Deliver(skbAlign, headLen, path);
      delivered := delivered + [packet];
      Advance();
    }

    /** The end of a turn that has found the whole packet, and that it holds an error; s is the state
        before its walk. */
    method DropPacket(ghost s: State, ghost path: seq<nat>, ghost alloc: bool)
      requires WholeAtHead(s, path) && HeadError(s)
      requires Shape() && Abs() == Touch(s)
      modifies this`swHead, this`done, this`errors, buff
      ensures Shape() && Abs() == CleanOne(s, alloc) && AbsPages() == old(AbsPages())
    {
      if !buff[swHead].isEop {
        HeadPathIsChained(s);
      }
      Drop(path);
      Advance();
      DroppedIs(s, path, alloc);
    }

    /** The same without an error, when there is an skb for the packet. */
    method DeliverPacket(skbAlign: nat, headLen: nat, ghost s: State, ghost ps: Pages.State, ghost path: seq<nat>)
      requires WholeAtHead(s, path) && !HeadError(s) && PathUsable(s, ps)
      requires Shape() && Abs() == Touch(s) && AbsPages() == ps
      modifies this`swHead, this`done, this`delivered, this`refs, this`regions, this`taken, buff
      ensures Shape() && Abs() == CleanOne(s, true) && AbsPages() == TurnPages(s, ps, true, skbAlign, headLen)
    {
      if !buff[swHead].isEop {
        HeadPathIsChained(s);
      }
      UntouchedWithoutError(s);
      DeliverTurn(skbAlign, headLen, path);
      DeliveredIs(s, ps, path, skbAlign, headLen);
    }

    /** The end of a turn that has found the whole packet. */
    method PassPacket(alloc: bool, skbAlign: nat, headLen: nat, ghost s: State, ghost ps: Pages.State)
      returns (passed: bool, starved: bool)
      requires HasWork(s) && !s.ring[s.swHead].isCleaned && HeadPath(s).Some? && PathUsable(s, ps)
      requires Shape() && Abs() == Touch(s) && AbsPages() == ps
      modifies this`swHead, this`done, this`errors, this`delivered, this`refs, this`regions, this`taken, buff
      ensures Shape() && passed == Passes(s, alloc) && starved == Starved(s, alloc)
      ensures Abs() == CleanOne(s, alloc) && AbsPages() == TurnPages(s, ps, alloc, skbAlign, headLen)
    {
      if buff[swHead].isError {
        DropPacket(s, HeadPath(s).value, alloc);
        return true, false;
      }
      if !alloc {
        return false, true;
      }
      DeliverPacket(skbAlign, headLen, s, ps, HeadPath(s).value);
      passed, starved := true, false;
    }

    /** One turn of the loop of aq_ring_rx_clean. */
    method TurnBody(alloc: bool, skbAlign: nat, headLen: nat) returns (passed: bool, starved: bool)
      requires Shape() && swHead != hwHead
      requires buff[swHead].isEop || Walkable(buff[..], swHead, hwHead, swHead)
      requires HeadPath(Abs()).Some? ==> PathUsable(Abs(), AbsPages())
      modifies this`swHead, this`done, this`errors, this`delivered, this`refs, this`regions, this`taken, buff
      ensures Shape() && passed == Passes(old(Abs()), alloc) && starved == Starved(old(Abs()), alloc)
      ensures Abs() == CleanOne(old(Abs()), alloc)
      ensures AbsPages() == TurnPages(old(Abs()), old(AbsPages()), alloc, skbAlign, headLen)
    {
      ghost var s, ps := Abs(), AbsPages();
      if buff[swHead].isCleaned {
        Advance();
        return true, false;
      }
      var complete := Walk();
      if !complete {
        return false, false;
      }
      passed, starved := PassPacket(alloc, skbAlign, headLen, s, ps);
    }

    /** The same, seen as the k-th turn of a call that is to lead to `goal`. */
    method TurnToward(c: Call, left: nat, k: nat, ghost goal: CleanResult) returns (passed: bool, failed: bool)
      requires Shape() && swHead != hwHead && left > 0
      requires buff[swHead].isEop || Walkable(buff[..], swHead, hwHead, swHead)
      requires HeadPath(Abs()).Some? ==> PathUsable(Abs(), AbsPages())
      requires goal == CleanAll(Abs(), AbsPages(), c.(budget := left), k)
      modifies this`swHead, this`done, this`errors, this`delivered, this`refs, this`regions, this`taken, buff
      ensures Abs() == CleanOne(old(Abs()), c.alloc(k))
      ensures AbsPages() == TurnPages(old(Abs()), old(AbsPages()), c.alloc(k), c.kernel.skbAlign, c.kernel.headLen(k))
      ensures done == old(done) + if passed then 1 else 0
      ensures if passed then !failed && goal == CleanAll(Abs(), AbsPages(), c.(budget := left - 1), k + 1)
              else goal == CleanResult(Abs(), AbsPages(), failed)
    {
      ghost var s, ps := Abs(), AbsPages();
      passed, failed := TurnBody(c.alloc(k), c.kernel.skbAlign, c.kernel.headLen(k));
      TowardGoal(s, ps, c, left, k, Abs(), AbsPages(), passed, failed, goal);
    }

    /** Half way through a call: k slots have been passed, `left` more may be, and what is left
        to do leads to `goal`. */
    ghost predicate Going(c: Call, left: nat, k: nat, done0: nat, goal: CleanResult)
      reads this, buff, dx, rxdata
    {
      && Valid() && k + left == c.budget && k == done - done0
      && goal == CleanAll(Abs(), AbsPages(), c.(budget := left), k)
    }

    /** One turn more. */
    method NextTurn(c: Call, left: nat, k: nat, ghost done0: nat, ghost goal: CleanResult)
      returns (passed: bool, failed: bool, left': nat, k': nat)
      requires Going(c, left, k, done0, goal) && swHead != hwHead && left > 0
      modifies this`swHead, this`done, this`errors, this`delivered, this`refs, this`regions, this`taken, buff
      ensures Valid() && k' == done - done0 && k' + left' == c.budget
      ensures passed ==> !failed && Going(c, left', k', done0, goal) && left' < left
      ensures !passed ==> goal == CleanResult(Abs(), AbsPages(), failed)
    {
      HeadIsWalkable(Abs());
      if HeadPath(Abs()).Some? {
        PathIsUsable(Abs(), AbsPages());
      }
      TurnKeepsLink(Abs(), AbsPages(), c.alloc(k), c.kernel.skbAlign, c.kernel.headLen(k));
      passed, failed := TurnToward(c, left, k, goal);
      left', k' := if passed then left - 1 else left, if passed then k + 1 else k;
    }

    /** aq_ring_rx_clean. */
    method Clean(c: Call) returns (workDone: nat, failed: bool)
      requires Valid()
      modifies this`swHead, this`done, this`errors, this`delivered, this`refs, this`regions, this`taken, buff
      ensures Valid()
      ensures CleanResult(Abs(), AbsPages(), failed) == CleanAll(old(Abs()), old(AbsPages()), c, 0)
      ensures workDone == done - old(done) <= c.budget
    {
      workDone, failed := 0, false;
      var left := c.budget;
      ghost var goal := CleanAll(Abs(), AbsPages(), c.(budget := left), 0);
      while swHead != hwHead && left > 0
        invariant !failed && Going(c, left, workDone, old(done), goal)
        decreases left
      {
        var passed;
        passed, failed, left, workDone := NextTurn(c, left, workDone, old(done), goal);
        if !passed {
          return;
        }
      }
      CleanEnd(Abs(), AbsPages(), c.(budget := left), workDone);
    }

    // ------------------------------------------------------------ refilling

    /** The first half of aq_get_rxpages: the next window of the page, the first one again, or none. */
    method ReusePage(i: nat)
      requires Shape() && i < size && rxdata[i].Some?
      modifies this`refs, this`flips, this`losts, this`reuses, rxdata
      ensures Shape() && AbsPages() == Pages.Reuse(old(AbsPages()), i)
      ensures forall j :: 0 <= j < rxdata.Length && j != i ==> rxdata[j] == old(rxdata[j])
    {
      var b := rxdata[i].value;
      var count := if b.page in refs then refs[b.page] else 0;
      if count > 1 {
        var off := b.off + RX_FRAME_MAX;
        if off + RX_FRAME_MAX <= pageBytes {
          rxdata[i], flips := Some(Pages.RxPage(b.page, off)), flips + 1;
        } else {
          rxdata[i], refs, losts := None, refs[b.page := count - 1], losts + 1;
        }
      } else {
        rxdata[i], reuses := Some(Pages.RxPage(b.page, 0)), reuses + 1;
      }
    }

    /** aq_get_rxpages; `given` is the page the allocator gives, if any. */
    method GetRxPages(i: nat, given: Option<nat>) returns (ok: bool)
      requires Shape() && i < size
      modifies this`refs, this`flips, this`losts, this`reuses, this`taken, rxdata
      ensures Shape() && AbsPages() == Pages.GetRxPages(old(AbsPages()), i, given)
      ensures ok == rxdata[i].Some? && (given.Some? ==> ok)
      ensures forall j :: 0 <= j < rxdata.Length && j != i ==> rxdata[j] == old(rxdata[j])
    {
      if rxdata[i].Some? {
        ReusePage(i);
      }
      taken := taken[i := false];
      if rxdata[i].None? {
        if given.None? {
          return false;
        }
        rxdata[i], refs := Some(Pages.RxPage(given.value, 0)), refs[given.value := 1];
      }
      ok := true;
    }

    /** What is left to do of a refill, as the pure loop does it. */
    ghost function Rest(n: nat, given: nat -> Option<nat>, k: nat): Filling
      requires Shape()
      reads this, buff, rxdata
    {
      FillAll(buff[..], swTail, AbsPages(), n, given, k)
    }

    /** One slot of a refill. */
    method FillSlot(ghost n: nat, given: nat -> Option<nat>, k: nat) returns (ok: bool)
      requires Shape() && n > 0
      modifies this`swTail, this`refs, this`flips, this`losts, this`reuses, this`taken, buff, rxdata
      ensures Shape()
      ensures old(Rest(n, given, k)) ==
              if ok then Rest(n - 1, given, k + 1) else Filling(buff[..], swTail, AbsPages(), false)
    {
      buff[swTail] := FreshSlot(buff[swTail]);
      ok := GetRxPages(swTail, given(k));
      if ok {
        swTail := NextDx(size, swTail);
      }
    }

    /** aq_ring_rx_fill. */
    method Fill(refillThres: nat, given: nat -> Option<nat>) returns (ok: bool)
      requires Shape()
      modifies this`swTail, this`refs, this`flips, this`losts, this`reuses, this`taken, buff, rxdata
      ensures Shape()
      ensures var n := AvailDx(size, old(swHead), old(swTail));
              if n < RefillThreshold(size, refillThres) then
                ok && Abs() == old(Abs()) && AbsPages() == old(AbsPages())
              else
                && n >= 0 && Filled(old(Abs()), old(AbsPages()), n, given, Abs(), AbsPages())
                && ok == (Refilled(old(AbsPages()), old(swTail), n, given, 0) == n)
    {
      LivePlusAvail(size, swHead, swTail);
      ghost var n := AvailDx(size, swHead, swTail);
      ok := FillLoop(refillThres, given);
      if n >= RefillThreshold(size, refillThres) {
        FillAllIs(old(buff[..]), old(swTail), old(AbsPages()), n, given, 0);
      }
    }

    method FillLoop(refillThres: nat, given: nat -> Option<nat>) returns (ok: bool)
      requires Shape() && AvailDx(size, swHead, swTail) >= 0
      modifies this`swTail, this`refs, this`flips, this`losts, this`reuses, this`taken, buff, rxdata
      ensures Shape()
      ensures var n := AvailDx(size, swHead, old(swTail));
              if n < RefillThreshold(size, refillThres) then
                ok && Abs() == old(Abs()) && AbsPages() == old(AbsPages())
              else
                old(Rest(AvailDx(size, swHead, swTail), given, 0)) == Filling(buff[..], swTail, AbsPages(), ok)
    {
      ok := true;
      if AvailDx(size, swHead, swTail) < RefillThreshold(size, refillThres) {
        return;
      }
      var i, k := AvailDx(size, swHead, swTail), 0;
      while i > 0
        invariant 0 <= i && Shape()
        invariant Rest(i, given, k) == old(Rest(AvailDx(size, swHead, swTail), given, 0))
      {
        i := i - 1;
        ok := FillSlot(i + 1, given, k);
        if !ok {
          return;
        }
        k := k + 1;
      }
    }

    method PublishOne(at: nat, ghost left: nat)
      requires Shape() && at < size && 0 < left < size
      requires forall j :: 0 <= j < left ==> rxdata[At(size, at, j)].Some?
      modifies this`posted, dx
      ensures Shape() && AbsPages() == old(AbsPages())
      ensures Abs() == old(Abs()).(dx := dx[..], posted := old(posted) + 1)
      ensures forall j :: 0 <= j < left - 1 ==> rxdata[At(size, NextDx(size, at), j)].Some?
      ensures Store(dx[..], NextDx(size, at), Posts(AbsPages(), NextDx(size, at), left - 1)) ==
              Store(old(dx[..]), at, Posts(AbsPages(), at, left))
    {
      PostOne(AbsPages(), at, left);
      StoreNext(dx[..], at, Posted(Addr(AbsPages(), at)), Posts(AbsPages(), NextDx(size, at), left - 1));
      dx[at] := Posted(rxdata[at].value.page + rxdata[at].value.off);
      posted := posted + 1;
    }

    /** hw_atl_b0_hw_ring_rx_fill: post the slots from sw_tail_old up to the tail. */
    method Publish(swTailOld: nat, ghost n: nat)
      requires Shape() && swTailOld < size && n < size && swTail == At(size, swTailOld, n)
      requires forall j :: 0 <= j < n ==> rxdata[At(size, swTailOld, j)].Some?
      modifies this`posted, dx
      ensures Shape() && AbsPages() == old(AbsPages())
      ensures Abs() == old(Abs()).(dx := Store(old(dx[..]), swTailOld, Posts(AbsPages(), swTailOld, n)),
                                   posted := old(posted) + n)
    {
      var at: nat := swTailOld;
      ghost var left: nat := n;
      while at != swTail
        invariant Shape() && at < size && left <= n && posted == old(posted) + n - left
        invariant swTail == At(size, at, left)
        invariant forall j :: 0 <= j < left ==> rxdata[At(size, at, j)].Some?
        invariant Store(dx[..], at, Posts(AbsPages(), at, left)) ==
                  Store(old(dx[..]), swTailOld, Posts(AbsPages(), swTailOld, n))
        decreases left
      {
        NextIsAt(size, at, left);
        PublishOne(at, left);
        at, left := NextDx(size, at), left - 1;
      }
    }

    // ------------------------------------------------------------ polling

    /** What a refill leaves when a page was refused: a step of the protocol if that was the first
        one, and the failed refill otherwise. */
    ghost method RefillRefused(s: State, ps: Pages.State, refillThres: nat, given: nat -> Option<nat>)
      requires BothInv(s, ps) && buff.Length == dx.Length == rxdata.Length == size == s.size
      requires AllocatorOk(ps, s.swTail, Free(s), given, 0) && !FillWorks(s, ps, refillThres, given)
      requires Filled(s, ps, Free(s), given, Abs(), AbsPages())
      ensures Abs() == FailedRefill(s, Refilled(ps, s.swTail, Free(s), given, 0))
      ensures RefillOutcome(s, ps, refillThres, given, Abs(), AbsPages())
      ensures !FailsMidway(s, ps, refillThres, given) ==> Valid()
    {
      FilledInPart(s, ps, given, Abs(), AbsPages());
      if !FailsMidway(s, ps, refillThres, given) {
        FilledNothing(s, ps, refillThres, given, Abs(), AbsPages());
        StepKeepsBoth(s, ps, RefillCall(refillThres, given), Abs(), AbsPages());
      }
    }

    /** What it leaves when none was, once the slots are posted. */
    ghost method RefillGranted(s: State, ps: Pages.State, refillThres: nat, given: nat -> Option<nat>)
      requires BothInv(s, ps) && buff.Length == dx.Length == rxdata.Length == size == s.size
      requires RefillStep(s, ps, refillThres, given, Abs(), AbsPages())
      ensures Valid()
    {
      StepKeepsBoth(s, ps, RefillCall(refillThres, given), Abs(), AbsPages());
    }

    /** Refill and publication, on a ring of which only the indices and the pages are known. */
    method FillAndPublish(refillThres: nat, given: nat -> Option<nat>) returns (ok: bool)
      requires Shape() && Pages.Inv(AbsPages())
      requires AllocatorOk(AbsPages(), swTail, Free(Abs()), given, 0)
      modifies this`swTail, this`posted, this`refs, this`flips, this`losts, this`reuses, this`taken, buff, dx, rxdata
      ensures Shape() && ok == FillWorks(old(Abs()), old(AbsPages()), refillThres, given)
      ensures ok ==> RefillStep(old(Abs()), old(AbsPages()), refillThres, given, Abs(), AbsPages())
      ensures !ok ==> Filled(old(Abs()), old(AbsPages()), old(Free(Abs())), given, Abs(), AbsPages())
    {
      ghost var s, ps, n := Abs(), AbsPages(), Free(Abs());
      LivePlusAvail(size, swHead, swTail);
      var swTailOld := swTail;
      ok := Fill(refillThres, given);
      if !ok {
        return;
      }
      if n >= RefillThreshold(size, refillThres) {
        FilledAndPosted(s, ps, refillThres, given, Abs(), AbsPages());
      }
      Publish(swTailOld, if n < RefillThreshold(size, refillThres) then 0 else n);
    }

    /** Refill and publication, as the poll does one after the other. */
    method Replenish(refillThres: nat, given: nat -> Option<nat>) returns (ok: bool)
      requires Valid()
      requires AllocatorOk(AbsPages(), swTail, Free(Abs()), given, 0)
      modifies this`swTail, this`posted, this`refs, this`flips, this`losts, this`reuses, this`taken, buff, dx, rxdata
      ensures ok == FillWorks(old(Abs()), old(AbsPages()), refillThres, given)
      ensures RefillOutcome(old(Abs()), old(AbsPages()), refillThres, given, Abs(), AbsPages())
      ensures !FailsMidway(old(Abs()), old(AbsPages()), refillThres, given) ==> Valid()
      ensures !ok ==>
                Abs() == FailedRefill(old(Abs()), Refilled(old(AbsPages()), old(swTail), Free(old(Abs())), given, 0))
    {
      ghost var s, ps := Abs(), AbsPages();
      ok := FillAndPublish(refillThres, given);
      if ok {
        RefillGranted(s, ps, refillThres, given);
      } else {
        RefillRefused(s, ps, refillThres, given);
      }
    }

    /** The RX half of aq_vec_poll. The ring stays valid whatever is refused, unless a refill fails
        half way. */
    method Poll(c: Call, refillThres: nat, given: nat -> Option<nat>, hw: HwRx) returns (workDone: nat, ok: bool)
      requires Valid()
      requires PollAllocatorOk(Abs(), AbsPages(), c, given)
      modifies this, buff, dx, rxdata
      ensures workDone == done - old(done) <= c.budget
      ensures ok == PollWorks(old(Abs()), old(AbsPages()), c, refillThres, given, hw)
      ensures PollStep(old(Abs()), old(AbsPages()), c, refillThres, given, hw, Abs(), AbsPages())
      ensures !PollFailsMidway(old(Abs()), old(AbsPages()), c, refillThres, given, hw) ==> Valid()
    {
      workDone, ok := 0, hw.receiveOk;
      Receive();
      if ok && swHead != hwHead {
        workDone, ok := CleanAndReplenish(c, refillThres, given);
        ok := ok && hw.postOk;
      }
    }

    /** What a poll does when there is something to clean. */
    method CleanAndReplenish(c: Call, refillThres: nat, given: nat -> Option<nat>) returns (workDone: nat, ok: bool)
      requires Valid()
      requires var r := CleanAll(Abs(), AbsPages(), c, 0);
               && r.s.swHead < r.s.size && r.s.swTail < r.s.size == |r.ps.slots| == |r.ps.taken|
               && AllocatorOk(r.ps, r.s.swTail, Free(r.s), given, 0)
      modifies this, buff, dx, rxdata
      ensures workDone == done - old(done) <= c.budget
      ensures var r := CleanAll(old(Abs()), old(AbsPages()), c, 0);
              && ok == (!r.failed && FillWorks(r.s, r.ps, refillThres, given))
              && |r.s.ring| == r.s.size
              && (r.failed ==> Valid() && Abs() == r.s && AbsPages() == r.ps)
              && (!r.failed ==> RefillOutcome(r.s, r.ps, refillThres, given, Abs(), AbsPages()))
              && (!r.failed && !FailsMidway(r.s, r.ps, refillThres, given) ==> Valid())
    {
      var failed;
      workDone, failed := Clean(c);
      if failed {
        return workDone, false;
      }
      ok := Replenish(refillThres, given);
    }
  }

  /** The packet at the head has been received as a whole, and not been passed yet. */
  ghost predicate WholeAtHead(s: State, path: seq<nat>)
  {
    HasWork(s) && !s.ring[s.swHead].isCleaned && HeadPath(s) == Some(path)
  }

  lemma DroppedIs(s: State, path: seq<nat>, alloc: bool)
    requires WholeAtHead(s, path) && HeadError(s)
    ensures CleanOne(s, alloc) ==
            RxProtocol.Advance(Touch(s).(ring := Mark(Touch(s).ring, path), errors := s.errors + 1))
  {}

  lemma UntouchedWithoutError(s: State)
    requires HasWork(s) && !HeadError(s)
    ensures Touch(s) == s
  {
    assert s.ring[s.swHead := s.ring[s.swHead].(isError := false)] == s.ring;
  }

  lemma DeliveredIs(s: State, ps: Pages.State, path: seq<nat>, skbAlign: nat, headLen: nat)
    requires WholeAtHead(s, path) && !HeadError(s) && PathUsable(s, ps) && Touch(s) == s
    ensures CleanOne(s, true) ==
            RxProtocol.Advance(s.(ring := Mark(s.ring, path),
                                  delivered := s.delivered + [Gather(s.ring, [s.swHead] + path)]))
    ensures TurnPages(s, ps, true, skbAlign, headLen) == TakePacket(ps, s.ring, s.swHead, path, skbAlign, headLen)
  {}

  lemma TowardGoal(s: State, ps: Pages.State, c: Call, left: nat, k: nat, t: State, qs: Pages.State,
                   passed: bool, failed: bool, goal: CleanResult)
    requires left > 0 && HasWork(s) && goal == CleanAll(s, ps, c.(budget := left), k)
    requires passed == Passes(s, c.alloc(k)) && failed == Starved(s, c.alloc(k)) && t == CleanOne(s, c.alloc(k))
    requires qs == TurnPages(s, ps, c.alloc(k), c.kernel.skbAlign, c.kernel.headLen(k))
    ensures if passed then !failed && goal == CleanAll(t, qs, c.(budget := left - 1), k + 1)
            else goal == CleanResult(t, qs, failed)
  {
    CleanTurn(s, ps, c.(budget := left), k);
  }

  lemma {:induction false} ChainedByLinks(ring: seq<RxSlot>, ring': seq<RxSlot>, cur: nat, path: seq<nat>)
    requires cur < |ring| == |ring'| && Within(path, |ring|) && Chained(ring, cur, path)
    requires forall i :: 0 <= i < |ring| ==> ring'[i].next == ring[i].next && ring'[i].isEop == ring[i].isEop
    ensures Chained(ring', cur, path)
    decreases |path|
  {
    if !ring[path[0]].isEop {
      ChainedByLinks(ring, ring', path[0], path[1..]);
    }
  }

  lemma HeadPathIsChained(s: State)
    requires HasWork(s) && HeadPath(s).Some? && !s.ring[s.swHead].isEop
    ensures Chained(Touch(s).ring, s.swHead, HeadPath(s).value)
  {
    PathIsChained(s.ring, s.swHead, s.hwHead, s.swHead);
    ChainedByLinks(s.ring, Touch(s).ring, s.swHead, HeadPath(s).value);
  }
}
