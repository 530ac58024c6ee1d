/**
 The DDR controller: it queues requests, serves the first one that is ready, and keeps one
 event queued for the memory cycle in which something can next be done.
 */
module DdrController {
  import opened DdrTiming
  import opened DdrTimingProof
  import opened RequestPool
  import opened DdrSchedule
  import ActWindow
  import BankQueue
  import DdrClock

  datatype EventState = IDLE | QUEUED | RUNNING | ANNULLED

  datatype SchedEvent = SchedEvent(state: EventState, cycle: nat)

  class Controller {
    const c: Config

    var banks: seq<Bank>
    var windows: seq<seq<nat>>
    var minRespCycle: nat
    var lastCmdWasWrite: bool
    ghost var log: seq<Command>

    var rd: Pool
    var wr: Pool
    var overflow: seq<Request>
    var nextId: nat

    var nextSchedCycle: Cycle
    var nextSchedEvent: int
    var events: seq<SchedEvent>
    var freelist: seq<nat>

    ghost function Memory(): Mem
      reads this
    {
      Mem(banks, windows, minRespCycle, lastCmdWasWrite, log)
    }

    /** The memory and all queues, as `DdrSchedule` has them. */
    ghost function Queues(): Sched
      reads this
    {
      Sched(Memory(), rd, wr, overflow, nextId)
    }

    ghost function Planned(): Plan
      reads this
    {
      Plan(Queues(), nextSchedCycle)
    }

    /** Open the row of a request, unless it is open: precharge if needed, and activate. */
    method OpenRow(r: Request) returns (actCycle: nat)
      requires Shape(c.t, c.ranks, Memory()) && r.bank < |banks| && !RowHit(banks[r.bank], r)
      modifies this`banks, this`windows, this`log
      ensures var bank, window := old(banks[r.bank]), old(windows[c.ranks[r.bank]]);
              && actCycle == ActCycle(c.t, bank, window, r)
              && banks == old(banks)[r.bank := Activated(c.t, bank, window, r)]
              && windows == old(windows)[c.ranks[r.bank] := ActWindow.Insert(window, actCycle)]
              && log == old(log) + Opening(bank, r, PreCycle(bank, r), actCycle)
    {
      hide ActWindow.Insert;
      var bank, k := banks[r.bank], c.ranks[r.bank];
      var preIssued := bank.open;
      var preCycle := if !bank.open then bank.minPre else Max(r.arrival, bank.minPre);
      actCycle := Max(r.arrival, Max(preCycle + c.t.tRP, bank.lastAct + c.t.tRRD));
      actCycle := Max(actCycle, windows[k][0] + c.t.tFAW);
      bank := bank.(open := true, openRow := r.row);
      if preIssued {
        bank := bank.(minPre := preCycle + c.t.tRAS);
        log := log + [Pre(r.bank, preCycle)];
      }
      windows := windows[k := ActWindow.Insert(windows[k], actCycle)];
      bank := bank.(lastAct := actCycle);
      banks := banks[r.bank := bank];
      log := log + [Act(r.bank, r.row, actCycle)];
    }

    /** Issue the column command of a request whose row is open. */
    method Issue(r: Request, cmdCycle: nat, keepOpen: bool)
      requires r.bank < |banks| && banks[r.bank].open
      modifies this`banks, this`minRespCycle, this`lastCmdWasWrite, this`log
      ensures banks == old(banks)[r.bank := Issued(c.t, old(banks[r.bank]), r, cmdCycle, keepOpen)]
      ensures minRespCycle == cmdCycle + c.t.tCL + c.t.tBL && lastCmdWasWrite == r.write
      ensures log == old(log) + [Col(r.bank, r.row, r.write, cmdCycle)]
    {
      var bank := banks[r.bank];
      minRespCycle := cmdCycle + c.t.tCL + c.t.tBL;
      lastCmdWasWrite := r.write;
      if !keepOpen {
        bank := bank.(open := false);
      }
      var recovered := if r.write then minRespCycle + c.t.tWR else cmdCycle + c.t.tRTP;
      bank := bank.(minPre := Max(bank.minPre, Max(bank.lastAct + c.t.tRAS, recovered)));
      bank := bank.(lastCmd := cmdCycle, curRowHits := r.rowHitSeq);
      banks := banks[r.bank := bank];
      log := log + [Col(r.bank, r.row, r.write, cmdCycle)];
    }

    /** Serve one request: the fields move as the specification says. */
    method Serve(r: Request, cur: nat, keepOpen: bool)
      requires Shape(c.t, c.ranks, Memory()) && r.bank < |banks|
      modifies this`banks, this`windows, this`minRespCycle, this`lastCmdWasWrite, this`log
      ensures Memory() == DdrTimingProof.Serve(c.t, c.ranks, old(Memory()), r, cur, keepOpen)
    {
      hide ActWindow.Insert, ActCycle, Issued;
      ghost var m, bank, window := Memory(), banks[r.bank], windows[c.ranks[r.bank]];
      var minCmdCycle := Max(cur, minRespCycle - c.t.tCL);
      if lastCmdWasWrite && !r.write {
        minCmdCycle := Max(minCmdCycle, minRespCycle + c.t.tWTR);
      }
      if !RowHit(banks[r.bank], r) {
        var actCycle := OpenRow(r);
        minCmdCycle := Max(minCmdCycle, actCycle + c.t.tRCD);
      }
      var cmdCycle := Max(minCmdCycle, minRespCycle - c.t.tCL);
      assert cmdCycle == CmdCycle(c.t, m, bank, window, r, cur);
      Issue(r, cmdCycle, keepOpen);
      hide CmdCycle;
      assert log == m.log + Commands(c.t, c.ranks, m, r, cur);
    }

    method RefreshStart(memCycle: nat) returns (minRefreshCycle: nat)
      ensures minRefreshCycle == RefreshCycle(banks, memCycle)
    {
      hide RefreshCycle;
      minRefreshCycle := memCycle;
      RefreshFirst(memCycle);
      for b := 0 to |banks|
        invariant minRefreshCycle == RefreshCycle(banks[..b], memCycle)
      {
        minRefreshCycle := Max(minRefreshCycle, Max(banks[b].minPre, banks[b].lastCmd));
        RefreshNext(banks, b, memCycle);
      }
      assert banks[..|banks|] == banks;
    }

    /** Refresh: no bank can be activated until it is done. */
    method Refresh(sysCycle: nat)
      requires Valid()
      modifies this`banks, this`log
      ensures Valid() && Planned() == AfterRefresh(c, old(Planned()), MemCycle(sysCycle))
      ensures Pending(Queues()) == Pending(old(Queues()))
    {
      hide SchedOk, RefreshCycle, DdrClock.SysToMem, FreeOk, Pending;
      SchedFits(c, Queues());
      var memCycle := DdrClock.SysToMem(c.sysFreq, c.memFreq, sysCycle);
      AfterRefreshOk(c, Planned(), memCycle);
      ghost var before, after := banks, Refreshed(c.t, Memory(), memCycle);
      var minRefreshCycle := RefreshStart(memCycle);
      var done := minRefreshCycle + c.t.tRFC;
      for b := 0 to |banks|
        invariant |banks| == |before| && log == old(log)
        invariant forall i :: 0 <= i < b ==> banks[i] == after.banks[i]
        invariant forall i :: b <= i < |banks| ==> banks[i] == before[i]
      {
        banks := banks[b := banks[b].(minPre := done - c.t.tRP, open := false)];
      }
      log := log + [Command.Refresh(done)];
      assert banks == after.banks;
    }

    /** Walk the queue for the first request that is ready; otherwise the earliest cycle at
        which one may be. `k` is the queue's length if there is none. */
    method FindReady(p: Pool, cur: nat) returns (k: nat, minSchedCycle: Cycle)
      requires Shape(c.t, c.ranks, Memory()) && PoolOk(p, c.rowHitLimit, nextId) && |p.banks| == |banks|
      ensures k <= |p.queue|
      ensures k < |p.queue| ==> Ready(c.t, c.ranks, Memory(), p, p.queue[k], cur)
      ensures forall i :: 0 <= i < k ==> !Ready(c.t, c.ranks, Memory(), p, p.queue[i], cur)
      ensures k == |p.queue| && p.queue != [] ==>
                minSchedCycle.At? && minSchedCycle.cycle > cur && Earliest(c, Memory(), p, k, minSchedCycle.cycle)
    {
      hide FindMinCmdCycle, PoolOk;
      ghost var m := Memory();
      k, minSchedCycle := 0, Never;
      while k < |p.queue|
        invariant k <= |p.queue|
        invariant forall i :: 0 <= i < k ==> !Ready(c.t, c.ranks, m, p, p.queue[i], cur)
        invariant minSchedCycle.Never? ==> forall i :: 0 <= i < k ==> !IsFirst(p, p.queue[i])
        invariant minSchedCycle.At? ==>
                    minSchedCycle.cycle > cur && Earliest(c, m, p, k, minSchedCycle.cycle)
      {
        var r := p.queue[k];
        if IsFirst(p, r) {
          var minCmdCycle := FindMinCmdCycle(c.t, banks[r.bank], windows[c.ranks[r.bank]], r);
          if minCmdCycle <= cur {
            return;
          }
          if minSchedCycle.Never? || minCmdCycle < minSchedCycle.cycle {
            minSchedCycle := At(minCmdCycle);
          }
        }
        k := k + 1;
      }
      if p.queue != [] {
        SomeFirst(p, c.rowHitLimit, nextId);
      }
    }

    // ---------------------------------------------------------- queues

    ghost function MemCycle(sysCycle: nat): nat
      requires c.sysFreq > 0
    {
      DdrClock.SysToMem(c.sysFreq, c.memFreq, sysCycle)
    }

    /** Serve the `k`-th request of a queue, answer it, and take it out. */
    method ServeAndTake(isWriteQueue: bool, k: nat, cur: nat, sysCycle: nat) returns (doneSysCycle: nat)
      requires SchedOk(c, Queues()) && cur == DdrClock.SysToMem(c.sysFreq, c.memFreq, sysCycle)
      requires Shape(c.t, c.ranks, Memory()) && isWriteQueue == PrefersWrites(c, Queues())
      requires var p := Preferred(c, Queues());
               && k < |p.queue| && Ready(c.t, c.ranks, Memory(), p, p.queue[k], cur)
               && forall i :: 0 <= i < k ==> !Ready(c.t, c.ranks, Memory(), p, p.queue[i], cur)
      modifies this`banks, this`windows, this`minRespCycle, this`lastCmdWasWrite, this`log, this`rd, this`wr
      ensures ServesOne(c, old(Queues()), cur, Queues(), old(Preferred(c, Queues()).queue[k]), k)
      ensures SchedOk(c, Queues())
      ensures doneSysCycle == DdrClock.MemToSys(c.sysFreq, c.memFreq, minRespCycle) >= sysCycle
    {
      hide SchedOk, DdrClock.SysToMem, DdrClock.MemToSys, Shape, DdrTimingProof.Serve, MinCmd;
      ghost var s := Queues();
      SchedFits(c, s);
      var p := if isWriteQueue then wr else rd;
      var r := p.queue[k];
      var q := p.banks[r.bank];
      var keepOpen := !(c.closedPage && !(|q| > 1 && q[1].rowHitSeq != 0));
      Serve(r, cur, keepOpen);
      if isWriteQueue {
        wr := Take(p, k);
      } else {
        rd := Take(p, k);
      }
      ServesOneOk(c, s, cur, Queues(), r, k);
      DdrClock.DoneIsLater(c.sysFreq, c.memFreq, sysCycle, minRespCycle);
      doneSysCycle := DdrClock.MemToSys(c.sysFreq, c.memFreq, minRespCycle);
    }

    /** Serve the first request that is ready, if the bus is near enough. The result is the next
        cycle in which there is something to do: never one that is already over, and none
        exactly if nothing is queued. */
    method TrySchedule(cur: nat, sysCycle: nat) returns (next: Cycle, doneSysCycle: nat, ghost served: Served)
      requires SchedOk(c, Queues()) && cur == DdrClock.SysToMem(c.sysFreq, c.memFreq, sysCycle)
      modifies this`banks, this`windows, this`minRespCycle, this`lastCmdWasWrite, this`log, this`rd, this`wr
      ensures Tried(c, old(Queues()), cur, Queues(), next, served)
      ensures SchedOk(c, Queues()) && (next.Never? <==> NoneQueued(Queues())) && (next.At? ==> next.cycle > cur)
      ensures served.Some? ==> doneSysCycle == DdrClock.MemToSys(c.sysFreq, c.memFreq, minRespCycle) >= sysCycle
    {
      hide SchedOk, PoolOk, DdrClock.SysToMem, Shape, Ready, ServesOne, Earliest;
      ghost var s := Queues();
      SchedFits(c, s);
      doneSysCycle, served := 0, Nothing;
      if rd.queue == [] && wr.queue == [] {
        next := Never;
      } else if cur + c.t.tCL < minRespCycle {
        next := At(minRespCycle - c.t.tCL);
      } else {
        var prioWrites := |wr.queue| > 3 * c.depth / 4 || (lastCmdWasWrite && |wr.queue| > c.depth / 4);
        var isWriteQueue := rd.queue == [] || prioWrites;
        var p := if isWriteQueue then wr else rd;
        var k;
        k, next := FindReady(p, cur);
        if k < |p.queue| {
          served := Some(p.queue[k]);
          doneSysCycle := ServeAndTake(isWriteQueue, k, cur, sysCycle);
          SchedFits(c, Queues());
          next := if rd.queue == [] && wr.queue == [] then Never else At(minRespCycle - c.t.tCL);
        }
      }
      TriedOk(c, s, cur, Queues(), next, served);
    }

    /** Queue a request: allocate it in its queue and put it into its bank's. `first` says that
        it is the first of its bank. */
    method Put(r: Request, memCycle: nat) returns (req: Request, first: bool)
      requires SchedOk(c, Queues()) && Fits(c, Queues()) && r.bank < |c.ranks| && HasRoom(c, Queues())
      modifies this`rd, this`wr, this`nextId
      ensures Queues() == DdrSchedule.Put(c, old(Queues()), r, memCycle) && SchedOk(c, Queues())
      ensures req == PutRequest(c, old(Queues()), r, memCycle)
      ensures first <==> PutFirst(c, old(Queues()), r, memCycle)
    {
      hide SchedOk, Shape, BankQueue.Enqueued, BankQueue.HitSeq, Pending;
      SchedFits(c, Queues());
      PutOk(c, Queues(), r, memCycle);
      var useWrQueue := c.deferredWrites && r.write;
      var p := if useWrQueue then wr else rd;
      var stamped := r.(id := nextId, arrival := memCycle);
      req := Tagged(p, banks[r.bank], c.rowHitLimit, stamped);
      p := Add(p, banks[r.bank], c.rowHitLimit, stamped);
      if useWrQueue {
        wr := p;
      } else {
        rd := p;
      }
      nextId := nextId + 1;
      first := IsFirst(p, req);
    }

    // ---------------------------------------------------------- scheduling events

    /** Move a request from the overflow queue if there is room. It may be schedulable before
        `next`, the cycle found so far. */
    method MoveOverflow(memCycle: nat, next: Cycle) returns (next': Cycle)
      requires SchedOk(c, Queues()) && Fits(c, Queues())
      requires (next.Never? <==> NoneQueued(Queues())) && (next.At? ==> next.cycle > memCycle)
      modifies this`rd, this`wr, this`nextId, this`overflow
      ensures Plan(Queues(), next') == Moved(c, old(Queues()), memCycle, next)
      ensures PlanOk(c, Plan(Queues(), next'))
    {
      hide PoolFits, Inv, Shape, DdrSchedule.Put, PutFirst, PutRequest, FindMinCmdCycle, Pending;
      MovedOk(c, Queues(), memCycle, next);
      SchedFits(c, Queues());
      next' := next;
      if |rd.queue| < c.depth && |wr.queue| < c.depth && overflow != [] {
        var r := overflow[0];
        overflow := overflow[1..];
        PutRequestBank(c, Queues(), r, memCycle);
        var req, first := Put(r, memCycle);
        if first {
          var minQueued: nat := Max(memCycle, minRespCycle - c.t.tCL - c.t.tBL);
          if next'.Never? || next'.cycle > minQueued {
            next' := At(Max(minQueued, FindMinCmdCycle(c.t, banks[req.bank], windows[c.ranks[req.bank]], req)));
          }
          if next'.Never? || next'.cycle > minQueued {
            next' := At(minQueued);
          }
        }
      }
    }

    /** One tick in memory cycle `nextSchedCycle`. The result is the system cycle of the next
        tick, or 0 if there is nothing left to do. */
    method Tick(sysCycle: nat) returns (enqSysCycle: nat, ghost served: Served)
      requires PlanOk(c, Planned())
      requires nextSchedCycle == At(DdrClock.SysToMem(c.sysFreq, c.memFreq, sysCycle))
      modifies this`banks, this`windows, this`minRespCycle, this`lastCmdWasWrite, this`log, this`rd, this`wr,
               this`nextId, this`overflow, this`nextSchedCycle, this`nextSchedEvent
      ensures Ticks(c, old(Planned()), Planned(), served) && PlanOk(c, Planned())
      ensures Pending(old(Queues())) == Pending(Queues()) + ServedBag(served)
      ensures nextSchedCycle.Never? <==> enqSysCycle == 0
      ensures nextSchedEvent == if nextSchedCycle.Never? then -1 else old(nextSchedEvent)
      ensures nextSchedCycle.At? ==>
                && enqSysCycle >= sysCycle
                && DdrClock.SysToMem(c.sysFreq, c.memFreq, enqSysCycle) == nextSchedCycle.cycle
                && nextSchedCycle.cycle >= old(nextSchedCycle.cycle)
                && (nextSchedCycle.cycle == old(nextSchedCycle.cycle) ==> |overflow| == |old(overflow)| - 1)
    {
      hide SchedOk, Fits, Tried, Moved, DdrClock.SysToMem, DdrClock.MatchingMemToSys, Pending;
      ghost var before := Planned();
      SchedFits(c, Queues());
      var memCycle := DdrClock.SysToMem(c.sysFreq, c.memFreq, sysCycle);
      var minSchedCycle, doneSysCycle;
      minSchedCycle, doneSysCycle, served := TrySchedule(memCycle, sysCycle);
      SchedFits(c, Queues());
      nextSchedCycle := MoveOverflow(memCycle, minSchedCycle);
      TicksOk(c, before, Planned(), served);
      if nextSchedCycle.Never? {
        nextSchedEvent := -1;
        enqSysCycle := 0;
      } else {
        DdrClock.QueuedCycle(c.sysFreq, c.memFreq, nextSchedCycle.cycle, sysCycle);
        var stamp := DdrClock.MatchingMemToSys(c.sysFreq, c.memFreq, nextSchedCycle.cycle);
        enqSysCycle := if stamp > sysCycle then stamp else sysCycle;
      }
    }

    /** Exactly one event is queued if there is something to do, for the next memory cycle in
        which it can be done, and none otherwise. Annulled events are still to fire; idle ones
        are on the free list. */
    ghost predicate EventsOk()
      reads this
    {
      && c.sysFreq > 0
      && (nextSchedEvent == -1 <==> nextSchedCycle.Never?)
      && -1 <= nextSchedEvent < |events|
      && (nextSchedEvent >= 0 ==>
            && events[nextSchedEvent].state == QUEUED
            && DdrClock.SysToMem(c.sysFreq, c.memFreq, events[nextSchedEvent].cycle) == nextSchedCycle.cycle)
      && (forall e :: 0 <= e < |events| && e != nextSchedEvent ==>
            events[e].state == IDLE || events[e].state == ANNULLED)
      && FreeOk(events, freelist)
    }

    ghost predicate Valid()
      reads this
    {
      PlanOk(c, Planned()) && EventsOk()
    }

    /** The timing theorems hold of the controller's own commands: any two obey the rules, and
        column commands hit open rows. */
    lemma CommandsObeyTiming(i: nat, j: nat)
      requires Valid() && i < j < |log|
      ensures PairOk(c.t, log[i], log[j])
      ensures log[j].Col? ==> OpenSince(c.t, log, j, log[j].bank, log[j].row, log[j].cycle)
    {
      assert RowOk(c.t, log, j);
    }

    /** Any five activations of a rank span tFAW. */
    lemma ActivationsSpread(k: nat, ks: seq<nat>)
      requires Valid()
      requires |ks| == 5 && forall p :: 0 <= p < 5 ==> ks[p] in ActsOf(c.ranks, log, k)
      requires forall p, q :: 0 <= p < q < 5 ==> ks[p] != ks[q]
      ensures exists p, q :: 0 <= p < 5 && 0 <= q < 5
                && ActsOf(c.ranks, log, k)[ks[p]] + c.t.tFAW <= ActsOf(c.ranks, log, k)[ks[q]]
    {
      FiveActivations(c.t, c.ranks, Memory(), k, ks);
    }

    constructor (c: Config)
      requires ConfigOk(c)
      ensures Valid() && this.c == c && Planned() == InitialPlan(c)
    {
      this.c := c;
      banks := seq(|c.ranks|, _ => RESET_BANK);
      windows := seq(c.numRanks, _ => [0, 0, 0, 0]);
      minRespCycle := c.t.tCL + c.t.tBL + 1;
      lastCmdWasWrite := false;
      log := [];
      rd, wr := Pool([], seq(|c.ranks|, _ => [])), Pool([], seq(|c.ranks|, _ => []));
      overflow, nextId := [], 0;
      nextSchedCycle, nextSchedEvent, events, freelist := Never, -1, [], [];
      new;
      InitialPlanOk(c);
    }

    /** Put the scheduling event into the queue of the simulator. A queued one that is now too
        late is annulled, and an idle one is used again if there is one. */
    method Schedule(minSchedCycle: nat, sysCycle: nat)
      requires ConfigOk(c) && EventsOk() && DdrClock.SysToMem(c.sysFreq, c.memFreq, sysCycle) <= minSchedCycle
      modifies this`nextSchedCycle, this`nextSchedEvent, this`events, this`freelist
      ensures EventsOk() && nextSchedCycle == At(minSchedCycle)
      ensures nextSchedEvent != old(nextSchedEvent) && events[nextSchedEvent].cycle >= sysCycle
    {
      hide DdrClock.SysToMem, DdrClock.MatchingMemToSys, FreeOk;
      ghost var was := nextSchedEvent;
      if nextSchedEvent != -1 {
        assert events[nextSchedEvent].state == QUEUED;
        FreeUpdate(events, freelist, nextSchedEvent, events[nextSchedEvent].(state := ANNULLED));
        events := events[nextSchedEvent := events[nextSchedEvent].(state := ANNULLED)];
      }
      if freelist != [] {
        FreeTake(events, freelist);
        nextSchedEvent := freelist[0];
        freelist := freelist[1..];
      } else {
        FreeNew(events, freelist);
        nextSchedEvent := |events|;
        events := events + [SchedEvent(IDLE, 0)];
      }
      DdrClock.QueuedCycle(c.sysFreq, c.memFreq, minSchedCycle, sysCycle);
      var stamp := DdrClock.MatchingMemToSys(c.sysFreq, c.memFreq, minSchedCycle);
      var enqSysCycle := if stamp > sysCycle then stamp else sysCycle;
      assert events[nextSchedEvent].state == IDLE;
      FreeQueue(events, freelist, nextSchedEvent, SchedEvent(QUEUED, enqSysCycle));
      events := events[nextSchedEvent := SchedEvent(QUEUED, enqSysCycle)];
      nextSchedCycle := At(minSchedCycle);
    }

    /** The first of its bank may be schedulable before the next tick. */
    method ScheduleFirst(req: Request, memCycle: nat, sysCycle: nat)
      requires SchedOk(c, Queues()) && Fits(c, Queues()) && EventsOk() && req.bank < |c.ranks|
      requires memCycle == DdrClock.SysToMem(c.sysFreq, c.memFreq, sysCycle)
      modifies this`nextSchedCycle, this`nextSchedEvent, this`events, this`freelist
      ensures EventsOk()
      ensures var goal := Max(BusCycle(c, Memory(), memCycle), MinCmd(c.t, c.ranks, Memory(), req));
              nextSchedCycle == Sooner(old(nextSchedCycle), goal)
    {
      hide PoolFits, Inv, EventsOk, DdrClock.SysToMem, FindMinCmdCycle;
      SchedFits(c, Queues());
      var minSchedCycle: nat := Max(memCycle, minRespCycle - c.t.tCL - c.t.tBL);
      if nextSchedCycle.Never? || nextSchedCycle.cycle > minSchedCycle {
        minSchedCycle := Max(minSchedCycle, FindMinCmdCycle(c.t, banks[req.bank], windows[c.ranks[req.bank]], req));
      }
      if nextSchedCycle.Never? || nextSchedCycle.cycle > minSchedCycle {
        Schedule(minSchedCycle, sysCycle);
      }
    }

    /** A request arrives. */
    method Enqueue(r: Request, sysCycle: nat)
      requires Valid() && r.bank < |c.ranks|
      modifies this
      ensures Valid() && Planned() == Arrived(c, old(Planned()), MemCycle(sysCycle), r)
      ensures Pending(Queues()) == Pending(old(Queues())) + multiset{Core(r)}
    {
      hide SchedOk, Fits, FreeOk, DdrClock.SysToMem, DdrSchedule.Put, PutFirst, PutRequest, MinCmd, BusCycle, Pending;
      ghost var before := Planned();
      SchedFits(c, Queues());
      var memCycle := DdrClock.SysToMem(c.sysFreq, c.memFreq, sysCycle);
      ArrivedOk(c, before, memCycle, r);
      if |rd.queue| == c.depth || |wr.queue| == c.depth {
        overflow := overflow + [r];
      } else {
        PutRequestBank(c, Queues(), r, memCycle);
        var req, first := Put(r, memCycle);
        SchedFits(c, Queues());
        if first {
          ScheduleFirst(req, memCycle, sysCycle);
        }
      }
    }

    /** An event of this controller fires. An annulled one is only put on the free list. */
    method Simulate(e: nat) returns (ghost served: Served)
      requires Valid() && e < |events| && (events[e].state == QUEUED || events[e].state == ANNULLED)
      modifies this
      ensures Valid() && Pending(old(Queues())) == Pending(Queues()) + ServedBag(served)
      ensures old(events)[e].state == ANNULLED ==>
                served.Nothing? && Planned() == old(Planned()) && nextSchedEvent == old(nextSchedEvent)
      ensures old(events)[e].state == QUEUED ==>
                e == old(nextSchedEvent) && Ticks(c, old(Planned()), Planned(), served)
    {
      hide PlanOk, Ticks, DdrClock.SysToMem, FreeOk, Pending;
      served := Nothing;
      if events[e].state == QUEUED {
        var cycle := events[e].cycle;
        FreeUpdate(events, freelist, e, SchedEvent(RUNNING, cycle));
        events := events[e := SchedEvent(RUNNING, cycle)];
        var nextCycle;
        nextCycle, served := Tick(cycle);
        if nextCycle != 0 {
          FreeUpdate(events, freelist, e, SchedEvent(QUEUED, nextCycle));
          events := events[e := SchedEvent(QUEUED, nextCycle)];
        } else {
          Recycle(e);
        }
      } else {
        Recycle(e);
      }
    }

    /** The one event that is queued fires. */
    method SimulateNext() returns (ghost served: Served)
      requires Valid() && nextSchedCycle.At?
      modifies this
      ensures Valid() && Ticks(c, old(Planned()), Planned(), served)
    {
      hide PlanOk, Ticks, FreeOk;
      served := Simulate(nextSchedEvent);
    }

    /** Left alone, the controller serves everything: each tick leaves less work to do. */
    method Drain() returns (ghost ticks: nat)
      requires Valid()
      modifies this
      ensures Valid() && Idle(Queues()) && ticks <= Work(c, old(Planned()))
    {
      hide SchedOk, Ticks, EventsOk, Work;
      ticks := 0;
      while nextSchedCycle.At?
        invariant Valid() && ticks + Work(c, Planned()) <= Work(c, old(Planned()))
        decreases Work(c, Planned())
      {
        ghost var before := Planned();
        var served := SimulateNext();
        TickFalls(c, before, Planned(), served);
        ticks := ticks + 1;
      }
    }

    /** The event goes back to the free list. */
    method Recycle(e: nat)
      requires e < |events| && e != nextSchedEvent && events[e].state != IDLE && FreeOk(events, freelist)
      modifies this`events, this`freelist
      ensures FreeOk(events, freelist) && events == old(events)[e := old(events)[e].(state := IDLE)]
    {
      events := events[e := events[e].(state := IDLE)];
      freelist := [e] + freelist;
    }
  }

  lemma RefreshFirst(cur: nat)
    ensures RefreshCycle([], cur) == cur
  {
  }

  lemma RefreshNext(banks: seq<Bank>, b: nat, cur: nat)
    requires b < |banks|
    ensures RefreshCycle(banks[..b + 1], cur)
            == Max(RefreshCycle(banks[..b], cur), Max(banks[b].minPre, banks[b].lastCmd))
  {
    assert banks[..b + 1][..b] == banks[..b];
  }

  /** The free list holds exactly the idle events, each once. */
  ghost predicate FreeOk(events: seq<SchedEvent>, freelist: seq<nat>) {
    && (forall i :: 0 <= i < |freelist| ==> freelist[i] < |events|)
    && (forall i, j :: 0 <= i < j < |freelist| ==> freelist[i] != freelist[j])
    && (forall e: nat :: e < |events| ==> (e in freelist <==> events[e].state == IDLE))
  }

  lemma FreeUpdate(events: seq<SchedEvent>, freelist: seq<nat>, e: nat, ev: SchedEvent)
    requires FreeOk(events, freelist) && e < |events| && events[e].state != IDLE && ev.state != IDLE
    ensures FreeOk(events[e := ev], freelist)
  {
  }

  /** The free list apart from `e`, which has been taken off it and is about to be used. */
  ghost predicate FreeButFor(events: seq<SchedEvent>, freelist: seq<nat>, e: nat) {
    && e < |events| && events[e].state == IDLE && e !in freelist
    && (forall i :: 0 <= i < |freelist| ==> freelist[i] < |events|)
    && (forall i, j :: 0 <= i < j < |freelist| ==> freelist[i] != freelist[j])
    && (forall d: nat :: d < |events| && d != e ==> (d in freelist <==> events[d].state == IDLE))
  }

  lemma FreeTake(events: seq<SchedEvent>, freelist: seq<nat>)
    requires FreeOk(events, freelist) && freelist != []
    ensures FreeButFor(events, freelist[1..], freelist[0])
  {
    assert freelist[0] in freelist;
    assert freelist == [freelist[0]] + freelist[1..];
  }

  lemma FreeNew(events: seq<SchedEvent>, freelist: seq<nat>)
    requires FreeOk(events, freelist)
    ensures FreeButFor(events + [SchedEvent(IDLE, 0)], freelist, |events|)
  {
  }

  lemma FreeQueue(events: seq<SchedEvent>, freelist: seq<nat>, e: nat, ev: SchedEvent)
    requires FreeButFor(events, freelist, e) && ev.state != IDLE
    ensures FreeOk(events[e := ev], freelist)
  {
  }
}
