/**
 What the DDR controller does with its requests, on values: which one it serves in a tick,
 when it takes one from the overflow queue, and for which memory cycle it plans the next
 tick. `DdrController` is proved to do this; here is what follows for whole runs.
 */
module DdrSchedule {
  import opened DdrTiming
  import opened DdrTimingProof
  import opened RequestPool
  import BankQueue
  import DdrClock
  import Sequences

  datatype Config = Config(t: Tech, ranks: seq<nat>, numRanks: nat, sysFreq: nat, memFreq: nat, depth: nat,
                           rowHitLimit: nat, deferredWrites: bool, closedPage: bool)

  ghost predicate ConfigOk(c: Config) {
    && TechOk(c.t) && DdrClock.ClockOk(c.sysFreq, c.memFreq) && c.depth > 0
    && c.ranks != [] && forall b :: 0 <= b < |c.ranks| ==> c.ranks[b] < c.numRanks
  }

  /** A memory cycle, or the all-ones value the source uses for none. */
  datatype Cycle = Never | At(cycle: nat)

  datatype Served = Nothing | Some(r: Request)

  /** The memory and all queues. */
  datatype Sched = Sched(m: Mem, rd: Pool, wr: Pool, overflow: seq<Request>, nextId: nat)

  /** With the memory cycle of the next tick. */
  datatype Plan = Plan(s: Sched, next: Cycle)

  // ------------------------------------------------------------ what is pending

  /** What a request is about, without what queueing adds. */
  function Core(r: Request): Request {
    r.(id := 0, rowHitSeq := 0, arrival := 0)
  }

  function Bag(q: seq<Request>): multiset<Request> {
    if q == [] then multiset{} else Bag(q[..|q| - 1]) + multiset{Core(q[|q| - 1])}
  }

  lemma BagAppend(q: seq<Request>, r: Request)
    ensures Bag(q + [r]) == Bag(q) + multiset{Core(r)}
  {
    assert (q + [r])[..|q|] == q;
  }

  lemma {:induction false} BagRemove(q: seq<Request>, k: nat)
    requires k < |q|
    ensures Bag(q) == Bag(q[..k] + q[k + 1..]) + multiset{Core(q[k])}
  {
    var n := |q| - 1;
    if k < n {
      BagRemove(q[..n], k);
      assert (q[..k] + q[k + 1..])[..n - 1] == q[..n][..k] + q[..n][k + 1..];
    } else {
      assert q[..k] + q[k + 1..] == q[..n];
    }
  }

  lemma BagTail(q: seq<Request>)
    requires q != []
    ensures Bag(q) == Bag(q[1..]) + multiset{Core(q[0])}
  {
    BagRemove(q, 0);
    assert q[..0] + q[1..] == q[1..];
  }

  /** Everything that still has to be served. */
  ghost function Pending(s: Sched): multiset<Request> {
    Bag(s.rd.queue) + Bag(s.wr.queue) + Bag(s.overflow)
  }

  ghost function ServedBag(served: Served): multiset<Request> {
    if served.Some? then multiset{Core(served.r)} else multiset{}
  }

  predicate NoneQueued(s: Sched) {
    s.rd.queue == [] && s.wr.queue == []
  }

  predicate Idle(s: Sched) {
    NoneQueued(s) && s.overflow == []
  }

  // ------------------------------------------------------------ the invariant

  ghost predicate PoolFits(c: Config, p: Pool, nextId: nat) {
    PoolOk(p, c.rowHitLimit, nextId) && |p.banks| == |c.ranks| && |p.queue| <= c.depth
  }

  predicate IsDeferred(c: Config, r: Request) {
    c.deferredWrites && r.write
  }

  /** The write queue holds the deferred writes, the read queue everything else. */
  ghost predicate KindsOk(c: Config, s: Sched) {
    && (forall r :: r in s.rd.queue ==> !IsDeferred(c, r))
    && (forall r :: r in s.wr.queue ==> IsDeferred(c, r))
  }

  ghost predicate SchedOk(c: Config, s: Sched) {
    && ConfigOk(c) && Inv(c.t, c.ranks, s.m)
    && PoolFits(c, s.rd, s.nextId) && PoolFits(c, s.wr, s.nextId) && KindsOk(c, s)
    && (forall i :: 0 <= i < |s.overflow| ==> s.overflow[i].bank < |c.ranks|)
  }

  /** Requests only overflow while others are queued, and a tick is planned exactly if there is
      something to do. */
  ghost predicate PlanOk(c: Config, p: Plan) {
    && SchedOk(c, p.s)
    && (p.s.overflow != [] ==> !NoneQueued(p.s))
    && (p.next.Never? <==> Idle(p.s))
  }

  /** What the functions below need to be defined. */
  predicate Fits(c: Config, s: Sched) {
    && Shape(c.t, c.ranks, s.m) && |s.rd.banks| == |c.ranks| && |s.wr.banks| == |c.ranks|
    && (forall i :: 0 <= i < |s.overflow| ==> s.overflow[i].bank < |c.ranks|)
  }

  lemma SchedFits(c: Config, s: Sched)
    requires SchedOk(c, s)
    ensures Fits(c, s) && Shape(c.t, c.ranks, s.m) && |s.m.banks| == |c.ranks| && c.depth > 0
    ensures s.m.minResp > c.t.tCL + c.t.tBL && c.t.tBL > 0 && DdrClock.ClockOk(c.sysFreq, c.memFreq)
    ensures |s.rd.queue| <= c.depth && |s.wr.queue| <= c.depth
    ensures PoolOk(s.rd, c.rowHitLimit, s.nextId) && PoolOk(s.wr, c.rowHitLimit, s.nextId)
  {
  }

  /** Nothing to do, and all rows closed. */
  function InitialPlan(c: Config): Plan {
    var empty := Pool([], seq(|c.ranks|, _ => []));
    Plan(Sched(InitialMem(c.t, c.ranks, c.numRanks), empty, empty, [], 0), Never)
  }

  lemma InitialPlanOk(c: Config)
    requires ConfigOk(c)
    ensures PlanOk(c, InitialPlan(c)) && Pending(InitialPlan(c).s) == multiset{}
  {
    InitInv(c.t, c.ranks, c.numRanks);
  }

  // ------------------------------------------------------------ choosing a request

  /** The estimate for the first of a bank. */
  function MinCmd(t: Tech, ranks: seq<nat>, m: Mem, r: Request): nat
    requires Shape(t, ranks, m) && r.bank < |m.banks|
  {
    FindMinCmdCycle(t, m.banks[r.bank], m.windows[ranks[r.bank]], r)
  }

  /** The request can be issued: it is the first of its bank and its row can be ready. */
  predicate Ready(t: Tech, ranks: seq<nat>, m: Mem, p: Pool, r: Request, cur: nat)
    requires Shape(t, ranks, m)
  {
    IsFirst(p, r) && r.bank < |m.banks| && MinCmd(t, ranks, m, r) <= cur
  }

  /** With closed pages a row stays open only for the next of its bank, if that is a row hit. */
  predicate KeepsOpen(c: Config, p: Pool, r: Request) {
    c.closedPage ==> r.bank < |p.banks| && |p.banks[r.bank]| > 1 && p.banks[r.bank][1].rowHitSeq != 0
  }

  /** With closed pages, a row is only kept open if the next request of its bank is for it. */
  lemma KeptOpenForTheRow(c: Config, p: Pool, nextId: nat, r: Request)
    requires c.closedPage && PoolOk(p, c.rowHitLimit, nextId) && IsFirst(p, r) && KeepsOpen(c, p, r)
    ensures p.banks[r.bank][1].row == r.row
  {
    assert RequestPool.BankOk(p, c.rowHitLimit, r.bank);
    BankQueue.KeptOpenForAHit(p.banks[r.bank], c.rowHitLimit);
  }

  /** A request that waits as the next hit of its row finds the row open when its turn comes, whatever
      the page policy; with closed pages a row is closed if no such request waits, and with open
      pages it stays open. */
  lemma NextHits(c: Config, p: Pool, nextId: nat, m: Mem, r: Request, cur: nat)
    requires PoolOk(p, c.rowHitLimit, nextId) && IsFirst(p, r) && Shape(c.t, c.ranks, m) && r.bank < |m.banks|
    ensures |Serve(c.t, c.ranks, m, r, cur, KeepsOpen(c, p, r)).banks| == |m.banks|
    ensures var q := p.banks[r.bank];
            var bank' := Serve(c.t, c.ranks, m, r, cur, KeepsOpen(c, p, r)).banks[r.bank];
            && (|q| > 1 && q[1].rowHitSeq != 0 ==> RowHit(bank', q[1]))
            && bank'.openRow == r.row && bank'.curRowHits == r.rowHitSeq
            && (bank'.open <==> !c.closedPage || (|q| > 1 && q[1].rowHitSeq != 0))
  {
    hide CmdCycle, ActCycle, PreCycle;
    assert RequestPool.BankOk(p, c.rowHitLimit, r.bank);
    if |p.banks[r.bank]| > 1 && p.banks[r.bank][1].rowHitSeq != 0 {
      BankQueue.KeptOpenForAHit(p.banks[r.bank], c.rowHitLimit);
    }
  }

  /** However many requests come next for the bank, hits go on counting from the request served
      last, up to the limit. */
  lemma HitsKeepCounting(c: Config, p: Pool, nextId: nat, m: Mem, r: Request, cur: nat, q: seq<Request>, r': Request)
    requires PoolOk(p, c.rowHitLimit, nextId) && IsFirst(p, r) && Shape(c.t, c.ranks, m) && r.bank < |m.banks|
    requires BankQueue.QueueOk([r] + q, c.rowHitLimit)
    ensures BankQueue.QueueOk([r] + p.banks[r.bank][1..], c.rowHitLimit)
    ensures var bank' := Serve(c.t, c.ranks, m, r, cur, KeepsOpen(c, p, r)).banks[r.bank];
            BankQueue.QueueOk([r] + BankQueue.Enqueued(q, bank', c.rowHitLimit, r'), c.rowHitLimit)
  {
    hide BankQueue.QueueOk, BankQueue.Enqueued, Serve, KeepsOpen;
    assert RequestPool.BankOk(p, c.rowHitLimit, r.bank);
    assert p.banks[r.bank] == [r] + p.banks[r.bank][1..];
    NextHits(c, p, nextId, m, r, cur);
    BankQueue.CountsOn(r, q, Serve(c.t, c.ranks, m, r, cur, KeepsOpen(c, p, r)).banks[r.bank], c.rowHitLimit, r');
  }

  /** The `k`-th of the queue was the first that was ready, and has been served. */
  ghost predicate ServedAt(c: Config, m: Mem, m': Mem, p: Pool, p': Pool, k: nat, cur: nat) {
    && Shape(c.t, c.ranks, m) && k < |p.queue|
    && Ready(c.t, c.ranks, m, p, p.queue[k], cur)
    && (forall i :: 0 <= i < k ==> !Ready(c.t, c.ranks, m, p, p.queue[i], cur))
    && m' == Serve(c.t, c.ranks, m, p.queue[k], cur, KeepsOpen(c, p, p.queue[k]))
    && p' == Take(p, k)
  }

  ghost predicate NoneReady(c: Config, m: Mem, p: Pool, cur: nat) {
    Shape(c.t, c.ranks, m) && forall i :: 0 <= i < |p.queue| ==> !Ready(c.t, c.ranks, m, p, p.queue[i], cur)
  }

  /** The earliest estimate among the first `n` that are the first of their bank. */
  ghost predicate Earliest(c: Config, m: Mem, p: Pool, n: nat, cycle: nat) {
    && Shape(c.t, c.ranks, m) && n <= |p.queue| && |p.banks| == |m.banks|
    && (exists i :: 0 <= i < n && IsFirst(p, p.queue[i]) && cycle == MinCmd(c.t, c.ranks, m, p.queue[i]))
    && (forall i :: 0 <= i < n && IsFirst(p, p.queue[i]) ==> cycle <= MinCmd(c.t, c.ranks, m, p.queue[i]))
  }

  /** Writes go next when there are no reads, or when too many are waiting. */
  predicate PrefersWrites(c: Config, s: Sched) {
    s.rd.queue == [] || |s.wr.queue| > 3 * c.depth / 4 || (s.m.lastWasWrite && |s.wr.queue| > c.depth / 4)
  }

  function Preferred(c: Config, s: Sched): Pool {
    if PrefersWrites(c, s) then s.wr else s.rd
  }

  /** The bus is free too late for a command in this cycle. */
  predicate TooFar(c: Config, s: Sched, cur: nat) {
    cur + c.t.tCL < s.m.minResp
  }

  /** The `k`-th request of the preferred queue is served. */
  ghost predicate ServesOne(c: Config, s: Sched, cur: nat, s': Sched, r: Request, k: nat) {
    var writes := PrefersWrites(c, s);
    && ServedAt(c, s.m, s'.m, Preferred(c, s), if writes then s'.wr else s'.rd, k, cur)
    && r == Preferred(c, s).queue[k]
    && s' == if writes then s.(m := s'.m, wr := s'.wr) else s.(m := s'.m, rd := s'.rd)
  }

  /** The first ready request of the preferred queue is served, if the bus is near. `next` is when
      to try again: when the bus is near, or else when the first request may be ready. */
  ghost predicate Tried(c: Config, s: Sched, cur: nat, s': Sched, next: Cycle, served: Served) {
    && Shape(c.t, c.ranks, s.m) && Shape(c.t, c.ranks, s'.m)
    && match served
       case Nothing =>
         && s' == s
         && (if NoneQueued(s) then next == Never
             else if TooFar(c, s, cur) then next == At(s.m.minResp - c.t.tCL)
             else
               && next.At? && NoneReady(c, s.m, Preferred(c, s), cur)
               && Earliest(c, s.m, Preferred(c, s), |Preferred(c, s).queue|, next.cycle))
       case Some(r) =>
         && !NoneQueued(s) && !TooFar(c, s, cur)
         && (exists k: nat :: ServesOne(c, s, cur, s', r, k))
         && next == if NoneQueued(s') then Never else At(s'.m.minResp - c.t.tCL)
  }

  lemma TakeShape(p: Pool, k: nat)
    requires k < |p.queue| && IsFirst(p, p.queue[k])
    ensures |Take(p, k).banks| == |p.banks| && |Take(p, k).queue| == |p.queue| - 1
    ensures Bag(p.queue) == Bag(Take(p, k).queue) + multiset{Core(p.queue[k])}
    ensures forall r :: r in Take(p, k).queue ==> r in p.queue
  {
    BagRemove(p.queue, k);
  }

  /** The bus is busy until after the current cycle. */
  lemma ServeIsLater(t: Tech, ranks: seq<nat>, m: Mem, r: Request, cur: nat, keepOpen: bool)
    requires Shape(t, ranks, m) && r.bank < |m.banks|
    ensures Serve(t, ranks, m, r, cur, keepOpen).minResp > cur + t.tCL
  {
    ServeBankFacts(t, m, m.banks[r.bank], m.windows[ranks[r.bank]], r, cur, keepOpen);
  }

  lemma ServesOneOk(c: Config, s: Sched, cur: nat, s': Sched, r: Request, k: nat)
    requires SchedOk(c, s) && ServesOne(c, s, cur, s', r, k)
    ensures SchedOk(c, s') && s'.m.minResp > cur + c.t.tCL
    ensures |s'.rd.queue| + |s'.wr.queue| == |s.rd.queue| + |s.wr.queue| - 1 && s'.overflow == s.overflow
    ensures Pending(s) == Pending(s') + multiset{Core(r)}
  {
    hide Inv, PoolOk, Serve, Take, Shape, Bag, Core, MinCmd, IsFirst, KeepsOpen, ConfigOk;
    var p := Preferred(c, s);
    ServeKeepsInv(c.t, c.ranks, s.m, r, cur, KeepsOpen(c, p, r));
    ServeIsLater(c.t, c.ranks, s.m, r, cur, KeepsOpen(c, p, r));
    TakeOk(p, c.rowHitLimit, s.nextId, k);
    TakeShape(p, k);
  }

  lemma NoneReadyYet(c: Config, m: Mem, p: Pool, cur: nat, cycle: nat)
    requires NoneReady(c, m, p, cur) && Earliest(c, m, p, |p.queue|, cycle)
    ensures cycle > cur && !NoneReady(c, m, p, cycle)
  {
    hide Shape, MinCmd;
    var i :| 0 <= i < |p.queue| && IsFirst(p, p.queue[i]) && cycle == MinCmd(c.t, c.ranks, m, p.queue[i]);
    assert !Ready(c.t, c.ranks, m, p, p.queue[i], cur);
    assert Ready(c.t, c.ranks, m, p, p.queue[i], cycle);
  }

  lemma TriedOk(c: Config, s: Sched, cur: nat, s': Sched, next: Cycle, served: Served)
    requires SchedOk(c, s) && Tried(c, s, cur, s', next, served)
    ensures SchedOk(c, s') && (next.Never? <==> NoneQueued(s')) && (next.At? ==> next.cycle > cur)
    ensures s'.overflow == s.overflow && Pending(s) == Pending(s') + ServedBag(served)
    ensures |s'.rd.queue| + |s'.wr.queue| + |ServedBag(served)| == |s.rd.queue| + |s.wr.queue|
  {
    hide SchedOk, ServesOne, Shape, NoneReady, Earliest, Pending, Core;
    if served.Some? {
      var k: nat :| ServesOne(c, s, cur, s', served.r, k);
      ServesOneOk(c, s, cur, s', served.r, k);
    } else if !NoneQueued(s) && !TooFar(c, s, cur) {
      NoneReadyYet(c, s.m, Preferred(c, s), cur, next.cycle);
    }
  }

  // ------------------------------------------------------------ queueing a request

  function Stamped(s: Sched, r: Request, cur: nat): Request {
    r.(id := s.nextId, arrival := cur)
  }

  function PoolOf(c: Config, s: Sched, r: Request): Pool {
    if IsDeferred(c, r) then s.wr else s.rd
  }

  /** The request is in its queue and its bank's. */
  function Put(c: Config, s: Sched, r: Request, cur: nat): Sched
    requires Fits(c, s) && r.bank < |c.ranks|
  {
    var p := Add(PoolOf(c, s, r), s.m.banks[r.bank], c.rowHitLimit, Stamped(s, r, cur));
    var s' := s.(nextId := s.nextId + 1);
    if IsDeferred(c, r) then s'.(wr := p) else s'.(rd := p)
  }

  function PutRequest(c: Config, s: Sched, r: Request, cur: nat): Request
    requires Fits(c, s) && r.bank < |c.ranks|
  {
    Tagged(PoolOf(c, s, r), s.m.banks[r.bank], c.rowHitLimit, Stamped(s, r, cur))
  }

  /** It is the first of its bank. */
  predicate PutFirst(c: Config, s: Sched, r: Request, cur: nat)
    requires Fits(c, s) && r.bank < |c.ranks|
  {
    IsFirst(PoolOf(c, Put(c, s, r, cur), r), PutRequest(c, s, r, cur))
  }

  predicate HasRoom(c: Config, s: Sched) {
    |s.rd.queue| < c.depth && |s.wr.queue| < c.depth
  }

  lemma OlderIds(p: Pool, limit: nat, nextId: nat)
    requires PoolOk(p, limit, nextId)
    ensures PoolOk(p, limit, nextId + 1)
  {
  }

  /** The first request of all is the first of its bank. */
  lemma FirstInEmpty(p: Pool, limit: nat, nextId: nat, bank: Bank, r: Request)
    requires PoolOk(p, limit, nextId) && r.bank < |p.banks|
    ensures p.queue == [] ==> IsFirst(Add(p, bank, limit, r), Tagged(p, bank, limit, r))
  {
    assert RequestPool.BankOk(p, limit, r.bank);
    assert p.banks[r.bank] != [] ==> p.banks[r.bank][0] in p.banks[r.bank];
  }

  lemma PutOk(c: Config, s: Sched, r: Request, cur: nat)
    requires SchedOk(c, s) && r.bank < |c.ranks| && HasRoom(c, s)
    ensures Fits(c, s) && SchedOk(c, Put(c, s, r, cur)) && !NoneQueued(Put(c, s, r, cur))
    ensures NoneQueued(s) ==> PutFirst(c, s, r, cur)
    ensures Pending(Put(c, s, r, cur)) == Pending(s) + multiset{Core(r)}
    ensures var s' := Put(c, s, r, cur);
            var r' := PutRequest(c, s, r, cur);
            && r' == r.(id := s.nextId, rowHitSeq := r'.rowHitSeq, arrival := cur)
            && (if IsDeferred(c, r) then s'.wr.queue == s.wr.queue + [r'] && s'.rd == s.rd
                else s'.rd.queue == s.rd.queue + [r'] && s'.wr == s.wr)
            && |s'.rd.queue| + |s'.wr.queue| == |s.rd.queue| + |s.wr.queue| + 1
            && s'.m == s.m && s'.overflow == s.overflow
  {
    hide PoolOk, Inv, Bag, BankQueue.Enqueued, BankQueue.HitSeq, ConfigOk, IsFirst, Shape;
    SchedFits(c, s);
    var p, stamped, bank := PoolOf(c, s, r), Stamped(s, r, cur), s.m.banks[r.bank];
    AddOk(p, bank, c.rowHitLimit, stamped);
    FirstInEmpty(p, c.rowHitLimit, s.nextId, bank, stamped);
    OlderIds(if IsDeferred(c, r) then s.rd else s.wr, c.rowHitLimit, s.nextId);
    BagAppend(p.queue, PutRequest(c, s, r, cur));
    assert Core(PutRequest(c, s, r, cur)) == Core(r);
  }

  lemma PutRequestBank(c: Config, s: Sched, r: Request, cur: nat)
    requires Fits(c, s) && r.bank < |c.ranks|
    ensures PutRequest(c, s, r, cur).bank == r.bank
  {
  }

  function Sooner(next: Cycle, cycle: nat): Cycle {
    if next.Never? || next.cycle > cycle then At(cycle) else next
  }

  /** The first cycle from `cur` on in which the bus lets a tick do something. */
  function BusCycle(c: Config, m: Mem, cur: nat): nat {
    Max(cur, m.minResp - c.t.tCL - c.t.tBL)
  }

  /** One request moves from the overflow queue if there is room. If it is the first of its bank,
      the next tick is not later than the bus allows. */
  function Moved(c: Config, s: Sched, cur: nat, next: Cycle): Plan
    requires Fits(c, s)
  {
    if HasRoom(c, s) && s.overflow != [] then
      var r, rest := s.overflow[0], s.(overflow := s.overflow[1..]);
      Plan(Put(c, rest, r, cur), if PutFirst(c, rest, r, cur) then Sooner(next, BusCycle(c, s.m, cur)) else next)
    else Plan(s, next)
  }

  lemma MovedOk(c: Config, s: Sched, cur: nat, next: Cycle)
    requires SchedOk(c, s) && (next.Never? <==> NoneQueued(s)) && (next.At? ==> next.cycle > cur)
    ensures Fits(c, s) && PlanOk(c, Moved(c, s, cur, next)) && Pending(Moved(c, s, cur, next).s) == Pending(s)
    ensures var p := Moved(c, s, cur, next);
            p.next.At? ==>
              && p.next.cycle >= cur && (p.next.cycle == cur ==> |p.s.overflow| == |s.overflow| - 1)
              && (next.At? ==> p.next.cycle <= next.cycle)
  {
    hide PoolFits, Inv, Bag, Put, PutFirst, Core, Shape, BusCycle;
    SchedFits(c, s);
    if HasRoom(c, s) && s.overflow != [] {
      BagTail(s.overflow);
      assert BusCycle(c, s.m, cur) >= cur by { BusLater(c, s, cur); }
      PutOk(c, s.(overflow := s.overflow[1..]), s.overflow[0], cur);
    }
  }

  /** The overflow queue is first come, first served: if both queues have room its oldest request
      moves, and arrives only now. */
  lemma OldestMoves(c: Config, s: Sched, cur: nat, next: Cycle)
    requires SchedOk(c, s)
    ensures Fits(c, s)
    ensures var s' := Moved(c, s, cur, next).s;
            if s.overflow != [] && |s.rd.queue| < c.depth && |s.wr.queue| < c.depth then
              var r, q' := s.overflow[0], if c.deferredWrites && s.overflow[0].write then s'.wr.queue else s'.rd.queue;
              && s'.overflow == s.overflow[1..] && q' != []
              && var r' := q'[|q'| - 1]; r' == r.(id := s.nextId, rowHitSeq := r'.rowHitSeq, arrival := cur)
            else s' == s
  {
    hide Inv, PoolFits, Put, PutFirst, PutRequest, Core, Shape, BusCycle, Pending;
    SchedFits(c, s);
    if HasRoom(c, s) && s.overflow != [] {
      PutOk(c, s.(overflow := s.overflow[1..]), s.overflow[0], cur);
    }
  }

  lemma BusLater(c: Config, s: Sched, cur: nat)
    ensures BusCycle(c, s.m, cur) >= cur
  {
  }

  /** A tick in the planned cycle. */
  ghost predicate Ticks(c: Config, p: Plan, p': Plan, served: Served) {
    && p.next.At?
    && exists s, next :: Tried(c, p.s, p.next.cycle, s, next, served) && Fits(c, s)
                         && p' == Moved(c, s, p.next.cycle, next)
  }

  /** A request arrives. If it is the first of its bank it may go before the next tick. */
  function Arrived(c: Config, p: Plan, cur: nat, r: Request): Plan
    requires Fits(c, p.s) && r.bank < |c.ranks|
  {
    if !HasRoom(c, p.s) then p.(s := p.s.(overflow := p.s.overflow + [r]))
    else
      var goal := Max(BusCycle(c, p.s.m, cur), MinCmd(c.t, c.ranks, p.s.m, PutRequest(c, p.s, r, cur)));
      Plan(Put(c, p.s, r, cur), if PutFirst(c, p.s, r, cur) then Sooner(p.next, goal) else p.next)
  }

  lemma ArrivedOk(c: Config, p: Plan, cur: nat, r: Request)
    requires PlanOk(c, p) && r.bank < |c.ranks|
    ensures Fits(c, p.s) && PlanOk(c, Arrived(c, p, cur, r))
    ensures Pending(Arrived(c, p, cur, r).s) == Pending(p.s) + multiset{Core(r)}
    ensures Arrived(c, p, cur, r).s.overflow
            == if |p.s.rd.queue| < c.depth && |p.s.wr.queue| < c.depth then p.s.overflow else p.s.overflow + [r]
  {
    hide Inv, Bag, Put, PutFirst, Core, Shape, MinCmd, PutRequest, PoolOk;
    SchedFits(c, p.s);
    if HasRoom(c, p.s) {
      PutOk(c, p.s, r, cur);
    } else {
      BagAppend(p.s.overflow, r);
    }
  }

  /** A refresh: the plan stays. */
  function AfterRefresh(c: Config, p: Plan, cur: nat): Plan
    requires TechOk(c.t)
  {
    p.(s := p.s.(m := Refreshed(c.t, p.s.m, cur)))
  }

  lemma AfterRefreshOk(c: Config, p: Plan, cur: nat)
    requires PlanOk(c, p)
    ensures PlanOk(c, AfterRefresh(c, p, cur)) && Pending(AfterRefresh(c, p, cur).s) == Pending(p.s)
  {
    hide Inv, PoolFits, Bag, Refreshed;
    RefreshKeepsInv(c.t, c.ranks, p.s.m, cur);
  }

  lemma TicksOk(c: Config, p: Plan, p': Plan, served: Served)
    requires PlanOk(c, p) && Ticks(c, p, p', served)
    ensures PlanOk(c, p') && Pending(p.s) == Pending(p'.s) + ServedBag(served)
    ensures p'.next.At? ==>
              && p'.next.cycle >= p.next.cycle
              && (p'.next.cycle == p.next.cycle ==> |p'.s.overflow| == |p.s.overflow| - 1)
  {
    hide SchedOk, Tried, Moved, Pending, Fits;
    var s, next :| Tried(c, p.s, p.next.cycle, s, next, served) && Fits(c, s)
                   && p' == Moved(c, s, p.next.cycle, next);
    TriedOk(c, p.s, p.next.cycle, s, next, served);
    MovedOk(c, s, p.next.cycle, next);
  }

  // ------------------------------------------------------------ every request is served

  /** Ticks that may pass before one serves a request: the bus may be too far, and when it is
      near the request may not be ready. */
  ghost function Delay(c: Config, p: Plan): nat {
    if p.next.Never? then 0
    else if TooFar(c, p.s, p.next.cycle) then 2
    else if NoneReady(c, p.s.m, Preferred(c, p.s), p.next.cycle) then 1
    else 0
  }

  /** An upper bound of the ticks it takes to serve everything. */
  ghost function Work(c: Config, p: Plan): nat {
    6 * |p.s.overflow| + 3 * (|p.s.rd.queue| + |p.s.wr.queue|) + Delay(c, p)
  }

  lemma WorkBound(c: Config, p: Plan)
    ensures 6 * |p.s.overflow| + 3 * (|p.s.rd.queue| + |p.s.wr.queue|) <= Work(c, p)
    ensures Work(c, p) <= 6 * |p.s.overflow| + 3 * (|p.s.rd.queue| + |p.s.wr.queue|) + 2
  {
  }

  /** What taking a request from the overflow queue does to the lengths. */
  lemma MovedLengths(c: Config, s: Sched, cur: nat, next: Cycle)
    requires SchedOk(c, s)
    ensures Fits(c, s)
    ensures var p := Moved(c, s, cur, next);
            p == Plan(s, next)
            || (|p.s.overflow| == |s.overflow| - 1
                && |p.s.rd.queue| + |p.s.wr.queue| == |s.rd.queue| + |s.wr.queue| + 1)
  {
    hide PoolFits, Inv, Bag, Put, PutFirst, Core, Shape, BusCycle, Pending;
    SchedFits(c, s);
    if HasRoom(c, s) && s.overflow != [] {
      PutOk(c, s.(overflow := s.overflow[1..]), s.overflow[0], cur);
    }
  }

  /** A tick that serves nothing and takes nothing from the overflow queue has the next one in a
      cycle in which the bus is near, or in which a request is ready. */
  lemma WaitsForSomething(c: Config, s: Sched, cur: nat, next: Cycle)
    requires SchedOk(c, s) && Tried(c, s, cur, s, next, Nothing) && !NoneQueued(s)
    ensures Delay(c, Plan(s, next)) < Delay(c, Plan(s, At(cur)))
  {
    hide SchedOk, Shape, NoneReady, Earliest, Preferred;
    SchedFits(c, s);
    if !TooFar(c, s, cur) {
      NoneReadyYet(c, s.m, Preferred(c, s), cur, next.cycle);
    }
  }

  lemma TickFalls(c: Config, p: Plan, p': Plan, served: Served)
    requires PlanOk(c, p) && Ticks(c, p, p', served)
    ensures Work(c, p') < Work(c, p)
  {
    hide SchedOk, Tried, Moved, Pending, Fits, Delay;
    var cur := p.next.cycle;
    var s, next :| Tried(c, p.s, cur, s, next, served) && Fits(c, s) && p' == Moved(c, s, cur, next);
    TriedOk(c, p.s, cur, s, next, served);
    MovedLengths(c, s, cur, next);
    WorkBound(c, p);
    WorkBound(c, p');
    if served.Nothing? && p' == Plan(s, next) {
      NothingTried(c, p.s, cur, s, next);
      WaitsForSomething(c, s, cur, next);
      assert p == Plan(p.s, At(cur));
    }
  }

  lemma NothingTried(c: Config, s: Sched, cur: nat, s': Sched, next: Cycle)
    requires Tried(c, s, cur, s', next, Nothing)
    ensures s' == s
  {
  }

  /** An arrival adds at most six to the work. */
  lemma ArrivalAdds(c: Config, p: Plan, cur: nat, r: Request)
    requires PlanOk(c, p) && r.bank < |c.ranks|
    ensures Fits(c, p.s) && Work(c, Arrived(c, p, cur, r)) <= Work(c, p) + 6
  {
    hide PoolFits, Inv, Put, PutFirst, Shape, MinCmd, PutRequest, Pending, NoneReady;
    SchedFits(c, p.s);
    if HasRoom(c, p.s) {
      PutOk(c, p.s, r, cur);
      WorkBound(c, Arrived(c, p, cur, r));
    } else {
      hide Preferred;
      SamePreferred(c, p.s, p.s.(overflow := p.s.overflow + [r]));
    }
  }

  lemma SamePreferred(c: Config, s: Sched, s': Sched)
    requires s.rd == s'.rd && s.wr == s'.wr && s.m.lastWasWrite == s'.m.lastWasWrite
    ensures Preferred(c, s) == Preferred(c, s')
  {
  }

  /** A refresh at most makes a ready request wait once more. */
  lemma RefreshAdds(c: Config, p: Plan, cur: nat)
    requires PlanOk(c, p)
    ensures Work(c, AfterRefresh(c, p, cur)) <= Work(c, p) + 1
  {
    hide SchedOk, NoneReady, RefreshCycle;
  }

  // ------------------------------------------------------------ runs

  datatype Happening = Arrival(r: Request, cycle: nat) | RefreshAt(cycle: nat) | Tick(served: Served)

  ghost predicate Happens(c: Config, p: Plan, h: Happening, p': Plan) {
    match h
    case Arrival(r, cur) => Fits(c, p.s) && r.bank < |c.ranks| && p' == Arrived(c, p, cur, r)
    case RefreshAt(cur) => TechOk(c.t) && p' == AfterRefresh(c, p, cur)
    case Tick(served) => Ticks(c, p, p', served)
  }

  ghost predicate IsSchedule(c: Config, plans: seq<Plan>, hs: seq<Happening>) {
    && |plans| == |hs| + 1 && PlanOk(c, plans[0])
    && forall i :: 0 <= i < |hs| ==> Happens(c, plans[i], hs[i], plans[i + 1])
  }

  ghost function ArrivedBy(h: Happening): multiset<Request> {
    if h.Arrival? then multiset{Core(h.r)} else multiset{}
  }

  ghost function ServedBy(h: Happening): multiset<Request> {
    if h.Tick? then ServedBag(h.served) else multiset{}
  }

  ghost function ArrivedIn(hs: seq<Happening>): multiset<Request> {
    if hs == [] then multiset{} else ArrivedIn(hs[..|hs| - 1]) + ArrivedBy(hs[|hs| - 1])
  }

  ghost function ServedIn(hs: seq<Happening>): multiset<Request> {
    if hs == [] then multiset{} else ServedIn(hs[..|hs| - 1]) + ServedBy(hs[|hs| - 1])
  }

  predicate IsTick(h: Happening) {
    h.Tick?
  }

  predicate IsArrival(h: Happening) {
    h.Arrival?
  }

  predicate IsRefresh(h: Happening) {
    h.RefreshAt?
  }

  lemma StepPays(c: Config, p: Plan, h: Happening, p': Plan)
    requires PlanOk(c, p) && Happens(c, p, h, p')
    ensures PlanOk(c, p')
    ensures Pending(p'.s) + ServedBy(h) == Pending(p.s) + ArrivedBy(h)
    ensures Work(c, p') + (if h.Tick? then 1 else 0)
            <= Work(c, p) + (if h.Arrival? then 6 else 0) + (if h.RefreshAt? then 1 else 0)
  {
    hide PlanOk, Ticks, Arrived, AfterRefresh, Pending, Work, ServedBag, Core;
    match h
    case Arrival(r, cur) =>
      ArrivedOk(c, p, cur, r);
      ArrivalAdds(c, p, cur, r);
    case RefreshAt(cur) =>
      AfterRefreshOk(c, p, cur);
      RefreshAdds(c, p, cur);
    case Tick(served) =>
      TicksOk(c, p, p', served);
      TickFalls(c, p, p', served);
  }

  lemma Conserved(first: multiset<Request>, before: multiset<Request>, after: multiset<Request>,
                  came: multiset<Request>, went: multiset<Request>, comes: multiset<Request>, goes: multiset<Request>)
    requires before + went == first + came && after + goes == before + comes
    ensures after + (went + goes) == first + (came + comes)
  {
    assert after + (went + goes) == (after + goes) + went;
    assert (before + comes) + went == (before + went) + comes;
  }

  /** In any run, what arrived is served or pending, and the ticks are paid for: six for every
      arrival and one for every refresh, beside the work there was at the start. */
  lemma {:induction false} TicksPaidFor(c: Config, plans: seq<Plan>, hs: seq<Happening>)
    requires IsSchedule(c, plans, hs)
    ensures var last := plans[|hs|];
            && PlanOk(c, last)
            && Pending(last.s) + ServedIn(hs) == Pending(plans[0].s) + ArrivedIn(hs)
            && Sequences.Count(hs, IsTick) + Work(c, last)
               <= Work(c, plans[0]) + 6 * Sequences.Count(hs, IsArrival) + Sequences.Count(hs, IsRefresh)
    decreases |hs|
  {
    hide PlanOk, Happens, Pending, Work, ServedBy, ArrivedBy;
    if hs != [] {
      var n := |hs| - 1;
      TicksPaidFor(c, plans[..n + 1], hs[..n]);
      StepPays(c, plans[n], hs[n], plans[n + 1]);
      Conserved(Pending(plans[0].s), Pending(plans[n].s), Pending(plans[n + 1].s),
                ArrivedIn(hs[..n]), ServedIn(hs[..n]), ArrivedBy(hs[n]), ServedBy(hs[n]));
    }
  }

  /** The controller only comes to rest when everything that arrived has been served, each
      request once. */
  lemma RestsWhenServed(c: Config, plans: seq<Plan>, hs: seq<Happening>)
    requires IsSchedule(c, plans, hs) && plans[|hs|].next.Never?
    ensures ServedIn(hs) == Pending(plans[0].s) + ArrivedIn(hs)
  {
    hide SchedOk, Work;
    TicksPaidFor(c, plans, hs);
    assert Pending(plans[|hs|].s) == multiset{};
  }

  // ------------------------------------------------------------ reads before writes

  /** While a read is queued, a deferred write is served exactly if more than three quarters of the
      write queue are taken, or the last command was a write and more than one quarter is. */
  lemma WhoGoes(c: Config, p: Plan, p': Plan, r: Request)
    requires PlanOk(c, p) && Ticks(c, p, p', Some(r))
    ensures IsDeferred(c, r) <==>
              || p.s.rd.queue == [] || 4 * |p.s.wr.queue| > 3 * c.depth
              || (p.s.m.lastWasWrite && 4 * |p.s.wr.queue| > c.depth)
    ensures p'.s.m.lastWasWrite == r.write
  {
    hide Inv, PoolFits, Fits, Shape, Put, Ready, ConfigOk;
    var cur := p.next.cycle;
    var s, next :| Tried(c, p.s, cur, s, next, Some(r)) && Fits(c, s) && p' == Moved(c, s, cur, next);
    var k: nat :| ServesOne(c, p.s, cur, s, r, k);
    assert r in Preferred(c, p.s).queue;
    assert s.m.lastWasWrite == r.write;
    MovedKeeps(c, s, cur, next);
  }

  lemma MovedKeeps(c: Config, s: Sched, cur: nat, next: Cycle)
    requires Fits(c, s)
    ensures Moved(c, s, cur, next).s.m == s.m && |Moved(c, s, cur, next).s.wr.queue| >= |s.wr.queue|
  {
  }

  /** Whether the last command was a write, given whether it was one at the start. */
  ghost function LastWasWrite(first: bool, hs: seq<Happening>): bool {
    if hs == [] then first
    else
      var h := hs[|hs| - 1];
      if h.Tick? && h.served.Some? then h.served.r.write else LastWasWrite(first, hs[..|hs| - 1])
  }

  /** What a happening does to the last command and to the write queue. */
  lemma StepKeepsWrites(c: Config, p: Plan, h: Happening, p': Plan)
    requires PlanOk(c, p) && Happens(c, p, h, p')
    ensures if h.Tick? && h.served.Some? then p'.s.m.lastWasWrite == h.served.r.write
            else p'.s.m.lastWasWrite == p.s.m.lastWasWrite && |p'.s.wr.queue| >= |p.s.wr.queue|
  {
    hide SchedOk, Fits, ServesOne, NoneReady, Earliest, MinCmd, Shape, RefreshCycle;
    if h.Tick? {
      var cur := p.next.cycle;
      var s, next :| Tried(c, p.s, cur, s, next, h.served) && Fits(c, s) && p' == Moved(c, s, cur, next);
      MovedKeeps(c, s, cur, next);
      if h.served.Some? {
        WhoGoes(c, p, p', h.served.r);
      }
    }
  }

  lemma {:induction false} LastCommand(c: Config, plans: seq<Plan>, hs: seq<Happening>)
    requires IsSchedule(c, plans, hs)
    ensures plans[|hs|].s.m.lastWasWrite == LastWasWrite(plans[0].s.m.lastWasWrite, hs)
    decreases |hs|
  {
    hide PlanOk, Happens;
    if hs != [] {
      var n := |hs| - 1;
      LastCommand(c, plans[..n + 1], hs[..n]);
      ScheduleOk(c, plans, hs, n);
      StepKeepsWrites(c, plans[n], hs[n], plans[n + 1]);
    }
  }

  lemma ScheduleOk(c: Config, plans: seq<Plan>, hs: seq<Happening>, i: nat)
    requires IsSchedule(c, plans, hs) && i <= |hs|
    ensures PlanOk(c, plans[i])
  {
    hide PlanOk, Happens, Work, Pending;
    TicksPaidFor(c, plans[..i + 1], hs[..i]);
  }

  /** In any run: which request a tick serves, from what was served before. */
  lemma ReadsGoFirst(c: Config, plans: seq<Plan>, hs: seq<Happening>, i: nat, r: Request)
    requires IsSchedule(c, plans, hs) && i < |hs| && hs[i] == Tick(Some(r))
    ensures var s := plans[i].s;
            IsDeferred(c, r) <==>
              || s.rd.queue == [] || 4 * |s.wr.queue| > 3 * c.depth
              || (LastWasWrite(plans[0].s.m.lastWasWrite, hs[..i]) && 4 * |s.wr.queue| > c.depth)
  {
    hide PlanOk, Ticks;
    ScheduleOk(c, plans, hs, i);
    LastCommand(c, plans[..i + 1], hs[..i]);
    assert Happens(c, plans[i], hs[i], plans[i + 1]);
    WhoGoes(c, plans[i], plans[i + 1], r);
  }

  /** Writes that have started to drain, because more than three quarters of their queue were taken,
      go on until at most one quarter is left: no other request is served in between. */
  lemma {:induction false} DrainGoesOn(c: Config, plans: seq<Plan>, hs: seq<Happening>, i: nat, j: nat)
    requires IsSchedule(c, plans, hs) && i <= j < |hs| && 4 * |plans[i].s.wr.queue| > 3 * c.depth
    requires forall k :: i <= k <= j ==> 4 * |plans[k].s.wr.queue| > c.depth
    ensures plans[j].s.m.lastWasWrite || 4 * |plans[j].s.wr.queue| > 3 * c.depth
    ensures hs[j].Tick? && hs[j].served.Some? ==> IsDeferred(c, hs[j].served.r)
    decreases j
  {
    hide PlanOk, Ticks;
    if i < j {
      DrainGoesOn(c, plans, hs, i, j - 1);
      ScheduleOk(c, plans, hs, j - 1);
      assert Happens(c, plans[j - 1], hs[j - 1], plans[j - 1 + 1]);
      StepKeepsWrites(c, plans[j - 1], hs[j - 1], plans[j]);
    }
    if hs[j].Tick? && hs[j].served.Some? {
      ScheduleOk(c, plans, hs, j);
      assert Happens(c, plans[j], hs[j], plans[j + 1]);
      WhoGoes(c, plans[j], plans[j + 1], hs[j].served.r);
    }
  }

  // ------------------------------------------------------------ no tick comes too late

  /** The tick is not later than the first of a bank could be served. */
  predicate SoonEnough(c: Config, m: Mem, p: Pool, next: Cycle, r: Request)
    requires Shape(c.t, c.ranks, m)
  {
    IsFirst(p, r) && r.bank < |m.banks| ==>
      next.At? && next.cycle <= Max(m.minResp - c.t.tCL, MinCmd(c.t, c.ranks, m, r))
  }

  /** The planned tick is not later than any request of the preferred queue could be served. */
  ghost predicate InTime(c: Config, p: Plan) {
    && Shape(c.t, c.ranks, p.s.m)
    && forall r :: r in Preferred(c, p.s).queue ==> SoonEnough(c, p.s.m, Preferred(c, p.s), p.next, r)
  }

  lemma TriedInTime(c: Config, s: Sched, cur: nat, s': Sched, next: Cycle, served: Served)
    requires Tried(c, s, cur, s', next, served)
    ensures InTime(c, Plan(s', next))
  {
    hide ServesOne, MinCmd, Shape, NoneReady, IsFirst, PrefersWrites;
    var p := Preferred(c, s');
    forall r | r in p.queue
      ensures SoonEnough(c, s'.m, p, next, r)
    {
      var i :| 0 <= i < |p.queue| && p.queue[i] == r;
    }
  }

  /** So it is after every tick, while nothing overflows. */
  lemma TickInTime(c: Config, p: Plan, p': Plan, served: Served)
    requires PlanOk(c, p) && Ticks(c, p, p', served) && p.s.overflow == []
    ensures InTime(c, p')
  {
    hide SchedOk, Fits, Put, Tried, InTime, Pending;
    var cur := p.next.cycle;
    var s, next :| Tried(c, p.s, cur, s, next, served) && Fits(c, s) && p' == Moved(c, s, cur, next);
    TriedOk(c, p.s, cur, s, next, served);
    TriedInTime(c, p.s, cur, s, next, served);
    assert p' == Plan(s, next);
  }

  /** And after every arrival, unless it turns the preference to requests that waited already. */
  lemma ArrivalInTime(c: Config, p: Plan, cur: nat, r: Request)
    requires PlanOk(c, p) && InTime(c, p) && r.bank < |c.ranks| && Fits(c, p.s)
    requires var p' := Arrived(c, p, cur, r);
             || PrefersWrites(c, p'.s) == PrefersWrites(c, p.s)
             || Preferred(c, p'.s).queue == [PutRequest(c, p.s, r, cur)]
    ensures InTime(c, Arrived(c, p, cur, r))
  {
    hide SchedOk, MinCmd, Shape, IsFirst, Put, PutRequest, PutFirst, Pending, PrefersWrites, BusCycle, Fits;
    SchedFits(c, p.s);
    var p' := Arrived(c, p, cur, r);
    if HasRoom(c, p.s) {
      PutOk(c, p.s, r, cur);
      NewcomerIsNew(c, p.s, r, cur);
      forall x | x in Preferred(c, p'.s).queue
        ensures SoonEnough(c, p'.s.m, Preferred(c, p'.s), p'.next, x)
      {
        FirstsStay(c, p.s, r, cur, x);
        if x == PutRequest(c, p.s, r, cur) {
          EstimateAfterArrival(c.t, c.ranks, p.s.m, x);
          if PutFirst(c, p.s, r, cur) {
            NewInTime(c, p, cur, r);
          }
        } else {
          OldInTime(c, p, cur, r, x);
        }
      }
    } else {
      SamePreferred(c, p.s, p'.s);
    }
  }

  /** Who waited before is still in time: nothing about it has changed, and the tick is no later. */
  lemma OldInTime(c: Config, p: Plan, cur: nat, r: Request, x: Request)
    requires PlanOk(c, p) && InTime(c, p) && r.bank < |c.ranks| && Fits(c, p.s) && HasRoom(c, p.s)
    requires x in Preferred(c, p.s).queue && x != PutRequest(c, p.s, r, cur)
    ensures var p' := Arrived(c, p, cur, r);
            && Shape(c.t, c.ranks, p'.s.m)
            && (IsFirst(Preferred(c, p.s), x) ==> SoonEnough(c, p'.s.m, Preferred(c, p'.s), p'.next, x))
  {
    hide SchedOk, MinCmd, Shape, IsFirst, Put, PutRequest, PutFirst, Pending, PrefersWrites, BusCycle, Fits;
    SchedFits(c, p.s);
    PutOk(c, p.s, r, cur);
    assert SoonEnough(c, p.s.m, Preferred(c, p.s), p.next, x);
  }

  lemma EstimateAfterArrival(t: Tech, ranks: seq<nat>, m: Mem, r: Request)
    requires Shape(t, ranks, m) && r.bank < |m.banks|
    ensures MinCmd(t, ranks, m, r) >= r.arrival
  {
  }

  lemma NewInTime(c: Config, p: Plan, cur: nat, r: Request)
    requires Fits(c, p.s) && r.bank < |c.ranks| && HasRoom(c, p.s) && PutFirst(c, p.s, r, cur)
    requires PutRequest(c, p.s, r, cur).bank < |p.s.m.banks|
    requires MinCmd(c.t, c.ranks, p.s.m, PutRequest(c, p.s, r, cur)) >= cur
    ensures var next := Arrived(c, p, cur, r).next;
            next.At? && next.cycle <= Max(p.s.m.minResp - c.t.tCL,
                                          MinCmd(c.t, c.ranks, p.s.m, PutRequest(c, p.s, r, cur)))
  {
    hide Put, PutRequest, PutFirst, MinCmd, Shape;
  }

  lemma NewcomerIsNew(c: Config, s: Sched, r: Request, cur: nat)
    requires SchedOk(c, s) && r.bank < |c.ranks| && Fits(c, s)
    ensures PutRequest(c, s, r, cur) !in s.rd.queue && PutRequest(c, s, r, cur) !in s.wr.queue
  {
    OlderThan(c, s, PutRequest(c, s, r, cur));
  }

  /** Whoever is the first of its bank after an arrival was so before, or is the newcomer. */
  lemma FirstsStay(c: Config, s: Sched, r: Request, cur: nat, x: Request)
    requires SchedOk(c, s) && r.bank < |c.ranks| && HasRoom(c, s) && Fits(c, s)
    ensures var s', r' := Put(c, s, r, cur), PutRequest(c, s, r, cur);
            && (x in s'.rd.queue && IsFirst(s'.rd, x) ==>
                  (x in s.rd.queue && IsFirst(s.rd, x)) || (x == r' && s'.wr == s.wr && PutFirst(c, s, r, cur)))
            && (x in s'.wr.queue && IsFirst(s'.wr, x) ==>
                  (x in s.wr.queue && IsFirst(s.wr, x)) || (x == r' && s'.rd == s.rd && PutFirst(c, s, r, cur)))
  {
    hide SchedOk, BankQueue.Enqueued, BankQueue.HitSeq, Shape, Pending;
    SchedFits(c, s);
    PutOk(c, s, r, cur);
    var p := PoolOf(c, s, r);
    if p.banks[r.bank] != [] {
      BankQueue.FirstStays(p.banks[r.bank], s.m.banks[r.bank], c.rowHitLimit, Stamped(s, r, cur));
    } else {
      OnlyOne(s.m.banks[r.bank], c.rowHitLimit, Stamped(s, r, cur));
    }
    OlderThan(c, s, x);
  }

  lemma OnlyOne(bank: Bank, limit: nat, r: Request)
    ensures BankQueue.Enqueued([], bank, limit, r) == [r.(rowHitSeq := BankQueue.HitSeq([], bank, limit, r))]
  {
  }

  /** A request that is queued is older than the next one, and in its own bank. */
  lemma OlderThan(c: Config, s: Sched, x: Request)
    requires SchedOk(c, s)
    ensures x in s.rd.queue || x in s.wr.queue ==> x.id < s.nextId
    ensures IsFirst(s.rd, x) ==> x in s.rd.queue
    ensures IsFirst(s.wr, x) ==> x in s.wr.queue
  {
    if IsFirst(s.rd, x) {
      assert RequestPool.BankOk(s.rd, c.rowHitLimit, x.bank);
      assert x in s.rd.banks[x.bank];
    }
    if IsFirst(s.wr, x) {
      assert RequestPool.BankOk(s.wr, c.rowHitLimit, x.bank);
      assert x in s.wr.banks[x.bank];
    }
  }
}
