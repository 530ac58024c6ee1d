/**
 A schedule the controller makes, with the timings of DDR3-1333 and the default configuration,
 that leaves an activation window unsorted: a deferred write waits while later reads go first,
 and its activation is then booked for the cycle in which it arrived.
 */
module DdrUnsorted {
  import opened DdrTiming
  import opened DdrTimingProof
  import opened RequestPool
  import opened DdrSchedule
  import opened DdrController
  import ActWindow
  import BankQueue
  import DdrClock

  const DDR3_1333_CL10 := Tech(4, 10, 10, 5, 10, 4, 24, 20, 5, 10, 74)

  /** One rank of four banks; frequencies in kHz. */
  const CONFIG := Config(DDR3_1333_CL10, [0, 0, 0, 0], 1, 3_000_000, 666_666, 16, 4, true, true)

  // ------------------------------------------------------------ queues

  /** The requests for one bank. */
  function Only(q: seq<Request>, b: nat): seq<Request> {
    if q == [] then [] else (if q[0].bank == b then [q[0]] else []) + Only(q[1..], b)
  }

  /** The queue with these requests, all in the order they came. */
  function InTurn(q: seq<Request>): Pool {
    Pool(q, seq(4, b requires 0 <= b < 4 => Only(q, b)))
  }

  lemma {:induction false} OnlyAppend(q: seq<Request>, r: Request, b: nat)
    ensures Only(q + [r], b) == Only(q, b) + Only([r], b)
  {
    if q == [] {
      assert q + [r] == [r];
    } else {
      OnlyAppend(q[1..], r, b);
      assert (q + [r])[1..] == q[1..] + [r];
    }
  }

  lemma {:induction false} OnlyNone(q: seq<Request>, b: nat)
    requires forall i :: 0 <= i < |q| ==> q[i].bank != b
    ensures Only(q, b) == []
  {
    if q != [] {
      OnlyNone(q[1..], b);
    }
  }

  /** A request for a closed bank nobody waits for. */
  lemma AddLast(q: seq<Request>, bank: Bank, limit: nat, r: Request)
    requires r.bank < 4 && !bank.open && r.rowHitSeq == 0 && forall i :: 0 <= i < |q| ==> q[i].bank != r.bank
    ensures Tagged(InTurn(q), bank, limit, r) == r && Add(InTurn(q), bank, limit, r) == InTurn(q + [r])
    ensures IsFirst(InTurn(q + [r]), r)
  {
    OnlyNone(q, r.bank);
    assert BankQueue.LastOfRow([], r.row, 0) == -1;
    assert BankQueue.Enqueued([], bank, limit, r) == [r];
    forall b: nat | b < 4
      ensures Only(q + [r], b) == if b == r.bank then [r] else Only(q, b)
    {
      OnlyAppend(q, r, b);
    }
  }

  lemma TakeFirst(q: seq<Request>)
    requires q != [] && q[0].bank < 4
    ensures IsFirst(InTurn(q), q[0]) && Take(InTurn(q), 0) == InTurn(q[1..])
  {
    assert q[..0] + q[1..] == q[1..];
    var banks, b := InTurn(q).banks, q[0].bank;
    assert forall i :: 0 <= i < 4 ==> banks[b := banks[b][1..]][i] == Only(q[1..], i);
  }

  // ------------------------------------------------------------ the situation

  /** It waits for a bank not used so far. */
  predicate Waits(r: Request, used: nat) {
    used <= r.bank < 4 && r.rowHitSeq == 0
  }

  /** Reads `rd` and writes `wr` wait for banks of which the first `used` have been used; `w` is the
      activation window, and the bus is free for data from `free` on. */
  ghost predicate Stands(p: Plan, used: nat, rd: seq<Request>, wr: seq<Request>, w: seq<nat>, free: nat, next: Cycle) {
    && p.s.overflow == [] && p.next == next && p.s.rd == InTurn(rd) && p.s.wr == InTurn(wr)
    && |p.s.m.banks| == 4 && (forall b :: used <= b < 4 ==> p.s.m.banks[b] == RESET_BANK)
    && p.s.m.windows == [w] && |w| == 4 && p.s.m.minResp == free && !p.s.m.lastWasWrite
    && |rd| <= 4 && |wr| <= 4
    && (forall i :: 0 <= i < |rd| ==> Waits(rd[i], used)) && (forall i :: 0 <= i < |wr| ==> Waits(wr[i], used))
  }

  /** A request arrives for a bank nobody has used or waits for. */
  lemma Arrives(p: Plan, rd: seq<Request>, wr: seq<Request>, w: seq<nat>, free: nat, next: Cycle,
                r: Request, cur: nat) returns (r': Request)
    requires PlanOk(CONFIG, p) && Stands(p, 0, rd, wr, w, free, next) && Waits(r, 0)
    requires |rd| < 4 && |wr| < 4 && w[0] + 20 <= cur && free <= cur
    requires forall i :: 0 <= i < |rd| ==> rd[i].bank != r.bank
    requires forall i :: 0 <= i < |wr| ==> wr[i].bank != r.bank
    ensures r' == r.(id := r'.id, arrival := cur) && Fits(CONFIG, p.s)
    ensures Stands(Arrived(CONFIG, p, cur, r), 0, if r.write then rd else rd + [r'],
                   if r.write then wr + [r'] else wr, w, free, Sooner(next, cur + 10))
  {
    hide PlanOk, InTurn, Add, Tagged, IsFirst, Shape;
    PlanFits(p);
    r' := Stamped(p.s, r, cur);
    QueueIs(rd);
    QueueIs(wr);
    AddLast(if r.write then wr else rd, p.s.m.banks[r.bank], 4, r');
    FreshEstimate(p.s.m, r', w);
  }

  lemma PlanFits(p: Plan)
    requires PlanOk(CONFIG, p)
    ensures Fits(CONFIG, p.s) && SchedOk(CONFIG, p.s) && Shape(CONFIG.t, CONFIG.ranks, p.s.m)
  {
    hide SchedOk;
    SchedFits(CONFIG, p.s);
  }

  predicate IsFresh(m: Mem, r: Request) {
    r.bank < |m.banks| && m.banks[r.bank] == RESET_BANK
  }

  /** Serving a request for a bank not used before, in a cycle in which it is ready. */
  lemma ServeFresh(m: Mem, r: Request, w: seq<nat>, cur: nat, keepOpen: bool)
    requires Shape(CONFIG.t, CONFIG.ranks, m) && IsFresh(m, r) && m.windows == [w] && !m.lastWasWrite
    requires |w| == 4 && w[0] + 20 <= r.arrival && 14 <= r.arrival <= cur - 10 && m.minResp <= cur + 10
    ensures var m' := Serve(CONFIG.t, CONFIG.ranks, m, r, cur, keepOpen);
            && m'.windows == [ActWindow.Insert(w, r.arrival)] && m'.minResp == cur + 14
            && m'.lastWasWrite == r.write && |m'.banks| == |m.banks|
            && forall b :: 0 <= b < |m.banks| && b != r.bank ==> m'.banks[b] == m.banks[b]
  {
    hide ServeBank, ActWindow.Insert;
  }

  /** What a tick does while nothing overflows. */
  lemma TickTries(p: Plan, p': Plan, served: Served)
    requires p.s.overflow == [] && Ticks(CONFIG, p, p', served)
    ensures Tried(CONFIG, p.s, p.next.cycle, p'.s, p'.next, served)
  {
    hide Tried, Fits, Put;
    var s, next :| Tried(CONFIG, p.s, p.next.cycle, s, next, served) && Fits(CONFIG, s)
                   && p' == Moved(CONFIG, s, p.next.cycle, next);
    TriedOverflow(p.s, p.next.cycle, s, next, served);
  }

  lemma TriedOverflow(s: Sched, cur: nat, s': Sched, next: Cycle, served: Served)
    requires Tried(CONFIG, s, cur, s', next, served)
    ensures s'.overflow == s.overflow
  {
  }

  /** A tick that comes too early for every read. */
  lemma TickWaits(p: Plan, p': Plan, served: Served, used: nat, rd: seq<Request>, wr: seq<Request>, w: seq<nat>,
                  free: nat, cur: nat)
    requires PlanOk(CONFIG, p) && Stands(p, used, rd, wr, w, free, At(cur)) && Ticks(CONFIG, p, p', served)
    requires rd != [] && free <= cur + 10
    requires forall i :: 0 <= i < |rd| ==> w[0] + 20 <= rd[i].arrival && 14 <= rd[0].arrival <= rd[i].arrival
    requires rd[0].arrival + 10 > cur
    ensures Stands(p', used, rd, wr, w, free, At(rd[0].arrival + 10))
  {
    hide PlanOk, InTurn, IsFirst, Shape, Ticks, ServesOne, NoneReady, Earliest;
    PlanFits(p);
    TickTries(p, p', served);
    QueueIs(rd);
    QueueIs(wr);
    TakeFirst(rd);
    assert Preferred(CONFIG, p.s) == p.s.rd;
    if served.Some? {
      var k: nat :| ServesOne(CONFIG, p.s, cur, p'.s, served.r, k);
      ServesOneIsReady(p.s, cur, p'.s, served.r, k);
      FreshEstimate(p.s.m, rd[k], w);
      assert false;
    } else {
      EarliestIs(p.s.m, rd, w, p'.next.cycle);
    }
  }

  lemma FreshEstimate(m: Mem, r: Request, w: seq<nat>)
    requires Shape(CONFIG.t, CONFIG.ranks, m) && IsFresh(m, r) && m.windows == [w] && |w| == 4
    requires w[0] + 20 <= r.arrival && 14 <= r.arrival
    ensures MinCmd(CONFIG.t, CONFIG.ranks, m, r) == r.arrival + 10
  {
  }

  lemma ServesOneIsReady(s: Sched, cur: nat, s': Sched, r: Request, k: nat)
    requires ServesOne(CONFIG, s, cur, s', r, k)
    ensures Shape(CONFIG.t, CONFIG.ranks, s.m) && k < |Preferred(CONFIG, s).queue|
    ensures Ready(CONFIG.t, CONFIG.ranks, s.m, Preferred(CONFIG, s), Preferred(CONFIG, s).queue[k], cur)
  {
  }

  lemma EarliestIs(m: Mem, q: seq<Request>, w: seq<nat>, cycle: nat)
    requires m.windows == [w] && |w| == 4 && Earliest(CONFIG, m, InTurn(q), |q|, cycle) && q != []
    requires forall i :: 0 <= i < |q| ==>
               IsFresh(m, q[i]) && w[0] + 20 <= q[i].arrival && 14 <= q[0].arrival <= q[i].arrival
    ensures cycle == q[0].arrival + 10
  {
    hide Shape, InTurn, MinCmd, IsFirst;
    QueueIs(q);
    TakeFirst(q);
    var i :| 0 <= i < |q| && IsFirst(InTurn(q), q[i]) && cycle == MinCmd(CONFIG.t, CONFIG.ranks, m, q[i]);
    FreshEstimate(m, q[i], w);
    FreshEstimate(m, q[0], w);
  }

  lemma QueueIs(q: seq<Request>)
    ensures InTurn(q).queue == q && |InTurn(q).banks| == 4
  {
  }

  /** A tick in which the first request of the preferred queue is ready. */
  lemma TickServes(p: Plan, p': Plan, served: Served, used: nat, rd: seq<Request>, wr: seq<Request>, w: seq<nat>,
                   free: nat, cur: nat)
    requires PlanOk(CONFIG, p) && Stands(p, used, rd, wr, w, free, At(cur)) && Ticks(CONFIG, p, p', served)
    requires free <= cur + 10 && rd + wr != []
    requires var r := (rd + wr)[0];
             && w[0] + 20 <= r.arrival && 14 <= r.arrival <= cur - 10 && r.bank == used
             && (forall i :: 0 < i < |rd + wr| ==> (rd + wr)[i].bank > used)
    ensures p'.s.m.windows == [ActWindow.Insert(w, (rd + wr)[0].arrival)]
    ensures rd != [] && !rd[0].write ==>
              Stands(p', used + 1, rd[1..], wr, ActWindow.Insert(w, rd[0].arrival), cur + 14,
                     if rd[1..] + wr == [] then Never else At(cur + 4))
  {
    hide PlanOk, Ticks, InTurn, ActWindow.Insert;
    var q := if rd == [] then wr else rd;
    assert (rd + wr)[0] == q[0];
    HeadServed(p, p', served, used, rd, wr, q, w, free, cur);
    if rd != [] && !rd[0].write {
      assert forall i :: 0 < i < |rd| ==> (rd + wr)[i] == rd[i];
      assert forall i :: 0 <= i < |wr| ==> (rd + wr)[|rd| + i] == wr[i];
    }
  }

  /** The first request of the preferred queue `q` goes, and the fields change accordingly. */
  lemma HeadServed(p: Plan, p': Plan, served: Served, used: nat, rd: seq<Request>, wr: seq<Request>, q: seq<Request>,
                   w: seq<nat>, free: nat, cur: nat)
    requires PlanOk(CONFIG, p) && Stands(p, used, rd, wr, w, free, At(cur)) && Ticks(CONFIG, p, p', served)
    requires free <= cur + 10 && q == (if rd == [] then wr else rd) && q != []
    requires w[0] + 20 <= q[0].arrival && 14 <= q[0].arrival <= cur - 10
    ensures var m, m' := p.s.m, p'.s.m;
            && m'.windows == [ActWindow.Insert(w, q[0].arrival)] && m'.minResp == cur + 14
            && m'.lastWasWrite == q[0].write && |m'.banks| == |m.banks|
            && (forall b :: 0 <= b < |m.banks| && b != q[0].bank ==> m'.banks[b] == m.banks[b])
    ensures p'.s.overflow == [] && p'.s.rd == InTurn(if rd == [] then rd else rd[1..])
    ensures p'.s.wr == InTurn(if rd == [] then wr[1..] else wr)
    ensures rd != [] ==> p'.next == if rd[1..] + wr == [] then Never else At(cur + 4)
  {
    hide PlanOk, InTurn, IsFirst, Shape, Ticks, Tried, Serve, Take, ActWindow.Insert, MinCmd, KeepsOpen;
    PlanFits(p);
    TickTries(p, p', served);
    QueueIs(rd);
    QueueIs(wr);
    TakeFirst(q);
    QueueIs(q[1..]);
    FreshEstimate(p.s.m, q[0], w);
    assert Preferred(CONFIG, p.s) == InTurn(q) && (PrefersWrites(CONFIG, p.s) <==> rd == []);
    ServesHead(p.s, cur, p'.s, p'.next, served);
    hide PrefersWrites;
    ServeFresh(p.s.m, q[0], w, cur, KeepsOpen(CONFIG, Preferred(CONFIG, p.s), q[0]));
  }

  lemma ServesHead(s: Sched, cur: nat, s': Sched, next: Cycle, served: Served)
    requires Tried(CONFIG, s, cur, s', next, served) && !TooFar(CONFIG, s, cur) && Preferred(CONFIG, s).queue != []
    requires Shape(CONFIG.t, CONFIG.ranks, s.m)
    requires var p := Preferred(CONFIG, s);
             && IsFirst(p, p.queue[0]) && p.queue[0].bank < |s.m.banks|
             && MinCmd(CONFIG.t, CONFIG.ranks, s.m, p.queue[0]) <= cur
    ensures var p := Preferred(CONFIG, s);
            && s'.m == Serve(CONFIG.t, CONFIG.ranks, s.m, p.queue[0], cur, KeepsOpen(CONFIG, p, p.queue[0]))
            && s' == (if PrefersWrites(CONFIG, s) then s.(m := s'.m, wr := Take(p, 0))
                      else s.(m := s'.m, rd := Take(p, 0)))
            && Shape(CONFIG.t, CONFIG.ranks, s'.m)
            && next == if NoneQueued(s') then Never else At(s'.m.minResp - CONFIG.t.tCL)
  {
    hide Shape, MinCmd, IsFirst, Serve, Take, KeepsOpen, PrefersWrites;
    assert Ready(CONFIG.t, CONFIG.ranks, s.m, Preferred(CONFIG, s), Preferred(CONFIG, s).queue[0], cur);
    var k: nat :| ServesOne(CONFIG, s, cur, s', served.r, k);
    assert k == 0;
  }

  // ------------------------------------------------------------ the schedule

  lemma InsertFour(a: nat, b: nat, c: nat, d: nat, act: nat)
    ensures ActWindow.Insert([a, b, c, d], act)
            == if d <= act then [b, c, d, act] else if c <= act then [b, c, act, d]
               else if b <= act then [b, act, c, d] else [d, b, c, act]
  {
    var v := [a, b, c, d];
    ActWindow.PlaceIs(v, act, if d <= act then 3 else if c <= act then 2 else if b <= act then 1 else 0);
    ActWindow.InsertAt(v, act, 0);
    ActWindow.InsertAt(v, act, 1);
    ActWindow.InsertAt(v, act, 2);
    ActWindow.InsertAt(v, act, 3);
    hide ActWindow.Insert;
  }

  lemma StartStands()
    ensures ConfigOk(CONFIG) && Stands(InitialPlan(CONFIG), 0, [], [], [0, 0, 0, 0], 15, Never)
  {
  }

  method Arrive(d: Controller, r: Request, sysCycle: nat, ghost rd: seq<Request>, ghost wr: seq<Request>,
                ghost next: Cycle, ghost cur: nat) returns (ghost r': Request)
    requires d.Valid() && d.c == CONFIG && Stands(d.Planned(), 0, rd, wr, [0, 0, 0, 0], 15, next) && Waits(r, 0)
    requires cur == DdrClock.SysToMem(CONFIG.sysFreq, CONFIG.memFreq, sysCycle) && cur >= 20
    requires |rd| < 4 && |wr| < 4
    requires forall i :: 0 <= i < |rd| ==> rd[i].bank != r.bank
    requires forall i :: 0 <= i < |wr| ==> wr[i].bank != r.bank
    modifies d
    ensures d.Valid() && r' == r.(id := r'.id, arrival := cur)
    ensures Stands(d.Planned(), 0, if r.write then rd else rd + [r'], if r.write then wr + [r'] else wr,
                   [0, 0, 0, 0], 15, Sooner(next, cur + 10))
  {
    hide PlanOk, Arrived, Fits, Stands, DdrClock.SysToMem, FreeOk;
    r' := Arrives(d.Planned(), rd, wr, [0, 0, 0, 0], 15, next, r, cur);
    d.Enqueue(r, sysCycle);
  }

  /** The requests of the schedule. */
  function Read(i: nat, id: nat): Request {
    Request(i, id, i, 0, false, 0, 1001 + i)
  }

  function Write(id: nat): Request {
    Request(3, id, 3, 0, true, 0, 1000)
  }

  /** A write and three reads arrive, in the memory cycles 1000 to 1003. */
  method Arrivals() returns (d: Controller, ghost ids: seq<nat>)
    ensures fresh(d) && d.Valid() && d.c == CONFIG && |ids| == 4
    ensures Stands(d.Planned(), 0, [Read(0, ids[1]), Read(1, ids[2]), Read(2, ids[3])], [Write(ids[0])],
                   [0, 0, 0, 0], 15, At(1010))
  {
    hide PlanOk, InitialPlan, Stands, FreeOk;
    StartStands();
    d := new Controller(CONFIG);
    ghost var w := Arrive(d, Write(0), 4496, [], [], Never, 1000);
    assert [] + [w] == [w];
    ghost var r0 := Arrive(d, Read(0, 0), 4501, [], [w], At(1010), 1001);
    assert [] + [r0] == [r0];
    ghost var r1 := Arrive(d, Read(1, 0), 4505, [r0], [w], At(1010), 1002);
    assert [r0] + [r1] == [r0, r1];
    ghost var r2 := Arrive(d, Read(2, 0), 4510, [r0, r1], [w], At(1010), 1003);
    assert [r0, r1] + [r2] == [r0, r1, r2];
    ids := [w.id, r0.id, r1.id, r2.id];
  }

  method ServeNext(d: Controller, ghost used: nat, ghost rd: seq<Request>, ghost wr: seq<Request>, ghost w: seq<nat>,
                   ghost free: nat, ghost cur: nat)
    requires d.Valid() && d.c == CONFIG && Stands(d.Planned(), used, rd, wr, w, free, At(cur))
    requires free <= cur + 10 && rd + wr != [] && |w| == 4
    requires var r := (rd + wr)[0];
             && w[0] + 20 <= r.arrival && 14 <= r.arrival <= cur - 10 && r.bank == used
             && (forall i :: 0 < i < |rd + wr| ==> (rd + wr)[i].bank > used)
    modifies d
    ensures d.Valid() && d.windows == [ActWindow.Insert(w, (rd + wr)[0].arrival)]
    ensures rd != [] && !rd[0].write ==>
              Stands(d.Planned(), used + 1, rd[1..], wr, ActWindow.Insert(w, rd[0].arrival), cur + 14,
                     if rd[1..] + wr == [] then Never else At(cur + 4))
  {
    hide PlanOk, Ticks, Stands, FreeOk, ActWindow.Insert;
    ghost var p := d.Planned();
    StandsNext(p, used, rd, wr, w, free, At(cur));
    var served := d.SimulateNext();
    TickServes(p, d.Planned(), served, used, rd, wr, w, free, cur);
  }

  lemma StandsNext(p: Plan, used: nat, rd: seq<Request>, wr: seq<Request>, w: seq<nat>, free: nat, next: Cycle)
    requires Stands(p, used, rd, wr, w, free, next)
    ensures p.next == next && |w| == 4
  {
  }

  /** The tick planned for the write finds reads, none of them ready; the reads go first, each when
      the bus is free, and the write after them. Its activation is booked for its arrival. */
  method WindowLeftUnsorted() returns (d: Controller)
    ensures fresh(d) && d.Valid() && d.windows == [[1003, 1001, 1002, 1000]]
    ensures !ActWindow.Sorted(d.windows[0])
  {
    hide PlanOk, Ticks, ActWindow.Insert, Stands, FreeOk;
    ghost var ids;
    d, ids := Arrivals();
    ghost var r0, r1, r2, w := Read(0, ids[1]), Read(1, ids[2]), Read(2, ids[3]), Write(ids[0]);
    ghost var p := d.Planned();
    StandsNext(p, 0, [r0, r1, r2], [w], [0, 0, 0, 0], 15, At(1010));
    var served := d.SimulateNext();
    TickWaits(p, d.Planned(), served, 0, [r0, r1, r2], [w], [0, 0, 0, 0], 15, 1010);
    ServeNext(d, 0, [r0, r1, r2], [w], [0, 0, 0, 0], 15, 1011);
    InsertFour(0, 0, 0, 0, 1001);
    assert [r0, r1, r2][1..] == [r1, r2];
    ServeNext(d, 1, [r1, r2], [w], [0, 0, 0, 1001], 1025, 1015);
    InsertFour(0, 0, 0, 1001, 1002);
    assert [r1, r2][1..] == [r2];
    ServeNext(d, 2, [r2], [w], [0, 0, 1001, 1002], 1029, 1019);
    InsertFour(0, 0, 1001, 1002, 1003);
    assert [r2][1..] == [];
    ServeNext(d, 3, [], [w], [0, 1001, 1002, 1003], 1033, 1023);
    InsertFour(0, 1001, 1002, 1003, 1000);
    assert d.windows[0][0] > d.windows[0][1];
  }
}
