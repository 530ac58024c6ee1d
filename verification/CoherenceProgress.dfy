/**
 Accesses finish: a measure of the work left falls with every step that does not start a new
 access or eviction.
 */
module CoherenceProgress {
  import opened Sequences
  import opened CacheTree
  import opened Mesi
  import opened Coherence
  import opened CoherenceInvariant
  import opened CoherenceInvalidations
  import opened CoherenceTheorems

  // ------------------------------------------------------------ the work left

  /** What it takes to invalidate every child of `n` numbered below `k`, with all below it. */
  function AllBelow(par: seq<nat>, n: nat, k: nat): nat
    requires k <= |par|
    decreases if n < |par| then |par| - n else 0, k
  {
    if k == 0 then 0
    else AllBelow(par, n, k - 1) + (if k - 1 > n && IsChild(par, n, k - 1) then InvalCost(par, k - 1) else 0)
  }

  /** To enter a cache, to invalidate what is below, and to leave. */
  function InvalCost(par: seq<nat>, n: nat): nat
    decreases if n < |par| then |par| - n else 0, |par| + 1
  {
    3 + AllBelow(par, n, |par|)
  }

  /** The same for the caches in `todo` numbered below `k`. */
  function TodoCost(par: seq<nat>, todo: set<nat>, k: nat): nat {
    if k == 0 then 0 else TodoCost(par, todo, k - 1) + (if k - 1 in todo then InvalCost(par, k - 1) else 0)
  }

  function LoopWork(par: seq<nat>, l: Loop): nat {
    if l.current >= 0 then TodoCost(par, l.todo - {l.current as nat}, |par|) + 1 else TodoCost(par, l.todo, |par|)
  }

  /** What a request of a child costs at cache `n` and above. */
  function RequestCost(par: seq<nat>, n: nat): nat {
    9 + AllBelow(par, n, |par|) + (if 0 < n < |par| && par[n] < n then RequestCost(par, par[n]) else 0)
  }

  function UpCost(par: seq<nat>, n: nat): nat {
    if 0 < n < |par| && par[n] < n then RequestCost(par, par[n]) else 0
  }

  /** What is left of the access at `n`; `served` says that its parent is working on its request. */
  function AccessWork(par: seq<nat>, n: nat, node: Node, served: bool): nat {
    var below, up := AllBelow(par, n, |par|), UpCost(par, n);
    match node.acc
    case Idle => 0
    case Entered(_) => 9 + below + up
    case Running(op) => (if op.Eviction? then 4 else if node.present then 6 else 8) + below + up
    case Displacing(_) => 7 + below + up
    case Waiting(op, _, _) =>
      if op.Eviction? then (if served then 1 else 2 + up)
      else if served then 4 + below else 5 + below + up
    case Top(_) => 3 + below
    case Down(op, l) => (if op.Eviction? then 3 + up else 2) + LoopWork(par, l)
    case Ending(_) => 1
  }

  function NodeWork(par: seq<nat>, n: nat, node: Node, served: bool): nat {
    AccessWork(par, n, node, served) + (if node.inv.Inval? then 1 + LoopWork(par, node.inv.loop) else 0)
  }

  /** The parent of `n` is working on its request. */
  predicate Served(par: seq<nat>, s: Sys, n: nat)
    requires n < |par| == |s.nodes|
  {
    n != 0 && par[n] < |par| && Serves(s.nodes[par[n]], n)
  }

  function Term(par: seq<nat>, s: Sys, n: nat): nat
    requires n < |par| == |s.nodes|
  {
    NodeWork(par, n, s.nodes[n], Served(par, s, n))
  }

  function Terms(par: seq<nat>, s: Sys): seq<nat>
    requires |par| == |s.nodes|
  {
    seq(|par|, n requires 0 <= n < |par| => Term(par, s, n))
  }

  function Work(par: seq<nat>, s: Sys): nat
    requires |par| == |s.nodes|
  {
    Sum(Terms(par, s))
  }

  // ------------------------------------------------------------ sums

  /** Two caches change, and together have less left to do. */
  lemma TwoFall(par: seq<nat>, s: Sys, s': Sys, i: nat, j: nat)
    requires |par| == |s.nodes| == |s'.nodes| && i < |par| && j < |par| && i != j
    requires forall m: nat :: m < |par| && m != i && m != j ==> Term(par, s', m) == Term(par, s, m)
    requires Term(par, s', i) + Term(par, s', j) < Term(par, s, i) + Term(par, s, j)
    ensures Work(par, s') < Work(par, s)
  {
    hide Term;
    var a, b := Terms(par, s), Terms(par, s');
    SumUpdate(a, i, b[i]);
    SumUpdate(a[i := b[i]], j, b[j]);
    assert a[i := b[i]][j := b[j]] == b;
  }

  lemma OneFalls(par: seq<nat>, s: Sys, s': Sys, i: nat)
    requires |par| == |s.nodes| == |s'.nodes| && i < |par|
    requires forall m: nat :: m < |par| && m != i ==> Term(par, s', m) == Term(par, s, m)
    requires Term(par, s', i) < Term(par, s, i)
    ensures Work(par, s') < Work(par, s)
  {
    hide Term;
    var a, b := Terms(par, s), Terms(par, s');
    SumUpdate(a, i, b[i]);
    assert a[i := b[i]] == b;
  }

  // ------------------------------------------------------------ loops

  lemma {:induction false} TodoAtMostAll(par: seq<nat>, n: nat, todo: set<nat>, k: nat)
    requires IsTree(par) && k <= |par| && forall c :: c in todo ==> IsChild(par, n, c)
    ensures TodoCost(par, todo, k) <= AllBelow(par, n, k)
  {
    if k > 0 {
      TodoAtMostAll(par, n, todo, k - 1);
    }
  }

  lemma {:induction false} TodoWithout(par: seq<nat>, todo: set<nat>, c: nat, k: nat)
    requires c in todo
    ensures TodoCost(par, todo, k) == TodoCost(par, todo - {c}, k) + (if c < k then InvalCost(par, c) else 0)
  {
    if k > 0 {
      TodoWithout(par, todo, c, k - 1);
    }
  }

  lemma {:induction false} TodoNothing(par: seq<nat>, k: nat)
    ensures TodoCost(par, {}, k) == 0
  {
    if k > 0 {
      TodoNothing(par, k - 1);
    }
  }

  /** A new loop has at most everything below to do; a finished one nothing. */
  lemma StartWork(par: seq<nat>, n: nat, typ: InvType, e: Entry)
    requires IsTree(par) && forall c :: c in e.sharers ==> IsChild(par, n, c)
    ensures LoopWork(par, StartLoop(typ, e)) <= AllBelow(par, n, |par|)
  {
    TodoAtMostAll(par, n, StartLoop(typ, e).todo, |par|);
  }

  lemma FinishedWork(par: seq<nat>, l: Loop)
    requires l.Finished()
    ensures LoopWork(par, l) == 0
  {
    TodoNothing(par, |par|);
  }

  lemma VisitWork(par: seq<nat>, l: Loop, n: nat)
    requires l.current < 0 && n in l.todo && n < |par|
    ensures LoopWork(par, l.(current := n)) + InvalCost(par, n) == LoopWork(par, l) + 1
  {
    TodoWithout(par, l.todo, n, |par|);
  }

  lemma AnsweredWork(par: seq<nat>, l: Loop, n: nat, sent: int, wb: bool)
    requires l.current == n
    ensures LoopWork(par, l.(current := NOBODY, todo := l.todo - {n}, sent := sent, writeback := wb)) + 1
            == LoopWork(par, l)
  {
  }

  // ------------------------------------------------------------ one cache, or a cache and its child

  /** The child whose request the cache is working on, or -1. */
  function Whom(node: Node): int {
    if !node.acc.Idle? && node.acc.op.FromChild? then node.acc.op.child else -1
  }

  lemma NodeFalls(par: seq<nat>, s: Sys, s': Sys, n: nat, node': Node)
    requires Shape(par, s) && n < |par| && s'.nodes == s.nodes[n := node'] && Whom(node') == Whom(s.nodes[n])
    requires NodeWork(par, n, node', Served(par, s, n)) < NodeWork(par, n, s.nodes[n], Served(par, s, n))
    ensures Work(par, s') < Work(par, s)
  {
    hide NodeWork;
    assert Served(par, s', n) == Served(par, s, n);
    forall m: nat | m < |par| && m != n
      ensures Term(par, s', m) == Term(par, s, m)
    {
      assert Served(par, s', m) == Served(par, s, m);
    }
    OneFalls(par, s, s', n);
  }

  lemma PairFalls(par: seq<nat>, s: Sys, s': Sys, p: nat, pn': Node, c: nat, cn': Node)
    requires Shape(par, s) && IsChild(par, p, c) && s'.nodes == s.nodes[p := pn'][c := cn']
    requires Whom(cn') == Whom(s.nodes[c])
    requires Whom(pn') == Whom(s.nodes[p]) || (Whom(pn') in {-1, c as int} && Whom(s.nodes[p]) in {-1, c as int})
    requires NodeWork(par, p, pn', Served(par, s, p)) + NodeWork(par, c, cn', Whom(pn') == c)
             < NodeWork(par, p, s.nodes[p], Served(par, s, p)) + NodeWork(par, c, s.nodes[c], Whom(s.nodes[p]) == c)
    ensures Work(par, s') < Work(par, s)
  {
    hide NodeWork;
    assert p < c;
    assert Served(par, s', p) == Served(par, s, p);
    assert Served(par, s, c) == (Whom(s.nodes[p]) == c) && Served(par, s', c) == (Whom(pn') == c);
    forall m: nat | m < |par| && m != p && m != c
      ensures Term(par, s', m) == Term(par, s, m)
    {
      assert Served(par, s', m) == Served(par, s, m);
    }
    TwoFall(par, s, s', p, c);
  }

  // ------------------------------------------------------------ every step

  lemma NodeFacts(par: seq<nat>, s: Sys, n: nat)
    requires Inv(par, s) && n < |par|
    ensures forall c :: c in s.nodes[n].dir.sharers ==> IsChild(par, n, c)
    ensures s.nodes[n].AccessHoldsBottom() ==> s.nodes[n].inv.NoInv?
    ensures !s.nodes[n].acc.Idle? && s.nodes[n].acc.op.FromChild? ==> IsChild(par, n, s.nodes[n].acc.op.child)
  {
    assert NodeOk(par, n, s.nodes[n]);
  }

  /** A parent only works on the request of a child that waits. */
  lemma ServedWaits(par: seq<nat>, s: Sys, n: nat)
    requires Inv(par, s) && n < |par| && Served(par, s, n)
    ensures s.nodes[n].acc.Waiting?
  {
    assert EdgeOk(s.nodes[par[n]], s.nodes[n], n);
  }

  lemma RequestStartFalls(par: seq<nat>, s: Sys, n: nat)
    requires Inv(par, s) && Enabled(par, s, RequestStart(n))
    ensures Apply(par, s, RequestStart(n)).Fine? && |Apply(par, s, RequestStart(n)).value.nodes| == |par|
    ensures Work(par, Apply(par, s, RequestStart(n)).value) < Work(par, s)
  {
    hide NodesOk, EdgesOk, DirtyKept, AllBelow;
    var s' := Apply(par, s, RequestStart(n)).value;
    var p := par[n];
    assert s.nodes[p := s'.nodes[p]][n := s.nodes[n]] == s'.nodes;
    PairFalls(par, s, s', p, s'.nodes[p], n, s.nodes[n]);
  }

  lemma EnterFalls(par: seq<nat>, s: Sys, n: nat)
    requires Inv(par, s) && Enabled(par, s, InvEnter(n)) && ApplyInvEnter(par, s, n).Fine?
    ensures |ApplyInvEnter(par, s, n).value.nodes| == |par|
    ensures Work(par, ApplyInvEnter(par, s, n).value) < Work(par, s)
  {
    hide NodesOk, EdgesOk, DirtyKept, AllBelow, TodoCost, StartLoop, LoopWork;
    var p := par[n];
    var pn, node := s.nodes[p], s.nodes[n];
    NodeFacts(par, s, n);
    NodeFacts(par, s, p);
    VisitWork(par, pn.TheLoop(), n);
    StartWork(par, n, pn.TheLoop().typ, node.dir);
    PairFalls(par, s, ApplyInvEnter(par, s, n).value, p, VisitNode(pn, n), n, EnteredNode(node, pn.TheLoop().typ));
  }

  lemma LeaveFalls(par: seq<nat>, s: Sys, n: nat)
    requires Inv(par, s) && Enabled(par, s, InvLeave(n)) && ApplyInvLeave(par, s, n).Fine?
    ensures |ApplyInvLeave(par, s, n).value.nodes| == |par|
    ensures Work(par, ApplyInvLeave(par, s, n).value) < Work(par, s)
  {
    hide NodesOk, EdgesOk, DirtyKept, AllBelow, TodoCost, LoopWork, EndLoop;
    var p := par[n];
    var s' := ApplyInvLeave(par, s, n).value;
    var l := s.nodes[p].TheLoop();
    NodeFacts(par, s, p);
    FinishedWork(par, s.nodes[n].inv.loop);
    AnsweredWork(par, l, n, l.sent + 1, s'.nodes[p].TheLoop().writeback);
    PairFalls(par, s, s', p, s'.nodes[p], n, s'.nodes[n]);
  }

  lemma EndFalls(par: seq<nat>, s: Sys, n: nat)
    requires Inv(par, s) && Enabled(par, s, EndAccess(n)) && ApplyEnd(s, n).Fine?
    ensures |ApplyEnd(s, n).value.nodes| == |par|
    ensures Work(par, ApplyEnd(s, n).value) < Work(par, s)
  {
    hide NodesOk, EdgesOk, DirtyKept, AllBelow, TodoCost, LoopWork;
    NodeFacts(par, s, n);
    var s' := ApplyEnd(s, n).value;
    var op := s.nodes[n].acc.op;
    if op.FromChild? {
      PairFalls(par, s, s', n, s'.nodes[n], op.child, s'.nodes[op.child]);
    } else {
      NodeFalls(par, s, s', n, s'.nodes[n]);
    }
  }

  lemma TopEnds(par: seq<nat>, n: nat, node: Node, node': Node, served: bool)
    requires node.acc.Top? && node'.acc == Ending(node.acc.op) && node'.inv == node.inv
    ensures NodeWork(par, n, node', served) < NodeWork(par, n, node, served) && Whom(node') == Whom(node)
  {
    hide AllBelow, LoopWork;
  }

  lemma TopGoesDown(par: seq<nat>, n: nat, node: Node, node': Node, served: bool, typ: InvType)
    requires IsTree(par) && forall c :: c in node'.dir.sharers ==> IsChild(par, n, c)
    requires node.acc.Top? && !node.acc.op.Eviction? && node'.inv == node.inv
    requires node'.acc == Down(node.acc.op, StartLoop(typ, node'.dir))
    ensures NodeWork(par, n, node', served) < NodeWork(par, n, node, served) && Whom(node') == Whom(node)
  {
    hide AllBelow, LoopWork, StartLoop;
    StartWork(par, n, typ, node'.dir);
  }

  /** The work of a cache does not depend on its state or directory. */
  lemma SameWork(par: seq<nat>, n: nat, node: Node, state: State, served: bool)
    ensures NodeWork(par, n, node.(state := state), served) == NodeWork(par, n, node, served)
    ensures Whom(node.(state := state)) == Whom(node)
  {
  }

  /** What the top controller does to a cache and the child it serves. */
  lemma TopShape(s: Sys, n: nat)
    requires n < |s.nodes| && s.nodes[n].acc.Top? && !s.nodes[n].acc.op.Eviction? && ApplyTop(s, n).Fine?
    ensures var s', op := ApplyTop(s, n).value, s.nodes[n].acc.op;
            && |s'.nodes| == |s.nodes| && s'.nodes[n].inv == s.nodes[n].inv
            && s'.nodes[n].dir.sharers <= s.nodes[n].dir.sharers + (if op.FromChild? then {op.child} else {})
            && (op.FromCore? ==> s'.nodes == s.nodes[n := s'.nodes[n]] && s'.nodes[n].acc == Ending(op))
            && (op.FromChild? ==> op.child < |s.nodes| && op.child != n)
            && (op.FromChild? && s'.nodes[n].acc.Down? ==>
                  && s'.nodes == s.nodes[n := s'.nodes[n]]
                  && s'.nodes[n].acc == Down(op, StartLoop(if op.typ == GETX then INV else INVX, s'.nodes[n].dir)))
            && (op.FromChild? && !s'.nodes[n].acc.Down? ==>
                  && s'.nodes[n].acc == Ending(op)
                  && s'.nodes == s.nodes[n := s'.nodes[n]]
                                        [op.child := s.nodes[op.child].(state := s'.nodes[op.child].state)])
  {
    hide StartLoop;
  }

  lemma TopFalls(par: seq<nat>, s: Sys, n: nat)
    requires Inv(par, s) && Enabled(par, s, TopStep(n)) && ApplyTop(s, n).Fine?
    ensures |ApplyTop(s, n).value.nodes| == |par|
    ensures Work(par, ApplyTop(s, n).value) < Work(par, s)
  {
    hide NodesOk, EdgesOk, DirtyKept, NodeWork, ApplyTop, StartLoop, Work;
    NodeFacts(par, s, n);
    TopShape(s, n);
    var s', op := ApplyTop(s, n).value, s.nodes[n].acc.op;
    if s'.nodes[n].acc.Down? {
      TopGoesDown(par, n, s.nodes[n], s'.nodes[n], Served(par, s, n), if op.typ == GETX then INV else INVX);
      NodeFalls(par, s, s', n, s'.nodes[n]);
    } else {
      TopEnds(par, n, s.nodes[n], s'.nodes[n], Served(par, s, n));
      if op.FromCore? {
        NodeFalls(par, s, s', n, s'.nodes[n]);
      } else {
        SameWork(par, op.child, s.nodes[op.child], s'.nodes[op.child].state, true);
        PairFalls(par, s, s', n, s'.nodes[n], op.child, s'.nodes[op.child]);
      }
    }
  }

  lemma DownDoneFalls(par: seq<nat>, s: Sys, n: nat)
    requires Inv(par, s) && Enabled(par, s, DownDone(n)) && ApplyDownDone(s, n).Fine?
    ensures |ApplyDownDone(s, n).value.nodes| == |par|
    ensures Work(par, ApplyDownDone(s, n).value) < Work(par, s)
  {
    hide NodesOk, EdgesOk, DirtyKept, AllBelow, TodoCost, LoopWork, EndLoop;
    NodeFacts(par, s, n);
    FinishedWork(par, s.nodes[n].acc.loop);
    var s' := ApplyDownDone(s, n).value;
    var op := s.nodes[n].acc.op;
    if Served(par, s, n) {
      ServedWaits(par, s, n);
    }
    if op.FromChild? {
      PairFalls(par, s, s', n, s'.nodes[n], op.child, s'.nodes[op.child]);
    } else {
      NodeFalls(par, s, s', n, s'.nodes[n]);
    }
  }

  lemma BottomFalls(par: seq<nat>, s: Sys, n: nat)
    requires Inv(par, s) && Enabled(par, s, BottomStep(n)) && ApplyBottom(s, n).Fine?
    ensures |ApplyBottom(s, n).value.nodes| == |par|
    ensures Work(par, ApplyBottom(s, n).value) < Work(par, s)
  {
    hide NodesOk, EdgesOk, DirtyKept, AllBelow, TodoCost, LoopWork, StartLoop;
    NodeFacts(par, s, n);
    var s' := ApplyBottom(s, n).value;
    if Served(par, s, n) {
      ServedWaits(par, s, n);
    }
    StartWork(par, n, INV, s.nodes[n].dir);
    NodeFalls(par, s, s', n, s'.nodes[n]);
  }

  lemma OtherFalls(par: seq<nat>, s: Sys, step: Step)
    requires Inv(par, s) && Enabled(par, s, step) && Apply(par, s, step).Fine?
    requires step.LockBottom? || step.DropForVictim? || step.Allocate?
    ensures |Apply(par, s, step).value.nodes| == |par|
    ensures Work(par, Apply(par, s, step).value) < Work(par, s)
  {
    hide NodesOk, EdgesOk, DirtyKept, AllBelow, TodoCost, LoopWork;
    var s' := Apply(par, s, step).value;
    NodeFalls(par, s, s', step.n, s'.nodes[step.n]);
  }

  /** Every step that does not start an access or an eviction leaves less work to do. */
  lemma StepFalls(par: seq<nat>, s: Sys, step: Step)
    requires Inv(par, s) && Enabled(par, s, step) && !IsNew(step)
    ensures Apply(par, s, step).Fine? && Inv(par, Apply(par, s, step).value)
    ensures Work(par, Apply(par, s, step).value) < Work(par, s)
  {
    hide NodesOk, EdgesOk, DirtyKept, Work, Enabled;
    StepKeepsInv(par, s, step);
    match step
    case RequestStart(n) => RequestStartFalls(par, s, n);
    case BottomStep(n) => BottomFalls(par, s, n);
    case TopStep(n) => TopFalls(par, s, n);
    case InvEnter(n) => EnterFalls(par, s, n);
    case InvLeave(n) => LeaveFalls(par, s, n);
    case DownDone(n) => DownDoneFalls(par, s, n);
    case EndAccess(n) => EndFalls(par, s, n);
    case _ => OtherFalls(par, s, step);
  }

  /** No livelock: in any stretch of a run in which nothing new starts, every step pays for
      itself out of the work there was at its beginning. */
  lemma {:induction false} AccessesFinish(par: seq<nat>, states: seq<Sys>, steps: seq<Step>, a: nat, b: nat)
    requires IsRun(par, states, steps) && a <= b < |states|
    requires forall i :: a <= i < b ==> !IsNew(steps[i])
    ensures |states[a].nodes| == |states[b].nodes| == |par|
    ensures Work(par, states[b]) + (b - a) <= Work(par, states[a])
  {
    hide Work, Apply, Enabled;
    RunKeepsInv(par, states, steps, a);
    if a < b {
      AccessesFinish(par, states, steps, a, b - 1);
      RunKeepsInv(par, states, steps, b - 1);
      assert Apply(par, states[b - 1], steps[b - 1]) == Fine(states[b - 1 + 1]);
      StepFalls(par, states[b - 1], steps[b - 1]);
    }
  }

  /** When the work is done every access has completed. */
  lemma NoWorkNoAccess(par: seq<nat>, s: Sys, n: nat)
    requires |par| == |s.nodes| && n < |par| && Work(par, s) == 0
    ensures s.nodes[n].acc.Idle? && s.nodes[n].inv.NoInv?
  {
    var a := Terms(par, s);
    SumUpdate(a, n, 0);
    assert a[n] == Term(par, s, n) == 0;
  }
}
