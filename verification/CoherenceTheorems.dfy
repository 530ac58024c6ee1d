/**
 What the MESI hierarchy guarantees in every run of any cache tree.
 */
module CoherenceTheorems {
  import opened CacheTree
  import opened Mesi
  import opened Coherence
  import opened CoherenceInvariant
  import opened CoherenceSteps
  import opened CoherenceGrants
  import opened CoherenceInvalidations

  // ------------------------------------------------------------ all steps

  lemma InvFacts(par: seq<nat>, s: Sys, n: nat)
    requires Inv(par, s) && n < |par|
    ensures Shape(par, s) && (!s.nodes[n].acc.Idle? ==> OpOk(par, n, s.nodes[n].acc.op))
  {
    assert NodeOk(par, n, s.nodes[n]);
  }

  /** What an access to a child's request has, on its way down and before. */
  lemma RequestFacts(par: seq<nat>, s: Sys, n: nat)
    requires Inv(par, s) && n < |par|
    ensures s.nodes[n].acc.Down? && !s.nodes[n].acc.op.Eviction? ==>
              var op := s.nodes[n].acc.op;
              op.FromChild? && IsChild(par, n, op.child) && op.child != n && IsGet(op.typ)
    ensures s.nodes[n].acc.Top? && s.nodes[n].acc.op.FromChild? ==>
              IsChild(par, n, s.nodes[n].acc.op.child) && s.nodes[n].acc.op.child != n
    ensures s.nodes[n].acc.Top? && s.nodes[n].acc.op.FromCore? && s.nodes[n].acc.op.typ == GETX ==>
              s.nodes[n].state == M
  {
    assert NodeOk(par, n, s.nodes[n]);
  }

  lemma BottomKeeps(par: seq<nat>, s: Sys, n: nat)
    requires Inv(par, s) && Enabled(par, s, BottomStep(n))
    ensures ApplyBottom(s, n).Fine? && Inv(par, ApplyBottom(s, n).value)
  {
    var node := s.nodes[n];
    if node.acc.op.Eviction? {
      EvictDownStep(par, s, n);
    } else {
      BottomFine(par, s, n);
      hide Inv, NodeOk;
      match BottomAccess(node.acc.op.typ, node.state).value
      case Hit(state) =>
        BottomHitStep(par, s, n, state);
      case Miss =>
        if n == 0 {
          BottomRootStep(par, s, MemoryAccess(node.acc.op.typ, node.acc.op.noExcl));
        } else {
          BottomMissStep(par, s, n);
        }
    }
  }

  lemma TopKeeps(par: seq<nat>, s: Sys, n: nat)
    requires Inv(par, s) && Enabled(par, s, TopStep(n))
    ensures ApplyTop(s, n).Fine? && Inv(par, ApplyTop(s, n).value)
  {
    hide Inv, StartLoop;
    InvFacts(par, s, n);
    RequestFacts(par, s, n);
    var node := s.nodes[n];
    var op := node.acc.op;
    if op.FromCore? {
      CoreStep(par, s, n, Ending(op));
      if op.typ == GETX {
        StoreWritten(par, Set(s, n, node.(acc := Ending(op))), n);
      }
    } else if !IsGet(op.typ) {
      PutStep(par, s, n, op.child);
    } else if op.typ == GETS && node.dir.IsEmpty() && Exclusive(node.state) && !op.noExcl {
      GrantExclusiveStep(par, s, n, op.child);
    } else {
      GetDownStep(par, s, n, op.child);
    }
  }

  lemma StoreWritten(par: seq<nat>, s: Sys, n: nat)
    requires Inv(par, s) && n < |par| && s.nodes[n].state == M
    ensures Inv(par, s.(written := true, writer := n))
  {
    assert Above(par, n, n) && CarriesDirty(s.nodes[n]);
    UpdateWritten(par, s, true, n);
  }

  lemma EvictionKeeps(par: seq<nat>, s: Sys, n: nat)
    requires Inv(par, s) && Enabled(par, s, DownDone(n)) && s.nodes[n].acc.op.Eviction?
    ensures ApplyDownDone(s, n).Fine? && Inv(par, ApplyDownDone(s, n).value)
  {
    var node := s.nodes[n];
    assert NodeOk(par, n, node);
    EndLoopFine(node, node.acc.loop);
    AbsorbFine(node);
    var e := EndLoop(node.acc.loop, node.dir).value;
    var state := AbsorbWriteback(node.acc.loop.writeback, node.state).value;
    var emptied := node.(state := state, dir := e);
    if state == I || n == 0 {
      var node' := emptied.(state := I, present := false, acc := Idle);
      assert NodeOk(par, n, node');
      if n != 0 {
        UpQuiet(s.nodes[par[n]], node, node', n);
      }
      var s1 := s.(written := s.written && state != M);
      UpdateWritten(par, s, s1.written, s.writer);
      hide Inv, NodeOk, EdgeOk;
      EvictedStep(par, s1, n, node');
      assert Set(s, n, node').(written := s1.written) == Set(s1, n, node');
    } else {
      var node' := emptied.(acc := Waiting(Eviction, if state == M then PUTX else PUTS, state));
      assert NodeOk(par, n, node');
      UpWaits(s.nodes[par[n]], node, node', n);
      hide Inv, NodeOk, EdgeOk;
      EvictedStep(par, s, n, node');
    }
  }

  lemma DownDoneKeeps(par: seq<nat>, s: Sys, n: nat)
    requires Inv(par, s) && Enabled(par, s, DownDone(n))
    ensures ApplyDownDone(s, n).Fine? && Inv(par, ApplyDownDone(s, n).value)
  {
    hide Inv, EndLoop, AbsorbWriteback;
    InvFacts(par, s, n);
    RequestFacts(par, s, n);
    if s.nodes[n].acc.op.Eviction? {
      EvictionKeeps(par, s, n);
    } else {
      GrantStep(par, s, n, s.nodes[n].acc.op.child);
    }
  }

  lemma EndKeeps(par: seq<nat>, s: Sys, n: nat)
    requires Inv(par, s) && Enabled(par, s, EndAccess(n))
    ensures ApplyEnd(s, n).Fine? && Inv(par, ApplyEnd(s, n).value)
  {
    var op := s.nodes[n].acc.op;
    assert NodeOk(par, n, s.nodes[n]);
    if op.FromChild? {
      assert IsChild(par, n, op.child) && op.child != n;
      hide Inv, NodeOk;
      EndStep(par, s, n, op.child);
    } else {
      CoreStep(par, s, n, Idle);
    }
  }

  /** No enabled step of a state that satisfies the invariant meets a failing assertion
      of the controllers, and the invariant holds again afterwards. */
  lemma StepKeepsInv(par: seq<nat>, s: Sys, step: Step)
    requires Inv(par, s) && Enabled(par, s, step)
    ensures Apply(par, s, step).Fine? && Inv(par, Apply(par, s, step).value)
  {
    hide Inv, ApplyBottom, ApplyTop, ApplyDownDone, ApplyEnd, CheckForMESIRace, EndLoop, BottomInval, StartLoop;
    InvFacts(par, s, step.n);
    match step
    case CoreStart(n, typ, noExcl) => StartStep(par, s, n, FromCore(typ, noExcl));
    case EvictStart(n) => StartStep(par, s, n, Eviction);
    case RequestStart(n) =>
      var op := s.nodes[n].acc.op;
      RequestStartStep(par, s, n, !op.Eviction? && op.noExcl);
    case LockBottom(n) =>
      var op := s.nodes[n].acc.op;
      LockBottomStep(par, s, n, s.nodes[if op.FromChild? then op.child else n]);
    case DropForVictim(n) => DropStep(par, s, n);
    case Allocate(n, stale) => AllocateStep(par, s, n, stale);
    case BottomStep(n) => BottomKeeps(par, s, n);
    case TopStep(n) => TopKeeps(par, s, n);
    case InvEnter(n) => EnterStep(par, s, n);
    case InvLeave(n) => LeaveStep(par, s, n);
    case DownDone(n) => DownDoneKeeps(par, s, n);
    case EndAccess(n) => EndKeeps(par, s, n);
  }

  /** An eviction that is over has left nothing: the line is not there, or was not to begin with. */
  lemma EvictionEnds(par: seq<nat>, s: Sys, step: Step, s': Sys, n: nat)
    requires Inv(par, s) && Shape(par, s) && Enabled(par, s, step) && Shape(par, s') && Apply(par, s, step) == Fine(s')
    requires n < |par| && !s.nodes[n].acc.Idle? && s.nodes[n].acc.op.Eviction? && s'.nodes[n].acc.Idle?
    ensures !s'.nodes[n].present && s'.nodes[n].state == I && s'.nodes[n].dir.sharers == {}
  {
    hide Inv, EndLoop, AbsorbWriteback, BottomInval, StartLoop, CheckForMESIRace, MemoryAccess, BottomAccess, Granted;
    StepKeepsInv(par, s, step);
    NotPresent(par, s, n);
    NotPresent(par, s', n);
  }

  lemma NotPresent(par: seq<nat>, s: Sys, n: nat)
    requires Inv(par, s) && n < |par|
    ensures !s.nodes[n].present ==> s.nodes[n].state == I && s.nodes[n].dir.sharers == {}
    ensures s.nodes[n].acc.Ending? ==> !s.nodes[n].acc.op.Eviction?
  {
    assert NodeOk(par, n, s.nodes[n]);
  }

  // ------------------------------------------------------------ all runs

  /** A run from the empty hierarchy. No step of it has panicked. */
  ghost predicate IsRun(par: seq<nat>, states: seq<Sys>, steps: seq<Step>) {
    && IsTree(par)
    && |states| == |steps| + 1
    && Init(par, states[0])
    && forall i :: 0 <= i < |steps| ==>
         && Shape(par, states[i])
         && Enabled(par, states[i], steps[i])
         && Apply(par, states[i], steps[i]) == Fine(states[i + 1])
  }

  lemma {:induction false} RunKeepsInv(par: seq<nat>, states: seq<Sys>, steps: seq<Step>, i: nat)
    requires IsRun(par, states, steps) && i < |states|
    ensures Inv(par, states[i])
    decreases i
  {
    hide Inv, Init, Enabled, Apply;
    if i == 0 {
      InitInv(par, states[0]);
    } else {
      RunKeepsInv(par, states, steps, i - 1);
      StepKeepsInv(par, states[i - 1], steps[i - 1]);
    }
  }

  /** The race check, the inclusion panic, the invalidation of a missing line and every
      other assertion of the controllers hold whenever they are reached, in every run. */
  lemma NoAssertionFails(par: seq<nat>, states: seq<Sys>, steps: seq<Step>, i: nat, step: Step)
    requires IsRun(par, states, steps) && i < |states|
    requires Shape(par, states[i]) && Enabled(par, states[i], step)
    ensures Apply(par, states[i], step).Fine?
  {
    RunKeepsInv(par, states, steps, i);
    StepKeepsInv(par, states[i], step);
  }

  // ------------------------------------------------------------ single writer

  /** Permissions never grow on the way down. */
  lemma {:induction false} PermissionsShrink(par: seq<nat>, s: Sys, a: nat, b: nat)
    requires Inv(par, s) && b < |par| && Above(par, a, b)
    ensures a < |par|
    ensures s.nodes[b].state != I ==> s.nodes[a].state != I
    ensures Exclusive(s.nodes[b].state) ==> Exclusive(s.nodes[a].state)
    decreases b
  {
    if a != b {
      assert EdgeOk(s.nodes[par[b]], s.nodes[b], b);
      PermissionsShrink(par, s, a, par[b]);
    }
  }

  /** Siblings: beside an exclusive child every other child is invalid. */
  lemma OneExclusiveChild(p: Node, x: Node, a: nat, y: Node, b: nat)
    requires EdgeOk(p, x, a) && EdgeOk(p, y, b) && a != b
    requires Exclusive(x.state)
    ensures y.state == I
  {
  }

  /** If one of two caches, neither above the other, holds the line in E or M, the other
      holds it in I. */
  lemma {:induction false} SingleWriterInv(par: seq<nat>, s: Sys, a: nat, b: nat)
    requires Inv(par, s) && a < |par| && b < |par|
    requires !Above(par, a, b) && !Above(par, b, a)
    requires Exclusive(s.nodes[a].state)
    ensures s.nodes[b].state == I
    decreases a + b
  {
    if a < b {
      var q := par[b];
      assert EdgeOk(s.nodes[q], s.nodes[b], b);
      if Above(par, q, a) {
        var c := BranchTowards(par, q, a);
        PermissionsShrink(par, s, c, a);
        OneExclusiveChild(s.nodes[q], s.nodes[c], c, s.nodes[b], b);
      } else {
        SingleWriterInv(par, s, a, q);
      }
    } else {
      var q := par[a];
      PermissionsShrink(par, s, q, a);
      if Above(par, q, b) {
        var c := BranchTowards(par, q, b);
        assert EdgeOk(s.nodes[q], s.nodes[a], a);
        OneExclusiveChild(s.nodes[q], s.nodes[a], a, s.nodes[c], c);
        PermissionsShrink(par, s, c, b);
      } else {
        SingleWriterInv(par, s, q, b);
      }
    }
  }

  /** Single writer, many readers, in every state of every run. */
  lemma SingleWriter(par: seq<nat>, states: seq<Sys>, steps: seq<Step>, i: nat, a: nat, b: nat)
    requires IsRun(par, states, steps) && i < |states|
    requires |states[i].nodes| == |par|
    requires a < |par| && b < |par| && a != b && IsLeaf(par, a) && IsLeaf(par, b)
    requires Exclusive(states[i].nodes[a].state)
    ensures states[i].nodes[b].state == I
  {
    RunKeepsInv(par, states, steps, i);
    if Above(par, a, b) {
      LeafAboveItself(par, a, b);
    }
    if Above(par, b, a) {
      LeafAboveItself(par, b, a);
    }
    SingleWriterInv(par, states[i], a, b);
  }

  /** A core's access completes with the permission it asked for: a store holds the only
      valid copy outside its own path to memory. */
  lemma AccessHasPermission(par: seq<nat>, states: seq<Sys>, steps: seq<Step>, i: nat, n: nat)
    requires IsRun(par, states, steps) && i < |states|
    requires Shape(par, states[i]) && Enabled(par, states[i], TopStep(n)) && states[i].nodes[n].acc.op.FromCore?
    ensures states[i].nodes[n].state != I
    ensures states[i].nodes[n].acc.op.typ == GETX ==>
              && states[i].nodes[n].state == M
              && forall b: nat :: b < |par| && !Above(par, b, n) ==> states[i].nodes[b].state == I
  {
    RunKeepsInv(par, states, steps, i);
    var s := states[i];
    assert NodeOk(par, n, s.nodes[n]);
    if s.nodes[n].acc.op.typ == GETX {
      forall b: nat | b < |par| && !Above(par, b, n)
        ensures s.nodes[b].state == I
      {
        if Above(par, n, b) {
          LeafAboveItself(par, n, b);
        }
        SingleWriterInv(par, s, n, b);
      }
    }
  }

  // ------------------------------------------------------------ dirty data, directory

  /** As long as the last store has not reached memory, a cache on the path from its writer to
      memory is in M, or an invalidation there carries the writeback flag up. */
  lemma DirtyNeverLost(par: seq<nat>, states: seq<Sys>, steps: seq<Step>, i: nat)
    requires IsRun(par, states, steps) && i < |states|
    requires states[i].written
    ensures |states[i].nodes| == |par| && states[i].writer < |par|
    ensures exists n: nat :: n < |par| && Above(par, n, states[i].writer) && CarriesDirty(states[i].nodes[n])
  {
    RunKeepsInv(par, states, steps, i);
  }

  /** Outside a directory update the entry is exact: the sharer bits are the children with
      a copy, the counter is their number, `IsExclusive` says that the sole sharer is in E or
      M, and no child has more than its parent. */
  lemma ExactDirectory(par: seq<nat>, states: seq<Sys>, steps: seq<Step>, i: nat, p: nat)
    requires IsRun(par, states, steps) && i < |states| && p < |par|
    requires |states[i].nodes| == |par| && !states[i].nodes[p].HasLoop()
    ensures var s := states[i];
            var e := s.nodes[p].dir;
            && e.sharers == (set c: nat | c < |par| && IsChild(par, p, c) && s.nodes[c].state != I)
            && e.numSharers == |e.sharers|
            && (e.IsExclusive() <==> exists c: nat :: IsChild(par, p, c) && Exclusive(s.nodes[c].state))
            && (s.nodes[p].state == I ==> e.sharers == {})
            && (!Exclusive(s.nodes[p].state) ==> !e.IsExclusive())
  {
    RunKeepsInv(par, states, steps, i);
    var s := states[i];
    var e := s.nodes[p].dir;
    assert NodeOk(par, p, s.nodes[p]);
    forall c: nat | IsChild(par, p, c)
      ensures c in e.sharers <==> s.nodes[c].state != I
      ensures Exclusive(s.nodes[c].state) ==> e.exclusive && e.sharers == {c} && Exclusive(s.nodes[p].state)
      ensures c in e.sharers && e.exclusive ==> Exclusive(s.nodes[c].state)
      ensures c in e.sharers ==> s.nodes[p].state != I
    {
      assert EdgeOk(s.nodes[p], s.nodes[c], c);
    }
    if e.IsExclusive() {
      var c :| c in e.sharers;
      assert IsChild(par, p, c);
    }
  }

  /** A request never has its own child invalidated. */
  lemma RequesterSpared(par: seq<nat>, states: seq<Sys>, steps: seq<Step>, i: nat, p: nat)
    requires IsRun(par, states, steps) && i < |states| && p < |par| && |states[i].nodes| == |par|
    requires states[i].nodes[p].acc.Down? && states[i].nodes[p].acc.op.FromChild?
    ensures var acc := states[i].nodes[p].acc;
            acc.op.child !in acc.loop.todo && acc.loop.current != acc.op.child
  {
    RunKeepsInv(par, states, steps, i);
    var s := states[i];
    assert NodeOk(par, p, s.nodes[p]);
    assert EdgeOk(s.nodes[p], s.nodes[s.nodes[p].acc.op.child], s.nodes[p].acc.op.child);
  }

  // ------------------------------------------------------------ progress

  /** A new access or eviction, as opposed to the continuation of one under way. */
  predicate IsNew(step: Step) {
    step.CoreStart? || step.EvictStart?
  }

  lemma {:induction false} LoopProgress(par: seq<nat>, s: Sys, n: nat) returns (step: Step)
    requires Inv(par, s) && n < |par| && s.nodes[n].HasLoop()
    ensures Enabled(par, s, step) && !IsNew(step)
    decreases |par| - n, 0
  {
    var node := s.nodes[n];
    var l := node.TheLoop();
    assert NodeOk(par, n, node) && LoopOk(node, l);
    if l.todo == {} {
      if node.inv.Inval? {
        assert EdgeOk(s.nodes[par[n]], node, n);
        step := InvLeave(n);
      } else {
        step := DownDone(n);
      }
    } else {
      var c: nat :| c in l.todo && (l.current >= 0 ==> c == l.current);
      assert c in node.dir.sharers && IsChild(par, n, c);
      assert EdgeOk(node, s.nodes[c], c);
      if s.nodes[c].inv.Inval? {
        step := LoopProgress(par, s, c);
      } else if s.nodes[c].AccessHoldsBottom() {
        step := HolderProgress(par, s, c);
      } else {
        step := InvEnter(c);
      }
    }
  }

  lemma {:induction false} HolderProgress(par: seq<nat>, s: Sys, n: nat) returns (step: Step)
    requires Inv(par, s) && n < |par| && s.nodes[n].AccessHoldsBottom()
    ensures Enabled(par, s, step) && !IsNew(step)
    decreases |par| - n, 1
  {
    var node := s.nodes[n];
    assert NodeOk(par, n, node);
    match node.acc
    case Running(op) =>
      step := if !op.Eviction? && IsGet(op.typ) && !node.present then Allocate(n, false) else BottomStep(n);
    case Top(_) => step := TopStep(n);
    case Down(_, _) => step := LoopProgress(par, s, n);
    case Ending(op) =>
      if op.FromChild? {
        assert EdgeOk(node, s.nodes[op.child], op.child);
      }
      step := EndAccess(n);
  }

  lemma {:induction false} AccessProgress(par: seq<nat>, s: Sys, n: nat) returns (step: Step)
    requires Inv(par, s) && n < |par| && !s.nodes[n].acc.Idle?
    ensures Enabled(par, s, step) && !IsNew(step)
    decreases n
  {
    var node := s.nodes[n];
    assert NodeOk(par, n, node);
    if node.AccessHoldsBottom() {
      step := HolderProgress(par, s, n);
    } else if node.acc.Waiting? {
      if s.nodes[par[n]].acc.Idle? {
        step := RequestStart(n);
      } else {
        step := AccessProgress(par, s, par[n]);
      }
    } else if node.inv.Inval? {
      step := LoopProgress(par, s, n);
    } else {
      step := if node.acc.Entered? then LockBottom(n) else Allocate(n, false);
    }
  }

  /** No deadlock on a line: in every run, while any access is under way some step of an
      access under way is enabled. */
  lemma NeverStuck(par: seq<nat>, states: seq<Sys>, steps: seq<Step>, i: nat, n: nat)
    requires IsRun(par, states, steps) && i < |states| && Shape(par, states[i])
    requires n < |par| && !states[i].nodes[n].acc.Idle?
    ensures exists step :: Enabled(par, states[i], step) && !IsNew(step)
  {
    RunKeepsInv(par, states, steps, i);
    var step := AccessProgress(par, states[i], n);
  }
}
