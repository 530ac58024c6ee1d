/**
 What a load leaves behind when nothing else goes on: with no copy of the line anywhere, every
 cache on its way gets the line exclusively, so that a store can follow without a miss; or in
 S, if the load must not take it exclusively.
 */
module CoherenceLoad {
  import opened CacheTree
  import opened Mesi
  import opened Coherence
  import opened CoherenceInvariant
  import opened CoherenceTheorems

  function Target(noExcl: bool): State {
    if noExcl then S else E
  }

  // ------------------------------------------------------------ the way up

  /** Of two caches above a third, one is above the other. */
  lemma {:induction false} Comparable(par: seq<nat>, a: nat, b: nat, n: nat)
    requires IsTree(par) && n < |par| && Above(par, a, n) && Above(par, b, n)
    ensures a < |par| && b < |par| && (Above(par, a, b) || Above(par, b, a))
    decreases n
  {
    AboveIsSmaller(par, a, n);
    AboveIsSmaller(par, b, n);
    if a != n && b != n {
      Comparable(par, a, b, par[n]);
    }
  }

  /** Only one child of a cache is on the way to `n`. */
  lemma OneBranch(par: seq<nat>, c: nat, d: nat, n: nat)
    requires IsTree(par) && n < |par| && 0 < c < |par| && 0 < d < |par| && par[c] == par[d]
    requires Above(par, c, n) && Above(par, d, n)
    ensures c == d
  {
    Comparable(par, c, d, n);
    if c != d {
      if Above(par, c, d) {
        AboveIsSmaller(par, c, par[d]);
      } else {
        AboveIsSmaller(par, d, par[c]);
      }
    }
  }

  lemma ParentAbove(par: seq<nat>, c: nat, n: nat)
    requires IsTree(par) && n < |par| && 0 < c < |par| && Above(par, c, n)
    ensures Above(par, par[c], n)
  {
    assert Above(par, par[c], c);
    AboveTransitive(par, par[c], c, n);
  }

  // ------------------------------------------------------------ only this load

  /** The cache knows of nothing but the load. */
  predicate OnlyLoad(node: Node, noExcl: bool) {
    && (node.state == I || node.state == Target(noExcl)) && node.inv.NoInv?
    && (!node.acc.Idle? ==> !node.acc.op.Eviction? && node.acc.op.typ == GETS && node.acc.op.noExcl == noExcl)
    && (node.acc.Down? ==> noExcl)
  }

  ghost predicate LoadAt(par: seq<nat>, m: nat, node: Node, n: nat, noExcl: bool)
    requires IsTree(par) && n < |par|
  {
    && OnlyLoad(node, noExcl)
    && (!Above(par, m, n) ==> node.acc.Idle? && node.state == I)
    && (m == n && (node.acc.Idle? || node.acc.Top? || node.acc.Ending?) ==> node.state == Target(noExcl))
  }

  ghost predicate Alone(par: seq<nat>, s: Sys, n: nat, noExcl: bool)
    requires Shape(par, s) && n < |par|
  {
    forall m: nat :: m < |par| ==> LoadAt(par, m, s.nodes[m], n, noExcl)
  }

  /** What the invariant says of a cache and of a child it serves. */
  lemma ServedFacts(par: seq<nat>, s: Sys, m: nat)
    requires Inv(par, s) && m < |par| && !s.nodes[m].acc.Idle?
    ensures OpOk(par, m, s.nodes[m].acc.op)
    ensures s.nodes[m].acc.op.FromChild? ==>
              var c := s.nodes[m].acc.op.child;
              && IsChild(par, m, c) && s.nodes[c].acc.Waiting?
              && RequestOk(s.nodes[m].acc, s.nodes[c]) && WaitOk(s.nodes[m], s.nodes[c], c)
    ensures PhaseOk(s.nodes[m]) && DirOk(s.nodes[m])
  {
    assert NodeOk(par, m, s.nodes[m]);
    if s.nodes[m].acc.op.FromChild? {
      assert EdgeOk(s.nodes[m], s.nodes[s.nodes[m].acc.op.child], s.nodes[m].acc.op.child);
    }
  }

  /** The entry of a cache about to answer is empty. */
  lemma NobodyElse(par: seq<nat>, s: Sys, m: nat, n: nat, noExcl: bool)
    requires Inv(par, s) && n < |par| && Alone(par, s, n, noExcl) && m < |par|
    requires s.nodes[m].acc.Top? && s.nodes[m].acc.op.FromChild?
    ensures s.nodes[m].dir.IsEmpty()
  {
    ServedFacts(par, s, m);
    var c := s.nodes[m].acc.op.child;
    assert NodeOk(par, m, s.nodes[m]);
    assert LoadAt(par, m, s.nodes[m], n, noExcl);
    assert LoadAt(par, c, s.nodes[c], n, noExcl);
    forall d | d in s.nodes[m].dir.sharers
      ensures false
    {
      assert IsChild(par, m, d) && EdgeOk(s.nodes[m], s.nodes[d], d);
      assert LoadAt(par, d, s.nodes[d], n, noExcl);
      if d != c {
        OneBranch(par, c, d, n);
      }
    }
    assert s.nodes[m].dir.sharers == {};
  }

  /** Nobody is invalidated. */
  lemma NobodyInvalidated(par: seq<nat>, s: Sys, k: nat, n: nat, noExcl: bool)
    requires Inv(par, s) && n < |par| && Alone(par, s, n, noExcl)
    requires 0 < k < |par| && s.nodes[par[k]].HasLoop()
    ensures k !in s.nodes[par[k]].TheLoop().todo
  {
    var p := s.nodes[par[k]];
    assert LoadAt(par, par[k], p, n, noExcl) && LoadAt(par, k, s.nodes[k], n, noExcl);
    assert NodeOk(par, par[k], p) && EdgeOk(p, s.nodes[k], k);
  }

  // ------------------------------------------------------------ every step

  lemma QuietSteps(par: seq<nat>, s: Sys, step: Step, s': Sys, n: nat, noExcl: bool)
    requires Inv(par, s) && Shape(par, s) && Enabled(par, s, step) && Shape(par, s') && Apply(par, s, step) == Fine(s')
    requires n < |par| && Alone(par, s, n, noExcl)
    requires step.LockBottom? || step.DropForVictim? || step.Allocate? || step.RequestStart?
    ensures Alone(par, s', n, noExcl)
  {
    hide Inv, Above;
    var k := if step.RequestStart? then par[step.n] else step.n;
    assert LoadAt(par, step.n, s.nodes[step.n], n, noExcl);
    if step.RequestStart? {
      ParentAbove(par, step.n, n);
      ParentNotSame(par, step.n, n);
      WaitingTyp(par, s, step.n);
    }
    assert LoadAt(par, k, s.nodes[k], n, noExcl);
    forall m: nat | m < |par|
      ensures LoadAt(par, m, s'.nodes[m], n, noExcl)
    {
      assert LoadAt(par, m, s.nodes[m], n, noExcl);
    }
  }

  lemma WaitingTyp(par: seq<nat>, s: Sys, m: nat)
    requires Inv(par, s) && m < |par| && s.nodes[m].acc.Waiting? && !s.nodes[m].acc.op.Eviction?
    ensures s.nodes[m].acc.typ == s.nodes[m].acc.op.typ
  {
    assert NodeOk(par, m, s.nodes[m]);
  }

  lemma ParentNotSame(par: seq<nat>, c: nat, n: nat)
    requires IsTree(par) && n < |par| && 0 < c < |par| && Above(par, c, n)
    ensures par[c] != n
  {
    AboveIsSmaller(par, c, n);
  }

  lemma BottomAlone(par: seq<nat>, s: Sys, m: nat, s': Sys, n: nat, noExcl: bool)
    requires Inv(par, s) && Shape(par, s) && Enabled(par, s, BottomStep(m)) && Shape(par, s')
    requires ApplyBottom(s, m) == Fine(s') && n < |par| && Alone(par, s, n, noExcl)
    ensures Alone(par, s', n, noExcl)
  {
    hide Inv, Above;
    assert LoadAt(par, m, s.nodes[m], n, noExcl);
    forall k: nat | k < |par|
      ensures LoadAt(par, k, s'.nodes[k], n, noExcl)
    {
      assert LoadAt(par, k, s.nodes[k], n, noExcl);
    }
  }

  lemma TopAlone(par: seq<nat>, s: Sys, m: nat, s': Sys, n: nat, noExcl: bool)
    requires Inv(par, s) && Shape(par, s) && Enabled(par, s, TopStep(m)) && Shape(par, s')
    requires ApplyTop(s, m) == Fine(s') && n < |par| && Alone(par, s, n, noExcl) && IsLeaf(par, n)
    ensures Alone(par, s', n, noExcl)
  {
    hide Inv, Above, StartLoop;
    ServedFacts(par, s, m);
    assert LoadAt(par, m, s.nodes[m], n, noExcl);
    if s.nodes[m].acc.op.FromChild? {
      NobodyElse(par, s, m, n, noExcl);
    }
    forall k: nat | k < |par|
      ensures LoadAt(par, k, s'.nodes[k], n, noExcl)
    {
      assert LoadAt(par, k, s.nodes[k], n, noExcl);
    }
  }

  lemma DownAlone(par: seq<nat>, s: Sys, m: nat, s': Sys, n: nat, noExcl: bool)
    requires Inv(par, s) && Shape(par, s) && Enabled(par, s, DownDone(m)) && Shape(par, s')
    requires ApplyDownDone(s, m) == Fine(s') && n < |par| && Alone(par, s, n, noExcl) && IsLeaf(par, n)
    ensures Alone(par, s', n, noExcl)
  {
    hide Inv, Above, EndLoop;
    ServedFacts(par, s, m);
    assert LoadAt(par, m, s.nodes[m], n, noExcl);
    forall k: nat | k < |par|
      ensures LoadAt(par, k, s'.nodes[k], n, noExcl)
    {
      assert LoadAt(par, k, s.nodes[k], n, noExcl);
    }
  }

  lemma EndAlone(par: seq<nat>, s: Sys, m: nat, s': Sys, n: nat, noExcl: bool)
    requires Inv(par, s) && Shape(par, s) && Enabled(par, s, EndAccess(m)) && Shape(par, s')
    requires ApplyEnd(s, m) == Fine(s') && n < |par| && Alone(par, s, n, noExcl) && IsLeaf(par, n)
    ensures Alone(par, s', n, noExcl)
  {
    hide Inv, Above;
    ServedFacts(par, s, m);
    assert LoadAt(par, m, s.nodes[m], n, noExcl);
    if s.nodes[m].acc.op.FromChild? {
      var c := s.nodes[m].acc.op.child;
      assert LoadAt(par, c, s.nodes[c], n, noExcl);
      WaitingTyp(par, s, c);
    }
    forall k: nat | k < |par|
      ensures LoadAt(par, k, s'.nodes[k], n, noExcl)
    {
      assert LoadAt(par, k, s.nodes[k], n, noExcl);
    }
  }

  lemma StaysAlone(par: seq<nat>, s: Sys, step: Step, s': Sys, n: nat, noExcl: bool)
    requires Inv(par, s) && Shape(par, s) && Enabled(par, s, step) && Shape(par, s') && Apply(par, s, step) == Fine(s')
    requires n < |par| && Alone(par, s, n, noExcl) && IsLeaf(par, n) && !IsNew(step)
    ensures Alone(par, s', n, noExcl)
  {
    hide Inv, Alone, ApplyBottom, ApplyTop, ApplyDownDone, ApplyEnd, ApplyInvEnter, ApplyInvLeave, LockBottomNode;
    match step
    case BottomStep(m) => BottomAlone(par, s, m, s', n, noExcl);
    case TopStep(m) => TopAlone(par, s, m, s', n, noExcl);
    case DownDone(m) => DownAlone(par, s, m, s', n, noExcl);
    case EndAccess(m) => EndAlone(par, s, m, s', n, noExcl);
    case InvEnter(k) =>
      NobodyInvalidated(par, s, k, n, noExcl);
      assert false;
    case InvLeave(k) =>
      NotInvalidated(par, s, k, n, noExcl);
      assert false;
    case _ => QuietSteps(par, s, step, s', n, noExcl);
  }

  lemma NotInvalidated(par: seq<nat>, s: Sys, k: nat, n: nat, noExcl: bool)
    requires Shape(par, s) && n < |par| && k < |par| && Alone(par, s, n, noExcl)
    ensures s.nodes[k].inv.NoInv?
  {
    assert LoadAt(par, k, s.nodes[k], n, noExcl);
  }

  // ------------------------------------------------------------ the whole load

  /** No cache has a copy, and nothing is under way. */
  ghost predicate Untouched(s: Sys) {
    forall m: nat :: m < |s.nodes| ==> s.nodes[m].state == I && s.nodes[m].acc.Idle? && s.nodes[m].inv.NoInv?
  }

  lemma LoadStarts(par: seq<nat>, s: Sys, s': Sys, n: nat, noExcl: bool)
    requires Shape(par, s) && Shape(par, s') && Untouched(s) && Enabled(par, s, CoreStart(n, GETS, noExcl))
    requires Apply(par, s, CoreStart(n, GETS, noExcl)) == Fine(s')
    ensures n < |par| && IsLeaf(par, n) && Alone(par, s', n, noExcl)
  {
    assert Above(par, n, n);
    forall m: nat | m < |par|
      ensures LoadAt(par, m, s'.nodes[m], n, noExcl)
    {
    }
  }

  lemma {:induction false} RunStaysAlone(par: seq<nat>, states: seq<Sys>, steps: seq<Step>, i: nat, j: nat, n: nat,
                                         noExcl: bool)
    requires IsRun(par, states, steps) && i < j < |states| && Shape(par, states[i]) && Untouched(states[i])
    requires steps[i] == CoreStart(n, GETS, noExcl) && forall k :: i < k < j ==> !IsNew(steps[k])
    ensures n < |par| && IsLeaf(par, n) && Shape(par, states[j]) && Alone(par, states[j], n, noExcl)
    decreases j
  {
    hide Inv, Alone, Enabled, Apply, Init, Untouched;
    RunShape(par, states, steps, j);
    if j == i + 1 {
      LoadStarts(par, states[i], states[j], n, noExcl);
    } else {
      RunStaysAlone(par, states, steps, i, j - 1, n, noExcl);
      RunKeepsInv(par, states, steps, j - 1);
      StaysAlone(par, states[j - 1], steps[j - 1], states[j], n, noExcl);
    }
  }

  lemma RunShape(par: seq<nat>, states: seq<Sys>, steps: seq<Step>, i: nat)
    requires IsRun(par, states, steps) && i < |states|
    ensures Shape(par, states[i])
  {
    RunKeepsInv(par, states, steps, i);
  }

  /** A load that starts with no copy anywhere and nothing else under way, and meets nothing new,
      ends with every cache on its way in E, or in S if it must not take the line exclusively; no
      other cache has a copy. */
  lemma LoadTakesExclusive(par: seq<nat>, states: seq<Sys>, steps: seq<Step>, i: nat, j: nat, n: nat, noExcl: bool,
                           m: nat)
    requires IsRun(par, states, steps) && i < j < |states| && Shape(par, states[i]) && Untouched(states[i])
    requires steps[i] == CoreStart(n, GETS, noExcl) && forall k :: i < k < j ==> !IsNew(steps[k])
    requires n < |par| && |states[j].nodes| == |par| && states[j].nodes[n].acc.Idle? && m < |par|
    ensures states[j].nodes[m].state
            == if Above(par, m, n) then (if noExcl then S else E) else I
  {
    hide Inv, Enabled, Apply, Init, Untouched, Above;
    RunStaysAlone(par, states, steps, i, j, n, noExcl);
    RunKeepsInv(par, states, steps, j);
    assert LoadAt(par, m, states[j].nodes[m], n, noExcl);
    assert LoadAt(par, n, states[j].nodes[n], n, noExcl);
    if Above(par, m, n) {
      PermissionsShrink(par, states[j], m, n);
    }
  }
}
