/**
 Invalidations on their way down and back up, and the end of an access.
 */
module CoherenceInvalidations {
  import opened CacheTree
  import opened Mesi
  import opened Coherence
  import opened CoherenceInvariant
  import opened CoherenceSteps
  import opened CoherenceGrants

  // ------------------------------------------------------------ down

  function VisitNode(p: Node, n: nat): Node
    requires p.HasLoop()
  {
    p.SetLoop(p.TheLoop().(current := n))
  }

  function EnteredNode(node: Node, typ: InvType): Node {
    node.(inv := Inval(StartLoop(typ, node.dir)))
  }

  /** The parent's loop is ready to visit this child. */
  predicate Visits(p: Node, n: nat) {
    p.HasLoop() && p.TheLoop().current < 0 && n in p.TheLoop().todo
  }

  lemma EnterFacts(par: seq<nat>, p: nat, pn: Node, n: nat, node: Node)
    requires NodeOk(par, p, pn) && NodeOk(par, n, node) && EdgeOk(pn, node, n)
    requires IsChild(par, p, n) && Visits(pn, n) && !node.HoldsBottom()
    ensures node.present
    ensures NodeOk(par, p, VisitNode(pn, n)) && NodeOk(par, n, EnteredNode(node, pn.TheLoop().typ))
    ensures EdgeOk(VisitNode(pn, n), EnteredNode(node, pn.TheLoop().typ), n)
  {
    StartLoopOk(node, pn.TheLoop().typ);
  }

  lemma EnterUp(pp: Node, pn: Node, p: nat, n: nat)
    requires EdgeOk(pp, pn, p) && pn.HasLoop()
    ensures EdgeOk(pp, VisitNode(pn, n), p)
  {
  }

  lemma EnterOther(pn: Node, n: nat, other: Node, d: nat)
    requires EdgeOk(pn, other, d) && d != n && Visits(pn, n)
    ensures EdgeOk(VisitNode(pn, n), other, d)
  {
  }

  lemma EnterBelow(node: Node, typ: InvType, gc: Node, g: nat)
    requires EdgeOk(node, gc, g) && !node.HoldsBottom() && node.dir.numSharers == |node.dir.sharers|
    ensures EdgeOk(EnteredNode(node, typ), gc, g)
  {
    StartLoopOk(node, typ);
  }

  lemma EnterStep(par: seq<nat>, s: Sys, n: nat)
    requires Inv(par, s) && 0 < n < |par|
    requires Visits(s.nodes[par[n]], n) && !s.nodes[n].HoldsBottom()
    ensures s.nodes[n].present
    ensures var pn := s.nodes[par[n]];
            Inv(par, Set(Set(s, par[n], VisitNode(pn, n)), n, EnteredNode(s.nodes[n], pn.TheLoop().typ)))
  {
    var p := par[n];
    var pn, node := s.nodes[p], s.nodes[n];
    var pn', node' := VisitNode(pn, n), EnteredNode(node, pn.TheLoop().typ);
    assert node.dir.numSharers == |node.dir.sharers| by {
      assert NodeOk(par, n, node);
    }
    hide NodeOk, EdgeOk;
    EnterFacts(par, p, pn, n, node);
    forall d: nat | IsChild(par, p, d) && d != n
      ensures EdgeOk(pn', s.nodes[d], d)
    {
      EnterOther(pn, n, s.nodes[d], d);
    }
    forall g: nat | IsChild(par, n, g)
      ensures EdgeOk(node', s.nodes[g], g)
    {
      EnterBelow(node, pn.TheLoop().typ, s.nodes[g], g);
    }
    if p != 0 {
      EnterUp(s.nodes[par[p]], pn, p, n);
    }
    UpdateTwo(par, s, p, pn', n, node');
  }

  // ------------------------------------------------------------ back up

  /** A finished loop passes the assertions that follow it. */
  lemma EndLoopFine(node: Node, l: Loop)
    requires LoopOk(node, l) && l.Finished()
    ensures var r := EndLoop(l, node.dir);
            && r.Fine?
            && r.value.numSharers == |r.value.sharers|
            && r.value.sharers == node.dir.sharers
            && (l.typ == INV ==> r.value.sharers == {})
            && (l.typ == INVX && !l.skip ==> !r.value.exclusive)
            && (l.skip ==> r.value == node.dir)
            && (l.typ == INV ==> r.value.exclusive == node.dir.exclusive)
            && (l.typ == INVX ==> !r.value.IsExclusive())
  {
  }

  function LeftNode(node: Node, e: Entry, state: State): Node {
    node.(state := state, dir := e, inv := NoInv)
  }

  predicate Returns(pn: Node, node: Node, n: nat) {
    && node.inv.Inval? && node.inv.loop.Finished()
    && pn.HasLoop() && pn.TheLoop().current == n
  }

  lemma LeaveNode(par: seq<nat>, n: nat, pn: Node, node: Node)
    requires NodeOk(par, n, node) && EdgeOk(pn, node, n) && Returns(pn, node, n)
    requires LoopOk(pn, pn.TheLoop())
    ensures EndLoop(node.inv.loop, node.dir).Fine?
    ensures BottomInval(node.inv.loop.typ, node.state).Fine?
    ensures var e := EndLoop(node.inv.loop, node.dir).value;
            var r := BottomInval(node.inv.loop.typ, node.state).value;
            NodeOk(par, n, LeftNode(node, e, r.state))
  {
    EndLoopFine(node, node.inv.loop);
  }

  lemma LeaveParent(par: seq<nat>, p: nat, pn: Node, n: nat, node: Node, writeback: bool)
    requires NodeOk(par, p, pn) && EdgeOk(pn, node, n) && Returns(pn, node, n)
    requires writeback ==> Exclusive(node.state)
    ensures NodeOk(par, p, ChildAnswered(pn, n, writeback))
  {
    var l := pn.TheLoop();
    if l.typ == INVX {
      Singleton(l.todo, n);
    }
  }

  lemma LeaveEdge(pn: Node, n: nat, node: Node, e: Entry, writeback: bool)
    requires EdgeOk(pn, node, n) && Returns(pn, node, n) && LoopOk(pn, pn.TheLoop())
    requires pn.inv.Inval? ==> !pn.AccessHoldsBottom()
    requires PhaseOk(pn)
    requires BottomInval(node.inv.loop.typ, node.state).Fine?
    ensures var r := BottomInval(node.inv.loop.typ, node.state).value;
            EdgeOk(ChildAnswered(pn, n, writeback), LeftNode(node, e, r.state), n)
  {
    var l := pn.TheLoop();
    if l.typ == INVX {
      Singleton(l.todo, n);
    }
  }

  lemma LeaveOther(pn: Node, n: nat, other: Node, d: nat, writeback: bool)
    requires EdgeOk(pn, other, d) && d != n && pn.HasLoop() && pn.TheLoop().current == n
    requires LoopOk(pn, pn.TheLoop())
    ensures EdgeOk(ChildAnswered(pn, n, writeback), other, d)
  {
    var l := pn.TheLoop();
    if l.typ == INVX {
      Singleton(l.todo, n);
    }
  }

  lemma LeaveBelow(node: Node, gc: Node, g: nat, e: Entry, state: State)
    requires EdgeOk(node, gc, g) && node.inv.Inval? && node.inv.loop.Finished() && LoopOk(node, node.inv.loop)
    requires !node.AccessHoldsBottom()
    requires EndLoop(node.inv.loop, node.dir) == Fine(e)
    requires state == if node.inv.loop.typ == INV then I else S
    ensures EdgeOk(LeftNode(node, e, state), gc, g)
  {
    EndLoopFine(node, node.inv.loop);
  }

  lemma LeaveUp(pp: Node, pn: Node, p: nat, n: nat, writeback: bool)
    requires EdgeOk(pp, pn, p) && pn.HasLoop()
    ensures EdgeOk(pp, ChildAnswered(pn, n, writeback), p)
  {
  }

  lemma LeaveStep(par: seq<nat>, s: Sys, n: nat)
    requires Inv(par, s) && 0 < n < |par|
    requires Returns(s.nodes[par[n]], s.nodes[n], n)
    ensures EndLoop(s.nodes[n].inv.loop, s.nodes[n].dir).Fine?
    ensures BottomInval(s.nodes[n].inv.loop.typ, s.nodes[n].state).Fine?
    ensures var node := s.nodes[n];
            var e := EndLoop(node.inv.loop, node.dir).value;
            var r := BottomInval(node.inv.loop.typ, node.state).value;
            var pn' := ChildAnswered(s.nodes[par[n]], n, node.inv.loop.writeback || r.writeback);
            Inv(par, Set(Set(s, par[n], pn'), n, LeftNode(node, e, r.state)))
  {
    var p := par[n];
    var pn, node := s.nodes[p], s.nodes[n];
    assert IsChild(par, p, n);
    assert NodeOk(par, p, pn) && NodeOk(par, n, node) && EdgeOk(pn, node, n);
    LeaveNode(par, n, pn, node);
    var e := EndLoop(node.inv.loop, node.dir).value;
    var r := BottomInval(node.inv.loop.typ, node.state).value;
    var wb := node.inv.loop.writeback || r.writeback;
    var pn', node' := ChildAnswered(pn, n, wb), LeftNode(node, e, r.state);
    LeaveEdge(pn, n, node, e, wb);
    assert LoopOk(pn, pn.TheLoop()) && LoopOk(node, node.inv.loop) && !node.AccessHoldsBottom();
    LeaveParent(par, p, pn, n, node, wb);
    hide NodeOk, EdgeOk, LoopOk;
    forall d: nat | IsChild(par, p, d) && d != n
      ensures EdgeOk(pn', s.nodes[d], d)
    {
      LeaveOther(pn, n, s.nodes[d], d, wb);
    }
    forall g: nat | IsChild(par, n, g)
      ensures EdgeOk(node', s.nodes[g], g)
    {
      LeaveBelow(node, s.nodes[g], g, e, r.state);
    }
    if p != 0 {
      LeaveUp(s.nodes[par[p]], pn, p, n, wb);
    }
    UpdateTwo(par, s, p, pn', n, node');
  }

  // ------------------------------------------------------------ the end of a loop

  predicate LoopDone(node: Node) {
    node.acc.Down? && node.acc.loop.Finished()
  }

  /** A writeback is only pulled up to a cache with exclusive permission. */
  lemma AbsorbFine(node: Node)
    requires LoopDone(node) && LoopOk(node, node.acc.loop)
    ensures var r := AbsorbWriteback(node.acc.loop.writeback, node.state);
            && r.Fine?
            && (r.value == node.state || (Exclusive(node.state) && r.value == M))
            && (CarriesDirty(node) && node.inv.NoInv? ==> r.value == M)
  {
  }

  /** After its children are gone, an evicted line goes to the parent or is already gone. */
  lemma EvictedEdge(node: Node, node': Node, child: Node, c: nat)
    requires EdgeOk(node, child, c) && LoopDone(node) && node.acc.op.Eviction? && node.inv.NoInv?
    requires node.dir.sharers == node'.dir.sharers == {}
    requires node'.acc.Idle? || (node'.acc.Waiting? && node'.acc.op.Eviction?)
    requires node'.inv.NoInv?
    ensures EdgeOk(node', child, c)
  {
  }

  lemma EvictedStep(par: seq<nat>, s: Sys, n: nat, node': Node)
    requires Inv(par, s) && n < |par|
    requires LoopDone(s.nodes[n]) && s.nodes[n].acc.op.Eviction?
    requires node'.dir.sharers == {} && node'.inv.NoInv?
    requires node'.acc.Idle? || (node'.acc.Waiting? && node'.acc.op.Eviction?)
    requires NodeOk(par, n, node')
    requires n != 0 ==> EdgeOk(s.nodes[par[n]], node', n)
    requires s.written && CarriesDirty(s.nodes[n]) ==> CarriesDirty(node')
    ensures Inv(par, Set(s, n, node'))
  {
    var node := s.nodes[n];
    assert NodeOk(par, n, node);
    EndLoopFine(node, node.acc.loop);
    assert node.dir.sharers == {} && node.inv.NoInv?;
    hide NodeOk, EdgeOk, CarriesDirty;
    forall c: nat | IsChild(par, n, c)
      ensures EdgeOk(node', s.nodes[c], c)
    {
      EvictedEdge(node, node', s.nodes[c], c);
    }
    UpdateOne(par, s, n, node');
  }

  function GrantNode(node: Node, e: Entry, state: State, c: nat): Node
    requires node.acc.Down? && !node.acc.op.Eviction?
  {
    node.(state := state, dir := e.Add(c, node.acc.op.typ == GETX), acc := Ending(node.acc.op))
  }

  function GrantedState(typ: AccessType): State {
    if typ == GETX then M else S
  }

  lemma GrantFacts(par: seq<nat>, n: nat, node: Node, c: nat, child: Node)
    requires NodeOk(par, n, node) && NodeOk(par, c, child) && EdgeOk(node, child, c) && IsChild(par, n, c)
    requires LoopDone(node) && Serves(node, c)
    ensures child.acc.Waiting? && child.inv.NoInv? && !Exclusive(child.state)
    ensures IsGet(node.acc.op.typ)
    ensures EndLoop(node.acc.loop, node.dir).Fine? && AbsorbWriteback(node.acc.loop.writeback, node.state).Fine?
    ensures var e := EndLoop(node.acc.loop, node.dir).value;
            var state := AbsorbWriteback(node.acc.loop.writeback, node.state).value;
            && (node.acc.op.typ == GETS ==> !e.IsExclusive())
            && (node.acc.op.typ == GETX ==> e.numSharers == 0)
            && NodeOk(par, n, GrantNode(node, e, state, c))
            && NodeOk(par, c, child.(state := GrantedState(node.acc.op.typ)))
            && EdgeOk(GrantNode(node, e, state, c), child.(state := GrantedState(node.acc.op.typ)), c)
  {
    EndLoopFine(node, node.acc.loop);
    AbsorbFine(node);
  }

  lemma GrantOther(node: Node, c: nat, other: Node, d: nat, e: Entry, state: State)
    requires EdgeOk(node, other, d) && d != c && node.inv.NoInv?
    requires LoopDone(node) && LoopOk(node, node.acc.loop) && PhaseOk(node) && Serves(node, c)
    requires EndLoop(node.acc.loop, node.dir) == Fine(e)
    requires AbsorbWriteback(node.acc.loop.writeback, node.state) == Fine(state)
    ensures EdgeOk(GrantNode(node, e, state, c), other, d)
  {
    EndLoopFine(node, node.acc.loop);
    AbsorbFine(node);
  }

  lemma GrantStep(par: seq<nat>, s: Sys, n: nat, c: nat)
    requires Inv(par, s) && IsChild(par, n, c)
    requires LoopDone(s.nodes[n]) && Serves(s.nodes[n], c)
    ensures EndLoop(s.nodes[n].acc.loop, s.nodes[n].dir).Fine?
    ensures AbsorbWriteback(s.nodes[n].acc.loop.writeback, s.nodes[n].state).Fine?
    ensures var node := s.nodes[n];
            var e := EndLoop(node.acc.loop, node.dir).value;
            var state := AbsorbWriteback(node.acc.loop.writeback, node.state).value;
            && (node.acc.op.typ == GETS ==> !e.IsExclusive())
            && (node.acc.op.typ == GETX ==> e.numSharers == 0)
            && Inv(par, Set(Set(s, n, GrantNode(node, e, state, c)),
                            c, s.nodes[c].(state := GrantedState(node.acc.op.typ))))
  {
    var node, child := s.nodes[n], s.nodes[c];
    assert NodeOk(par, n, node);
    assert node.inv.NoInv? && PhaseOk(node) && LoopOk(node, node.acc.loop);
    AbsorbFine(node);
    hide NodeOk, EdgeOk, PhaseOk, LoopOk;
    GrantFacts(par, n, node, c, child);
    var e := EndLoop(node.acc.loop, node.dir).value;
    var state := AbsorbWriteback(node.acc.loop.writeback, node.state).value;
    var node', child' := GrantNode(node, e, state, c), child.(state := GrantedState(node.acc.op.typ));
    forall d: nat | IsChild(par, n, d) && d != c
      ensures EdgeOk(node', s.nodes[d], d)
    {
      GrantOther(node, c, s.nodes[d], d, e, state);
    }
    forall g: nat | IsChild(par, c, g)
      ensures EdgeOk(child', s.nodes[g], g)
    {
      GrandchildQuiet(child, child', s.nodes[g], g);
    }
    if n != 0 {
      UpQuiet(s.nodes[par[n]], node, node', n);
    }
    UpdateTwo(par, s, n, node', c, child');
  }

  // ------------------------------------------------------------ the end of an access

  lemma ResumeFacts(par: seq<nat>, n: nat, node: Node, c: nat, child: Node)
    requires NodeOk(par, n, node) && NodeOk(par, c, child) && EdgeOk(node, child, c)
    requires node.acc.Ending? && Serves(node, c)
    ensures child.acc.Waiting?
    ensures var r := Resume(child, child.acc.op, child.acc.typ);
            && r.Fine?
            && NodeOk(par, n, node.(acc := Idle)) && NodeOk(par, c, r.value)
            && EdgeOk(node.(acc := Idle), r.value, c)
            && (CarriesDirty(child) ==> CarriesDirty(r.value))
  {
  }

  lemma ResumeBelow(child: Node, child': Node, gc: Node, g: nat)
    requires EdgeOk(child, gc, g) && child.acc.Waiting?
    requires Resume(child, child.acc.op, child.acc.typ) == Fine(child')
    ensures EdgeOk(child', gc, g)
  {
  }

  lemma EndStep(par: seq<nat>, s: Sys, n: nat, c: nat)
    requires Inv(par, s) && IsChild(par, n, c)
    requires s.nodes[n].acc.Ending? && Serves(s.nodes[n], c)
    ensures s.nodes[c].acc.Waiting?
    ensures var r := Resume(s.nodes[c], s.nodes[c].acc.op, s.nodes[c].acc.typ);
            r.Fine? && Inv(par, Set(Set(s, n, s.nodes[n].(acc := Idle)), c, r.value))
  {
    var node, child := s.nodes[n], s.nodes[c];
    var node' := node.(acc := Idle);
    assert node.inv.NoInv? by {
      assert NodeOk(par, n, node);
    }
    hide NodeOk, EdgeOk, CarriesDirty;
    ResumeFacts(par, n, node, c, child);
    var child' := Resume(child, child.acc.op, child.acc.typ).value;
    forall d: nat | IsChild(par, n, d) && d != c
      ensures EdgeOk(node', s.nodes[d], d)
    {
      DownQuiet(node, node', s.nodes[d], d);
    }
    forall g: nat | IsChild(par, c, g)
      ensures EdgeOk(child', s.nodes[g], g)
    {
      ResumeBelow(child, child', s.nodes[g], g);
    }
    if n != 0 {
      UpQuiet(s.nodes[par[n]], node, node', n);
    }
    assert CarriesDirty(node) ==> CarriesDirty(node') by {
      SameDirty(node, node');
    }
    UpdateTwo(par, s, n, node', c, child');
  }

  lemma SameDirty(node: Node, node': Node)
    requires node.state == node'.state && node.inv == node'.inv && !node.acc.Down?
    ensures CarriesDirty(node) ==> CarriesDirty(node')
  {
  }

  /** A cache without children in the access moves on: its core's access, or none. */
  lemma CoreStep(par: seq<nat>, s: Sys, n: nat, acc: Access)
    requires Inv(par, s) && n < |par| && !s.nodes[n].acc.Idle? && s.nodes[n].acc.op.FromCore?
    requires s.nodes[n].acc.Top? || s.nodes[n].acc.Ending?
    requires acc == Ending(s.nodes[n].acc.op) || acc == Idle
    ensures Inv(par, Set(s, n, s.nodes[n].(acc := acc)))
  {
    var node := s.nodes[n];
    var node' := node.(acc := acc);
    assert NodeOk(par, n, node) ==> NodeOk(par, n, node') && IsLeaf(par, n);
    hide NodeOk, EdgeOk;
    assert forall c: nat :: !IsChild(par, n, c);
    if n != 0 {
      UpQuiet(s.nodes[par[n]], node, node', n);
    }
    UpdateOne(par, s, n, node');
  }
}
