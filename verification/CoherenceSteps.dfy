/**
 Every step of the MESI hierarchy keeps the invariant and meets every controller
 assertion on its way. The lemmas come in pairs: facts about the two caches at the ends
 of an edge, and the step that puts the edges together.
 */
module CoherenceSteps {
  import opened CacheTree
  import opened Mesi
  import opened Coherence
  import opened CoherenceInvariant

  // ------------------------------------------------------------ facts about edges

  /** The parent does not see a child's progress while it has no request out. */
  lemma UpQuiet(pp: Node, node: Node, node': Node, n: nat)
    requires EdgeOk(pp, node, n)
    requires !node.acc.Waiting? && !node'.acc.Waiting?
    requires node'.inv == node.inv
    requires node'.state == node.state || (Exclusive(node.state) && Exclusive(node'.state))
    ensures EdgeOk(pp, node', n)
  {
  }

  /** A child starts to wait in the state it has just recorded. */
  lemma UpWaits(pp: Node, node: Node, node': Node, n: nat)
    requires EdgeOk(pp, node, n)
    requires !node.acc.Waiting? && node'.acc.Waiting?
    requires node'.inv == node.inv
    requires node'.state == node.state || (Exclusive(node.state) && Exclusive(node'.state))
    requires node'.acc.initial == node'.state
    requires RaceOk(node'.acc.typ, node'.state, node'.state)
    ensures EdgeOk(pp, node', n)
  {
  }

  /** The second state grants at least what the first one does. */
  predicate NoLess(before: State, after: State) {
    (before != I ==> after != I) && (Exclusive(before) ==> Exclusive(after))
  }

  /** A child that is not being served does not see the parent's phase. */
  lemma DownQuiet(node: Node, node': Node, child: Node, c: nat)
    requires EdgeOk(node, child, c)
    requires !Serves(node, c) && !Serves(node', c)
    requires node'.inv == node.inv && node'.dir == node.dir
    requires !node.acc.Down? && !node'.acc.Down?
    requires NoLess(node.state, node'.state)
    ensures EdgeOk(node', child, c)
  {
  }

  /** Between the race check and the directory update the phases look alike from below. */
  predicate Middle(acc: Access) {
    acc.Running? || acc.Displacing? || acc.Waiting? || acc.Top?
  }

  lemma DownMiddle(node: Node, node': Node, child: Node, c: nat)
    requires EdgeOk(node, child, c)
    requires Middle(node.acc) && Middle(node'.acc) && node.acc.op == node'.acc.op
    requires node'.inv == node.inv && node'.dir == node.dir
    requires NoLess(node.state, node'.state)
    ensures EdgeOk(node', child, c)
  {
  }

  /** The step of a cache between the race check and the directory update. */
  lemma MiddleStep(par: seq<nat>, s: Sys, n: nat, node': Node)
    requires Inv(par, s) && n < |par|
    requires var node := s.nodes[n];
             && Middle(node.acc) && Middle(node'.acc) && node.acc.op == node'.acc.op
             && node'.inv == node.inv && node'.dir == node.dir
             && NoLess(node.state, node'.state)
    requires CarriesDirty(s.nodes[n]) ==> CarriesDirty(node')
    requires NodeOk(par, n, node')
    requires n != 0 ==> EdgeOk(s.nodes[par[n]], node', n)
    ensures Inv(par, Set(s, n, node'))
  {
    hide NodeOk, EdgeOk, CarriesDirty;
    forall c: nat | IsChild(par, n, c)
      ensures EdgeOk(node', s.nodes[c], c)
    {
      DownMiddle(s.nodes[n], node', s.nodes[c], c);
    }
    UpdateOne(par, s, n, node');
  }

  // ------------------------------------------------------------ starting an access

  lemma StartStep(par: seq<nat>, s: Sys, n: nat, op: Op)
    requires Inv(par, s) && n < |par| && s.nodes[n].acc.Idle?
    requires !op.FromChild? && OpOk(par, n, op)
    ensures Inv(par, Set(s, n, s.nodes[n].(acc := Entered(op))))
  {
    var node := s.nodes[n];
    var node' := node.(acc := Entered(op));
    assert NodeOk(par, n, node) ==> NodeOk(par, n, node');
    hide NodeOk, EdgeOk;
    forall c: nat | IsChild(par, n, c)
      ensures EdgeOk(node', s.nodes[c], c)
    {
      DownQuiet(node, node', s.nodes[c], c);
    }
    if n != 0 {
      UpQuiet(s.nodes[par[n]], node, node', n);
    }
    UpdateOne(par, s, n, node');
  }

  lemma RequestStartEdge(pn: Node, n: nat, noExcl: bool, child: Node)
    requires pn.acc.Idle? && child.acc.Waiting? && EdgeOk(pn, child, n)
    ensures EdgeOk(pn.(acc := Entered(FromChild(n, child.acc.typ, noExcl))), child, n)
  {
  }

  lemma RequestStartStep(par: seq<nat>, s: Sys, n: nat, noExcl: bool)
    requires Inv(par, s) && 0 < n < |par|
    requires s.nodes[n].acc.Waiting? && s.nodes[par[n]].acc.Idle?
    ensures Inv(par, Set(s, par[n], s.nodes[par[n]].(acc := Entered(FromChild(n, s.nodes[n].acc.typ, noExcl)))))
  {
    var p := par[n];
    var pn := s.nodes[p];
    var pn' := pn.(acc := Entered(FromChild(n, s.nodes[n].acc.typ, noExcl)));
    assert NodeOk(par, p, pn) && IsChild(par, p, n) ==> NodeOk(par, p, pn');
    hide NodeOk, EdgeOk;
    forall c: nat | IsChild(par, p, c)
      ensures EdgeOk(pn', s.nodes[c], c)
    {
      if c == n {
        RequestStartEdge(pn, n, noExcl, s.nodes[n]);
      } else {
        DownQuiet(pn, pn', s.nodes[c], c);
      }
    }
    if p != 0 {
      UpQuiet(s.nodes[par[p]], pn, pn', p);
    }
    UpdateOne(par, s, p, pn');
  }

  // ------------------------------------------------------------ the race check

  /** Whatever happened to the child while its request waited, the race check neither
      panics nor leaves the request inconsistent with the child's state. */
  lemma RaceHandled(typ: AccessType, initial: State, state: State)
    requires RaceOk(typ, initial, state)
    ensures var r := CheckForMESIRace(typ, state, initial);
            && r.Fine?
            && (r.value.skip <==> !IsGet(typ) && state == I)
            && (!r.value.skip ==> Settled(r.value.typ, state))
            && (r.value.skip ==> Granted(typ, state))
            && (r.value.typ == typ || (typ == PUTX && r.value.typ == PUTS))
  {
  }

  lemma LockBottomEdge(node: Node, child: Node, c: nat)
    requires node.acc.Entered? && Serves(node, c) && node.inv.NoInv? && EdgeOk(node, child, c)
    ensures var r := LockBottomNode(node, child.acc, child.state);
            r.Fine? && EdgeOk(r.value, child, c)
  {
    RaceHandled(child.acc.typ, child.acc.initial, child.state);
  }

  lemma LockBottomStep(par: seq<nat>, s: Sys, n: nat, child: Node)
    requires Inv(par, s) && n < |par|
    requires s.nodes[n].acc.Entered? && s.nodes[n].inv.NoInv?
    requires var op := s.nodes[n].acc.op;
             op.FromChild? ==> op.child < |par| && child == s.nodes[op.child]
    ensures var r := LockBottomNode(s.nodes[n], child.acc, child.state);
            r.Fine? && Inv(par, Set(s, n, r.value))
  {
    var node := s.nodes[n];
    var op := node.acc.op;
    assert NodeOk(par, n, node);
    if op.FromChild? {
      LockBottomEdge(node, child, op.child);
    }
    var node' := LockBottomNode(node, child.acc, child.state).value;
    assert NodeOk(par, n, node');
    hide NodeOk, EdgeOk;
    forall c: nat | IsChild(par, n, c)
      ensures EdgeOk(node', s.nodes[c], c)
    {
      if !Serves(node, c) {
        DownQuiet(node, node', s.nodes[c], c);
      }
    }
    if n != 0 {
      UpQuiet(s.nodes[par[n]], node, node', n);
    }
    UpdateOne(par, s, n, node');
  }

  // ------------------------------------------------------------ making space

  lemma DropStep(par: seq<nat>, s: Sys, n: nat)
    requires Inv(par, s) && n < |par|
    requires var node := s.nodes[n];
             node.acc.Running? && !node.acc.op.Eviction? && IsGet(node.acc.op.typ) && !node.present
    ensures Inv(par, Set(s, n, s.nodes[n].(acc := Displacing(s.nodes[n].acc.op))))
  {
    var node := s.nodes[n];
    var node' := node.(acc := Displacing(node.acc.op));
    assert NodeOk(par, n, node) ==> NodeOk(par, n, node');
    hide NodeOk, EdgeOk;
    if n != 0 {
      UpQuiet(s.nodes[par[n]], node, node', n);
    }
    MiddleStep(par, s, n, node');
  }

  /** The new line inherits an empty entry whose exclusive flag may be stale. */
  lemma AllocateEdge(node: Node, node': Node, child: Node, c: nat)
    requires EdgeOk(node, child, c)
    requires Middle(node.acc) && Middle(node'.acc) && node.acc.op == node'.acc.op
    requires node'.inv == node.inv && node'.state == node.state
    requires node.dir.sharers == node'.dir.sharers == {}
    ensures EdgeOk(node', child, c)
  {
  }

  lemma AllocateStep(par: seq<nat>, s: Sys, n: nat, stale: bool)
    requires Inv(par, s) && n < |par|
    requires (s.nodes[n].acc.Running? && !s.nodes[n].present) || (s.nodes[n].acc.Displacing? && s.nodes[n].inv.NoInv?)
    ensures var node := s.nodes[n];
            Inv(par, Set(s, n, node.(present := true, dir := Entry(0, {}, stale), acc := Running(node.acc.op))))
  {
    var node := s.nodes[n];
    var node' := node.(present := true, dir := Entry(0, {}, stale), acc := Running(node.acc.op));
    assert NodeOk(par, n, node);
    assert NodeOk(par, n, node');
    hide NodeOk, EdgeOk;
    forall c: nat | IsChild(par, n, c)
      ensures EdgeOk(node', s.nodes[c], c)
    {
      AllocateEdge(node, node', s.nodes[c], c);
    }
    if n != 0 {
      UpQuiet(s.nodes[par[n]], node, node', n);
    }
    UpdateOne(par, s, n, node');
  }

  // ------------------------------------------------------------ the bottom controller

  /** The controller's assertions on a request that has passed the race check. */
  lemma BottomFine(par: seq<nat>, s: Sys, n: nat)
    requires Inv(par, s) && n < |par|
    requires var node := s.nodes[n];
             node.acc.Running? && !node.acc.op.Eviction? && (node.present || !IsGet(node.acc.op.typ))
    ensures var node := s.nodes[n];
            && (IsGet(node.acc.op.typ) || (node.present && node.state != I))
            && var r := BottomAccess(node.acc.op.typ, node.state);
            && r.Fine?
            && (r.value.Hit? ==> NoLess(node.state, r.value.state) && (node.state == M ==> r.value.state == M))
            && (r.value.Hit? ==> NodeOk(par, n, node.(state := r.value.state, acc := Top(node.acc.op))))
            && (r.value.Miss? ==> IsGet(node.acc.op.typ) && RaceOk(node.acc.op.typ, node.state, node.state))
  {
    var node := s.nodes[n];
    assert NodeOk(par, n, node);
    if node.acc.op.FromChild? {
      var c := node.acc.op.child;
      assert EdgeOk(node, s.nodes[c], c);
    }
  }

  lemma BottomHitStep(par: seq<nat>, s: Sys, n: nat, state: State)
    requires Inv(par, s) && n < |par| && s.nodes[n].acc.Running?
    requires var node := s.nodes[n];
             && (state == node.state || (Exclusive(node.state) && state == M))
             && NodeOk(par, n, node.(state := state, acc := Top(node.acc.op)))
    ensures Inv(par, Set(s, n, s.nodes[n].(state := state, acc := Top(s.nodes[n].acc.op))))
  {
    var node := s.nodes[n];
    var node' := node.(state := state, acc := Top(node.acc.op));
    hide NodeOk, EdgeOk;
    if n != 0 {
      UpQuiet(s.nodes[par[n]], node, node', n);
    }
    MiddleStep(par, s, n, node');
  }

  lemma BottomMissStep(par: seq<nat>, s: Sys, n: nat)
    requires Inv(par, s) && 0 < n < |par|
    requires var node := s.nodes[n];
             && node.acc.Running? && !node.acc.op.Eviction? && node.present
             && IsGet(node.acc.op.typ) && RaceOk(node.acc.op.typ, node.state, node.state)
    ensures var node := s.nodes[n];
            Inv(par, Set(s, n, node.(acc := Waiting(node.acc.op, node.acc.op.typ, node.state))))
  {
    var node := s.nodes[n];
    var node' := node.(acc := Waiting(node.acc.op, node.acc.op.typ, node.state));
    assert NodeOk(par, n, node) ==> NodeOk(par, n, node');
    hide NodeOk, EdgeOk;
    UpWaits(s.nodes[par[n]], node, node', n);
    MiddleStep(par, s, n, node');
  }

  lemma BottomRootStep(par: seq<nat>, s: Sys, state: State)
    requires Inv(par, s)
    requires var node := s.nodes[0];
             && node.acc.Running? && !node.acc.op.Eviction? && node.present
             && IsGet(node.acc.op.typ) && RaceOk(node.acc.op.typ, node.state, node.state)
             && Granted(node.acc.op.typ, state)
    ensures Inv(par, Set(s, 0, s.nodes[0].(state := state, acc := Top(s.nodes[0].acc.op))))
  {
    var node := s.nodes[0];
    var node' := node.(state := state, acc := Top(node.acc.op));
    assert NodeOk(par, 0, node) ==> NodeOk(par, 0, node');
    hide NodeOk, EdgeOk;
    MiddleStep(par, s, 0, node');
  }

  // ------------------------------------------------------------ starting invalidations

  lemma StartLoopOk(node: Node, typ: InvType)
    requires node.dir.numSharers == |node.dir.sharers|
    ensures LoopOk(node, StartLoop(typ, node.dir))
    ensures var l := StartLoop(typ, node.dir);
            l.typ == INVX && !l.skip ==> l.todo != {}
  {
  }

  /** Seen from a child that is not served, a loop that has not visited anyone is silent. */
  lemma DownLoopStarts(node: Node, node': Node, child: Node, c: nat)
    requires EdgeOk(node, child, c)
    requires !Serves(node, c) && !Serves(node', c)
    requires !node.HasLoop() && node'.acc.Down? && node'.inv.NoInv? && node'.state == node.state
    requires node'.dir.exclusive == node.dir.exclusive
    requires c in node'.dir.sharers <==> c in node.dir.sharers
    requires node.dir.sharers == {c} ==> node'.dir.sharers == {c}
    requires node'.acc.loop.current < 0
    requires node'.acc.loop.typ == INVX && !node'.acc.loop.skip ==> node'.acc.loop.todo != {}
    ensures EdgeOk(node', child, c)
  {
  }

  lemma EvictDownStep(par: seq<nat>, s: Sys, n: nat)
    requires Inv(par, s) && n < |par|
    requires s.nodes[n].acc == Running(Eviction)
    ensures var node := s.nodes[n];
            Inv(par, Set(s, n, node.(acc := if node.present then Down(Eviction, StartLoop(INV, node.dir)) else Idle)))
  {
    var node := s.nodes[n];
    var node' := node.(acc := if node.present then Down(Eviction, StartLoop(INV, node.dir)) else Idle);
    assert NodeOk(par, n, node);
    StartLoopOk(node, INV);
    assert NodeOk(par, n, node');
    hide NodeOk, EdgeOk;
    forall c: nat | IsChild(par, n, c)
      ensures EdgeOk(node', s.nodes[c], c)
    {
      if node.present {
        DownLoopStarts(node, node', s.nodes[c], c);
      } else {
        DownQuiet(node, node', s.nodes[c], c);
      }
    }
    if n != 0 {
      UpQuiet(s.nodes[par[n]], node, node', n);
    }
    UpdateOne(par, s, n, node');
  }
}
