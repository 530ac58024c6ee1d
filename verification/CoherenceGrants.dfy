/**
 The steps of the MESI hierarchy that change a cache and one of its children together on an
 access: the directory updates for a writeback and for a request.
 */
module CoherenceGrants {
  import opened CacheTree
  import opened Mesi
  import opened Coherence
  import opened CoherenceInvariant
  import opened CoherenceSteps

  lemma Singleton<T>(s: set<T>, x: T)
    requires x in s && |s| == 1
    ensures s == {x}
  {
    assert |s - {x}| == 0;
    assert s == {x} + (s - {x});
  }

  /** While the served child waits, nothing below it depends on the parent's phase. */
  lemma GrandchildQuiet(child: Node, child': Node, gc: Node, g: nat)
    requires EdgeOk(child, gc, g)
    requires child'.acc == child.acc && child'.inv == child.inv && child'.dir == child.dir
    requires child.acc.Waiting?
    requires NoLess(child.state, child'.state) || (child.dir.sharers == {})
    ensures EdgeOk(child', gc, g)
  {
  }

  // ------------------------------------------------------------ directory updates at once

  predicate AtTop(node: Node, c: nat) {
    node.acc.Top? && Serves(node, c)
  }

  function PutNode(node: Node, c: nat): Node
    requires node.acc.Top?
  {
    node.(dir := node.dir.Remove(c), acc := Ending(node.acc.op))
  }

  lemma PutFacts(par: seq<nat>, n: nat, node: Node, c: nat, child: Node)
    requires NodeOk(par, n, node) && NodeOk(par, c, child) && EdgeOk(node, child, c)
    requires AtTop(node, c) && !IsGet(node.acc.op.typ)
    ensures c in node.dir.sharers
    ensures node.acc.op.typ == PUTX ==> node.dir.IsExclusive()
    ensures NodeOk(par, n, PutNode(node, c)) && NodeOk(par, c, child.(state := I))
    ensures EdgeOk(PutNode(node, c), child.(state := I), c)
    ensures child.acc.Waiting? && child.dir.sharers == {} && child.inv.NoInv?
    ensures child.state == M ==> node.state == M
  {
  }

  lemma PutOther(node: Node, c: nat, other: Node, d: nat)
    requires EdgeOk(node, other, d) && d != c && AtTop(node, c) && node.inv.NoInv?
    requires c in node.dir.sharers
    ensures EdgeOk(PutNode(node, c), other, d)
  {
  }

  lemma PutStep(par: seq<nat>, s: Sys, n: nat, c: nat)
    requires Inv(par, s) && IsChild(par, n, c)
    requires AtTop(s.nodes[n], c) && !IsGet(s.nodes[n].acc.op.typ)
    ensures c in s.nodes[n].dir.sharers
    ensures s.nodes[n].acc.op.typ == PUTX ==> s.nodes[n].dir.IsExclusive()
    ensures Inv(par, Set(Set(s, n, PutNode(s.nodes[n], c)), c, s.nodes[c].(state := I)))
  {
    var node, child := s.nodes[n], s.nodes[c];
    assert node.inv.NoInv? by {
      assert NodeOk(par, n, node);
    }
    hide NodeOk, EdgeOk;
    PutFacts(par, n, node, c, child);
    forall d: nat | IsChild(par, n, d) && d != c
      ensures EdgeOk(PutNode(node, c), s.nodes[d], d)
    {
      PutOther(node, c, s.nodes[d], d);
    }
    forall g: nat | IsChild(par, c, g)
      ensures EdgeOk(child.(state := I), s.nodes[g], g)
    {
      GrandchildQuiet(child, child.(state := I), s.nodes[g], g);
    }
    if n != 0 {
      UpQuiet(s.nodes[par[n]], node, PutNode(node, c), n);
    }
    UpdateTwo(par, s, n, PutNode(node, c), c, child.(state := I));
  }

  function GrantExclusiveNode(node: Node, c: nat): Node
    requires node.acc.Top?
  {
    node.(dir := Entry(1, node.dir.sharers + {c}, true), acc := Ending(node.acc.op))
  }

  lemma GrantExclusiveFacts(par: seq<nat>, n: nat, node: Node, c: nat, child: Node)
    requires NodeOk(par, n, node) && NodeOk(par, c, child) && EdgeOk(node, child, c) && IsChild(par, n, c)
    requires AtTop(node, c) && node.acc.op.typ == GETS && node.dir.IsEmpty() && Exclusive(node.state)
    ensures node.dir.sharers == {} && child.state == I && child.acc.Waiting? && child.inv.NoInv?
    ensures NodeOk(par, n, GrantExclusiveNode(node, c)) && NodeOk(par, c, child.(state := E))
    ensures EdgeOk(GrantExclusiveNode(node, c), child.(state := E), c)
  {
  }

  lemma GrantExclusiveOther(node: Node, c: nat, other: Node, d: nat)
    requires EdgeOk(node, other, d) && d != c && AtTop(node, c) && node.inv.NoInv?
    requires node.dir.sharers == {}
    ensures EdgeOk(GrantExclusiveNode(node, c), other, d)
  {
  }

  lemma GrantExclusiveStep(par: seq<nat>, s: Sys, n: nat, c: nat)
    requires Inv(par, s) && IsChild(par, n, c)
    requires AtTop(s.nodes[n], c) && s.nodes[n].acc.op.typ == GETS
    requires s.nodes[n].dir.IsEmpty() && Exclusive(s.nodes[n].state)
    ensures Inv(par, Set(Set(s, n, GrantExclusiveNode(s.nodes[n], c)), c, s.nodes[c].(state := E)))
  {
    var node, child := s.nodes[n], s.nodes[c];
    assert node.inv.NoInv? by {
      assert NodeOk(par, n, node);
    }
    hide NodeOk, EdgeOk;
    GrantExclusiveFacts(par, n, node, c, child);
    forall d: nat | IsChild(par, n, d) && d != c
      ensures EdgeOk(GrantExclusiveNode(node, c), s.nodes[d], d)
    {
      GrantExclusiveOther(node, c, s.nodes[d], d);
    }
    forall g: nat | IsChild(par, c, g)
      ensures EdgeOk(child.(state := E), s.nodes[g], g)
    {
      GrandchildQuiet(child, child.(state := E), s.nodes[g], g);
    }
    if n != 0 {
      UpQuiet(s.nodes[par[n]], node, GrantExclusiveNode(node, c), n);
    }
    UpdateTwo(par, s, n, GrantExclusiveNode(node, c), c, child.(state := E));
  }

  // ------------------------------------------------------------ sending invalidations

  /** The requester leaves the sharers before the others are invalidated. */
  function GetDownNode(node: Node, c: nat): Node
    requires node.acc.Top? && !node.acc.op.Eviction?
  {
    var e := if node.acc.op.typ == GETX && c in node.dir.sharers then node.dir.Remove(c) else node.dir;
    node.(dir := e, acc := Down(node.acc.op, StartLoop(if node.acc.op.typ == GETX then INV else INVX, e)))
  }

  lemma GetDownFacts(par: seq<nat>, n: nat, node: Node, c: nat, child: Node)
    requires NodeOk(par, n, node) && EdgeOk(node, child, c)
    requires AtTop(node, c) && IsGet(node.acc.op.typ)
    ensures node.acc.op.typ == GETX ==> Exclusive(node.state) && (c in node.dir.sharers ==> !node.dir.IsExclusive())
    ensures node.acc.op.typ == GETS ==> c !in node.dir.sharers
    ensures NodeOk(par, n, GetDownNode(node, c)) && EdgeOk(GetDownNode(node, c), child, c)
    ensures c in node.dir.sharers ==> !node.dir.exclusive
  {
    var e := GetDownNode(node, c).dir;
    assert e.numSharers == |e.sharers|;
    StartLoopOk(node.(dir := e), if node.acc.op.typ == GETX then INV else INVX);
  }

  lemma GetDownStep(par: seq<nat>, s: Sys, n: nat, c: nat)
    requires Inv(par, s) && IsChild(par, n, c)
    requires AtTop(s.nodes[n], c) && IsGet(s.nodes[n].acc.op.typ)
    ensures var node := s.nodes[n];
            && (node.acc.op.typ == GETX ==>
                  Exclusive(node.state) && (c in node.dir.sharers ==> !node.dir.IsExclusive()))
            && (node.acc.op.typ == GETS ==> c !in node.dir.sharers)
    ensures Inv(par, Set(s, n, GetDownNode(s.nodes[n], c)))
  {
    var node := s.nodes[n];
    var node' := GetDownNode(node, c);
    assert !node.HasLoop() && node.dir.numSharers == |node.dir.sharers| by {
      assert NodeOk(par, n, node);
    }
    StartLoopOk(node.(dir := node'.dir), node'.acc.loop.typ) by {
      assert node'.dir.numSharers == |node'.dir.sharers|;
    }
    forall d: nat | IsChild(par, n, d) && d != c
      ensures c in node.dir.sharers ==> node.dir.sharers != {d}
    {
    }
    hide NodeOk, EdgeOk;
    GetDownFacts(par, n, node, c, s.nodes[c]);
    forall d: nat | IsChild(par, n, d)
      ensures EdgeOk(node', s.nodes[d], d)
    {
      if d != c {
        DownLoopStarts(node, node', s.nodes[d], d);
      }
    }
    if n != 0 {
      UpQuiet(s.nodes[par[n]], node, node', n);
    }
    UpdateOne(par, s, n, node');
  }
}
