/**
 The invariant of the MESI hierarchy. It is local: one predicate per cache and one per
 edge between a cache and its child, so a step that changes a cache and perhaps one child
 only has to look at the edges around them.
 */
module CoherenceInvariant {
  import opened CacheTree
  import opened Mesi
  import opened Coherence

  /** The access at `p` serves a request of child `c`. */
  predicate Serves(p: Node, c: nat) {
    !p.acc.Idle? && p.acc.op.FromChild? && p.acc.op.child == c
  }

  /** `c` asked for exclusive permission and has been taken out of the sharers. */
  predicate Upgrading(p: Node, c: nat) {
    p.acc.Down? && Serves(p, c) && p.acc.op.typ == GETX
  }

  /** The exclusive sharer has answered a downgrade whose bookkeeping is still to come. */
  predicate Downgraded(p: Node) {
    p.HasLoop() && p.TheLoop().typ == INVX && !p.TheLoop().skip && p.TheLoop().todo == {}
  }

  /** The states a waiting child can be in, given what it recorded when it sent the request. */
  predicate RaceOk(typ: AccessType, initial: State, state: State) {
    match typ
    case GETS => initial == I && state == I
    case GETX => (initial == I || initial == S) && (state == initial || state == I)
    case PUTS => (initial == S || initial == E) && (state == initial || state == I || state == S)
    case PUTX => initial == M && (state == M || state == I || state == S)
  }

  /** The states of the child once its request has passed the race check. */
  predicate Settled(typ: AccessType, state: State) {
    match typ
    case GETS => state == I
    case GETX => state == I || state == S
    case PUTS => state == S || state == E
    case PUTX => state == M
  }

  // ---------------------------------------------------------------- one cache

  predicate LoopOk(node: Node, l: Loop) {
    && 0 <= l.sent
    && (l.current >= 0 ==> l.current in l.todo)
    && (l.writeback ==> Exclusive(node.state))
    && (if l.skip then
          l.typ == INVX && l.todo == {} && !l.writeback
          && node.dir.numSharers == |node.dir.sharers| && !node.dir.IsExclusive()
        else if l.typ == INV then
          l.todo == node.dir.sharers && l.sent + |l.todo| == node.dir.numSharers
        else
          node.dir.IsExclusive() && |node.dir.sharers| == 1
          && ((l.todo == node.dir.sharers && l.sent == 0) || (l.todo == {} && l.sent == 1)))
  }

  predicate DirOk(node: Node) {
    if node.HasLoop() then LoopOk(node, node.TheLoop())
    else node.dir.numSharers == |node.dir.sharers|
  }

  ghost predicate OpOk(par: seq<nat>, n: nat, op: Op) {
    match op
    case FromChild(c, _, _) => IsChild(par, n, c)
    case FromCore(typ, _) => IsLeaf(par, n) && IsGet(typ)
    case Eviction => true
  }

  ghost predicate PhaseOk(node: Node) {
    match node.acc
    case Displacing(op) => !op.Eviction? && IsGet(op.typ) && !node.present
    case Waiting(op, typ, _) =>
      && node.present
      && (if op.Eviction? then !IsGet(typ) && node.dir.sharers == {} else IsGet(typ) && op.typ == typ)
    case Top(op) =>
      !op.Eviction? && (if op.typ == GETX || op.typ == PUTX then node.state == M else node.state != I)
    case Down(op, l) =>
      && node.present
      && (match op
          case Eviction => l.typ == INV
          case FromChild(_, typ, _) =>
            (typ == GETS && l.typ == INVX && node.state != I) || (typ == GETX && l.typ == INV && node.state == M)
          case FromCore(_, _) => false)
    case Ending(op) => !op.Eviction?
    case _ => true
  }

  ghost predicate NodeOk(par: seq<nat>, n: nat, node: Node) {
    && (forall c :: c in node.dir.sharers ==> IsChild(par, n, c))
    && (node.state != I ==> node.present)
    && (!node.present ==> node.dir.sharers == {})
    && (node.inv.Inval? ==> !node.AccessHoldsBottom())
    && (n == 0 ==> node.inv.NoInv? && !node.acc.Waiting?)
    && (!node.acc.Idle? ==> OpOk(par, n, node.acc.op))
    && PhaseOk(node)
    && DirOk(node)
  }

  // ---------------------------------------------------------------- one edge

  /** The directory is exact, and the child's permissions never exceed the parent's. */
  predicate DirectoryOk(p: Node, child: Node, c: nat) {
    && (if Upgrading(p, c)
        then c !in p.dir.sharers && (child.state == I || (child.state == S && !p.dir.exclusive))
        else c in p.dir.sharers <==> child.state != I)
    && (Exclusive(child.state) ==> p.dir.exclusive && p.dir.sharers == {c} && Exclusive(p.state))
    && (c in p.dir.sharers && child.state == S && !Downgraded(p) ==> !p.dir.exclusive)
    && (c in p.dir.sharers && Downgraded(p) ==> child.state == S)
    && (child.state != I ==> p.state != I)
  }

  predicate RequestOk(acc: Access, child: Node)
    requires !acc.Idle? && acc.op.FromChild? && child.acc.Waiting?
  {
    match acc
    case Entered(op) => op.typ == child.acc.typ
    case Ending(_) => true
    case _ =>
      && Settled(acc.op.typ, child.state)
      && (acc.op.typ == child.acc.typ || (acc.op.typ == PUTS && child.acc.typ == PUTX))
  }

  predicate WaitOk(p: Node, child: Node, c: nat)
    requires child.acc.Waiting?
  {
    if Serves(p, c) && p.acc.Ending? then Granted(child.acc.typ, child.state)
    else RaceOk(child.acc.typ, child.acc.initial, child.state)
  }

  predicate InvLinkOk(p: Node, child: Node, c: nat) {
    && (child.inv.Inval? <==> p.HasLoop() && p.TheLoop().current == c)
    && (child.inv.Inval? ==> child.inv.loop.typ == p.TheLoop().typ)
  }

  predicate EdgeOk(p: Node, child: Node, c: nat) {
    && DirectoryOk(p, child, c)
    && (Serves(p, c) ==> child.acc.Waiting? && RequestOk(p.acc, child))
    && (child.acc.Waiting? ==> WaitOk(p, child, c))
    && InvLinkOk(p, child, c)
  }

  // ---------------------------------------------------------------- the whole tree

  ghost predicate NodesOk(par: seq<nat>, s: Sys)
    requires Shape(par, s)
  {
    forall n: nat | n < |par| :: NodeOk(par, n, s.nodes[n])
  }

  ghost predicate EdgesOk(par: seq<nat>, s: Sys)
    requires Shape(par, s)
  {
    forall c: nat | 0 < c < |par| :: EdgeOk(s.nodes[par[c]], s.nodes[c], c)
  }

  /** This cache, or an invalidation passing through it, carries the dirty data. */
  predicate CarriesDirty(node: Node) {
    node.state == M || (node.HasLoop() && node.TheLoop().writeback)
  }

  /** A cache between the last writer and memory carries what was written. */
  ghost predicate DirtyOnPath(par: seq<nat>, s: Sys, writer: nat)
    requires Shape(par, s)
  {
    writer < |par| && exists n: nat :: n < |par| && Above(par, n, writer) && CarriesDirty(s.nodes[n])
  }

  ghost predicate DirtyKept(par: seq<nat>, s: Sys)
    requires Shape(par, s)
  {
    s.written ==> DirtyOnPath(par, s, s.writer)
  }

  ghost predicate Inv(par: seq<nat>, s: Sys) {
    && Shape(par, s)
    && NodesOk(par, s)
    && EdgesOk(par, s)
    && DirtyKept(par, s)
  }

  lemma InitInv(par: seq<nat>, s: Sys)
    requires IsTree(par) && Init(par, s)
    ensures Inv(par, s)
  {
    forall n: nat | n < |par|
      ensures s.nodes[n] == EMPTY_NODE
    {
    }
  }

  // ---------------------------------------------------------------- locality

  /** One cache may change if it and the edges around it stay right and it does not drop
      the dirty data. */
  lemma UpdateOne(par: seq<nat>, s: Sys, n: nat, node: Node)
    requires Inv(par, s) && n < |par|
    requires NodeOk(par, n, node)
    requires n != 0 ==> EdgeOk(s.nodes[par[n]], node, n)
    requires forall c: nat | IsChild(par, n, c) :: EdgeOk(node, s.nodes[c], c)
    requires s.written && CarriesDirty(s.nodes[n]) ==> CarriesDirty(node)
    ensures Inv(par, Set(s, n, node))
  {
    hide NodeOk, EdgeOk, CarriesDirty;
    var s' := Set(s, n, node);
    forall c: nat | 0 < c < |par|
      ensures EdgeOk(s'.nodes[par[c]], s'.nodes[c], c)
    {
      assert EdgeOk(s.nodes[par[c]], s.nodes[c], c);
      assert par[c] == n ==> IsChild(par, n, c);
    }
    if s.written {
      var k: nat :| k < |par| && Above(par, k, s.writer) && CarriesDirty(s.nodes[k]);
      assert CarriesDirty(s'.nodes[k]);
    }
  }

  /** A cache and one of its children may change together. */
  lemma UpdateTwo(par: seq<nat>, s: Sys, p: nat, pn: Node, c: nat, cn: Node)
    requires Inv(par, s) && IsChild(par, p, c)
    requires NodeOk(par, p, pn) && NodeOk(par, c, cn)
    requires p != 0 ==> EdgeOk(s.nodes[par[p]], pn, p)
    requires EdgeOk(pn, cn, c)
    requires forall d: nat | IsChild(par, p, d) && d != c :: EdgeOk(pn, s.nodes[d], d)
    requires forall g: nat | IsChild(par, c, g) :: EdgeOk(cn, s.nodes[g], g)
    requires CarriesDirty(s.nodes[p]) ==> CarriesDirty(pn)
    requires CarriesDirty(s.nodes[c]) ==> CarriesDirty(pn) || CarriesDirty(cn)
    ensures Inv(par, Set(Set(s, p, pn), c, cn))
  {
    hide NodeOk, EdgeOk, CarriesDirty;
    var s' := Set(Set(s, p, pn), c, cn);
    assert p < c;
    forall d: nat | 0 < d < |par|
      ensures EdgeOk(s'.nodes[par[d]], s'.nodes[d], d)
    {
      assert EdgeOk(s.nodes[par[d]], s.nodes[d], d);
      assert par[d] == p ==> IsChild(par, p, d);
      assert par[d] == c ==> IsChild(par, c, d);
      assert par[d] < d;
    }
    if s.written {
      var k: nat :| k < |par| && Above(par, k, s.writer) && CarriesDirty(s.nodes[k]);
      if k == c && !CarriesDirty(cn) {
        assert Above(par, p, c);
        AboveTransitive(par, p, c, s.writer);
        assert CarriesDirty(s'.nodes[p]);
      } else {
        assert CarriesDirty(s'.nodes[k]);
      }
    }
  }

  /** The history variables may be cleared, or set while a cache on the writer's path is dirty. */
  lemma UpdateWritten(par: seq<nat>, s: Sys, written: bool, writer: nat)
    requires Inv(par, s)
    requires written ==> (s.written && writer == s.writer) || DirtyOnPath(par, s, writer)
    ensures Inv(par, s.(written := written, writer := writer))
  {
    var s' := s.(written := written, writer := writer);
    if written {
      var k: nat :| k < |par| && Above(par, k, writer) && CarriesDirty(s.nodes[k]);
      assert CarriesDirty(s'.nodes[k]);
    }
  }
}
