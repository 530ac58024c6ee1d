/**
 The MESI hierarchy for one line as a state machine: a tree of caches of any depth and
 fan-out, any number of requests in flight, memory above the root.

 A cache has two locks. The top lock serialises the accesses of the children; whoever
 holds it is described by `acc`. The bottom lock protects the cache's own state and is
 held either by that access, in the phases where it has not been given up, or by an
 invalidation coming down from the parent, described by `inv`. Requests go up with the
 child's bottom lock released; invalidations go down hand over hand. One step of the
 machine runs from one lock operation to the next, and everything between is data the
 running thread has locked.

 A terminal cache has no top lock; its single core plays that part.
 */
module Coherence {
  import opened CacheTree
  import opened Mesi

  /** What an access at a cache is for. An `Eviction` is the part of another line's access
      that makes this line its victim. */
  datatype Op =
    | FromChild(child: nat, typ: AccessType, noExcl: bool)
    | FromCore(typ: AccessType, noExcl: bool)
    | Eviction

  /** Where the access that holds the top lock is. The bottom lock is held in `Running`,
      `Top`, `Down` and `Ending`. */
  datatype Access =
    | Idle
    | Entered(op: Op)
    | Running(op: Op)
    | Displacing(op: Op)                                // writing back another line to make space
    | Waiting(op: Op, typ: AccessType, initial: State)  // request with the parent
    | Top(op: Op)
    | Down(op: Op, loop: Loop)
    | Ending(op: Op)

  datatype Invalidation = NoInv | Inval(loop: Loop)

  datatype Node = Node(state: State, present: bool, dir: Entry, acc: Access, inv: Invalidation) {
    predicate AccessHoldsBottom() {
      acc.Running? || acc.Top? || acc.Down? || acc.Ending?
    }

    predicate HoldsBottom() {
      inv.Inval? || AccessHoldsBottom()
    }

    predicate HasLoop() {
      inv.Inval? || acc.Down?
    }

    function TheLoop(): Loop
      requires HasLoop()
    {
      if inv.Inval? then inv.loop else acc.loop
    }

    function SetLoop(l: Loop): Node
      requires HasLoop()
    {
      if inv.Inval? then this.(inv := Inval(l)) else this.(acc := Down(acc.op, l))
    }
  }

  /** History variables: `written` says that a core has stored to the line and no dirty
      writeback has reached memory since, and `writer` is the cache of the core that stored
      last. */
  datatype Sys = Sys(nodes: seq<Node>, written: bool, writer: nat)

  datatype Step =
    | CoreStart(n: nat, typ: AccessType, noExcl: bool)
    | EvictStart(n: nat)
    | RequestStart(n: nat)                    // the parent takes its top lock for n's request
    | LockBottom(n: nat)
    | DropForVictim(n: nat)                   // release the bottom lock to write the victim back
    | Allocate(n: nat, staleExclusive: bool)
    | BottomStep(n: nat)
    | TopStep(n: nat)
    | InvEnter(n: nat)                        // n's bottom lock is taken by an invalidation
    | InvLeave(n: nat)
    | DownDone(n: nat)
    | EndAccess(n: nat)

  const EMPTY_NODE: Node := Node(I, false, Entry(0, {}, false), Idle, NoInv)

  ghost predicate Init(par: seq<nat>, s: Sys) {
    s == Sys(seq(|par|, i => EMPTY_NODE), false, 0)
  }

  ghost predicate Shape(par: seq<nat>, s: Sys) {
    IsTree(par) && |s.nodes| == |par|
  }

  function Set(s: Sys, n: nat, node: Node): Sys
    requires n < |s.nodes|
  {
    s.(nodes := s.nodes[n := node])
  }

  // -------------------------------------------------------------------------------
  // Steps. `Enabled` says that control is there and the lock is free; `Apply` does the
  // work and may find a controller assertion false.

  ghost predicate Enabled(par: seq<nat>, s: Sys, step: Step)
    requires Shape(par, s)
  {
    && step.n < |par|
    && var node := s.nodes[step.n];
    match step
    case CoreStart(n, typ, noExcl) =>
      IsLeaf(par, n) && IsGet(typ) && node.acc.Idle?
    case EvictStart(n) =>
      node.acc.Idle?
    case RequestStart(n) =>
      n != 0 && node.acc.Waiting? && s.nodes[par[n]].acc.Idle?
    case LockBottom(n) =>
      node.acc.Entered? && !node.HoldsBottom()
    case DropForVictim(n) =>
      node.acc.Running? && !node.acc.op.Eviction? && IsGet(node.acc.op.typ) && !node.present
    case Allocate(n, staleExclusive) =>
      && ((node.acc.Running? && !node.acc.op.Eviction? && IsGet(node.acc.op.typ) && !node.present)
          || (node.acc.Displacing? && !node.HoldsBottom()))
    case BottomStep(n) =>
      node.acc.Running? && (node.present || node.acc.op.Eviction? || !IsGet(node.acc.op.typ))
    case TopStep(n) =>
      node.acc.Top? && !node.acc.op.Eviction?
    case InvEnter(n) =>
      && n != 0
      && !node.HoldsBottom()
      && var p := s.nodes[par[n]];
      p.HasLoop() && p.TheLoop().current < 0 && n in p.TheLoop().todo
    case InvLeave(n) =>
      && n != 0
      && node.inv.Inval? && node.inv.loop.Finished()
      && var p := s.nodes[par[n]];
      p.HasLoop() && p.TheLoop().current == n
    case DownDone(n) =>
      node.acc.Down? && node.acc.loop.Finished()
    case EndAccess(n) =>
      && node.acc.Ending?
      && (node.acc.op.FromChild? ==>
            node.acc.op.child < |par| && !s.nodes[node.acc.op.child].HoldsBottom())
  }

  /** Take the bottom lock and look for a race on the requesting child. */
  function LockBottomNode(node: Node, child: Access, childState: State): Checked<Node>
    requires node.acc.Entered?
  {
    match node.acc.op
    case FromChild(c, typ, noExcl) =>
      var _ :- Assert(child.Waiting?);
      var r :- CheckForMESIRace(typ, childState, child.initial);
      var op := FromChild(c, r.typ, noExcl);
      Fine(node.(acc := if r.skip then Ending(op) else Running(op)))
    case _ =>
      Fine(node.(acc := Running(node.acc.op)))
  }

  /** The cache continues after its parent has answered. */
  function Resume(node: Node, op: Op, typ: AccessType): Checked<Node> {
    var _ :- Assert(Granted(typ, node.state));
    match op
    case Eviction => Fine(node.(present := false, acc := Idle))
    case _ => Fine(node.(acc := Top(op)))
  }

  /** Send a request up: to memory at the root, else leave it waiting for the parent. */
  function SendUp(s: Sys, n: nat, node: Node, op: Op, typ: AccessType): Checked<Sys>
    requires n < |s.nodes|
  {
    if n == 0 then
      var noExcl := !op.Eviction? && op.noExcl;
      var r :- Resume(node.(state := MemoryAccess(typ, noExcl)), op, typ);
      Fine(Set(s, n, r).(written := s.written && typ != PUTX))
    else
      Fine(Set(s, n, node.(acc := Waiting(op, typ, node.state))))
  }

  function ApplyBottom(s: Sys, n: nat): Checked<Sys>
    requires n < |s.nodes|
    requires s.nodes[n].acc.Running?
  {
    var node := s.nodes[n];
    var op := node.acc.op;
    if op.Eviction? then
      // the replacement policy may have picked another line
      Fine(Set(s, n, node.(acc := if node.present then Down(op, StartLoop(INV, node.dir)) else Idle)))
    else
      var _ :- Assert(IsGet(op.typ) || (node.present && node.state != I));
      var b :- BottomAccess(op.typ, node.state);
      match b
      case Hit(state) => Fine(Set(s, n, node.(state := state, acc := Top(op))))
      case Miss => SendUp(s, n, node, op, op.typ)
  }

  function ApplyTop(s: Sys, n: nat): Checked<Sys>
    requires n < |s.nodes|
    requires s.nodes[n].acc.Top? && !s.nodes[n].acc.op.Eviction?
  {
    var node := s.nodes[n];
    var op := node.acc.op;
    if op.FromCore? then
      var ended := Set(s, n, node.(acc := Ending(op)));
      Fine(if op.typ == GETX then ended.(written := true, writer := n) else ended)
    else
      var c := op.child;
      var _ :- Assert(c < |s.nodes| && c != n);
      if op.typ == GETS then
        if node.dir.IsEmpty() && Exclusive(node.state) && !op.noExcl then
          var granted := node.(dir := Entry(1, node.dir.sharers + {c}, true), acc := Ending(op));
          Fine(Set(Set(s, n, granted), c, s.nodes[c].(state := E)))
        else
          var _ :- Assert(c !in node.dir.sharers);
          Fine(Set(s, n, node.(acc := Down(op, StartLoop(INVX, node.dir)))))
      else if op.typ == GETX then
        var _ :- Assert(Exclusive(node.state));
        var _ :- Assert(c in node.dir.sharers ==> !node.dir.IsExclusive());
        var e := if c in node.dir.sharers then node.dir.Remove(c) else node.dir;
        Fine(Set(s, n, node.(dir := e, acc := Down(op, StartLoop(INV, e)))))
      else
        var _ :- Assert(op.typ == PUTX ==> node.dir.IsExclusive());
        var _ :- Assert(c in node.dir.sharers);
        var removed := node.(dir := node.dir.Remove(c), acc := Ending(op));
        Fine(Set(Set(s, n, removed), c, s.nodes[c].(state := I)))
  }

  function ApplyInvEnter(par: seq<nat>, s: Sys, n: nat): Checked<Sys>
    requires |par| == |s.nodes| && n < |par| && par[n] < |par|
    requires s.nodes[par[n]].HasLoop()
  {
    var p := s.nodes[par[n]];
    var node := s.nodes[n];
    var _ :- Assert(node.present);
    var entered := node.(inv := Inval(StartLoop(p.TheLoop().typ, node.dir)));
    Fine(Set(Set(s, par[n], p.SetLoop(p.TheLoop().(current := n))), n, entered))
  }

  function ChildAnswered(p: Node, n: nat, writeback: bool): Node
    requires p.HasLoop()
  {
    var l := p.TheLoop();
    var l' := l.(current := NOBODY, todo := l.todo - {n}, sent := l.sent + 1, writeback := l.writeback || writeback);
    p.SetLoop(l').(dir := if l.typ == INV then p.dir.(sharers := p.dir.sharers - {n}) else p.dir)
  }

  function ApplyInvLeave(par: seq<nat>, s: Sys, n: nat): Checked<Sys>
    requires |par| == |s.nodes| && n < |par| && par[n] < |par|
    requires s.nodes[par[n]].HasLoop() && s.nodes[n].inv.Inval?
  {
    var p := s.nodes[par[n]];
    var node := s.nodes[n];
    var l := node.inv.loop;
    var e :- EndLoop(l, node.dir);
    var r :- BottomInval(l.typ, node.state);
    var left := node.(state := r.state, dir := e, inv := NoInv);
    Fine(Set(Set(s, par[n], ChildAnswered(p, n, l.writeback || r.writeback)), n, left))
  }

  function ApplyDownDone(s: Sys, n: nat): Checked<Sys>
    requires n < |s.nodes|
    requires s.nodes[n].acc.Down?
  {
    var node := s.nodes[n];
    var op := node.acc.op;
    var l := node.acc.loop;
    var e :- EndLoop(l, node.dir);
    var state :- AbsorbWriteback(l.writeback, node.state);
    match op
    case Eviction =>
      var emptied := node.(state := state, dir := e);
      if state == I then
        var r :- Resume(emptied, op, PUTS);
        Fine(Set(s, n, r))
      else
        SendUp(s, n, emptied, op, if state == M then PUTX else PUTS)
    case FromChild(c, typ, noExcl) =>
      var _ :- Assert(c < |s.nodes| && c != n);
      var _ :- Assert(typ == GETS ==> !e.IsExclusive());
      var e' := e.Add(c, typ == GETX);
      var _ :- Assert(typ == GETX ==> e'.numSharers == 1);
      var granted := node.(state := state, dir := e', acc := Ending(op));
      Fine(Set(Set(s, n, granted), c, s.nodes[c].(state := if typ == GETX then M else S)))
    case FromCore(_, _) => Panic
  }

  function ApplyEnd(s: Sys, n: nat): Checked<Sys>
    requires n < |s.nodes|
    requires s.nodes[n].acc.Ending?
    requires s.nodes[n].acc.op.FromChild? ==> s.nodes[n].acc.op.child < |s.nodes|
  {
    var op := s.nodes[n].acc.op;
    var s' := Set(s, n, s.nodes[n].(acc := Idle));
    if op.FromChild? then
      var child := s'.nodes[op.child];
      var _ :- Assert(child.acc.Waiting?);
      var r :- Resume(child, child.acc.op, child.acc.typ);
      Fine(Set(s', op.child, r))
    else
      Fine(s')
  }

  ghost function Apply(par: seq<nat>, s: Sys, step: Step): Checked<Sys>
    requires Shape(par, s)
    requires Enabled(par, s, step)
  {
    var n := step.n;
    var node := s.nodes[n];
    match step
    case CoreStart(_, typ, noExcl) =>
      Fine(Set(s, n, node.(acc := Entered(FromCore(typ, noExcl)))))
    case EvictStart(_) =>
      Fine(Set(s, n, node.(acc := Entered(Eviction))))
    case RequestStart(_) =>
      var noExcl := !node.acc.op.Eviction? && node.acc.op.noExcl;
      Fine(Set(s, par[n], s.nodes[par[n]].(acc := Entered(FromChild(n, node.acc.typ, noExcl)))))
    case LockBottom(_) =>
      var op := node.acc.op;
      var _ :- Assert(op.FromChild? ==> op.child < |par|);
      var child := s.nodes[if op.FromChild? then op.child else n];
      var r :- LockBottomNode(node, child.acc, child.state);
      Fine(Set(s, n, r))
    case DropForVictim(_) =>
      Fine(Set(s, n, node.(acc := Displacing(node.acc.op))))
    case Allocate(_, staleExclusive) =>
      Fine(Set(s, n, node.(present := true, dir := Entry(0, {}, staleExclusive), acc := Running(node.acc.op))))
    case BottomStep(_) => ApplyBottom(s, n)
    case TopStep(_) => ApplyTop(s, n)
    case InvEnter(_) => ApplyInvEnter(par, s, n)
    case InvLeave(_) => ApplyInvLeave(par, s, n)
    case DownDone(_) => ApplyDownDone(s, n)
    case EndAccess(_) => ApplyEnd(s, n)
  }
}
