/**
 A child's request is atomic. `Coherence` spreads it over many steps, with invalidations on
 their way and other caches busy in between; `TopController` updates one directory entry in
 one go. Both leave the same entry and the same copies.
 */
module CoherenceAtomic {
  import opened CacheTree
  import opened Mesi
  import opened Coherence
  import opened CoherenceInvariant
  import opened CoherenceTheorems
  import opened TopController

  // ------------------------------------------------------------ the entry of a cache

  /** The copies of the children of `n`; a cache that is not a child counts as one without a copy. */
  function Copies(par: seq<nat>, s: Sys, n: nat): seq<State>
    requires |s.nodes| == |par|
  {
    seq(|par|, c requires 0 <= c < |par| => if IsChild(par, n, c) then s.nodes[c].state else I)
  }

  function Bits(len: nat, sharers: set<nat>): seq<bool> {
    seq(len, c requires 0 <= c < len => c in sharers)
  }

  lemma {:induction false} CountBits(len: nat, sharers: set<nat>)
    requires forall c :: c in sharers ==> c < len
    ensures CountSharers(Bits(len, sharers)) == |sharers|
  {
    if len == 0 {
      assert sharers == {};
    } else {
      var below := sharers - {len - 1};
      CountBits(len - 1, below);
      assert Bits(len, sharers)[..len - 1] == Bits(len - 1, below);
      assert sharers == below + if len - 1 in sharers then {len - 1} else {};
    }
  }

  /** Outside an update the entry is exact, as the top controller has it. */
  lemma EntryIsExact(par: seq<nat>, s: Sys, n: nat)
    requires Inv(par, s) && n < |par| && !s.nodes[n].HasLoop()
    ensures var e := s.nodes[n].dir;
            Exact(Bits(|par|, e.sharers), e.numSharers, e.exclusive, Copies(par, s, n))
  {
    var node := s.nodes[n];
    assert NodeOk(par, n, node);
    CountBits(|par|, node.dir.sharers);
    forall c: nat | IsChild(par, n, c)
      ensures c in node.dir.sharers <==> s.nodes[c].state != I
      ensures Exclusive(s.nodes[c].state) ==> node.dir.exclusive && node.dir.sharers == {c}
      ensures s.nodes[c].state == S ==> !node.dir.exclusive
    {
      assert EdgeOk(node, s.nodes[c], c);
    }
  }

  // ------------------------------------------------------------ from start to end

  /** The access on its way down is the same, and a downgrade has left the entry as it was. */
  predicate SameDescent(node: Node, node': Node) {
    && node.acc.Down? && node'.acc.Down?
    && node'.acc.op == node.acc.op && node'.acc.loop.typ == node.acc.loop.typ
    && (node.acc.loop.typ == INVX ==> node'.dir == node.dir)
  }

  /** A cache on its way down is neither invalidated nor served by its parent. */
  lemma DownFacts(par: seq<nat>, s: Sys, n: nat, m: nat)
    requires Inv(par, s) && n < |par| && s.nodes[n].acc.Down? && m < |par|
    ensures s.nodes[n].inv.NoInv? && !Serves(s.nodes[m], n)
  {
    assert NodeOk(par, n, s.nodes[n]);
    assert NodeOk(par, m, s.nodes[m]);
    if n != 0 {
      assert EdgeOk(s.nodes[par[n]], s.nodes[n], n);
    }
  }

  /** While `n` is on its way down nothing else touches its access. */
  lemma StaysDown(par: seq<nat>, s: Sys, step: Step, s': Sys, n: nat)
    requires Inv(par, s) && Shape(par, s) && Enabled(par, s, step) && n < |par|
    requires s.nodes[n].acc.Down? && step != DownDone(n)
    requires Shape(par, s') && Apply(par, s, step) == Fine(s')
    ensures SameDescent(s.nodes[n], s'.nodes[n])
  {
    hide Inv, EndLoop, BottomInval, AbsorbWriteback, BottomAccess, CheckForMESIRace, StartLoop, MemoryAccess, Granted;
    DownFacts(par, s, n, step.n);
    if step.Allocate? {
      assert step.n != n && s'.nodes[n] == s.nodes[n];
    }
  }

  /** `n` serves a request of a child from step `i` to state `j`, in which it is done with it. */
  ghost predicate Handles(par: seq<nat>, states: seq<Sys>, steps: seq<Step>, i: nat, j: nat, n: nat) {
    && IsRun(par, states, steps) && i < j < |states| && n < |par|
    && (forall k :: i <= k <= j ==> |states[k].nodes| == |par|)
    && steps[i] == TopStep(n) && states[i].nodes[n].acc.Top? && states[i].nodes[n].acc.op.FromChild?
    && (forall k :: i < k < j ==> states[k].nodes[n].acc.Down?)
    && states[j].nodes[n].acc.Ending?
  }

  lemma {:induction false} Descends(par: seq<nat>, states: seq<Sys>, steps: seq<Step>, i: nat, j: nat, n: nat, k: nat)
    requires Handles(par, states, steps, i, j, n) && i < k < j
    ensures SameDescent(states[i + 1].nodes[n], states[k].nodes[n])
    decreases k
  {
    hide Enabled, Apply, Inv, Init;
    if k > i + 1 {
      Descends(par, states, steps, i, j, n, k - 1);
      RunKeepsInv(par, states, steps, k - 1);
      NotDone(par, states[k - 1], steps[k - 1], states[k], n);
      StaysDown(par, states[k - 1], steps[k - 1], states[k], n);
    }
  }

  lemma NotDone(par: seq<nat>, s: Sys, step: Step, s': Sys, n: nat)
    requires Inv(par, s) && Shape(par, s) && Enabled(par, s, step) && n < |par|
    requires Shape(par, s') && Apply(par, s, step) == Fine(s')
    requires s.nodes[n].acc.Down? && s'.nodes[n].acc.Down?
    ensures step != DownDone(n)
  {
    hide Inv, EndLoop, AbsorbWriteback, MemoryAccess, Granted;
  }

  /** What the first step of a request does. */
  lemma Starts(par: seq<nat>, s: Sys, s': Sys, n: nat)
    requires Inv(par, s) && Shape(par, s) && Enabled(par, s, TopStep(n))
    requires Shape(par, s') && Apply(par, s, TopStep(n)) == Fine(s')
    requires s.nodes[n].acc.op.FromChild?
    ensures var node, node' := s.nodes[n], s'.nodes[n];
            var op := node.acc.op;
            && op.child < |par| && op.child != n
            && (if op.typ == GETS && !(node.dir.IsEmpty() && Exclusive(node.state) && !op.noExcl) then
                  node'.acc.Down? && node'.acc.op == op && node'.acc.loop.typ == INVX && node'.dir == node.dir
                else if op.typ == GETX then
                  node'.acc.Down? && node'.acc.op == op && node'.acc.loop.typ == INV
                else
                  && node'.acc.Ending?
                  && s'.nodes[op.child].state == (if op.typ == GETS then E else I)
                  && forall c: nat :: c < |par| && c != op.child ==> s'.nodes[c].state == s.nodes[c].state)
  {
    hide Inv;
  }

  /** What the last one does. */
  lemma Ends(par: seq<nat>, s: Sys, step: Step, s': Sys, n: nat)
    requires Inv(par, s) && Shape(par, s) && Enabled(par, s, step) && n < |par|
    requires Shape(par, s') && Apply(par, s, step) == Fine(s')
    requires s.nodes[n].acc.Down? && s'.nodes[n].acc.Ending? && s.nodes[n].acc.op.FromChild?
    ensures var node, node' := s.nodes[n], s'.nodes[n];
            var op := node.acc.op;
            && op.child < |par| && s'.nodes[op.child].state == (if op.typ == GETX then M else S)
            && op.child in node'.dir.sharers && !node'.HasLoop()
            && (op.typ == GETX ==> node'.dir.numSharers == 1)
            && (op.typ == GETS && node.acc.loop.typ == INVX ==>
                  node'.dir.sharers == node.dir.sharers + {op.child} && !node'.dir.exclusive)
  {
    hide Inv, BottomInval, AbsorbWriteback;
    DownFacts(par, s, n, step.n);
    if step != DownDone(n) {
      StaysDown(par, s, step, s', n);
    }
  }

  /** What the invariant says of a request about to be served. */
  lemma RequestFits(par: seq<nat>, s: Sys, n: nat)
    requires Inv(par, s) && n < |par| && s.nodes[n].acc.Top? && s.nodes[n].acc.op.FromChild?
    ensures var op := s.nodes[n].acc.op;
            && IsChild(par, n, op.child) && Settled(op.typ, s.nodes[op.child].state) && !s.nodes[n].HasLoop()
            && (op.typ == GETX ==> s.nodes[n].state == M)
  {
    assert NodeOk(par, n, s.nodes[n]);
    assert EdgeOk(s.nodes[n], s.nodes[s.nodes[n].acc.op.child], s.nodes[n].acc.op.child);
  }

  /** A request that was answered at once. */
  lemma AnsweredAtOnce(par: seq<nat>, s: Sys, s': Sys, n: nat)
    requires Inv(par, s) && Shape(par, s) && Enabled(par, s, TopStep(n)) && Apply(par, s, TopStep(n)) == Fine(s')
    requires Shape(par, s') && s.nodes[n].acc.op.FromChild? && s'.nodes[n].acc.Ending?
    ensures var op := s.nodes[n].acc.op;
            Copies(par, s', n)
            == Answered(Copies(par, s, n), op.typ, op.child, Exclusive(s.nodes[n].state), op.noExcl)
  {
    hide Inv, Apply;
    Starts(par, s, s', n);
    RequestFits(par, s, n);
    EntryIsExact(par, s, n);
    CountNone(Bits(|par|, s.nodes[n].dir.sharers));
  }

  /** The copies after a request that had to go down, from the entries before and after. */
  lemma AnsweredBelow(par: seq<nat>, s: Sys, s': Sys, n: nat, op: Op)
    requires Inv(par, s) && Inv(par, s') && Shape(par, s) && Shape(par, s')
    requires n < |par| && !s.nodes[n].HasLoop() && !s'.nodes[n].HasLoop()
    requires op.FromChild? && IsChild(par, n, op.child) && IsGet(op.typ)
    requires s'.nodes[op.child].state == (if op.typ == GETX then M else S) && op.child in s'.nodes[n].dir.sharers
    requires op.typ == GETX ==> s'.nodes[n].dir.numSharers == 1
    requires op.typ == GETS ==>
               && s'.nodes[n].dir.sharers == s.nodes[n].dir.sharers + {op.child} && !s'.nodes[n].dir.exclusive
               && !(s.nodes[n].dir.IsEmpty() && Exclusive(s.nodes[n].state) && !op.noExcl)
    ensures Copies(par, s', n)
            == Answered(Copies(par, s, n), op.typ, op.child, Exclusive(s.nodes[n].state), op.noExcl)
  {
    hide Inv, Exact, Answered;
    EntryIsExact(par, s, n);
    EntryIsExact(par, s', n);
    var e, e' := s.nodes[n].dir, s'.nodes[n].dir;
    AnsweredByEntries(Copies(par, s, n), Bits(|par|, e.sharers), e.numSharers, e.exclusive,
                      Copies(par, s', n), Bits(|par|, e'.sharers), e'.numSharers, e'.exclusive,
                      op.typ, op.child, Exclusive(s.nodes[n].state), op.noExcl);
  }

  lemma AnsweredByEntries(kids: seq<State>, sharers: seq<bool>, num: int, exclusive: bool,
                          kids': seq<State>, sharers': seq<bool>, num': int, exclusive': bool,
                          typ: AccessType, child: nat, haveExclusive: bool, noExcl: bool)
    requires Exact(sharers, num, exclusive, kids) && Exact(sharers', num', exclusive', kids')
    requires |kids| == |kids'| && child < |kids| && IsGet(typ)
    requires kids'[child] == if typ == GETX then M else S
    requires typ == GETX ==> num' == 1
    requires typ == GETS ==>
               && !exclusive' && !(num == 0 && haveExclusive && !noExcl)
               && forall c :: 0 <= c < |kids| && c != child ==> sharers'[c] == sharers[c]
    ensures kids' == Answered(kids, typ, child, haveExclusive, noExcl)
  {
    CountNone(sharers);
    CountSet(sharers', child, false);
    CountNone(sharers'[child := false]);
    forall c: nat | c < |kids| && c != child
      ensures kids'[c] == OtherCopy(typ, kids[c])
    {
      assert sharers'[child := false][c] == sharers'[c];
    }
  }

  /** Whatever else goes on meanwhile, a request ends with the copies the top controller's update
      gives them, and with an exact entry. */
  lemma RequestIsAtomic(par: seq<nat>, states: seq<Sys>, steps: seq<Step>, i: nat, j: nat, n: nat)
    requires Handles(par, states, steps, i, j, n)
    ensures var s, op := states[i], states[i].nodes[n].acc.op;
            && Copies(par, states[j], n)
               == Answered(Copies(par, s, n), op.typ, op.child, Exclusive(s.nodes[n].state), op.noExcl)
            && var e := states[j].nodes[n].dir;
            Exact(Bits(|par|, e.sharers), e.numSharers, e.exclusive, Copies(par, states[j], n))
  {
    hide Enabled, Apply, Inv, Init, Answered, Exact, Copies;
    var s, op := states[i], states[i].nodes[n].acc.op;
    RunKeepsInv(par, states, steps, i);
    RunKeepsInv(par, states, steps, j);
    RequestFits(par, s, n);
    Starts(par, s, states[i + 1], n);
    EndingHasNoLoop(par, states[j], n);
    EntryIsExact(par, states[j], n);
    if j == i + 1 {
      AnsweredAtOnce(par, s, states[j], n);
    } else {
      Descends(par, states, steps, i, j, n, j - 1);
      RunKeepsInv(par, states, steps, j - 1);
      Ends(par, states[j - 1], steps[j - 1], states[j], n);
      AnsweredBelow(par, s, states[j], n, op);
    }
  }

  lemma EndingHasNoLoop(par: seq<nat>, s: Sys, n: nat)
    requires Inv(par, s) && n < |par| && s.nodes[n].acc.Ending?
    ensures !s.nodes[n].HasLoop()
  {
    assert NodeOk(par, n, s.nodes[n]);
  }

  // ------------------------------------------------------------ the entry updated in place

  /** The object has the entry of cache `n` and the copies of its children. */
  ghost predicate Represents(t: TopEntry, par: seq<nat>, s: Sys, n: nat)
    requires |s.nodes| == |par| && n < |par|
    reads t
  {
    var e := s.nodes[n].dir;
    && t.sharers == Bits(|par|, e.sharers) && t.numSharers == e.numSharers
    && (e.numSharers > 0 ==> t.exclusive == e.exclusive) && t.kids == Copies(par, s, n)
  }

  /** One call of the top controller does to the entry what the whole request does. */
  method Replay(t: TopEntry, typ: AccessType, child: nat, haveExclusive: bool, noExcl: bool,
                ghost par: seq<nat>, ghost states: seq<Sys>, ghost steps: seq<Step>, ghost i: nat, ghost j: nat,
                ghost n: nat) returns (ok: bool, writeback: bool)
    requires Handles(par, states, steps, i, j, n) && Represents(t, par, states[i], n)
    requires states[i].nodes[n].acc.op == FromChild(child, typ, noExcl)
    requires haveExclusive == Exclusive(states[i].nodes[n].state)
    modifies t
    ensures ok && Represents(t, par, states[j], n)
  {
    hide Enabled, Apply, Inv, Init, IsRun, Answered, Copies, Exact, Bits;
    RunKeepsInv(par, states, steps, i);
    RequestFits(par, states[i], n);
    RequestIsAtomic(par, states, steps, i, j, n);
    StartsValid(t, par, states[i], n);
    ok, writeback := t.ProcessAccess(typ, child, haveExclusive, noExcl);
    ghost var e := states[j].nodes[n].dir;
    ExactIsUnique(t.sharers, t.numSharers, t.exclusive, Bits(|par|, e.sharers), e.numSharers, e.exclusive, t.kids);
  }

  lemma StartsValid(t: TopEntry, par: seq<nat>, s: Sys, n: nat)
    requires Inv(par, s) && n < |par| && |s.nodes| == |par| && !s.nodes[n].HasLoop() && Represents(t, par, s, n)
    ensures t.Valid() && |t.kids| == |par|
    ensures forall c: nat :: IsChild(par, n, c) ==> t.kids[c] == s.nodes[c].state
  {
    EntryIsExact(par, s, n);
    CountNone(t.sharers);
  }
}
