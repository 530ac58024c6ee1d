/**
 The data of the line. The simulator keeps no data, but its states say where data would be:
 this is the version of the line every cache, every writeback on its way up and memory would
 hold if each grant, writeback and store moved data as the protocol intends. A load that
 completes sees the version of the latest store.
 */
module CoherenceData {
  import opened CacheTree
  import opened Mesi
  import opened Coherence
  import opened CoherenceInvariant
  import opened CoherenceGrants
  import opened CoherenceInvalidations
  import opened CoherenceTheorems

  /** `copy[n]` is the version in cache `n`; `carried[n]` is the version that came up with the
      writeback flag of the invalidations `n` has sent. */
  datatype Data = Data(copy: seq<nat>, carried: seq<nat>, memory: nat, latest: nat)

  ghost predicate Fits(par: seq<nat>, d: Data) {
    |d.copy| == |par| && |d.carried| == |par|
  }

  ghost predicate InitData(par: seq<nat>, d: Data) {
    Fits(par, d) && d.memory == d.latest
  }

  /** A writeback from below has come up to this cache and is newer than its copy. */
  predicate HasFlag(node: Node) {
    node.HasLoop() && node.TheLoop().writeback
  }

  /** The version the cache would pass on now. */
  function Value(s: Sys, d: Data, n: nat): nat
    requires n < |s.nodes| == |d.copy| == |d.carried|
  {
    if HasFlag(s.nodes[n]) then d.carried[n] else d.copy[n]
  }

  // ------------------------------------------------------------ how data moves

  /** A core stores, a parent grants its copy, or takes the copy of a dirty writeback. */
  function TopData(s: Sys, d: Data, n: nat): Data
    requires n < |s.nodes| == |d.copy| && s.nodes[n].acc.Top?
  {
    var node, op := s.nodes[n], s.nodes[n].acc.op;
    if op.FromCore? then
      if op.typ == GETX then d.(latest := d.latest + 1, copy := d.copy[n := d.latest + 1]) else d
    else if op.Eviction? || op.child >= |d.copy| then d
    else if op.typ == PUTX then d.(copy := d.copy[n := d.copy[op.child]])
    else if op.typ == GETS && node.dir.IsEmpty() && Exclusive(node.state) && !op.noExcl then
      d.(copy := d.copy[op.child := d.copy[n]])
    else d
  }

  /** Data moves with the step. */
  ghost function ApplyData(par: seq<nat>, s: Sys, d: Data, step: Step): Data
    requires Shape(par, s) && Fits(par, d) && Enabled(par, s, step)
  {
    var n := step.n;
    var node := s.nodes[n];
    match step
    case BottomStep(_) =>
      // memory answers the root
      if n == 0 && !node.acc.op.Eviction? && BottomAccess(node.acc.op.typ, node.state) == Fine(Miss) then
        d.(copy := d.copy[0 := d.memory])
      else d
    case TopStep(_) => TopData(s, d, n)
    case InvLeave(_) =>
      // the cache merges what came up, and passes it on with the flag
      var v := Value(s, d, n);
      d.(copy := d.copy[n := v], carried := if CarriesDirty(node) then d.carried[par[n] := v] else d.carried)
    case DownDone(_) =>
      var v := Value(s, d, n);
      var op := node.acc.op;
      if op.FromChild? && op.child < |par| then d.(copy := d.copy[n := v][op.child := v])
      else d.(copy := d.copy[n := v], memory := if n == 0 && CarriesDirty(node) then v else d.memory)
    case _ => d
  }

  // ------------------------------------------------------------ where the latest version is

  /** A cache strictly below carries dirty data. */
  ghost predicate DirtyBelow(par: seq<nat>, s: Sys, n: nat)
    requires Shape(par, s)
  {
    exists k: nat :: k < |par| && k != n && Above(par, n, k) && CarriesDirty(s.nodes[k])
  }

  /** A valid copy is the latest version, unless a newer one is below. */
  ghost predicate CopyOk(par: seq<nat>, s: Sys, d: Data, n: nat)
    requires Shape(par, s) && Fits(par, d) && n < |par|
  {
    s.nodes[n].state != I ==> Value(s, d, n) == d.latest || DirtyBelow(par, s, n)
  }

  ghost predicate MemoryOk(s: Sys, d: Data) {
    d.memory == d.latest || exists k: nat :: k < |s.nodes| && CarriesDirty(s.nodes[k])
  }

  ghost predicate DataOk(par: seq<nat>, s: Sys, d: Data)
    requires Shape(par, s)
  {
    && Fits(par, d)
    && (forall n: nat :: n < |par| ==> CopyOk(par, s, d, n))
    && MemoryOk(s, d)
  }

  // ------------------------------------------------------------ no dirty data below

  lemma DirtyIsExclusive(par: seq<nat>, s: Sys, n: nat)
    requires Inv(par, s) && n < |par| && CarriesDirty(s.nodes[n])
    ensures Exclusive(s.nodes[n].state)
  {
    assert NodeOk(par, n, s.nodes[n]);
  }

  lemma NoDirtyBelow(par: seq<nat>, s: Sys, n: nat)
    requires Inv(par, s) && n < |par|
    requires forall c: nat | IsChild(par, n, c) :: !Exclusive(s.nodes[c].state)
    ensures !DirtyBelow(par, s, n)
  {
    forall k: nat | k < |par| && k != n && Above(par, n, k)
      ensures !CarriesDirty(s.nodes[k])
    {
      if CarriesDirty(s.nodes[k]) {
        DirtyIsExclusive(par, s, k);
        var c := BranchTowards(par, n, k);
        PermissionsShrink(par, s, c, k);
      }
    }
  }

  /** A valid child that is clean, with nothing dirty below it, has no dirty sibling either. */
  lemma NoDirtyBeside(par: seq<nat>, s: Sys, p: nat, c: nat)
    requires Inv(par, s) && IsChild(par, p, c) && p < |par|
    requires s.nodes[c].state != I && !CarriesDirty(s.nodes[c]) && !DirtyBelow(par, s, c)
    ensures !DirtyBelow(par, s, p)
  {
    forall k: nat | k < |par| && k != p && Above(par, p, k)
      ensures !CarriesDirty(s.nodes[k])
    {
      if CarriesDirty(s.nodes[k]) {
        DirtyIsExclusive(par, s, k);
        var b := BranchTowards(par, p, k);
        PermissionsShrink(par, s, b, k);
        if b != c {
          assert EdgeOk(s.nodes[p], s.nodes[b], b) && EdgeOk(s.nodes[p], s.nodes[c], c);
          OneExclusiveChild(s.nodes[p], s.nodes[b], b, s.nodes[c], c);
        }
      }
    }
  }

  /** When a loop is over no child can write. */
  lemma LoopOverNoWriter(par: seq<nat>, s: Sys, n: nat)
    requires Inv(par, s) && n < |par| && s.nodes[n].HasLoop() && s.nodes[n].TheLoop().Finished()
    ensures !DirtyBelow(par, s, n)
  {
    var node := s.nodes[n];
    assert NodeOk(par, n, node);
    forall c: nat | IsChild(par, n, c)
      ensures !Exclusive(s.nodes[c].state)
    {
      assert EdgeOk(node, s.nodes[c], c);
    }
    NoDirtyBelow(par, s, n);
  }

  lemma {:induction false} RootAboveAll(par: seq<nat>, n: nat)
    requires IsTree(par) && n < |par|
    ensures Above(par, 0, n)
  {
    if n != 0 {
      RootAboveAll(par, par[n]);
    }
  }

  /** With nothing dirty at the root or below, memory has the latest version. */
  lemma MemoryIsLatest(par: seq<nat>, s: Sys, d: Data)
    requires Shape(par, s) && MemoryOk(s, d) && !CarriesDirty(s.nodes[0]) && !DirtyBelow(par, s, 0)
    ensures d.memory == d.latest
  {
    forall k: nat | k < |s.nodes|
      ensures !CarriesDirty(s.nodes[k])
    {
      RootAboveAll(par, k);
    }
  }

  // ------------------------------------------------------------ steps that move no data

  /** The cache loses neither dirty data nor its writeback flag, and gains no copy. */
  predicate Quiet(node: Node, node': Node) {
    && (CarriesDirty(node) ==> CarriesDirty(node'))
    && (node'.state != I ==> node.state != I && HasFlag(node) == HasFlag(node'))
  }

  lemma QuietKeeps(par: seq<nat>, s: Sys, s': Sys, d: Data)
    requires Shape(par, s) && Shape(par, s') && DataOk(par, s, d)
    requires forall n: nat :: n < |par| ==> Quiet(s.nodes[n], s'.nodes[n])
    ensures DataOk(par, s', d)
  {
    hide CarriesDirty, HasFlag;
    forall n: nat | n < |par|
      ensures CopyOk(par, s', d, n)
    {
      assert Quiet(s.nodes[n], s'.nodes[n]) && CopyOk(par, s, d, n);
      if s'.nodes[n].state != I && Value(s, d, n) != d.latest {
        var k: nat :| k < |par| && k != n && Above(par, n, k) && CarriesDirty(s.nodes[k]);
        assert Quiet(s.nodes[k], s'.nodes[k]);
      }
    }
    if k: nat :| k < |s.nodes| && CarriesDirty(s.nodes[k]) {
      assert Quiet(s.nodes[k], s'.nodes[k]);
    }
  }

  /** Only one cache changes, or a cache and its child. */
  lemma QuietTwo(par: seq<nat>, s: Sys, s': Sys, d: Data, p: nat, c: nat)
    requires Shape(par, s) && Shape(par, s') && DataOk(par, s, d) && p < |par| && c < |par|
    requires forall n: nat :: n < |par| && n != p && n != c ==> s'.nodes[n] == s.nodes[n]
    requires Quiet(s.nodes[p], s'.nodes[p]) && Quiet(s.nodes[c], s'.nodes[c])
    ensures DataOk(par, s', d)
  {
    forall n: nat | n < |par|
      ensures Quiet(s.nodes[n], s'.nodes[n])
    {
    }
    QuietKeeps(par, s, s', d);
  }

  // ------------------------------------------------------------ steps that move data

  /** A cache and its child change, and both end with the latest version or no copy. */
  lemma TwoKeep(par: seq<nat>, s: Sys, d: Data, s': Sys, d': Data, p: nat, c: nat)
    requires Shape(par, s) && Shape(par, s') && DataOk(par, s, d) && Fits(par, d')
    requires (IsChild(par, p, c) || p == c) && p < |par| && c < |par|
    requires forall m: nat :: m < |par| && m != p && m != c ==>
               s'.nodes[m] == s.nodes[m] && d'.copy[m] == d.copy[m] && d'.carried[m] == d.carried[m]
    requires d'.latest == d.latest && (d'.memory == d.memory || d'.memory == d.latest)
    requires d'.memory != d.latest && CarriesDirty(s.nodes[p]) ==> CarriesDirty(s'.nodes[p])
    requires p != 0 ==> (CarriesDirty(s.nodes[p]) ==> CarriesDirty(s'.nodes[p]))
    requires CarriesDirty(s.nodes[c]) && c != p ==> CarriesDirty(s'.nodes[p]) || CarriesDirty(s'.nodes[c])
    requires s'.nodes[p].state != I ==> Value(s', d', p) == d.latest
    requires s'.nodes[c].state != I ==> Value(s', d', c) == d.latest
    ensures DataOk(par, s', d')
  {
    forall n: nat | n < |par|
      ensures CopyOk(par, s', d', n)
    {
      assert CopyOk(par, s, d, n);
      if n != p && n != c {
        OthersKeep(par, s, d, s', d', p, c, n);
      }
    }
    if d'.memory != d.latest {
      var k: nat :| k < |s.nodes| && CarriesDirty(s.nodes[k]);
      if k == c && c != p && !CarriesDirty(s'.nodes[c]) {
        assert CarriesDirty(s'.nodes[p]);
      } else {
        assert CarriesDirty(s'.nodes[k]);
      }
    }
  }

  /** The root may lose its dirty data: nothing is above it. */
  lemma OthersKeep(par: seq<nat>, s: Sys, d: Data, s': Sys, d': Data, p: nat, c: nat, n: nat)
    requires Shape(par, s) && Shape(par, s') && Fits(par, d) && Fits(par, d')
    requires (IsChild(par, p, c) || p == c) && p < |par| && c < |par|
    requires n < |par| && n != p && n != c && CopyOk(par, s, d, n)
    requires forall m: nat :: m < |par| && m != p && m != c ==>
               s'.nodes[m] == s.nodes[m] && d'.copy[m] == d.copy[m] && d'.carried[m] == d.carried[m]
    requires d'.latest == d.latest
    requires p != 0 ==> (CarriesDirty(s.nodes[p]) ==> CarriesDirty(s'.nodes[p]))
    requires CarriesDirty(s.nodes[c]) && c != p ==> CarriesDirty(s'.nodes[p]) || CarriesDirty(s'.nodes[c])
    ensures CopyOk(par, s', d', n)
  {
    hide CarriesDirty, HasFlag;
    if s'.nodes[n].state != I && Value(s, d, n) != d.latest {
      var k: nat :| k < |par| && k != n && Above(par, n, k) && CarriesDirty(s.nodes[k]);
      AboveIsSmaller(par, n, k);
      if k == c && c != p && !CarriesDirty(s'.nodes[c]) {
        assert Above(par, n, p);
        assert DirtyBelow(par, s', n);
      } else {
        assert CarriesDirty(s'.nodes[k]);
      }
    }
  }

  // ------------------------------------------------------------ every step

  /** A store: every other valid copy is above it, and it is dirty. */
  lemma StoreData(par: seq<nat>, s: Sys, d: Data, n: nat, s': Sys)
    requires Inv(par, s) && DataOk(par, s, d) && n < |par| && IsLeaf(par, n) && s.nodes[n].state == M
    requires Shape(par, s') && s'.nodes[n].state == M && !HasFlag(s'.nodes[n])
    requires forall m: nat :: m < |par| && m != n ==> s'.nodes[m] == s.nodes[m]
    ensures DataOk(par, s', d.(latest := d.latest + 1, copy := d.copy[n := d.latest + 1]))
  {
    var d' := d.(latest := d.latest + 1, copy := d.copy[n := d.latest + 1]);
    assert CarriesDirty(s'.nodes[n]);
    hide Inv, HasFlag, CarriesDirty;
    forall m: nat | m < |par| && m != n
      ensures CopyOk(par, s', d', m)
    {
      if !Above(par, m, n) {
        if Above(par, n, m) {
          LeafAboveItself(par, n, m);
        }
        SingleWriterInv(par, s, n, m);
      } else {
        assert DirtyBelow(par, s', m);
      }
    }
  }

  /** At a core that may go on, the copy is the latest version. */
  lemma CoreSeesLatest(par: seq<nat>, s: Sys, d: Data, n: nat)
    requires Inv(par, s) && DataOk(par, s, d) && n < |par| && s.nodes[n].acc.Top? && s.nodes[n].acc.op.FromCore?
    ensures d.copy[n] == d.latest
  {
    var node := s.nodes[n];
    assert NodeOk(par, n, node);
    NoDirtyBelow(par, s, n);
    assert CopyOk(par, s, d, n);
  }

  lemma CoreFacts(par: seq<nat>, s: Sys, n: nat)
    requires Inv(par, s) && n < |par| && s.nodes[n].acc.Top? && s.nodes[n].acc.op.FromCore?
    ensures IsLeaf(par, n) && s.nodes[n].inv.NoInv? && (s.nodes[n].acc.op.typ == GETX ==> s.nodes[n].state == M)
  {
    assert NodeOk(par, n, s.nodes[n]);
  }

  lemma CoreData(par: seq<nat>, s: Sys, d: Data, n: nat)
    requires Inv(par, s) && DataOk(par, s, d) && Enabled(par, s, TopStep(n)) && s.nodes[n].acc.op.FromCore?
    ensures var s' := ApplyTop(s, n).value;
            Shape(par, s') && DataOk(par, s', TopData(s, d, n))
  {
    hide NodesOk, EdgesOk, DirtyKept, DataOk;
    CoreFacts(par, s, n);
    DataFits(par, s, d);
    var s' := ApplyTop(s, n).value;
    if s.nodes[n].acc.op.typ == GETX {
      StoreData(par, s, d, n, s');
    } else {
      QuietTwo(par, s, s', d, n, n);
    }
  }

  /** Before its writeback a child has the latest version; a clean one has it in common with
      the parent. */
  lemma PutValues(par: seq<nat>, s: Sys, d: Data, n: nat, c: nat)
    requires Inv(par, s) && DataOk(par, s, d) && IsChild(par, n, c)
    requires AtTop(s.nodes[n], c) && !IsGet(s.nodes[n].acc.op.typ)
    ensures d.copy[c] == d.latest && !HasFlag(s.nodes[n])
    ensures s.nodes[n].acc.op.typ == PUTS ==> d.copy[n] == d.latest && !CarriesDirty(s.nodes[c])
    ensures s.nodes[n].acc.op.typ == PUTX ==> s.nodes[n].state == M
    ensures s.nodes[c].acc.Waiting? && s.nodes[c].inv.NoInv?
  {
    var node, child := s.nodes[n], s.nodes[c];
    assert NodeOk(par, n, node) && NodeOk(par, c, child) && EdgeOk(node, child, c);
    PutFacts(par, n, node, c, child);
    forall g: nat | IsChild(par, c, g)
      ensures !Exclusive(s.nodes[g].state)
    {
      assert EdgeOk(child, s.nodes[g], g);
    }
    NoDirtyBelow(par, s, c);
    assert CopyOk(par, s, d, c) && CopyOk(par, s, d, n);
    if node.acc.op.typ == PUTS {
      NoDirtyBeside(par, s, n, c);
    }
  }

  lemma PutData(par: seq<nat>, s: Sys, d: Data, n: nat, c: nat)
    requires Inv(par, s) && DataOk(par, s, d) && IsChild(par, n, c)
    requires AtTop(s.nodes[n], c) && !IsGet(s.nodes[n].acc.op.typ)
    ensures var s' := Set(Set(s, n, PutNode(s.nodes[n], c)), c, s.nodes[c].(state := I));
            DataOk(par, s', TopData(s, d, n))
  {
    hide NodesOk, EdgesOk, DirtyKept, DataOk;
    var node, child := s.nodes[n], s.nodes[c];
    PutValues(par, s, d, n, c);
    DataFits(par, s, d);
    TwoKeep(par, s, d, Set(Set(s, n, PutNode(node, c)), c, child.(state := I)), TopData(s, d, n), n, c);
  }

  lemma DataFits(par: seq<nat>, s: Sys, d: Data)
    requires Shape(par, s) && DataOk(par, s, d)
    ensures Fits(par, d)
  {
  }

  lemma GrantExclusiveData(par: seq<nat>, s: Sys, d: Data, n: nat, c: nat)
    requires Inv(par, s) && DataOk(par, s, d) && IsChild(par, n, c)
    requires AtTop(s.nodes[n], c) && s.nodes[n].acc.op.typ == GETS
    requires s.nodes[n].dir.IsEmpty() && Exclusive(s.nodes[n].state)
    ensures var s' := Set(Set(s, n, GrantExclusiveNode(s.nodes[n], c)), c, s.nodes[c].(state := E));
            DataOk(par, s', d.(copy := d.copy[c := d.copy[n]]))
  {
    var node, child := s.nodes[n], s.nodes[c];
    var s' := Set(Set(s, n, GrantExclusiveNode(node, c)), c, child.(state := E));
    var d' := d.(copy := d.copy[c := d.copy[n]]);
    assert NodeOk(par, n, node) && NodeOk(par, c, child) && EdgeOk(node, child, c);
    GrantExclusiveFacts(par, n, node, c, child);
    forall b: nat | IsChild(par, n, b)
      ensures !Exclusive(s.nodes[b].state)
    {
      assert EdgeOk(node, s.nodes[b], b);
    }
    NoDirtyBelow(par, s, n);
    assert CopyOk(par, s, d, n);
    TwoKeep(par, s, d, s', d', n, c);
  }

  lemma LeaveFlags(pn: Node, node: Node, n: nat, e: Entry, state: State)
    requires Returns(pn, node, n) && !node.AccessHoldsBottom() && state != M
    requires node.inv.loop.writeback ==> Exclusive(node.state)
    requires pn.inv.Inval? ==> !pn.AccessHoldsBottom()
    ensures var pn' := ChildAnswered(pn, n, CarriesDirty(node));
            && HasFlag(pn') == (HasFlag(pn) || CarriesDirty(node))
            && !HasFlag(LeftNode(node, e, state)) && !CarriesDirty(LeftNode(node, e, state))
            && pn'.state == pn.state && (CarriesDirty(pn) || CarriesDirty(node) ==> CarriesDirty(pn'))
  {
  }

  /** Before it leaves a cache, an invalidation has collected the latest version; a clean cache
      has it in common with the parent. */
  lemma LeaveValues(par: seq<nat>, s: Sys, d: Data, n: nat)
    requires Inv(par, s) && DataOk(par, s, d) && 0 < n < |par| && Returns(s.nodes[par[n]], s.nodes[n], n)
    ensures s.nodes[n].state != I && !s.nodes[n].AccessHoldsBottom() && Value(s, d, n) == d.latest
    ensures !CarriesDirty(s.nodes[n]) && s.nodes[par[n]].state != I ==> Value(s, d, par[n]) == d.latest
    ensures s.nodes[n].inv.loop.writeback ==> Exclusive(s.nodes[n].state)
    ensures s.nodes[par[n]].inv.Inval? ==> !s.nodes[par[n]].AccessHoldsBottom()
  {
    var p := par[n];
    assert IsChild(par, p, n);
    assert NodeOk(par, p, s.nodes[p]) && NodeOk(par, n, s.nodes[n]) && EdgeOk(s.nodes[p], s.nodes[n], n);
    LeaveNode(par, n, s.nodes[p], s.nodes[n]);
    LoopOverNoWriter(par, s, n);
    assert CopyOk(par, s, d, n) && CopyOk(par, s, d, p);
    if !CarriesDirty(s.nodes[n]) {
      NoDirtyBeside(par, s, p, n);
    }
  }

  lemma LeaveData(par: seq<nat>, s: Sys, d: Data, n: nat, e: Entry, state: State)
    requires Inv(par, s) && DataOk(par, s, d) && 0 < n < |par| && Returns(s.nodes[par[n]], s.nodes[n], n)
    requires state != M
    ensures var p, v := par[n], Value(s, d, n);
            var wb := CarriesDirty(s.nodes[n]);
            var s' := Set(Set(s, p, ChildAnswered(s.nodes[p], n, wb)), n, LeftNode(s.nodes[n], e, state));
            DataOk(par, s', d.(copy := d.copy[n := v], carried := if wb then d.carried[p := v] else d.carried))
  {
    hide NodesOk, EdgesOk, DirtyKept, DataOk, CarriesDirty, HasFlag, ChildAnswered;
    DataFits(par, s, d);
    var p, v := par[n], Value(s, d, n);
    var wb := CarriesDirty(s.nodes[n]);
    LeaveValues(par, s, d, n);
    LeaveFlags(s.nodes[p], s.nodes[n], n, e, state);
    TwoKeep(par, s, d, Set(Set(s, p, ChildAnswered(s.nodes[p], n, wb)), n, LeftNode(s.nodes[n], e, state)),
            d.(copy := d.copy[n := v], carried := if wb then d.carried[p := v] else d.carried), p, n);
  }

  lemma GrantData(par: seq<nat>, s: Sys, d: Data, n: nat, c: nat)
    requires Inv(par, s) && DataOk(par, s, d) && IsChild(par, n, c)
    requires LoopDone(s.nodes[n]) && Serves(s.nodes[n], c)
    ensures EndLoop(s.nodes[n].acc.loop, s.nodes[n].dir).Fine?
    ensures AbsorbWriteback(s.nodes[n].acc.loop.writeback, s.nodes[n].state).Fine?
    ensures var node := s.nodes[n];
            var e := EndLoop(node.acc.loop, node.dir).value;
            var state := AbsorbWriteback(node.acc.loop.writeback, node.state).value;
            var child := s.nodes[c].(state := GrantedState(node.acc.op.typ));
            var s' := Set(Set(s, n, GrantNode(node, e, state, c)), c, child);
            var v := Value(s, d, n);
            DataOk(par, s', d.(copy := d.copy[n := v][c := v]))
  {
    var node, child := s.nodes[n], s.nodes[c];
    assert NodeOk(par, n, node) && NodeOk(par, c, child) && EdgeOk(node, child, c);
    GrantFacts(par, n, node, c, child);
    AbsorbFine(node);
    var e := EndLoop(node.acc.loop, node.dir).value;
    var state := AbsorbWriteback(node.acc.loop.writeback, node.state).value;
    LoopOverNoWriter(par, s, n);
    assert CopyOk(par, s, d, n);
    var v := Value(s, d, n);
    assert !CarriesDirty(child);
    TwoKeep(par, s, d, Set(Set(s, n, GrantNode(node, e, state, c)), c, child.(state := GrantedState(node.acc.op.typ))),
            d.(copy := d.copy[n := v][c := v]), n, c);
  }

  /** Before its copy is written back or dropped, an evicted cache has the latest version; if
      the root is clean, so has memory. */
  lemma EvictValues(par: seq<nat>, s: Sys, d: Data, n: nat)
    requires Inv(par, s) && DataOk(par, s, d) && n < |par| && LoopDone(s.nodes[n])
    ensures s.nodes[n].inv.NoInv? && (s.nodes[n].state != I ==> Value(s, d, n) == d.latest)
    ensures n == 0 && !CarriesDirty(s.nodes[0]) ==> d.memory == d.latest
    ensures CarriesDirty(s.nodes[n]) ==> Exclusive(s.nodes[n].state)
  {
    assert NodeOk(par, n, s.nodes[n]);
    LoopOverNoWriter(par, s, n);
    assert CopyOk(par, s, d, n);
    if n == 0 && !CarriesDirty(s.nodes[0]) {
      MemoryIsLatest(par, s, d);
    }
  }

  lemma EvictData(par: seq<nat>, s: Sys, d: Data, n: nat, node': Node, s': Sys)
    requires Inv(par, s) && DataOk(par, s, d) && n < |par| && LoopDone(s.nodes[n])
    requires Shape(par, s') && s'.nodes == s.nodes[n := node'] && !node'.HasLoop()
    requires node'.state != I ==> s.nodes[n].state != I
    requires n != 0 && CarriesDirty(s.nodes[n]) ==> node'.state == M
    ensures var v := Value(s, d, n);
            var memory := if n == 0 && CarriesDirty(s.nodes[n]) then v else d.memory;
            DataOk(par, s', d.(copy := d.copy[n := v], memory := memory))
  {
    hide NodesOk, EdgesOk, DirtyKept, DataOk;
    DataFits(par, s, d);
    EvictValues(par, s, d, n);
    var v := Value(s, d, n);
    TwoKeep(par, s, d, s',
            d.(copy := d.copy[n := v], memory := if n == 0 && CarriesDirty(s.nodes[n]) then v else d.memory), n, n);
  }

  /** Memory answers the root when no cache is dirty. */
  lemma RootData(par: seq<nat>, s: Sys, d: Data, node': Node, s': Sys)
    requires Inv(par, s) && DataOk(par, s, d) && !Exclusive(s.nodes[0].state)
    requires Shape(par, s') && s'.nodes == s.nodes[0 := node'] && !node'.HasLoop()
    ensures DataOk(par, s', d.(copy := d.copy[0 := d.memory]))
  {
    assert NodeOk(par, 0, s.nodes[0]);
    forall c: nat | IsChild(par, 0, c)
      ensures !Exclusive(s.nodes[c].state)
    {
      assert EdgeOk(s.nodes[0], s.nodes[c], c);
    }
    NoDirtyBelow(par, s, 0);
    if CarriesDirty(s.nodes[0]) {
      DirtyIsExclusive(par, s, 0);
    }
    hide Inv, DataOk;
    DataFits(par, s, d);
    MemoryIsLatest(par, s, d) by {
      AlsoMemory(par, s, d);
    }
    TwoKeep(par, s, d, s', d.(copy := d.copy[0 := d.memory]), 0, 0);
  }

  lemma AlsoMemory(par: seq<nat>, s: Sys, d: Data)
    requires Shape(par, s) && DataOk(par, s, d)
    ensures MemoryOk(s, d)
  {
  }

  lemma TopStepData(par: seq<nat>, s: Sys, d: Data, n: nat)
    requires Inv(par, s) && DataOk(par, s, d) && Enabled(par, s, TopStep(n))
    ensures ApplyTop(s, n).Fine?
    ensures Shape(par, ApplyTop(s, n).value) && DataOk(par, ApplyTop(s, n).value, TopData(s, d, n))
  {
    hide NodesOk, EdgesOk, DirtyKept, DataOk;
    TopKeeps(par, s, n);
    DataFits(par, s, d);
    var node, op := s.nodes[n], s.nodes[n].acc.op;
    if op.FromCore? {
      CoreData(par, s, d, n);
    } else {
      ServedChild(par, s, n);
      if !IsGet(op.typ) {
        PutStep(par, s, n, op.child);
        PutData(par, s, d, n, op.child);
      } else if op.typ == GETS && node.dir.IsEmpty() && Exclusive(node.state) && !op.noExcl {
        GrantExclusiveData(par, s, d, n, op.child);
      } else {
        GetDownStep(par, s, n, op.child);
        QuietTwo(par, s, ApplyTop(s, n).value, d, n, n);
      }
    }
  }

  lemma ServedChild(par: seq<nat>, s: Sys, n: nat)
    requires Inv(par, s) && n < |par| && !s.nodes[n].acc.Idle? && s.nodes[n].acc.op.FromChild?
    ensures IsChild(par, n, s.nodes[n].acc.op.child) && s.nodes[n].acc.op.child != n
    ensures s.nodes[n].AccessHoldsBottom() ==> s.nodes[n].inv.NoInv?
    ensures s.nodes[n].acc.Down? ==> IsGet(s.nodes[n].acc.op.typ)
  {
    assert NodeOk(par, n, s.nodes[n]);
  }

  lemma BottomStepData(par: seq<nat>, s: Sys, d: Data, n: nat)
    requires Inv(par, s) && DataOk(par, s, d) && Enabled(par, s, BottomStep(n))
    ensures ApplyBottom(s, n).Fine?
    ensures Shape(par, ApplyBottom(s, n).value)
    ensures DataOk(par, ApplyBottom(s, n).value, ApplyData(par, s, d, BottomStep(n)))
  {
    hide NodesOk, EdgesOk, DirtyKept, DataOk;
    BottomKeeps(par, s, n);
    DataFits(par, s, d);
    BottomHolder(par, s, n);
    var node, s' := s.nodes[n], ApplyBottom(s, n).value;
    if !node.acc.op.Eviction? && n == 0 && BottomAccess(node.acc.op.typ, node.state) == Fine(Miss) {
      RootData(par, s, d, s'.nodes[0], s');
    } else {
      QuietTwo(par, s, s', d, n, n);
    }
  }

  lemma BottomHolder(par: seq<nat>, s: Sys, n: nat)
    requires Inv(par, s) && n < |par| && s.nodes[n].acc.Running?
    ensures s.nodes[n].inv.NoInv?
  {
    assert NodeOk(par, n, s.nodes[n]);
  }

  lemma DownDoneData(par: seq<nat>, s: Sys, d: Data, n: nat)
    requires Inv(par, s) && DataOk(par, s, d) && Enabled(par, s, DownDone(n))
    ensures ApplyDownDone(s, n).Fine?
    ensures Shape(par, ApplyDownDone(s, n).value)
    ensures DataOk(par, ApplyDownDone(s, n).value, ApplyData(par, s, d, DownDone(n)))
  {
    hide NodesOk, EdgesOk, DirtyKept, DataOk, CarriesDirty;
    DownDoneKeeps(par, s, n);
    DataFits(par, s, d);
    var s' := ApplyDownDone(s, n).value;
    var op := s.nodes[n].acc.op;
    if op.FromChild? {
      ServedChild(par, s, n);
      GrantData(par, s, d, n, op.child);
    } else {
      EvictedDirty(par, s, n);
      EvictData(par, s, d, n, s'.nodes[n], s');
    }
  }

  lemma EvictedDirty(par: seq<nat>, s: Sys, n: nat)
    requires Inv(par, s) && n < |par| && LoopDone(s.nodes[n]) && ApplyDownDone(s, n).Fine?
    requires !s.nodes[n].acc.op.FromChild?
    ensures var s' := ApplyDownDone(s, n).value;
            && s'.nodes == s.nodes[n := s'.nodes[n]] && !s'.nodes[n].HasLoop()
            && (s'.nodes[n].state != I ==> s.nodes[n].state != I)
            && (n != 0 && CarriesDirty(s.nodes[n]) ==> s'.nodes[n].state == M)
  {
    assert NodeOk(par, n, s.nodes[n]);
  }

  lemma InvLeaveData(par: seq<nat>, s: Sys, d: Data, n: nat)
    requires Inv(par, s) && DataOk(par, s, d) && Enabled(par, s, InvLeave(n))
    ensures ApplyInvLeave(par, s, n).Fine?
    ensures Shape(par, ApplyInvLeave(par, s, n).value)
    ensures DataOk(par, ApplyInvLeave(par, s, n).value, ApplyData(par, s, d, InvLeave(n)))
  {
    hide NodesOk, EdgesOk, DirtyKept, DataOk;
    LeaveStep(par, s, n);
    DataFits(par, s, d);
    LeaveValues(par, s, d, n);
    var node := s.nodes[n];
    var e := EndLoop(node.inv.loop, node.dir).value;
    var r := BottomInval(node.inv.loop.typ, node.state).value;
    assert CarriesDirty(node) == (node.inv.loop.writeback || r.writeback);
    LeaveData(par, s, d, n, e, r.state);
  }

  predicate MovesData(step: Step) {
    step.BottomStep? || step.TopStep? || step.InvLeave? || step.DownDone?
  }

  lemma EnterQuiet(par: seq<nat>, s: Sys, n: nat, m: nat)
    requires Inv(par, s) && Enabled(par, s, InvEnter(n)) && ApplyInvEnter(par, s, n).Fine? && m < |par|
    ensures Shape(par, ApplyInvEnter(par, s, n).value)
    ensures Quiet(s.nodes[m], ApplyInvEnter(par, s, n).value.nodes[m])
  {
    assert par[n] < n;
  }

  lemma EndQuiet(par: seq<nat>, s: Sys, n: nat, m: nat)
    requires Inv(par, s) && Enabled(par, s, EndAccess(n)) && ApplyEnd(s, n).Fine? && m < |par|
    ensures Shape(par, ApplyEnd(s, n).value)
    ensures Quiet(s.nodes[m], ApplyEnd(s, n).value.nodes[m])
  {
    assert s.nodes[n].inv.NoInv? by {
      assert NodeOk(par, n, s.nodes[n]);
    }
  }

  lemma QuietStep(par: seq<nat>, s: Sys, step: Step, n: nat)
    requires Inv(par, s) && Enabled(par, s, step) && !MovesData(step) && Apply(par, s, step).Fine? && n < |par|
    ensures Shape(par, Apply(par, s, step).value)
    ensures Quiet(s.nodes[n], Apply(par, s, step).value.nodes[n])
  {
    hide NodesOk, EdgesOk, DirtyKept;
    if step.InvEnter? {
      EnterQuiet(par, s, step.n, n);
    } else if step.EndAccess? {
      EndQuiet(par, s, step.n, n);
    }
  }

  lemma StepKeepsData(par: seq<nat>, s: Sys, d: Data, step: Step)
    requires Inv(par, s) && DataOk(par, s, d) && Enabled(par, s, step)
    ensures Apply(par, s, step).Fine? && Inv(par, Apply(par, s, step).value)
    ensures DataOk(par, Apply(par, s, step).value, ApplyData(par, s, d, step))
  {
    hide NodesOk, EdgesOk, DirtyKept, DataOk, Enabled;
    StepKeepsInv(par, s, step);
    DataFits(par, s, d);
    match step
    case BottomStep(n) => BottomStepData(par, s, d, n);
    case TopStep(n) => TopStepData(par, s, d, n);
    case InvLeave(n) => InvLeaveData(par, s, d, n);
    case DownDone(n) => DownDoneData(par, s, d, n);
    case _ =>
      var s' := Apply(par, s, step).value;
      forall n: nat | n < |par|
        ensures Quiet(s.nodes[n], s'.nodes[n])
      {
        QuietStep(par, s, step, n);
      }
      QuietKeeps(par, s, s', d);
  }

  // ------------------------------------------------------------ whole runs

  /** A run together with the data it moves. */
  ghost predicate IsDataRun(par: seq<nat>, states: seq<Sys>, steps: seq<Step>, data: seq<Data>) {
    && IsRun(par, states, steps)
    && |data| == |states| && InitData(par, data[0])
    && forall i :: 0 <= i < |steps| ==>
         && Shape(par, states[i]) && Fits(par, data[i]) && Enabled(par, states[i], steps[i])
         && data[i + 1] == ApplyData(par, states[i], data[i], steps[i])
  }

  lemma InitDataOk(par: seq<nat>, s: Sys, d: Data)
    requires IsTree(par) && Init(par, s) && InitData(par, d)
    ensures DataOk(par, s, d)
  {
    assert forall n: nat :: n < |par| ==> s.nodes[n] == EMPTY_NODE;
  }

  lemma {:induction false} RunKeepsData(par: seq<nat>, states: seq<Sys>, steps: seq<Step>, data: seq<Data>, i: nat)
    requires IsDataRun(par, states, steps, data) && i < |states|
    ensures Inv(par, states[i]) && DataOk(par, states[i], data[i])
  {
    RunKeepsInv(par, states, steps, i);
    hide Inv, DataOk, ApplyData, Init, InitData;
    if i == 0 {
      InitDataOk(par, states[0], data[0]);
    } else {
      RunKeepsData(par, states, steps, data, i - 1);
      assert data[i - 1 + 1] == ApplyData(par, states[i - 1], data[i - 1], steps[i - 1]);
      StepKeepsData(par, states[i - 1], data[i - 1], steps[i - 1]);
    }
  }

  /** Every load, and every store before it writes, sees the version of the latest store. */
  lemma LoadSeesLatestStore(par: seq<nat>, states: seq<Sys>, steps: seq<Step>, data: seq<Data>, i: nat, n: nat)
    requires IsDataRun(par, states, steps, data) && i < |states| && Shape(par, states[i])
    requires Enabled(par, states[i], TopStep(n)) && states[i].nodes[n].acc.op.FromCore?
    ensures n < |data[i].copy| && data[i].copy[n] == data[i].latest
  {
    RunKeepsData(par, states, steps, data, i);
    CoreSeesLatest(par, states[i], data[i], n);
  }

  lemma {:induction false} DirtyLatest(par: seq<nat>, s: Sys, d: Data, k: nat) returns (n: nat)
    requires Inv(par, s) && DataOk(par, s, d) && k < |par| && CarriesDirty(s.nodes[k])
    ensures n < |par| && CarriesDirty(s.nodes[n]) && Value(s, d, n) == d.latest
    decreases |par| - k
  {
    assert CopyOk(par, s, d, k);
    DirtyIsExclusive(par, s, k);
    if Value(s, d, k) == d.latest {
      n := k;
    } else {
      var b: nat :| b < |par| && b != k && Above(par, k, b) && CarriesDirty(s.nodes[b]);
      AboveIsSmaller(par, k, b);
      n := DirtyLatest(par, s, d, b);
    }
  }

  /** The latest version is in memory, or in a cache in M, or comes up with a writeback flag. */
  lemma LatestIsKept(par: seq<nat>, states: seq<Sys>, steps: seq<Step>, data: seq<Data>, i: nat)
    requires IsDataRun(par, states, steps, data) && i < |states|
    ensures |states[i].nodes| == |par| && Fits(par, data[i])
    ensures data[i].memory == data[i].latest
            || exists n: nat :: n < |par| && CarriesDirty(states[i].nodes[n])
                                && Value(states[i], data[i], n) == data[i].latest
  {
    RunKeepsData(par, states, steps, data, i);
    if data[i].memory != data[i].latest {
      var k: nat :| k < |par| && CarriesDirty(states[i].nodes[k]);
      var n := DirtyLatest(par, states[i], data[i], k);
    }
  }
}
