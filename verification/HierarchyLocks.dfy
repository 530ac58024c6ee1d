/**
 The locking discipline of the whole hierarchy, for any number of threads working on any
 lines. A cache sends the requests for a line to one of several parent banks, chosen by the
 line, so over all lines the caches form a graph without cycles rather than a tree, and one
 access may go up to one bank for its victim and to another for its line. Data is left out: a
 thread holding the locks of a cache may at any time decide to invalidate a child, to send a
 request up (a miss, an upgrade or a writeback) to any parent bank, or to finish. Memory takes
 no lock.
 */
module HierarchyLocks {

  /** The parent banks of each cache; banks are numbered before the caches below them. A cache
      without parents is next to memory. */
  type Banks = seq<set<nat>>

  ghost predicate IsHierarchy(ups: Banks) {
    forall c, p :: 0 <= c < |ups| && p in ups[c] ==> p < c
  }

  predicate IsBankOf(ups: Banks, p: nat, c: nat) {
    c < |ups| && p in ups[c]
  }

  /** The cache of a core. */
  ghost predicate IsTerminal(ups: Banks, n: nat) {
    n < |ups| && forall c :: 0 <= c < |ups| ==> n !in ups[c]
  }

  /** A top lock exists in every cache with children; a filter lock in every terminal cache. */
  datatype Lock = TopLock(n: nat) | BottomLock(n: nat) | FilterLock(n: nat)

  /** What a thread is doing. `path` is the way its access has come up, from the cache of its
      core to the cache it is at; `down` is the chain of caches it is invalidating, from a child
      of that cache down. */
  datatype Thread =
    | Outside
    | WantFilter(leaf: nat)
    | HasFilter(leaf: nat)
    | WantTop(path: seq<nat>, bank: nat)
    | WantBottom(path: seq<nat>)
    | Working(path: seq<nat>, down: seq<nat>, filter: bool)
    | WantDown(path: seq<nat>, down: seq<nat>, next: nat)
    | WantDownFilter(path: seq<nat>, down: seq<nat>)
    | WantReturn(path: seq<nat>)
    | WantFilterBack(leaf: nat)

  function Last(n: nat, down: seq<nat>): nat {
    if down == [] then n else down[|down| - 1]
  }

  function At(path: seq<nat>): nat
    requires path != []
  {
    path[|path| - 1]
  }

  /** Each cache of the path is a parent bank of the one before it. */
  ghost predicate IsPath(ups: Banks, path: seq<nat>) {
    && path != [] && IsTerminal(ups, path[0])
    && (forall i :: 0 <= i < |path| ==> path[i] < |ups|)
    && (forall i :: 1 <= i < |path| ==> IsBankOf(ups, path[i], path[i - 1]))
  }

  /** Each cache of the chain is a child of the one before it, the first a child of `n`. */
  ghost predicate IsChain(ups: Banks, n: nat, down: seq<nat>) {
    forall i :: 0 <= i < |down| ==> IsBankOf(ups, Last(n, down[..i]), down[i])
  }

  ghost predicate WellFormed(ups: Banks, t: Thread) {
    match t
    case Outside => true
    case WantFilter(leaf) => IsTerminal(ups, leaf)
    case HasFilter(leaf) => IsTerminal(ups, leaf)
    case WantTop(path, bank) => IsPath(ups, path) && IsBankOf(ups, bank, At(path))
    case WantBottom(path) => IsPath(ups, path)
    case Working(path, down, filter) =>
      IsPath(ups, path) && IsChain(ups, At(path), down)
      && (filter ==> down != [] && IsTerminal(ups, Last(At(path), down)))
    case WantDown(path, down, next) =>
      IsPath(ups, path) && IsChain(ups, At(path), down) && IsBankOf(ups, Last(At(path), down), next)
    case WantDownFilter(path, down) =>
      IsPath(ups, path) && IsChain(ups, At(path), down) && down != [] && IsTerminal(ups, Last(At(path), down))
    case WantReturn(path) => IsPath(ups, path) && |path| > 1
    case WantFilterBack(leaf) => IsTerminal(ups, leaf)
  }

  /** The top locks of the path; the terminal cache has none. */
  ghost function Tops(path: seq<nat>): set<Lock> {
    set i | 1 <= i < |path| :: TopLock(path[i])
  }

  ghost function Bottoms(n: nat, down: seq<nat>): set<Lock> {
    {BottomLock(n)} + (set i | 0 <= i < |down| :: BottomLock(down[i]))
  }

  ghost function Held(ups: Banks, t: Thread): set<Lock>
    requires WellFormed(ups, t)
  {
    match t
    case Outside => {}
    case WantFilter(_) => {}
    case HasFilter(leaf) => {FilterLock(leaf)}
    case WantTop(path, _) => Tops(path)
    case WantBottom(path) => Tops(path)
    case Working(path, down, filter) =>
      Tops(path) + Bottoms(At(path), down) + (if filter then {FilterLock(Last(At(path), down))} else {})
    case WantDown(path, down, _) => Tops(path) + Bottoms(At(path), down)
    case WantDownFilter(path, down) => Tops(path) + Bottoms(At(path), down)
    case WantReturn(path) => Tops(path) + {BottomLock(At(path))}
    case WantFilterBack(leaf) => {BottomLock(leaf)}
  }

  predicate IsWaiting(t: Thread) {
    !t.Outside? && !t.HasFilter? && !t.Working?
  }

  /** The lock a waiting thread wants. */
  ghost function Wanted(ups: Banks, t: Thread): Lock
    requires WellFormed(ups, t) && IsWaiting(t)
  {
    match t
    case WantFilter(leaf) => FilterLock(leaf)
    case WantTop(_, bank) => TopLock(bank)
    case WantBottom(path) => BottomLock(At(path))
    case WantDown(_, _, next) => BottomLock(next)
    case WantDownFilter(path, down) => FilterLock(Last(At(path), down))
    case WantReturn(path) => BottomLock(path[|path| - 2])
    case WantFilterBack(leaf) => FilterLock(leaf)
  }

  /** The thread after it has been given the lock it wanted, and after the releases that
      follow before it wants another one. */
  ghost function Granted(ups: Banks, t: Thread): Thread
    requires WellFormed(ups, t) && IsWaiting(t)
  {
    match t
    case WantFilter(leaf) => HasFilter(leaf)
    case WantTop(path, bank) => WantBottom(path + [bank])
    case WantBottom(path) => Working(path, [], false)
    case WantDown(path, down, next) => Working(path, down + [next], false)
    case WantDownFilter(path, down) => Working(path, down, true)
    case WantReturn(path) => Working(path[..|path| - 1], [], false)
    case WantFilterBack(leaf) => HasFilter(leaf)
  }

  /** What a thread that is not waiting can do next. */
  ghost predicate Moves(ups: Banks, t: Thread, t': Thread)
    requires WellFormed(ups, t)
  {
    match t
    case Outside => t'.WantFilter? && IsTerminal(ups, t'.leaf)
    case HasFilter(leaf) =>
      t' == Outside                  // a context switch, or the end of a replacement
      || t' == WantBottom([leaf])    // the access of a replacement releases the filter
    case Working(path, down, filter) =>
      if down == [] then
        || (t'.WantTop? && t' == WantTop(path, t'.bank) && IsBankOf(ups, t'.bank, At(path)))  // request to a bank
        || (t'.WantDown? && t' == WantDown(path, [], t'.next) && IsBankOf(ups, At(path), t'.next))
        || (|path| == 1 && t' == WantFilterBack(path[0]))
        || (|path| > 1 && t' == WantReturn(path))
      else
        || (t'.WantDown? && t' == WantDown(path, down, t'.next) && IsBankOf(ups, Last(At(path), down), t'.next))
        || (!filter && IsTerminal(ups, Last(At(path), down)) && t' == WantDownFilter(path, down))
        || t' == Working(path, down[..|down| - 1], false)                    // the invalidation returns
    case _ => false
  }

  // ------------------------------------------------------------ the rank

  /** Top locks from the cores to memory, then bottom locks from memory to the cores, then
      filter locks. */
  function Rank(ups: Banks, l: Lock): int {
    match l
    case TopLock(n) => |ups| - n
    case BottomLock(n) => |ups| + 1 + n
    case FilterLock(n) => 2 * |ups| + 2 + n
  }

  lemma {:induction false} PathFalls(ups: Banks, path: seq<nat>, i: nat, j: nat)
    requires IsHierarchy(ups) && IsPath(ups, path) && i <= j < |path|
    ensures path[j] <= path[i] && (i < j ==> path[j] < path[i])
  {
    if i < j {
      PathFalls(ups, path, i, j - 1);
      assert IsBankOf(ups, path[j], path[j - 1]);
    }
  }

  lemma ChainPrefix(ups: Banks, n: nat, down: seq<nat>, k: nat)
    requires IsChain(ups, n, down) && k <= |down|
    ensures IsChain(ups, n, down[..k])
  {
    forall j | 0 <= j < k
      ensures IsBankOf(ups, Last(n, down[..k][..j]), down[..k][j])
    {
      assert down[..k][..j] == down[..j];
    }
  }

  lemma ChainLink(ups: Banks, n: nat, down: seq<nat>, i: nat)
    requires IsHierarchy(ups) && IsChain(ups, n, down) && i < |down|
    ensures Last(n, down[..i]) < down[i] < |ups|
  {
    assert IsBankOf(ups, Last(n, down[..i]), down[i]);
  }

  lemma {:induction false} ChainGrows(ups: Banks, n: nat, down: seq<nat>, i: nat)
    requires IsHierarchy(ups) && IsChain(ups, n, down) && i < |down|
    ensures n < down[i] <= Last(n, down) < |ups|
    decreases |down|
  {
    hide IsChain;
    var k := |down| - 1;
    ChainLink(ups, n, down, k);
    if k > 0 {
      ChainPrefix(ups, n, down, k);
      ChainGrows(ups, n, down[..k], if i < k then i else k - 1);
    }
  }

  lemma TopsAbove(ups: Banks, path: seq<nat>, n: nat)
    requires IsHierarchy(ups) && IsPath(ups, path) && TopLock(n) in Tops(path)
    ensures At(path) <= n < |ups|
  {
    var i :| 1 <= i < |path| && TopLock(n) == TopLock(path[i]);
    PathFalls(ups, path, i, |path| - 1);
  }

  lemma BottomsBelow(ups: Banks, n: nat, down: seq<nat>, m: nat)
    requires IsHierarchy(ups) && IsChain(ups, n, down) && n < |ups| && BottomLock(m) in Bottoms(n, down)
    ensures m <= Last(n, down) < |ups|
  {
    if m != n {
      var i :| 0 <= i < |down| && BottomLock(m) == BottomLock(down[i]);
      ChainGrows(ups, n, down, i);
    } else if down != [] {
      ChainGrows(ups, n, down, |down| - 1);
    }
  }

  /** Every lock is requested above every lock already held. */
  lemma RankRule(ups: Banks, t: Thread, held: Lock)
    requires IsHierarchy(ups) && WellFormed(ups, t) && IsWaiting(t) && held in Held(ups, t)
    ensures Rank(ups, held) < Rank(ups, Wanted(ups, t))
  {
    if held.TopLock? {
      TopsAbove(ups, t.path, held.n);
    } else if held.BottomLock? && (t.WantDown? || t.WantDownFilter?) {
      BottomsBelow(ups, At(t.path), t.down, held.n);
    } else if t.WantReturn? {
      PathFalls(ups, t.path, |t.path| - 2, |t.path| - 1);
    }
  }

  // ------------------------------------------------------------ one thread's step

  /** Whatever a thread does by itself, it gains no lock. */
  lemma MoveGainsNothing(ups: Banks, t: Thread, t': Thread)
    requires IsHierarchy(ups) && WellFormed(ups, t) && Moves(ups, t, t')
    ensures WellFormed(ups, t') && Held(ups, t') <= Held(ups, t)
  {
    if t.Working? && t'.Working? {
      var upper := t'.down;
      ChainPrefix(ups, At(t.path), t.down, |upper|);
      assert Bottoms(At(t.path), upper) <= Bottoms(At(t.path), t.down) by {
        assert forall i :: 0 <= i < |upper| ==> upper[i] == t.down[i];
      }
    }
  }

  lemma ChainExtends(ups: Banks, n: nat, down: seq<nat>, next: nat)
    requires IsChain(ups, n, down) && IsBankOf(ups, Last(n, down), next)
    ensures IsChain(ups, n, down + [next])
    ensures Bottoms(n, down + [next]) == Bottoms(n, down) + {BottomLock(next)}
  {
    var down' := down + [next];
    forall i | 0 <= i < |down'|
      ensures IsBankOf(ups, Last(n, down'[..i]), down'[i])
    {
      assert down'[..i] == down[..i];
      assert i == |down| ==> down[..i] == down;
    }
    assert forall i :: 0 <= i < |down'| ==> down'[i] == if i < |down| then down[i] else next;
    forall l | l in Bottoms(n, down) + {BottomLock(next)}
      ensures l in Bottoms(n, down')
    {
      if l == BottomLock(next) {
        assert l == BottomLock(down'[|down|]);
      } else if l != BottomLock(n) {
        var i :| 0 <= i < |down| && l == BottomLock(down[i]);
        assert l == BottomLock(down'[i]);
      }
    }
  }

  lemma PathExtends(ups: Banks, path: seq<nat>, bank: nat)
    requires IsHierarchy(ups) && IsPath(ups, path) && IsBankOf(ups, bank, At(path))
    ensures IsPath(ups, path + [bank]) && Tops(path + [bank]) <= Tops(path) + {TopLock(bank)}
  {
    var path' := path + [bank];
    assert forall i :: 0 <= i < |path'| ==> path'[i] == if i < |path| then path[i] else bank;
    assert forall i :: 1 <= i < |path| ==> IsBankOf(ups, path[i], path[i - 1]);
  }

  lemma PathShrinks(ups: Banks, path: seq<nat>)
    requires IsPath(ups, path) && |path| > 1
    ensures IsPath(ups, path[..|path| - 1]) && Tops(path[..|path| - 1]) <= Tops(path)
  {
    var path' := path[..|path| - 1];
    assert forall i :: 0 <= i < |path'| ==> path'[i] == path[i];
    assert forall i :: 1 <= i < |path| ==> IsBankOf(ups, path[i], path[i - 1]);
  }

  /** A granted thread holds at most the lock it was given in addition. */
  lemma GrantGainsOne(ups: Banks, t: Thread)
    requires IsHierarchy(ups) && WellFormed(ups, t) && IsWaiting(t)
    ensures WellFormed(ups, Granted(ups, t)) && Held(ups, Granted(ups, t)) <= Held(ups, t) + {Wanted(ups, t)}
  {
    match t
    case WantTop(path, bank) => PathExtends(ups, path, bank);
    case WantDown(path, down, next) => ChainExtends(ups, At(path), down, next);
    case WantReturn(path) => PathShrinks(ups, path);
    case _ =>
  }

  // ------------------------------------------------------------ all threads

  ghost predicate Ok(ups: Banks, ts: seq<Thread>) {
    && IsHierarchy(ups)
    && (forall k :: 0 <= k < |ts| ==> WellFormed(ups, ts[k]))
    && (forall j, k :: 0 <= j < |ts| && 0 <= k < |ts| && j != k ==> Held(ups, ts[j]) !! Held(ups, ts[k]))
  }

  /** Nobody holds the lock. */
  ghost predicate Free(ups: Banks, ts: seq<Thread>, l: Lock)
    requires Ok(ups, ts)
  {
    forall k :: 0 <= k < |ts| ==> l !in Held(ups, ts[k])
  }

  /** Thread `k` moves by itself, or is given the free lock it waits for. */
  ghost predicate ThreadStep(ups: Banks, ts: seq<Thread>, k: nat, t': Thread)
    requires Ok(ups, ts) && k < |ts|
  {
    || Moves(ups, ts[k], t')
    || (IsWaiting(ts[k]) && t' == Granted(ups, ts[k]) && Free(ups, ts, Wanted(ups, ts[k])))
  }

  ghost predicate IsLockStep(ups: Banks, ts: seq<Thread>, ts': seq<Thread>)
    requires Ok(ups, ts)
  {
    exists k: nat, t' :: k < |ts| && ThreadStep(ups, ts, k, t') && ts' == ts[k := t']
  }

  ghost predicate IsLockRun(ups: Banks, states: seq<seq<Thread>>) {
    && IsHierarchy(ups)
    && |states| > 0
    && (forall k :: 0 <= k < |states[0]| ==> states[0][k] == Outside)
    && forall i :: 0 < i < |states| ==> Ok(ups, states[i - 1]) ==> IsLockStep(ups, states[i - 1], states[i])
  }

  lemma StepKeepsOk(ups: Banks, ts: seq<Thread>, k: nat, t': Thread)
    requires Ok(ups, ts) && k < |ts| && ThreadStep(ups, ts, k, t')
    ensures Ok(ups, ts[k := t'])
  {
    hide Held, WellFormed, Moves, Wanted, Granted;
    if Moves(ups, ts[k], t') {
      MoveGainsNothing(ups, ts[k], t');
    } else {
      GrantGainsOne(ups, ts[k]);
    }
    var ts' := ts[k := t'];
    forall i, j | 0 <= i < |ts'| && 0 <= j < |ts'| && i != j
      ensures Held(ups, ts'[i]) !! Held(ups, ts'[j])
    {
      assert Held(ups, ts[i]) !! Held(ups, ts[j]);
    }
  }

  /** In every run threads stay well-formed and no lock has two holders. */
  lemma {:induction false} RunKeepsOk(ups: Banks, states: seq<seq<Thread>>, i: nat)
    requires IsLockRun(ups, states) && i < |states|
    ensures Ok(ups, states[i])
  {
    if i > 0 {
      RunKeepsOk(ups, states, i - 1);
      assert IsLockStep(ups, states[i - 1], states[i]);
      var k: nat, t' :| k < |states[i - 1]| && ThreadStep(ups, states[i - 1], k, t')
                        && states[i] == states[i - 1][k := t'];
      StepKeepsOk(ups, states[i - 1], k, t');
    }
  }

  /** Thread `j` waits for a lock that thread `k` holds. */
  ghost predicate WaitsFor(ups: Banks, ts: seq<Thread>, j: nat, k: nat)
    requires Ok(ups, ts)
  {
    j < |ts| && k < |ts| && IsWaiting(ts[j]) && Wanted(ups, ts[j]) in Held(ups, ts[k])
  }

  /** Along a chain of waiting threads the wanted locks rise. */
  lemma {:induction false} WaitRises(ups: Banks, ts: seq<Thread>, chain: seq<nat>)
    requires Ok(ups, ts) && |chain| >= 2
    requires forall i :: 1 <= i < |chain| ==> WaitsFor(ups, ts, chain[i - 1], chain[i])
    requires chain[|chain| - 1] < |ts| && IsWaiting(ts[chain[|chain| - 1]])
    ensures chain[0] < |ts| && IsWaiting(ts[chain[0]])
    ensures Rank(ups, Wanted(ups, ts[chain[0]])) < Rank(ups, Wanted(ups, ts[chain[|chain| - 1]]))
    decreases |chain|
  {
    hide Held, WellFormed, Rank;
    assert WaitsFor(ups, ts, chain[1 - 1], chain[1]);
    if |chain| > 2 {
      var rest := chain[1..];
      forall i | 1 <= i < |rest|
        ensures WaitsFor(ups, ts, rest[i - 1], rest[i])
      {
        assert WaitsFor(ups, ts, chain[i + 1 - 1], chain[i + 1]);
      }
      WaitRises(ups, ts, rest);
    }
    RankRule(ups, ts[chain[1]], Wanted(ups, ts[chain[0]]));
  }

  /** No set of threads ever waits in a cycle, in any run of any number of threads. */
  lemma NoWaitCycle(ups: Banks, states: seq<seq<Thread>>, i: nat, cycle: seq<nat>)
    requires IsLockRun(ups, states) && i < |states|
    requires |cycle| >= 2 && cycle[0] == cycle[|cycle| - 1]
    ensures Ok(ups, states[i])
    ensures exists j :: 1 <= j < |cycle| && !WaitsFor(ups, states[i], cycle[j - 1], cycle[j])
  {
    RunKeepsOk(ups, states, i);
    if forall j :: 1 <= j < |cycle| ==> WaitsFor(ups, states[i], cycle[j - 1], cycle[j]) {
      assert WaitsFor(ups, states[i], cycle[1 - 1], cycle[1]);
      WaitRises(ups, states[i], cycle);
      assert false;
    }
  }

  // ------------------------------------------------------------ somebody can always go on

  /** A thread inside the hierarchy that is not waiting for a lock can move. */
  lemma UnblockedMoves(ups: Banks, t: Thread) returns (t': Thread)
    requires WellFormed(ups, t) && !IsWaiting(t) && !t.Outside?
    ensures Moves(ups, t, t')
  {
    match t
    case HasFilter(leaf) => t' := Outside;
    case Working(path, down, filter) =>
      if down != [] {
        t' := Working(path, down[..|down| - 1], false);
      } else if |path| == 1 {
        t' := WantFilterBack(path[0]);
      } else {
        t' := WantReturn(path);
      }
  }

  function RankBound(ups: Banks): int {
    3 * |ups| + 2
  }

  lemma RankInBounds(ups: Banks, t: Thread)
    requires IsHierarchy(ups) && WellFormed(ups, t) && IsWaiting(t)
    ensures Rank(ups, Wanted(ups, t)) < RankBound(ups)
  {
    if t.WantDownFilter? {
      ChainGrows(ups, At(t.path), t.down, |t.down| - 1);
    }
  }

  /** How far a waiting thread's lock is from the last one. */
  ghost function Distance(ups: Banks, t: Thread): nat
    requires IsHierarchy(ups) && WellFormed(ups, t)
  {
    if IsWaiting(t) then
      RankInBounds(ups, t);
      1 + RankBound(ups) - Rank(ups, Wanted(ups, t))
    else 0
  }

  /** Follow the waits-for relation from a thread inside the hierarchy: it ends in a thread
      that can take a step. */
  lemma {:induction false} SomebodyMoves(ups: Banks, ts: seq<Thread>, k: nat) returns (j: nat, t': Thread)
    requires Ok(ups, ts) && k < |ts| && !ts[k].Outside?
    ensures j < |ts| && !ts[j].Outside? && ThreadStep(ups, ts, j, t')
    decreases Distance(ups, ts[k])
  {
    if !IsWaiting(ts[k]) {
      j := k;
      t' := UnblockedMoves(ups, ts[k]);
    } else {
      var l := Wanted(ups, ts[k]);
      RankInBounds(ups, ts[k]);
      if Free(ups, ts, l) {
        j, t' := k, Granted(ups, ts[k]);
      } else {
        var h :| 0 <= h < |ts| && l in Held(ups, ts[h]);
        if IsWaiting(ts[h]) {
          RankRule(ups, ts[h], l);
        }
        j, t' := SomebodyMoves(ups, ts, h);
      }
    }
  }

  /** No deadlock: whenever some thread is inside the hierarchy, some such thread can go on. */
  lemma NoDeadlock(ups: Banks, states: seq<seq<Thread>>, i: nat, k: nat)
    requires IsLockRun(ups, states) && i < |states|
    requires k < |states[i]| && !states[i][k].Outside?
    ensures Ok(ups, states[i])
    ensures exists j: nat, t' :: j < |states[i]| && !states[i][j].Outside? && ThreadStep(ups, states[i], j, t')
  {
    RunKeepsOk(ups, states, i);
    var j, t' := SomebodyMoves(ups, states[i], k);
  }
}
