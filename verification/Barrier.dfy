/**
 The phase barrier: threads join, leave and synchronise; at most `parallelThreads` of them
 run at a time; when every thread on the run list has had its turn the phase ends, and now
 and then threads that left are taken off the list and the list is shuffled.
 */
module Barrier {
  import opened BarrierHistory
  import Sequences

  datatype ThreadState = OFFLINE | WAITING | RUNNING | LEFT

  datatype Info = Info(state: ThreadState, futexWord: nat, lastIdx: nat)

  // ------------------------------------------------------------ counting threads

  function InState(st: ThreadState): Info -> bool {
    (info: Info) => info.state == st
  }

  function Count(ts: seq<Info>, st: ThreadState): nat {
    Sequences.Count(ts, InState(st))
  }

  lemma CountUpdate(ts: seq<Info>, t: nat, info: Info, st: ThreadState)
    requires t < |ts|
    ensures Count(ts[t := info], st)
            == Count(ts, st) - (if ts[t].state == st then 1 else 0) + (if info.state == st then 1 else 0)
  {
    Sequences.CountUpdate(ts, t, info, InState(st));
  }

  lemma CountZero(ts: seq<Info>, st: ThreadState)
    ensures Count(ts, st) == 0 <==> forall t :: 0 <= t < |ts| ==> ts[t].state != st
  {
    Sequences.CountZero(ts, InState(st));
  }

  // ------------------------------------------------------------ the invariant

  /** `lastIdx` says where on the run list the thread is. */
  predicate Indexed(ts: seq<Info>, rl: seq<nat>, t: nat)
    requires t < |ts|
  {
    ts[t].lastIdx < |rl| && rl[ts[t].lastIdx] == t
  }

  /** The run list holds exactly the threads that are not offline, each once. */
  ghost predicate ListOk(ts: seq<Info>, rl: seq<nat>) {
    && Sequences.Distinct(rl)
    && (forall i :: 0 <= i < |rl| ==> rl[i] < |ts|)
    && (forall t: nat :: t < |ts| ==> (ts[t].state != OFFLINE <==> t in rl))
    && |rl| == Count(ts, WAITING) + Count(ts, RUNNING) + Count(ts, LEFT)
  }

  /** A waiting thread's futex word is armed, so waking it cannot race; a thread that runs or
      left knows its place on the list. */
  ghost predicate ThreadsOk(ts: seq<Info>, rl: seq<nat>) {
    forall t: nat :: t < |ts| ==>
      && (ts[t].state == WAITING ==> ts[t].futexWord == 1)
      && (ts[t].state == RUNNING || ts[t].state == LEFT ==> Indexed(ts, rl, t))
  }

  /** The threads that run have had their turn in this phase. */
  ghost predicate Behind(ts: seq<Info>, cur: nat) {
    forall t: nat :: t < |ts| && ts[t].state == RUNNING ==> ts[t].lastIdx < cur
  }

  ghost predicate Core(par: nat, ts: seq<Info>, rl: seq<nat>, cur: nat, running: nat, left: nat) {
    && ListOk(ts, rl)
    && ThreadsOk(ts, rl)
    && Behind(ts, cur)
    && cur <= |rl|
    && running == Count(ts, RUNNING) <= par
    && left == Count(ts, LEFT)
  }

  /** Somebody runs as long as somebody waits. */
  ghost predicate Live(ts: seq<Info>, running: nat) {
    (exists t: nat :: t < |ts| && ts[t].state == WAITING) ==> running > 0
  }

  /** A thread that knows its place on the list keeps knowing it as long as it is on the list. */
  ghost predicate KeepsPlace(ts: seq<Info>, rl: seq<nat>, ts': seq<Info>, rl': seq<nat>) {
    && |ts'| == |ts|
    && forall t: nat :: t < |ts| && Indexed(ts, rl, t) && ts'[t].state != OFFLINE ==> Indexed(ts', rl', t)
  }

  /** Nobody comes back on the list. */
  ghost predicate StaysOffline(ts: seq<Info>, ts': seq<Info>) {
    |ts'| == |ts| && forall t: nat :: t < |ts| && ts[t].state == OFFLINE ==> ts'[t].state == OFFLINE
  }

  lemma WakeKeepsPlace(ts: seq<Info>, ts': seq<Info>, rl: seq<nat>)
    requires |ts'| == |ts| && ThreadsOk(ts', rl)
    requires forall t: nat :: t < |ts| ==> ts'[t] == ts[t] || (ts[t].state == WAITING && ts'[t].state == RUNNING)
    ensures KeepsPlace(ts, rl, ts', rl) && StaysOffline(ts, ts')
  {
  }

  /** A thread on the list changes state but stays on it. */
  lemma ChangeState(ts: seq<Info>, rl: seq<nat>, t: nat, info: Info)
    requires ListOk(ts, rl) && ThreadsOk(ts, rl) && t < |ts|
    requires ts[t].state != OFFLINE && info.state != OFFLINE
    requires info.state == WAITING ==> info.futexWord == 1
    requires info.state == RUNNING || info.state == LEFT ==> info.lastIdx < |rl| && rl[info.lastIdx] == t
    ensures ListOk(ts[t := info], rl) && ThreadsOk(ts[t := info], rl)
  {
    var ts' := ts[t := info];
    CountUpdate(ts, t, info, WAITING);
    CountUpdate(ts, t, info, RUNNING);
    CountUpdate(ts, t, info, LEFT);
    forall u: nat | u < |ts'|
      ensures ts'[u].state != OFFLINE <==> u in rl
      ensures ts'[u].state == WAITING ==> ts'[u].futexWord == 1
      ensures ts'[u].state == RUNNING || ts'[u].state == LEFT ==> Indexed(ts', rl, u)
    {
      assert ts[u].state == RUNNING || ts[u].state == LEFT ==> Indexed(ts, rl, u);
    }
  }

  /** A thread comes online at the end of the list. */
  lemma Append(ts: seq<Info>, rl: seq<nat>, t: nat, info: Info)
    requires ListOk(ts, rl) && ThreadsOk(ts, rl) && t < |ts|
    requires ts[t].state == OFFLINE && info.state == WAITING && info.futexWord == 1
    ensures ListOk(ts[t := info], rl + [t]) && ThreadsOk(ts[t := info], rl + [t])
  {
    var ts', rl' := ts[t := info], rl + [t];
    CountUpdate(ts, t, info, WAITING);
    CountUpdate(ts, t, info, RUNNING);
    CountUpdate(ts, t, info, LEFT);
    assert t !in rl;
    forall u: nat | u < |ts'|
      ensures ts'[u].state != OFFLINE <==> u in rl'
      ensures ts'[u].state == WAITING ==> ts'[u].futexWord == 1
      ensures ts'[u].state == RUNNING || ts'[u].state == LEFT ==> Indexed(ts', rl', u)
    {
      assert u in rl' <==> u in rl || u == t;
      assert ts[u].state == RUNNING || ts[u].state == LEFT ==> Indexed(ts, rl, u);
    }
  }

  /** The run list with the entries at `i` and `j` exchanged, and the two threads' indices. */
  function SwapList(rl: seq<nat>, i: nat, j: nat): seq<nat>
    requires i < |rl| && j < |rl|
  {
    rl[i := rl[j]][j := rl[i]]
  }

  /** Exchange the last of the first `n` entries with one of them, then the one before it, and so on. */
  function Shuffled(rl: seq<nat>, rand: nat -> nat, n: nat): (rl': seq<nat>)
    requires n <= |rl|
    ensures |rl'| == |rl|
    decreases n
  {
    if n <= 1 then rl
    else if rand(n - 1) < n then Shuffled(SwapList(rl, n - 1, rand(n - 1)), rand, n - 1)
    else rl
  }

  /** Every order can come out. */
  lemma {:induction false} EveryOrder(rl: seq<nat>, target: seq<nat>, n: nat) returns (rand: nat -> nat)
    requires n <= |rl| == |target| && multiset(rl[..n]) == multiset(target[..n]) && rl[n..] == target[n..]
    ensures (forall i :: rand(i) <= i) && Shuffled(rl, rand, n) == target
    decreases n
  {
    hide SwapList, Shuffled;
    rand := (i: nat) => 0;
    if n <= 1 {
      NoExchange(rl, rand, n);
      ShortOrder(rl, target, n);
    } else {
      var j := ToTheEnd(rl, target, n);
      var rl' := SwapList(rl, n - 1, j);
      var f := EveryOrder(rl', target, n - 1);
      rand := (i: nat) => if i == n - 1 then j else f(i);
      SameBelow(rl', rand, f, n - 1);
      FirstExchange(rl, rand, n);
    }
  }

  lemma FirstExchange(rl: seq<nat>, rand: nat -> nat, n: nat)
    requires 1 < n <= |rl| && rand(n - 1) < n
    ensures Shuffled(rl, rand, n) == Shuffled(SwapList(rl, n - 1, rand(n - 1)), rand, n - 1)
  {
  }

  lemma NoExchange(rl: seq<nat>, rand: nat -> nat, n: nat)
    requires n <= |rl| && n <= 1
    ensures Shuffled(rl, rand, n) == rl
  {
  }

  lemma ShortOrder(rl: seq<nat>, target: seq<nat>, n: nat)
    requires n <= |rl| == |target| && n <= 1 && multiset(rl[..n]) == multiset(target[..n]) && rl[n..] == target[n..]
    ensures rl == target
  {
    assert rl == rl[..n] + rl[n..] && target == target[..n] + target[n..];
    if n == 1 {
      assert rl[..n] == [rl[0]] && target[..n] == [target[0]];
      assert rl[0] in multiset(target[..n]);
    }
  }

  /** One exchange brings the right entry to the end. */
  lemma ToTheEnd(rl: seq<nat>, target: seq<nat>, n: nat) returns (j: nat)
    requires 1 < n <= |rl| == |target| && multiset(rl[..n]) == multiset(target[..n]) && rl[n..] == target[n..]
    ensures j < n
    ensures var rl' := SwapList(rl, n - 1, j);
            |rl'| == |rl| && multiset(rl'[..n - 1]) == multiset(target[..n - 1]) && rl'[n - 1..] == target[n - 1..]
  {
    assert target[..n][n - 1] in multiset(rl[..n]);
    j :| j < n && rl[..n][j] == target[n - 1];
    var rl' := SwapList(rl, n - 1, j);
    SwapPrefix(rl, n, j);
    hide SwapList;
    assert target[..n] == target[..n - 1] + [target[n - 1]];
    assert rl'[..n] == rl'[..n - 1] + [rl'[n - 1]];
    WithoutLast(rl'[..n - 1], target[..n - 1], target[n - 1]);
    assert rl'[n - 1..] == [rl'[n - 1]] + rl'[n..] && target[n - 1..] == [target[n - 1]] + target[n..];
  }

  lemma WithoutLast(a: seq<nat>, b: seq<nat>, x: nat)
    requires multiset(a + [x]) == multiset(b + [x])
    ensures multiset(a) == multiset(b)
  {
    assert multiset(a) == multiset(a + [x]) - multiset{x};
    assert multiset(b) == multiset(b + [x]) - multiset{x};
  }

  lemma SwapPrefix(rl: seq<nat>, n: nat, j: nat)
    requires j < n <= |rl|
    ensures var rl' := SwapList(rl, n - 1, j); multiset(rl'[..n]) == multiset(rl[..n]) && rl'[n..] == rl[n..]
    ensures SwapList(rl, n - 1, j)[n - 1] == rl[j]
  {
    assert SwapList(rl, n - 1, j)[..n] == rl[..n][n - 1 := rl[j]][j := rl[n - 1]];
  }

  lemma {:induction false} SameBelow(rl: seq<nat>, f: nat -> nat, g: nat -> nat, n: nat)
    requires n <= |rl| && forall i :: 0 <= i < n ==> f(i) == g(i)
    ensures Shuffled(rl, f, n) == Shuffled(rl, g, n)
    decreases n
  {
    if n > 1 && f(n - 1) < n {
      SameBelow(SwapList(rl, n - 1, f(n - 1)), f, g, n - 1);
    }
  }

  function SetIdx(ts: seq<Info>, t: nat, idx: nat): (ts': seq<Info>)
    requires t < |ts|
    ensures |ts'| == |ts|
  {
    ts[t := ts[t].(lastIdx := idx)]
  }

  lemma SetIdxKeepsCounts(ts: seq<Info>, t: nat, idx: nat)
    requires t < |ts|
    ensures forall st :: Count(SetIdx(ts, t, idx), st) == Count(ts, st)
    ensures forall u :: 0 <= u < |ts| ==> SetIdx(ts, t, idx)[u].state == ts[u].state
    ensures forall u :: 0 <= u < |ts| ==> SetIdx(ts, t, idx)[u].futexWord == ts[u].futexWord
  {
    forall st
      ensures Count(SetIdx(ts, t, idx), st) == Count(ts, st)
    {
      CountUpdate(ts, t, ts[t].(lastIdx := idx), st);
    }
  }

  lemma SwapListOk(rl: seq<nat>, i: nat, j: nat)
    requires Sequences.Distinct(rl) && i < |rl| && j < |rl|
    ensures Sequences.Distinct(SwapList(rl, i, j)) && |SwapList(rl, i, j)| == |rl|
    ensures forall u :: u in SwapList(rl, i, j) <==> u in rl
  {
    var rl' := SwapList(rl, i, j);
    assert rl'[i] == rl[j] && rl'[j] == rl[i];
    forall u | u in rl
      ensures u in rl'
    {
      var k :| 0 <= k < |rl| && rl[k] == u;
      assert rl'[if k == i then j else if k == j then i else k] == u;
    }
  }

  /** The list stays right if it is permuted and the threads keep their states. */
  lemma PermutedListOk(ts: seq<Info>, rl: seq<nat>, ts': seq<Info>, rl': seq<nat>)
    requires ListOk(ts, rl) && |ts'| == |ts| && |rl'| == |rl| && Sequences.Distinct(rl')
    requires forall u :: 0 <= u < |ts| ==> ts'[u].state == ts[u].state
    requires forall u :: u in rl' <==> u in rl
    requires forall st :: Count(ts', st) == Count(ts, st)
    ensures ListOk(ts', rl')
  {
    hide Sequences.Distinct, Count;
    forall k | 0 <= k < |rl'|
      ensures rl'[k] < |ts'|
    {
      assert rl'[k] in rl';
    }
  }

  /** Exchanging two entries, with their indices, keeps the list and the threads right. */
  lemma Swap(ts: seq<Info>, rl: seq<nat>, i: nat, j: nat)
    requires ListOk(ts, rl) && ThreadsOk(ts, rl) && i < |rl| && j < |rl|
    requires rl[i] < |ts| && rl[j] < |ts|
    ensures var ts' := SetIdx(SetIdx(ts, rl[i], j), rl[j], i);
            var rl' := SwapList(rl, i, j);
            && ListOk(ts', rl') && ThreadsOk(ts', rl')
            && (forall u :: 0 <= u < |ts| ==> ts'[u].state == ts[u].state)
            && (forall st :: Count(ts', st) == Count(ts, st))
  {
    hide Sequences.Distinct, SwapList, SetIdx, Indexed, Count;
    var ts1 := SetIdx(ts, rl[i], j);
    var ts' := SetIdx(ts1, rl[j], i);
    SetIdxKeepsCounts(ts, rl[i], j);
    SetIdxKeepsCounts(ts1, rl[j], i);
    SwapListOk(rl, i, j);
    PermutedListOk(ts, rl, ts', SwapList(rl, i, j));
    forall u: nat | u < |ts'| && (ts'[u].state == RUNNING || ts'[u].state == LEFT)
      ensures Indexed(ts', SwapList(rl, i, j), u)
    {
      SwapIndexed(ts, rl, i, j, u);
    }
  }

  lemma SwapIndexed(ts: seq<Info>, rl: seq<nat>, i: nat, j: nat, u: nat)
    requires Sequences.Distinct(rl) && i < |rl| && j < |rl| && rl[i] < |ts| && rl[j] < |ts|
    requires u < |ts| && Indexed(ts, rl, u)
    ensures Indexed(SetIdx(SetIdx(ts, rl[i], j), rl[j], i), SwapList(rl, i, j), u)
  {
  }

  lemma SwapKeepsPlace(ts: seq<Info>, rl: seq<nat>, i: nat, j: nat)
    requires ListOk(ts, rl) && i < |rl| && j < |rl| && rl[i] < |ts| && rl[j] < |ts|
    ensures var ts' := SetIdx(SetIdx(ts, rl[i], j), rl[j], i);
            KeepsPlace(ts, rl, ts', SwapList(rl, i, j)) && StaysOffline(ts, ts')
  {
    var ts' := SetIdx(SetIdx(ts, rl[i], j), rl[j], i);
    forall u: nat | u < |ts| && Indexed(ts, rl, u)
      ensures Indexed(ts', SwapList(rl, i, j), u)
    {
      SwapIndexed(ts, rl, i, j, u);
    }
  }

  function Retire(ts: seq<Info>, rl: seq<nat>, idx: nat): seq<Info>
    requires idx < |rl| && rl[idx] < |ts| && rl[|rl| - 1] < |ts|
  {
    SetIdx(ts[rl[idx] := ts[rl[idx]].(state := OFFLINE)], rl[|rl| - 1], idx)
  }

  function RetireList(rl: seq<nat>, idx: nat): seq<nat>
    requires idx < |rl|
  {
    rl[idx := rl[|rl| - 1]][..|rl| - 1]
  }

  lemma RetireListOk(rl: seq<nat>, idx: nat)
    requires Sequences.Distinct(rl) && idx < |rl|
    ensures Sequences.Distinct(RetireList(rl, idx))
    ensures forall u :: u in RetireList(rl, idx) <==> u in rl && u != rl[idx]
  {
    var rl' := RetireList(rl, idx);
    forall u | u in rl && u != rl[idx]
      ensures u in rl'
    {
      var k :| 0 <= k < |rl| && rl[k] == u;
      assert rl'[if k == |rl| - 1 then idx else k] == u;
    }
  }

  lemma RetireIndexed(ts: seq<Info>, rl: seq<nat>, idx: nat, u: nat)
    requires Sequences.Distinct(rl) && idx < |rl| && rl[idx] < |ts| && rl[|rl| - 1] < |ts|
    requires u < |ts| && u != rl[idx] && Indexed(ts, rl, u)
    ensures Indexed(Retire(ts, rl, idx), RetireList(rl, idx), u)
  {
  }

  lemma RetireKeepsPlace(ts: seq<Info>, rl: seq<nat>, idx: nat)
    requires ListOk(ts, rl) && idx < |rl| && rl[idx] < |ts| && rl[|rl| - 1] < |ts|
    ensures KeepsPlace(ts, rl, Retire(ts, rl, idx), RetireList(rl, idx)) && StaysOffline(ts, Retire(ts, rl, idx))
  {
    forall u: nat | u < |ts| && Indexed(ts, rl, u) && Retire(ts, rl, idx)[u].state != OFFLINE
      ensures Indexed(Retire(ts, rl, idx), RetireList(rl, idx), u)
    {
      RetireIndexed(ts, rl, idx, u);
    }
  }

  /** Taking a thread that left off the list, with the last entry in its place. */
  lemma RetireOk(ts: seq<Info>, rl: seq<nat>, idx: nat)
    requires ListOk(ts, rl) && ThreadsOk(ts, rl) && idx < |rl|
    requires rl[idx] < |ts| && rl[|rl| - 1] < |ts| && ts[rl[idx]].state == LEFT
    ensures var ts', rl' := Retire(ts, rl, idx), RetireList(rl, idx);
            && |ts'| == |ts| && ListOk(ts', rl') && ThreadsOk(ts', rl')
            && (forall u :: 0 <= u < |ts| && ts[u].state == WAITING ==> ts'[u].state == WAITING)
            && (forall st :: Count(ts', st)
                  == Count(ts, st) - (if st == LEFT then 1 else 0) + (if st == OFFLINE then 1 else 0))
  {
    var w := rl[idx];
    var gone := ts[w].(state := OFFLINE);
    var ts1 := ts[w := gone];
    var ts', rl' := Retire(ts, rl, idx), RetireList(rl, idx);
    forall st
      ensures Count(ts', st) == Count(ts, st) - (if st == LEFT then 1 else 0) + (if st == OFFLINE then 1 else 0)
    {
      CountUpdate(ts, w, gone, st);
      SetIdxKeepsCounts(ts1, rl[|rl| - 1], idx);
    }
    SetIdxKeepsCounts(ts1, rl[|rl| - 1], idx);
    RetireListOk(rl, idx);
    forall u: nat | u < |ts'| && (ts'[u].state == RUNNING || ts'[u].state == LEFT)
      ensures Indexed(ts', rl', u)
    {
      RetireIndexed(ts, rl, idx, u);
    }
    hide Sequences.Distinct, SetIdx, Indexed;
    forall k | 0 <= k < |rl'|
      ensures rl'[k] < |ts'|
    {
      assert rl'[k] in rl';
    }
  }

  // ------------------------------------------------------------ the history

  predicate IsIn(info: Info) {
    info.state == WAITING || info.state == RUNNING
  }

  ghost predicate StatesTold(ts: seq<Info>, h: seq<Event>) {
    && (forall t: nat :: Inside(h, t) <==> t < |ts| && IsIn(ts[t]))
    && (forall t: nat :: Runs(h, t) <==> t < |ts| && ts[t].state == RUNNING)
  }

  /** The threads before the turn pointer have had their turn in this phase, those from it on not. */
  ghost predicate TurnsTold(ts: seq<Info>, rl: seq<nat>, cur: nat, h: seq<Event>) {
    forall i :: 0 <= i < |rl| && rl[i] < |ts| && IsIn(ts[rl[i]]) ==> (Had(h, rl[i]) <==> i < cur)
  }

  /** The fields are what the history tells, and the history obeys the laws of a barrier. */
  ghost predicate Told(ts: seq<Info>, rl: seq<nat>, cur: nat, h: seq<Event>) {
    StatesTold(ts, h) && TurnsTold(ts, rl, cur, h) && Lawful(h)
  }

  lemma AllAppended(h: seq<Event>, e: Event)
    ensures forall t: nat :: Inside(h + [e], t)
                        == if e == Joined(t) then true else if e == Left(t) then false else Inside(h, t)
    ensures forall t: nat :: Runs(h + [e], t)
                        == if e == Woken(t) then true
                           else if e == Joined(t) || e == Synced(t) || e == Left(t) then false else Runs(h, t)
    ensures forall t: nat :: Had(h + [e], t)
                        == if e == Woken(t) then true
                           else if e == Joined(t) || e == PhaseEnded then false else Had(h, t)
  {
    forall t: nat
      ensures Inside(h + [e], t) == if e == Joined(t) then true else if e == Left(t) then false else Inside(h, t)
      ensures Runs(h + [e], t)
              == if e == Woken(t) then true
                 else if e == Joined(t) || e == Synced(t) || e == Left(t) then false else Runs(h, t)
      ensures Had(h + [e], t)
              == if e == Woken(t) then true else if e == Joined(t) || e == PhaseEnded then false else Had(h, t)
    {
      Appended(h, e, t);
    }
  }

  lemma WokenTold(ts: seq<Info>, rl: seq<nat>, cur: nat, h: seq<Event>, info: Info)
    requires Told(ts, rl, cur, h) && Sequences.Distinct(rl) && cur < |rl| && rl[cur] < |ts|
    requires ts[rl[cur]].state == WAITING && info.state == RUNNING
    ensures Told(ts[rl[cur] := info], rl, cur + 1, h + [Woken(rl[cur])])
  {
    hide Lawful, Inside, Runs, Had;
    AllAppended(h, Woken(rl[cur]));
    LawfulGrows(h, Woken(rl[cur]));
  }

  lemma SkippedTold(ts: seq<Info>, rl: seq<nat>, cur: nat, h: seq<Event>)
    requires Told(ts, rl, cur, h) && cur < |rl| && rl[cur] < |ts| && !IsIn(ts[rl[cur]])
    ensures Told(ts, rl, cur + 1, h)
  {
    hide Lawful, Inside, Runs, Had;
  }

  lemma EndTold(ts: seq<Info>, rl: seq<nat>, h: seq<Event>)
    requires ListOk(ts, rl) && Told(ts, rl, |rl|, h) && forall t :: 0 <= t < |ts| ==> ts[t].state != RUNNING
    ensures Told(ts, rl, 0, h + [PhaseEnded])
  {
    hide Lawful, Inside, Runs, Had, Count;
    AllAppended(h, PhaseEnded);
    forall t: nat | Inside(h, t)
      ensures Had(h, t) && !Runs(h, t)
    {
      assert t in rl;
    }
    LawfulGrows(h, PhaseEnded);
  }

  /** At the start of a phase the order of the list tells nothing. */
  lemma ReorderedTold(ts: seq<Info>, rl: seq<nat>, ts': seq<Info>, rl': seq<nat>, h: seq<Event>)
    requires ListOk(ts, rl) && Told(ts, rl, 0, h) && |ts'| == |ts|
    requires forall t :: 0 <= t < |ts| ==> IsIn(ts'[t]) == IsIn(ts[t])
    requires forall t :: 0 <= t < |ts| ==> (ts'[t].state == RUNNING <==> ts[t].state == RUNNING)
    ensures Told(ts', rl', 0, h)
  {
    hide Lawful, Inside, Runs, Had, Count;
    forall i | 0 <= i < |rl'| && rl'[i] < |ts'| && IsIn(ts'[rl'[i]])
      ensures !Had(h, rl'[i])
    {
      assert rl'[i] in rl;
    }
  }

  lemma JoinedTold(ts: seq<Info>, rl: seq<nat>, cur: nat, h: seq<Event>, t: nat, info: Info)
    requires Told(ts, rl, cur, h) && t < |ts| && !IsIn(ts[t]) && info.state == WAITING
    requires forall i :: 0 <= i < |rl| && rl[i] == t ==> i >= cur
    ensures Told(ts[t := info], rl, cur, h + [Joined(t)])
  {
    hide Lawful, Inside, Runs, Had;
    AllAppended(h, Joined(t));
    LawfulGrows(h, Joined(t));
  }

  lemma LongerTold(ts: seq<Info>, rl: seq<nat>, cur: nat, h: seq<Event>, t: nat)
    requires Told(ts, rl, cur, h) && cur <= |rl| && t < |ts| && !IsIn(ts[t])
    ensures Told(ts, rl + [t], cur, h)
  {
    hide Lawful, Inside, Runs, Had;
  }

  /** A thread that left changes places with the last that has had its turn. */
  lemma SwappedTold(ts: seq<Info>, rl: seq<nat>, cur: nat, h: seq<Event>, i: nat, ts': seq<Info>)
    requires Told(ts, rl, cur + 1, h) && i <= cur < |rl| && rl[i] < |ts| && !IsIn(ts[rl[i]])
    requires |ts'| == |ts| && forall u :: 0 <= u < |ts| ==> ts'[u].state == ts[u].state
    ensures Told(ts', SwapList(rl, i, cur), cur, h)
  {
    hide Lawful, Inside, Runs, Had;
    var rl' := SwapList(rl, i, cur);
    forall k | 0 <= k < |rl'| && rl'[k] < |ts'| && IsIn(ts'[rl'[k]])
      ensures Had(h, rl'[k]) <==> k < cur
    {
      assert k != cur ==> rl'[k] == if k == i then rl[cur] else rl[k];
    }
  }

  lemma SyncedTold(ts: seq<Info>, rl: seq<nat>, cur: nat, h: seq<Event>, t: nat, info: Info)
    requires Told(ts, rl, cur, h) && t < |ts| && ts[t].state == RUNNING && info.state == WAITING
    ensures Told(ts[t := info], rl, cur, h + [Synced(t)])
  {
    hide Lawful, Inside, Runs, Had;
    AllAppended(h, Synced(t));
    LawfulGrows(h, Synced(t));
  }

  lemma LeftTold(ts: seq<Info>, rl: seq<nat>, cur: nat, h: seq<Event>, t: nat, info: Info)
    requires Told(ts, rl, cur, h) && t < |ts| && IsIn(ts[t]) && info.state == LEFT
    ensures Told(ts[t := info], rl, cur, h + [Event.Left(t)])
  {
    hide Lawful, Inside, Runs, Had;
    AllAppended(h, Event.Left(t));
    LawfulGrows(h, Event.Left(t));
  }

  // ------------------------------------------------------------ the barrier

  class Barrier {
    const parallelThreads: nat
    var threadList: seq<Info>
    var runList: seq<nat>
    var curThreadIdx: nat
    var runningThreads: nat
    var leftThreads: nat
    var phaseCount: nat
    ghost var history: seq<Event>

    ghost predicate Valid()
      reads this
    {
      && parallelThreads >= 1
      && Core(parallelThreads, threadList, runList, curThreadIdx, runningThreads, leftThreads)
      && Told(threadList, runList, curThreadIdx, history)
    }

    /** Whatever the index fields hold at first, all threads are offline. */
    constructor (parallelThreads: nat, initial: seq<Info>)
      requires parallelThreads >= 1
      requires forall t :: 0 <= t < |initial| ==> initial[t].state == OFFLINE
      ensures Valid() && Live(threadList, runningThreads)
      ensures this.parallelThreads == parallelThreads && threadList == initial && runList == []
      ensures runningThreads == leftThreads == 0 && history == []
    {
      this.parallelThreads := parallelThreads;
      threadList := initial;
      runList := [];
      curThreadIdx, runningThreads, leftThreads, phaseCount := 0, 0, 0, 0;
      history := [];
      new;
      CountZero(initial, WAITING);
      CountZero(initial, RUNNING);
      CountZero(initial, LEFT);
    }

    /** Wake waiting threads in list order while there is room. `ok` is false if a futex word
        was not armed (the source panics). */
    method CheckRunList() returns (ok: bool)
      requires Valid()
      modifies this`threadList, this`curThreadIdx, this`runningThreads, this`history
      ensures Valid() && ok && old(history) <= history && PhaseEnded !in history[|old(history)|..]
      ensures |threadList| == |old(threadList)| && curThreadIdx >= old(curThreadIdx)
      ensures runningThreads >= old(runningThreads)
      ensures forall t :: 0 <= t < |threadList| ==>
                threadList[t] == old(threadList)[t]
                || (old(threadList)[t].state == WAITING && threadList[t].state == RUNNING)
      ensures KeepsPlace(old(threadList), runList, threadList, runList) && StaysOffline(old(threadList), threadList)
      ensures forall i :: old(curThreadIdx) <= i < curThreadIdx && runList[i] < |threadList| ==>
                threadList[runList[i]].state != WAITING
      ensures forall i :: 0 <= i < |runList| && runList[i] < |threadList|
                          && !(old(curThreadIdx) <= i < curThreadIdx) ==>
                threadList[runList[i]] == old(threadList)[runList[i]]
      ensures runningThreads == parallelThreads
              || (curThreadIdx == |runList|
                  && forall i :: old(curThreadIdx) <= i < |runList| && runList[i] < |threadList| ==>
                       threadList[runList[i]].state != WAITING)
    {
      hide ListOk, ThreadsOk, KeepsPlace, StaysOffline, Count, Indexed, Told;
      ghost var before := threadList;
      while runningThreads < parallelThreads && curThreadIdx < |runList|
        invariant Valid() && |threadList| == |before|
        invariant old(curThreadIdx) <= curThreadIdx && old(runningThreads) <= runningThreads
        invariant forall t :: 0 <= t < |before| ==>
                    threadList[t] == before[t]
                    || (before[t].state == WAITING && threadList[t].state == RUNNING)
        invariant forall i :: old(curThreadIdx) <= i < curThreadIdx && runList[i] < |threadList| ==>
                    threadList[runList[i]].state != WAITING
        invariant forall i :: 0 <= i < |runList| && runList[i] < |threadList|
                              && !(old(curThreadIdx) <= i < curThreadIdx) ==>
                    threadList[runList[i]] == before[runList[i]]
        invariant old(history) <= history && PhaseEnded !in history[|old(history)|..]
        decreases |runList| - curThreadIdx
      {
        var idx := curThreadIdx;
        curThreadIdx := curThreadIdx + 1;
        ListEntry(threadList, runList, idx);
        OneEntry(threadList, runList, idx);
        var wtid := runList[idx];
        if threadList[wtid].state == WAITING {
          WaitingIsArmed(threadList, runList, wtid);
          if threadList[wtid].futexWord != 1 {
            return false;
          }
          var woken := Info(RUNNING, 0, idx);
          ChangeState(threadList, runList, wtid, woken);
          CountUpdate(threadList, wtid, woken, RUNNING);
          CountUpdate(threadList, wtid, woken, LEFT);
          ListDistinct(threadList, runList);
          WokenTold(threadList, runList, idx, history, woken);
          threadList := threadList[wtid := woken];
          runningThreads := runningThreads + 1;
          history := history + [Woken(wtid)];
        } else {
          NotRunningYet(threadList, runList, idx);
          SkippedTold(threadList, runList, idx, history);
        }
      }
      WakeKeepsPlace(before, threadList, runList);
      return true;
    }

    /** Take a thread that left off the list, with the last entry in its place. */
    method RetireEntry(idx: nat)
      requires ListOk(threadList, runList) && ThreadsOk(threadList, runList)
      requires idx < |runList| && runList[idx] < |threadList| && threadList[runList[idx]].state == LEFT
      modifies this`threadList, this`runList
      ensures ListOk(threadList, runList) && ThreadsOk(threadList, runList)
      ensures KeepsPlace(old(threadList), old(runList), threadList, runList)
      ensures StaysOffline(old(threadList), threadList)
      ensures |threadList| == |old(threadList)| && |runList| == |old(runList)| - 1
      ensures runList[..idx] == old(runList)[..idx]
      ensures Count(threadList, RUNNING) == Count(old(threadList), RUNNING)
      ensures Count(threadList, LEFT) == Count(old(threadList), LEFT) - 1
      ensures forall t :: 0 <= t < |threadList| ==>
                threadList[t].state == old(threadList)[t].state
                || (old(threadList)[t].state == LEFT && threadList[t].state == OFFLINE)
    {
      hide ListOk, ThreadsOk, Count;
      ListEntry(threadList, runList, |runList| - 1);
      RetireOk(threadList, runList, idx);
      RetireKeepsPlace(threadList, runList, idx);
      hide KeepsPlace, StaysOffline;
      threadList, runList := Retire(threadList, runList, idx), RetireList(runList, idx);
    }

    /** Take the threads that left off the list. */
    method Cleanup()
      requires Valid() && curThreadIdx == 0 && runningThreads == 0
      modifies this`threadList, this`runList, this`leftThreads
      ensures Valid() && leftThreads == 0
      ensures KeepsPlace(old(threadList), old(runList), threadList, runList)
      ensures StaysOffline(old(threadList), threadList)
      ensures |threadList| == |old(threadList)|
      ensures forall t :: 0 <= t < |threadList| ==>
                threadList[t].state == if old(threadList)[t].state == LEFT then OFFLINE else old(threadList)[t].state
    {
      hide ListOk, ThreadsOk, Count, Indexed, Told;
      ghost var before := threadList;
      var idx := 0;
      var initialSize := |runList|;
      while idx < |runList|
        invariant 0 <= idx <= |runList| <= initialSize && |threadList| == |before|
        invariant ListOk(threadList, runList) && ThreadsOk(threadList, runList)
        invariant KeepsPlace(before, old(runList), threadList, runList) && StaysOffline(before, threadList)
        invariant Count(threadList, RUNNING) == 0
        invariant Count(threadList, LEFT) + (initialSize - |runList|) == leftThreads
        invariant forall i :: 0 <= i < idx && runList[i] < |threadList| ==> threadList[runList[i]].state != LEFT
        invariant forall t :: 0 <= t < |before| ==>
                    || threadList[t].state == before[t].state
                    || (before[t].state == LEFT && threadList[t].state == OFFLINE)
        decreases |runList| - idx
      {
        ListEntry(threadList, runList, idx);
        if threadList[runList[idx]].state == LEFT {
          ghost var rl := runList;
          RetireEntry(idx);
          assert forall i :: 0 <= i < idx ==> runList[i] == runList[..idx][i] == rl[i];
        } else {
          idx := idx + 1;
        }
      }
      NoneLeft(threadList, runList);
      NobodyRuns(threadList, curThreadIdx);
      ReorderedTold(before, old(runList), threadList, runList, history);
      assert initialSize - |runList| == leftThreads;
      leftThreads := 0;
    }

    /** Exchange two entries of the list. */
    method SwapEntries(i: nat, j: nat)
      requires ListOk(threadList, runList) && ThreadsOk(threadList, runList)
      requires i < |runList| && j < |runList|
      modifies this`threadList, this`runList
      ensures ListOk(threadList, runList) && ThreadsOk(threadList, runList)
      ensures KeepsPlace(old(threadList), old(runList), threadList, runList)
      ensures |threadList| == |old(threadList)| && runList == SwapList(old(runList), i, j)
      ensures multiset(runList) == multiset(old(runList))
      ensures forall t :: 0 <= t < |threadList| ==> threadList[t].state == old(threadList)[t].state
      ensures forall st :: Count(threadList, st) == Count(old(threadList), st)
      ensures i <= j ==> Demoted(old(threadList), threadList, old(runList), i, j)
    {
      hide ListOk, ThreadsOk, Count;
      ListEntry(threadList, runList, i);
      ListEntry(threadList, runList, j);
      Swap(threadList, runList, i, j);
      SwapKeepsPlace(threadList, runList, i, j);
      if i <= j {
        SwapDemotes(threadList, runList, i, j);
      }
      hide KeepsPlace;
      var itid, jtid := runList[i], runList[j];
      runList := SwapList(runList, i, j);
      threadList := SetIdx(SetIdx(threadList, itid, j), jtid, i);
    }

    /** Fisher-Yates; `rand(i)` is in 0..i. */
    method Shuffle(rand: nat -> nat)
      requires Valid() && runList != [] && curThreadIdx == 0 && runningThreads == 0
      requires forall i :: rand(i) <= i
      modifies this`threadList, this`runList
      ensures Valid() && |threadList| == |old(threadList)| && |runList| == |old(runList)|
      ensures KeepsPlace(old(threadList), old(runList), threadList, runList)
      ensures multiset(runList) == multiset(old(runList)) && runList == Shuffled(old(runList), rand, |runList|)
      ensures forall t :: 0 <= t < |threadList| ==> threadList[t].state == old(threadList)[t].state
    {
      hide ListOk, ThreadsOk, Count, Indexed, Demoted, SwapList, Told;
      ghost var before := threadList;
      var i := |runList| - 1;
      while i > 0
        invariant 0 <= i < |runList| == |old(runList)| && |threadList| == |before|
        invariant ListOk(threadList, runList) && ThreadsOk(threadList, runList)
        invariant Count(threadList, RUNNING) == 0 && Count(threadList, LEFT) == leftThreads
        invariant KeepsPlace(before, old(runList), threadList, runList)
        invariant multiset(runList) == multiset(old(runList))
        invariant Shuffled(runList, rand, i + 1) == Shuffled(old(runList), rand, |old(runList)|)
        invariant forall t :: 0 <= t < |before| ==> threadList[t].state == before[t].state
      {
        ghost var rl := runList;
        SwapEntries(i, rand(i));
        assert |multiset(runList)| == |multiset(rl)|;
        i := i - 1;
      }
      NobodyRuns(threadList, curThreadIdx);
      ReorderedTold(before, old(runList), threadList, runList, history);
    }

    /** End the phase if every thread has had its turn and nobody runs, unless all have left. */
    method CheckEndPhase(rand: nat -> nat) returns (ended: bool)
      requires Valid()
      requires forall i :: rand(i) <= i
      modifies this`threadList, this`runList, this`curThreadIdx, this`leftThreads, this`phaseCount, this`history
      ensures Valid() && |threadList| == |old(threadList)|
      ensures history == if ended then old(history) + [PhaseEnded] else old(history)
      ensures ended <==> old(curThreadIdx) == |old(runList)| && runningThreads == 0
                         && old(leftThreads) != |old(runList)|
      ensures ended ==> curThreadIdx == 0 && phaseCount == old(phaseCount) + 1
      ensures ended && old(phaseCount) % 32 != 0 ==>
                runList == if parallelThreads < |old(runList)| then Shuffled(old(runList), rand, |old(runList)|)
                           else old(runList)
      ensures !ended ==> unchanged(this)
      ensures forall t :: 0 <= t < |threadList| ==>
                threadList[t].state == if ended && old(phaseCount) % 32 == 0 && old(threadList)[t].state == LEFT
                                       then OFFLINE else old(threadList)[t].state
      ensures KeepsPlace(old(threadList), old(runList), threadList, runList)
      ensures StaysOffline(old(threadList), threadList)
    {
      hide ListOk, ThreadsOk, Count, Indexed, Told;
      ended := false;
      if curThreadIdx == |runList| && runningThreads == 0 {
        if leftThreads == |runList| {
          return;
        }
        ended := true;
        CountZero(threadList, RUNNING);
        EndTold(threadList, runList, history);
        curThreadIdx := 0;
        history := history + [PhaseEnded];
        NobodyRuns(threadList, 0);
        var cleanup := phaseCount % 32 == 0;
        phaseCount := phaseCount + 1;
        if cleanup {
          Cleanup();
        }
        if parallelThreads < |runList| {
          Shuffle(rand);
        }
      }
    }

    method TryWakeNext(rand: nat -> nat) returns (ended: bool)
      requires Valid()
      requires forall i :: rand(i) <= i
      modifies this`threadList, this`runList, this`curThreadIdx, this`runningThreads, this`leftThreads, this`phaseCount,
               this`history
      ensures old(history) <= history && (ended <==> PhaseEnded in history[|old(history)|..])
      ensures Valid() && Live(threadList, runningThreads) && |threadList| == |old(threadList)|
      ensures forall t :: 0 <= t < |threadList| && old(threadList)[t].state == WAITING ==>
                threadList[t].state == WAITING || threadList[t].state == RUNNING
      ensures KeepsPlace(old(threadList), old(runList), threadList, runList)
      ensures StaysOffline(old(threadList), threadList)
      ensures !ended ==>
                && runList == old(runList) && leftThreads == old(leftThreads) && phaseCount == old(phaseCount)
                && curThreadIdx >= old(curThreadIdx)
                && (forall i :: 0 <= i < old(curThreadIdx) && i < |runList| && runList[i] < |threadList| ==>
                      threadList[runList[i]] == old(threadList)[runList[i]])
                && forall t :: 0 <= t < |threadList| ==>
                     threadList[t] == old(threadList)[t]
                     || (old(threadList)[t].state == WAITING && threadList[t].state == RUNNING)
      ensures ended ==>
                forall i :: old(curThreadIdx) <= i < |old(runList)| && old(runList)[i] < |threadList| ==>
                  old(threadList)[old(runList)[i]].state != WAITING
    {
      hide ListOk, ThreadsOk, Count, Indexed, Told;
      var ok := CheckRunList();
      ghost var woken := history;
      CountZero(threadList, RUNNING);
      ended := CheckEndPhase(rand);
      ghost var checked := history;
      ok := CheckRunList();
      ghost var n := |old(history)|;
      assert history[n..] == woken[n..] + checked[|woken|..] + history[|checked|..];
      if runningThreads == 0 {
        if ended {
          NobodyWaits(threadList, runList);
        } else {
          AllLeft(threadList, runList);
        }
      }
    }

    /** A thread that left waits again, at or after the turn pointer. `ok` is the source's assertion
        on its index. */
    method Rejoin(tid: nat) returns (ok: bool, ghost pos: nat)
      requires Valid() && tid < |threadList| && threadList[tid].state == LEFT
      modifies this`threadList, this`runList, this`curThreadIdx, this`leftThreads, this`history
      ensures ok && Valid() && |threadList| == |old(threadList)| && history == old(history) + [Joined(tid)]
      ensures KeepsPlace(old(threadList), old(runList), threadList, runList)
      ensures curThreadIdx <= pos < |runList| && runList[pos] == tid && threadList[tid].state == WAITING
      ensures multiset(runList) == multiset(old(runList))
      ensures forall t :: 0 <= t < |threadList| && t != tid ==> threadList[t].state == old(threadList)[t].state
    {
      hide ListOk, ThreadsOk, Count, Demoted, Behind, SwapList, Told;
      ok := true;
      CountUpdate(threadList, tid, threadList[tid].(state := WAITING, futexWord := 1), LEFT);
      leftThreads := leftThreads - 1;
      LeftIsIndexed(threadList, runList, tid);
      var lastIdx := threadList[tid].lastIdx;
      pos := lastIdx;
      if curThreadIdx > lastIdx {
        if tid != runList[lastIdx] {
          return false, pos;
        }
        curThreadIdx := curThreadIdx - 1;
        pos := curThreadIdx;
        SwapEntries(lastIdx, curThreadIdx);
        SwappedTold(old(threadList), old(runList), curThreadIdx, history, lastIdx, threadList);
        SwapMoves(old(runList), lastIdx, curThreadIdx);
        DemotedIsBehind(old(threadList), threadList, old(runList), lastIdx, curThreadIdx);
      }
      var info := threadList[tid].(state := WAITING, futexWord := 1);
      ChangeState(threadList, runList, tid, info);
      WaitingIsBehind(threadList, curThreadIdx, tid, info);
      CountUpdate(threadList, tid, info, RUNNING);
      CountUpdate(threadList, tid, info, LEFT);
      OneEntry(threadList, runList, pos);
      JoinedTold(threadList, runList, curThreadIdx, history, tid, info);
      threadList := threadList[tid := info];
      history := history + [Joined(tid)];
    }

    /** The first half of a join: the thread waits on the list, at or after the turn pointer. */
    method Enqueue(tid: nat) returns (ok: bool, ghost pos: nat)
      requires Valid() && tid < |threadList|
      requires threadList[tid].state == LEFT || threadList[tid].state == OFFLINE
      modifies this`threadList, this`runList, this`curThreadIdx, this`leftThreads, this`history
      ensures ok && Valid() && |threadList| == |old(threadList)| && history == old(history) + [Joined(tid)]
      ensures KeepsPlace(old(threadList), old(runList), threadList, runList)
      ensures curThreadIdx <= pos < |runList| && runList[pos] == tid && threadList[tid].state == WAITING
      ensures if old(threadList)[tid].state == OFFLINE
              then runList == old(runList) + [tid]
                   && threadList == old(threadList)[tid := Info(WAITING, 1, old(threadList)[tid].lastIdx)]
              else multiset(runList) == multiset(old(runList))
      ensures forall t :: 0 <= t < |threadList| && t != tid ==> threadList[t].state == old(threadList)[t].state
    {
      hide ListOk, ThreadsOk, Count, Told;
      ok := true;
      if threadList[tid].state == OFFLINE {
        var info := threadList[tid].(state := WAITING, futexWord := 1);
        CountUpdate(threadList, tid, info, RUNNING);
        CountUpdate(threadList, tid, info, LEFT);
        Append(threadList, runList, tid, info);
        NotListed(threadList, runList, tid);
        LongerTold(threadList, runList, curThreadIdx, history, tid);
        JoinedTold(threadList, runList + [tid], curThreadIdx, history, tid, info);
        pos := |runList|;
        runList := runList + [tid];
        threadList := threadList[tid := info];
        history := history + [Joined(tid)];
      } else {
        ok, pos := Rejoin(tid);
      }
    }

    /** A thread joins: it is waiting or already running afterwards, and no phase has ended. */
    method Join(tid: nat, rand: nat -> nat) returns (ok: bool, ended: bool)
      requires Valid() && tid < |threadList|
      requires threadList[tid].state == LEFT || threadList[tid].state == OFFLINE
      requires forall i :: rand(i) <= i
      modifies this
      ensures ok && !ended && Valid() && Live(threadList, runningThreads) && |threadList| == |old(threadList)|
      ensures old(history) + [Joined(tid)] <= history && PhaseEnded !in history[|old(history)|..]
      ensures KeepsPlace(old(threadList), old(runList), threadList, runList)
      ensures threadList[tid].state == WAITING || threadList[tid].state == RUNNING
      ensures if old(threadList)[tid].state == OFFLINE
              then runList == old(runList) + [tid]
                   && (forall t :: 0 <= t < |threadList| && threadList[t].state != RUNNING ==>
                         threadList[t].lastIdx == old(threadList)[t].lastIdx)
              else multiset(runList) == multiset(old(runList))
      ensures forall t :: 0 <= t < |threadList| && t != tid ==>
                threadList[t].state == old(threadList)[t].state
                || (old(threadList)[t].state == WAITING && threadList[t].state == RUNNING)
    {
      hide ListOk, ThreadsOk, Count, Told;
      ghost var pos;
      ok, pos := Enqueue(tid);
      ended := TryWakeNext(rand);
    }

    /** A thread leaves. The barrier stays consistent exactly if the thread was running or knew
        its place on the list; see `StaleLeave` for what happens otherwise. */
    method Leave(tid: nat, rand: nat -> nat) returns (ended: bool)
      requires Valid() && Live(threadList, runningThreads) && tid < |threadList|
      requires threadList[tid].state == RUNNING || threadList[tid].state == WAITING
      requires forall i :: rand(i) <= i
      modifies this
      ensures Valid() <==> old(threadList[tid].state == RUNNING || Indexed(threadList, runList, tid))
      ensures Live(threadList, runningThreads) && |threadList| == |old(threadList)|
      ensures old(history) + [Event.Left(tid)] <= history
      ensures ended <==> PhaseEnded in history[|old(history)|..]
      ensures KeepsPlace(old(threadList), old(runList), threadList, runList)
      ensures !ended ==> threadList[tid].state == LEFT
      ensures old(threadList)[tid].state == WAITING ==>
                && !ended && runList == old(runList) && curThreadIdx == old(curThreadIdx)
                && threadList == old(threadList)[tid := old(threadList)[tid].(state := LEFT)]
    {
      hide ListOk, ThreadsOk, Count, Told;
      var info := threadList[tid].(state := LEFT);
      LeftTold(threadList, runList, curThreadIdx, history, tid, info);
      history := history + [Event.Left(tid)];
      CountUpdate(threadList, tid, info, RUNNING);
      CountUpdate(threadList, tid, info, LEFT);
      if threadList[tid].state == RUNNING {
        RunningIsIndexed(threadList, runList, tid);
        ChangeState(threadList, runList, tid, info);
        threadList := threadList[tid := info];
        leftThreads := leftThreads + 1;
        runningThreads := runningThreads - 1;
        ended := TryWakeNext(rand);
      } else {
        if Indexed(threadList, runList, tid) {
          ChangeState(threadList, runList, tid, info);
        } else {
          StaleIsInvalid(threadList, runList, tid, info);
        }
        threadList := threadList[tid := info];
        leftThreads := leftThreads + 1;
        ended := false;
      }
    }

    /** A running thread reaches the barrier. From now on it knows its place on the list. */
    method Sync(tid: nat, rand: nat -> nat) returns (ended: bool)
      requires Valid() && tid < |threadList|
      requires threadList[tid].state == RUNNING
      requires forall i :: rand(i) <= i
      modifies this
      ensures Valid() && Live(threadList, runningThreads) && |threadList| == |old(threadList)|
      ensures KeepsPlace(old(threadList), old(runList), threadList, runList) && Indexed(threadList, runList, tid)
      ensures threadList[tid].state == WAITING || threadList[tid].state == RUNNING
      ensures !ended ==> threadList[tid].state == WAITING && curThreadIdx >= old(curThreadIdx)
      ensures old(history) + [Synced(tid)] <= history && (ended <==> PhaseEnded in history[|old(history)|..])
    {
      hide ListOk, ThreadsOk, Count, Told;
      var info := threadList[tid].(state := WAITING, futexWord := 1);
      SyncedTold(threadList, runList, curThreadIdx, history, tid, info);
      history := history + [Synced(tid)];
      RunningIsIndexed(threadList, runList, tid);
      ChangeState(threadList, runList, tid, info);
      CountUpdate(threadList, tid, info, RUNNING);
      CountUpdate(threadList, tid, info, LEFT);
      threadList := threadList[tid := info];
      runningThreads := runningThreads - 1;
      ended := TryWakeNext(rand);
    }
  }

  /** A thread that leaves before it was ever woken takes a stale index with it. If it joins again
      in the same phase the source's assertion about its place on the list fails. */
  method StaleLeave(rand: nat -> nat) returns (b: Barrier)
    requires forall i :: rand(i) <= i
    ensures |b.threadList| == 2 && b.threadList[1].state == LEFT
    ensures b.curThreadIdx > b.threadList[1].lastIdx
    ensures !Indexed(b.threadList, b.runList, 1)
  {
    b := new Barrier(1, [Info(OFFLINE, 0, 0), Info(OFFLINE, 0, 0)]);
    var ok, ended := b.Join(0, rand);
    CountTwo(b.threadList, RUNNING);
    assert b.threadList[0].state == RUNNING;
    ok, ended := b.Join(1, rand);
    CountTwo(b.threadList, RUNNING);
    assert b.threadList[1] == Info(WAITING, b.threadList[1].futexWord, 0);
    ended := b.Leave(1, rand);
  }

  lemma CountTwo(ts: seq<Info>, st: ThreadState)
    requires |ts| == 2
    ensures Count(ts, st) == (if ts[0].state == st then 1 else 0) + (if ts[1].state == st then 1 else 0)
  {
    assert ts[..|ts| - 1] == [ts[0]];
    var p := InState(st);
    assert [ts[0]][..|[ts[0]]| - 1] == [];
    assert Sequences.Count([ts[0]], p) == if p(ts[0]) then 1 else 0;
    assert Sequences.Count(ts, p) == Sequences.Count(ts[..|ts| - 1], p) + if p(ts[1]) then 1 else 0;
  }

  lemma ListEntry(ts: seq<Info>, rl: seq<nat>, i: nat)
    requires ListOk(ts, rl) && i < |rl|
    ensures rl[i] < |ts| && ts[rl[i]].state != OFFLINE
  {
    assert rl[i] in rl;
  }

  lemma NotListed(ts: seq<Info>, rl: seq<nat>, t: nat)
    requires ListOk(ts, rl) && t < |ts| && ts[t].state == OFFLINE
    ensures t !in rl
  {
  }

  lemma ListDistinct(ts: seq<Info>, rl: seq<nat>)
    requires ListOk(ts, rl)
    ensures Sequences.Distinct(rl)
  {
  }

  /** The thread whose turn is next does not run. */
  lemma NotRunningYet(ts: seq<Info>, rl: seq<nat>, cur: nat)
    requires ListOk(ts, rl) && ThreadsOk(ts, rl) && Behind(ts, cur) && cur < |rl| && rl[cur] < |ts|
    ensures ts[rl[cur]].state != RUNNING
  {
  }

  lemma OneEntry(ts: seq<Info>, rl: seq<nat>, i: nat)
    requires ListOk(ts, rl) && i < |rl|
    ensures forall j :: 0 <= j < |rl| && j != i ==> rl[j] != rl[i]
  {
  }

  lemma WaitingIsArmed(ts: seq<Info>, rl: seq<nat>, t: nat)
    requires ThreadsOk(ts, rl) && t < |ts| && ts[t].state == WAITING
    ensures ts[t].futexWord == 1
  {
  }

  lemma NoneLeft(ts: seq<Info>, rl: seq<nat>)
    requires ListOk(ts, rl)
    requires forall i :: 0 <= i < |rl| && rl[i] < |ts| ==> ts[rl[i]].state != LEFT
    ensures Count(ts, LEFT) == 0 && forall t :: 0 <= t < |ts| ==> ts[t].state != LEFT
  {
    forall t: nat | t < |ts|
      ensures ts[t].state != LEFT
    {
      if ts[t].state != OFFLINE {
        assert t in rl;
      }
    }
    CountZero(ts, LEFT);
  }

  lemma NobodyWaits(ts: seq<Info>, rl: seq<nat>)
    requires ListOk(ts, rl)
    requires forall i :: 0 <= i < |rl| && rl[i] < |ts| ==> ts[rl[i]].state != WAITING
    ensures forall t: nat :: t < |ts| ==> ts[t].state != WAITING
  {
    forall t: nat | t < |ts|
      ensures ts[t].state != WAITING
    {
      if ts[t].state != OFFLINE {
        assert t in rl;
      }
    }
  }

  lemma AllLeft(ts: seq<Info>, rl: seq<nat>)
    requires ListOk(ts, rl) && Count(ts, LEFT) == |rl|
    ensures forall t: nat :: t < |ts| ==> ts[t].state != WAITING
  {
    CountZero(ts, WAITING);
  }

  lemma NobodyRuns(ts: seq<Info>, cur: nat)
    requires Count(ts, RUNNING) == 0
    ensures Behind(ts, cur)
  {
    CountZero(ts, RUNNING);
  }

  lemma LeftIsIndexed(ts: seq<Info>, rl: seq<nat>, t: nat)
    requires ThreadsOk(ts, rl) && t < |ts| && ts[t].state == LEFT
    ensures Indexed(ts, rl, t)
  {
  }

  lemma RunningIsIndexed(ts: seq<Info>, rl: seq<nat>, t: nat)
    requires ThreadsOk(ts, rl) && t < |ts| && ts[t].state == RUNNING
    ensures Indexed(ts, rl, t) && Count(ts, RUNNING) > 0
  {
    CountZero(ts, RUNNING);
  }

  /** The running threads at or before `j`, other than the one at `i`, end up before `j`. */
  ghost predicate Demoted(ts: seq<Info>, ts': seq<Info>, rl: seq<nat>, i: nat, j: nat)
    requires i <= j < |rl|
  {
    && |ts'| == |ts|
    && forall u: nat :: u < |ts| && u != rl[i] && Indexed(ts, rl, u) && ts[u].lastIdx <= j ==> ts'[u].lastIdx < j
  }

  lemma SwapDemotes(ts: seq<Info>, rl: seq<nat>, i: nat, j: nat)
    requires ListOk(ts, rl) && i <= j < |rl| && rl[i] < |ts| && rl[j] < |ts|
    ensures Demoted(ts, SetIdx(SetIdx(ts, rl[i], j), rl[j], i), rl, i, j)
  {
  }

  /** Bringing a thread that left back to the turn pointer keeps the running threads behind it. */
  lemma DemotedIsBehind(ts: seq<Info>, ts': seq<Info>, rl: seq<nat>, i: nat, j: nat)
    requires i <= j < |rl| && Demoted(ts, ts', rl, i, j) && ThreadsOk(ts, rl) && Behind(ts, j + 1)
    requires rl[i] < |ts| && ts[rl[i]].state == LEFT
    requires forall u :: 0 <= u < |ts| ==> ts'[u].state == ts[u].state
    ensures Behind(ts', j)
  {
  }

  lemma WaitingIsBehind(ts: seq<Info>, cur: nat, t: nat, info: Info)
    requires Behind(ts, cur) && t < |ts| && info.state != RUNNING
    ensures Behind(ts[t := info], cur)
  {
  }

  lemma SwapMoves(rl: seq<nat>, i: nat, j: nat)
    requires i < |rl| && j < |rl|
    ensures SwapList(rl, i, j)[j] == rl[i]
  {
  }

  lemma StaleIsInvalid(ts: seq<Info>, rl: seq<nat>, t: nat, info: Info)
    requires t < |ts| && info == ts[t].(state := LEFT) && !Indexed(ts, rl, t)
    ensures !ThreadsOk(ts[t := info], rl)
  {
    assert !Indexed(ts[t := info], rl, t);
  }
}
