/**
 The futex mutex, for any number of threads: each atomic operation on the lock word and
 each system call is one step.
 */
module FutexMutex {

  /** Where a thread is in `futex_lock`, `futex_trylock_nospin_timeout` (`once`) or
      `futex_unlock`; `again` from the second time round the loop on. */
  datatype Pc =
    | Idle
    | Spinning(once: bool, again: bool)     // about to read the word
    | SawZero(once: bool, again: bool)      // read 0, about to compare-and-swap 0 -> 1
    | Exchanging(once: bool, again: bool)   // gave up spinning, about to exchange 2 in
    | Waiting(once: bool)                   // about to make the FUTEX_WAIT call
    | Sleeping(once: bool)                  // asleep in the kernel
    | Woken(once: bool)                     // back from FUTEX_WAIT, about to exchange 2 in
    | Holding(fast: bool)                   // by the compare-and-swap, or by an exchange that found 0
    | Releasing                             // decremented a contended word, about to store 0
    | Waking                                // stored 0, about to make the FUTEX_WAKE call

  const TWO_32: nat := 0x1_0000_0000

  datatype State = State(word: nat, pcs: seq<Pc>)

  ghost predicate Init(s: State) {
    s.word == 0 && forall t :: 0 <= t < |s.pcs| ==> s.pcs[t] == Idle
  }

  function Goto(s: State, t: nat, word: nat, pc: Pc): State
    requires t < |s.pcs|
  {
    State(word, s.pcs[t := pc])
  }

  /** One step of thread `t`. */
  ghost predicate Step(s: State, t: nat, s': State) {
    t < |s.pcs| &&
    match s.pcs[t]
    case Idle =>
      exists once :: s' == Goto(s, t, s.word, Spinning(once, false))
    case Spinning(once, again) =>
      || s' == Goto(s, t, s.word, if s.word == 0 then SawZero(once, again) else Spinning(once, again))
      || (s.word != 0 && s' == Goto(s, t, s.word, Exchanging(once, again)))
    case SawZero(once, again) =>
      if s.word == 0 then s' == Goto(s, t, 1, Holding(true))
      else || s' == Goto(s, t, s.word, Spinning(once, again))
           || s' == Goto(s, t, s.word, Exchanging(once, again))
    case Exchanging(once, _) =>
      s' == Goto(s, t, 2, if s.word == 0 then Holding(false) else Waiting(once))
    case Waiting(once) =>
      s' == Goto(s, t, s.word, if s.word == 2 then Sleeping(once) else Woken(once))
    case Sleeping(once) =>
      s' == Goto(s, t, s.word, Woken(once))  // a signal or the timeout
    case Woken(once) =>
      s' == Goto(s, t, 2, if s.word == 0 then Holding(false)
                          else if once then Idle else Spinning(once, true))
    case Holding(_) =>
      s' == Goto(s, t, (s.word - 1) % TWO_32, if s.word == 1 then Idle else Releasing)
    case Releasing =>
      s' == Goto(s, t, 0, Waking)
    case Waking =>
      || (exists k: nat :: k < |s.pcs| && s.pcs[k].Sleeping?
                        && s' == State(s.word, s.pcs[t := Idle][k := Woken(s.pcs[k].once)]))
      || ((forall k :: 0 <= k < |s.pcs| ==> !s.pcs[k].Sleeping?) && s' == Goto(s, t, s.word, Idle))
  }

  ghost predicate IsRun(states: seq<State>) {
    && |states| > 0
    && Init(states[0])
    && forall i :: 0 <= i < |states| - 1 ==> SomeStep(states[i], states[i + 1])
  }

  ghost predicate SomeStep(s: State, s': State) {
    exists t: nat :: Step(s, t, s')
  }

  // ------------------------------------------------------------ the invariant

  /** The thread has the lock, or has not yet finished giving it up. */
  predicate Owns(pc: Pc) {
    pc.Holding? || pc.Releasing?
  }

  /** The thread is going to exchange 2 in, or to wake a sleeper. */
  predicate WillPassOn(pc: Pc) {
    pc.Woken? || pc.Releasing? || pc.Waking?
  }

  ghost predicate Inv(s: State) {
    && s.word <= 2
    && (s.word != 0 <==> exists t: nat :: t < |s.pcs| && Owns(s.pcs[t]))
    && (forall t: nat, u: nat :: t < |s.pcs| && u < |s.pcs| && Owns(s.pcs[t]) && Owns(s.pcs[u]) ==> t == u)
    && ((exists t: nat :: t < |s.pcs| && s.pcs[t].Sleeping?) ==>
          s.word == 2 || exists t: nat :: t < |s.pcs| && WillPassOn(s.pcs[t]))
  }

  /** A thread that neither takes nor gives up the lock. */
  lemma KeepsOwners(s: State, t: nat, word: nat, pc: Pc)
    requires Inv(s) && t < |s.pcs| && Owns(s.pcs[t]) == Owns(pc)
    requires word <= 2 && (word != 0 <==> s.word != 0)
    requires WillPassOn(s.pcs[t]) ==> word == 2 || WillPassOn(pc)
    requires s.word == 2 ==> word == 2 || WillPassOn(pc)
    requires pc.Sleeping? ==> word == 2
    ensures Inv(Goto(s, t, word, pc))
  {
    var s' := Goto(s, t, word, pc);
    if u: nat :| u < |s.pcs| && Owns(s.pcs[u]) {
      assert Owns(s'.pcs[u]);
    }
    if u: nat :| u < |s.pcs| && WillPassOn(s.pcs[u]) {
      assert u != t ==> WillPassOn(s'.pcs[u]);
      assert WillPassOn(pc) ==> WillPassOn(s'.pcs[t]);
    } else {
      assert WillPassOn(pc) ==> WillPassOn(s'.pcs[t]);
    }
    if u: nat :| u < |s'.pcs| && s'.pcs[u].Sleeping? {
      assert u != t ==> s.pcs[u].Sleeping?;
    }
  }

  /** A thread that finds the word 0 becomes the owner. */
  lemma Acquires(s: State, t: nat, word: nat, fast: bool)
    requires Inv(s) && t < |s.pcs| && s.word == 0 && 1 <= word <= 2
    requires WillPassOn(s.pcs[t]) ==> word == 2
    ensures Inv(Goto(s, t, word, Holding(fast)))
  {
    var s' := Goto(s, t, word, Holding(fast));
    assert Owns(s'.pcs[t]);
    if u: nat :| u < |s.pcs| && WillPassOn(s.pcs[u]) && u != t {
      assert WillPassOn(s'.pcs[u]);
    }
    if u: nat :| u < |s'.pcs| && s'.pcs[u].Sleeping? {
      assert s.pcs[u].Sleeping?;
    }
  }

  /** An owner stores 0. */
  lemma Releases(s: State, t: nat, pc: Pc)
    requires Inv(s) && t < |s.pcs| && Owns(s.pcs[t]) && !Owns(pc) && !pc.Sleeping?
    requires WillPassOn(pc) || (s.word != 2 && !WillPassOn(s.pcs[t]))
    ensures Inv(Goto(s, t, 0, pc))
  {
    var s' := Goto(s, t, 0, pc);
    if u: nat :| u < |s.pcs| && WillPassOn(s.pcs[u]) && u != t {
      assert WillPassOn(s'.pcs[u]);
    }
    assert WillPassOn(pc) ==> WillPassOn(s'.pcs[t]);
    if u: nat :| u < |s'.pcs| && s'.pcs[u].Sleeping? {
      assert s.pcs[u].Sleeping?;
    }
  }

  lemma WakesOne(s: State, t: nat, k: nat)
    requires Inv(s) && t < |s.pcs| && k < |s.pcs| && s.pcs[t].Waking? && s.pcs[k].Sleeping?
    ensures Inv(State(s.word, s.pcs[t := Idle][k := Woken(s.pcs[k].once)]))
  {
    var s' := State(s.word, s.pcs[t := Idle][k := Woken(s.pcs[k].once)]);
    assert WillPassOn(s'.pcs[k]);
    if u: nat :| u < |s.pcs| && Owns(s.pcs[u]) {
      assert Owns(s'.pcs[u]);
    }
  }

  lemma WakesNobody(s: State, t: nat)
    requires Inv(s) && t < |s.pcs| && s.pcs[t].Waking?
    requires forall k :: 0 <= k < |s.pcs| ==> !s.pcs[k].Sleeping?
    ensures Inv(Goto(s, t, s.word, Idle))
  {
    var s' := Goto(s, t, s.word, Idle);
    if u: nat :| u < |s.pcs| && Owns(s.pcs[u]) {
      assert Owns(s'.pcs[u]);
    }
    assert forall k :: 0 <= k < |s'.pcs| ==> !s'.pcs[k].Sleeping?;
  }

  lemma OwnerWord(s: State, t: nat)
    requires Inv(s) && t < |s.pcs| && Owns(s.pcs[t])
    ensures 1 <= s.word <= 2
  {
  }

  lemma StepKeepsInv(s: State, t: nat, s': State)
    requires Inv(s) && Step(s, t, s')
    ensures Inv(s')
  {
    hide Inv;
    match s.pcs[t]
    case Idle =>
      var once :| s' == Goto(s, t, s.word, Spinning(once, false));
      WordBound(s);
      KeepsOwners(s, t, s.word, Spinning(once, false));
    case Spinning(_, _) =>
      WordBound(s);
      KeepsOwners(s, t, s.word, s'.pcs[t]);
    case SawZero(_, _) =>
      if s.word == 0 {
        Acquires(s, t, 1, true);
      } else {
        WordBound(s);
        KeepsOwners(s, t, s.word, s'.pcs[t]);
      }
    case Exchanging(_, _) =>
      if s.word == 0 {
        Acquires(s, t, 2, false);
      } else {
        KeepsOwners(s, t, 2, s'.pcs[t]);
      }
    case Waiting(_) =>
      WordBound(s);
      KeepsOwners(s, t, s.word, s'.pcs[t]);
    case Sleeping(_) =>
      WordBound(s);
      KeepsOwners(s, t, s.word, s'.pcs[t]);
    case Woken(_) =>
      if s.word == 0 {
        Acquires(s, t, 2, false);
      } else {
        KeepsOwners(s, t, 2, s'.pcs[t]);
      }
    case Holding(_) =>
      OwnerWord(s, t);
      if s.word == 1 {
        Releases(s, t, Idle);
      } else {
        KeepsOwners(s, t, 1, Releasing);
      }
    case Releasing =>
      Releases(s, t, Waking);
    case Waking =>
      if forall k :: 0 <= k < |s.pcs| ==> !s.pcs[k].Sleeping? {
        WakesNobody(s, t);
      } else {
        var k: nat :| k < |s.pcs| && s.pcs[k].Sleeping?
                      && s' == State(s.word, s.pcs[t := Idle][k := Woken(s.pcs[k].once)]);
        WakesOne(s, t, k);
      }
  }

  lemma WordBound(s: State)
    requires Inv(s)
    ensures s.word <= 2
  {
  }

  lemma {:induction false} RunKeepsInv(states: seq<State>, i: nat)
    requires IsRun(states) && i < |states|
    ensures Inv(states[i])
  {
    if i > 0 {
      RunKeepsInv(states, i - 1);
      assert SomeStep(states[i - 1], states[i - 1 + 1]);
      var t: nat :| Step(states[i - 1], t, states[i]);
      StepKeepsInv(states[i - 1], t, states[i]);
    }
  }

  // ------------------------------------------------------------ what the lock guarantees

  /** At most one thread holds the lock, and a thread still storing 0 in its unlock excludes
      every holder. */
  lemma MutualExclusion(states: seq<State>, i: nat, t: nat, u: nat)
    requires IsRun(states) && i < |states|
    requires t < |states[i].pcs| && u < |states[i].pcs| && t != u
    requires states[i].pcs[t].Holding?
    ensures !states[i].pcs[u].Holding? && !states[i].pcs[u].Releasing?
  {
    RunKeepsInv(states, i);
  }

  /** No wakeup is lost: while a thread sleeps, the word tells the owner so, or an unlocker has
      yet to wake somebody, or a woken thread has yet to exchange 2 in. */
  lemma NoLostWakeup(states: seq<State>, i: nat, t: nat)
    requires IsRun(states) && i < |states|
    requires t < |states[i].pcs| && states[i].pcs[t].Sleeping?
    ensures states[i].word == 2 || exists u: nat :: u < |states[i].pcs| && WillPassOn(states[i].pcs[u])
  {
    RunKeepsInv(states, i);
  }

  /** Nobody sleeps on a free lock: if all threads are idle or asleep, none is asleep. */
  lemma NobodySleepsForever(states: seq<State>, i: nat)
    requires IsRun(states) && i < |states|
    requires forall t :: 0 <= t < |states[i].pcs| ==> states[i].pcs[t].Idle? || states[i].pcs[t].Sleeping?
    ensures forall t :: 0 <= t < |states[i].pcs| ==> states[i].pcs[t].Idle?
    ensures states[i].word == 0
  {
    RunKeepsInv(states, i);
  }

  ghost predicate AnotherWillPassOn(s: State, t: nat) {
    exists k: nat :: k < |s.pcs| && k != t && WillPassOn(s.pcs[k])
  }

  /** When the owner unlocks and sleepers are there, it goes on to wake one, unless a woken
      thread is already on its way. */
  lemma UnlockWakes(states: seq<State>, i: nat, t: nat, u: nat)
    requires IsRun(states) && i < |states| - 1
    requires t < |states[i].pcs| && u < |states[i].pcs|
    requires states[i].pcs[t].Holding? && states[i].pcs[u].Sleeping?
    requires Step(states[i], t, states[i + 1])
    ensures states[i + 1].pcs[t].Releasing?
            || AnotherWillPassOn(states[i + 1], t)
  {
    RunKeepsInv(states, i);
    var s := states[i];
    if s.word != 2 {
      var k: nat :| k < |s.pcs| && WillPassOn(s.pcs[k]);
      assert WillPassOn(states[i + 1].pcs[k]);
    }
  }

  /** `futex_haswaiters`: the word is 2. */
  predicate HasWaiters(s: State) {
    s.word == 2
  }

  /** The thread is trying to get the lock. */
  predicate Tries(pc: Pc) {
    pc.Spinning? || pc.SawZero? || pc.Exchanging? || pc.Waiting? || pc.Sleeping? || pc.Woken?
  }

  /** Nobody uses the timed lock. */
  ghost predicate Untimed(s: State) {
    forall t :: 0 <= t < |s.pcs| && Tries(s.pcs[t]) ==> !s.pcs[t].once
  }

  /** The thread has exchanged 2 in and found the lock taken: it is about to sleep, asleep, or
      back from it and still without the lock. */
  predicate Queued(pc: Pc) {
    || pc.Waiting? || pc.Sleeping? || pc.Woken?
    || ((pc.Spinning? || pc.SawZero? || pc.Exchanging?) && pc.again)
  }

  ghost predicate AnotherQueued(s: State, t: nat) {
    exists u: nat :: u < |s.pcs| && u != t && Queued(s.pcs[u])
  }

  /** What the flag says, by how the owner got the lock. */
  ghost predicate FlagOk(s: State, t: nat) {
    t < |s.pcs| && s.pcs[t].Holding? ==>
      if s.pcs[t].fast then (HasWaiters(s) ==> AnotherQueued(s, t)) else HasWaiters(s)
  }

  lemma StepKeepsFlag(s: State, k: nat, s': State, t: nat)
    requires Inv(s) && Step(s, k, s') && Untimed(s) && Untimed(s') && FlagOk(s, t)
    ensures FlagOk(s', t)
  {
    if t < |s'.pcs| && s'.pcs[t].Holding? {
      if k == t {
        assert s'.word == if s'.pcs[t].fast then 1 else 2;
      } else {
        assert s.pcs[t].Holding? && Owns(s.pcs[t]) && s.word != 0;
        assert !Owns(s.pcs[k]);
        if s.pcs[t].fast && HasWaiters(s') {
          FlagPaidFor(s, k, s', t);
        }
      }
    }
  }

  /** While a thread holds the lock, whoever sets the flag is in the queue, and nobody leaves it. */
  lemma FlagPaidFor(s: State, k: nat, s': State, t: nat)
    requires Step(s, k, s') && Untimed(s) && t < |s.pcs| && k != t && s.word != 0 && !Owns(s.pcs[k])
    requires HasWaiters(s) ==> AnotherQueued(s, t)
    requires HasWaiters(s')
    ensures AnotherQueued(s', t)
  {
    assert |s'.pcs| == |s.pcs|;
    if !Queued(s'.pcs[k]) {
      assert s'.word == s.word && !Queued(s.pcs[k]);
      var u: nat :| u < |s.pcs| && u != t && Queued(s.pcs[u]);
      assert Queued(s'.pcs[u]);
    }
  }

  /** For an owner that got the lock by the compare-and-swap the flag means that another thread
      has exchanged 2 in and not had the lock since, if nobody uses the timed lock; for an owner
      that got it by an exchange it is always set. */
  lemma {:induction false} HasWaitersMeans(states: seq<State>, i: nat, t: nat)
    requires IsRun(states) && i < |states| && t < |states[i].pcs|
    requires forall j :: 0 <= j <= i ==> Untimed(states[j])
    requires states[i].pcs[t].Holding?
    ensures if states[i].pcs[t].fast then HasWaiters(states[i]) ==> AnotherQueued(states[i], t)
            else HasWaiters(states[i])
  {
    RunKeepsFlag(states, i, t);
  }

  lemma {:induction false} RunKeepsFlag(states: seq<State>, i: nat, t: nat)
    requires IsRun(states) && i < |states|
    requires forall j :: 0 <= j <= i ==> Untimed(states[j])
    ensures FlagOk(states[i], t)
  {
    hide Inv, FlagOk, Untimed;
    if i == 0 {
      StartFlag(states[0], t);
    } else {
      RunKeepsFlag(states, i - 1, t);
      RunKeepsInv(states, i - 1);
      assert SomeStep(states[i - 1], states[i - 1 + 1]);
      var k: nat :| Step(states[i - 1], k, states[i]);
      StepKeepsFlag(states[i - 1], k, states[i], t);
    }
  }

  lemma StartFlag(s: State, t: nat)
    requires Init(s)
    ensures FlagOk(s, t)
  {
  }

  /** In this step another thread than `t` exchanges 2 in. */
  ghost predicate Knocks(s: State, s': State, t: nat) {
    exists u: nat :: u < |s.pcs| && u != t && (s.pcs[u].Exchanging? || s.pcs[u].Woken?) && Step(s, u, s')
  }

  /** While `t` has the lock, the word changes only if another thread exchanges 2 in. */
  lemma WordWhileHeld(s: State, k: nat, s': State, t: nat)
    requires Inv(s) && Step(s, k, s') && t < |s.pcs| && |s'.pcs| == |s.pcs|
    requires s.pcs[t].Holding? && s'.pcs[t].Holding?
    ensures s'.word == if (s.pcs[k].Exchanging? || s.pcs[k].Woken?) then 2 else s.word
    ensures k != t && s'.pcs[t] == s.pcs[t]
  {
    assert Owns(s.pcs[t]) && s.word != 0;
    assert k != t ==> !Owns(s.pcs[k]);
  }

  lemma KnockSetsFlag(s: State, s': State, t: nat)
    requires Inv(s) && SomeStep(s, s') && t < |s.pcs| && |s'.pcs| == |s.pcs|
    requires s.pcs[t].Holding? && s'.pcs[t].Holding?
    ensures s'.word == if Knocks(s, s', t) then 2 else s.word
  {
    hide Inv, Step;
    var k: nat :| Step(s, k, s');
    StepBounds(s, k, s');
    if Knocks(s, s', t) {
      var u: nat :| u < |s.pcs| && u != t && (s.pcs[u].Exchanging? || s.pcs[u].Woken?) && Step(s, u, s');
      WordWhileHeld(s, u, s', t);
    } else {
      WordWhileHeld(s, k, s', t);
    }
  }

  lemma StepBounds(s: State, k: nat, s': State)
    requires Step(s, k, s')
    ensures k < |s.pcs| && |s'.pcs| == |s.pcs|
  {
  }

  lemma SwapTakesLock(s: State, s': State, t: nat)
    requires SomeStep(s, s') && t < |s.pcs| && t < |s'.pcs| && s.pcs[t].SawZero? && s'.pcs[t].Holding?
    ensures s'.word == 1
  {
  }

  /** With or without timed locks: for an owner that got the lock by the compare-and-swap of step
      `a`, the flag is set exactly if another thread has exchanged 2 in since. */
  lemma {:induction false} FlagSinceAcquired(states: seq<State>, a: nat, i: nat, t: nat)
    requires IsRun(states) && a < i < |states|
    requires forall j :: a <= j <= i ==> t < |states[j].pcs| == |states[a].pcs|
    requires states[a].pcs[t].SawZero? && forall j :: a < j <= i ==> states[j].pcs[t].Holding?
    ensures HasWaiters(states[i]) <==> exists j :: a < j < i && Knocks(states[j], states[j + 1], t)
    ensures 1 <= states[i].word <= 2
    decreases i
  {
    hide Inv, SomeStep, Knocks;
    var last := i - 1;
    RunKeepsInv(states, last);
    assert SomeStep(states[last], states[last + 1]);
    if last == a {
      SwapTakesLock(states[a], states[i], t);
    } else {
      FlagSinceAcquired(states, a, last, t);
      KnockSetsFlag(states[last], states[i], t);
      if Knocks(states[last], states[last + 1], t) {
      } else {
        assert forall j :: a < j < i && Knocks(states[j], states[j + 1], t) ==> j < last;
      }
    }
  }

  /** With timed locks the flag may be a false positive, contrary to its description: after one
      has given up, the word stays 2 although only the owner is left. */
  lemma HasWaitersCanBeStale() returns (states: seq<State>)
    ensures IsRun(states) && |states| > 0
    ensures var s := states[|states| - 1];
            HasWaiters(s) && s.pcs == [Holding(true), Idle]
  {
    hide IsRun;
    states := [State(0, [Idle, Idle])];
    StartRun(states[0]);
    states := Then(states, 0, State(0, [Spinning(false, false), Idle]));
    states := Then(states, 0, State(0, [SawZero(false, false), Idle]));
    states := Then(states, 0, State(1, [Holding(true), Idle]));
    states := Then(states, 1, State(1, [Holding(true), Spinning(true, false)]));
    states := Then(states, 1, State(1, [Holding(true), Exchanging(true, false)]));
    states := Then(states, 1, State(2, [Holding(true), Waiting(true)]));
    states := Then(states, 1, State(2, [Holding(true), Sleeping(true)]));
    states := Then(states, 1, State(2, [Holding(true), Woken(true)]));
    states := Then(states, 1, State(2, [Holding(true), Idle]));
  }

  /** So it may without them, for an owner that got the lock by an exchange. */
  lemma ExchangeLeavesFlag() returns (states: seq<State>)
    ensures IsRun(states) && |states| > 0
    ensures var s := states[|states| - 1];
            HasWaiters(s) && s.pcs == [Holding(false), Idle]
  {
    hide IsRun;
    states := [State(0, [Idle, Idle])];
    StartRun(states[0]);
    states := Then(states, 1, State(0, [Idle, Spinning(false, false)]));
    states := Then(states, 1, State(0, [Idle, SawZero(false, false)]));
    states := Then(states, 1, State(1, [Idle, Holding(true)]));
    states := Then(states, 0, State(1, [Spinning(false, false), Holding(true)]));
    states := Then(states, 0, State(1, [Exchanging(false, false), Holding(true)]));
    states := Then(states, 1, State(0, [Exchanging(false, false), Idle]));
    states := Then(states, 0, State(2, [Holding(false), Idle]));
  }

  /** The flag does not mean that anybody is in the kernel: it is set before the system call. */
  lemma FlagBeforeSleep() returns (states: seq<State>)
    ensures IsRun(states) && |states| > 0
    ensures var s := states[|states| - 1];
            HasWaiters(s) && s.pcs == [Holding(true), Waiting(false)]
  {
    hide IsRun;
    states := [State(0, [Idle, Idle])];
    StartRun(states[0]);
    states := Then(states, 0, State(0, [Spinning(false, false), Idle]));
    states := Then(states, 0, State(0, [SawZero(false, false), Idle]));
    states := Then(states, 0, State(1, [Holding(true), Idle]));
    states := Then(states, 1, State(1, [Holding(true), Spinning(false, false)]));
    states := Then(states, 1, State(1, [Holding(true), Exchanging(false, false)]));
    states := Then(states, 1, State(2, [Holding(true), Waiting(false)]));
  }

  lemma StartRun(s: State)
    requires Init(s)
    ensures IsRun([s])
  {
  }

  lemma Then(states: seq<State>, t: nat, s: State) returns (longer: seq<State>)
    requires IsRun(states) && |states| > 0 && Step(states[|states| - 1], t, s)
    ensures longer == states + [s] && IsRun(longer) && |longer| > 0 && longer[|longer| - 1] == s
  {
    longer := states + [s];
    forall i | 0 <= i < |longer| - 1
      ensures SomeStep(longer[i], longer[i + 1])
    {
      if i < |states| - 1 {
        assert SomeStep(states[i], states[i + 1]);
      }
    }
  }
}
