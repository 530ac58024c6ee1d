/**
 The reader-writer mutex for any number of threads. `wq` and `rb` are mutexes (see
 FutexMutex for why they exclude); `readers` is an atomic counter. Each acquisition,
 release and fetch-and-add is one step. `upgrade` is `rdUnlock` followed by `wrLock`.
 */
module RwMutex {
  import Sequences

  datatype Pc =
    | Out
    | RdWantRb       // rdLock: waiting for rb
    | RdCount        // has rb, about to add 1 to readers
    | RdWantWq       // first reader, has rb, waiting for wq
    | RdLeaveRb      // may read, about to release rb
    | Reading
    | RdFreeWq       // rdUnlock by the last reader, about to release wq
    | WrWantRb       // wrLock: waiting for rb
    | WrWantWq       // has rb, waiting for wq
    | WrLeaveRb      // may write, about to release rb
    | Writing
    | DgFreeWq       // downgrade that found a waiting reader, about to release wq

  datatype State = State(wq: bool, rb: bool, readers: nat, pcs: seq<Pc>)

  /** A step may find an assertion false or release a mutex that is free. */
  datatype Outcome = Next(s: State) | AssertionFails | ReleasesFree

  ghost predicate Init(s: State) {
    !s.wq && !s.rb && s.readers == 0 && forall t :: 0 <= t < |s.pcs| ==> s.pcs[t] == Out
  }

  predicate Blocked(s: State, t: nat)
    requires t < |s.pcs|
  {
    match s.pcs[t]
    case RdWantRb => s.rb
    case WrWantRb => s.rb
    case RdWantWq => s.wq
    case WrWantWq => s.wq
    case _ => false
  }

  function FreeWq(s: State, t: nat, pc: Pc): Outcome
    requires t < |s.pcs|
  {
    if s.wq then Next(s.(wq := false, pcs := s.pcs[t := pc])) else ReleasesFree
  }

  function FreeRb(s: State, t: nat, pc: Pc): Outcome
    requires t < |s.pcs|
  {
    if s.rb then Next(s.(rb := false, pcs := s.pcs[t := pc])) else ReleasesFree
  }

  /** The step of thread `t`; `choice` is what its caller does next where it has a choice. */
  function Step(s: State, t: nat, choice: bool): Outcome
    requires t < |s.pcs| && !Blocked(s, t)
  {
    match s.pcs[t]
    case Out => Next(s.(pcs := s.pcs[t := if choice then RdWantRb else WrWantRb]))
    case RdWantRb => Next(s.(rb := true, pcs := s.pcs[t := RdCount]))
    case RdCount =>
      Next(s.(readers := s.readers + 1, pcs := s.pcs[t := if s.readers == 0 then RdWantWq else RdLeaveRb]))
    case RdWantWq => Next(s.(wq := true, pcs := s.pcs[t := RdLeaveRb]))
    case RdLeaveRb => FreeRb(s, t, Reading)
    case Reading =>
      if s.readers == 0 then AssertionFails
      else Next(s.(readers := s.readers - 1, pcs := s.pcs[t := if s.readers == 1 then RdFreeWq else Out]))
    case RdFreeWq => FreeWq(s, t, Out)
    case WrWantRb => Next(s.(rb := true, pcs := s.pcs[t := WrWantWq]))
    case WrWantWq => Next(s.(wq := true, pcs := s.pcs[t := WrLeaveRb]))
    case WrLeaveRb => FreeRb(s, t, Writing)
    case Writing =>
      if choice then
        FreeWq(s, t, Out)
      else if s.readers == 0 then
        Next(s.(readers := 1, pcs := s.pcs[t := Reading]))
      else if s.readers == 1 then
        Next(s.(readers := 2, pcs := s.pcs[t := DgFreeWq]))
      else
        AssertionFails
    case DgFreeWq => FreeWq(s, t, Reading)
  }

  ghost predicate SomeStep(s: State, s': State) {
    exists t: nat, choice :: t < |s.pcs| && !Blocked(s, t) && Step(s, t, choice) == Next(s')
  }

  ghost predicate IsRun(states: seq<State>) {
    && |states| > 0
    && Init(states[0])
    && forall i :: 0 <= i < |states| - 1 ==> SomeStep(states[i], states[i + 1])
  }

  // ------------------------------------------------------------ counting

  /** The thread has been added to `readers` and not yet subtracted. */
  predicate Counted(pc: Pc) {
    pc.RdWantWq? || pc.RdLeaveRb? || pc.Reading? || pc.DgFreeWq?
  }

  function Count(pcs: seq<Pc>): nat {
    Sequences.Count(pcs, Counted)
  }

  lemma CountUpdate(pcs: seq<Pc>, t: nat, pc: Pc)
    requires t < |pcs|
    ensures Count(pcs[t := pc]) == Count(pcs) - (if Counted(pcs[t]) then 1 else 0) + (if Counted(pc) then 1 else 0)
  {
    Sequences.CountUpdate(pcs, t, pc, Counted);
  }

  lemma CountZero(pcs: seq<Pc>)
    ensures Count(pcs) == 0 <==> forall t :: 0 <= t < |pcs| ==> !Counted(pcs[t])
  {
    Sequences.CountZero(pcs, Counted);
  }

  /** If the count is 1, nobody besides a counted thread is counted. */
  lemma CountOne(pcs: seq<Pc>, t: nat)
    requires t < |pcs| && Counted(pcs[t])
    ensures Count(pcs) >= 1
    ensures Count(pcs) == 1 <==> forall u :: 0 <= u < |pcs| && u != t ==> !Counted(pcs[u])
  {
    CountUpdate(pcs, t, Out);
    CountZero(pcs[t := Out]);
    assert forall u :: 0 <= u < |pcs| && u != t ==> pcs[t := Out][u] == pcs[u];
    if Count(pcs) != 1 {
      assert Count(pcs[t := Out]) != 0;
      var u :| 0 <= u < |pcs| && Counted(pcs[t := Out][u]);
      assert u != t && Counted(pcs[u]);
    }
  }

  // ------------------------------------------------------------ the invariant

  /** Roles a thread can have. */
  datatype Role =
    | HoldsRb      // has the mutex rb
    | OwnsWq       // owns wq alone: as a writer, or on the way to releasing it
    | Reads        // has been let in as a reader
    | WaitsFirst   // the first reader, waiting for wq
    | Downgrades   // a downgrading writer that still has to release wq
    | Writes
    | IsCounted

  predicate Has(role: Role, pc: Pc) {
    match role
    case HoldsRb => pc.RdCount? || pc.RdWantWq? || pc.RdLeaveRb? || pc.WrWantWq? || pc.WrLeaveRb?
    case OwnsWq => pc.WrLeaveRb? || pc.Writing? || pc.DgFreeWq? || pc.RdFreeWq?
    case Reads => pc.RdLeaveRb? || pc.Reading?
    case WaitsFirst => pc.RdWantWq?
    case Downgrades => pc.DgFreeWq?
    case Writes => pc.WrLeaveRb? || pc.Writing?
    case IsCounted => Counted(pc)
  }

  ghost predicate AnyWith(pcs: seq<Pc>, role: Role) {
    exists t: nat :: t < |pcs| && Has(role, pcs[t])
  }

  ghost predicate AtMostOne(pcs: seq<Pc>, role: Role) {
    forall t: nat, u: nat :: t < |pcs| && u < |pcs| && Has(role, pcs[t]) && Has(role, pcs[u]) ==> t == u
  }

  ghost predicate Inv(s: State) {
    && s.readers == Count(s.pcs)
    && AtMostOne(s.pcs, HoldsRb) && (s.rb <==> AnyWith(s.pcs, HoldsRb))
    && AtMostOne(s.pcs, OwnsWq)
    && (AnyWith(s.pcs, OwnsWq) ==> !AnyWith(s.pcs, Reads))
    && (s.wq <==> AnyWith(s.pcs, OwnsWq) || (AnyWith(s.pcs, Reads) && !AnyWith(s.pcs, WaitsFirst)))
    && (AnyWith(s.pcs, Downgrades) ==> AnyWith(s.pcs, WaitsFirst))
  }

  /** Some thread other than `t`. */
  ghost predicate Another(pcs: seq<Pc>, t: nat, role: Role) {
    exists u: nat :: u < |pcs| && u != t && Has(role, pcs[u])
  }

  /** How one thread's move shows in a property of all. */
  lemma OneMoves(pcs: seq<Pc>, t: nat, pc: Pc, role: Role)
    requires t < |pcs|
    ensures AnyWith(pcs, role) <==> Has(role, pcs[t]) || Another(pcs, t, role)
    ensures AnyWith(pcs[t := pc], role) <==> Has(role, pc) || Another(pcs, t, role)
    ensures AtMostOne(pcs, role) && Has(role, pcs[t]) ==> !Another(pcs, t, role)
    ensures AtMostOne(pcs, role) && (Has(role, pc) ==> !Another(pcs, t, role)) ==> AtMostOne(pcs[t := pc], role)
  {
    hide Has;
    var pcs' := pcs[t := pc];
    if u: nat :| u < |pcs| && u != t && Has(role, pcs[u]) {
      assert Has(role, pcs'[u]);
    }
    if u: nat :| u < |pcs'| && Has(role, pcs'[u]) {
      assert u != t ==> Has(role, pcs[u]);
    }
    if Has(role, pc) {
      assert Has(role, pcs'[t]);
    }
  }

  lemma InitInv(s: State)
    requires Init(s)
    ensures Inv(s)
  {
    CountZero(s.pcs);
  }

  /** Nobody else is counted when the counter says so. */
  lemma NobodyCounted(pcs: seq<Pc>, t: nat)
    requires t < |pcs|
    ensures Another(pcs, t, WaitsFirst) || Another(pcs, t, Reads) || Another(pcs, t, Downgrades)
            <==> Another(pcs, t, IsCounted)
    ensures Another(pcs, t, IsCounted) <==> Count(pcs) > (if Counted(pcs[t]) then 1 else 0)
  {
    if Counted(pcs[t]) {
      CountOne(pcs, t);
    } else {
      CountZero(pcs);
      if Count(pcs) > 0 {
        var u :| 0 <= u < |pcs| && Counted(pcs[u]);
      }
    }
    if u: nat :| u < |pcs| && u != t && Has(IsCounted, pcs[u]) {
      assert Has(WaitsFirst, pcs[u]) || Has(Reads, pcs[u]) || Has(Downgrades, pcs[u]);
    }
  }

  /** At most one waiting first reader besides a writer: they hold `rb`. */
  lemma AtMostOneWaits(s: State, t: nat)
    requires Inv(s) && t < |s.pcs| && s.pcs[t].Writing?
    ensures s.readers <= 1
    ensures s.readers == 1 ==> AnyWith(s.pcs, WaitsFirst)
  {
    forall u: nat | u < |s.pcs| && Counted(s.pcs[u])
      ensures Has(WaitsFirst, s.pcs[u])
    {
      assert Has(OwnsWq, s.pcs[t]);
      assert !Has(Reads, s.pcs[u]);
      assert Has(OwnsWq, s.pcs[u]) ==> u == t;
    }
    if u: nat :| u < |s.pcs| && Counted(s.pcs[u]) {
      forall v: nat | v < |s.pcs| && Counted(s.pcs[v])
        ensures v == u
      {
        assert Has(HoldsRb, s.pcs[u]) && Has(HoldsRb, s.pcs[v]);
      }
      CountOne(s.pcs, u);
    } else {
      CountZero(s.pcs);
    }
  }

  lemma StepIsFine(s: State, t: nat, choice: bool)
    requires Inv(s) && t < |s.pcs| && !Blocked(s, t)
    ensures Step(s, t, choice).Next?
  {
    if s.pcs[t].Reading? {
      CountOne(s.pcs, t);
    } else if s.pcs[t].Writing? {
      AtMostOneWaits(s, t);
    }
    assert Has(HoldsRb, s.pcs[t]) ==> AnyWith(s.pcs, HoldsRb);
    assert Has(OwnsWq, s.pcs[t]) ==> AnyWith(s.pcs, OwnsWq);
  }

  lemma StepKeepsInv(s: State, t: nat, choice: bool)
    requires Inv(s) && t < |s.pcs| && !Blocked(s, t)
    ensures Step(s, t, choice).Next? && Inv(Step(s, t, choice).s)
  {
    hide AnyWith, AtMostOne, Another, Count;
    var pc := s.pcs[t];
    if pc.Writing? {
      AtMostOneWaits(s, t);
    }
    NobodyCounted(s.pcs, t);
    StepIsFine(s, t, choice);
    var pc' := Step(s, t, choice).s.pcs[t];
    OneMoves(s.pcs, t, pc', HoldsRb);
    OneMoves(s.pcs, t, pc', OwnsWq);
    OneMoves(s.pcs, t, pc', Reads);
    OneMoves(s.pcs, t, pc', WaitsFirst);
    OneMoves(s.pcs, t, pc', Downgrades);
    CountUpdate(s.pcs, t, pc');
    RolesImplied(s.pcs, t);
  }

  lemma RolesImplied(pcs: seq<Pc>, t: nat)
    ensures Another(pcs, t, WaitsFirst) ==> Another(pcs, t, HoldsRb)
    ensures Another(pcs, t, Downgrades) ==> Another(pcs, t, OwnsWq)
  {
    if u: nat :| u < |pcs| && u != t && Has(WaitsFirst, pcs[u]) {
      assert Has(HoldsRb, pcs[u]);
    }
    if u: nat :| u < |pcs| && u != t && Has(Downgrades, pcs[u]) {
      assert Has(OwnsWq, pcs[u]);
    }
  }

  lemma {:induction false} RunKeepsInv(states: seq<State>, i: nat)
    requires IsRun(states) && i < |states|
    ensures Inv(states[i])
  {
    if i == 0 {
      InitInv(states[0]);
    } else {
      RunKeepsInv(states, i - 1);
      assert SomeStep(states[i - 1], states[i - 1 + 1]);
      var t: nat, choice :| t < |states[i - 1].pcs| && !Blocked(states[i - 1], t)
                            && Step(states[i - 1], t, choice) == Next(states[i]);
      StepKeepsInv(states[i - 1], t, choice);
    }
  }

  // ------------------------------------------------------------ what the lock guarantees

  /** A writer excludes every reader and every other writer. */
  lemma WriterIsAlone(states: seq<State>, i: nat, t: nat, u: nat)
    requires IsRun(states) && i < |states|
    requires t < |states[i].pcs| && u < |states[i].pcs| && t != u
    requires Has(Writes, states[i].pcs[t])
    ensures !Has(Writes, states[i].pcs[u]) && !Has(Reads, states[i].pcs[u])
  {
    RunKeepsInv(states, i);
    var s := states[i];
    assert Has(OwnsWq, s.pcs[t]);
  }

  /** `wq` and `rb` are never released when free, and a downgrade finds at most one reader. */
  lemma NothingFails(states: seq<State>, i: nat, t: nat, choice: bool)
    requires IsRun(states) && i < |states|
    requires t < |states[i].pcs| && !Blocked(states[i], t)
    ensures Step(states[i], t, choice).Next?
  {
    RunKeepsInv(states, i);
    StepKeepsInv(states[i], t, choice);
  }

  /** A downgrade is atomic: from the writer's last step to the moment it reads, no other
      thread writes. */
  lemma DowngradeIsAtomic(states: seq<State>, i: nat, t: nat, u: nat)
    requires IsRun(states) && i < |states|
    requires t < |states[i].pcs| && u < |states[i].pcs| && t != u
    requires states[i].pcs[t].DgFreeWq? || states[i].pcs[t].Reading?
    ensures !Has(Writes, states[i].pcs[u])
  {
    RunKeepsInv(states, i);
    var s := states[i];
    assert Has(OwnsWq, s.pcs[t]) || Has(Reads, s.pcs[t]);
    assert Has(Writes, s.pcs[u]) ==> Has(OwnsWq, s.pcs[u]);
  }

  /** No deadlock: if a thread waits, some thread that is neither waiting nor outside can go on. */
  lemma WaitingIsNotForever(states: seq<State>, i: nat, t: nat)
    requires IsRun(states) && i < |states|
    requires t < |states[i].pcs| && Blocked(states[i], t)
    ensures exists u: nat :: u < |states[i].pcs| && states[i].pcs[u] != Out && !Blocked(states[i], u)
  {
    RunKeepsInv(states, i);
    var s := states[i];
    var h: nat := t;
    if s.rb && !s.pcs[t].RdWantWq? && !s.pcs[t].WrWantWq? {
      h :| h < |s.pcs| && Has(HoldsRb, s.pcs[h]);
    }
    if Blocked(s, h) {
      if AnyWith(s.pcs, OwnsWq) {
        var u: nat :| u < |s.pcs| && Has(OwnsWq, s.pcs[u]);
        assert !Blocked(s, u);
      } else {
        var u: nat :| u < |s.pcs| && Has(Reads, s.pcs[u]);
        assert !Blocked(s, u);
      }
    }
  }

  /** Thread `t` gets from `s` to `s'` by `n` steps of its own. */
  ghost predicate MovesAlone(s: State, t: nat, n: nat, s': State)
    requires t < |s.pcs|
    decreases n
  {
    if n == 0 then s' == s
    else exists choice ::
           !Blocked(s, t) && Step(s, t, choice).Next? && t < |Step(s, t, choice).s.pcs|
           && MovesAlone(Step(s, t, choice).s, t, n - 1, s')
  }

  /** Readers do not block a reader: with nobody else inside but readers, a thread that wants to read
      gets in by itself, and the others read on. */
  lemma ReadersLetIn(states: seq<State>, i: nat, t: nat)
    requires IsRun(states) && i < |states| && t < |states[i].pcs| && states[i].pcs[t].RdWantRb?
    requires forall u :: 0 <= u < |states[i].pcs| && u != t ==> states[i].pcs[u].Out? || states[i].pcs[u].Reading?
    ensures var s := states[i];
            MovesAlone(s, t, if s.readers == 0 then 4 else 3,
                       s.(wq := true, readers := s.readers + 1, pcs := s.pcs[t := Reading]))
  {
    RunKeepsInv(states, i);
    var s := states[i];
    var end := s.(wq := true, readers := s.readers + 1, pcs := s.pcs[t := Reading]);
    NothingHeld(s, t);
    var s1 := Step(s, t, true).s;
    var s2 := Step(s1, t, true).s;
    var s3 := if s2.pcs[t].RdWantWq? then Step(s2, t, true).s else s2;
    assert Step(s3, t, true) == Next(end);
    assert MovesAlone(end, t, 0, end);
    assert MovesAlone(s3, t, 1, end);
    if s2.pcs[t].RdWantWq? {
      assert MovesAlone(s2, t, 2, end);
      assert MovesAlone(s1, t, 3, end);
      assert MovesAlone(s, t, 4, end);
    } else {
      assert MovesAlone(s1, t, 2, end);
      assert MovesAlone(s, t, 3, end);
    }
  }

  /** With nobody inside but readers, `rb` is free, and `wq` is taken exactly if there are any. */
  lemma NothingHeld(s: State, t: nat)
    requires Inv(s) && t < |s.pcs| && s.pcs[t].RdWantRb?
    requires forall u :: 0 <= u < |s.pcs| && u != t ==> s.pcs[u].Out? || s.pcs[u].Reading?
    ensures !s.rb && (s.wq <==> s.readers > 0)
  {
    CountZero(s.pcs);
    if u: nat :| u < |s.pcs| && Counted(s.pcs[u]) {
      assert Has(Reads, s.pcs[u]);
    }
  }
}
