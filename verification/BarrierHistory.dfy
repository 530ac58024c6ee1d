/**
 What happens at a phase barrier, as a history of events, and what a barrier is for: a thread
 that has reached it does not go on before the phase ends, a phase does not end before every
 thread has had its turn and has reached the barrier or left.
 */
module BarrierHistory {

  datatype Event = Joined(t: nat) | Woken(t: nat) | Synced(t: nat) | Left(t: nat) | PhaseEnded

  /** The thread has joined and not left since. */
  function Inside(h: seq<Event>, t: nat): bool {
    h != [] &&
    match h[|h| - 1]
    case Joined(u) => u == t || Inside(h[..|h| - 1], t)
    case Left(u) => u != t && Inside(h[..|h| - 1], t)
    case _ => Inside(h[..|h| - 1], t)
  }

  /** The thread has been woken and has neither reached the barrier nor left since. */
  function Runs(h: seq<Event>, t: nat): bool {
    h != [] &&
    match h[|h| - 1]
    case Woken(u) => u == t || Runs(h[..|h| - 1], t)
    case PhaseEnded => Runs(h[..|h| - 1], t)
    case Joined(u) => u != t && Runs(h[..|h| - 1], t)
    case Synced(u) => u != t && Runs(h[..|h| - 1], t)
    case Left(u) => u != t && Runs(h[..|h| - 1], t)
  }

  /** The thread has been woken in this phase, and not joined again since. */
  function Had(h: seq<Event>, t: nat): bool {
    h != [] &&
    match h[|h| - 1]
    case Woken(u) => u == t || Had(h[..|h| - 1], t)
    case PhaseEnded => false
    case Joined(u) => u != t && Had(h[..|h| - 1], t)
    case _ => Had(h[..|h| - 1], t)
  }

  /** An event that may come next. */
  ghost predicate EventOk(h: seq<Event>, e: Event) {
    match e
    case Joined(t) => !Inside(h, t)
    case Woken(t) => Inside(h, t) && !Runs(h, t) && !Had(h, t)
    case Synced(t) => Runs(h, t)
    case Left(t) => Inside(h, t)
    case PhaseEnded => forall t: nat :: Inside(h, t) ==> Had(h, t) && !Runs(h, t)
  }

  ghost predicate Lawful(h: seq<Event>) {
    forall j :: 0 <= j < |h| ==> EventOk(h[..j], h[j])
  }

  lemma LawfulGrows(h: seq<Event>, e: Event)
    requires Lawful(h) && EventOk(h, e)
    ensures Lawful(h + [e])
  {
    hide EventOk;
    var h' := h + [e];
    forall j | 0 <= j < |h'|
      ensures EventOk(h'[..j], h'[j])
    {
      assert h'[..j] == h[..j];
      assert j == |h| ==> h[..j] == h;
    }
  }

  lemma LawfulPrefix(h: seq<Event>, n: nat)
    requires Lawful(h) && n <= |h|
    ensures Lawful(h[..n])
  {
    hide EventOk;
    forall j | 0 <= j < n
      ensures EventOk(h[..n][..j], h[..n][j])
    {
      assert h[..n][..j] == h[..j];
    }
  }

  lemma LawAt(h: seq<Event>, j: nat)
    requires Lawful(h) && j < |h|
    ensures EventOk(h[..j], h[j])
  {
  }

  /** What one more event does. */
  lemma Appended(h: seq<Event>, e: Event, t: nat)
    ensures Inside(h + [e], t) == if e == Joined(t) then true else if e == Left(t) then false else Inside(h, t)
    ensures Runs(h + [e], t)
            == if e == Woken(t) then true
               else if e == Joined(t) || e == Synced(t) || e == Left(t) then false else Runs(h, t)
    ensures Had(h + [e], t)
            == if e == Woken(t) then true else if e == Joined(t) || e == PhaseEnded then false else Had(h, t)
  {
    assert (h + [e])[..|h|] == h;
  }

  lemma Next(h: seq<Event>, n: nat)
    requires n < |h|
    ensures h[..n + 1] == h[..n] + [h[n]]
  {
  }

  /** A thread that runs is inside and has had its turn in this phase. */
  lemma {:induction false} RunnersHad(h: seq<Event>, t: nat)
    requires Lawful(h)
    ensures Runs(h, t) ==> Inside(h, t) && Had(h, t)
  {
    if h != [] {
      var n := |h| - 1;
      LawfulPrefix(h, n);
      RunnersHad(h[..n], t);
      assert EventOk(h[..n], h[n]);
    }
  }

  /** A turn is had until the phase ends or the thread joins again. */
  lemma {:induction false} HadUntil(h: seq<Event>, t: nat, i: nat, j: nat)
    requires i <= j <= |h| && Had(h[..i], t)
    requires forall k :: i <= k < j ==> h[k] != PhaseEnded && h[k] != Joined(t)
    ensures Had(h[..j], t)
    decreases j
  {
    if i < j {
      HadUntil(h, t, i, j - 1);
      Next(h, j - 1);
      Appended(h[..j - 1], h[j - 1], t);
    }
  }

  /** Between two turns of a thread the phase has ended or the thread has joined again. */
  lemma OneTurnAPhase(h: seq<Event>, t: nat, i: nat, j: nat)
    requires Lawful(h) && i < j < |h| && h[i] == Woken(t) && h[j] == Woken(t)
    ensures exists k :: i < k < j && (h[k] == PhaseEnded || h[k] == Joined(t))
  {
    assert EventOk(h[..j], h[j]);
    if forall k :: i < k < j ==> h[k] != PhaseEnded && h[k] != Joined(t) {
      Next(h, i);
      Appended(h[..i], h[i], t);
      HadUntil(h, t, i + 1, j);
    }
  }

  /** The law of the barrier: a thread that has reached it is not woken before the phase ends, unless
      it has left and joined again. */
  lemma SyncedWaits(h: seq<Event>, t: nat, i: nat, j: nat)
    requires Lawful(h) && i < j < |h| && h[i] == Synced(t) && h[j] == Woken(t)
    ensures exists k :: i < k < j && (h[k] == PhaseEnded || h[k] == Joined(t))
  {
    assert EventOk(h[..i], h[i]);
    assert EventOk(h[..j], h[j]);
    if forall k :: i < k < j ==> h[k] != PhaseEnded && h[k] != Joined(t) {
      LawfulPrefix(h, i);
      RunnersHad(h[..i], t);
      HadUntil(h, t, i, j);
    }
  }

  /** A turn that was had was given, in this phase. */
  lemma {:induction false} HadMeans(h: seq<Event>, t: nat, n: nat) returns (k: nat)
    requires n <= |h| && Had(h[..n], t)
    ensures k < n && h[k] == Woken(t) && forall i :: k < i < n ==> h[i] != PhaseEnded && h[i] != Joined(t)
  {
    Next(h, n - 1);
    Appended(h[..n - 1], h[n - 1], t);
    if h[n - 1] == Woken(t) {
      k := n - 1;
    } else {
      k := HadMeans(h, t, n - 1);
    }
  }

  /** No phase ends before every thread that is inside has had a turn in it. */
  lemma EverybodyHasATurn(h: seq<Event>, t: nat, j: nat)
    requires Lawful(h) && j < |h| && h[j] == PhaseEnded && Inside(h[..j], t)
    ensures exists k :: 0 <= k < j && h[k] == Woken(t)
                        && forall i :: k < i < j ==> h[i] != PhaseEnded && h[i] != Joined(t)
  {
    assert EventOk(h[..j], h[j]);
    var k := HadMeans(h, t, j);
  }

  lemma {:induction false} RunsUntil(h: seq<Event>, t: nat, i: nat, j: nat)
    requires Lawful(h) && i <= j <= |h| && Runs(h[..i], t) && Inside(h[..i], t)
    requires forall k :: i <= k < j ==> h[k] != Synced(t) && h[k] != Left(t)
    ensures Runs(h[..j], t) && Inside(h[..j], t)
    decreases j
  {
    hide Inside, Runs, Had, Lawful;
    if i < j {
      RunsUntil(h, t, i, j - 1);
      LawAt(h, j - 1);
      Next(h, j - 1);
      Appended(h[..j - 1], h[j - 1], t);
    }
  }

  /** No phase ends while a thread that was woken has neither reached the barrier nor left. */
  lemma AllHaveArrived(h: seq<Event>, t: nat, i: nat, j: nat)
    requires Lawful(h) && i < j < |h| && h[i] == Woken(t) && h[j] == PhaseEnded
    ensures exists k :: i < k < j && (h[k] == Synced(t) || h[k] == Left(t))
  {
    assert EventOk(h[..i], h[i]);
    assert EventOk(h[..j], h[j]);
    if forall k :: i < k < j ==> h[k] != Synced(t) && h[k] != Left(t) {
      Next(h, i);
      Appended(h[..i], h[i], t);
      RunsUntil(h, t, i + 1, j);
    }
  }
}
