/**
 The activation window of a rank: a circular buffer with the latest activations, oldest at
 `idx`, that tells the scheduler how early the next activation may be.
 */
module ActWindow {

  // ------------------------------------------------------------ the window as a sequence

  /** The window, oldest slot first, after an activation has been recorded. The oldest entry
      goes; the new one settles behind the last entry that is not later. If every other entry
      is later the shift goes all the way round, past the slot it has already overwritten. */
  function Insert(view: seq<nat>, act: nat): (r: seq<nat>)
    requires view != []
    ensures |r| == |view|
  {
    var k := Place(view, act, |view|);
    if k > 0 || |view| == 1 then view[1..][..k] + [act] + view[1..][k..]
    else [view[|view| - 1]] + view[1..|view| - 1] + [act]
  }

  /** How many of the entries 1..n-1 stay before the new one: up to the last that is not later. */
  function Place(view: seq<nat>, act: nat, n: nat): (k: nat)
    requires 1 <= n <= |view|
    ensures k <= n - 1
    ensures k > 0 ==> view[k] <= act
    ensures forall i :: k < i < n ==> view[i] > act
  {
    if n == 1 then 0 else if view[n - 1] <= act then n - 1 else Place(view, act, n - 1)
  }

  ghost predicate Sorted(view: seq<nat>) {
    forall i, j :: 0 <= i < j < |view| ==> view[i] <= view[j]
  }

  /** Whatever the order, the oldest slot's entry is replaced by the new activation. */
  lemma InsertReplacesOldest(view: seq<nat>, act: nat)
    requires view != []
    ensures multiset(Insert(view, act)) == multiset(view[1..]) + multiset{act}
  {
    var k := Place(view, act, |view|);
    var rest := view[1..];
    if k > 0 || |view| == 1 {
      assert rest == rest[..k] + rest[k..];
    } else {
      assert rest == view[1..|view| - 1] + [view[|view| - 1]];
    }
  }

  lemma PlaceIs(view: seq<nat>, act: nat, k: nat)
    requires k < |view| && (k > 0 ==> view[k] <= act) && forall i :: k < i < |view| ==> view[i] > act
    ensures Place(view, act, |view|) == k
  {
  }

  lemma InsertAt(view: seq<nat>, act: nat, p: nat)
    requires p < |view|
    ensures var n, k := |view|, Place(view, act, |view|);
            Insert(view, act)[p] == if k == 0 && n > 1 then
                                      (if p == 0 then view[n - 1] else if p == n - 1 then act else view[p])
                                    else if p < k then view[p + 1]
                                    else if p == k then act
                                    else view[p]
  {
    hide Place;
  }

  /** The window stays sorted exactly if the new activation is no earlier than the second
      oldest entry; then it holds the latest activations. */
  lemma SortedIff(view: seq<nat>, act: nat)
    requires view != [] && Sorted(view)
    ensures Sorted(Insert(view, act)) <==> |view| == 1 || view[1] <= act
  {
    hide Insert, Place;
    var n := |view|;
    var r := Insert(view, act);
    if n > 1 && view[1] > act {
      InsertAt(view, act, 0);
      InsertAt(view, act, n - 1);
      assert r[0] == view[n - 1] && r[n - 1] == act;
    } else {
      forall i, j | 0 <= i < j < n
        ensures r[i] <= r[j]
      {
        InsertAt(view, act, i);
        InsertAt(view, act, j);
      }
    }
  }

  /** Of a sorted window and the new activation, an earliest one is dropped. */
  lemma KeepsLatest(view: seq<nat>, act: nat)
    requires view != [] && Sorted(view) && view[0] <= act
    ensures multiset(view) + multiset{act} == multiset{view[0]} + multiset(Insert(view, act))
    ensures forall p :: 0 <= p < |view| ==> view[0] <= Insert(view, act)[p]
  {
    hide Insert, Place;
    InsertReplacesOldest(view, act);
    assert view == [view[0]] + view[1..];
    forall p | 0 <= p < |view|
      ensures view[0] <= Insert(view, act)[p]
    {
      InsertAt(view, act, p);
    }
  }

  /** The window after a history of activations, and the entries that have dropped out of it. */
  function AfterAll(view: seq<nat>, acts: seq<nat>): (r: seq<nat>)
    requires view != []
    ensures |r| == |view|
  {
    if acts == [] then view else Insert(AfterAll(view, acts[..|acts| - 1]), acts[|acts| - 1])
  }

  function DroppedBy(view: seq<nat>, acts: seq<nat>): seq<nat>
    requires view != []
  {
    if acts == [] then []
    else DroppedBy(view, acts[..|acts| - 1]) + [AfterAll(view, acts[..|acts| - 1])[0]]
  }

  /** Each activation is no earlier than the two oldest entries of the window at that time. */
  predicate NearlyInOrder(view: seq<nat>, acts: seq<nat>)
    requires view != []
  {
    acts == []
    || (&& NearlyInOrder(view, acts[..|acts| - 1])
        && var v := AfterAll(view, acts[..|acts| - 1]);
        v[0] <= acts[|acts| - 1] && (|v| == 1 || v[1] <= acts[|acts| - 1]))
  }

  lemma ShiftBags(start: multiset<nat>, done: multiset<nat>, dropped: multiset<nat>, window: multiset<nat>,
                  act: nat, oldest: nat, window': multiset<nat>)
    requires start + done == dropped + window && window + multiset{act} == multiset{oldest} + window'
    ensures start + (done + multiset{act}) == (dropped + multiset{oldest}) + window'
  {
    assert start + (done + multiset{act}) == (dropped + window) + multiset{act};
    assert (dropped + window) + multiset{act} == dropped + (multiset{oldest} + window');
  }

  /** After any such history the window is sorted, and everything that came in is in it or has
      dropped out. */
  lemma {:induction false} HistoryKept(view: seq<nat>, acts: seq<nat>)
    requires view != [] && Sorted(view) && NearlyInOrder(view, acts)
    ensures Sorted(AfterAll(view, acts))
    ensures multiset(view) + multiset(acts) == multiset(DroppedBy(view, acts)) + multiset(AfterAll(view, acts))
  {
    hide Insert, Sorted;
    if acts != [] {
      var n := |acts| - 1;
      HistoryKept(view, acts[..n]);
      var v := AfterAll(view, acts[..n]);
      SortedIff(v, acts[n]);
      KeepsLatest(v, acts[n]);
      assert acts == acts[..n] + [acts[n]];
      ShiftBags(multiset(view), multiset(acts[..n]), multiset(DroppedBy(view, acts[..n])), multiset(v),
                acts[n], v[0], multiset(Insert(v, acts[n])));
    }
  }

  /** The window holds the latest activations of its history: everything that has dropped out is
      no later than its oldest entry. */
  lemma {:induction false} LatestOfHistory(view: seq<nat>, acts: seq<nat>)
    requires view != [] && Sorted(view) && NearlyInOrder(view, acts)
    ensures Sorted(AfterAll(view, acts))
    ensures multiset(view) + multiset(acts) == multiset(DroppedBy(view, acts)) + multiset(AfterAll(view, acts))
    ensures forall i :: 0 <= i < |DroppedBy(view, acts)| ==> DroppedBy(view, acts)[i] <= AfterAll(view, acts)[0]
  {
    HistoryKept(view, acts);
    DroppedAreOlder(view, acts);
  }

  lemma {:induction false} DroppedAreOlder(view: seq<nat>, acts: seq<nat>)
    requires view != [] && Sorted(view) && NearlyInOrder(view, acts)
    ensures forall i :: 0 <= i < |DroppedBy(view, acts)| ==> DroppedBy(view, acts)[i] <= AfterAll(view, acts)[0]
  {
    hide Insert, Sorted;
    if acts != [] {
      var n := |acts| - 1;
      HistoryKept(view, acts[..n]);
      DroppedAreOlder(view, acts[..n]);
      KeepsLatest(AfterAll(view, acts[..n]), acts[n]);
    }
  }

  // ------------------------------------------------------------ the spacing of activations

  predicate Apart(a: nat, b: nat, gap: nat) {
    a + gap <= b || b + gap <= a
  }

  /** The slot still has its initial 0, or the last activation of its chain. */
  ghost predicate EndsChain(hist: map<nat, nat>, chain: map<nat, nat>, c: nat, last: nat)
    requires chain.Keys == hist.Keys
  {
    last == 0 || exists j :: j in hist && chain[j] == c && hist[j] == last
  }

  /** The activations so far, indexed by when they were recorded, fall into as many chains as
      the window has slots; activations of one chain are `gap` apart, and the window holds the
      last one of every chain. */
  ghost predicate ChainedBy(hist: map<nat, nat>, view: seq<nat>, gap: nat, chain: map<nat, nat>, last: seq<nat>) {
    && multiset(last) == multiset(view)
    && chain.Keys == hist.Keys
    && (forall i :: i in hist ==> chain[i] < |last| && hist[i] <= last[chain[i]])
    && (forall c: nat :: c < |last| ==> EndsChain(hist, chain, c, last[c]))
    && (forall i, j :: i in hist && j in hist && i != j && chain[i] == chain[j] ==> Apart(hist[i], hist[j], gap))
  }

  ghost predicate Chained(hist: map<nat, nat>, view: seq<nat>, gap: nat) {
    exists chain: map<nat, nat>, last: seq<nat> :: ChainedBy(hist, view, gap, chain, last)
  }

  lemma StartChained(view: seq<nat>, gap: nat)
    requires forall i :: 0 <= i < |view| ==> view[i] == 0
    ensures Chained(map[], view, gap)
  {
    assert ChainedBy(map[], view, gap, map[], view);
  }

  lemma ExtendChain(hist: map<nat, nat>, view: seq<nat>, gap: nat, chain: map<nat, nat>, last: seq<nat>,
                    c: nat, k: nat, act: nat, view': seq<nat>)
    requires ChainedBy(hist, view, gap, chain, last)
    requires c < |last| && last[c] + gap <= act && k !in hist
    requires multiset(view') == multiset(last[c := act])
    ensures ChainedBy(hist[k := act], view', gap, chain[k := c], last[c := act])
  {
    var hist', chain', last' := hist[k := act], chain[k := c], last[c := act];
    forall b: nat | b < |last'|
      ensures EndsChain(hist', chain', b, last'[b])
    {
      if b == c {
        assert hist'[k] == act && chain'[k] == c;
      } else {
        assert EndsChain(hist, chain, b, last[b]);
        if j :| j in hist && chain[j] == b && hist[j] == last[b] {
          assert hist'[j] == last'[b] && chain'[j] == b;
        }
      }
    }
  }

  /** A permutation of the window has the oldest entry somewhere. */
  lemma FindOldest(view: seq<nat>, last: seq<nat>, act: nat) returns (c: nat)
    requires view != [] && multiset(last) == multiset(view)
    ensures c < |last| && last[c] == view[0]
    ensures multiset(last[c := act]) == multiset(view[1..]) + multiset{act}
  {
    assert view == [view[0]] + view[1..];
    assert view[0] in multiset(last);
    c :| 0 <= c < |last| && last[c] == view[0];
  }

  /** An activation at least `gap` after the oldest slot extends that slot's chain. */
  lemma InsertChained(hist: map<nat, nat>, view: seq<nat>, gap: nat, k: nat, act: nat)
    requires view != [] && Chained(hist, view, gap) && k !in hist && view[0] + gap <= act
    ensures Chained(hist[k := act], Insert(view, act), gap)
  {
    var chain: map<nat, nat>, last: seq<nat> :| ChainedBy(hist, view, gap, chain, last);
    hide Insert, ChainedBy;
    SameEntries(hist, view, gap, chain, last);
    var c := FindOldest(view, last, act);
    InsertReplacesOldest(view, act);
    ExtendChain(hist, view, gap, chain, last, c, k, act, Insert(view, act));
  }

  lemma SameEntries(hist: map<nat, nat>, view: seq<nat>, gap: nat, chain: map<nat, nat>, last: seq<nat>)
    requires ChainedBy(hist, view, gap, chain, last)
    ensures multiset(last) == multiset(view)
  {
  }

  /** More activations than slots: two of them are in one chain. */
  lemma {:induction false} TwoInOneChain(chain: map<nat, nat>, ks: seq<nat>, n: nat)
    requires |ks| > n && forall p :: 0 <= p < |ks| ==> ks[p] in chain && chain[ks[p]] < n
    ensures exists p, q :: 0 <= p < q < |ks| && chain[ks[p]] == chain[ks[q]]
  {
    var top := |ks| - 1;
    if p :| 0 <= p < top && chain[ks[p]] == chain[ks[top]] {
      assert p < top;
    } else {
      var c := chain[ks[top]];
      // rename the last chain to the one just used up, and recurse with a chain less
      var renamed := map i | i in chain :: if chain[i] == n - 1 then c else chain[i];
      TwoInOneChain(renamed, ks[..top], n - 1);
      var p, q :| 0 <= p < q < top && renamed[ks[..top][p]] == renamed[ks[..top][q]];
      assert chain[ks[p]] == chain[ks[q]];
    }
  }

  /** Among more activations than the window has slots, two are `gap` apart, in any order they
      were recorded: a window of four slots allows no five activations within `gap` cycles. */
  lemma WindowSpan(hist: map<nat, nat>, view: seq<nat>, gap: nat, ks: seq<nat>)
    requires Chained(hist, view, gap)
    requires |ks| > |view| && forall p :: 0 <= p < |ks| ==> ks[p] in hist
    requires forall p, q :: 0 <= p < q < |ks| ==> ks[p] != ks[q]
    ensures exists p, q :: 0 <= p < q < |ks| && Apart(hist[ks[p]], hist[ks[q]], gap)
  {
    var chain: map<nat, nat>, last: seq<nat> :| ChainedBy(hist, view, gap, chain, last);
    assert |multiset(last)| == |multiset(view)|;
    TwoInOneChain(chain, ks, |view|);
    var p, q :| 0 <= p < q < |ks| && chain[ks[p]] == chain[ks[q]];
    assert Apart(hist[ks[p]], hist[ks[q]], gap);
  }

  // ------------------------------------------------------------ what the window says of the history

  /** Every activation is in the window, or at least `gap` before an entry of it. */
  lemma InWindowOrOlder(hist: map<nat, nat>, view: seq<nat>, gap: nat, i: nat) returns (w: nat)
    requires Chained(hist, view, gap) && i in hist
    ensures w in view && (hist[i] == w || hist[i] + gap <= w)
  {
    var chain: map<nat, nat>, last: seq<nat> :| ChainedBy(hist, view, gap, chain, last);
    hide ChainedBy;
    w := BeforeEnd(hist, view, gap, chain, last, i);
    SameEntries(hist, view, gap, chain, last);
    assert w in multiset(last);
  }

  /** An activation is the end of its chain, or `gap` before it. */
  lemma BeforeEnd(hist: map<nat, nat>, view: seq<nat>, gap: nat, chain: map<nat, nat>, last: seq<nat>, i: nat)
    returns (w: nat)
    requires ChainedBy(hist, view, gap, chain, last) && i in hist
    ensures w in last && (hist[i] == w || hist[i] + gap <= w)
  {
    var c := chain[i];
    w := last[c];
    assert EndsChain(hist, chain, c, w);
    if w != 0 {
      var j :| j in hist && chain[j] == c && hist[j] == w;
      assert i != j ==> Apart(hist[i], hist[j], gap);
    }
  }

  /** Every entry of the window is an activation, or an initial 0. */
  lemma EntryIsActivation(hist: map<nat, nat>, view: seq<nat>, gap: nat, w: nat)
    requires Chained(hist, view, gap) && w in view
    ensures w == 0 || exists i :: i in hist && hist[i] == w
  {
    var chain: map<nat, nat>, last: seq<nat> :| ChainedBy(hist, view, gap, chain, last);
    assert w in multiset(last);
    var c: nat :| c < |last| && last[c] == w;
    assert EndsChain(hist, chain, c, last[c]);
  }

  /** No entry is so much later than `act` that an activation before it could be close to `act`
      without being in the window. */
  ghost predicate SeesBack(view: seq<nat>, gap: nat, space: nat, act: nat) {
    forall w :: w in view ==> w + space <= act + gap
  }

  /** An activation the window's bound allows that is `space` apart from all activations so far
      is so from those in the window, and the other way round if the window sees far enough. */
  lemma ApartFromAllIff(hist: map<nat, nat>, view: seq<nat>, gap: nat, space: nat, act: nat)
    requires view != [] && Chained(hist, view, gap) && space <= gap && view[0] + gap <= act
    ensures (forall i :: i in hist ==> Apart(hist[i], act, space)) ==> (forall w :: w in view ==> Apart(w, act, space))
    ensures SeesBack(view, gap, space, act) && (forall w :: w in view ==> Apart(w, act, space)) ==>
              forall i :: i in hist ==> Apart(hist[i], act, space)
  {
    hide Chained;
    if forall i :: i in hist ==> Apart(hist[i], act, space) {
      forall w | w in view
        ensures Apart(w, act, space)
      {
        EntryIsActivation(hist, view, gap, w);
      }
    }
    if SeesBack(view, gap, space, act) && forall w :: w in view ==> Apart(w, act, space) {
      forall i | i in hist
        ensures Apart(hist[i], act, space)
      {
        var w := InWindowOrOlder(hist, view, gap, i);
      }
    }
  }

  // ------------------------------------------------------------ the circular buffer

  /** The slot `p` places after `idx`, going round. */
  function Slot(idx: nat, p: nat, n: nat): (s: nat)
    requires idx < n && p <= n
    ensures s < n
  {
    if idx + p < n then idx + p else idx + p - n
  }

  function Inc(i: nat, n: nat): (r: nat)
    requires i < n
    ensures r == Slot(i, 1, n)
  {
    if i < n - 1 then i + 1 else 0
  }

  function Dec(i: nat, n: nat): (r: nat)
    requires i < n
    ensures r < n && Slot(r, 1, n) == i
  {
    if i > 0 then i - 1 else n - 1
  }

  lemma DecSlot(idx: nat, p: nat, n: nat)
    requires idx < n && 1 <= p <= n
    ensures Dec(Slot(idx, p, n), n) == Slot(idx, p - 1, n)
    ensures Slot(idx, n, n) == Slot(idx, 0, n) == idx
    ensures Slot(idx, p - 1, n) == idx <==> p == 1
  {
  }

  /** The buffer `b` holds `view`, starting at `idx` and going round. */
  ghost predicate Holds(b: seq<nat>, idx: nat, view: seq<nat>) {
    idx < |b| == |view| && forall p :: 0 <= p < |b| ==> b[Slot(idx, p, |b|)] == view[p]
  }

  lemma HoldsRotated(b: seq<nat>, idx: nat)
    requires idx < |b|
    ensures Holds(b, idx, b[idx..] + b[..idx])
  {
  }

  lemma HoldsOnly(b: seq<nat>, idx: nat, view: seq<nat>)
    requires Holds(b, idx, view)
    ensures view == b[idx..] + b[..idx]
  {
    assert forall p :: 0 <= p < |b| ==> view[p] == b[Slot(idx, p, |b|)] == (b[idx..] + b[..idx])[p];
  }

  lemma HoldsAt(b: seq<nat>, idx: nat, view: seq<nat>, p: nat)
    requires Holds(b, idx, view) && p < |b|
    ensures |view| == |b| && b[Slot(idx, p, |b|)] == view[p]
  {
  }

  lemma HoldsUpdate(b: seq<nat>, idx: nat, view: seq<nat>, p: nat, x: nat)
    requires Holds(b, idx, view) && p < |b|
    ensures Holds(b[Slot(idx, p, |b|) := x], idx, view[p := x])
  {
  }

  lemma HoldsNext(b: seq<nat>, idx: nat, view: seq<nat>)
    requires Holds(b, idx, view)
    ensures Holds(b, Slot(idx, 1, |b|), view[1..] + [view[0]])
  {
    var n := |b|;
    forall p | 0 <= p < n
      ensures b[Slot(Slot(idx, 1, n), p, n)] == (view[1..] + [view[0]])[p]
    {
      assert Slot(Slot(idx, 1, n), p, n) == Slot(idx, if p + 1 < n then p + 1 else 0, n);
    }
  }

  /** The place of the `j`-th hole, counted from `idx`. */
  function Hole(n: nat, j: nat): nat
    requires j <= n
  {
    if j == 0 then 0 else n - j
  }

  /** The buffer once `j` entries have been shifted, latest first, each into the hole the one
      before left. */
  ghost function Shifted(view: seq<nat>, j: nat): (r: seq<nat>)
    requires j <= |view|
    ensures |r| == |view|
  {
    if j == 0 then view
    else
      var r := Shifted(view, j - 1);
      r[Hole(|view|, j - 1) := r[|view| - j]]
  }

  lemma ShiftedStep(view: seq<nat>, j: nat)
    requires j < |view|
    ensures Shifted(view, j + 1) == Shifted(view, j)[Hole(|view|, j) := Shifted(view, j)[|view| - j - 1]]
  {
  }

  lemma {:induction false} ShiftedAt(view: seq<nat>, j: nat, p: nat)
    requires j <= |view| && p < |view|
    ensures var n := |view|;
            Shifted(view, j)[p] == if p == 0 && j > 0 then view[n - 1]
                                   else if p == 1 && j == n && n > 1 then view[n - 1]
                                   else if p > n - j then view[p - 1]
                                   else view[p]
  {
    if j > 0 {
      ShiftedAt(view, j - 1, p);
      ShiftedAt(view, j - 1, |view| - j);
    }
  }

  lemma HoldsStart(b: seq<nat>, idx: nat, view: seq<nat>)
    requires Holds(b, idx, view)
    ensures idx < |b| == |view| && Shifted(view, 0) == view
  {
  }

  lemma HoldsShifted(b: seq<nat>, idx: nat, view: seq<nat>, j: nat, act: nat)
    requires idx < |b| == |view| && j < |b| && Holds(b, idx, Shifted(view, j))
    requires b[Slot(idx, |b| - j - 1, |b|)] > act && view[0] <= act
    ensures Holds(b[Slot(idx, Hole(|b|, j), |b|) := b[Slot(idx, |b| - j - 1, |b|)]], idx, Shifted(view, j + 1))
    ensures j + 1 < |b| ==> view[|b| - j - 1] > act
    ensures j + 1 == |b| ==> |b| > 1
  {
    var n := |b|;
    ShiftedAt(view, j, n - j - 1);
    HoldsAt(b, idx, Shifted(view, j), n - j - 1);
    HoldsUpdate(b, idx, Shifted(view, j), Hole(n, j), b[Slot(idx, n - j - 1, n)]);
    ShiftedStep(view, j);
  }

  /** Shifting stopped at an entry that is not later, or after going all the way round. */
  ghost predicate Stopped(view: seq<nat>, j: nat, act: nat) {
    && view != [] && j <= |view|
    && (forall p :: 1 <= p < |view| && |view| - j <= p ==> view[p] > act)
    && (j < |view| ==> Shifted(view, j)[|view| - j - 1] <= act)
    && (j == |view| ==> |view| > 1)
  }

  lemma StoppedPlace(view: seq<nat>, j: nat, act: nat)
    requires Stopped(view, j, act)
    ensures Place(view, act, |view|) == if j < |view| then |view| - j - 1 else 0
    ensures |view| > 1 ==> j != |view| - 1
  {
    hide Shifted, Place;
    var k := if j < |view| then |view| - j - 1 else 0;
    ShiftedAt(view, j, k);
    PlaceIs(view, act, k);
  }

  lemma ShiftedInsertAt(view: seq<nat>, j: nat, act: nat, p: nat)
    requires Stopped(view, j, act) && p < |view|
    ensures Shifted(view, j)[Hole(|view|, j) := act][if p + 1 < |view| then p + 1 else 0] == Insert(view, act)[p]
  {
    hide Shifted, Insert, Place;
    StoppedPlace(view, j, act);
    ShiftedAt(view, j, if p + 1 < |view| then p + 1 else 0);
    InsertAt(view, act, p);
  }

  lemma ShiftedInsert(view: seq<nat>, j: nat, act: nat)
    requires Stopped(view, j, act)
    ensures var w := Shifted(view, j)[Hole(|view|, j) := act];
            w[1..] + [w[0]] == Insert(view, act)
  {
    hide Shifted, Insert;
    var w := Shifted(view, j)[Hole(|view|, j) := act];
    forall p | 0 <= p < |view|
      ensures (w[1..] + [w[0]])[p] == Insert(view, act)[p]
    {
      ShiftedInsertAt(view, j, act, p);
    }
  }

  class Window {
    var buf: seq<nat>
    var idx: nat

    ghost predicate Valid()
      reads this
    {
      idx < |buf|
    }

    ghost function View(): (v: seq<nat>)
      requires Valid()
      reads this
    {
      buf[idx..] + buf[..idx]
    }

    constructor (size: nat)
      requires size > 0
      ensures Valid() && View() == seq(size, _ => 0)
    {
      buf := seq(size, _ => 0);
      idx := 0;
    }

    method MinActCycle() returns (cycle: nat)
      requires Valid()
      ensures cycle == View()[0]
    {
      cycle := buf[idx];
    }

    /** The loop of `AddActivation`: shift the later entries on, latest first, and return the
        slot that is free. */
    method ShiftLater(actCycle: nat, ghost view: seq<nat>) returns (cur: nat, ghost j: nat)
      requires Holds(buf, idx, view) && view[0] <= actCycle
      modifies this`buf
      ensures j <= |buf| == |view| && cur == Slot(idx, Hole(|buf|, j), |buf|)
      ensures Holds(buf, idx, Shifted(view, j)) && Stopped(view, j, actCycle)
    {
      hide Holds, Shifted, Slot, Dec;
      var n := |buf|;
      HoldsStart(buf, idx, view);
      j := 0;
      cur := idx;
      var round := false;
      DecSlot(idx, n, n);
      while !round && buf[Dec(cur, n)] > actCycle
        invariant |buf| == n && j <= n && cur < n && (round <==> j == n)
        invariant cur == Slot(idx, Hole(n, j), n)
        invariant !round ==> Dec(cur, n) == Slot(idx, n - j - 1, n)
        invariant Holds(buf, idx, Shifted(view, j))
        invariant forall p :: 1 <= p < n && n - j <= p ==> view[p] > actCycle
        invariant round ==> n > 1
        decreases n - j
      {
        HoldsShifted(buf, idx, view, j, actCycle);
        DecSlot(idx, n - j, n);
        buf := buf[cur := buf[Dec(cur, n)]];
        cur := Dec(cur, n);
        j := j + 1;
        round := cur == idx;
        if !round {
          DecSlot(idx, n - j, n);
        }
      }
      if !round {
        HoldsAt(buf, idx, Shifted(view, j), n - j - 1);
      }
    }

    /** The source asserts that the oldest entry is not later than the new activation. */
    method AddActivation(actCycle: nat)
      requires Valid() && View()[0] <= actCycle
      modifies this
      ensures Valid() && View() == Insert(old(View()), actCycle)
    {
      ghost var view, n := View(), |buf|;
      var cur;
      ghost var j;
      HoldsRotated(buf, idx);
      cur, j := ShiftLater(actCycle, view);
      hide Holds, Shifted, Insert;
      ShiftedInsert(view, j, actCycle);
      ghost var w := Shifted(view, j)[Hole(n, j) := actCycle];
      HoldsUpdate(buf, idx, Shifted(view, j), Hole(n, j), actCycle);
      buf := buf[cur := actCycle];
      HoldsNext(buf, idx, w);
      idx := Inc(idx, |buf|);
      HoldsOnly(buf, idx, w[1..] + [w[0]]);
    }
  }
}
