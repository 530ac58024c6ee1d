/**
 The lookahead cache partitioner: a greedy allocation of buckets to partitions by maximum
 marginal utility. `misses(p, a)` is the monitor's miss curve of partition `p`.
 */
module Lookahead {
  import opened Sequences

  type MissCurves = (nat, nat) -> nat

  const TWO_32: nat := 0x1_0000_0000
  const TWO_64: nat := 0x1_0000_0000_0000_0000

  /** Hits gained by `i` more buckets, as an unsigned 64-bit difference. */
  function ExtraHits(misses: MissCurves, part: nat, alloc: nat, i: nat): nat {
    (misses(part, alloc) - misses(part, alloc + i)) % TWO_64
  }

  /** Hits gained per bucket. */
  function Utility(misses: MissCurves, part: nat, alloc: nat, i: nat): real
    requires i > 0
  {
    ExtraHits(misses, part, alloc, i) as real / i as real
  }

  /** The best marginal utility of a partition and the smallest number of buckets that has it. */
  method GetMaxMarginalUtility(part: nat, alloc: nat, balance: nat, misses: MissCurves)
    returns (maxMu: real, maxMuAlloc: nat)
    ensures balance == 0 ==> maxMu == -1.0 && maxMuAlloc == 0
    ensures balance > 0 ==> 1 <= maxMuAlloc <= balance && maxMu == Utility(misses, part, alloc, maxMuAlloc) >= 0.0
    ensures forall i :: 1 <= i <= balance ==> Utility(misses, part, alloc, i) <= maxMu
    ensures forall i :: 1 <= i < maxMuAlloc ==> Utility(misses, part, alloc, i) < maxMu
  {
    maxMu, maxMuAlloc := -1.0, 0;
    for i := 1 to balance + 1
      invariant maxMuAlloc < i && (i == 1 ==> maxMu == -1.0 && maxMuAlloc == 0)
      invariant i > 1 ==> 1 <= maxMuAlloc && maxMu == Utility(misses, part, alloc, maxMuAlloc) >= 0.0
      invariant forall k :: 1 <= k < i ==> Utility(misses, part, alloc, k) <= maxMu
      invariant forall k :: 1 <= k < maxMuAlloc ==> Utility(misses, part, alloc, k) < maxMu
    {
      var mu := Utility(misses, part, alloc, i);
      UtilityNonNegative(misses, part, alloc, i);
      if mu > maxMu {
        maxMu, maxMuAlloc := mu, i;
      }
    }
  }

  lemma UtilityNonNegative(misses: MissCurves, part: nat, alloc: nat, i: nat)
    requires i > 0
    ensures Utility(misses, part, alloc, i) >= 0.0
  {
  }

  /** Misses of the first `|allocs|` partitions. */
  function TotalMisses(misses: MissCurves, allocs: seq<nat>): nat {
    if allocs == [] then 0
    else TotalMisses(misses, allocs[..|allocs| - 1]) + misses(|allocs| - 1, allocs[|allocs| - 1])
  }

  lemma {:induction false} SumConstant(s: seq<nat>, v: nat)
    requires forall i :: 0 <= i < |s| ==> s[i] == v
    ensures Sum(s) == |s| * v
  {
    if s != [] {
      SumConstant(s[..|s| - 1], v);
      assert |s| * v == (|s| - 1) * v + v;
    }
  }

  // ------------------------------------------------------------ convex curves

  /** The misses saved by the next bucket. */
  function Gain(misses: MissCurves, p: nat, a: nat): int {
    misses(p, a) - misses(p, a + 1)
  }

  /** Within the range a partition can reach, more buckets never hurt, help less and less, and
      the counts are 64-bit. */
  ghost predicate ConvexCurve(misses: MissCurves, p: nat, lo: nat, hi: nat) {
    && (forall a :: lo <= a < hi ==> Gain(misses, p, a) >= 0)
    && (forall a :: lo <= a && a + 1 < hi ==> Gain(misses, p, a) >= Gain(misses, p, a + 1))
    && misses(p, lo) < TWO_64
  }

  lemma {:induction false} GainsFall(misses: MissCurves, p: nat, lo: nat, hi: nat, a: nat, b: nat)
    requires ConvexCurve(misses, p, lo, hi) && lo <= a <= b < hi
    ensures Gain(misses, p, a) >= Gain(misses, p, b)
    decreases b - a
  {
    if a < b {
      GainsFall(misses, p, lo, hi, a, b - 1);
      assert Gain(misses, p, b - 1) >= Gain(misses, p, b - 1 + 1);
    }
  }

  lemma {:induction false} MissesFall(misses: MissCurves, p: nat, lo: nat, hi: nat, a: nat, b: nat)
    requires ConvexCurve(misses, p, lo, hi) && lo <= a <= b <= hi
    ensures misses(p, b) <= misses(p, a)
    decreases b - a
  {
    if a < b {
      MissesFall(misses, p, lo, hi, a, b - 1);
      assert Gain(misses, p, b - 1) >= 0;
    }
  }

  /** Above `a` no bucket saves more than the first one. */
  lemma {:induction false} SaveAbove(misses: MissCurves, p: nat, lo: nat, hi: nat, a: nat, b: nat)
    requires ConvexCurve(misses, p, lo, hi) && lo <= a < b <= hi
    ensures misses(p, a) - misses(p, b) <= (b - a) * Gain(misses, p, a)
    decreases b - a
  {
    if a + 1 < b {
      SaveAbove(misses, p, lo, hi, a, b - 1);
      GainsFall(misses, p, lo, hi, a, b - 1);
      assert (b - a) * Gain(misses, p, a) == (b - 1 - a) * Gain(misses, p, a) + Gain(misses, p, a);
    }
  }

  /** Below `a` every bucket saved at least what the last one did. */
  lemma {:induction false} SaveBelow(misses: MissCurves, p: nat, lo: nat, hi: nat, b: nat, a: nat)
    requires ConvexCurve(misses, p, lo, hi) && lo <= b < a <= hi
    ensures misses(p, b) - misses(p, a) >= (a - b) * Gain(misses, p, a - 1)
    decreases a - b
  {
    if b + 1 < a {
      SaveBelow(misses, p, lo, hi, b + 1, a);
      GainsFall(misses, p, lo, hi, b, a - 1);
      assert (a - b) * Gain(misses, p, a - 1) == (a - (b + 1)) * Gain(misses, p, a - 1) + Gain(misses, p, a - 1);
    }
  }

  /** On a convex curve one bucket is as good a bid as any. */
  lemma OneBucketIsBest(misses: MissCurves, p: nat, lo: nat, hi: nat, a: nat, i: nat)
    requires ConvexCurve(misses, p, lo, hi) && lo <= a && 1 <= i && a + i <= hi
    ensures Utility(misses, p, a, i) <= Utility(misses, p, a, 1)
    ensures Utility(misses, p, a, 1) == Gain(misses, p, a) as real
  {
    MissesFall(misses, p, lo, hi, lo, a);
    MissesFall(misses, p, lo, hi, a, a + i);
    MissesFall(misses, p, lo, hi, a, a + 1);
    SaveAbove(misses, p, lo, hi, a, a + i);
    var total, first := misses(p, a) - misses(p, a + i), Gain(misses, p, a);
    assert ExtraHits(misses, p, a, i) == total && ExtraHits(misses, p, a, 1) == first;
    RatioBound(total, first, i);
  }

  lemma RatioBound(total: int, first: int, i: nat)
    requires 1 <= i && total <= i * first
    ensures total as real / i as real <= first as real / 1 as real
  {
    assert total as real <= (i * first) as real == i as real * first as real;
    assert total as real / i as real <= i as real * first as real / i as real;
  }

  // ------------------------------------------------------------ the greedy allocation

  /** An absent list of forbidden partitions (a null pointer) forbids none. */
  predicate Allowed(forbidden: seq<bool>, i: nat) {
    i < |forbidden| ==> !forbidden[i]
  }

  /** `alloc` more buckets for one partition. */
  datatype Grant = Grant(part: nat, alloc: nat)

  /** The best bid of all allowed partitions for up to `balance` buckets: the first partition that
      makes it, and the fewest buckets it makes it for. */
  ghost predicate BestBid(misses: MissCurves, allocs: seq<nat>, balance: nat, forbidden: seq<bool>, g: Grant) {
    && g.part < |allocs| && Allowed(forbidden, g.part) && 1 <= g.alloc <= balance
    && var mu := Utility(misses, g.part, allocs[g.part], g.alloc);
    && (forall i: nat, k :: i < |allocs| && Allowed(forbidden, i) && 1 <= k <= balance ==>
          Utility(misses, i, allocs[i], k) <= mu)
    && (forall i: nat, k :: i < g.part && Allowed(forbidden, i) && 1 <= k <= balance ==>
          Utility(misses, i, allocs[i], k) < mu)
    && (forall k :: 1 <= k < g.alloc ==> Utility(misses, g.part, allocs[g.part], k) < mu)
  }

  lemma BestBidIsUnique(misses: MissCurves, allocs: seq<nat>, balance: nat, forbidden: seq<bool>, g: Grant, g': Grant)
    requires BestBid(misses, allocs, balance, forbidden, g) && BestBid(misses, allocs, balance, forbidden, g')
    ensures g == g'
  {
    hide Utility;
    assert Utility(misses, g.part, allocs[g.part], g.alloc) == Utility(misses, g'.part, allocs[g'.part], g'.alloc);
  }

  /** The allocation after some grants, and what is left of the balance. */
  function Given(allocs: seq<nat>, gs: seq<Grant>): (r: seq<nat>)
    ensures |r| == |allocs|
  {
    if gs == [] then allocs
    else
      var r, g := Given(allocs, gs[..|gs| - 1]), gs[|gs| - 1];
      if g.part < |r| then r[g.part := r[g.part] + g.alloc] else r
  }

  function Remaining(balance: nat, gs: seq<Grant>): int {
    if gs == [] then balance else Remaining(balance, gs[..|gs| - 1]) - gs[|gs| - 1].alloc
  }

  /** Every grant was the best bid when it was made. */
  ghost predicate AllBest(misses: MissCurves, allocs: seq<nat>, balance: nat, forbidden: seq<bool>, gs: seq<Grant>) {
    forall k :: 0 <= k < |gs| ==>
      && Remaining(balance, gs[..k]) >= 0
      && BestBid(misses, Given(allocs, gs[..k]), Remaining(balance, gs[..k]), forbidden, gs[k])
  }

  lemma OneMoreGrant(misses: MissCurves, allocs: seq<nat>, balance: nat, forbidden: seq<bool>, gs: seq<Grant>, g: Grant)
    requires AllBest(misses, allocs, balance, forbidden, gs) && Remaining(balance, gs) >= 0
    requires BestBid(misses, Given(allocs, gs), Remaining(balance, gs), forbidden, g)
    ensures AllBest(misses, allocs, balance, forbidden, gs + [g])
    ensures var r := Given(allocs, gs); g.part < |r| && Given(allocs, gs + [g]) == r[g.part := r[g.part] + g.alloc]
    ensures Remaining(balance, gs + [g]) == Remaining(balance, gs) - g.alloc
  {
    hide BestBid, Given, Remaining;
    var gs' := gs + [g];
    assert gs'[..|gs|] == gs;
    forall k | 0 <= k < |gs'|
      ensures Remaining(balance, gs'[..k]) >= 0
      ensures BestBid(misses, Given(allocs, gs'[..k]), Remaining(balance, gs'[..k]), forbidden, gs'[k])
    {
      assert k < |gs| ==> gs'[..k] == gs[..k];
    }
    GrantStep(misses, allocs, balance, forbidden, gs, g);
  }

  lemma GrantStep(misses: MissCurves, allocs: seq<nat>, balance: nat, forbidden: seq<bool>, gs: seq<Grant>, g: Grant)
    requires Remaining(balance, gs) >= 0
    requires BestBid(misses, Given(allocs, gs), Remaining(balance, gs), forbidden, g)
    ensures var r := Given(allocs, gs); g.part < |r| && Given(allocs, gs + [g]) == r[g.part := r[g.part] + g.alloc]
    ensures Remaining(balance, gs + [g]) == Remaining(balance, gs) - g.alloc
  {
    assert (gs + [g])[..|gs|] == gs;
  }

  /** The partition with the best marginal utility, or `n` if every partition is forbidden. */
  method PickPartition(allocs: seq<nat>, balance: nat, forbidden: seq<bool>, misses: MissCurves)
    returns (part: nat, alloc: nat)
    requires balance > 0
    ensures part <= |allocs|
    ensures part == |allocs| <==> forall i: nat :: i < |allocs| ==> !Allowed(forbidden, i)
    ensures part < |allocs| ==> BestBid(misses, allocs, balance, forbidden, Grant(part, alloc))
  {
    var maxMu := -1.0;
    part, alloc := |allocs|, 0;
    for i := 0 to |allocs|
      invariant part == |allocs| || part < i
      invariant part == |allocs| ==> maxMu == -1.0 && forall j: nat :: j < i ==> !Allowed(forbidden, j)
      invariant part < |allocs| ==>
                  && Allowed(forbidden, part) && 1 <= alloc <= balance
                  && maxMu == Utility(misses, part, allocs[part], alloc) >= 0.0
                  && (forall k :: 1 <= k < alloc ==> Utility(misses, part, allocs[part], k) < maxMu)
      invariant forall j: nat, k :: j < i && Allowed(forbidden, j) && 1 <= k <= balance ==>
                  Utility(misses, j, allocs[j], k) <= maxMu
      invariant forall j: nat, k :: j < i && j < part && Allowed(forbidden, j) && 1 <= k <= balance ==>
                  Utility(misses, j, allocs[j], k) < maxMu || part == |allocs|
    {
      if Allowed(forbidden, i) {
        var mu, muAlloc := GetMaxMarginalUtility(i, allocs[i], balance, misses);
        if mu > maxMu {
          maxMu, part, alloc := mu, i, muAlloc;
        }
      }
    }
  }

  /** An allocation within the rules: minimums kept, forbidden partitions at the minimum. */
  ghost predicate Legal(allocs: seq<nat>, minAlloc: nat, forbidden: seq<bool>) {
    forall i: nat :: i < |allocs| ==>
      minAlloc <= allocs[i] && (!Allowed(forbidden, i) ==> allocs[i] == minAlloc)
  }

  /** No legal allocation of the same buckets has fewer misses. */
  ghost predicate Optimal(misses: MissCurves, allocs: seq<nat>, minAlloc: nat, forbidden: seq<bool>) {
    forall b: seq<nat> :: |b| == |allocs| && Legal(b, minAlloc, forbidden) && Sum(b) == Sum(allocs) ==>
      TotalMisses(misses, allocs) <= TotalMisses(misses, b)
  }

  ghost predicate AllConvex(misses: MissCurves, n: nat, lo: nat, hi: nat) {
    forall p: nat :: p < n ==> ConvexCurve(misses, p, lo, hi)
  }

  /** What the greedy choice keeps on convex curves: the last bucket of every partition gained
      at least what the next bucket of any allowed partition would. */
  ghost predicate Balanced(misses: MissCurves, allocs: seq<nat>, minAlloc: nat, hi: nat, forbidden: seq<bool>) {
    forall i: nat, j: nat ::
      i < |allocs| && j < |allocs| && minAlloc < allocs[i] <= hi && allocs[j] < hi && Allowed(forbidden, j) ==>
        Gain(misses, i, allocs[i] - 1) >= Gain(misses, j, allocs[j])
  }

  /** With everybody at the minimum there is no last gain yet. */
  lemma StartBalanced(misses: MissCurves, allocs: seq<nat>, minAlloc: nat, hi: nat, forbidden: seq<bool>)
    requires forall i :: 0 <= i < |allocs| ==> allocs[i] == minAlloc
    ensures Balanced(misses, allocs, minAlloc, hi, forbidden)
  {
  }

  lemma {:induction false} LegalSum(allocs: seq<nat>, minAlloc: nat, i: nat)
    requires forall k :: 0 <= k < |allocs| ==> minAlloc <= allocs[k]
    requires i < |allocs|
    ensures Sum(allocs) >= |allocs| * minAlloc + (allocs[i] - minAlloc)
  {
    var n := |allocs|;
    var front := allocs[..n - 1];
    assert n * minAlloc == (n - 1) * minAlloc + minAlloc;
    if i < n - 1 {
      LegalSum(front, minAlloc, i);
    } else if n > 1 {
      LegalSum(front, minAlloc, 0);
    }
  }

  /** One greedy step on convex curves gives one bucket and keeps the balance. */
  lemma GreedyStep(misses: MissCurves, allocs: seq<nat>, minAlloc: nat, hi: nat, forbidden: seq<bool>,
                   balance: nat, part: nat, alloc: nat)
    requires AllConvex(misses, |allocs|, minAlloc, hi) && Legal(allocs, minAlloc, forbidden)
    requires Balanced(misses, allocs, minAlloc, hi, forbidden)
    requires forall i :: 0 <= i < |allocs| ==> allocs[i] + balance <= hi
    requires part < |allocs| && Allowed(forbidden, part) && 1 <= alloc <= balance
    requires forall i: nat, k :: i < |allocs| && Allowed(forbidden, i) && 1 <= k <= balance ==>
               Utility(misses, i, allocs[i], k) <= Utility(misses, part, allocs[part], alloc)
    requires forall k :: 1 <= k < alloc ==>
               Utility(misses, part, allocs[part], k) < Utility(misses, part, allocs[part], alloc)
    ensures alloc == 1
    ensures Balanced(misses, allocs[part := allocs[part] + 1], minAlloc, hi, forbidden)
  {
    OneBucketIsBest(misses, part, minAlloc, hi, allocs[part], alloc);
    assert alloc == 1;
    var allocs' := allocs[part := allocs[part] + 1];
    forall i: nat, j: nat | i < |allocs'| && j < |allocs'| && minAlloc < allocs'[i] <= hi && allocs'[j] < hi
                            && Allowed(forbidden, j)
      ensures Gain(misses, i, allocs'[i] - 1) >= Gain(misses, j, allocs'[j])
    {
      OneBucketIsBest(misses, j, minAlloc, hi, allocs[j], 1);
      assert Gain(misses, part, allocs[part]) >= Gain(misses, j, allocs[j]);
      GainsFall(misses, j, minAlloc, hi, allocs[j], allocs'[j]);
      if i != part {
        assert Gain(misses, i, allocs[i] - 1) >= Gain(misses, j, allocs[j]);
      }
    }
  }

  /** Against any threshold between the last and the next gain, moving buckets costs misses. */
  lemma OneWorseByThreshold(misses: MissCurves, p: nat, x: nat, y: nat, lo: nat, hi: nat, t: int)
    requires ConvexCurve(misses, p, lo, hi) && lo <= x <= hi && lo <= y <= hi
    requires y < x ==> Gain(misses, p, x - 1) >= t
    requires x < y ==> Gain(misses, p, x) <= t
    ensures misses(p, x) - misses(p, y) <= t * (y - x)
  {
    if x < y {
      SaveAbove(misses, p, lo, hi, x, y);
      ScaleMonotone(y - x, Gain(misses, p, x), t);
    } else if y < x {
      SaveBelow(misses, p, lo, hi, y, x);
      ScaleMonotone(x - y, t, Gain(misses, p, x - 1));
    }
  }

  lemma {:induction false} WorseByThreshold(misses: MissCurves, a: seq<nat>, b: seq<nat>, lo: nat, hi: nat, t: int)
    requires |a| == |b| && AllConvex(misses, |a|, lo, hi)
    requires forall i: nat :: i < |a| ==> lo <= a[i] <= hi && lo <= b[i] <= hi
    requires forall i: nat :: i < |a| && b[i] < a[i] ==> Gain(misses, i, a[i] - 1) >= t
    requires forall i: nat :: i < |a| && a[i] < b[i] ==> Gain(misses, i, a[i]) <= t
    ensures TotalMisses(misses, a) - TotalMisses(misses, b) <= t * (Sum(b) - Sum(a))
  {
    hide ConvexCurve, Gain;
    if a != [] {
      var n := |a| - 1;
      var a', b' := a[..n], b[..n];
      assert forall i: nat :: i < n ==> a'[i] == a[i] && b'[i] == b[i];
      WorseByThreshold(misses, a', b', lo, hi, t);
      OneWorseByThreshold(misses, n, a[n], b[n], lo, hi, t);
      var x: int := a[n];
      var y: int := b[n];
      var u: int := Sum(b') - Sum(a');
      var v: int := y - x;
      Distribute(t, u, v);
      assert Sum(b) - Sum(a) == u + v;
    }
  }

  lemma ScaleMonotone(k: nat, u: int, v: int)
    requires u <= v
    ensures k * u <= k * v
  {
  }

  lemma Distribute(t: int, u: int, v: int)
    ensures t * (u + v) == t * u + t * v
  {
  }

  lemma {:induction false} BestNextGain(misses: MissCurves, a: seq<nat>, hi: nat, forbidden: seq<bool>, n: nat)
    returns (t: int)
    requires n <= |a|
    ensures forall j: nat :: j < n && a[j] < hi && Allowed(forbidden, j) ==> Gain(misses, j, a[j]) <= t
    ensures (exists j: nat :: j < n && a[j] < hi && Allowed(forbidden, j)) ==>
              exists j: nat :: j < n && a[j] < hi && Allowed(forbidden, j) && Gain(misses, j, a[j]) == t
  {
    if n == 0 {
      t := 0;
    } else {
      var s := BestNextGain(misses, a, hi, forbidden, n - 1);
      var eligible := a[n - 1] < hi && Allowed(forbidden, n - 1);
      if eligible && (Gain(misses, n - 1, a[n - 1]) >= s
                      || !exists j: nat :: j < n - 1 && a[j] < hi && Allowed(forbidden, j)) {
        t := Gain(misses, n - 1, a[n - 1]);
      } else {
        t := s;
      }
    }
  }

  /** A balanced allocation is optimal. */
  lemma BalancedIsOptimal(misses: MissCurves, a: seq<nat>, minAlloc: nat, hi: nat, forbidden: seq<bool>)
    requires AllConvex(misses, |a|, minAlloc, hi) && Legal(a, minAlloc, forbidden)
    requires Balanced(misses, a, minAlloc, hi, forbidden)
    requires Sum(a) == |a| * minAlloc + (hi - minAlloc) && minAlloc <= hi
    ensures Optimal(misses, a, minAlloc, forbidden)
  {
    forall b: seq<nat> | |b| == |a| && Legal(b, minAlloc, forbidden) && Sum(b) == Sum(a)
      ensures TotalMisses(misses, a) <= TotalMisses(misses, b)
    {
      forall i: nat | i < |a|
        ensures a[i] <= hi && b[i] <= hi
      {
        LegalSum(a, minAlloc, i);
        LegalSum(b, minAlloc, i);
      }
      var t := BestNextGain(misses, a, hi, forbidden, |a|);
      if j: nat :| j < |a| && a[j] < b[j] {
        assert a[j] < hi && Allowed(forbidden, j);
        WorseByThreshold(misses, a, b, minAlloc, hi, t);
      } else {
        NothingLost(a, b);
      }
    }
  }

  lemma {:induction false} NothingLost(a: seq<nat>, b: seq<nat>)
    requires |a| == |b| && Sum(a) == Sum(b)
    requires forall i :: 0 <= i < |a| ==> b[i] <= a[i]
    ensures a == b
  {
    if a != [] {
      var n := |a| - 1;
      SumMonotone(b[..n], a[..n]);
      NothingLost(a[..n], b[..n]);
    }
  }

  lemma {:induction false} SumMonotone(b: seq<nat>, a: seq<nat>)
    requires |a| == |b| && forall i :: 0 <= i < |a| ==> b[i] <= a[i]
    ensures Sum(b) <= Sum(a)
  {
    if a != [] {
      SumMonotone(b[..|a| - 1], a[..|a| - 1]);
    }
  }

  /** The balance left after the minimum has been subtracted once, in 32 bits. */
  function StartBalance(buckets: nat, minAlloc: nat): nat {
    (buckets - minAlloc) % TWO_32
  }

  lemma StepKeepsBalance(misses: MissCurves, a: seq<nat>, minAlloc: nat, hi: nat, forbidden: seq<bool>,
                         balance: nat, part: nat, alloc: nat)
    requires AllConvex(misses, |a|, minAlloc, hi) && Legal(a, minAlloc, forbidden)
    requires Balanced(misses, a, minAlloc, hi, forbidden)
    requires Sum(a) + balance == |a| * minAlloc + (hi - minAlloc)
    requires part < |a| && Allowed(forbidden, part) && 1 <= alloc <= balance
    requires forall i: nat, k :: i < |a| && Allowed(forbidden, i) && 1 <= k <= balance ==>
               Utility(misses, i, a[i], k) <= Utility(misses, part, a[part], alloc)
    requires forall k :: 1 <= k < alloc ==> Utility(misses, part, a[part], k) < Utility(misses, part, a[part], alloc)
    ensures Balanced(misses, a[part := a[part] + alloc], minAlloc, hi, forbidden)
  {
    forall i | 0 <= i < |a|
      ensures a[i] + balance <= hi
    {
      LegalSum(a, minAlloc, i);
    }
    hide Balanced, AllConvex, Utility;
    GreedyStep(misses, a, minAlloc, hi, forbidden, balance, part, alloc);
  }

  lemma NoGrants(misses: MissCurves, allocs: seq<nat>, balance: nat, forbidden: seq<bool>)
    ensures AllBest(misses, allocs, balance, forbidden, [])
    ensures Given(allocs, []) == allocs && Remaining(balance, []) == balance
  {
  }

  lemma BidFacts(misses: MissCurves, allocs: seq<nat>, balance: nat, forbidden: seq<bool>, g: Grant)
    requires BestBid(misses, allocs, balance, forbidden, g)
    ensures g.part < |allocs| && Allowed(forbidden, g.part) && 1 <= g.alloc <= balance
    ensures forall i: nat, k :: i < |allocs| && Allowed(forbidden, i) && 1 <= k <= balance ==>
              Utility(misses, i, allocs[i], k) <= Utility(misses, g.part, allocs[g.part], g.alloc)
    ensures forall k :: 1 <= k < g.alloc ==>
              Utility(misses, g.part, allocs[g.part], k) < Utility(misses, g.part, allocs[g.part], g.alloc)
  {
  }

  /** Fills `allocs`. `ok` is false when the source's assertion that some partition was picked
      fails. Every partition starts at the minimum, but the minimum is paid for only once. */
  method ComputeBestPartitioning(buckets: nat, minAlloc: nat, forbidden: seq<bool>, allocs: array<nat>,
                                 misses: MissCurves)
    returns (ok: bool, ghost grants: seq<Grant>)
    modifies allocs
    ensures ok <==> StartBalance(buckets, minAlloc) == 0 || exists i: nat :: i < allocs.Length && Allowed(forbidden, i)
    ensures Legal(allocs[..], minAlloc, forbidden)
    ensures ok ==> Sum(allocs[..]) == allocs.Length * minAlloc + StartBalance(buckets, minAlloc)
    ensures AllBest(misses, seq(allocs.Length, _ => minAlloc), StartBalance(buckets, minAlloc), forbidden, grants)
    ensures allocs[..] == Given(seq(allocs.Length, _ => minAlloc), grants)
    ensures ok ==> Remaining(StartBalance(buckets, minAlloc), grants) == 0
    ensures ok && AllConvex(misses, allocs.Length, minAlloc, minAlloc + StartBalance(buckets, minAlloc)) ==>
              Optimal(misses, allocs[..], minAlloc, forbidden)
  {
    hide AllConvex, Balanced, Optimal, Utility, StartBalance, Sum, AllBest, BestBid, Given, Remaining;
    var n := allocs.Length;
    for i := 0 to n
      invariant forall k :: 0 <= k < i ==> allocs[k] == minAlloc
    {
      allocs[i] := minAlloc;
    }
    var balance: nat := StartBalance(buckets, minAlloc);
    ghost var hi := minAlloc + balance;
    ghost var convex := AllConvex(misses, n, minAlloc, hi);
    SumConstant(allocs[..], minAlloc);
    StartBalanced(misses, allocs[..], minAlloc, hi, forbidden);
    ghost var start := seq(n, _ => minAlloc);
    assert allocs[..] == start;
    grants := [];
    NoGrants(misses, start, balance, forbidden);
    while balance > 0
      invariant 0 <= balance <= hi - minAlloc
      invariant balance < hi - minAlloc ==> exists i: nat :: i < n && Allowed(forbidden, i)
      invariant Legal(allocs[..], minAlloc, forbidden)
      invariant Sum(allocs[..]) + balance == n * minAlloc + (hi - minAlloc)
      invariant convex ==> Balanced(misses, allocs[..], minAlloc, hi, forbidden)
      invariant AllBest(misses, start, hi - minAlloc, forbidden, grants)
      invariant allocs[..] == Given(start, grants) && balance == Remaining(hi - minAlloc, grants)
      decreases balance
    {
      ghost var before := allocs[..];
      var part, alloc := PickPartition(allocs[..], balance, forbidden, misses);
      if part == n {
        return false, grants;
      }
      OneMoreGrant(misses, start, hi - minAlloc, forbidden, grants, Grant(part, alloc));
      grants := grants + [Grant(part, alloc)];
      BidFacts(misses, before, balance, forbidden, Grant(part, alloc));
      SumUpdate(before, part, before[part] + alloc);
      if convex {
        StepKeepsBalance(misses, before, minAlloc, hi, forbidden, balance, part, alloc);
      }
      allocs[part] := allocs[part] + alloc;
      assert allocs[..] == before[part := before[part] + alloc];
      balance := balance - alloc;
    }
    ok := true;
    if convex {
      BalancedIsOptimal(misses, allocs[..], minAlloc, hi, forbidden);
    }
  }

  /** The buckets handed out are the buckets there are exactly when the minimum is 0, or there is
      one partition and the minimum is no more than the buckets; otherwise the result
      overcommits the cache. */
  lemma TotalIsBucketsIff(n: nat, buckets: nat, minAlloc: nat)
    requires 0 < n && minAlloc < TWO_32 && buckets < TWO_32
    ensures n * minAlloc + StartBalance(buckets, minAlloc) == buckets
            <==> minAlloc == 0 || (n == 1 && minAlloc <= buckets)
    ensures n * minAlloc + StartBalance(buckets, minAlloc) >= buckets
  {
    assert n * minAlloc == minAlloc + (n - 1) * minAlloc;
    if minAlloc > 0 && n > 1 {
      assert (n - 1) * minAlloc >= 1;
    }
    if minAlloc > buckets {
      assert StartBalance(buckets, minAlloc) == buckets - minAlloc + TWO_32;
    }
  }

  /** Two partitions with a minimum of one bucket each get three buckets out of two. */
  method Overcommits(misses: MissCurves) returns (allocs: array<nat>)
    ensures fresh(allocs) && allocs.Length == 2 && Sum(allocs[..]) == 3
  {
    allocs := new nat[2](_ => 0);
    assert Allowed([], 0);
    var ok, grants := ComputeBestPartitioning(2, 1, [], allocs, misses);
  }
}
