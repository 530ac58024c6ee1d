/**
 The shape of a cache hierarchy, as seen by one line: every cache has one parent for the
 line, and the root's parent is memory.
 */
module CacheTree {

  /** A tree is given by the parent of each cache; parents are numbered before children. */
  ghost predicate IsTree(par: seq<nat>) {
    && |par| > 0
    && par[0] == 0
    && forall c :: 0 < c < |par| ==> par[c] < c
  }

  predicate IsChild(par: seq<nat>, p: nat, c: nat) {
    0 < c < |par| && par[c] == p
  }

  /** `a` is `b` or an ancestor of it. */
  ghost predicate Above(par: seq<nat>, a: nat, b: nat)
    requires IsTree(par) && b < |par|
    decreases b
  {
    a == b || (b != 0 && Above(par, a, par[b]))
  }

  ghost predicate IsLeaf(par: seq<nat>, n: nat) {
    forall c :: 0 < c < |par| ==> par[c] != n
  }

  lemma {:induction false} AboveIsSmaller(par: seq<nat>, a: nat, b: nat)
    requires IsTree(par) && b < |par| && Above(par, a, b)
    ensures a <= b
    decreases b
  {
    if a != b {
      AboveIsSmaller(par, a, par[b]);
    }
  }

  lemma {:induction false} AboveTransitive(par: seq<nat>, a: nat, b: nat, c: nat)
    requires IsTree(par) && b < |par| && c < |par| && Above(par, a, b) && Above(par, b, c)
    ensures Above(par, a, c)
    decreases c
  {
    if b != c {
      AboveTransitive(par, a, b, par[c]);
    }
  }

  /** The child of `q` on the way down to `b`. */
  lemma {:induction false} BranchTowards(par: seq<nat>, q: nat, b: nat) returns (c: nat)
    requires IsTree(par) && b < |par| && Above(par, q, b) && q != b
    ensures IsChild(par, q, c) && Above(par, c, b)
    decreases b
  {
    if par[b] == q {
      c := b;
    } else {
      c := BranchTowards(par, q, par[b]);
    }
  }

  lemma {:induction false} LeafAboveItself(par: seq<nat>, a: nat, b: nat)
    requires IsTree(par) && a < |par| && b < |par| && IsLeaf(par, a) && Above(par, a, b)
    ensures a == b
    decreases b
  {
    if a != b {
      LeafAboveItself(par, a, par[b]);
    }
  }
}
