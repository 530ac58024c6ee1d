/**
 The replacement walk of a zcache, on values: what the breadth-first list of candidates
 looks like, why the path back from the first occurrence of a line never visits a position
 twice, and what moving the lines along that path does.
 */
module ZWalk {
  import Sequences

  /** `ways` hash functions, each giving an address one position of its own way; the ways follow one
      another. */
  datatype Geometry = Geometry(numLines: nat, ways: nat, pos: (nat, nat) -> nat) {
    ghost predicate Valid() {
      && 1 < ways
      && (forall w: nat, addr: nat :: w < ways ==> pos(w, addr) < numLines)
      && (forall v: nat, w: nat, addr: nat :: v < w < ways ==> pos(v, addr) < pos(w, addr))
    }

    /** `p` is one of the positions where a line with this address may be. */
    ghost predicate IsHome(addr: nat, p: nat) {
      exists w: nat :: w < ways && pos(w, addr) == p
    }
  }

  // ------------------------------------------------------------ the array

  /** `lookup` maps positions to line ids, `place` is its inverse, `addrs` gives the address
      of each line id (0 for an invalid line). */
  ghost predicate ArrayOk(g: Geometry, lookup: seq<nat>, place: seq<nat>, addrs: seq<nat>) {
    && g.Valid()
    && |lookup| == |place| == |addrs| == g.numLines
    && (forall p :: 0 <= p < |lookup| ==> lookup[p] < |place| && place[lookup[p]] == p)
    && (forall l :: 0 <= l < |place| ==> place[l] < |lookup| && lookup[place[l]] == l)
    && (forall l :: 0 <= l < |addrs| && addrs[l] != 0 ==> g.IsHome(addrs[l], place[l]))
    && (forall k, l :: 0 <= k < l < |addrs| && addrs[k] != 0 ==> addrs[k] != addrs[l])
  }

  // ------------------------------------------------------------ the walk

  datatype Cand = Cand(pos: nat, line: nat, parent: int)

  /** A candidate is a position with the line found there; the seeds are the positions of the
      incoming address, and any other candidate is a position to which the line of its
      parent could move. */
  ghost predicate CandOk(g: Geometry, lookup: seq<nat>, addrs: seq<nat>, addr: nat, cs: seq<Cand>, i: nat)
    requires i < |cs|
  {
    && cs[i].pos < |lookup| && cs[i].line == lookup[cs[i].pos] && cs[i].line < |addrs|
    && if i < g.ways then
         cs[i].parent == -1 && cs[i].pos == g.pos(i, addr)
       else
         && 0 <= cs[i].parent <= i - g.ways
         && var up := cs[cs[i].parent].line;
         && cs[i].line != up
         && up < |addrs| && addrs[up] != 0
         && g.IsHome(addrs[up], cs[i].pos)
  }

  /** Candidates are found in the order in which their parents were expanded, and those of one
      parent way by way. */
  predicate InOrder(cs: seq<Cand>, i: nat, j: nat)
    requires i < |cs| && j < |cs|
  {
    cs[i].parent < cs[j].parent || (cs[i].parent == cs[j].parent && cs[i].pos < cs[j].pos)
  }

  ghost predicate CandsOk(g: Geometry, lookup: seq<nat>, addrs: seq<nat>, addr: nat, cs: seq<Cand>) {
    && (forall i: nat :: i < |cs| ==> CandOk(g, lookup, addrs, addr, cs, i))
    && (forall i: nat, j: nat :: g.ways <= i < j < |cs| ==> InOrder(cs, i, j))
  }

  /** The positions of the line of candidate `j`, up to way `w`, are all among the candidates,
      except the one where the line is. */
  ghost predicate Expanded(g: Geometry, lookup: seq<nat>, addrs: seq<nat>, cs: seq<Cand>, j: nat, upTo: nat)
    requires g.Valid() && |lookup| == g.numLines
    requires j < |cs| && cs[j].line < |addrs| && upTo <= g.ways
  {
    forall w: nat :: w < upTo ==>
      var p := g.pos(w, addrs[cs[j].line]);
      lookup[p] == cs[j].line || HasChild(g, cs, j, p)
  }

  ghost predicate HasChild(g: Geometry, cs: seq<Cand>, j: nat, p: nat) {
    exists i :: g.ways <= i < |cs| && cs[i].parent == j && cs[i].pos == p
  }

  ghost predicate AllExpanded(g: Geometry, lookup: seq<nat>, addrs: seq<nat>, cs: seq<Cand>, fringe: nat)
    requires g.Valid() && |lookup| == g.numLines
  {
    && fringe <= |cs|
    && forall j: nat :: j < fringe ==> cs[j].line < |addrs| && Expanded(g, lookup, addrs, cs, j, g.ways)
  }

  /** No earlier candidate has the same line. */
  predicate FirstOccurrence(cs: seq<Cand>, i: nat)
    requires i < |cs|
  {
    forall k :: 0 <= k < i ==> cs[k].line != cs[i].line
  }

  // ------------------------------------------------------------ growing the walk

  lemma ExpandedGrows(g: Geometry, lookup: seq<nat>, addrs: seq<nat>, cs: seq<Cand>, c: Cand, j: nat, upTo: nat)
    requires g.Valid() && |lookup| == g.numLines && upTo <= g.ways
    requires j < |cs| && cs[j].line < |addrs| && Expanded(g, lookup, addrs, cs, j, upTo)
    ensures Expanded(g, lookup, addrs, cs + [c], j, upTo)
  {
    var cs' := cs + [c];
    forall w: nat | w < upTo
      ensures var p := g.pos(w, addrs[cs[j].line]); lookup[p] == cs[j].line || HasChild(g, cs', j, p)
    {
      var p := g.pos(w, addrs[cs[j].line]);
      if lookup[p] != cs[j].line {
        assert HasChild(g, cs, j, p);
        var i :| g.ways <= i < |cs| && cs[i].parent == j && cs[i].pos == p;
        assert cs'[i] == cs[i];
      }
    }
  }

  lemma AllExpandedGrows(g: Geometry, lookup: seq<nat>, addrs: seq<nat>, cs: seq<Cand>, c: Cand, fringe: nat)
    requires g.Valid() && |lookup| == g.numLines
    requires AllExpanded(g, lookup, addrs, cs, fringe)
    ensures AllExpanded(g, lookup, addrs, cs + [c], fringe)
  {
    forall j: nat | j < fringe
      ensures Expanded(g, lookup, addrs, cs + [c], j, g.ways)
    {
      ExpandedGrows(g, lookup, addrs, cs, c, j, g.ways);
    }
  }

  lemma ExpansionStarts(g: Geometry, lookup: seq<nat>, addrs: seq<nat>, cs: seq<Cand>, j: nat)
    requires g.Valid() && |lookup| == g.numLines && j < |cs| && cs[j].line < |addrs|
    ensures Expanded(g, lookup, addrs, cs, j, 0)
  {
  }

  /** The position where the line itself is needs no candidate. */
  lemma ExpansionSkips(g: Geometry, lookup: seq<nat>, addrs: seq<nat>, cs: seq<Cand>, j: nat, w: nat)
    requires g.Valid() && |lookup| == g.numLines && j < |cs| && cs[j].line < |addrs| && w < g.ways
    requires Expanded(g, lookup, addrs, cs, j, w) && lookup[g.pos(w, addrs[cs[j].line])] == cs[j].line
    ensures Expanded(g, lookup, addrs, cs, j, w + 1)
  {
  }

  lemma ExpansionEnds(g: Geometry, lookup: seq<nat>, addrs: seq<nat>, cs: seq<Cand>, j: nat)
    requires g.Valid() && |lookup| == g.numLines && j < |cs| && cs[j].line < |addrs|
    requires AllExpanded(g, lookup, addrs, cs, j) && Expanded(g, lookup, addrs, cs, j, g.ways)
    ensures AllExpanded(g, lookup, addrs, cs, j + 1)
  {
  }

  /** A valid line is at the position of exactly one way. */
  lemma OneHomeWay(g: Geometry, lookup: seq<nat>, place: seq<nat>, addrs: seq<nat>, l: nat) returns (home: nat)
    requires ArrayOk(g, lookup, place, addrs) && l < |addrs| && addrs[l] != 0
    ensures home < g.ways
    ensures forall w: nat :: w < g.ways ==> (lookup[g.pos(w, addrs[l])] == l <==> w == home)
  {
    assert g.IsHome(addrs[l], place[l]);
    home :| home < g.ways && g.pos(home, addrs[l]) == place[l];
  }

  /** A new candidate found from the candidate under expansion. */
  lemma CandsGrow(g: Geometry, lookup: seq<nat>, addrs: seq<nat>, addr: nat, cs: seq<Cand>, c: Cand)
    requires CandsOk(g, lookup, addrs, addr, cs) && g.ways <= |cs|
    requires 0 <= c.parent <= |cs| - g.ways && c.parent < |cs|
    requires c.pos < |lookup| && c.line == lookup[c.pos] && c.line < |addrs|
    requires var up := cs[c.parent].line;
             c.line != up && up < |addrs| && addrs[up] != 0 && g.IsHome(addrs[up], c.pos)
    requires forall i :: 0 <= i < |cs| ==>
               cs[i].parent < c.parent || (cs[i].parent == c.parent && cs[i].pos < c.pos)
    ensures CandsOk(g, lookup, addrs, addr, cs + [c])
  {
    var cs' := cs + [c];
    forall i: nat | i < |cs'|
      ensures CandOk(g, lookup, addrs, addr, cs', i)
    {
      if i < |cs| {
        assert CandOk(g, lookup, addrs, addr, cs, i);
      }
    }
    forall i: nat, j: nat | g.ways <= i < j < |cs'|
      ensures InOrder(cs', i, j)
    {
      if j < |cs| {
        assert InOrder(cs, i, j);
      }
    }
  }

  /** Two walks agree as far as both go: what comes next is the next way of the next line to
      expand. */
  lemma {:induction false} WalksAgree(g: Geometry, lookup: seq<nat>, addrs: seq<nat>, addr: nat,
                                      cs: seq<Cand>, fringe: nat, cs': seq<Cand>, fringe': nat, i: nat)
    requires g.Valid() && |lookup| == |addrs| == g.numLines
    requires CandsOk(g, lookup, addrs, addr, cs) && AllExpanded(g, lookup, addrs, cs, fringe)
    requires CandsOk(g, lookup, addrs, addr, cs') && AllExpanded(g, lookup, addrs, cs', fringe')
    requires forall k :: 0 <= k < |cs| ==> cs[k].parent < fringe
    requires forall k :: 0 <= k < |cs'| ==> cs'[k].parent < fringe'
    requires i < |cs| && i < |cs'|
    ensures cs[i] == cs'[i]
    decreases i
  {
    hide CandsOk, AllExpanded;
    forall k: nat | k < i
      ensures cs[k] == cs'[k]
    {
      WalksAgree(g, lookup, addrs, addr, cs, fringe, cs', fringe', k);
    }
    CandFacts(g, lookup, addrs, addr, cs, i);
    CandFacts(g, lookup, addrs, addr, cs', i);
    if i >= g.ways && (cs[i].parent != cs'[i].parent || cs[i].pos != cs'[i].pos) {
      if InOrderPair(cs[i], cs'[i]) {
        NoneSkipped(g, lookup, addrs, addr, cs, cs', fringe', i);
      } else {
        NoneSkipped(g, lookup, addrs, addr, cs', cs, fringe, i);
      }
    }
  }

  predicate InOrderPair(c: Cand, d: Cand) {
    c.parent < d.parent || (c.parent == d.parent && c.pos < d.pos)
  }

  lemma CandFacts(g: Geometry, lookup: seq<nat>, addrs: seq<nat>, addr: nat, cs: seq<Cand>, i: nat)
    requires CandsOk(g, lookup, addrs, addr, cs) && i < |cs|
    ensures CandOk(g, lookup, addrs, addr, cs, i)
  {
  }

  /** A walk does not leave out a candidate and go on with a later one. */
  lemma NoneSkipped(g: Geometry, lookup: seq<nat>, addrs: seq<nat>, addr: nat, cs: seq<Cand>, cs': seq<Cand>,
                    fringe': nat, i: nat)
    requires g.Valid() && |lookup| == |addrs| == g.numLines
    requires CandsOk(g, lookup, addrs, addr, cs)
    requires CandsOk(g, lookup, addrs, addr, cs') && AllExpanded(g, lookup, addrs, cs', fringe')
    requires g.ways <= i < |cs| && i < |cs'| && cs'[i].parent < fringe'
    requires forall k :: 0 <= k < i ==> cs[k] == cs'[k]
    ensures !InOrderPair(cs[i], cs'[i])
  {
    if InOrderPair(cs[i], cs'[i]) {
      assert CandOk(g, lookup, addrs, addr, cs, i);
      var p: nat := cs[i].parent;
      assert p < fringe' && cs'[p] == cs[p];
      assert Expanded(g, lookup, addrs, cs', p, g.ways);
      var w: nat :| w < g.ways && g.pos(w, addrs[cs[p].line]) == cs[i].pos;
      assert HasChild(g, cs', p, cs[i].pos);
      var c :| g.ways <= c < |cs'| && cs'[c].parent == p && cs'[c].pos == cs[i].pos;
      if c < i {
        CandsInOrder(g, lookup, addrs, addr, cs, c, i);
      } else if i < c {
        CandsInOrder(g, lookup, addrs, addr, cs', i, c);
      }
    }
  }

  lemma CandsInOrder(g: Geometry, lookup: seq<nat>, addrs: seq<nat>, addr: nat, cs: seq<Cand>, i: nat, j: nat)
    requires CandsOk(g, lookup, addrs, addr, cs) && g.ways <= i < j < |cs|
    ensures InOrder(cs, i, j)
  {
  }

  /** If the line of a candidate's parent occurred before, so did the candidate's line: the
      earlier occurrence was expanded earlier and produced it then. */
  lemma EarlierChild(g: Geometry, lookup: seq<nat>, addrs: seq<nat>, addr: nat, cs: seq<Cand>, fringe: nat,
                     i: nat, k: nat) returns (c: nat)
    requires g.Valid() && |lookup| == |addrs| == g.numLines
    requires CandsOk(g, lookup, addrs, addr, cs)
    requires AllExpanded(g, lookup, addrs, cs, fringe)
    requires i < |cs| && k < cs[i].parent < fringe && cs[k].line == cs[cs[i].parent].line
    ensures c < i && cs[c].line == cs[i].line
  {
    assert CandOk(g, lookup, addrs, addr, cs, i);
    var p: nat := cs[i].parent;
    var w: nat :| w < g.ways && g.pos(w, addrs[cs[p].line]) == cs[i].pos;
    assert Expanded(g, lookup, addrs, cs, k, g.ways);
    assert HasChild(g, cs, k, cs[i].pos);
    c :| g.ways <= c < |cs| && cs[c].parent == k && cs[c].pos == cs[i].pos;
    assert CandOk(g, lookup, addrs, addr, cs, c);
    assert i < c ==> InOrder(cs, i, c);
  }

  /** If a candidate is the first occurrence of its line, so is its parent. */
  lemma ParentIsFirst(g: Geometry, lookup: seq<nat>, addrs: seq<nat>, addr: nat, cs: seq<Cand>, fringe: nat, i: nat)
    requires g.Valid() && |lookup| == |addrs| == g.numLines
    requires CandsOk(g, lookup, addrs, addr, cs)
    requires AllExpanded(g, lookup, addrs, cs, fringe)
    requires i < |cs| && 0 <= cs[i].parent < fringe && FirstOccurrence(cs, i)
    ensures cs[i].parent < |cs| && FirstOccurrence(cs, cs[i].parent)
  {
    forall k: nat | k < cs[i].parent
      ensures cs[k].line != cs[cs[i].parent].line
    {
      if cs[k].line == cs[cs[i].parent].line {
        var c := EarlierChild(g, lookup, addrs, addr, cs, fringe, i, k);
      }
    }
  }

  /** The positions from a candidate back to its seed. */
  ghost function Path(cs: seq<Cand>, i: nat): (ps: seq<nat>)
    requires i < |cs|
    requires forall k :: 0 <= k < |cs| ==> cs[k].parent < k
    ensures |ps| > 0 && ps[0] == cs[i].pos
    decreases i
  {
    if cs[i].parent < 0 then [cs[i].pos] else [cs[i].pos] + Path(cs, cs[i].parent)
  }

  /** The positions still to visit, of which there are none past a seed. */
  ghost function Rest(cs: seq<Cand>, i: int): seq<nat>
    requires i < |cs|
    requires forall k :: 0 <= k < |cs| ==> cs[k].parent < k
  {
    if i < 0 then [] else Path(cs, i)
  }

  lemma PathThenRest(cs: seq<Cand>, i: nat)
    requires i < |cs|
    requires forall k :: 0 <= k < |cs| ==> cs[k].parent < k
    ensures Rest(cs, i) == [cs[i].pos] + Rest(cs, cs[i].parent)
  {
  }

  lemma ParentsBefore(g: Geometry, lookup: seq<nat>, addrs: seq<nat>, addr: nat, cs: seq<Cand>)
    requires g.Valid() && |lookup| == |addrs| == g.numLines
    requires CandsOk(g, lookup, addrs, addr, cs)
    ensures forall k :: 0 <= k < |cs| ==> -1 <= cs[k].parent < k
  {
    forall k | 0 <= k < |cs|
      ensures -1 <= cs[k].parent < k
    {
      assert CandOk(g, lookup, addrs, addr, cs, k);
    }
  }

  /** Where the lines of a path may go: each position can take the line of the next one, the
      last one takes the new address, no position occurs twice. */
  ghost predicate PathOk(g: Geometry, lookup: seq<nat>, addrs: seq<nat>, addr: nat, ps: seq<nat>)
    requires |lookup| == |addrs|
  {
    && |ps| > 0
    && (forall i :: 0 <= i < |ps| ==> ps[i] < |lookup| && lookup[ps[i]] < |addrs|)
    && Sequences.Distinct(ps)
    && (forall i :: 0 < i < |ps| ==> g.IsHome(addrs[lookup[ps[i]]], ps[i - 1]))
    && g.IsHome(addr, ps[|ps| - 1])
  }

  lemma {:induction false} PathIsOk(g: Geometry, lookup: seq<nat>, addrs: seq<nat>, addr: nat, cs: seq<Cand>,
                                    fringe: nat, i: nat)
    requires g.Valid() && |lookup| == |addrs| == g.numLines
    requires CandsOk(g, lookup, addrs, addr, cs)
    requires AllExpanded(g, lookup, addrs, cs, fringe)
    requires forall k :: 0 <= k < |cs| ==> cs[k].parent < k && cs[k].parent < fringe
    requires i < |cs| && FirstOccurrence(cs, i)
    ensures PathOk(g, lookup, addrs, addr, Path(cs, i))
    ensures forall p :: p in Path(cs, i) ==>
              exists k: nat :: k <= i && p == cs[k].pos && FirstOccurrence(cs, k)
    decreases i
  {
    var ps := Path(cs, i);
    assert CandOk(g, lookup, addrs, addr, cs, i);
    if cs[i].parent < 0 {
      assert i < g.ways;
      assert g.IsHome(addr, ps[0]);
    } else {
      var p: nat := cs[i].parent;
      ParentIsFirst(g, lookup, addrs, addr, cs, fringe, i);
      PathIsOk(g, lookup, addrs, addr, cs, fringe, p);
      var rest := Path(cs, p);
      forall q | q in rest
        ensures q != cs[i].pos
      {
        var k: nat :| k <= p && q == cs[k].pos && FirstOccurrence(cs, k);
        assert CandOk(g, lookup, addrs, addr, cs, k);
        assert cs[k].line != cs[i].line;
      }
      assert CandOk(g, lookup, addrs, addr, cs, p);
      PathExtends(g, lookup, addrs, addr, cs[i].pos, rest);
      assert ps == [cs[i].pos] + rest;
    }
  }

  lemma PathExtends(g: Geometry, lookup: seq<nat>, addrs: seq<nat>, addr: nat, p: nat, rest: seq<nat>)
    requires |lookup| == |addrs| && PathOk(g, lookup, addrs, addr, rest)
    requires p < |lookup| && lookup[p] < |addrs| && p !in rest
    requires g.IsHome(addrs[lookup[rest[0]]], p)
    ensures PathOk(g, lookup, addrs, addr, [p] + rest)
  {
    hide Geometry.IsHome;
    var ps := [p] + rest;
    forall k | 0 < k < |ps|
      ensures g.IsHome(addrs[lookup[ps[k]]], ps[k - 1])
    {
      if k > 1 {
        assert g.IsHome(addrs[lookup[rest[k - 1]]], rest[k - 1 - 1]);
      }
    }
    forall i, j | 0 <= i < j < |ps|
      ensures ps[i] != ps[j]
    {
      if i > 0 {
        assert rest[i - 1] != rest[j - 1];
      } else {
        assert rest[j - 1] in rest;
      }
    }
  }

  /** Each step back skips at least `ways` candidates. */
  lemma {:induction false} PathLength(g: Geometry, lookup: seq<nat>, addrs: seq<nat>, addr: nat, cs: seq<Cand>, i: nat)
    requires g.Valid() && |lookup| == |addrs| == g.numLines
    requires CandsOk(g, lookup, addrs, addr, cs) && i < |cs|
    requires forall k :: 0 <= k < |cs| ==> cs[k].parent < k
    ensures (|Path(cs, i)| - 1) * g.ways <= i
    decreases i
  {
    if cs[i].parent >= 0 {
      var p: nat := cs[i].parent;
      PathLength(g, lookup, addrs, addr, cs, p);
      assert CandOk(g, lookup, addrs, addr, cs, i);
      var n := |Path(cs, p)|;
      assert n * g.ways == (n - 1) * g.ways + g.ways;
    }
  }

  // ------------------------------------------------------------ moving the lines

  /** The lookup array after the lines have moved one position along the path and the
      victim's line id has been put at its end. */
  ghost predicate Moved(lookup: seq<nat>, lookup': seq<nat>, ps: seq<nat>)
    requires |ps| > 0 && forall i :: 0 <= i < |ps| ==> ps[i] < |lookup|
  {
    && |lookup'| == |lookup|
    && (forall i :: 0 <= i < |ps| - 1 ==> lookup'[ps[i]] == lookup[ps[i + 1]])
    && lookup'[ps[|ps| - 1]] == lookup[ps[0]]
    && (forall p :: 0 <= p < |lookup| && p !in ps ==> lookup'[p] == lookup[p])
  }

  function IndexOf(ps: seq<nat>, p: nat): (i: nat)
    requires p in ps
    ensures i < |ps| && ps[i] == p
  {
    if ps[0] == p then 0 else 1 + IndexOf(ps[1..], p)
  }

  /** Where each line is after the move. */
  ghost function NewPlace(place: seq<nat>, ps: seq<nat>): (place': seq<nat>)
    requires |ps| > 0
    ensures |place'| == |place|
  {
    seq(|place|, l requires 0 <= l < |place| =>
      if place[l] in ps then
        var i := IndexOf(ps, place[l]);
        if i == 0 then ps[|ps| - 1] else ps[i - 1]
      else
        place[l])
  }

  lemma IndexIs(ps: seq<nat>, i: nat)
    requires i < |ps| && forall i, j :: 0 <= i < j < |ps| ==> ps[i] != ps[j]
    ensures IndexOf(ps, ps[i]) == i
  {
  }

  /** The lines keep being a permutation of the positions. */
  lemma MovedIsPermutation(lookup: seq<nat>, place: seq<nat>, ps: seq<nat>, lookup': seq<nat>)
    requires |lookup| == |place| && |ps| > 0
    requires forall p :: 0 <= p < |lookup| ==> lookup[p] < |place| && place[lookup[p]] == p
    requires forall l :: 0 <= l < |place| ==> place[l] < |lookup| && lookup[place[l]] == l
    requires forall i :: 0 <= i < |ps| ==> ps[i] < |lookup|
    requires forall i, j :: 0 <= i < j < |ps| ==> ps[i] != ps[j]
    requires Moved(lookup, lookup', ps)
    ensures var place' := NewPlace(place, ps);
            && (forall p :: 0 <= p < |lookup'| ==> lookup'[p] < |place'| && place'[lookup'[p]] == p)
            && (forall l :: 0 <= l < |place'| ==> place'[l] < |lookup'| && lookup'[place'[l]] == l)
  {
    var place' := NewPlace(place, ps);
    forall p | 0 <= p < |lookup'|
      ensures lookup'[p] < |place'| && place'[lookup'[p]] == p
    {
      if p in ps {
        var i := IndexOf(ps, p);
        IndexIs(ps, if i < |ps| - 1 then i + 1 else 0);
      }
    }
    forall l | 0 <= l < |place'|
      ensures place'[l] < |lookup'| && lookup'[place'[l]] == l
    {
      if place[l] in ps {
        var i := IndexOf(ps, place[l]);
        if i > 0 {
          assert lookup'[ps[i - 1]] == lookup[ps[i - 1 + 1]];
        }
      } else {
        assert place[l] !in ps;
      }
    }
  }

  /** Moving along a path and giving the victim's line id to the new address keeps the array
      consistent: a permutation, every line at a home of its address, no address twice. */
  lemma MovedOk(g: Geometry, lookup: seq<nat>, place: seq<nat>, addrs: seq<nat>, addr: nat, ps: seq<nat>,
                lookup': seq<nat>)
    requires ArrayOk(g, lookup, place, addrs)
    requires PathOk(g, lookup, addrs, addr, ps) && Moved(lookup, lookup', ps)
    requires addr != 0 && addr !in addrs
    ensures ArrayOk(g, lookup', NewPlace(place, ps), addrs[lookup[ps[0]] := addr])
  {
    hide Geometry.IsHome, Geometry.Valid;
    MovedIsPermutation(lookup, place, ps, lookup');
    var place' := NewPlace(place, ps);
    var victim := lookup[ps[0]];
    var addrs' := addrs[victim := addr];
    forall l | 0 <= l < |addrs'| && addrs'[l] != 0
      ensures g.IsHome(addrs'[l], place'[l])
    {
      if place[l] in ps {
        var i := IndexOf(ps, place[l]);
        if i > 0 {
          assert g.IsHome(addrs[lookup[ps[i]]], ps[i - 1]);
          IndexIs(ps, i);
          assert l != victim by {
            assert place[victim] == ps[0];
          }
        }
      }
    }
    forall k, l | 0 <= k < l < |addrs'| && addrs'[k] != 0
      ensures addrs'[k] != addrs'[l]
    {
      if k == victim {
        assert addrs[l] in addrs;
      } else if l == victim {
        assert addrs[k] in addrs;
      }
    }
  }
}
