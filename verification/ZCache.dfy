/**
 The zcache array: a position-to-line indirection, a breadth-first replacement walk and a
 chain of moves, updated in place.
 */
module ZCache {
  import opened ZWalk

  datatype LookupResult = Panicked | Missing | Found(line: nat)

  lemma WayBound(w: nat, ways: nat, numSets: nat)
    requires w < ways
    ensures w * numSets + numSets <= ways * numSets
  {
    assert (w + 1) * numSets <= ways * numSets;
  }

  class ZArray {
    const numSets: nat
    const ways: nat
    const cands: nat
    const hash: (nat, nat) -> nat

    const lineAddrs: array<nat>       // line id -> address, 0 if the line is invalid
    const lookupArray: array<nat>  // position -> line id
    const swapArray: array<nat>    // positions of the pending replacement
    var swapArrayLen: nat

    ghost const geo: Geometry
    ghost var place: seq<nat>      // line id -> position

    /** The position of an address in a way; `numSets` is a power of two in the source, which
        masks where this takes the remainder. */
    function Pos(w: nat, addr: nat): nat
      requires 0 < numSets
    {
      w * numSets + hash(w, addr) % numSets
    }

    ghost predicate Valid()
      reads this, lineAddrs, lookupArray
    {
      && 0 < numSets && 1 < ways <= cands
      && lineAddrs != lookupArray && lineAddrs != swapArray && lookupArray != swapArray
      && swapArray.Length == cands / ways + 2
      && geo.ways == ways
      && (forall w: nat, addr: nat :: w < ways ==> geo.pos(w, addr) == Pos(w, addr))
      && ArrayOk(geo, lookupArray[..], place, lineAddrs[..])
    }

    /** The address is in the array. */
    ghost predicate Resident(addr: nat)
      reads lineAddrs
    {
      addr in lineAddrs[..]
    }

    constructor (numSets: nat, ways: nat, cands: nat, hash: (nat, nat) -> nat)
      requires 0 < numSets && 1 < ways <= cands
      ensures Valid() && fresh(lineAddrs) && fresh(lookupArray) && fresh(swapArray)
      ensures this.numSets == numSets && this.ways == ways && this.cands == cands && this.hash == hash
      ensures forall addr :: addr != 0 ==> !Resident(addr)
    {
      this.numSets, this.ways, this.cands, this.hash := numSets, ways, cands, hash;
      var n := ways * numSets;
      lookupArray := new nat[n](i => i);
      lineAddrs := new nat[n](i => 0);
      swapArray := new nat[cands / ways + 2](i => 0);
      swapArrayLen := 0;
      var pos := (w: nat, addr: nat) => w * numSets + hash(w, addr) % numSets;
      geo := Geometry(n, ways, pos);
      place := seq(n, i => i);
      new;
      forall w: nat, addr: nat | w < ways
        ensures geo.pos(w, addr) < geo.numLines
      {
        WayBound(w, ways, numSets);
      }
      forall v: nat, w: nat, addr: nat | v < w < ways
        ensures geo.pos(v, addr) < geo.pos(w, addr)
      {
        WayBound(v, w, numSets);
      }
    }

    /** Finds exactly the resident addresses; address 0 panics. */
    method Lookup(addr: nat) returns (r: LookupResult)
      requires Valid()
      ensures r.Panicked? <==> addr == 0
      ensures r.Found? <==> addr != 0 && Resident(addr)
      ensures r.Found? ==> r.line < lineAddrs.Length && lineAddrs[r.line] == addr
    {
      if addr == 0 {
        return Panicked;
      }
      var w := 0;
      while w < ways
        invariant 0 <= w <= ways
        invariant forall v: nat :: v < w ==> lineAddrs[lookupArray[geo.pos(v, addr)]] != addr
      {
        var line := lookupArray[Pos(w, addr)];
        if lineAddrs[line] == addr {
          assert lineAddrs[..][line] == addr;
          return Found(line);
        }
        w := w + 1;
      }
      return Missing;
    }

    // ---------------------------------------------------------- the walk

    /** The walk after its first `fringe` candidates have been expanded: each expansion has
        added exactly `ways - 1` candidates. */
    ghost predicate WalkOk(addr: nat, cs: seq<Cand>, fringe: nat)
      requires Valid()
      reads this, lineAddrs, lookupArray
    {
      && |cs| == ways + fringe * (ways - 1)
      && CandsOk(geo, lookupArray[..], lineAddrs[..], addr, cs)
      && AllExpanded(geo, lookupArray[..], lineAddrs[..], cs, fringe)
      && forall i :: 0 <= i < |cs| ==> cs[i].parent < fringe
    }

    ghost predicate AllValid(cs: seq<Cand>)
      reads lineAddrs
    {
      forall i :: 0 <= i < |cs| ==> cs[i].line < lineAddrs.Length && lineAddrs[cs[i].line] != 0
    }

    method Seeds(addr: nat, candidates: array<Cand>) returns (allValid: bool)
      requires Valid() && candidates.Length == cands + ways
      modifies candidates
      ensures WalkOk(addr, candidates[..ways], 0)
      ensures allValid <==> AllValid(candidates[..ways])
    {
      allValid := true;
      for w := 0 to ways
        invariant forall i :: 0 <= i < w ==>
                    var p := geo.pos(i, addr);
                    candidates[i] == Cand(p, lookupArray[p], -1)
        invariant allValid <==> forall i :: 0 <= i < w ==> lineAddrs[candidates[i].line] != 0
      {
        var pos := Pos(w, addr);
        assert pos == geo.pos(w, addr);
        var line := lookupArray[pos];
        candidates[w] := Cand(pos, line, -1);
        allValid := allValid && lineAddrs[line] != 0;
      }
      ghost var cs := candidates[..ways];
      forall i: nat | i < |cs|
        ensures CandOk(geo, lookupArray[..], lineAddrs[..], addr, cs, i)
      {
        assert cs[i] == candidates[i];
      }
    }

    /** The walk in the middle of an expansion: the first `w` positions of the fringe line
        have been looked at. */
    ghost predicate Expanding(addr: nat, cs: seq<Cand>, fringe: nat, w: nat)
      requires Valid() && w <= ways
      reads this, lineAddrs, lookupArray
    {
      && fringe < |cs| && ways + fringe <= |cs|
      && cs[fringe].line < lineAddrs.Length && lineAddrs[cs[fringe].line] != 0
      && CandsOk(geo, lookupArray[..], lineAddrs[..], addr, cs)
      && AllExpanded(geo, lookupArray[..], lineAddrs[..], cs, fringe)
      && Expanded(geo, lookupArray[..], lineAddrs[..], cs, fringe, w)
      && (forall i :: 0 <= i < |cs| ==> cs[i].parent <= fringe)
      && (forall i :: 0 <= i < |cs| && cs[i].parent == fringe ==>
            w > 0 && cs[i].pos <= geo.pos(w - 1, lineAddrs[cs[fringe].line]))
    }

    lemma ExpandingStarts(addr: nat, cs: seq<Cand>, fringe: nat)
      requires Valid() && WalkOk(addr, cs, fringe) && fringe < |cs| && AllValid(cs)
      ensures Expanding(addr, cs, fringe, 0)
    {
      ExpansionStarts(geo, lookupArray[..], lineAddrs[..], cs, fringe);
      FringeBound(fringe, ways);
    }

    lemma ExpandingGrows(addr: nat, cs: seq<Cand>, fringe: nat, w: nat, c: Cand)
      requires Valid() && w < ways && Expanding(addr, cs, fringe, w)
      requires var p := geo.pos(w, lineAddrs[cs[fringe].line]);
               c == Cand(p, lookupArray[p], fringe) && c.line != cs[fringe].line
      ensures Expanding(addr, cs + [c], fringe, w + 1)
    {
      var lookup, addrs := lookupArray[..], lineAddrs[..];
      CandsGrow(geo, lookup, addrs, addr, cs, c);
      AllExpandedGrows(geo, lookup, addrs, cs, c, fringe);
      ExpandedGrows(geo, lookup, addrs, cs, c, fringe, w);
      var cs' := cs + [c];
      assert cs'[|cs|] == c;
      assert HasChild(geo, cs', fringe, c.pos);
    }

    lemma ExpandingSkips(addr: nat, cs: seq<Cand>, fringe: nat, w: nat)
      requires Valid() && w < ways && Expanding(addr, cs, fringe, w)
      requires lookupArray[geo.pos(w, lineAddrs[cs[fringe].line])] == cs[fringe].line
      ensures Expanding(addr, cs, fringe, w + 1)
    {
      ExpansionSkips(geo, lookupArray[..], lineAddrs[..], cs, fringe, w);
    }

    lemma AllValidGrows(cs: seq<Cand>, c: Cand)
      requires c.line < lineAddrs.Length
      ensures AllValid(cs + [c]) <==> AllValid(cs) && lineAddrs[c.line] != 0
    {
      assert (cs + [c])[|cs|] == c;
      assert forall i :: 0 <= i < |cs| ==> (cs + [c])[i] == cs[i];
    }

    lemma ExpandingEnds(addr: nat, cs: seq<Cand>, fringe: nat)
      requires Valid() && Expanding(addr, cs, fringe, ways)
      requires |cs| == ways + fringe * (ways - 1) + ways - 1
      ensures WalkOk(addr, cs, fringe + 1)
    {
      ExpansionEnds(geo, lookupArray[..], lineAddrs[..], cs, fringe);
      FringeBound(fringe, ways);
    }

    lemma Shape()
      requires Valid()
      ensures geo.Valid() && lookupArray.Length == lineAddrs.Length == geo.numLines
    {
    }

    lemma PosInRange(w: nat, addr: nat)
      requires Valid() && w < ways
      ensures Pos(w, addr) == geo.pos(w, addr) < lookupArray.Length == lineAddrs.Length
      ensures lookupArray[geo.pos(w, addr)] < lineAddrs.Length
    {
    }

    lemma HomeWay(addr: nat, cs: seq<Cand>, fringe: nat) returns (home: nat)
      requires Valid() && fringe < |cs| && AllValid(cs)
      ensures home < ways && cs[fringe].line < lineAddrs.Length
      ensures forall w: nat :: w < ways ==>
                var p := geo.pos(w, lineAddrs[cs[fringe].line]);
                p < lookupArray.Length && (lookupArray[p] == cs[fringe].line <==> w == home)
    {
      home := OneHomeWay(geo, lookupArray[..], place, lineAddrs[..], cs[fringe].line);
      forall w: nat | w < ways
        ensures geo.pos(w, lineAddrs[cs[fringe].line]) < lookupArray.Length
      {
        PosInRange(w, lineAddrs[cs[fringe].line]);
      }
    }

    /** Look at one position of the fringe line. The slot written last is kept only if the
        position holds another line. */
    method TryWay(addr: nat, candidates: array<Cand>, num: nat, fringe: nat, w: nat) returns (num': nat, valid: bool)
      requires Valid() && w < ways && num < candidates.Length
      requires Expanding(addr, candidates[..num], fringe, w)
      modifies candidates
      ensures candidates[..num] == old(candidates[..num])
      ensures num' == if lookupArray[geo.pos(w, lineAddrs[candidates[fringe].line])] == candidates[fringe].line then num
                      else num + 1
      ensures Expanding(addr, candidates[..num'], fringe, w + 1)
      ensures AllValid(candidates[..num']) <==> AllValid(old(candidates[..num])) && valid
    {
      hide ArrayOk, CandsOk, AllExpanded, Expanded, AllValid;
      ghost var cs := candidates[..num];
      assert cs[fringe] == candidates[fringe];
      var fringeId := candidates[fringe].line;
      PosInRange(w, lineAddrs[fringeId]);
      var pos := Pos(w, lineAddrs[fringeId]);
      var line := lookupArray[pos];
      candidates[num] := Cand(pos, line, fringe);
      valid := lineAddrs[line] != 0;
      assert candidates[..num] == cs;
      if line != fringeId {
        ExpandingGrows(addr, cs, fringe, w, Cand(pos, line, fringe));
        AllValidGrows(cs, Cand(pos, line, fringe));
        num' := num + 1;
        assert candidates[..num'] == cs + [Cand(pos, line, fringe)];
      } else {
        ExpandingSkips(addr, cs, fringe, w);
        num' := num;
      }
    }

    /** Expand one candidate: the other positions of its line become candidates. The line is at
        exactly one of its positions, so exactly `ways - 1` are added. */
    method Expand(addr: nat, candidates: array<Cand>, num: nat, fringe: nat) returns (num': nat, allValid: bool)
      requires Valid() && candidates.Length == cands + ways && num < cands
      requires WalkOk(addr, candidates[..num], fringe) && fringe < num && AllValid(candidates[..num])
      modifies candidates
      ensures num' == num + ways - 1 && candidates[..num] == old(candidates[..num])
      ensures WalkOk(addr, candidates[..num'], fringe + 1)
      ensures allValid <==> AllValid(candidates[..num'])
    {
      hide ArrayOk, CandsOk, AllExpanded, Expanded, AllValid, Expanding;
      ghost var fringeId := candidates[..num][fringe].line;
      ExpandingStarts(addr, candidates[..num], fringe);
      ghost var home := HomeWay(addr, candidates[..num], fringe);
      num' := num;
      allValid := true;
      for w := 0 to ways
        invariant num' == num + w - (if w > home then 1 else 0)
        invariant candidates[..num'][fringe].line == fringeId
        invariant Expanding(addr, candidates[..num'], fringe, w)
        invariant candidates[..num] == old(candidates[..num])
        invariant allValid <==> AllValid(candidates[..num'])
      {
        ghost var before := candidates[..num'];
        var n, valid := TryWay(addr, candidates, num', fringe, w);
        assert before == candidates[..num'];
        assert candidates[..num] == before[..num];
        assert candidates[..n][fringe] == before[fringe];
        num' := n;
        allValid := allValid && valid;
      }
      ExpandingEnds(addr, candidates[..num'], fringe);
    }

    /** The walk is over: there are enough candidates or one of them is invalid, and before the last
        expansion that was not so. */
    ghost predicate WalkDone(addr: nat, cs: seq<Cand>, fringe: nat)
      requires Valid()
      reads this, lineAddrs, lookupArray
    {
      && WalkOk(addr, cs, fringe) && ways <= |cs|
      && (|cs| >= cands || !AllValid(cs))
      && (fringe > 0 ==> |cs| - (ways - 1) < cands && AllValid(cs[..|cs| - (ways - 1)]))
    }

    /** There is only one such walk. */
    lemma WalkIsUnique(addr: nat, cs: seq<Cand>, fringe: nat, cs': seq<Cand>, fringe': nat)
      requires Valid() && WalkDone(addr, cs, fringe) && WalkDone(addr, cs', fringe')
      ensures cs == cs' && fringe == fringe'
    {
      hide ArrayOk, CandsOk, AllExpanded;
      Shape();
      if fringe < fringe' {
        NotLonger(addr, cs, fringe, cs', fringe');
      } else if fringe' < fringe {
        NotLonger(addr, cs', fringe', cs, fringe);
      }
      forall i: nat | i < |cs|
        ensures cs[i] == cs'[i]
      {
        WalksAgree(geo, lookupArray[..], lineAddrs[..], addr, cs, fringe, cs', fringe', i);
      }
    }

    lemma NotLonger(addr: nat, cs: seq<Cand>, fringe: nat, cs': seq<Cand>, fringe': nat)
      requires Valid() && WalkDone(addr, cs, fringe) && WalkDone(addr, cs', fringe')
      ensures fringe' <= fringe
    {
      hide ArrayOk, CandsOk, AllExpanded;
      Shape();
      if fringe < fringe' {
        Expansions(fringe, fringe', ways);
        forall i: nat | i < |cs|
          ensures cs[i] == cs'[i]
        {
          WalksAgree(geo, lookupArray[..], lineAddrs[..], addr, cs, fringe, cs', fringe', i);
        }
        assert forall i :: 0 <= i < |cs| ==> cs[i] == cs'[..|cs'| - (ways - 1)][i];
      }
    }

    /** The breadth-first walk: it stops at an invalid line or when there are enough
        candidates, and never writes past the buffer. */
    method Walk(addr: nat) returns (candidates: array<Cand>, num: nat, ghost fringe: nat)
      requires Valid()
      ensures fresh(candidates) && candidates.Length == cands + ways
      ensures ways <= num < candidates.Length && WalkDone(addr, candidates[..num], fringe)
    {
      hide ArrayOk, CandsOk, AllExpanded, AllValid;
      candidates := new Cand[cands + ways](i => Cand(0, 0, -1));
      var allValid := Seeds(addr, candidates);
      num := ways;
      var fringeStart := 0;
      while num < cands && allValid
        invariant ways <= num < cands + ways && fringeStart < num
        invariant WalkOk(addr, candidates[..num], fringeStart)
        invariant allValid <==> AllValid(candidates[..num])
        invariant fringeStart > 0 ==> num - (ways - 1) < cands && AllValid(candidates[..num][..num - (ways - 1)])
        decreases cands + ways - num
      {
        ghost var before := candidates[..num];
        num, allValid := Expand(addr, candidates, num, fringeStart);
        fringeStart := fringeStart + 1;
        FringeBound(fringeStart, ways);
        assert candidates[..num][..num - (ways - 1)] == before;
      }
      fringe := fringeStart;
    }

    // ---------------------------------------------------------- replacement

    /** The moves of a replacement are ready: `swapArray` holds a path from the victim's
        position to a position of the new address. */
    ghost predicate Pending(addr: nat, candidate: nat)
      requires Valid()
      reads this, lineAddrs, lookupArray, swapArray
    {
      && 0 < swapArrayLen < swapArray.Length
      && PathOk(geo, lookupArray[..], lineAddrs[..], addr, swapArray[..swapArrayLen])
      && lookupArray[swapArray[0]] == candidate
    }

    /** Write the path back from a candidate into the swap array. */
    method FillSwaps(addr: nat, candidates: array<Cand>, num: nat, minIdx: nat)
      requires Valid() && minIdx < num <= candidates.Length && minIdx < cands
      requires CandsOk(geo, lookupArray[..], lineAddrs[..], addr, candidates[..num])
      requires forall k :: 0 <= k < num ==> -1 <= candidates[k].parent < k
      modifies swapArray, this`swapArrayLen
      ensures 0 < swapArrayLen < swapArray.Length
      ensures swapArray[..swapArrayLen] == Path(candidates[..num], minIdx)
    {
      hide CandsOk, ArrayOk, Path;
      Shape();
      ghost var cs := candidates[..num];
      assert forall k :: 0 <= k < |cs| ==> cs[k] == candidates[k];
      ghost var path := Path(cs, minIdx);
      PathLength(geo, lookupArray[..], lineAddrs[..], addr, cs, minIdx);
      FitsSwapArray(|path|, ways, minIdx, cands);
      var idx: int := minIdx;
      var n := 0;
      while idx >= 0
        invariant -1 <= idx < num && n <= |path|
        invariant swapArray[..n] + Rest(cs, idx) == path
        decreases idx
      {
        PathThenRest(cs, idx);
        ghost var done := swapArray[..n];
        swapArray[n] := candidates[idx].pos;
        n := n + 1;
        assert swapArray[..n] == done + [cs[idx].pos];
        idx := candidates[idx].parent;
      }
      swapArrayLen := n;
    }

    /** The first occurrence of the chosen line among the candidates starts a path along which
        the lines can move, and no position is visited twice. */
    lemma PathFromFirst(addr: nat, cs: seq<Cand>, fringe: nat, minIdx: nat)
      requires Valid() && WalkOk(addr, cs, fringe) && minIdx < |cs| && FirstOccurrence(cs, minIdx)
      requires forall k :: 0 <= k < |cs| ==> -1 <= cs[k].parent < k
      ensures PathOk(geo, lookupArray[..], lineAddrs[..], addr, Path(cs, minIdx))
      ensures Path(cs, minIdx)[0] < lookupArray.Length
      ensures lookupArray[Path(cs, minIdx)[0]] == cs[minIdx].line
    {
      PathIsOk(geo, lookupArray[..], lineAddrs[..], addr, cs, fringe, minIdx);
      assert CandOk(geo, lookupArray[..], lineAddrs[..], addr, cs, minIdx);
    }

    /** The lines the replacement policy chooses from: the candidates of the walk, as many as were
        asked for. */
    function Offered(cs: seq<Cand>): (lines: seq<nat>)
      ensures |lines| == if |cs| > cands then cands else |cs|
      ensures forall i :: 0 <= i < |lines| ==> lines[i] == cs[i].line
    {
      var n := if |cs| > cands then cands else |cs|;
      seq(n, i requires 0 <= i < n => cs[i].line)
    }

    /** Choose a victim and prepare the moves. The replacement policy may return the line id of
        any candidate. */
    method Preinsert(addr: nat, rank: seq<nat> -> nat)
      returns (candidate: nat, wbAddr: nat, ghost cs: seq<Cand>, ghost fringe: nat, ghost minIdx: nat)
      requires Valid()
      requires forall s: seq<nat> :: s != [] ==> rank(s) in s
      modifies swapArray, this`swapArrayLen
      ensures Valid() && Pending(addr, candidate) && WalkDone(addr, cs, fringe)
      ensures candidate == rank(Offered(cs)) < lineAddrs.Length && wbAddr == lineAddrs[candidate]
      ensures minIdx < |cs| && cs[minIdx].line == candidate && FirstOccurrence(cs, minIdx)
      ensures forall k :: 0 <= k < |cs| ==> cs[k].parent < k
      ensures swapArray[..swapArrayLen] == Path(cs, minIdx)
    {
      hide ArrayOk, CandsOk, AllExpanded, PathOk, AllValid, Path;
      var candidates, num;
      candidates, num, fringe := Walk(addr);
      cs := candidates[..num];
      assert forall k :: 0 <= k < |cs| ==> cs[k] == candidates[k];
      Shape();
      ParentsBefore(geo, lookupArray[..], lineAddrs[..], addr, cs);
      var numCandidates := if num > cands then cands else num;
      var lines := seq(numCandidates, i requires 0 <= i < numCandidates reads candidates => candidates[i].line);
      assert lines == Offered(cs);
      var best := rank(lines);
      assert best in lines;
      var idx := FindLine(candidates, numCandidates, best);
      minIdx := idx;
      PathFromFirst(addr, cs, fringe, idx);
      FillSwaps(addr, candidates, num, idx);
      assert swapArray[0] == swapArray[..swapArrayLen][0];
      candidate := best;
      wbAddr := lineAddrs[best];
    }

    /** The first candidate with the line. */
    method FindLine(candidates: array<Cand>, num: nat, line: nat) returns (minIdx: nat)
      requires num <= candidates.Length && exists i :: 0 <= i < num && candidates[i].line == line
      ensures minIdx < num && candidates[minIdx].line == line
      ensures forall i :: 0 <= i < minIdx ==> candidates[i].line != line
    {
      minIdx := 0;
      while candidates[minIdx].line != line
        invariant 0 <= minIdx < num
        invariant forall i :: 0 <= i < minIdx ==> candidates[i].line != line
        decreases num - minIdx
      {
        minIdx := minIdx + 1;
      }
    }

    /** A free line among those offered is taken by a policy that prefers free lines. */
    lemma FreeLineTaken(cs: seq<Cand>, rank: seq<nat> -> nat, i: nat)
      requires forall s: seq<nat> :: (exists l :: l in s && IsFree(l)) ==> IsFree(rank(s))
      requires i < |cs| && i < cands && IsFree(cs[i].line)
      ensures IsFree(rank(Offered(cs)))
    {
      assert Offered(cs)[i] in Offered(cs);
    }

    /** The line holds no address. */
    predicate IsFree(line: nat)
      reads lineAddrs
    {
      line < lineAddrs.Length && lineAddrs[line] == 0
    }

    method MoveLines(candidate: nat)
      requires 0 < swapArrayLen < swapArray.Length && lookupArray != swapArray
      requires forall i :: 0 <= i < swapArrayLen ==> swapArray[i] < lookupArray.Length
      requires forall i, j :: 0 <= i < j < swapArrayLen ==> swapArray[i] != swapArray[j]
      requires lookupArray[swapArray[0]] == candidate
      modifies lookupArray
      ensures Moved(old(lookupArray[..]), lookupArray[..], swapArray[..swapArrayLen])
    {
      ghost var was := lookupArray[..];
      ghost var ps := swapArray[..swapArrayLen];
      for i := 0 to swapArrayLen - 1
        invariant forall k :: 0 <= k < i ==> lookupArray[ps[k]] == was[ps[k + 1]]
        invariant forall k :: i <= k < |ps| ==> lookupArray[ps[k]] == was[ps[k]]
        invariant forall p :: 0 <= p < lookupArray.Length && p !in ps ==> lookupArray[p] == was[p]
      {
        assert ps[i] == swapArray[i] && ps[i + 1] == swapArray[i + 1];
        lookupArray[swapArray[i]] := lookupArray[swapArray[i + 1]];
      }
      assert ps[|ps| - 1] == swapArray[swapArrayLen - 1];
      lookupArray[swapArray[swapArrayLen - 1]] := candidate;
    }

    /** Insert the address with the victim's line id: the new line is found there, and of the
        resident addresses only the victim's is lost. */
    method Postinsert(addr: nat, candidate: nat)
      requires Valid() && Pending(addr, candidate)
      requires addr != 0 && !Resident(addr)
      modifies lineAddrs, lookupArray, this`place
      ensures Valid()
      ensures candidate < lineAddrs.Length && lineAddrs[..] == old(lineAddrs[..])[candidate := addr]
      ensures forall a :: a != 0 ==>
                (Resident(a) <==> a == addr || (old(Resident(a)) && a != old(lineAddrs[candidate])))
    {
      ghost var lookup, addrs := lookupArray[..], lineAddrs[..];
      ghost var ps := swapArray[..swapArrayLen];
      assert ps[0] == swapArray[0];
      MoveLines(candidate);
      MovedOk(geo, lookup, place, addrs, addr, ps, lookupArray[..]);
      lineAddrs[candidate] := addr;
      place := NewPlace(place, ps);
      assert lineAddrs[..] == addrs[candidate := addr];
      forall a | a != 0
        ensures Resident(a) <==> a == addr || (a in addrs && a != addrs[candidate])
      {
        OnlyVictimLost(addrs, candidate, addr, a);
      }
    }
  }

  lemma FringeBound(fringe: nat, ways: nat)
    requires 1 < ways
    ensures fringe <= fringe * (ways - 1)
    ensures (fringe + 1) * (ways - 1) == fringe * (ways - 1) + ways - 1
  {
  }

  lemma Expansions(fringe: nat, fringe': nat, ways: nat)
    requires 1 < ways && fringe < fringe'
    ensures fringe * (ways - 1) <= (fringe' - 1) * (ways - 1)
    ensures fringe' * (ways - 1) == (fringe' - 1) * (ways - 1) + ways - 1
  {
  }

  /** The swap array of `cands / ways + 2` entries is large enough. */
  lemma FitsSwapArray(length: nat, ways: nat, idx: nat, cands: nat)
    requires 0 < ways && 0 < length && (length - 1) * ways <= idx < cands
    ensures length < cands / ways + 2
  {
    var q := cands / ways;
    assert cands < (q + 1) * ways;
    TimesMonotone(q + 1, length - 1, ways);
  }

  lemma OnlyVictimLost(addrs: seq<nat>, victim: nat, addr: nat, a: nat)
    requires victim < |addrs| && a != 0
    requires forall k, l :: 0 <= k < l < |addrs| && addrs[k] != 0 ==> addrs[k] != addrs[l]
    ensures a in addrs[victim := addr] <==> a == addr || (a in addrs && a != addrs[victim])
  {
    var addrs' := addrs[victim := addr];
    if a == addr {
      assert addrs'[victim] == a;
    } else if a in addrs && a != addrs[victim] {
      var k :| 0 <= k < |addrs| && addrs[k] == a;
      assert addrs'[k] == a;
    }
  }

  lemma TimesMonotone(a: nat, b: nat, w: nat)
    ensures a <= b ==> a * w <= b * w
  {
  }
}
