/**
 The directory entry of a line as the top controller updates it in place: sharer bits, a
 counter beside them and the exclusive flag. The children's copies of the line are `kids`;
 an invalidation of a child does to its copy what the bottom controller does.
 */
module TopController {
  import opened Mesi
  import Sequences

  function CountSharers(sharers: seq<bool>): nat {
    Sequences.Count(sharers, (b: bool) => b)
  }

  lemma CountSet(sharers: seq<bool>, c: nat, b: bool)
    requires c < |sharers|
    ensures CountSharers(sharers[c := b])
            == CountSharers(sharers) - (if sharers[c] then 1 else 0) + (if b then 1 else 0)
  {
    Sequences.CountUpdate(sharers, c, b, (b: bool) => b);
  }

  lemma CountNone(sharers: seq<bool>)
    ensures CountSharers(sharers) == 0 <==> forall c :: 0 <= c < |sharers| ==> !sharers[c]
  {
    Sequences.CountZero(sharers, (b: bool) => b);
  }

  /** The copy after an invalidation of the given type. */
  function Invalidated(typ: InvType): State {
    if typ == INV then I else S
  }

  /** A sharer bit is set exactly if the child has a copy, the counter counts the bits, and a
      line with sharers is marked exclusive exactly if it has one sharer, which may write. */
  ghost predicate Exact(sharers: seq<bool>, numSharers: int, exclusive: bool, kids: seq<State>) {
    && |sharers| == |kids|
    && (forall c :: 0 <= c < |kids| ==> (sharers[c] <==> kids[c] != I))
    && numSharers == CountSharers(sharers)
    && (forall c :: 0 <= c < |kids| && Exclusive(kids[c]) ==> exclusive && numSharers == 1)
    && (forall c :: 0 <= c < |kids| && kids[c] == S ==> !exclusive)
  }

  predicate NoCopies(kids: seq<State>) {
    forall c :: 0 <= c < |kids| ==> kids[c] == I
  }

  /** The copy of the requesting child, and the copy of another, after a request. */
  function OwnCopy(typ: AccessType, mayBeExclusive: bool): State {
    match typ
    case GETS => if mayBeExclusive then E else S
    case GETX => M
    case _ => I
  }

  function OtherCopy(typ: AccessType, copy: State): State {
    match typ
    case GETS => if Exclusive(copy) then S else copy
    case GETX => I
    case _ => copy
  }

  /** The copies after a request of `child`. */
  function Answered(kids: seq<State>, typ: AccessType, child: nat, haveExclusive: bool, noExcl: bool): seq<State> {
    var own := OwnCopy(typ, NoCopies(kids) && haveExclusive && !noExcl);
    seq(|kids|, c requires 0 <= c < |kids| => if c == child then own else OtherCopy(typ, kids[c]))
  }

  /** An exact entry is determined by the copies, but for the flag of a line without any, which is
      never looked at. */
  lemma ExactIsUnique(sharers: seq<bool>, num: int, exclusive: bool, sharers': seq<bool>, num': int, exclusive': bool,
                      kids: seq<State>)
    requires Exact(sharers, num, exclusive, kids) && Exact(sharers', num', exclusive', kids)
    ensures sharers == sharers' && num == num' && (num > 0 ==> exclusive == exclusive')
  {
    assert sharers == sharers';
    CountNone(sharers);
  }

  class TopEntry {
    var numSharers: int
    var sharers: seq<bool>
    var exclusive: bool
    var kids: seq<State>

    ghost predicate Valid()
      reads this
    {
      Exact(sharers, numSharers, exclusive, kids)
    }

    predicate IsEmpty()
      reads this
    {
      numSharers == 0
    }

    predicate IsExclusive()
      reads this
    {
      numSharers == 1 && exclusive
    }

    constructor (numChildren: nat)
      ensures Valid() && |kids| == numChildren && numSharers == 0 && !exclusive
    {
      numSharers, exclusive := 0, false;
      sharers, kids := seq(numChildren, _ => false), seq(numChildren, _ => I);
      new;
      CountNone(sharers);
    }

    /** The loop over the children. Every sharer is invalidated or downgraded, and the count of
        invalidations sent is the number of sharers. */
    method InvalidateSharers(typ: InvType) returns (ok: bool, sentInvs: nat, writeback: bool)
      requires Valid() && !IsEmpty() && (typ == INVX ==> IsExclusive())
      modifies this`sharers, this`kids
      ensures ok && sentInvs == numSharers && |kids| == |sharers| == |old(kids)|
      ensures forall c :: 0 <= c < |kids| ==>
                kids[c] == if old(sharers)[c] then Invalidated(typ) else old(kids)[c]
      ensures sharers == if typ == INV then seq(|old(kids)|, _ => false) else old(sharers)
      ensures writeback <==> exists c :: 0 <= c < |old(kids)| && old(kids)[c] == M
    {
      ghost var before, was, num := sharers, kids, numSharers;
      sentInvs, writeback := 0, false;
      var c := 0;
      while c < |kids|
        invariant 0 <= c <= |kids| == |sharers| == |was|
        invariant sentInvs == CountSharers(before[..c])
        invariant writeback <==> exists d :: 0 <= d < c && was[d] == M
        invariant forall d :: 0 <= d < |kids| ==> kids[d] == if d < c && before[d] then Invalidated(typ) else was[d]
        invariant forall d :: 0 <= d < |sharers| ==> sharers[d] == (before[d] && !(d < c && typ == INV))
      {
        assert before[..c + 1][..c] == before[..c];
        if sharers[c] {
          var r := BottomInval(typ, kids[c]);
          if r.Panic? {
            return false, sentInvs, writeback;
          }
          writeback := writeback || r.value.writeback;
          kids := kids[c := r.value.state];
          if typ == INV {
            sharers := sharers[c := false];
          }
          sentInvs := sentInvs + 1;
        }
        c := c + 1;
      }
      assert before[..|before|] == before;
      ok := true;
    }

    /** `ok` is false if an assertion of the source does not hold. */
    method SendInvalidates(typ: InvType) returns (ok: bool, writeback: bool)
      requires Valid()
      modifies this
      ensures ok && Valid() && |kids| == |old(kids)|
      ensures typ == INV ==> numSharers == 0 && kids == seq(|kids|, _ => I)
      ensures typ == INVX ==>
                && !IsExclusive() && numSharers == old(numSharers)
                && forall c :: 0 <= c < |kids| ==> kids[c] == if Exclusive(old(kids)[c]) then S else old(kids)[c]
      ensures writeback <==> exists c :: 0 <= c < |old(kids)| && old(kids)[c] == M
    {
      writeback := false;
      ok := true;
      CountNone(sharers);
      if (typ == INVX && !IsExclusive()) || IsEmpty() {
        return;
      }
      var sentInvs;
      ok, sentInvs, writeback := InvalidateSharers(typ);
      if sentInvs != numSharers {
        return false, writeback;
      }
      if typ == INV {
        numSharers := 0;
        CountNone(sharers);
      } else {
        if !exclusive || numSharers != 1 {
          return false, writeback;
        }
        exclusive := false;
      }
    }

    /** The child writes its copy back or drops it. */
    method PutBack(typ: AccessType, child: nat) returns (ok: bool)
      requires Valid() && child < |kids|
      requires if typ == PUTX then kids[child] == M else typ == PUTS && kids[child] != I
      modifies this
      ensures ok && Valid() && kids == old(kids)[child := I]
    {
      if typ == PUTX && !IsExclusive() {
        return false;
      }
      if !sharers[child] {
        return false;
      }
      CountSet(sharers, child, false);
      CountNone(sharers[child := false]);
      ghost var left := sharers[child := false];
      assert numSharers == 1 ==> forall c :: 0 <= c < |left| ==> !left[c];
      sharers := sharers[child := false];
      numSharers := numSharers - 1;
      kids := kids[child := I];
      ok := true;
    }

    /** The child reads: it gets the line exclusively if nobody else has it and nothing speaks
        against it, otherwise shared, after a downgrade of whoever could write. */
    method GrantShared(child: nat, haveExclusive: bool, noExcl: bool) returns (ok: bool, writeback: bool)
      requires Valid() && child < |kids| && kids[child] == I
      modifies this
      ensures ok && Valid() && |kids| == |old(kids)|
      ensures kids[child] == if old(IsEmpty()) && haveExclusive && !noExcl then E else S
      ensures forall c :: 0 <= c < |kids| && c != child ==>
                kids[c] == if Exclusive(old(kids)[c]) then S else old(kids)[c]
      ensures writeback <==> exists c :: 0 <= c < |old(kids)| && old(kids)[c] == M
    {
      ok, writeback := true, false;
      CountNone(sharers);
      if IsEmpty() && haveExclusive && !noExcl {
        CountSet(sharers, child, true);
        exclusive := true;
        sharers := sharers[child := true];
        numSharers := 1;
        kids := kids[child := E];
      } else {
        if sharers[child] {
          return false, false;
        }
        if IsExclusive() {
          ok, writeback := SendInvalidates(INVX);
        }
        if IsExclusive() {
          return false, writeback;
        }
        CountSet(sharers, child, true);
        sharers := sharers[child := true];
        numSharers := numSharers + 1;
        exclusive := false;
        kids := kids[child := S];
      }
    }

    /** The child writes: all other copies go first. */
    method GrantExclusive(child: nat, haveExclusive: bool) returns (ok: bool, writeback: bool)
      requires Valid() && child < |kids| && !Exclusive(kids[child])
      modifies this
      ensures ok <==> haveExclusive
      ensures ok ==>
                && Valid() && |kids| == |old(kids)| && kids[child] == M
                && (forall c :: 0 <= c < |kids| && c != child ==> kids[c] == I)
                && (writeback <==> exists c :: 0 <= c < |old(kids)| && old(kids)[c] == M)
    {
      ok, writeback := true, false;
      if !haveExclusive {
        return false, false;
      }
      if sharers[child] {
        if IsExclusive() {
          return false, false;
        }
        CountSet(sharers, child, false);
        sharers := sharers[child := false];
        numSharers := numSharers - 1;
        kids := kids[child := I];
      }
      ok, writeback := SendInvalidates(INV);
      CountNone(sharers);
      CountSet(sharers, child, true);
      sharers := sharers[child := true];
      numSharers := numSharers + 1;
      exclusive := true;
      if numSharers != 1 {
        return false, writeback;
      }
      kids := kids[child := M];
    }

    /** A child's request, after the race check. With the permissions the bottom controller has
        made sure of, no assertion fails and the entry stays exact. */
    method ProcessAccess(typ: AccessType, child: nat, haveExclusive: bool, noExcl: bool)
      returns (ok: bool, writeback: bool)
      requires Valid() && child < |kids|
      requires match typ
               case GETS => kids[child] == I
               case GETX => (kids[child] == I || kids[child] == S) && haveExclusive
               case PUTS => kids[child] == S || kids[child] == E
               case PUTX => kids[child] == M
      modifies this
      ensures ok && Valid() && kids == Answered(old(kids), typ, child, haveExclusive, noExcl)
      ensures writeback <==> IsGet(typ) && exists c :: 0 <= c < |old(kids)| && old(kids)[c] == M
    {
      CountNone(sharers);
      writeback := false;
      if typ == GETS {
        ok, writeback := GrantShared(child, haveExclusive, noExcl);
      } else if typ == GETX {
        ok, writeback := GrantExclusive(child, haveExclusive);
      } else {
        ok := PutBack(typ, child);
      }
    }
  }
}
