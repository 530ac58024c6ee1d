/**
 The filter in front of an L1: for every set the line used last. Loads and stores that match it
 skip the L1 altogether, without taking a lock. A replace gives up the filter lock while the
 access is under way, so invalidations can come in between.
 */
module FilterCache {
  import opened Mesi

  /** A physical line: the process mask and the virtual line. */
  datatype Addr = Addr(proc: nat, line: nat)

  /** A line of the L1. */
  datatype Line = Line(addr: Addr, state: State)

  /** The all-ones address that no line has. A cleared entry holds 0 instead. */
  const NONE: int := -1

  datatype FilterEntry = FilterEntry(rdAddr: int, wrAddr: int)

  /** A replace under way; `present` says that the L1 has an entry for the line. */
  datatype Access = Idle | Replacing(line: nat, isLoad: bool, present: bool)

  // ------------------------------------------------------------ one set of the L1

  /** Where the address is among the lines of a set, which are in the order they were used,
      latest first; the number of lines if it is not there. */
  function Find(lines: seq<Line>, a: Addr): (k: nat)
    ensures k <= |lines| && (k < |lines| ==> lines[k].addr == a)
    ensures forall i :: 0 <= i < k ==> lines[i].addr != a
  {
    if lines == [] then 0 else if lines[0].addr == a then 0 else 1 + Find(lines[1..], a)
  }

  ghost predicate SetOk(lines: seq<Line>) {
    forall i, j :: 0 <= i < j < |lines| ==> lines[i].addr != lines[j].addr
  }

  /** The line has just been used. */
  function Touch(lines: seq<Line>, k: nat): seq<Line>
    requires k < |lines|
  {
    [lines[k]] + lines[..k] + lines[k + 1..]
  }

  lemma TouchOk(lines: seq<Line>, k: nat)
    requires SetOk(lines) && k < |lines|
    ensures SetOk(Touch(lines, k)) && multiset(Touch(lines, k)) == multiset(lines)
  {
    assert lines == lines[..k] + [lines[k]] + lines[k + 1..];
    forall i, j | 0 <= i < j < |lines|
      ensures Touch(lines, k)[i].addr != Touch(lines, k)[j].addr
    {
      TouchAt(lines, k, i);
      TouchAt(lines, k, j);
    }
  }

  lemma TouchAt(lines: seq<Line>, k: nat, i: nat)
    requires k < |lines| && i < |lines|
    ensures |Touch(lines, k)| == |lines|
    ensures Touch(lines, k)[i] == if i == 0 then lines[k] else if i <= k then lines[i - 1] else lines[i]
  {
  }

  /** An access that hits in the L1, all the way through: the line becomes the latest, and the
      bottom controller answers from its state. */
  function HitAccess(lines: seq<Line>, a: Addr, typ: AccessType): Checked<seq<Line>> {
    var k := Find(lines, a);
    if k == |lines| then Panic
    else
      var touched := Touch(lines, k);
      match BottomAccess(typ, lines[k].state)
      case Fine(Hit(state)) => Fine(touched[0 := Line(a, state)])
      case _ => Panic
  }

  // ------------------------------------------------------------ the filter's promise

  /** What an entry promises of its set, for the process on the core. A cleared entry, and one
      without an address, promises nothing. */
  predicate Promise(e: FilterEntry, lines: seq<Line>, proc: nat) {
    && (e.rdAddr > 0 ==> lines != [] && lines[0].addr == Addr(proc, e.rdAddr) && lines[0].state != I)
    && (e.wrAddr > 0 ==> e.wrAddr == e.rdAddr && lines != [] && lines[0].state == M)
  }

  /** A filter hit is what the full access would have been: the line is there with enough
      permission, it is the latest of its set, and the access would change nothing. */
  lemma HitChangesNothing(e: FilterEntry, lines: seq<Line>, proc: nat, line: nat, isLoad: bool)
    requires Promise(e, lines, proc) && line > 0 && line == if isLoad then e.rdAddr else e.wrAddr
    ensures HitAccess(lines, Addr(proc, line), if isLoad then GETS else GETX) == Fine(lines)
  {
    assert Find(lines, Addr(proc, line)) == 0;
    assert Touch(lines, 0) == lines == lines[0 := lines[0]];
    assert lines[0] == Line(Addr(proc, line), lines[0].state);
  }

  class FilterCache {
    const ways: nat
    var proc: nat
    var filter: seq<FilterEntry>
    var sets: seq<seq<Line>>
    var access: Access

    /** The sets hold their own lines; every entry keeps its promise, except that of the set a
        replace is working on. */
    ghost predicate Valid()
      reads this
    {
      && ways > 0 && |filter| == |sets| > 0
      && (forall i :: 0 <= i < |sets| ==> SetOk(sets[i]) && |sets[i]| <= ways)
      && (forall i, k :: 0 <= i < |sets| && 0 <= k < |sets[i]| ==> sets[i][k].addr.line % |sets| == i)
      && (access.Replacing? ==>
            var lines := sets[access.line % |sets|];
            if access.present then lines != [] && lines[0].addr == Addr(proc, access.line)
            else Find(lines, Addr(proc, access.line)) == |lines|)
      && (forall i :: 0 <= i < |sets| && Quiet(i) ==> Promise(filter[i], sets[i], proc))
    }

    predicate Quiet(i: int)
      requires |sets| > 0
      reads this
    {
      access.Replacing? ==> access.line % |sets| != i
    }

    constructor (numSets: nat, ways: nat)
      requires numSets > 0 && ways > 0
      ensures Valid() && access.Idle? && proc == 0 && this.ways == ways
      ensures filter == seq(numSets, _ => FilterEntry(0, 0)) && sets == seq(numSets, _ => [])
    {
      this.ways := ways;
      proc := 0;
      filter := seq(numSets, _ => FilterEntry(0, 0));
      sets := seq(numSets, _ => []);
      access := Idle;
    }

    /** A load or store looks at the filter first. A hit on a line other than 0 is what the full
        access would have been. */
    method Lookup(line: nat, isLoad: bool) returns (hit: bool)
      requires Valid() && access.Idle?
      ensures var e := filter[line % |sets|];
              hit <==> line == if isLoad then e.rdAddr else e.wrAddr
      ensures hit && line > 0 ==>
                HitAccess(sets[line % |sets|], Addr(proc, line), if isLoad then GETS else GETX)
                == Fine(sets[line % |sets|])
    {
      var idx := line % |sets|;
      hit := line == if isLoad then filter[idx].rdAddr else filter[idx].wrAddr;
      if hit && line > 0 {
        HitChangesNothing(filter[idx], sets[idx], proc, line, isLoad);
      }
    }

    /** A miss in the filter: the lock is given up and the L1 looks the line up, which makes it
        the latest of its set if it is there. */
    method StartReplace(line: nat, isLoad: bool)
      requires Valid() && access.Idle?
      modifies this`access, this`sets
      ensures Valid() && access.Replacing? && access.line == line && access.isLoad == isLoad && |sets| == |old(sets)|
      ensures var idx := line % |sets|;
              var s := old(sets)[idx];
              var k := Find(s, Addr(proc, line));
              && access.present == (k < |s|)
              && sets == if k < |s| then old(sets)[idx := [s[k]] + s[..k] + s[k + 1..]] else old(sets)
    {
      hide SetOk, Promise;
      var idx := line % |sets|;
      var k := Find(sets[idx], Addr(proc, line));
      access := Replacing(line, isLoad, k < |sets[idx]|);
      if k < |sets[idx]| {
        ghost var lines := sets[idx];
        TouchOk(lines, k);
        TouchAt(lines, k, 0);
        forall j: nat | j < |lines|
          ensures Touch(lines, k)[j].addr.line % |sets| == idx
        {
          TouchAt(lines, k, j);
        }
        sets := sets[idx := Touch(sets[idx], k)];
      }
    }

    /** The line is not there: the victim goes and the line takes its place, not valid yet. */
    method Allocate(victim: nat)
      requires Valid() && access.Replacing? && !access.present
      requires victim < |sets[access.line % |sets|]| || |sets[access.line % |sets|]| < ways
      modifies this`sets, this`access
      ensures Valid() && access == old(access).(present := true) && |sets| == |old(sets)|
      ensures var idx := access.line % |sets|;
              var s := old(sets)[idx];
              sets == old(sets)[idx := [Line(Addr(proc, access.line), I)]
                                       + if victim < |s| then s[..victim] + s[victim + 1..] else s]
    {
      var idx := access.line % |sets|;
      var s := sets[idx];
      var rest := if victim < |s| then s[..victim] + s[victim + 1..] else s;
      assert forall i :: 0 <= i < |rest| ==> rest[i] == if i < victim then s[i] else s[i + 1];
      sets := sets[idx := [Line(Addr(proc, access.line), I)] + rest];
      access := access.(present := true);
    }

    /** The access completes: the controllers grant a state, and the entry is set before the lock
        is released. */
    method FinishReplace(granted: State)
      requires Valid() && access.Replacing? && access.present
      requires if access.isLoad then granted != I else granted == M
      modifies this`sets, this`filter, this`access
      ensures Valid() && access.Idle?
      ensures var idx := old(access.line) % |old(sets)|;
              && filter == old(filter)[idx := FilterEntry(old(access.line),
                                                          if old(access.isLoad) then NONE else old(access.line))]
              && sets == old(sets)[idx := old(sets)[idx][0 := Line(Addr(proc, old(access.line)), granted)]]
    {
      var idx := access.line % |sets|;
      sets := sets[idx := sets[idx][0 := Line(Addr(proc, access.line), granted)]];
      filter := filter[idx := FilterEntry(access.line, if access.isLoad then NONE else access.line)];
      access := Idle;
    }

    /** An invalidation, sent on behalf of process `sender`. The filter only recognises its line
        under the sender's own mask. The promises are broken exactly if the sender is another
        process and the line is in an entry that promises more than the line now gives. */
    method Invalidate(a: Addr, typ: InvType, sender: nat)
      requires Valid()
      requires var s := sets[a.line % |sets|];
               Find(s, a) < |s| && BottomInval(typ, s[Find(s, a)].state).Fine?
      modifies this`sets, this`filter
      ensures filter == if sender == a.proc && old(filter)[a.line % |old(sets)|].rdAddr == a.line
                        then old(filter)[a.line % |old(sets)| := FilterEntry(NONE, NONE)] else old(filter)
      ensures Valid() <==> !old(
                var idx := a.line % |sets|;
                && a.line > 0 && sender != a.proc && a.proc == proc
                && Quiet(idx) && filter[idx].rdAddr == a.line && (typ == INV || filter[idx].wrAddr > 0))
      ensures var idx := a.line % |old(sets)|;
              var k := Find(old(sets)[idx], a);
              sets == old(sets)[idx := old(sets)[idx][k := Line(a, if typ == INV then I else S)]]
    {
      var idx := a.line % |sets|;
      if filter[idx].rdAddr == a.line && sender == a.proc {
        filter := filter[idx := FilterEntry(NONE, NONE)];
      }
      var k := Find(sets[idx], a);
      sets := sets[idx := sets[idx][k := Line(a, if typ == INV then I else S)]];
    }

    /** Another thread, perhaps of another process, runs on the core: the filter is cleared. */
    method ContextSwitch(newProc: nat)
      requires Valid() && access.Idle?
      modifies this`filter, this`proc
      ensures Valid() && proc == newProc && filter == seq(|sets|, _ => FilterEntry(0, 0))
    {
      ghost var n := |sets|;
      for i := 0 to |filter|
        invariant |filter| == n && forall j :: 0 <= j < i ==> filter[j] == FilterEntry(0, 0)
      {
        filter := filter[i := FilterEntry(0, 0)];
      }
      proc := newProc;
    }
  }

  /** Process 0 loads line 1, and another process has it invalidated: the entry still matches
      the line, which the L1 no longer has. */
  method ForeignInvalidation(sender: nat) returns (f: FilterCache)
    requires sender != 0
    ensures f.access.Idle? && f.proc == 0 && f.filter == [FilterEntry(1, NONE)]
    ensures f.sets == [[Line(Addr(0, 1), I)]] && !f.Valid()
  {
    f := new FilterCache(1, 1);
    assert f.sets == [[]] && f.filter == [FilterEntry(0, 0)];
    f.StartReplace(1, true);
    assert |f.sets| == 1 && 1 % |f.sets| == 0 && f.sets[0] == [] && !f.access.present;
    f.Allocate(0);
    assert f.sets[0] == [Line(Addr(0, 1), I)] + [] == [Line(Addr(0, 1), I)];
    f.FinishReplace(E);
    assert f.sets[0] == [Line(Addr(0, 1), E)] && f.filter == [FilterEntry(1, NONE)];
    assert Find(f.sets[0], Addr(0, 1)) == 0;
    f.Invalidate(Addr(0, 1), INV, sender);
    assert f.sets[0] == [Line(Addr(0, 1), I)];
  }

  /** A cleared entry matches line 0, which the L1 need not have. */
  method LineZeroMatches() returns (f: FilterCache, hit: bool)
    ensures hit && f.sets == [[]]
  {
    f := new FilterCache(1, 1);
    hit := f.Lookup(0, true);
    assert f.sets == [[]];
  }
}
