/**
 The sequential vocabulary of the MESI controllers: states, requests, directory
 entries, the race check, and the pieces of the bottom and top controllers that run
 without giving up a lock. Every `assert` and `panic` of the controllers appears as
 the result `Panic`; nothing is assumed about when it can be reached.
 */
module Mesi {

  /** Invalid, shared and clean, exclusive and clean, exclusive and dirty. */
  datatype State = I | S | E | M

  datatype AccessType = GETS | GETX | PUTS | PUTX

  datatype InvType = INV | INVX

  /** A value, or the failure of a controller assertion. */
  datatype Checked<+T> = Panic | Fine(value: T) {
    predicate IsFailure() {
      Panic?
    }

    function PropagateFailure<U>(): Checked<U>
      requires Panic?
    {
      Panic
    }

    function Extract(): T
      requires Fine?
    {
      value
    }
  }

  function Assert(condition: bool): Checked<()> {
    if condition then Fine(()) else Panic
  }

  predicate Exclusive(s: State) {
    s == E || s == M
  }

  predicate IsGet(t: AccessType) {
    t == GETS || t == GETX
  }

  /** A directory entry; `numSharers` is a counter kept beside the sharer bits. */
  datatype Entry = Entry(numSharers: int, sharers: set<nat>, exclusive: bool) {
    predicate IsEmpty() {
      numSharers == 0
    }

    predicate IsExclusive() {
      numSharers == 1 && exclusive
    }

    function Add(c: nat, excl: bool): Entry {
      Entry(numSharers + 1, sharers + {c}, excl)
    }

    function Remove(c: nat): Entry {
      Entry(numSharers - 1, sharers - {c}, exclusive)
    }
  }

  datatype RaceResult = RaceResult(typ: AccessType, skip: bool)

  /** What the parent decides, once it holds its locks, about a request whose child may
      have been invalidated while the request was waiting. */
  function CheckForMESIRace(typ: AccessType, state: State, initial: State): Checked<RaceResult> {
    if state == initial then
      Fine(RaceResult(typ, false))
    else if typ == PUTS || typ == PUTX then
      if state == I then
        Fine(RaceResult(typ, true))
      else
        var _ :- Assert(state == S);
        Fine(RaceResult(PUTS, false))
    else if typ == GETX then
      var _ :- Assert(initial == S);
      var _ :- Assert(state == I);
      Fine(RaceResult(GETX, false))
    else
      Panic
  }

  /** The bottom controller either has the permissions, or must ask the parent. */
  datatype BottomResult = Hit(state: State) | Miss

  function BottomAccess(typ: AccessType, state: State): Checked<BottomResult> {
    match typ
    case PUTS =>
      var _ :- Assert(state != I);
      Fine(Hit(state))
    case PUTX =>
      var _ :- Assert(Exclusive(state));
      Fine(Hit(M))
    case GETS =>
      Fine(if state == I then Miss else Hit(state))
    case GETX =>
      Fine(if state == I || state == S then Miss else Hit(M))
  }

  /** The assertions on the state a granted request comes back with. */
  predicate Granted(typ: AccessType, state: State) {
    match typ
    case GETS => state == S || state == E
    case GETX => state == M
    case _ => state == I
  }

  /** What the memory at the root answers. */
  function MemoryAccess(typ: AccessType, noExcl: bool): (r: State)
    ensures Granted(typ, r) && (typ == GETS ==> (Exclusive(r) <==> !noExcl))
  {
    match typ
    case GETS => if noExcl then S else E
    case GETX => M
    case _ => I
  }

  datatype InvalResult = InvalResult(state: State, writeback: bool)

  function BottomInval(typ: InvType, state: State): Checked<InvalResult> {
    var _ :- Assert(state != I);
    match typ
    case INVX =>
      var _ :- Assert(Exclusive(state));
      Fine(InvalResult(S, state == M))
    case INV =>
      Fine(InvalResult(I, state == M))
  }

  /** A writeback pulled up from a child makes an exclusive line dirty. */
  function AbsorbWriteback(writeback: bool, state: State): Checked<State> {
    if writeback then
      var _ :- Assert(Exclusive(state));
      Fine(M)
    else
      Fine(state)
  }

  /** Progress of one `sendInvalidates` call: the sharer bits not yet visited, the child
      being invalidated now, the count of invalidations sent, and the writeback flag the
      children pull up. `skip` records the early return for a downgrade of a line that no
      child holds exclusively. */
  datatype Loop = Loop(typ: InvType, skip: bool, todo: set<nat>, current: int, sent: int, writeback: bool) {
    predicate Finished() {
      todo == {} && current < 0
    }
  }

  const NOBODY: int := -1

  function StartLoop(typ: InvType, e: Entry): Loop {
    var skip := typ == INVX && !e.IsExclusive();
    Loop(typ, skip, if skip || e.IsEmpty() then {} else e.sharers, NOBODY, 0, false)
  }

  /** The bookkeeping after the last child has answered. */
  function EndLoop(l: Loop, e: Entry): Checked<Entry> {
    if l.skip || e.IsEmpty() then
      Fine(e)
    else
      var _ :- Assert(l.sent == e.numSharers);
      match l.typ
      case INV =>
        Fine(e.(numSharers := 0))
      case INVX =>
        var _ :- Assert(e.exclusive);
        var _ :- Assert(e.numSharers == 1);
        Fine(e.(exclusive := false))
  }
}
