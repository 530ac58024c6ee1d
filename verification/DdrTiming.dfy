/**
 The timing of the DDR controller. Per-bank and bus fields carry the constraints from one
 request to the next; the log records every command the fields stand for, and is what the
 timing rules are about. All times are memory cycles.
 */
module DdrTiming {
  import ActWindow

  datatype Tech = Tech(
    tBL: nat,   // burst length
    tCL: nat,   // column command to data
    tRCD: nat,  // activation to column command
    tRTP: nat,  // read command to precharge
    tRP: nat,   // precharge to activation
    tRRD: nat,  // activation to activation
    tRAS: nat,  // activation to precharge
    tFAW: nat,  // window of four activations of a rank
    tWTR: nat,  // end of write burst to read command
    tWR: nat,   // end of write burst to precharge
    tRFC: nat   // refresh to activation
  )

  /** What initialisation and refresh assert of the parameters. */
  predicate TechOk(t: Tech) {
    t.tBL > 0 && t.tRFC >= t.tRP
  }

  datatype Bank = Bank(open: bool, openRow: nat, minPre: nat, lastAct: nat, lastCmd: nat, curRowHits: nat)

  datatype Request = Request(addr: nat, id: nat, bank: nat, row: nat, write: bool, rowHitSeq: nat, arrival: nat)

  datatype Command =
    | Pre(bank: nat, cycle: nat)
    | Act(bank: nat, row: nat, cycle: nat)
    | Col(bank: nat, row: nat, write: bool, cycle: nat)
    | Refresh(done: nat)

  /** `windows[k]` is the activation window of rank `k`, oldest entry first. */
  datatype Mem = Mem(banks: seq<Bank>, windows: seq<seq<nat>>, minResp: nat, lastWasWrite: bool, log: seq<Command>)

  function Max(a: int, b: int): int {
    if a >= b then a else b
  }

  // ------------------------------------------------------------ one request

  predicate RowHit(bank: Bank, r: Request) {
    bank.open && bank.openRow == r.row
  }

  function PreCycle(bank: Bank, r: Request): nat {
    if bank.open then Max(r.arrival, bank.minPre) else bank.minPre
  }

  function ActCycle(t: Tech, bank: Bank, window: seq<nat>, r: Request): nat
    requires window != []
  {
    Max(Max(r.arrival, Max(PreCycle(bank, r) + t.tRP, bank.lastAct + t.tRRD)), window[0] + t.tFAW)
  }

  /** The earliest cycle the column command of a request could go, bus aside. */
  function FindMinCmdCycle(t: Tech, bank: Bank, window: seq<nat>, r: Request): nat
    requires window != []
  {
    if RowHit(bank, r) then Max(r.arrival, bank.lastCmd + 1)
    else ActCycle(t, bank, window, r) + t.tRCD
  }

  function CmdCycle(t: Tech, m: Mem, bank: Bank, window: seq<nat>, r: Request, cur: nat): nat
    requires window != []
  {
    var c0 := Max(cur, m.minResp - t.tCL);
    var c1 := if m.lastWasWrite && !r.write then Max(c0, m.minResp + t.tWTR) else c0;
    var c2 := if RowHit(bank, r) then c1 else Max(c1, ActCycle(t, bank, window, r) + t.tRCD);
    Max(c2, m.minResp - t.tCL)
  }

  /** From a column command to the earliest precharge of its bank. */
  function Recovery(t: Tech, write: bool): nat {
    if write then t.tCL + t.tBL + t.tWR else t.tRTP
  }

  /** The bank with the row of the request open. */
  function Activated(t: Tech, bank: Bank, window: seq<nat>, r: Request): Bank
    requires window != []
  {
    if RowHit(bank, r) then bank
    else bank.(open := true, openRow := r.row, lastAct := ActCycle(t, bank, window, r),
               minPre := if bank.open then PreCycle(bank, r) + t.tRAS else bank.minPre)
  }

  /** The bank after the column command; its row stays open if `keepOpen`. */
  function Issued(t: Tech, bank: Bank, r: Request, cmd: nat, keepOpen: bool): Bank {
    bank.(open := keepOpen,
          minPre := Max(bank.minPre, Max(bank.lastAct + t.tRAS, cmd + Recovery(t, r.write))),
          lastCmd := cmd,
          curRowHits := r.rowHitSeq)
  }

  function ServeBank(t: Tech, bank: Bank, window: seq<nat>, r: Request, cmd: nat, keepOpen: bool): Bank
    requires window != []
  {
    Issued(t, Activated(t, bank, window, r), r, cmd, keepOpen)
  }

  // ------------------------------------------------------------ the timing rules

  /** What command `e` demands of every later command `f`. */
  predicate PairOk(t: Tech, e: Command, f: Command) {
    match e
    case Pre(b, c) =>
      && (f.Act? && f.bank == b ==> f.cycle >= c + t.tRP)
      && (f.Pre? && f.bank == b ==> f.cycle >= c + t.tRP + t.tRAS)
      && (f.Refresh? ==> f.done >= c + t.tRP + t.tRAS + t.tRFC)
    case Act(b, _, c) =>
      && (f.Pre? && f.bank == b ==> f.cycle >= c + t.tRAS)
      && (f.Act? && f.bank == b ==> f.cycle >= c + t.tRAS + t.tRP && f.cycle >= c + t.tRRD)
      && (f.Refresh? ==> f.done >= c + t.tRAS + t.tRFC)
    case Col(b, _, true, c) =>
      && (f.Col? ==> f.cycle >= c + t.tBL)
      && (f.Col? && !f.write ==> f.cycle >= c + t.tCL + t.tBL + t.tWTR)
      && (f.Pre? && f.bank == b ==> f.cycle >= c + t.tCL + t.tBL + t.tWR)
      && (f.Act? && f.bank == b ==> f.cycle >= c + t.tCL + t.tBL + t.tWR + t.tRP)
      && (f.Refresh? ==> f.done >= c + t.tCL + t.tBL + t.tWR + t.tRFC)
    case Col(b, _, false, c) =>
      && (f.Col? ==> f.cycle >= c + t.tBL)
      && (f.Pre? && f.bank == b ==> f.cycle >= c + t.tRTP)
      && (f.Act? && f.bank == b ==> f.cycle >= c + t.tRTP + t.tRP)
      && (f.Refresh? ==> f.done >= c + t.tRTP + t.tRFC)
    case Refresh(d) =>
      && (f.Pre? ==> f.cycle + t.tRP >= d)
      && (f.Act? ==> f.cycle >= d)
      && (f.Refresh? ==> f.done >= d)
  }

  ghost predicate PairsOk(t: Tech, log: seq<Command>) {
    forall i, j :: 0 <= i < j < |log| ==> PairOk(t, log[i], log[j])
  }

  predicate Closes(e: Command, b: nat) {
    e.Refresh? || ((e.Pre? || e.Act?) && e.bank == b)
  }

  /** The `i`-th command opened `row` of bank `b`, and before the `n`-th nothing closed it. */
  ghost predicate OpenedBy(log: seq<Command>, i: int, n: int, b: nat, row: nat) {
    && 0 <= i < n <= |log|
    && log[i].Act? && log[i].bank == b && log[i].row == row
    && forall k :: i < k < n ==> !Closes(log[k], b)
  }

  ghost predicate OpenSince(t: Tech, log: seq<Command>, n: int, b: nat, row: nat, cycle: int) {
    exists i :: OpenedBy(log, i, n, b, row) && log[i].cycle + t.tRCD <= cycle
  }

  /** A column command goes to a row that is open, tRCD after its activation. */
  ghost predicate RowOk(t: Tech, log: seq<Command>, j: nat)
    requires j < |log|
  {
    log[j].Col? ==> OpenSince(t, log, j, log[j].bank, log[j].row, log[j].cycle)
  }

  ghost predicate RowsOk(t: Tech, log: seq<Command>) {
    forall j: nat :: j < |log| ==> RowOk(t, log, j)
  }

  ghost function ActsOf(ranks: seq<nat>, log: seq<Command>, rank: nat): map<nat, nat> {
    map i: nat | i < |log| && log[i].Act? && log[i].bank < |ranks| && ranks[log[i].bank] == rank :: log[i].cycle
  }

  // ------------------------------------------------------------ the fields carry the rules

  predicate BankOk(t: Tech, bank: Bank, minResp: nat) {
    bank.lastCmd + t.tCL + t.tBL <= minResp
  }

  /** What the fields remember of a command. */
  ghost predicate EntryOk(t: Tech, m: Mem, e: Command) {
    match e
    case Pre(b, c) =>
      b < |m.banks| && c + t.tRP <= m.banks[b].lastAct && c + t.tRP + t.tRAS <= m.banks[b].minPre
    case Act(b, _, c) => b < |m.banks| && c <= m.banks[b].lastAct && c + t.tRAS <= m.banks[b].minPre
    case Col(b, _, w, c) =>
      && b < |m.banks|
      && c + t.tCL + t.tBL <= m.minResp
      && (w && !m.lastWasWrite ==> c + t.tCL + t.tBL + t.tWTR + t.tCL <= m.minResp)
      && c + Recovery(t, w) <= m.banks[b].minPre
    case Refresh(d) => forall b :: 0 <= b < |m.banks| ==> d <= m.banks[b].minPre + t.tRP
  }

  predicate Shape(t: Tech, ranks: seq<nat>, m: Mem) {
    && TechOk(t)
    && m.banks != []
    && |m.banks| == |ranks|
    && m.minResp > t.tCL + t.tBL
    && (forall b :: 0 <= b < |m.banks| ==> ranks[b] < |m.windows| && BankOk(t, m.banks[b], m.minResp))
    && (forall k :: 0 <= k < |m.windows| ==> |m.windows[k]| == 4)
  }

  ghost predicate EntriesOk(t: Tech, m: Mem) {
    forall i :: 0 <= i < |m.log| ==> EntryOk(t, m, m.log[i])
  }

  ghost predicate OpenOk(t: Tech, m: Mem, b: nat)
    requires b < |m.banks|
  {
    m.banks[b].open ==> OpenSince(t, m.log, |m.log|, b, m.banks[b].openRow, m.minResp - t.tCL)
  }

  ghost predicate OpensOk(t: Tech, m: Mem) {
    forall b: nat :: b < |m.banks| ==> OpenOk(t, m, b)
  }

  ghost predicate WindowsOk(t: Tech, ranks: seq<nat>, m: Mem) {
    forall k: nat :: k < |m.windows| ==> ActWindow.Chained(ActsOf(ranks, m.log, k), m.windows[k], t.tFAW)
  }

  // ------------------------------------------------------------ and no more than the rules

  /** The command is what keeps bank `b` from being precharged before `cycle`. */
  predicate Holds(t: Tech, e: Command, b: nat, cycle: nat) {
    match e
    case Pre(_, _) => false
    case Act(b', _, c) => b' == b && cycle == c + t.tRAS
    case Col(b', _, w, c) => b' == b && cycle == c + if w then t.tCL + t.tBL + t.tWR else t.tRTP
    case Refresh(d) => cycle + t.tRP == d
  }

  ghost predicate PreReached(t: Tech, m: Mem, b: nat)
    requires b < |m.banks|
  {
    m.banks[b].minPre == 0 || exists i :: 0 <= i < |m.log| && Holds(t, m.log[i], b, m.banks[b].minPre)
  }

  predicate IsLastAct(e: Command, b: nat, cycle: nat) {
    e.Act? && e.bank == b && e.cycle == cycle
  }

  ghost predicate ActReached(m: Mem, b: nat)
    requires b < |m.banks|
  {
    || (m.banks[b].lastAct == 0 && !m.banks[b].open)
    || exists i :: 0 <= i < |m.log| && IsLastAct(m.log[i], b, m.banks[b].lastAct)
  }

  predicate IsLastCol(t: Tech, e: Command, m: Mem) {
    e.Col? && e.cycle + t.tCL + t.tBL == m.minResp && e.write == m.lastWasWrite
  }

  ghost predicate BusReached(t: Tech, m: Mem) {
    || (m.minResp == t.tCL + t.tBL + 1 && !m.lastWasWrite)
    || exists i :: 0 <= i < |m.log| && IsLastCol(t, m.log[i], m)
  }

  /** Every bound the fields keep is one a command in the log demands, or an initial value. */
  ghost predicate Reached(t: Tech, m: Mem) {
    && (forall b: nat :: b < |m.banks| ==> PreReached(t, m, b) && ActReached(m, b))
    && BusReached(t, m)
  }

  ghost predicate Inv(t: Tech, ranks: seq<nat>, m: Mem) {
    && Shape(t, ranks, m)
    && EntriesOk(t, m)
    && Reached(t, m)
    && PairsOk(t, m.log)
    && RowsOk(t, m.log)
    && OpensOk(t, m)
    && WindowsOk(t, ranks, m)
  }

  const RESET_BANK := Bank(false, 0, 0, 0, 0, 0)

  function InitialMem(t: Tech, ranks: seq<nat>, numRanks: nat): Mem {
    Mem(seq(|ranks|, _ => RESET_BANK), seq(numRanks, _ => [0, 0, 0, 0]), t.tCL + t.tBL + 1, false, [])
  }

  lemma InitInv(t: Tech, ranks: seq<nat>, numRanks: nat)
    requires TechOk(t) && ranks != [] && forall b :: 0 <= b < |ranks| ==> ranks[b] < numRanks
    ensures Inv(t, ranks, InitialMem(t, ranks, numRanks))
  {
    ActWindow.StartChained([0, 0, 0, 0], t.tFAW);
    forall k: nat | k < numRanks
      ensures ActsOf(ranks, [], k) == map[]
    {
    }
  }
}
