/**
 Every request served and every refresh keeps the timing rules of `DdrTiming`, and so does
 every run.
 */
module DdrTimingProof {
  import ActWindow
  import opened DdrTiming

  /** The commands to open the row of a request: a precharge if another row is open, and the
      activation. */
  function Opening(bank: Bank, r: Request, pre: nat, act: nat): seq<Command> {
    (if bank.open then [Pre(r.bank, pre)] else []) + [Act(r.bank, r.row, act)]
  }

  /** The commands that serve a request: those that open its row, unless it is open, then the
      column command. */
  function CommandsAt(bank: Bank, r: Request, pre: nat, act: nat, cmd: nat): seq<Command> {
    (if RowHit(bank, r) then [] else Opening(bank, r, pre, act)) + [Col(r.bank, r.row, r.write, cmd)]
  }

  function Commands(t: Tech, ranks: seq<nat>, m: Mem, r: Request, cur: nat): seq<Command>
    requires Shape(t, ranks, m) && r.bank < |m.banks|
  {
    var bank, window := m.banks[r.bank], m.windows[ranks[r.bank]];
    CommandsAt(bank, r, PreCycle(bank, r), ActCycle(t, bank, window, r), CmdCycle(t, m, bank, window, r, cur))
  }

  /** The memory after a request has been served. */
  function Serve(t: Tech, ranks: seq<nat>, m: Mem, r: Request, cur: nat, keepOpen: bool): Mem
    requires Shape(t, ranks, m) && r.bank < |m.banks|
  {
    var k := ranks[r.bank];
    var bank, window := m.banks[r.bank], m.windows[k];
    var cmd := CmdCycle(t, m, bank, window, r, cur);
    Mem(m.banks[r.bank := ServeBank(t, bank, window, r, cmd, keepOpen)],
        if RowHit(bank, r) then m.windows
        else m.windows[k := ActWindow.Insert(window, ActCycle(t, bank, window, r))],
        cmd + t.tCL + t.tBL, r.write, m.log + Commands(t, ranks, m, r, cur))
  }

  function RefreshCycle(banks: seq<Bank>, cur: nat): (c: nat)
    ensures c >= cur
    ensures forall b :: 0 <= b < |banks| ==> c >= banks[b].minPre && c >= banks[b].lastCmd
    ensures c == cur || exists b :: 0 <= b < |banks| && (c == banks[b].minPre || c == banks[b].lastCmd)
  {
    if banks == [] then cur
    else
      var n := |banks| - 1;
      Max(RefreshCycle(banks[..n], cur), Max(banks[n].minPre, banks[n].lastCmd))
  }

  /** The memory after a refresh: all rows are closed until it is done. */
  function Refreshed(t: Tech, m: Mem, cur: nat): Mem
    requires TechOk(t)
  {
    var done := RefreshCycle(m.banks, cur) + t.tRFC;
    m.(banks := seq(|m.banks|, b requires 0 <= b < |m.banks| => m.banks[b].(minPre := done - t.tRP, open := false)),
       log := m.log + [Refresh(done)])
  }

  // ------------------------------------------------------------ the numbers

  /** What serving a request does to its bank and the bus. */
  lemma ServeBankFacts(t: Tech, m: Mem, bank: Bank, window: seq<nat>, r: Request, cur: nat, keepOpen: bool)
    requires window != [] && TechOk(t) && m.minResp > t.tCL + t.tBL && BankOk(t, bank, m.minResp)
    ensures var cmd := CmdCycle(t, m, bank, window, r, cur);
            var act := ActCycle(t, bank, window, r);
            var bank' := ServeBank(t, bank, window, r, cmd, keepOpen);
            && cmd + t.tCL >= m.minResp && cmd > bank.lastCmd && cmd >= cur
            && (m.lastWasWrite && !r.write ==> cmd >= m.minResp + t.tWTR)
            && BankOk(t, bank', cmd + t.tCL + t.tBL)
            && bank'.minPre >= bank.minPre && bank'.minPre >= cmd + Recovery(t, r.write)
            && bank'.lastAct >= bank.lastAct && bank'.minPre >= bank'.lastAct + t.tRAS
            && bank'.lastCmd == cmd && bank'.openRow == r.row
            && (!RowHit(bank, r) ==>
                  && bank'.lastAct == act && act >= bank.minPre + t.tRP && act >= bank.lastAct + t.tRRD
                  && PreCycle(bank, r) >= bank.minPre && act >= PreCycle(bank, r) + t.tRP
                  && act >= window[0] + t.tFAW && cmd >= act + t.tRCD)
  {
  }

  /** The scheduler's estimate and the command it issues agree: a request that is ready goes
      as soon as the bus allows, with no wait for its row. */
  lemma ReadyGoesAtOnce(t: Tech, m: Mem, bank: Bank, window: seq<nat>, r: Request, cur: nat)
    requires window != []
    requires FindMinCmdCycle(t, bank, window, r) <= cur && cur + t.tCL >= m.minResp
    ensures CmdCycle(t, m, bank, window, r, cur)
            == if m.lastWasWrite && !r.write then Max(cur, m.minResp + t.tWTR) else cur
    ensures r.arrival <= cur && (RowHit(bank, r) ==> bank.lastCmd < cur)
  {
  }

  /** A request that is not ready would have to wait: for its row, or for its own arrival, or for
      the column command before it. */
  lemma NotReadyWaits(t: Tech, m: Mem, bank: Bank, window: seq<nat>, r: Request, cur: nat)
    requires window != [] && FindMinCmdCycle(t, bank, window, r) > cur
    ensures CmdCycle(t, m, bank, window, r, cur) > cur || (RowHit(bank, r) && (r.arrival > cur || bank.lastCmd >= cur))
  {
  }

  /** Nothing is done for a request before it arrives. */
  lemma NothingBeforeArrival(t: Tech, ranks: seq<nat>, m: Mem, r: Request, cur: nat, e: Command)
    requires Shape(t, ranks, m) && r.bank < |m.banks| && r.arrival <= cur && e in Commands(t, ranks, m, r, cur)
    ensures !e.Refresh? && e.bank == r.bank && e.cycle >= r.arrival
  {
  }

  // ------------------------------------------------------------ serving a request

  /** The fields still remember the old commands. */
  lemma OldEntry(t: Tech, ranks: seq<nat>, m: Mem, r: Request, cur: nat, keepOpen: bool, e: Command)
    requires Shape(t, ranks, m) && r.bank < |m.banks| && EntryOk(t, m, e)
    ensures EntryOk(t, Serve(t, ranks, m, r, cur, keepOpen), e)
  {
    hide ServeBank, CmdCycle, ActCycle, PreCycle, Commands, ActWindow.Insert;
    ServeBankFacts(t, m, m.banks[r.bank], m.windows[ranks[r.bank]], r, cur, keepOpen);
  }

  /** They remember the new ones. */
  lemma NewEntries(t: Tech, ranks: seq<nat>, m: Mem, r: Request, cur: nat, keepOpen: bool, e: Command)
    requires Shape(t, ranks, m) && r.bank < |m.banks| && e in Commands(t, ranks, m, r, cur)
    ensures EntryOk(t, Serve(t, ranks, m, r, cur, keepOpen), e)
  {
    hide ServeBank, CmdCycle, ActCycle, PreCycle, ActWindow.Insert;
    ServeBankFacts(t, m, m.banks[r.bank], m.windows[ranks[r.bank]], r, cur, keepOpen);
  }

  /** The new commands obey the old ones. */
  lemma OldThenNew(t: Tech, ranks: seq<nat>, m: Mem, r: Request, cur: nat, e: Command, f: Command)
    requires Shape(t, ranks, m) && r.bank < |m.banks| && EntryOk(t, m, e) && f in Commands(t, ranks, m, r, cur)
    ensures PairOk(t, e, f)
  {
    hide ServeBank, CmdCycle, ActCycle, PreCycle;
    ServeBankFacts(t, m, m.banks[r.bank], m.windows[ranks[r.bank]], r, cur, true);
  }

  lemma AppendPair(t: Tech, log: seq<Command>, f: Command)
    requires PairsOk(t, log) && forall i :: 0 <= i < |log| ==> PairOk(t, log[i], f)
    ensures PairsOk(t, log + [f])
  {
    hide PairOk;
  }

  lemma AppendRow(t: Tech, log: seq<Command>, f: Command)
    requires RowsOk(t, log) && (f.Col? ==> OpenSince(t, log, |log|, f.bank, f.row, f.cycle))
    ensures RowsOk(t, log + [f])
  {
    forall j: nat | j < |log + [f]|
      ensures RowOk(t, log + [f], j)
    {
      if (log + [f])[j].Col? {
        var b, row, c := (log + [f])[j].bank, (log + [f])[j].row, (log + [f])[j].cycle;
        assert j < |log| ==> RowOk(t, log, j);
        var i :| OpenedBy(log, i, j, b, row) && log[i].cycle + t.tRCD <= c;
        assert OpenedBy(log + [f], i, j, b, row);
      }
    }
  }

  /** A command that does not close the bank keeps its row open. */
  lemma AppendOpen(t: Tech, log: seq<Command>, f: Command, b: nat, row: nat, cycle: int, cycle': int)
    requires OpenSince(t, log, |log|, b, row, cycle) && !Closes(f, b) && cycle <= cycle'
    ensures OpenSince(t, log + [f], |log| + 1, b, row, cycle')
  {
    var i :| OpenedBy(log, i, |log|, b, row) && log[i].cycle + t.tRCD <= cycle;
    assert OpenedBy(log + [f], i, |log| + 1, b, row);
  }

  lemma AppendAct(t: Tech, log: seq<Command>, f: Command, cycle: int)
    requires f.Act? && f.cycle + t.tRCD <= cycle
    ensures OpenSince(t, log + [f], |log| + 1, f.bank, f.row, cycle)
  {
    assert OpenedBy(log + [f], |log|, |log| + 1, f.bank, f.row);
  }

  lemma ServeEntries(t: Tech, ranks: seq<nat>, m: Mem, r: Request, cur: nat, keepOpen: bool)
    requires Shape(t, ranks, m) && r.bank < |m.banks| && EntriesOk(t, m)
    ensures EntriesOk(t, Serve(t, ranks, m, r, cur, keepOpen))
  {
    var m' := Serve(t, ranks, m, r, cur, keepOpen);
    forall i | 0 <= i < |m'.log|
      ensures EntryOk(t, m', m'.log[i])
    {
      if i < |m.log| {
        OldEntry(t, ranks, m, r, cur, keepOpen, m.log[i]);
      } else {
        NewEntries(t, ranks, m, r, cur, keepOpen, m'.log[i]);
      }
    }
  }

  lemma ServeLog(t: Tech, ranks: seq<nat>, m: Mem, r: Request, cur: nat, keepOpen: bool)
    requires Shape(t, ranks, m) && r.bank < |m.banks|
    requires EntriesOk(t, m) && PairsOk(t, m.log) && RowsOk(t, m.log) && OpensOk(t, m)
    ensures var m' := Serve(t, ranks, m, r, cur, keepOpen);
            PairsOk(t, m'.log) && RowsOk(t, m'.log) && OpensOk(t, m')
  {
    hide EntryOk, PairOk, PairsOk, RowsOk, OpenSince, ServeBank, CmdCycle, ActCycle, ActWindow.Insert;
    var m' := Serve(t, ranks, m, r, cur, keepOpen);
    var bank, window := m.banks[r.bank], m.windows[ranks[r.bank]];
    var cmd := CmdCycle(t, m, bank, window, r, cur);
    var act := Act(r.bank, r.row, ActCycle(t, bank, window, r));
    var col := Col(r.bank, r.row, r.write, cmd);
    ServeBankFacts(t, m, bank, window, r, cur, keepOpen);
    assert col in Commands(t, ranks, m, r, cur);
    forall i | 0 <= i < |m.log|
      ensures PairOk(t, m.log[i], col)
    {
      OldThenNew(t, ranks, m, r, cur, m.log[i], col);
    }
    var log := m.log;
    if !RowHit(bank, r) {
      OpeningLog(t, ranks, m, r, cur);
      log := m.log + Opening(bank, r, PreCycle(bank, r), act.cycle);
      forall e | e in Opening(bank, r, PreCycle(bank, r), act.cycle)
        ensures PairOk(t, e, col)
      {
        ThenCol(t, e, col);
      }
    } else {
      assert OpenOk(t, m, r.bank);
      OpenLater(t, log, |log|, r.bank, r.row, m.minResp - t.tCL, cmd);
    }
    AppendPair(t, log, col);
    AppendRow(t, log, col);
    assert m'.log == log + [col];
    forall b: nat | b < |m'.banks|
      ensures OpenOk(t, m', b)
    {
      if b == r.bank {
        AppendOpen(t, log, col, b, r.row, cmd, m'.minResp - t.tCL);
      } else if m.banks[b].open {
        assert OpenOk(t, m, b);
        if !RowHit(bank, r) {
          OpeningOthers(t, m.log, bank, r, PreCycle(bank, r), act.cycle, b, m.banks[b].openRow, m.minResp - t.tCL);
        }
        AppendOpen(t, log, col, b, m.banks[b].openRow, m.minResp - t.tCL, m'.minResp - t.tCL);
      }
    }
  }

  /** Opening a row obeys the rules, and leaves it open. */
  lemma OpeningLog(t: Tech, ranks: seq<nat>, m: Mem, r: Request, cur: nat)
    requires Shape(t, ranks, m) && r.bank < |m.banks| && !RowHit(m.banks[r.bank], r)
    requires EntriesOk(t, m) && PairsOk(t, m.log) && RowsOk(t, m.log)
    ensures var bank, window := m.banks[r.bank], m.windows[ranks[r.bank]];
            var log := m.log + Opening(bank, r, PreCycle(bank, r), ActCycle(t, bank, window, r));
            && PairsOk(t, log) && RowsOk(t, log)
            && OpenSince(t, log, |log|, r.bank, r.row, CmdCycle(t, m, bank, window, r, cur))
  {
    hide EntryOk, PairOk, PairsOk, RowsOk, OpenSince, ServeBank, CmdCycle, ActCycle, PreCycle;
    var bank, window := m.banks[r.bank], m.windows[ranks[r.bank]];
    var cmd := CmdCycle(t, m, bank, window, r, cur);
    var pre, act := Pre(r.bank, PreCycle(bank, r)), Act(r.bank, r.row, ActCycle(t, bank, window, r));
    ServeBankFacts(t, m, bank, window, r, cur, true);
    forall i | 0 <= i < |m.log|
      ensures PairOk(t, m.log[i], act) && (bank.open ==> PairOk(t, m.log[i], pre))
    {
      assert act in Commands(t, ranks, m, r, cur) && (bank.open ==> pre in Commands(t, ranks, m, r, cur));
      OldThenNew(t, ranks, m, r, cur, m.log[i], act);
      if bank.open {
        OldThenNew(t, ranks, m, r, cur, m.log[i], pre);
      }
    }
    var log := m.log;
    if bank.open {
      AppendPair(t, log, pre);
      AppendRow(t, log, pre);
      PreThenAct(t, pre, act);
      log := log + [pre];
    }
    AppendPair(t, log, act);
    AppendRow(t, log, act);
    AppendAct(t, log, act, cmd);
    assert log + [act] == m.log + Opening(bank, r, pre.cycle, act.cycle);
  }

  lemma PreThenAct(t: Tech, pre: Command, act: Command)
    requires pre.Pre? && act.Act? && act.cycle >= pre.cycle + t.tRP
    ensures PairOk(t, pre, act)
  {
  }

  /** The rows of other banks stay open meanwhile. */
  lemma OpeningOthers(t: Tech, log: seq<Command>, bank: Bank, r: Request, pre: nat, act: nat, b: nat, row: nat,
                      cycle: int)
    requires OpenSince(t, log, |log|, b, row, cycle) && b != r.bank
    ensures var log' := log + Opening(bank, r, pre, act); OpenSince(t, log', |log'|, b, row, cycle)
  {
    hide OpenSince;
    var l := log;
    if bank.open {
      AppendOpen(t, l, Pre(r.bank, pre), b, row, cycle, cycle);
      l := l + [Pre(r.bank, pre)];
    }
    AppendOpen(t, l, Act(r.bank, r.row, act), b, row, cycle, cycle);
    assert l + [Act(r.bank, r.row, act)] == log + Opening(bank, r, pre, act);
  }

  lemma ThenCol(t: Tech, e: Command, col: Command)
    requires (e.Pre? || e.Act?) && col.Col?
    ensures PairOk(t, e, col)
  {
  }

  lemma OpenLater(t: Tech, log: seq<Command>, n: int, b: nat, row: nat, cycle: int, cycle': int)
    requires OpenSince(t, log, n, b, row, cycle) && cycle <= cycle'
    ensures OpenSince(t, log, n, b, row, cycle')
  {
  }

  lemma AppendActs(ranks: seq<nat>, log: seq<Command>, f: Command, k: nat)
    ensures ActsOf(ranks, log + [f], k)
            == if f.Act? && f.bank < |ranks| && ranks[f.bank] == k then ActsOf(ranks, log, k)[|log| := f.cycle]
               else ActsOf(ranks, log, k)
  {
  }

  lemma ServeWindows(t: Tech, ranks: seq<nat>, m: Mem, r: Request, cur: nat, keepOpen: bool)
    requires Shape(t, ranks, m) && r.bank < |m.banks| && WindowsOk(t, ranks, m)
    ensures WindowsOk(t, ranks, Serve(t, ranks, m, r, cur, keepOpen))
  {
    hide ServeBank, CmdCycle, ActCycle, PreCycle, ActWindow.Insert, ActWindow.Chained, ActsOf;
    var m' := Serve(t, ranks, m, r, cur, keepOpen);
    var k0 := ranks[r.bank];
    var bank, window := m.banks[r.bank], m.windows[k0];
    var act := Act(r.bank, r.row, ActCycle(t, bank, window, r));
    var col := Col(r.bank, r.row, r.write, CmdCycle(t, m, bank, window, r, cur));
    ServeBankFacts(t, m, bank, window, r, cur, keepOpen);
    forall k: nat | k < |m'.windows|
      ensures ActWindow.Chained(ActsOf(ranks, m'.log, k), m'.windows[k], t.tFAW)
    {
      if RowHit(bank, r) {
        AppendActs(ranks, m.log, col, k);
        assert m'.log == m.log + [col];
      } else {
        OpeningActs(ranks, m.log, bank, r, PreCycle(bank, r), act.cycle, k);
        var log := m.log + Opening(bank, r, PreCycle(bank, r), act.cycle);
        AppendActs(ranks, log, col, k);
        assert m'.log == log + [col];
        if k == k0 {
          ActWindow.InsertChained(ActsOf(ranks, m.log, k), window, t.tFAW, |log| - 1, act.cycle);
        }
      }
    }
  }

  /** Opening a row adds one activation, of its rank. */
  lemma OpeningActs(ranks: seq<nat>, log: seq<Command>, bank: Bank, r: Request, pre: nat, act: nat, k: nat)
    requires r.bank < |ranks|
    ensures var log' := log + Opening(bank, r, pre, act);
            && ActsOf(ranks, log', k)
               == (if ranks[r.bank] == k then ActsOf(ranks, log, k)[|log'| - 1 := act] else ActsOf(ranks, log, k))
            && |log'| - 1 !in ActsOf(ranks, log, k)
  {
    hide ActsOf;
    var l := log;
    NotYet(ranks, log, k, |log|);
    NotYet(ranks, log, k, |log| + 1);
    if bank.open {
      AppendActs(ranks, l, Pre(r.bank, pre), k);
      l := l + [Pre(r.bank, pre)];
    }
    AppendActs(ranks, l, Act(r.bank, r.row, act), k);
    assert l + [Act(r.bank, r.row, act)] == log + Opening(bank, r, pre, act);
  }

  lemma NotYet(ranks: seq<nat>, log: seq<Command>, k: nat, i: nat)
    requires i >= |log|
    ensures i !in ActsOf(ranks, log, k)
  {
  }

  lemma ServeShape(t: Tech, ranks: seq<nat>, m: Mem, r: Request, cur: nat, keepOpen: bool)
    requires Shape(t, ranks, m) && r.bank < |m.banks|
    ensures Shape(t, ranks, Serve(t, ranks, m, r, cur, keepOpen))
  {
    hide ServeBank, CmdCycle, ActCycle, PreCycle, Commands, ActWindow.Insert;
    ServeBankFacts(t, m, m.banks[r.bank], m.windows[ranks[r.bank]], r, cur, keepOpen);
  }

  lemma StillHeld(t: Tech, m: Mem, m': Mem, b: nat)
    requires b < |m.banks| && b < |m'.banks| && m.log <= m'.log && m'.banks[b] == m.banks[b]
    requires PreReached(t, m, b) && ActReached(m, b)
    ensures PreReached(t, m', b) && ActReached(m', b)
  {
    hide Holds, IsLastAct;
    if m.banks[b].minPre != 0 {
      var i :| 0 <= i < |m.log| && Holds(t, m.log[i], b, m.banks[b].minPre);
      assert m'.log[i] == m.log[i];
    }
    if i :| 0 <= i < |m.log| && IsLastAct(m.log[i], b, m.banks[b].lastAct) {
      assert m'.log[i] == m.log[i];
    }
  }

  /** The bank's new bounds are those of one of the new commands, or the old ones. */
  lemma ServedBankHeld(t: Tech, ranks: seq<nat>, m: Mem, r: Request, cur: nat, keepOpen: bool)
    requires Shape(t, ranks, m) && r.bank < |m.banks|
    ensures var m' := Serve(t, ranks, m, r, cur, keepOpen);
            var bank, bank' := m.banks[r.bank], m'.banks[r.bank];
            && m'.log != []
            && (|| (bank'.minPre == bank.minPre)
                || (bank'.minPre == bank'.lastAct + t.tRAS)
                || Holds(t, m'.log[|m'.log| - 1], r.bank, bank'.minPre))
            && (if RowHit(bank, r) then bank'.lastAct == bank.lastAct
                else |m'.log| >= 2 && IsLastAct(m'.log[|m'.log| - 2], r.bank, bank'.lastAct))
            && m'.log != [] && IsLastCol(t, m'.log[|m'.log| - 1], m') && m.log <= m'.log
  {
    hide CmdCycle, ActWindow.Insert;
  }

  lemma ServeReaches(t: Tech, ranks: seq<nat>, m: Mem, r: Request, cur: nat, keepOpen: bool)
    requires Shape(t, ranks, m) && r.bank < |m.banks| && Reached(t, m)
    ensures Reached(t, Serve(t, ranks, m, r, cur, keepOpen))
  {
    hide Holds, IsLastAct, IsLastCol, ServeBank, CmdCycle, ActCycle, PreCycle, Commands, ActWindow.Insert;
    var m' := Serve(t, ranks, m, r, cur, keepOpen);
    ServedBankHeld(t, ranks, m, r, cur, keepOpen);
    forall b: nat | b < |m'.banks|
      ensures PreReached(t, m', b) && ActReached(m', b)
    {
      if b != r.bank {
        StillHeld(t, m, m', b);
      } else {
        ServedBankReached(t, m, m', b);
      }
    }
  }

  lemma ServedBankReached(t: Tech, m: Mem, m': Mem, b: nat)
    requires b < |m.banks| && b < |m'.banks| && m.log <= m'.log && m'.log != []
    requires PreReached(t, m, b) && ActReached(m, b)
    requires || m'.banks[b].minPre == m.banks[b].minPre || m'.banks[b].minPre == m'.banks[b].lastAct + t.tRAS
             || Holds(t, m'.log[|m'.log| - 1], b, m'.banks[b].minPre)
    requires || (m.banks[b].open && m'.banks[b].lastAct == m.banks[b].lastAct)
             || (|m'.log| >= 2 && IsLastAct(m'.log[|m'.log| - 2], b, m'.banks[b].lastAct))
    ensures PreReached(t, m', b) && ActReached(m', b)
  {
    var bank, bank' := m.banks[b], m'.banks[b];
    var a := |m'.log| - 2;
    if m.banks[b].open && bank'.lastAct == bank.lastAct {
      a :| 0 <= a < |m.log| && IsLastAct(m.log[a], b, bank.lastAct);
      assert m'.log[a] == m.log[a];
    }
    assert IsLastAct(m'.log[a], b, bank'.lastAct);
    if bank'.minPre == bank.minPre && bank.minPre != 0 {
      var i :| 0 <= i < |m.log| && Holds(t, m.log[i], b, bank.minPre);
      assert m'.log[i] == m.log[i];
    } else if bank'.minPre == bank'.lastAct + t.tRAS {
      assert Holds(t, m'.log[a], b, bank'.minPre);
    }
  }

  lemma ServeKeepsInv(t: Tech, ranks: seq<nat>, m: Mem, r: Request, cur: nat, keepOpen: bool)
    requires Inv(t, ranks, m) && r.bank < |m.banks|
    ensures Inv(t, ranks, Serve(t, ranks, m, r, cur, keepOpen))
  {
    hide EntriesOk, Reached, PairsOk, RowsOk, OpensOk, WindowsOk, Serve, Shape;
    ServeShape(t, ranks, m, r, cur, keepOpen);
    ServeEntries(t, ranks, m, r, cur, keepOpen);
    ServeReaches(t, ranks, m, r, cur, keepOpen);
    ServeLog(t, ranks, m, r, cur, keepOpen);
    ServeWindows(t, ranks, m, r, cur, keepOpen);
  }

  /** Whatever keeps a bank from being precharged keeps it from that as a rule. */
  lemma HeldBack(t: Tech, log: seq<Command>, alt: seq<Command>, m: Mem, b: nat, i: nat)
    requires log == m.log && b < |m.banks| && PreReached(t, m, b) && PairsOk(t, log + alt) && i < |alt|
    requires (alt[i].Pre? || alt[i].Act?) && alt[i].bank == b
    ensures alt[i].Pre? ==> alt[i].cycle >= m.banks[b].minPre
    ensures alt[i].Act? && m.banks[b].minPre != 0 ==> alt[i].cycle >= m.banks[b].minPre + t.tRP
  {
    if m.banks[b].minPre != 0 {
      var k :| 0 <= k < |log| && Holds(t, log[k], b, m.banks[b].minPre);
      assert PairOk(t, (log + alt)[k], (log + alt)[|log| + i]);
    }
  }

  lemma ActsApart(t: Tech, log: seq<Command>, alt: seq<Command>, m: Mem, b: nat, i: nat)
    requires log == m.log && b < |m.banks| && ActReached(m, b) && PairsOk(t, log + alt) && i < |alt|
    requires alt[i].Act? && alt[i].bank == b && alt[i].cycle >= t.tRRD
    ensures alt[i].cycle >= m.banks[b].lastAct + t.tRRD
  {
    if m.banks[b].lastAct != 0 {
      var k :| 0 <= k < |log| && IsLastAct(log[k], b, m.banks[b].lastAct);
      assert PairOk(t, (log + alt)[k], (log + alt)[|log| + i]);
    }
  }

  lemma BusApart(t: Tech, log: seq<Command>, alt: seq<Command>, m: Mem, i: nat)
    requires log == m.log && BusReached(t, m) && PairsOk(t, log + alt) && i < |alt|
    requires alt[i].Col? && alt[i].cycle > t.tBL
    ensures alt[i].cycle + t.tCL >= m.minResp
    ensures m.lastWasWrite && !alt[i].write ==> alt[i].cycle >= m.minResp + t.tWTR
  {
    if k :| 0 <= k < |log| && IsLastCol(t, log[k], m) {
      assert PairOk(t, (log + alt)[k], (log + alt)[|log| + i]);
    }
  }

  /** The scheduler loses no cycle: no earlier activation and no earlier column command would obey
      the rules, given that nothing is done before the request arrives or the bank and the bus have
      come up, that a column command waits for its row, and the oldest entry of the window. */
  lemma NoEarlier(t: Tech, ranks: seq<nat>, m: Mem, r: Request, cur: nat, pre: nat, act: nat, cmd: nat)
    requires Inv(t, ranks, m) && r.bank < |m.banks|
    requires PairsOk(t, m.log + CommandsAt(m.banks[r.bank], r, pre, act, cmd))
    requires !RowHit(m.banks[r.bank], r) ==>
               && act >= r.arrival && (m.banks[r.bank].open ==> pre >= r.arrival)
               && act >= t.tRP && act >= t.tRRD && act >= m.windows[ranks[r.bank]][0] + t.tFAW
               && cmd >= act + t.tRCD
    requires cmd >= cur && cmd > t.tBL
    ensures !RowHit(m.banks[r.bank], r) ==> act >= ActCycle(t, m.banks[r.bank], m.windows[ranks[r.bank]], r)
    ensures cmd >= CmdCycle(t, m, m.banks[r.bank], m.windows[ranks[r.bank]], r, cur)
  {
    hide PairOk, PairsOk, EntriesOk, PreReached, ActReached, BusReached, RowsOk, OpensOk, WindowsOk;
    var bank := m.banks[r.bank];
    var alt := CommandsAt(bank, r, pre, act, cmd);
    var n := |alt| - 1;
    assert alt[n] == Col(r.bank, r.row, r.write, cmd);
    BusApart(t, m.log, alt, m, n);
    if !RowHit(bank, r) {
      assert alt[n - 1] == Act(r.bank, r.row, act);
      HeldBack(t, m.log, alt, m, r.bank, n - 1);
      ActsApart(t, m.log, alt, m, r.bank, n - 1);
      if bank.open {
        assert alt[0] == Pre(r.bank, pre);
        HeldBack(t, m.log, alt, m, r.bank, 0);
        PreBeforeAct(t, m.log, alt, pre, act, r);
      }
    }
  }

  lemma PreBeforeAct(t: Tech, log: seq<Command>, alt: seq<Command>, pre: nat, act: nat, r: Request)
    requires PairsOk(t, log + alt) && |alt| >= 2 && alt[0] == Pre(r.bank, pre) && alt[1] == Act(r.bank, r.row, act)
    ensures act >= pre + t.tRP
  {
    assert PairOk(t, (log + alt)[|log|], (log + alt)[|log| + 1]);
  }

  // ------------------------------------------------------------ refreshing

  lemma RefreshKeepsInv(t: Tech, ranks: seq<nat>, m: Mem, cur: nat)
    requires Inv(t, ranks, m)
    ensures Inv(t, ranks, Refreshed(t, m, cur))
  {
    hide ActWindow.Chained, OpenSince, PairsOk, RowsOk, RefreshCycle, ActsOf, Reached;
    var m' := Refreshed(t, m, cur);
    var f := Refresh(RefreshCycle(m.banks, cur) + t.tRFC);
    forall i | 0 <= i < |m.log|
      ensures PairOk(t, m.log[i], f) && EntryOk(t, m', m.log[i])
    {
      RefreshEntry(t, m, cur, m.log[i]);
    }
    RefreshReaches(t, m, cur);
    AppendPair(t, m.log, f);
    AppendRow(t, m.log, f);
    forall k: nat | k < |m'.windows|
      ensures ActWindow.Chained(ActsOf(ranks, m'.log, k), m'.windows[k], t.tFAW)
    {
      AppendActs(ranks, m.log, f, k);
    }
  }

  lemma RefreshReaches(t: Tech, m: Mem, cur: nat)
    requires TechOk(t) && Reached(t, m)
    ensures Reached(t, Refreshed(t, m, cur))
  {
    hide RefreshCycle;
    var m' := Refreshed(t, m, cur);
    forall b: nat | b < |m'.banks|
      ensures PreReached(t, m', b) && ActReached(m', b)
    {
      assert Holds(t, m'.log[|m.log|], b, m'.banks[b].minPre);
      assert PreReached(t, m, b) && ActReached(m, b);
      if i :| 0 <= i < |m.log| && IsLastAct(m.log[i], b, m.banks[b].lastAct) {
        assert IsLastAct(m'.log[i], b, m'.banks[b].lastAct);
      }
    }
    if i :| 0 <= i < |m.log| && IsLastCol(t, m.log[i], m) {
      assert IsLastCol(t, m'.log[i], m');
    }
  }

  lemma RefreshEntry(t: Tech, m: Mem, cur: nat, e: Command)
    requires TechOk(t) && EntryOk(t, m, e) && m.banks != []
    ensures PairOk(t, e, Refresh(RefreshCycle(m.banks, cur) + t.tRFC)) && EntryOk(t, Refreshed(t, m, cur), e)
  {
    assert RefreshCycle(m.banks, cur) >= m.banks[0].minPre;
  }

  // ------------------------------------------------------------ whole runs

  lemma InvShape(t: Tech, ranks: seq<nat>, m: Mem)
    requires Inv(t, ranks, m)
    ensures Shape(t, ranks, m) && |m.banks| == |ranks| && m.minResp > t.tCL + t.tBL
  {
  }

  datatype Step = ServeStep(r: Request, cur: nat, keepOpen: bool) | RefreshStep(cur: nat)

  ghost predicate Enabled(m: Mem, s: Step) {
    s.ServeStep? ==> s.r.bank < |m.banks|
  }

  ghost function Apply(t: Tech, ranks: seq<nat>, m: Mem, s: Step): Mem
    requires Shape(t, ranks, m) && Enabled(m, s)
  {
    match s
    case ServeStep(r, cur, keepOpen) => Serve(t, ranks, m, r, cur, keepOpen)
    case RefreshStep(cur) => Refreshed(t, m, cur)
  }

  ghost predicate IsStep(t: Tech, ranks: seq<nat>, m: Mem, m': Mem) {
    Shape(t, ranks, m) && exists s :: Enabled(m, s) && m' == Apply(t, ranks, m, s)
  }

  /** Any requests in any order, served at any cycles, with refreshes in between. */
  ghost predicate IsRun(t: Tech, ranks: seq<nat>, numRanks: nat, run: seq<Mem>) {
    && TechOk(t) && ranks != [] && (forall b :: 0 <= b < |ranks| ==> ranks[b] < numRanks)
    && run != [] && run[0] == InitialMem(t, ranks, numRanks)
    && forall i :: 0 < i < |run| ==> IsStep(t, ranks, run[i - 1], run[i])
  }

  lemma {:induction false} RunKeepsInv(t: Tech, ranks: seq<nat>, numRanks: nat, run: seq<Mem>, n: nat)
    requires IsRun(t, ranks, numRanks, run) && n < |run|
    ensures Inv(t, ranks, run[n])
  {
    hide Inv, Serve, Refreshed, InitialMem;
    if n == 0 {
      InitInv(t, ranks, numRanks);
    } else {
      RunKeepsInv(t, ranks, numRanks, run, n - 1);
      assert IsStep(t, ranks, run[n - 1], run[n]);
      var s :| Enabled(run[n - 1], s) && run[n] == Apply(t, ranks, run[n - 1], s);
      match s
      case ServeStep(r, cur, keepOpen) => ServeKeepsInv(t, ranks, run[n - 1], r, cur, keepOpen);
      case RefreshStep(cur) => RefreshKeepsInv(t, ranks, run[n - 1], cur);
    }
  }

  /** The timing rules hold between any two commands of any run. */
  lemma TimingHolds(t: Tech, ranks: seq<nat>, numRanks: nat, run: seq<Mem>, n: nat, i: nat, j: nat)
    requires IsRun(t, ranks, numRanks, run) && n < |run| && i < j < |run[n].log|
    ensures PairOk(t, run[n].log[i], run[n].log[j])
  {
    RunKeepsInv(t, ranks, numRanks, run, n);
  }

  /** Every column command goes to the row its bank's last activation opened, tRCD later, and
      no refresh is in between. */
  lemma ColumnsHitOpenRows(t: Tech, ranks: seq<nat>, numRanks: nat, run: seq<Mem>, n: nat, j: nat)
    requires IsRun(t, ranks, numRanks, run) && n < |run| && j < |run[n].log| && run[n].log[j].Col?
    ensures var log := run[n].log;
            exists i :: OpenedBy(log, i, j, log[j].bank, log[j].row) && log[i].cycle + t.tRCD <= log[j].cycle
  {
    RunKeepsInv(t, ranks, numRanks, run, n);
    assert RowOk(t, run[n].log, j);
  }

  /** No two data bursts overlap. */
  lemma BurstsDisjoint(t: Tech, ranks: seq<nat>, numRanks: nat, run: seq<Mem>, n: nat, i: nat, j: nat, x: nat)
    requires IsRun(t, ranks, numRanks, run) && n < |run| && i < |run[n].log| && j < |run[n].log| && i != j
    requires run[n].log[i].Col? && run[n].log[j].Col?
    requires run[n].log[i].cycle + t.tCL <= x < run[n].log[i].cycle + t.tCL + t.tBL
    ensures !(run[n].log[j].cycle + t.tCL <= x < run[n].log[j].cycle + t.tCL + t.tBL)
  {
    TimingHolds(t, ranks, numRanks, run, n, if i < j then i else j, if i < j then j else i);
  }

  /** Any five activations of a rank span at least tFAW, in whatever order they were recorded. */
  lemma FiveActivations(t: Tech, ranks: seq<nat>, m: Mem, k: nat, ks: seq<nat>)
    requires Inv(t, ranks, m)
    requires |ks| == 5 && forall p :: 0 <= p < 5 ==> ks[p] in ActsOf(ranks, m.log, k)
    requires forall p, q :: 0 <= p < q < 5 ==> ks[p] != ks[q]
    ensures exists p, q :: 0 <= p < 5 && 0 <= q < 5
              && ActsOf(ranks, m.log, k)[ks[p]] + t.tFAW <= ActsOf(ranks, m.log, k)[ks[q]]
  {
    var acts := ActsOf(ranks, m.log, k);
    assert ks[0] in acts && k < |m.windows|;
    ActWindow.WindowSpan(acts, m.windows[k], t.tFAW, ks);
    var p, q :| 0 <= p < q < 5 && ActWindow.Apart(acts[ks[p]], acts[ks[q]], t.tFAW);
    assert acts[ks[p]] + t.tFAW <= acts[ks[q]] || acts[ks[q]] + t.tFAW <= acts[ks[p]];
  }

  /** So it is in every run. */
  lemma FourActivationWindow(t: Tech, ranks: seq<nat>, numRanks: nat, run: seq<Mem>, n: nat, k: nat, ks: seq<nat>)
    requires IsRun(t, ranks, numRanks, run) && n < |run|
    requires |ks| == 5 && forall p :: 0 <= p < 5 ==> ks[p] in ActsOf(ranks, run[n].log, k)
    requires forall p, q :: 0 <= p < q < 5 ==> ks[p] != ks[q]
    ensures exists p, q :: 0 <= p < 5 && 0 <= q < 5
              && ActsOf(ranks, run[n].log, k)[ks[p]] + t.tFAW <= ActsOf(ranks, run[n].log, k)[ks[q]]
  {
    RunKeepsInv(t, ranks, numRanks, run, n);
    FiveActivations(t, ranks, run[n], k, ks);
  }

  // ------------------------------------------------------------ tRRD of a rank

  /** Any two activations of the rank are tRRD apart. */
  ghost predicate RankSpaced(t: Tech, ranks: seq<nat>, log: seq<Command>, k: nat) {
    var acts := ActsOf(ranks, log, k);
    forall i, j :: i in acts && j in acts && i != j ==> ActWindow.Apart(acts[i], acts[j], t.tRRD)
  }

  /** Serving a request that needs its row opened keeps tRRD between the activations of its rank
      only if its activation is tRRD apart from the entries of the rank's window, and exactly
      then unless one of them is later than it by more than tFAW - tRRD. */
  lemma RankRrdIff(t: Tech, ranks: seq<nat>, m: Mem, r: Request, cur: nat, keepOpen: bool)
    requires Inv(t, ranks, m) && r.bank < |m.banks| && !RowHit(m.banks[r.bank], r)
    requires t.tRRD <= t.tFAW && RankSpaced(t, ranks, m.log, ranks[r.bank])
    ensures var window := m.windows[ranks[r.bank]];
            var act := ActCycle(t, m.banks[r.bank], window, r);
            var spaced := RankSpaced(t, ranks, Serve(t, ranks, m, r, cur, keepOpen).log, ranks[r.bank]);
            var apart := forall w :: w in window ==> ActWindow.Apart(w, act, t.tRRD);
            (spaced ==> apart) && (ActWindow.SeesBack(window, t.tFAW, t.tRRD, act) ==> (spaced <==> apart))
  {
    hide Inv, ServeBank, CmdCycle, ActCycle, PreCycle, Opening, ActWindow.Insert, ActWindow.Chained, ActsOf,
         ActWindow.SeesBack, ActWindow.Apart;
    RankFacts(t, ranks, m, r.bank);
    var k := ranks[r.bank];
    var bank, window := m.banks[r.bank], m.windows[k];
    ServeBankFacts(t, m, bank, window, r, cur, keepOpen);
    var act := Act(r.bank, r.row, ActCycle(t, bank, window, r));
    var col := Col(r.bank, r.row, r.write, CmdCycle(t, m, bank, window, r, cur));
    var acts := ActsOf(ranks, m.log, k);
    OpeningActs(ranks, m.log, bank, r, PreCycle(bank, r), act.cycle, k);
    var log := m.log + Opening(bank, r, PreCycle(bank, r), act.cycle);
    AppendActs(ranks, log, col, k);
    assert log + [col] == Serve(t, ranks, m, r, cur, keepOpen).log;
    ActWindow.ApartFromAllIff(acts, window, t.tFAW, t.tRRD, act.cycle);
    SpacedIff(t, acts, |log| - 1, act.cycle);
  }

  lemma RankFacts(t: Tech, ranks: seq<nat>, m: Mem, b: nat)
    requires Inv(t, ranks, m) && b < |m.banks|
    ensures Shape(t, ranks, m) && b < |ranks| && ranks[b] < |m.windows|
    ensures ActWindow.Chained(ActsOf(ranks, m.log, ranks[b]), m.windows[ranks[b]], t.tFAW)
  {
  }

  lemma SpacedIff(t: Tech, acts: map<nat, nat>, k: nat, act: nat)
    requires k !in acts
    requires forall i, j :: i in acts && j in acts && i != j ==> ActWindow.Apart(acts[i], acts[j], t.tRRD)
    ensures var acts' := acts[k := act];
            (forall i, j :: i in acts' && j in acts' && i != j ==> ActWindow.Apart(acts'[i], acts'[j], t.tRRD))
            <==> (forall i :: i in acts ==> ActWindow.Apart(acts[i], act, t.tRRD))
  {
    var acts' := acts[k := act];
    if forall i, j :: i in acts' && j in acts' && i != j ==> ActWindow.Apart(acts'[i], acts'[j], t.tRRD) {
      forall i | i in acts
        ensures ActWindow.Apart(acts[i], act, t.tRRD)
      {
        assert ActWindow.Apart(acts'[i], acts'[k], t.tRRD);
      }
    }
  }

  /** The first request of a fresh memory with two banks of one rank. */
  lemma FirstServed(t: Tech, a: nat)
    requires TechOk(t) && a > t.tRP + t.tRRD + t.tFAW + t.tBL
    ensures var ranks := [0, 0];
            var m0, r := InitialMem(t, ranks, 1), Request(0, 0, 0, 0, false, 0, a);
            && Shape(t, ranks, m0) && FindMinCmdCycle(t, m0.banks[0], m0.windows[0], r) == a + t.tRCD
            && var m1 := Serve(t, ranks, m0, r, a + t.tRCD, true);
            && Shape(t, ranks, m1) && m1.minResp == a + t.tRCD + t.tCL + t.tBL
            && m1.banks[1] == RESET_BANK && m1.windows[0][0] == 0
            && |m1.log| == 2 && m1.log[0] == Act(0, 0, a)
  {
    var ranks := [0, 0];
    var m0, r := InitialMem(t, ranks, 1), Request(0, 0, 0, 0, false, 0, a);
    InitInv(t, ranks, 1);
    ServeShape(t, ranks, m0, r, a + t.tRCD, true);
    assert ActCycle(t, m0.banks[0], m0.windows[0], r) == a;
    assert ActWindow.Place([0, 0, 0, 0], a, 4) == 3;
    ActWindow.InsertAt([0, 0, 0, 0], a, 0);
  }

  /** Without that, tRRD is only kept within a bank: two requests, each ready when it is served,
      activate two banks of a rank in the same cycle. */
  lemma RankRrdNotKept(t: Tech, a: nat)
    requires TechOk(t) && a > t.tRP + t.tRRD + t.tFAW + t.tBL
    ensures var ranks := [0, 0];
            var m0 := InitialMem(t, ranks, 1);
            var r0, r1 := Request(0, 0, 0, 0, false, 0, a), Request(1, 1, 1, 0, false, 0, a);
            && Shape(t, ranks, m0) && FindMinCmdCycle(t, m0.banks[0], m0.windows[0], r0) <= a + t.tRCD
            && var m1 := Serve(t, ranks, m0, r0, a + t.tRCD, true);
            && Shape(t, ranks, m1) && m1.minResp - t.tCL == a + t.tRCD + t.tBL
            && FindMinCmdCycle(t, m1.banks[1], m1.windows[0], r1) <= a + t.tRCD + t.tBL
            && var m2 := Serve(t, ranks, m1, r1, a + t.tRCD + t.tBL, true);
            |m2.log| == 4 && m2.log[0] == Act(0, 0, a) && m2.log[2] == Act(1, 0, a)
  {
    hide Shape, ServeBank, ActWindow.Insert, InitialMem;
    FirstServed(t, a);
  }
}
