/**
 The two clocks of the DDR controller. Events run in system cycles; the controller counts in
 memory cycles. `sys` and `mem` are the two frequencies.
 */
module DdrClock {

  function SysToMem(sys: nat, mem: nat, sysCycle: nat): (m: nat)
    requires sys > 0
    ensures m > 0
  {
    sysCycle * mem / sys + 1
  }

  function MemToSys(sys: nat, mem: nat, memCycle: nat): nat
    requires mem > 0
  {
    (memCycle + 1) * sys / mem
  }

  function MatchingMemToSys(sys: nat, mem: nat, memCycle: nat): nat
    requires mem > 0 && memCycle > 0
  {
    (2 * memCycle - 1) * sys / mem / 2
  }

  /** The frequencies the constructor lets through. */
  predicate ClockOk(sys: nat, mem: nat) {
    0 < mem < sys / 2
  }

  /** Euclid: `a / b` is the one quotient that fits. */
  lemma Quotient(a: nat, b: nat, q: nat)
    requires b > 0 && q * b <= a < (q + 1) * b
    ensures a / b == q
  {
    var d := a / b;
    assert d * b <= a < (d + 1) * b;
    if d < q {
      Times(d + 1, q, b);
    } else if q < d {
      Times(q + 1, d, b);
    }
  }

  lemma Times(x: nat, y: nat, b: nat)
    requires x <= y
    ensures x * b <= y * b
  {
  }

  lemma Divide(a: nat, b: nat)
    requires b > 0
    ensures a / b * b <= a < a / b * b + b
  {
  }

  lemma Halve(x: nat, sys: nat, mem: nat)
    requires mem > 0
    ensures var y := x * sys / mem / 2;
            2 * mem * y <= x * sys < 2 * mem * y + 2 * mem
  {
    var q := x * sys / mem;
    var y := q / 2;
    Divide(x * sys, mem);
    assert 2 * y <= q <= 2 * y + 1;
    Times(2 * y, q, mem);
    Times(q, 2 * y + 1, mem);
  }

  /** The system cycle that stands for a memory cycle translates back to it. */
  lemma RoundTrip(sys: nat, mem: nat, m: nat)
    requires ClockOk(sys, mem) && m > 0
    ensures SysToMem(sys, mem, MatchingMemToSys(sys, mem, m)) == m
    ensures MatchingMemToSys(sys, mem, m) > 0
  {
    var y := MatchingMemToSys(sys, mem, m);
    Halve(2 * m - 1, sys, mem);
    assert 2 * mem * y == 2 * (y * mem);
    assert (2 * m - 1) * sys == 2 * (m * sys) - sys;
    assert (m - 1) * sys == m * sys - sys;
    Times(1, m, sys);
    Quotient(y * mem, sys, m - 1);
  }

  /** Without the constructor's condition the translation can miss. */
  lemma RoundTripNeedsSlowMemory()
    ensures SysToMem(6, 5, MatchingMemToSys(6, 5, 2)) == 1
  {
  }

  lemma SysToMemMonotone(sys: nat, mem: nat, a: nat, b: nat)
    requires sys > 0 && a <= b
    ensures SysToMem(sys, mem, a) <= SysToMem(sys, mem, b)
  {
    Times(a, b, mem);
    Divide(a * mem, sys);
    Divide(b * mem, sys);
    var p, q := a * mem / sys, b * mem / sys;
    if q < p {
      Times(q + 1, p, sys);
    }
  }

  /** An event for memory cycle `m`, queued no earlier than now, fires in memory cycle `m`. */
  lemma QueuedCycle(sys: nat, mem: nat, m: nat, now: nat)
    requires ClockOk(sys, mem) && SysToMem(sys, mem, now) <= m
    ensures var stamp := MatchingMemToSys(sys, mem, m);
            var e := if stamp > now then stamp else now;
            SysToMem(sys, mem, e) == m && e >= now && e > 0
  {
    var stamp := MatchingMemToSys(sys, mem, m);
    RoundTrip(sys, mem, m);
    if stamp <= now {
      SysToMemMonotone(sys, mem, stamp, now);
    }
  }

  /** A response is never before the system cycle of the tick that issued its command. */
  lemma DoneIsLater(sys: nat, mem: nat, now: nat, resp: nat)
    requires ClockOk(sys, mem) && SysToMem(sys, mem, now) <= resp
    ensures MemToSys(sys, mem, resp) >= now
  {
    Divide(now * mem, sys);
    var q := now * mem / sys;
    assert now * mem < (q + 1) * sys;
    Times(q + 1, resp + 1, sys);
    Divide((resp + 1) * sys, mem);
    var d := (resp + 1) * sys / mem;
    if d < now {
      Times(d + 1, now, mem);
    }
  }

  /** The response comes right after memory cycle `resp`: its system cycle is the last that starts
      by the end of that cycle, so it is in the next memory cycle, or in the one after it if the
      two clocks tick together. */
  lemma DoneIsNext(sys: nat, mem: nat, resp: nat)
    requires ClockOk(sys, mem)
    ensures MemToSys(sys, mem, resp) * mem <= (resp + 1) * sys < (MemToSys(sys, mem, resp) + 1) * mem
    ensures resp + 1 <= SysToMem(sys, mem, MemToSys(sys, mem, resp)) <= resp + 2
    ensures SysToMem(sys, mem, MemToSys(sys, mem, resp)) == resp + 2 <==>
              MemToSys(sys, mem, resp) * mem == (resp + 1) * sys
  {
    var d := MemToSys(sys, mem, resp);
    Divide((resp + 1) * sys, mem);
    assert (d + 1) * mem == d * mem + mem;
    assert (resp + 1) * sys == resp * sys + sys;
    assert (resp + 2) * sys == (resp + 1) * sys + sys;
    if d * mem == (resp + 1) * sys {
      Quotient(d * mem, sys, resp + 1);
    } else {
      Quotient(d * mem, sys, resp);
    }
  }
}
