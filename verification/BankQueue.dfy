/**
 The per-bank request queues of the DDR controller. A request that hits a row someone already
 waits for goes behind the last of them (first ready), until the row has had its share of
 hits; everything else goes to the back (first come, first served).
 */
module BankQueue {
  import opened DdrTiming

  /** The last request for `row` among the first `n`, or -1. */
  function LastOfRow(q: seq<Request>, row: nat, n: nat): (k: int)
    requires n <= |q|
    ensures -1 <= k < n
    ensures k >= 0 ==> q[k].row == row
    ensures forall i :: k < i < n ==> q[i].row != row
  {
    if n == 0 then -1 else if q[n - 1].row == row then n - 1 else LastOfRow(q, row, n - 1)
  }

  /** Where a new request goes. */
  function Position(q: seq<Request>, limit: nat, r: Request): (p: nat)
    ensures p <= |q|
  {
    var k := LastOfRow(q, r.row, |q|);
    if k >= 0 && q[k].rowHitSeq < limit then k + 1 else |q|
  }

  /** Its place in the sequence of row hits. */
  function HitSeq(q: seq<Request>, bank: Bank, limit: nat, r: Request): nat {
    var k := LastOfRow(q, r.row, |q|);
    if k >= 0 then
      if q[k].rowHitSeq < limit then q[k].rowHitSeq + 1 else 0
    else if RowHit(bank, r) && bank.curRowHits < limit && q == [] then bank.curRowHits + 1
    else 0
  }

  function InsertAt(q: seq<Request>, p: nat, r: Request): (q': seq<Request>)
    requires p <= |q|
    ensures |q'| == |q| + 1 && multiset(q') == multiset(q) + multiset{r}
  {
    assert q == q[..p] + q[p..];
    q[..p] + [r] + q[p..]
  }

  function Enqueued(q: seq<Request>, bank: Bank, limit: nat, r: Request): seq<Request> {
    InsertAt(q, Position(q, limit, r), r.(rowHitSeq := HitSeq(q, bank, limit, r)))
  }

  // ------------------------------------------------------------ groups of row hits

  predicate LinkOk(a: Request, b: Request) {
    b.rowHitSeq != 0 ==> b.row == a.row && b.rowHitSeq == a.rowHitSeq + 1
  }

  /** The queue is a concatenation of groups: within a group all requests are for one row and
      their hit numbers are consecutive, up to the limit. */
  ghost predicate QueueOk(q: seq<Request>, limit: nat) {
    && (forall i :: 0 <= i < |q| ==> q[i].rowHitSeq <= limit)
    && (forall i :: 0 < i < |q| ==> LinkOk(q[i - 1], q[i]))
  }

  /** Requests for one row are in the order they arrived. */
  ghost predicate InOrder(q: seq<Request>) {
    forall i, j :: 0 <= i < j < |q| && q[i].row == q[j].row ==> q[i].id < q[j].id
  }

  ghost predicate DistinctIds(q: seq<Request>) {
    forall i, j :: 0 <= i < j < |q| ==> q[i].id != q[j].id
  }

  lemma EnqueuedOk(q: seq<Request>, bank: Bank, limit: nat, r: Request)
    requires QueueOk(q, limit)
    ensures QueueOk(Enqueued(q, bank, limit, r), limit)
  {
    hide LastOfRow;
    var p := Position(q, limit, r);
    var q' := Enqueued(q, bank, limit, r);
    forall i | 0 < i < |q'|
      ensures LinkOk(q'[i - 1], q'[i])
    {
      if i < p {
        assert LinkOk(q[i - 1], q[i]);
      } else if i > p + 1 {
        assert LinkOk(q[i - 2], q[i - 1]);
      } else if i == p + 1 && p > 0 {
        assert LinkOk(q[p - 1], q[p]);
      }
    }
  }

  lemma InsertedInOrder(q: seq<Request>, p: nat, r: Request)
    requires InOrder(q) && p <= |q|
    requires forall i :: 0 <= i < |q| ==> q[i].id < r.id
    requires forall i :: p <= i < |q| ==> q[i].row != r.row
    ensures InOrder(InsertAt(q, p, r))
  {
    var q' := InsertAt(q, p, r);
    assert forall i :: 0 <= i < |q'| ==> q'[i] == if i < p then q[i] else if i == p then r else q[i - 1];
  }

  lemma InsertedDistinct(q: seq<Request>, p: nat, r: Request)
    requires DistinctIds(q) && p <= |q|
    requires forall i :: 0 <= i < |q| ==> q[i].id != r.id
    ensures DistinctIds(InsertAt(q, p, r))
  {
    var q' := InsertAt(q, p, r);
    assert forall i :: 0 <= i < |q'| ==> q'[i] == if i < p then q[i] else if i == p then r else q[i - 1];
  }

  lemma EnqueuedInOrder(q: seq<Request>, bank: Bank, limit: nat, r: Request)
    requires InOrder(q) && DistinctIds(q) && forall i :: 0 <= i < |q| ==> q[i].id < r.id
    ensures InOrder(Enqueued(q, bank, limit, r)) && DistinctIds(Enqueued(q, bank, limit, r))
  {
    hide InsertAt, InOrder, DistinctIds, Position, HitSeq;
    NoneBehind(q, limit, r);
    var p, r' := Position(q, limit, r), r.(rowHitSeq := HitSeq(q, bank, limit, r));
    InsertedInOrder(q, p, r');
    InsertedDistinct(q, p, r');
  }

  lemma NoneBehind(q: seq<Request>, limit: nat, r: Request)
    ensures forall i :: Position(q, limit, r) <= i < |q| ==> q[i].row != r.row
  {
  }

  lemma ServedOk(q: seq<Request>, limit: nat)
    requires q != [] && QueueOk(q, limit)
    ensures QueueOk(q[1..], limit)
  {
    forall i | 0 < i < |q[1..]|
      ensures LinkOk(q[1..][i - 1], q[1..][i])
    {
      assert LinkOk(q[i], q[i + 1]);
    }
  }

  /** The row stays open, under the closed-page policy, only for a request that hits it. */
  lemma KeptOpenForAHit(q: seq<Request>, limit: nat)
    requires QueueOk(q, limit) && |q| > 1 && q[1].rowHitSeq != 0
    ensures q[1].row == q[0].row
  {
    assert LinkOk(q[0], q[1]);
  }

  /** No more than `limit` + 1 requests in a row ride on one group. */
  lemma {:induction false} GroupIsShort(q: seq<Request>, limit: nat, i: nat, n: nat)
    requires QueueOk(q, limit) && i + n < |q|
    requires forall k :: i < k <= i + n ==> q[k].rowHitSeq != 0
    ensures q[i + n].rowHitSeq == q[i].rowHitSeq + n && n <= limit && q[i + n].row == q[i].row
  {
    if n > 0 {
      GroupIsShort(q, limit, i, n - 1);
      assert LinkOk(q[i + n - 1], q[i + n]);
    }
  }

  // ------------------------------------------------------------ where a request goes

  /** A request for a row somebody waits for goes right behind the last of them, as the next hit,
      as long as the row has hits left. */
  lemma JoinsItsRow(q: seq<Request>, bank: Bank, limit: nat, r: Request, k: nat)
    requires k < |q| && q[k].row == r.row && q[k].rowHitSeq < limit && forall i :: k < i < |q| ==> q[i].row != r.row
    ensures Enqueued(q, bank, limit, r)
            == q[..k + 1] + [r.(rowHitSeq := q[k].rowHitSeq + 1)] + q[k + 1..]
  {
    assert LastOfRow(q, r.row, |q|) == k;
  }

  /** Any other goes last. Its hits count from 0, unless it finds its row open and nobody waiting:
      then they count on. */
  lemma GoesLast(q: seq<Request>, bank: Bank, limit: nat, r: Request)
    requires forall k :: 0 <= k < |q| && q[k].row == r.row && (forall i :: k < i < |q| ==> q[i].row != r.row) ==>
               q[k].rowHitSeq >= limit
    ensures Enqueued(q, bank, limit, r)
            == q + [r.(rowHitSeq := if q == [] && bank.open && bank.openRow == r.row && bank.curRowHits < limit
                                    then bank.curRowHits + 1 else 0)]
  {
  }

  /** `i` is the last request for the row before position `j`. */
  predicate LastBefore(q: seq<Request>, row: nat, i: nat, j: nat)
    requires j <= |q|
  {
    i < j && q[i].row == row && forall k :: i < k < j ==> q[k].row != row
  }

  /** A row starts a new group only when its last one is full. */
  ghost predicate GroupsFull(q: seq<Request>, limit: nat) {
    forall i: nat, j: nat :: i < j < |q| && LastBefore(q, q[j].row, i, j) && q[j].rowHitSeq == 0 ==>
      q[i].rowHitSeq >= limit
  }

  lemma EnqueuedFillsGroups(q: seq<Request>, bank: Bank, limit: nat, r: Request)
    requires GroupsFull(q, limit)
    ensures GroupsFull(Enqueued(q, bank, limit, r), limit)
  {
    hide InsertAt, HitSeq, Position, LastBefore;
    var p, n := Position(q, limit, r), HitSeq(q, bank, limit, r);
    var q' := Enqueued(q, bank, limit, r);
    forall i: nat, j: nat | i < j < |q'| && LastBefore(q', q'[j].row, i, j) && q'[j].rowHitSeq == 0
      ensures q'[i].rowHitSeq >= limit
    {
      PlacedBehind(q, bank, limit, r);
      LastBeforeInserted(q, p, r.(rowHitSeq := n), i, j);
      if j == p {
        FullBefore(q, bank, limit, r, i);
      }
    }
  }

  lemma PlacedBehind(q: seq<Request>, bank: Bank, limit: nat, r: Request)
    ensures forall i :: Position(q, limit, r) <= i < |q| ==> q[i].row != r.row
  {
  }

  lemma FullBefore(q: seq<Request>, bank: Bank, limit: nat, r: Request, i: nat)
    requires LastBefore(q, r.row, i, |q|) && HitSeq(q, bank, limit, r) == 0
    ensures q[i].rowHitSeq >= limit
  {
    assert LastOfRow(q, r.row, |q|) == i;
  }

  /** The last before the newcomer is the last of all, and the others keep theirs. */
  lemma LastBeforeInserted(q: seq<Request>, p: nat, r: Request, i: nat, j: nat)
    requires p <= |q| && forall k :: p <= k < |q| ==> q[k].row != r.row
    requires var q' := InsertAt(q, p, r); j < |q'| && LastBefore(q', q'[j].row, i, j)
    ensures var q' := InsertAt(q, p, r);
            if j == p then q'[j] == r && LastBefore(q, r.row, i, |q|) && q'[i] == q[i]
            else
              var a, b := if i < p then i else i - 1, if j < p then j else j - 1;
              i != p && b < |q| && 0 <= a && q'[j] == q[b] && q'[i] == q[a] && LastBefore(q, q[b].row, a, b)
  {
    var q' := InsertAt(q, p, r);
    assert forall k :: 0 <= k < |q'| ==> q'[k] == if k < p then q[k] else if k == p then r else q[k - 1];
    if j == p {
      forall k | i < k < |q|
        ensures q[k].row != r.row
      {
        assert k < p ==> q'[k] == q[k];
      }
    } else {
      var b := if j < p then j else j - 1;
      var a := if i < p then i else i - 1;
      forall k | a < k < b
        ensures q[k].row != q[b].row
      {
        assert q'[if k < p then k else k + 1] == q[k];
      }
    }
  }

  lemma ServedKeepsGroups(q: seq<Request>, limit: nat)
    requires q != [] && GroupsFull(q, limit)
    ensures GroupsFull(q[1..], limit)
  {
    var q' := q[1..];
    forall i: nat, j: nat | j < |q'| && LastBefore(q', q'[j].row, i, j) && q'[j].rowHitSeq == 0
      ensures q'[i].rowHitSeq >= limit
    {
      forall k | i + 1 < k < j + 1
        ensures q[k].row != q[j + 1].row
      {
        assert q'[k - 1] == q[k];
      }
      assert LastBefore(q, q[j + 1].row, i + 1, j + 1);
    }
  }

  /** The hits on one row keep counting from the request served last to those that wait, so that
      no more than `limit` follow one another. */
  lemma CountsOn(last: Request, q: seq<Request>, bank: Bank, limit: nat, r: Request)
    requires QueueOk([last] + q, limit) && bank.curRowHits == last.rowHitSeq && (bank.open ==> bank.openRow == last.row)
    ensures QueueOk([last] + Enqueued(q, bank, limit, r), limit)
  {
    hide QueueOk, LinkOk, Enqueued;
    ChainParts(last, q, limit);
    EnqueuedOk(q, bank, limit, r);
    FirstLinks(last, q, bank, limit, r);
    ChainOk(last, Enqueued(q, bank, limit, r), limit);
  }

  lemma ChainParts(last: Request, q: seq<Request>, limit: nat)
    requires QueueOk([last] + q, limit)
    ensures QueueOk(q, limit) && last.rowHitSeq <= limit && (q != [] ==> LinkOk(last, q[0]))
  {
    var full := [last] + q;
    assert full[0] == last && forall i :: 0 <= i < |q| ==> full[i + 1] == q[i];
    forall i | 0 < i < |q|
      ensures LinkOk(q[i - 1], q[i])
    {
      assert LinkOk(full[i], full[i + 1]);
    }
    assert q != [] ==> LinkOk(full[0], full[1]);
  }

  lemma ChainOk(last: Request, q: seq<Request>, limit: nat)
    requires QueueOk(q, limit) && last.rowHitSeq <= limit && (q != [] ==> LinkOk(last, q[0]))
    ensures QueueOk([last] + q, limit)
  {
    var full := [last] + q;
    forall i | 0 < i < |full|
      ensures LinkOk(full[i - 1], full[i])
    {
      if i > 1 {
        assert LinkOk(q[i - 2], q[i - 1]);
      }
    }
  }

  lemma FirstLinks(last: Request, q: seq<Request>, bank: Bank, limit: nat, r: Request)
    requires bank.curRowHits == last.rowHitSeq && (bank.open ==> bank.openRow == last.row)
    requires q != [] ==> LinkOk(last, q[0])
    ensures Enqueued(q, bank, limit, r) != [] && LinkOk(last, Enqueued(q, bank, limit, r)[0])
  {
    if q != [] {
      FirstStays(q, bank, limit, r);
    }
  }

  lemma FirstStays(q: seq<Request>, bank: Bank, limit: nat, r: Request)
    requires q != []
    ensures Enqueued(q, bank, limit, r) != [] && Enqueued(q, bank, limit, r)[0] == q[0]
  {
  }

  // ------------------------------------------------------------ overtaking

  /** The hits still allowed to the groups that end before position `p`. */
  function Slack(q: seq<Request>, limit: nat, p: nat): int
    requires p < |q|
  {
    if p == 0 then 0
    else Slack(q, limit, p - 1) + (if q[p].rowHitSeq == 0 then limit - q[p - 1].rowHitSeq else 0)
  }

  /** The number of groups that end before position `p`. */
  function GroupsAhead(q: seq<Request>, p: nat): nat
    requires p < |q|
  {
    if p == 0 then 0 else GroupsAhead(q, p - 1) + (if q[p].rowHitSeq == 0 then 1 else 0)
  }

  lemma {:induction false} SlackBound(q: seq<Request>, limit: nat, p: nat)
    requires QueueOk(q, limit) && p < |q|
    ensures 0 <= Slack(q, limit, p) <= limit * GroupsAhead(q, p)
  {
    if p > 0 {
      SlackBound(q, limit, p - 1);
      if q[p].rowHitSeq == 0 {
        assert limit * GroupsAhead(q, p) == limit * GroupsAhead(q, p - 1) + limit;
      }
    }
  }

  lemma {:induction false} SlackPrefix(q: seq<Request>, q': seq<Request>, limit: nat, p: nat)
    requires p < |q| && p < |q'| && forall i :: 0 <= i <= p ==> q[i] == q'[i]
    ensures Slack(q, limit, p) == Slack(q', limit, p)
  {
    if p > 0 {
      SlackPrefix(q, q', limit, p - 1);
    }
  }

  /** A request that goes ahead of position `p` uses up one of the hits allowed there. */
  lemma {:induction false} SlackShrinks(q: seq<Request>, bank: Bank, limit: nat, r: Request, p: nat)
    requires QueueOk(q, limit) && Position(q, limit, r) <= p < |q|
    ensures Slack(Enqueued(q, bank, limit, r), limit, p + 1) == Slack(q, limit, p) - 1
  {
    var k := Position(q, limit, r);
    var q' := Enqueued(q, bank, limit, r);
    assert LastOfRow(q, r.row, |q|) == k - 1 >= 0;
    if p == k {
      SlackPrefix(q, q', limit, k - 1);
      assert LinkOk(q[k - 1], q[k]);
      assert q'[k + 1] == q[k] && q'[k - 1] == q[k - 1] && q'[k].rowHitSeq == q[k - 1].rowHitSeq + 1;
    } else {
      SlackShrinks(q, bank, limit, r, p - 1);
      assert q'[p + 1] == q[p] && q'[p] == q[p - 1];
    }
  }

  /** Serving the head takes nothing from the bound of those behind it. */
  lemma {:induction false} SlackAfterServing(q: seq<Request>, limit: nat, p: nat)
    requires QueueOk(q, limit) && 0 < p < |q|
    ensures Slack(q[1..], limit, p - 1) <= Slack(q, limit, p)
  {
    if p > 1 {
      SlackAfterServing(q, limit, p - 1);
    }
  }

  // ------------------------------------------------------------ runs of a queue

  /** A request arrives, with the bank as it is then, or the head is served. */
  datatype Event = Arrive(r: Request, bank: Bank) | ServeHead

  ghost predicate CanHappen(q: seq<Request>, e: Event) {
    match e
    case Arrive(r, _) => forall i :: 0 <= i < |q| ==> q[i].id < r.id
    case ServeHead => q != []
  }

  ghost function After(q: seq<Request>, limit: nat, e: Event): seq<Request>
    requires CanHappen(q, e)
  {
    match e
    case Arrive(r, bank) => Enqueued(q, bank, limit, r)
    case ServeHead => q[1..]
  }

  ghost predicate IsRun(limit: nat, qs: seq<seq<Request>>, es: seq<Event>) {
    && |qs| == |es| + 1 && qs[0] == []
    && forall n :: 0 <= n < |es| ==> CanHappen(qs[n], es[n]) && qs[n + 1] == After(qs[n], limit, es[n])
  }

  /** Where request `id` is in the queue, and the queue's length if it is not there. */
  function Find(q: seq<Request>, id: nat): (p: nat)
    ensures p <= |q| && (p < |q| ==> q[p].id == id)
    ensures forall i :: 0 <= i < p ==> q[i].id != id
  {
    if q == [] then 0 else if q[0].id == id then 0 else 1 + Find(q[1..], id)
  }

  predicate Waits(q: seq<Request>, id: nat) {
    Find(q, id) < |q|
  }

  /** The event puts a newcomer ahead of request `id`. */
  predicate Overtakes(q: seq<Request>, limit: nat, e: Event, id: nat) {
    e.Arrive? && Position(q, limit, e.r) <= Find(q, id) < |q|
  }

  /** How many newcomers have gone ahead of request `id` in events `a` up to `b`. */
  ghost function Overtaken(limit: nat, qs: seq<seq<Request>>, es: seq<Event>, id: nat, a: nat, b: nat): nat
    requires a <= b <= |es| && |qs| == |es| + 1
    decreases b
  {
    if a == b then 0
    else Overtaken(limit, qs, es, id, a, b - 1) + (if Overtakes(qs[b - 1], limit, es[b - 1], id) then 1 else 0)
  }

  /** In every run the queue is grouped, requests for one row are in order, and ids are unique. */
  lemma {:induction false} RunKeepsOrder(limit: nat, qs: seq<seq<Request>>, es: seq<Event>, n: nat)
    requires IsRun(limit, qs, es) && n < |qs|
    ensures QueueOk(qs[n], limit) && InOrder(qs[n]) && DistinctIds(qs[n])
  {
    hide QueueOk, InOrder, DistinctIds, Enqueued;
    if n == 0 {
      EmptyIsOk(limit);
    } else {
      RunKeepsOrder(limit, qs, es, n - 1);
      assert qs[n - 1 + 1] == After(qs[n - 1], limit, es[n - 1]);
      match es[n - 1]
      case Arrive(r, bank) =>
        EnqueuedOk(qs[n - 1], bank, limit, r);
        EnqueuedInOrder(qs[n - 1], bank, limit, r);
      case ServeHead =>
        ServedOk(qs[n - 1], limit);
        ServedInOrder(qs[n - 1]);
    }
  }

  /** And a row starts a new group only when its last one is full. */
  lemma {:induction false} RunFillsGroups(limit: nat, qs: seq<seq<Request>>, es: seq<Event>, n: nat)
    requires IsRun(limit, qs, es) && n < |qs|
    ensures GroupsFull(qs[n], limit)
  {
    hide GroupsFull, Enqueued;
    if n == 0 {
      NoGroups(limit);
    } else {
      RunFillsGroups(limit, qs, es, n - 1);
      assert qs[n - 1 + 1] == After(qs[n - 1], limit, es[n - 1]);
      match es[n - 1]
      case Arrive(r, bank) => EnqueuedFillsGroups(qs[n - 1], bank, limit, r);
      case ServeHead => ServedKeepsGroups(qs[n - 1], limit);
    }
  }

  lemma NoGroups(limit: nat)
    ensures GroupsFull([], limit)
  {
  }

  lemma EmptyIsOk(limit: nat)
    ensures QueueOk([], limit) && InOrder([]) && DistinctIds([])
  {
  }

  lemma ServedInOrder(q: seq<Request>)
    requires q != [] && InOrder(q) && DistinctIds(q)
    ensures InOrder(q[1..]) && DistinctIds(q[1..])
  {
  }

  lemma FindIs(q: seq<Request>, id: nat, p: nat)
    requires p < |q| && q[p].id == id && forall i :: 0 <= i < p ==> q[i].id != id
    ensures Find(q, id) == p
  {
  }

  lemma FindEnqueued(q: seq<Request>, bank: Bank, limit: nat, r: Request, id: nat)
    requires Waits(q, id) && forall i :: 0 <= i < |q| ==> q[i].id < r.id
    ensures Find(Enqueued(q, bank, limit, r), id)
            == if Position(q, limit, r) <= Find(q, id) then Find(q, id) + 1 else Find(q, id)
  {
    hide Position, HitSeq;
    var k, p, q' := Position(q, limit, r), Find(q, id), Enqueued(q, bank, limit, r);
    assert forall i :: 0 <= i < |q'| && i != k ==> q'[i] == if i < k then q[i] else q[i - 1];
    FindIs(q', id, if k <= p then p + 1 else p);
  }

  lemma FindServed(q: seq<Request>, id: nat)
    requires q != [] && Waits(q, id) && Waits(q[1..], id) && DistinctIds(q)
    ensures Find(q, id) == Find(q[1..], id) + 1
  {
    assert q[1..][Find(q[1..], id)] == q[Find(q[1..], id) + 1];
  }

  /** One event: the newcomers that go ahead are paid for by the slack. */
  lemma StepSlack(q: seq<Request>, limit: nat, e: Event, id: nat)
    requires QueueOk(q, limit) && DistinctIds(q) && CanHappen(q, e) && Waits(q, id) && Waits(After(q, limit, e), id)
    ensures var q' := After(q, limit, e);
            Slack(q', limit, Find(q', id)) + (if Overtakes(q, limit, e, id) then 1 else 0)
            <= Slack(q, limit, Find(q, id))
  {
    hide Slack, Enqueued, QueueOk, DistinctIds, Position;
    var p := Find(q, id);
    match e {
      case Arrive(r, bank) =>
        FindEnqueued(q, bank, limit, r, id);
        if Position(q, limit, r) <= p {
          SlackShrinks(q, bank, limit, r, p);
        } else {
          SlackUnchanged(q, bank, limit, r, p);
        }
      case ServeHead =>
        FindServed(q, id);
        SlackAfterServing(q, limit, p);
    }
  }

  lemma SlackUnchanged(q: seq<Request>, bank: Bank, limit: nat, r: Request, p: nat)
    requires p < Position(q, limit, r) && p < |q|
    ensures Slack(Enqueued(q, bank, limit, r), limit, p) == Slack(q, limit, p)
  {
    SlackPrefix(q, Enqueued(q, bank, limit, r), limit, p);
  }

  /** While a request waits, the newcomers that have gone ahead of it and those that still can
      are no more than the slack it started with. */
  lemma {:induction false} OvertakenPaid(limit: nat, qs: seq<seq<Request>>, es: seq<Event>, id: nat, a: nat, b: nat)
    requires IsRun(limit, qs, es) && a <= b < |qs|
    requires Waits(qs[a], id) && Waits(qs[b], id) && forall n :: a <= n <= b ==> Waits(qs[n], id)
    ensures Overtaken(limit, qs, es, id, a, b) + Slack(qs[b], limit, Find(qs[b], id))
            <= Slack(qs[a], limit, Find(qs[a], id))
    decreases b
  {
    hide Slack, Find, Overtakes, QueueOk, InOrder, DistinctIds, CanHappen, After;
    if a < b {
      OvertakenPaid(limit, qs, es, id, a, b - 1);
      RunKeepsOrder(limit, qs, es, b - 1);
      assert qs[b - 1 + 1] == After(qs[b - 1], limit, es[b - 1]);
      StepSlack(qs[b - 1], limit, es[b - 1], id);
    }
  }

  /** Fairness: each group ahead of a request lets at most `limit` newcomers overtake it. */
  lemma OvertakenBound(limit: nat, qs: seq<seq<Request>>, es: seq<Event>, id: nat, a: nat, b: nat)
    requires IsRun(limit, qs, es) && a <= b < |qs|
    requires Waits(qs[a], id) && Waits(qs[b], id) && forall n :: a <= n <= b ==> Waits(qs[n], id)
    ensures Overtaken(limit, qs, es, id, a, b) <= limit * GroupsAhead(qs[a], Find(qs[a], id))
  {
    hide Slack, GroupsAhead, Overtaken, IsRun;
    OvertakenPaid(limit, qs, es, id, a, b);
    RunKeepsOrder(limit, qs, es, a);
    RunKeepsOrder(limit, qs, es, b);
    SlackBound(qs[a], limit, Find(qs[a], id));
    SlackBound(qs[b], limit, Find(qs[b], id));
  }
}
