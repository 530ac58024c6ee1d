/**
 A request queue of the DDR controller together with the bank queues of its requests. Every
 request is in both; the request queue keeps them in the order they were queued.
 */
module RequestPool {
  import opened DdrTiming
  import BankQueue

  datatype Pool = Pool(queue: seq<Request>, banks: seq<seq<Request>>)

  /** The request is the first of its bank. */
  predicate IsFirst(p: Pool, r: Request) {
    r.bank < |p.banks| && p.banks[r.bank] != [] && p.banks[r.bank][0] == r
  }

  ghost predicate InBank(p: Pool, r: Request) {
    r.bank < |p.banks| && r in p.banks[r.bank]
  }

  ghost predicate BankOk(p: Pool, limit: nat, b: nat)
    requires b < |p.banks|
  {
    && BankQueue.QueueOk(p.banks[b], limit) && BankQueue.InOrder(p.banks[b]) && BankQueue.DistinctIds(p.banks[b])
    && forall r :: r in p.banks[b] ==> r.bank == b && r in p.queue
  }

  /** `nextId` is above the id of every request. */
  ghost predicate PoolOk(p: Pool, limit: nat, nextId: nat) {
    && (forall r :: r in p.queue ==> InBank(p, r) && r.id < nextId)
    && BankQueue.DistinctIds(p.queue)
    && (forall b: nat :: b < |p.banks| ==> BankOk(p, limit, b))
  }

  /** The request with its number in the sequence of row hits. */
  function Tagged(p: Pool, bank: Bank, limit: nat, r: Request): Request
    requires r.bank < |p.banks|
  {
    r.(rowHitSeq := BankQueue.HitSeq(p.banks[r.bank], bank, limit, r))
  }

  function Add(p: Pool, bank: Bank, limit: nat, r: Request): Pool
    requires r.bank < |p.banks|
  {
    Pool(p.queue + [Tagged(p, bank, limit, r)],
         p.banks[r.bank := BankQueue.Enqueued(p.banks[r.bank], bank, limit, r)])
  }

  lemma AddOk(p: Pool, bank: Bank, limit: nat, r: Request)
    requires PoolOk(p, limit, r.id) && r.bank < |p.banks|
    ensures PoolOk(Add(p, bank, limit, r), limit, r.id + 1)
  {
    hide BankQueue.QueueOk, BankQueue.InOrder, BankQueue.DistinctIds;
    hide BankQueue.InsertAt, BankQueue.Position, BankQueue.HitSeq;
    var p', r' := Add(p, bank, limit, r), Tagged(p, bank, limit, r);
    var q := p.banks[r.bank];
    assert BankOk(p, limit, r.bank);
    BankQueue.EnqueuedOk(q, bank, limit, r);
    assert forall i :: 0 <= i < |q| ==> q[i].id < r.id by {
      assert forall i :: 0 <= i < |q| ==> q[i] in q && q[i] in p.queue;
    }
    BankQueue.EnqueuedInOrder(q, bank, limit, r);
    AppendDistinct(p.queue, r');
    assert forall x :: x in p'.banks[r.bank] <==> x in q || x == r' by {
      assert forall x :: x in p'.banks[r.bank] <==> x in multiset(p'.banks[r.bank]);
    }
    forall b: nat | b < |p'.banks|
      ensures BankOk(p', limit, b)
    {
      assert BankOk(p, limit, b);
    }
    forall x | x in p'.queue
      ensures InBank(p', x) && x.id < r.id + 1
    {
      assert x in p.queue ==> InBank(p, x);
    }
  }

  lemma AppendDistinct(q: seq<Request>, r: Request)
    requires BankQueue.DistinctIds(q) && forall x :: x in q ==> x.id < r.id
    ensures BankQueue.DistinctIds(q + [r])
  {
    assert forall i :: 0 <= i < |q| ==> q[i] in q;
  }

  /** Take the first of a bank out; it is the `k`-th of the request queue. */
  function Take(p: Pool, k: nat): Pool
    requires k < |p.queue| && IsFirst(p, p.queue[k])
  {
    var b := p.queue[k].bank;
    Pool(p.queue[..k] + p.queue[k + 1..], p.banks[b := p.banks[b][1..]])
  }

  lemma TakeOk(p: Pool, limit: nat, nextId: nat, k: nat)
    requires PoolOk(p, limit, nextId) && k < |p.queue| && IsFirst(p, p.queue[k])
    ensures PoolOk(Take(p, k), limit, nextId)
  {
    hide BankQueue.QueueOk, BankQueue.InOrder, BankQueue.DistinctIds;
    var p', r := Take(p, k), p.queue[k];
    var q := p.banks[r.bank];
    assert BankOk(p, limit, r.bank);
    BankQueue.ServedOk(q, limit);
    BankQueue.ServedInOrder(q);
    RemoveDistinct(p.queue, k);
    HeadDistinct(q);
    forall b: nat | b < |p'.banks|
      ensures BankOk(p', limit, b)
    {
      assert BankOk(p, limit, b);
    }
    forall x | x in p'.queue
      ensures InBank(p', x) && x.id < nextId
    {
      assert InBank(p, x);
    }
  }

  lemma RemoveDistinct(q: seq<Request>, k: nat)
    requires BankQueue.DistinctIds(q) && k < |q|
    ensures BankQueue.DistinctIds(q[..k] + q[k + 1..])
    ensures forall x :: x in q[..k] + q[k + 1..] <==> x in q && x != q[k]
  {
    var q' := q[..k] + q[k + 1..];
    assert forall i :: 0 <= i < |q'| ==> q'[i] == if i < k then q[i] else q[i + 1];
    forall x | x in q && x != q[k]
      ensures x in q'
    {
      var i :| 0 <= i < |q| && q[i] == x;
      assert q'[if i < k then i else i - 1] == x;
    }
  }

  lemma HeadDistinct(q: seq<Request>)
    requires BankQueue.DistinctIds(q) && q != []
    ensures forall x :: x in q[1..] <==> x in q && x != q[0]
  {
    RemoveDistinct(q, 0);
    assert q[..0] + q[1..] == q[1..];
  }

  /** A pool with requests has one that is the first of its bank. */
  lemma SomeFirst(p: Pool, limit: nat, nextId: nat)
    requires PoolOk(p, limit, nextId) && p.queue != []
    ensures exists i :: 0 <= i < |p.queue| && IsFirst(p, p.queue[i])
  {
    var r := p.queue[0];
    assert InBank(p, r) && BankOk(p, limit, r.bank);
    var h := p.banks[r.bank][0];
    assert h in p.banks[r.bank];
    var i :| 0 <= i < |p.queue| && p.queue[i] == h;
    assert IsFirst(p, p.queue[i]);
  }
}
