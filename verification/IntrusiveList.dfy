/**
 The intrusive doubly linked list under the DDR bank queues, and the insertion that walks it.
 The links live in the requests; `prev == null` is how the scheduler knows that a request is
 the first of its bank.
 */
module IntrusiveList {
  import opened Sequences
  import opened DdrTiming
  import BankQueue

  class Node {
    var next: Node?
    var prev: Node?
    var owner: InList?
    var req: Request

    constructor (req: Request)
      ensures next == null && prev == null && owner == null && this.req == req
    {
      next, prev, owner := null, null, null;
      this.req := req;
    }
  }

  /** The node at index `i`, or null past either end. */
  ghost function At(nodes: seq<Node>, i: int): Node? {
    if 0 <= i < |nodes| then nodes[i] else null
  }

  lemma Differ(nodes: seq<Node>, i: nat)
    requires Distinct(nodes) && i < |nodes|
    ensures forall j :: 0 <= j < |nodes| && j != i ==> nodes[j] != nodes[i]
  {
  }

  lemma DistinctInserted(nodes: seq<Node>, k: nat, e: Node)
    requires Distinct(nodes) && k <= |nodes| && e !in nodes
    ensures Distinct(nodes[..k] + [e] + nodes[k..])
  {
    var nodes' := nodes[..k] + [e] + nodes[k..];
    assert forall i :: 0 <= i < |nodes'| ==>
      nodes'[i] == if i < k then nodes[i] else if i == k then e else nodes[i - 1];
  }

  lemma DistinctRemoved(nodes: seq<Node>, k: nat)
    requires Distinct(nodes) && k < |nodes|
    ensures Distinct(nodes[..k] + nodes[k + 1..])
  {
    var nodes' := nodes[..k] + nodes[k + 1..];
    assert forall i :: 0 <= i < |nodes'| ==> nodes'[i] == if i < k then nodes[i] else nodes[i + 1];
  }

  ghost predicate Linked(list: InList, nodes: seq<Node>, i: nat)
    requires i < |nodes|
    reads nodes[i]
  {
    nodes[i].owner == list && nodes[i].prev == At(nodes, i - 1) && nodes[i].next == At(nodes, i + 1)
  }

  lemma AtInserted(nodes: seq<Node>, k: nat, e: Node, i: int)
    requires k < |nodes|
    ensures At(nodes[..k + 1] + [e] + nodes[k + 1..], i)
            == if i <= k then At(nodes, i) else if i == k + 1 then e else At(nodes, i - 1)
  {
  }

  lemma AtRemoved(nodes: seq<Node>, k: nat, i: int)
    requires k < |nodes|
    ensures At(nodes[..k] + nodes[k + 1..], i) == if i < k then At(nodes, i) else At(nodes, i + 1)
  {
  }

  /** The links of a node once `e` has been put behind the `k`-th. */
  ghost predicate Relinked(list: InList, nodes: seq<Node>, k: nat, e: Node, i: nat)
    requires i < |nodes|
    reads nodes[i]
  {
    && nodes[i].owner == list
    && nodes[i].prev == (if i == k + 1 then e else At(nodes, i - 1))
    && nodes[i].next == (if i == k then e else At(nodes, i + 1))
  }

  lemma LinkedInserted(list: InList, nodes: seq<Node>, k: nat, e: Node)
    requires k < |nodes| && forall i: nat :: i < |nodes| ==> Relinked(list, nodes, k, e, i)
    requires e.owner == list && e.prev == nodes[k] && e.next == At(nodes, k + 1)
    ensures var nodes' := nodes[..k + 1] + [e] + nodes[k + 1..];
            forall i: nat :: i < |nodes'| ==> Linked(list, nodes', i)
  {
    var nodes' := nodes[..k + 1] + [e] + nodes[k + 1..];
    assert At(nodes, k) == nodes[k];
    hide At;
    forall i: nat | i < |nodes'|
      ensures Linked(list, nodes', i)
    {
      AtInserted(nodes, k, e, i - 1);
      AtInserted(nodes, k, e, i + 1);
      if i <= k {
        assert nodes'[i] == nodes[i] && Relinked(list, nodes, k, e, i);
      } else if i > k + 1 {
        assert nodes'[i] == nodes[i - 1] && Relinked(list, nodes, k, e, i - 1);
      }
    }
  }

  /** The links of a node once the `k`-th has been taken out. */
  ghost predicate Bypassed(list: InList, nodes: seq<Node>, k: nat, i: nat)
    requires i < |nodes|
    reads nodes[i]
  {
    && nodes[i].owner == list
    && nodes[i].prev == At(nodes, if i == k + 1 then k - 1 else i - 1)
    && nodes[i].next == At(nodes, if i == k - 1 then k + 1 else i + 1)
  }

  lemma LinkedRemoved(list: InList, nodes: seq<Node>, k: nat)
    requires k < |nodes| && forall i: nat :: i < |nodes| && i != k ==> Bypassed(list, nodes, k, i)
    ensures var nodes' := nodes[..k] + nodes[k + 1..];
            forall i: nat :: i < |nodes'| ==> Linked(list, nodes', i)
  {
    var nodes' := nodes[..k] + nodes[k + 1..];
    hide At;
    forall i: nat | i < |nodes'|
      ensures Linked(list, nodes', i)
    {
      AtRemoved(nodes, k, i - 1);
      AtRemoved(nodes, k, i + 1);
      if i < k {
        assert nodes'[i] == nodes[i] && Bypassed(list, nodes, k, i);
      } else {
        assert nodes'[i] == nodes[i + 1] && Bypassed(list, nodes, k, i + 1);
      }
    }
  }

  lemma AtIs(nodes: seq<Node>, i: int)
    ensures At(nodes, i) == null <==> !(0 <= i < |nodes|)
    ensures 0 <= i < |nodes| ==> At(nodes, i) == nodes[i]
  {
  }

  class InList {
    var head: Node?
    var tail: Node?
    var elems: nat
    ghost var nodes: seq<Node>

    ghost predicate Valid()
      reads this, nodes
    {
      && head == At(nodes, 0) && tail == At(nodes, |nodes| - 1) && elems == |nodes|
      && Distinct(nodes)
      && (forall i: nat :: i < |nodes| ==> Linked(this, nodes, i))
    }

    ghost function Contents(): (c: seq<Request>)
      reads this, nodes
    {
      seq(|nodes|, i requires 0 <= i < |nodes| reads this, nodes => nodes[i].req)
    }

    constructor ()
      ensures Valid() && nodes == []
    {
      head, tail, elems := null, null, 0;
      nodes := [];
    }

    /** A node of the list is first exactly if it has no predecessor. */
    lemma FirstHasNoPrev(i: nat)
      requires Valid() && i < |nodes|
      ensures nodes[i].prev == null <==> i == 0
    {
      assert Linked(this, nodes, i);
    }

    method PushFront(e: Node)
      requires Valid() && e.next == null && e.prev == null && e.owner == null
      modifies this, e, nodes
      ensures Valid() && nodes == [e] + old(nodes)
      ensures forall n :: n in nodes ==> n.req == old(n.req)
    {
      hide Distinct;
      ghost var before := nodes;
      assert forall i: nat :: i < |before| ==> Linked(this, before, i) && before[i] != e;
      if head == null {
        head, tail := e, e;
      } else {
        Differ(before, 0);
        e.next := head;
        head.prev := e;
        head := e;
      }
      e.owner := this;
      elems := elems + 1;
      nodes := [e] + nodes;
      DistinctInserted(before, 0, e);
      assert nodes == before[..0] + [e] + before[0..];
      forall i: nat | i < |nodes|
        ensures Linked(this, nodes, i)
      {
        if i > 0 {
          assert nodes[i] == before[i - 1] && old(Linked(this, nodes, i - 1));
        }
      }
    }

    method PushBack(e: Node)
      requires Valid() && e.next == null && e.prev == null && e.owner == null
      modifies this, e, nodes
      ensures Valid() && nodes == old(nodes) + [e]
      ensures forall n :: n in nodes ==> n.req == old(n.req)
    {
      if head == null {
        head, tail := e, e;
        e.owner := this;
        elems := elems + 1;
        nodes := nodes + [e];
      } else {
        InsertAfter(tail, e, |nodes| - 1);
      }
    }

    /** `k` is where `p` is; the source's assertions about `p` follow. */
    method InsertAfter(p: Node, e: Node, ghost k: nat)
      requires Valid() && k < |nodes| && nodes[k] == p
      requires e.next == null && e.prev == null && e.owner == null
      modifies this, e, nodes
      ensures Valid() && nodes == old(nodes)[..k + 1] + [e] + old(nodes)[k + 1..]
      ensures forall n :: n in nodes ==> n.req == old(n.req)
    {
      hide Distinct, At;
      ghost var before := nodes;
      AtIs(before, k + 1);
      AtIs(before, |before| - 1);
      AtIs(before, 0);
      assert Linked(this, before, k) && p.owner == this;
      assert k + 1 < |before| ==> Linked(this, before, k + 1);
      assert forall i: nat :: i < |before| ==> Linked(this, before, i) && before[i] != e;
      Differ(before, k);
      if p.next != null {
        Differ(before, k + 1);
        AtIs(before, k);
        assert p.next.prev == p;
        p.next.prev := e;
        e.next := p.next;
      }
      p.next := e;
      e.prev := p;
      e.owner := this;
      if p == tail {
        tail := e;
      }
      elems := elems + 1;
      forall i: nat | i < |before|
        ensures Relinked(this, before, k, e, i)
      {
        assert old(Linked(this, nodes, i));
      }
      LinkedInserted(this, before, k, e);
      DistinctInserted(before, k + 1, e);
      nodes := nodes[..k + 1] + [e] + nodes[k + 1..];
      AtInserted(before, k, e, 0);
      AtInserted(before, k, e, |before|);
      AtIs(before, |before| - 1);
    }

    /** Take a node out, wherever it is. */
    method Remove(e: Node, ghost k: nat)
      requires Valid() && k < |nodes| && nodes[k] == e
      modifies this, nodes
      ensures Valid() && nodes == old(nodes)[..k] + old(nodes)[k + 1..]
      ensures e.next == null && e.prev == null && e.owner == null
      ensures forall n :: n in old(nodes) ==> n.req == old(n.req)
    {
      hide Distinct, At;
      ghost var before := nodes;
      AtIs(before, k + 1);
      AtIs(before, k - 1);
      AtIs(before, 0);
      AtIs(before, |before| - 1);
      assert forall i: nat :: i < |before| ==> Linked(this, before, i);
      assert Linked(this, before, k);
      Differ(before, k);
      if e == head {
        head := e.next;
      }
      if e == tail {
        tail := e.prev;
      }
      if e.next != null {
        Differ(before, k + 1);
        e.next.prev := e.prev;
      }
      if e.prev != null {
        Differ(before, k - 1);
        e.prev.next := e.next;
      }
      e.next, e.prev, e.owner := null, null, null;
      elems := elems - 1;
      forall i: nat | i < |before| && i != k
        ensures Bypassed(this, before, k, i)
      {
        assert old(Linked(this, nodes, i));
      }
      LinkedRemoved(this, before, k);
      DistinctRemoved(before, k);
      nodes := nodes[..k] + nodes[k + 1..];
      AtRemoved(before, k, 0);
      AtRemoved(before, k, |before| - 2);
    }

    method PopFront()
      requires Valid()
      modifies this, nodes
      ensures Valid() && nodes == if old(nodes) == [] then [] else old(nodes)[1..]
      ensures forall n :: n in old(nodes) ==> n.req == old(n.req)
    {
      if head != null {
        Remove(head, 0);
      }
    }
  }

  /** The walk from the back finds the last request for the row. */
  lemma LastIs(c: seq<Request>, row: nat, k: int)
    requires -1 <= k < |c| && (k >= 0 ==> c[k].row == row) && forall i :: k < i < |c| ==> c[i].row != row
    ensures BankQueue.LastOfRow(c, row, |c|) == k
  {
  }

  /** The requests of the nodes, once one more has been put in at `p`. */
  lemma ContentsInserted(before: seq<Node>, c: seq<Request>, p: nat, e: Node, after: seq<Node>, c': seq<Request>)
    requires |c| == |before| && p <= |before| && after == before[..p] + [e] + before[p..] && |c'| == |after|
    requires forall i :: 0 <= i < |before| ==> c[i] == before[i].req
    requires forall i :: 0 <= i < |after| ==> c'[i] == after[i].req
    ensures c' == BankQueue.InsertAt(c, p, e.req)
  {
    assert forall i :: 0 <= i < |after| ==>
      after[i] == if i < p then before[i] else if i == p then e else before[i - 1];
  }

  /** The requests of the nodes. */
  ghost predicate Carry(nodes: seq<Node>, c: seq<Request>)
    reads nodes
  {
    |c| == |nodes| && forall i :: 0 <= i < |c| ==> c[i] == nodes[i].req
  }

  /** The walk: from the back, the first node with the row, or null. */
  method FindLast(q: InList, row: nat, ghost c: seq<Request>) returns (m: Node?, ghost k: int)
    requires q.Valid() && Carry(q.nodes, c)
    ensures -1 <= k < |q.nodes| && m == (if k < 0 then null else q.nodes[k])
    ensures k == BankQueue.LastOfRow(c, row, |c|)
  {
    hide Distinct;
    k := |q.nodes| - 1;
    m := q.tail;
    while m != null && m.req.row != row
      invariant -1 <= k < |q.nodes| && m == (if k < 0 then null else q.nodes[k])
      invariant forall i :: k < i < |c| ==> c[i].row != row
      decreases k
    {
      assert Linked(q, q.nodes, k);
      m := m.prev;
      k := k - 1;
    }
    LastIs(c, row, k);
  }

  lemma NotInList(q: InList, e: Node)
    requires q.Valid() && e.owner != q
    ensures e !in q.nodes && (q.head == null <==> q.nodes == [])
  {
    forall i: nat | i < |q.nodes|
      ensures q.nodes[i] != e
    {
      assert Linked(q, q.nodes, i);
    }
  }

  /** Give a request its hit number and link it where it belongs. */
  method LinkRequest(q: InList, e: Node, bank: Bank, limit: nat, ghost c: seq<Request>)
    requires q.Valid() && Carry(q.nodes, c) && e.next == null && e.prev == null && e.owner == null
    modifies q, e, q.nodes
    ensures q.Valid() && e.req == old(e.req).(rowHitSeq := BankQueue.HitSeq(c, bank, limit, old(e.req)))
    ensures var p := BankQueue.Position(c, limit, old(e.req));
            p <= |old(q.nodes)| && q.nodes == old(q.nodes)[..p] + [e] + old(q.nodes)[p..]
    ensures forall n :: n in old(q.nodes) ==> n.req == old(n.req)
  {
    hide InList.Valid, BankQueue.LastOfRow;
    NotInList(q, e);
    var m;
    ghost var k;
    m, k := FindLast(q, e.req.row, c);
    if m != null {
      if m.req.rowHitSeq < limit {
        e.req := e.req.(rowHitSeq := m.req.rowHitSeq + 1);
        q.InsertAfter(m, e, k);
      } else {
        e.req := e.req.(rowHitSeq := 0);
        q.PushBack(e);
      }
    } else if RowHit(bank, e.req) && bank.curRowHits < limit && q.head == null {
      e.req := e.req.(rowHitSeq := bank.curRowHits + 1);
      q.PushFront(e);
    } else {
      e.req := e.req.(rowHitSeq := 0);
      q.PushBack(e);
    }
  }

  /** Put a request into its bank's queue. */
  method Queue(q: InList, e: Node, bank: Bank, limit: nat)
    requires q.Valid() && e.next == null && e.prev == null && e.owner == null
    modifies q, e, q.nodes
    ensures q.Valid() && e in q.nodes
    ensures q.Contents() == BankQueue.Enqueued(old(q.Contents()), bank, limit, old(e.req))
  {
    hide InList.Valid, BankQueue.InsertAt, BankQueue.LastOfRow, BankQueue.Position, BankQueue.HitSeq;
    ghost var c, before, r := q.Contents(), q.nodes, e.req;
    NotInList(q, e);
    LinkRequest(q, e, bank, limit, c);
    ContentsInserted(before, c, BankQueue.Position(c, limit, r), e, q.nodes, q.Contents());
  }
}
