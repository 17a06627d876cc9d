/** The singly linked lists of the firmware: nodes on the heap, the sequence of nodes a chain stands
    for, and what linking and unlinking one node does to it. */
module LinkedNodes {
  import opened Removal

  /** SEND_NODE and MSG_NODE. A node that was given back to the heap is marked freed; its fields can be
      read only while it is not. */
  class Node<T> {
    var nodeBody: T
    var pNodeNext: Node?<T>
    ghost var freed: bool

    constructor (body: T)
      ensures nodeBody == body && pNodeNext == null && !freed
    {
      nodeBody := body;
      pNodeNext := null;
      freed := false;
    }

    function Next(): Node?<T>
      requires !freed
      reads this
    {
      pNodeNext
    }

    function Body(): T
      requires !freed
      reads this
    {
      nodeBody
    }
  }

  /** The node at index i of a chain, null behind its end. */
  ghost function NodeAt<T>(nodes: seq<Node<T>>, i: nat): Node?<T> {
    if i < |nodes| then nodes[i] else null
  }

  ghost predicate Distinct<T>(nodes: seq<Node<T>>) {
    forall i, j | 0 <= i < j < |nodes| :: nodes[i] != nodes[j]
  }

  ghost predicate Linked<T>(nodes: seq<Node<T>>)
    reads nodes
  {
    && Distinct(nodes)
    && (forall i: nat {:trigger nodes[i].pNodeNext} | i < |nodes| :: nodes[i].pNodeNext == NodeAt(nodes, i + 1))
    && (forall i: nat | i < |nodes| :: !nodes[i].freed)
  }

  /** The chain goes past node i. */
  ghost predicate LinkedPast<T>(nodes: seq<Node<T>>, i: nat)
    reads nodes
  {
    && Distinct(nodes)
    && (forall k: nat {:trigger nodes[k].pNodeNext} | k < |nodes| && k != i :: nodes[k].pNodeNext == NodeAt(nodes, Past(i, k)))
    && (forall k: nat | k < |nodes| && k != i :: !nodes[k].freed)
  }

  ghost function Bodies<T>(nodes: seq<Node<T>>): (q: seq<T>)
    reads nodes
    ensures |q| == |nodes|
  {
    seq(|nodes|, i requires 0 <= i < |nodes| reads nodes => nodes[i].nodeBody)
  }

  lemma OthersStay<T>(nodes: seq<Node<T>>, i: nat)
    requires i < |nodes| && Distinct(nodes)
    ensures nodes[i] !in Removed(nodes, i)
  {
  }

  lemma NodeAtRemoved<T>(was: seq<Node<T>>, i: nat, k: nat)
    requires i < |was|
    ensures NodeAt(Removed(was, i), k) == NodeAt(was, Before(i, k))
  {
  }

  lemma LinkedOneLess<T>(was: seq<Node<T>>, i: nat)
    requires i < |was| && LinkedPast(was, i)
    ensures Linked(Removed(was, i))
  {
  }

  lemma NodeAtAppend<T>(was: seq<Node<T>>, n: Node<T>, k: nat)
    ensures NodeAt(was + [n], k) == if k < |was| then was[k] else if k == |was| then n else null
  {
  }

  lemma LinkedOneMore<T>(was: seq<Node<T>>, n: Node<T>)
    requires n !in was && n.pNodeNext == null && !n.freed
    requires Distinct(was)
    requires forall i: nat {:trigger was[i].pNodeNext} | i < |was| :: was[i].pNodeNext == NodeAt(was + [n], i + 1)
    requires forall i: nat | i < |was| :: !was[i].freed
    ensures Linked(was + [n])
  {
  }

  lemma BodiesAre<T>(nodes: seq<Node<T>>, q: seq<T>)
    requires |nodes| == |q| && forall i: nat | i < |nodes| :: nodes[i].nodeBody == q[i]
    ensures Bodies(nodes) == q
  {
  }

  // ----- the counts of the list headers, unsigned numbers up to max

  function Increment(count: nat, max: nat): nat {
    if count == max then 0 else count + 1
  }

  function Decrement(count: nat, max: nat): nat {
    if count == 0 then max else count - 1
  }

  /** The count of a list of n nodes. */
  function Count(n: nat, max: nat): (c: nat)
    ensures c <= max
  {
    if n == 0 then 0 else Increment(Count(n - 1, max), max)
  }

  lemma {:induction false} CountOfSmall(n: nat, max: nat)
    ensures n <= max ==> Count(n, max) == n
  {
    if n > 0 {
      CountOfSmall(n - 1, max);
    }
  }

  /** The count wraps: it is the length modulo max + 1. */
  lemma {:induction false} CountIsModulo(n: nat, max: nat)
    ensures Count(n, max) == n % (max + 1)
  {
    var k := max + 1;
    if n > 0 {
      CountIsModulo(n - 1, max);
      var q, c := (n - 1) / k, (n - 1) % k;
      assert n == k * q + c + 1;
      if c == max {
        assert n == k * (q + 1);
        RemainderIs(n, k, q + 1, 0);
      } else {
        RemainderIs(n, k, q, c + 1);
      }
    } else {
      RemainderIs(0, k, 0, 0);
    }
  }

  lemma RemainderIs(x: nat, k: nat, q: int, r: nat)
    requires x == k * q + r && r < k
    ensures x % k == r
  {
    assert x % k - r == k * (q - x / k);
    MultipleOutside(q - x / k, k);
  }

  lemma MultipleOutside(d: int, k: nat)
    ensures d > 0 ==> k * d >= k
    ensures d < 0 ==> k * d + k <= 0
  {
  }
}
