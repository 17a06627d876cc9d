/** The message list in memory: the linked list of asyncMessage.c and the steps of its consumer. */
module MessageList {
  import opened Removal
  import opened LinkedNodes

  /** MSG_NODE_BODY, as far as the list is concerned: which message it is. */
  type Message = nat

  /** The largest U8, the type of the count. */
  const MAX_COUNT := 0xFF

  /** LIST_HEADER; the count is a U8. nodes are the nodes reachable from the first, in order. */
  class List {
    var firstNodePtr: Node?<Message>
    var noteCount: nat
    ghost var nodes: seq<Node<Message>>

    /** The nodes form a list. */
    ghost predicate Chained()
      reads this, nodes
    {
      Linked(nodes) && firstNodePtr == NodeAt(nodes, 0)
    }

    /** And the count agrees with it. */
    ghost predicate Valid()
      reads this, nodes
    {
      Chained() && noteCount == Count(|nodes|, MAX_COUNT)
    }

    /** messageListInit. */
    constructor ()
      ensures Valid() && nodes == []
    {
      firstNodePtr := null;
      noteCount := 0;
      nodes := [];
    }

    /** The traversal of insertListNode to the last node. */
    method LastNode() returns (pTempNode: Node<Message>)
      requires Chained() && nodes != []
      ensures pTempNode == nodes[|nodes| - 1]
    {
      pTempNode := firstNodePtr;
      ghost var i := 0;
      while pTempNode.Next() != null
        invariant i < |nodes| && pTempNode == nodes[i]
        decreases |nodes| - i
      {
        pTempNode := pTempNode.Next();
        i := i + 1;
      }
    }

    /** The tail insert of a list that is not empty. */
    method LinkBehind(pNode: Node<Message>)
      requires Chained() && nodes != [] && pNode !in nodes && !pNode.freed
      modifies this`nodes, nodes`pNodeNext, pNode`pNodeNext
      ensures Chained() && nodes == old(nodes) + [pNode]
    {
      var pTempNode := LastNode();
      pTempNode.pNodeNext := pNode;
      pNode.pNodeNext := null;
      forall i: nat | i < |nodes| ensures nodes[i].pNodeNext == NodeAt(nodes + [pNode], i + 1) {
        NodeAtAppend(nodes, pNode, i + 1);
      }
      LinkedOneMore(nodes, pNode);
      nodes := nodes + [pNode];
    }

    /** The insert that takes the list for empty. */
    method StartList(pNode: Node<Message>)
      requires !pNode.freed
      modifies this`firstNodePtr, this`nodes, pNode`pNodeNext
      ensures Chained() && nodes == [pNode]
    {
      firstNodePtr := pNode;
      pNode.pNodeNext := null;
      nodes := [pNode];
    }

    /** The insert at the head: the new node is linked to the second, and the first is dropped. */
    method LinkInPlaceOf(pTempNode: Node<Message>, pNode: Node<Message>)
      requires Chained() && nodes != [] && nodes[0] == pTempNode && pNode !in nodes && !pNode.freed
      modifies this`firstNodePtr, this`nodes, pNode`pNodeNext
      ensures Chained() && nodes == [pNode] + old(nodes[1..])
    {
      pNode.pNodeNext := pTempNode.Next();
      firstNodePtr := pNode;
      HeadReplaced(nodes, pNode);
      nodes := [pNode] + nodes[1..];
    }

    /** insertListNode. Emptiness is read off the count: a list whose count has wrapped to 0 is
        replaced. Inserting at the head takes the place of the first node. */
    method InsertListNode(insertToHeader: bool, pNode: Node<Message>)
      requires Valid() && pNode !in nodes && !pNode.freed
      modifies this, nodes`pNodeNext, pNode`pNodeNext
      ensures Chained() && noteCount == Increment(old(noteCount), MAX_COUNT)
      ensures nodes == if old(noteCount) == 0 then [pNode]
                       else if insertToHeader then [pNode] + old(nodes[1..])
                       else old(nodes) + [pNode]
      ensures !insertToHeader ==> noteCount == Count(|nodes|, MAX_COUNT)
      ensures !insertToHeader && old(|nodes|) < 256 ==> nodes == old(nodes) + [pNode]
      ensures insertToHeader && old(noteCount) != 0 ==> noteCount != Count(|nodes|, MAX_COUNT)
    {
      CountOfSmall(|nodes|, MAX_COUNT);
      var pTempNode := firstNodePtr;
      if noteCount == 0 {
        StartList(pNode);
      } else {
        if insertToHeader {
          LinkInPlaceOf(pTempNode, pNode);
        } else {
          LinkBehind(pNode);
        }
      }
      noteCount := Increment(noteCount, MAX_COUNT);
    }

    /** The search of deleteListNode for the node before pNode. */
    method FindBefore(pNode: Node<Message>) returns (found: bool, curNode: Node<Message>, ghost i: nat)
      requires Chained() && nodes != [] && nodes[0] != pNode
      ensures found <==> pNode in nodes
      ensures found ==> i + 1 < |nodes| && curNode == nodes[i] && nodes[i + 1] == pNode
    {
      found := false;
      curNode := firstNodePtr;
      i := 0;
      var pTempNode := curNode.Next();
      while pTempNode != null
        invariant i < |nodes| && curNode == nodes[i] && pTempNode == NodeAt(nodes, i + 1)
        invariant pNode !in nodes[..i + 1]
        decreases |nodes| - i
      {
        if pTempNode == pNode {
          found := true;
          return;
        }
        curNode := curNode.Next();
        pTempNode := pTempNode.Next();
        i := i + 1;
      }
    }

    /** The pointer deleteListNode writes for the node at index i, behind before. */
    method Bypass(pNode: Node<Message>, before: Node?<Message>, ghost i: nat)
      requires Chained() && i < |nodes| && nodes[i] == pNode && before == (if i == 0 then null else nodes[i - 1])
      modifies this`firstNodePtr, nodes`pNodeNext
      ensures LinkedPast(nodes, i) && !pNode.freed && firstNodePtr == NodeAt(Removed(nodes, i), 0)
    {
      if before == null {
        firstNodePtr := pNode.Next();
      } else {
        before.pNodeNext := pNode.Next();
      }
    }

    method DeleteFound(pNode: Node<Message>, before: Node?<Message>, ghost i: nat)
      requires Chained() && i < |nodes| && nodes[i] == pNode && before == (if i == 0 then null else nodes[i - 1])
      modifies this, nodes`pNodeNext, nodes`freed
      ensures Chained() && nodes == Removed(old(nodes), i)
      ensures noteCount == Decrement(old(noteCount), MAX_COUNT) && pNode.freed
    {
      Bypass(pNode, before, i);
      noteCount := Decrement(noteCount, MAX_COUNT);
      OthersStay(nodes, i);
      pNode.freed := true;
      LinkedOneLess(nodes, i);
      nodes := Removed(nodes, i);
    }

    /** deleteListNode: takes the node off the list and frees it, if it is in the list. */
    method DeleteListNode(pNode: Node?<Message>) returns (ret: bool, ghost i: nat)
      requires Chained()
      modifies this, nodes`pNodeNext, nodes`freed
      ensures Chained() && (old(Valid()) ==> Valid())
      ensures ret <==> pNode in old(nodes)
      ensures ret ==>
                && i < |old(nodes)| && old(nodes)[i] == pNode && pNode.freed
                && nodes == Removed(old(nodes), i) && noteCount == Decrement(old(noteCount), MAX_COUNT)
      ensures !ret ==> nodes == old(nodes) && noteCount == old(noteCount)
    {
      ret, i := false, 0;
      if firstNodePtr == null || pNode == null {
      } else if pNode == firstNodePtr {
        ret := true;
        DeleteFound(pNode, null, 0);
      } else {
        var curNode;
        ret, curNode, i := FindBefore(pNode);
        if ret {
          i := i + 1;
          DeleteFound(pNode, curNode, i);
        }
      }
    }

    /** One pass of deviceMessageThread that no insert interrupts: the head is dispatched, then it is
        deleted. */
    method ConsumeOne() returns (dispatched: seq<Message>)
      requires Valid()
      modifies this, nodes`pNodeNext, nodes`freed
      ensures Valid()
      ensures old(nodes) == [] ==> dispatched == [] && nodes == []
      ensures old(nodes) != [] ==> dispatched == [old(nodes[0].nodeBody)] && nodes == old(nodes[1..])
    {
      dispatched := [];
      var curNode := firstNodePtr;
      if curNode != null {
        dispatched := [curNode.Body()];
        RemovedIsSplit(nodes, 0);
        assert nodes[..0] + nodes[1..] == nodes[1..];
        HeadIndex(nodes);
        var ret, i := DeleteListNode(curNode);
      }
    }
  }

  lemma HeadIndex(nodes: seq<Node<Message>>)
    requires nodes != [] && Distinct(nodes)
    ensures forall j: nat | j < |nodes| && nodes[j] == nodes[0] :: j == 0
  {
  }

  lemma HeadReplaced(was: seq<Node<Message>>, n: Node<Message>)
    requires was != [] && n !in was && Linked(was) && !n.freed && n.pNodeNext == NodeAt(was, 1)
    ensures Linked([n] + was[1..])
  {
  }
}
