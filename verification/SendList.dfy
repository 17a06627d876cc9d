/** The retransmission queue in memory: the linked list of socketSendList.c, its traversals and the
    nodes they free. */
module SendList {
  import opened Calendar
  import opened SendQueue
  import opened Removal
  import opened LinkedNodes

  /** The largest U16, the type of the count. */
  const MAX_COUNT := 0xFFFF

  /** A list header: its first node, its count, its nodes in order and the nodes freed before. */
  ghost predicate Header(first: Node?<Packet>, count: nat, nodes: seq<Node<Packet>>, gone: set<Node<Packet>>)
    reads nodes
  {
    && Linked(nodes)
    && first == NodeAt(nodes, 0)
    && count == Count(|nodes|, MAX_COUNT)
    && (forall n | n in nodes :: n !in gone)
  }

  /** SEND_LIST_HEADER; the count is a U16. nodes are the nodes of the list in order, gone those that
      were in it and freed. */
  class List {
    var firstNodePtr: Node?<Packet>
    var noteCount: nat
    ghost var nodes: seq<Node<Packet>>
    ghost var gone: set<Node<Packet>>

    ghost predicate Valid()
      reads this, nodes
    {
      Header(firstNodePtr, noteCount, nodes, gone)
    }

    ghost function Contents(): seq<Packet>
      reads this, nodes
    {
      Bodies(nodes)
    }

    ghost function Nodes(): set<Node<Packet>>
      reads this
    {
      set n | n in nodes
    }

    /** Every node ever inserted. */
    ghost function Added(): set<Node<Packet>>
      reads this
    {
      Nodes() + gone
    }

    /** sendListInit. */
    constructor ()
      ensures Valid() && nodes == [] && gone == {}
    {
      firstNodePtr := null;
      noteCount := 0;
      nodes := [];
      gone := {};
    }

    /** The traversal of insertSendListNode to the last node. */
    method LastNode() returns (curNode: Node<Packet>)
      requires Valid() && nodes != []
      ensures curNode == nodes[|nodes| - 1]
    {
      curNode := firstNodePtr;
      ghost var i := 0;
      while curNode.Next() != null
        invariant i < |nodes| && curNode == nodes[i]
        decreases |nodes| - i
      {
        curNode := curNode.Next();
        i := i + 1;
      }
    }

    /** The pointers insertSendListNode writes. */
    method LinkBehind(pNode: Node<Packet>)
      requires Valid() && pNode !in nodes
      modifies this`firstNodePtr, nodes, pNode`pNodeNext
      ensures firstNodePtr == NodeAt(nodes + [pNode], 0) && pNode.pNodeNext == null
      ensures forall i: nat {:trigger nodes[i].pNodeNext} | i < |nodes| :: nodes[i].pNodeNext == NodeAt(nodes + [pNode], i + 1)
      ensures forall i: nat | i < |nodes| :: !nodes[i].freed && nodes[i].nodeBody == old(nodes[i].nodeBody)
    {
      if firstNodePtr == null {
        firstNodePtr := pNode;
        pNode.pNodeNext := null;
      } else {
        var curNode := LastNode();
        curNode.pNodeNext := pNode;
        pNode.pNodeNext := null;
      }
      forall i: nat | i < |nodes| ensures nodes[i].pNodeNext == NodeAt(nodes + [pNode], i + 1) {
        NodeAtAppend(nodes, pNode, i + 1);
      }
    }

    /** insertSendListNode. */
    method InsertSendListNode(pNode: Node<Packet>)
      requires Valid() && pNode !in nodes && pNode !in gone && !pNode.freed
      modifies this, nodes, pNode
      ensures Valid() && nodes == old(nodes) + [pNode] && gone == old(gone)
      ensures Contents() == old(Contents()) + [old(pNode.nodeBody)]
    {
      LinkBehind(pNode);
      noteCount := Increment(noteCount, MAX_COUNT);
      HeaderOneMore(firstNodePtr, nodes, gone, pNode);
      BodiesOneMore(nodes, pNode);
      nodes := nodes + [pNode];
    }

    /** The traversal of deleteSendListNode to the node before pNode. */
    method FindBefore(pNode: Node<Packet>) returns (found: bool, pCurNode: Node<Packet>, ghost i: nat)
      requires Valid() && nodes != [] && nodes[0] != pNode
      ensures found <==> pNode in nodes
      ensures found ==> i + 1 < |nodes| && pCurNode == nodes[i] && nodes[i + 1] == pNode
    {
      pCurNode := firstNodePtr;
      i := 0;
      found := false;
      while pCurNode.Next() != null
        invariant i < |nodes| && pCurNode == nodes[i]
        invariant pNode !in nodes[..i + 1]
        decreases |nodes| - i
      {
        if pCurNode.Next() == pNode {
          found := true;
          return;
        }
        pCurNode := pCurNode.Next();
        i := i + 1;
      }
    }

    /** The pointer deleteSendListNode writes for the node at index i, behind before. */
    method Bypass(pNode: Node<Packet>, before: Node?<Packet>, ghost i: nat)
      requires Valid() && i < |nodes| && nodes[i] == pNode && before == (if i == 0 then null else nodes[i - 1])
      modifies this`firstNodePtr, nodes
      ensures LinkedPast(nodes, i) && firstNodePtr == NodeAt(Removed(nodes, i), 0)
      ensures forall k: nat | k < |nodes| :: !nodes[k].freed && nodes[k].nodeBody == old(nodes[k].nodeBody)
    {
      if before == null {
        firstNodePtr := pNode.Next();
      } else {
        before.pNodeNext := before.Next().Next();
      }
    }

    /** freeSendNodeMemory: the packet data goes with the node. */
    method FreeSendNodeMemory(pNode: Node<Packet>)
      requires !pNode.freed
      modifies pNode`freed
      ensures pNode.freed
    {
      pNode.freed := true;
    }

    /** The end of deleteSendListNode, once the chain goes past the node at index i. */
    method DropNode(pNode: Node<Packet>, ghost i: nat)
      requires i < |nodes| && nodes[i] == pNode && !pNode.freed && LinkedPast(nodes, i)
      requires firstNodePtr == NodeAt(Removed(nodes, i), 0) && noteCount == Count(|nodes|, MAX_COUNT)
      requires forall n | n in nodes :: n !in gone
      modifies this`noteCount, this`nodes, this`gone, pNode`freed
      ensures Valid() && pNode.freed
      ensures nodes == Removed(old(nodes), i) && gone == old(gone) + {pNode}
    {
      noteCount := Decrement(noteCount, MAX_COUNT);
      OthersStay(nodes, i);
      FreeSendNodeMemory(pNode);
      HeaderOneLess(firstNodePtr, nodes, gone, i);
      nodes, gone := Removed(nodes, i), gone + {pNode};
    }

    method DeleteFound(pNode: Node<Packet>, before: Node?<Packet>, ghost i: nat)
      requires Valid() && i < |nodes| && nodes[i] == pNode && before == (if i == 0 then null else nodes[i - 1])
      modifies this, nodes
      ensures Valid() && pNode.freed
      ensures nodes == Removed(old(nodes), i) && gone == old(gone) + {pNode}
      ensures Contents() == Removed(old(Contents()), i)
    {
      ghost var all, was := nodes, Contents();
      Bypass(pNode, before, i);
      DropNode(pNode, i);
      BodiesOneLess(all, was, i);
    }

    /** deleteSendListNode: takes the node off the list and frees it, if it is in the list. */
    method DeleteSendListNode(pNode: Node?<Packet>) returns (ret: bool, ghost i: nat)
      requires Valid()
      modifies this, nodes
      ensures Valid()
      ensures ret <==> pNode in old(nodes)
      ensures ret ==>
                && i < |old(nodes)| && old(nodes)[i] == pNode && pNode.freed
                && nodes == Removed(old(nodes), i) && gone == old(gone) + {pNode}
                && Contents() == Removed(old(Contents()), i)
      ensures !ret ==> nodes == old(nodes) && gone == old(gone) && Contents() == old(Contents())
    {
      ret, i := false, 0;
      var pCurNode := firstNodePtr;
      if pCurNode == null || pNode == null {
      } else if pCurNode == pNode {
        ret := true;
        DeleteFound(pNode, null, 0);
      } else {
        var before;
        ret, before, i := FindBefore(pNode);
        if ret {
          i := i + 1;
          DeleteFound(pNode, before, i);
        }
      }
    }

    /** deleteSendListNode, called on a node of the list. */
    method DeleteNodeAt(pNode: Node<Packet>, ghost i: nat)
      requires Valid() && i < |nodes| && nodes[i] == pNode
      modifies this, nodes
      ensures Valid() && pNode.freed
      ensures nodes == Removed(old(nodes), i) && Added() == old(Added())
      ensures Contents() == Removed(old(Contents()), i)
    {
      IndexOfNode(nodes, i);
      SameNodes(nodes, i);
      var ret, j := DeleteSendListNode(pNode);
    }

    /** The search of deleteRequstSendNode. */
    method FindRequest(snIndex: nat) returns (pCurNode: Node?<Packet>, ghost i: nat)
      requires Valid()
      ensures i <= |nodes| && pCurNode == NodeAt(nodes, i)
      ensures forall k: nat | k < i :: Contents()[k].snIndex != snIndex
      ensures i < |nodes| ==> Contents()[i].snIndex == snIndex
    {
      pCurNode := firstNodePtr;
      i := 0;
      while pCurNode != null
        invariant i <= |nodes| && pCurNode == NodeAt(nodes, i)
        invariant forall k: nat | k < i :: Contents()[k].snIndex != snIndex
        decreases |nodes| - i
      {
        if pCurNode.Body().snIndex == snIndex {
          return;
        }
        pCurNode := pCurNode.Next();
        i := i + 1;
      }
    }

    /** deleteRequstSendNode: takes off the first packet with the given number. */
    method DeleteRequestSendNode(snIndex: nat) returns (ret: bool, ghost i: nat)
      requires Valid()
      modifies this, nodes
      ensures Valid() && Added() == old(Added())
      ensures i <= |old(Contents())| && forall k: nat | k < i :: old(Contents())[k].snIndex != snIndex
      ensures ret <==> i < |old(Contents())|
      ensures ret ==> old(Contents())[i].snIndex == snIndex && Contents() == Removed(old(Contents()), i)
      ensures !ret ==> Contents() == old(Contents())
    {
      var pCurNode;
      pCurNode, i := FindRequest(snIndex);
      ret := pCurNode != null;
      if ret {
        DeleteNodeAt(pCurNode, i);
      }
    }

    /** addSendDataToNode; hasRoom says whether the heap had room for the node. */
    method AddSendDataToNode(sendData: Packet, hasRoom: bool) returns (ret: bool)
      requires Valid()
      modifies this, nodes
      ensures Valid()
      ensures ret <==> sendData.origin != LocalEvent && hasRoom
      ensures Contents() == if ret then old(Contents()) + [sendData] else old(Contents())
      ensures ret ==> exists n: Node<Packet> :: fresh(n) && nodes == old(nodes) + [n] && gone == old(gone)
    {
      if sendData.origin != Udp && sendData.origin != Tcp {
        return false;
      }
      if !hasRoom {
        return false;
      }
      var pSendNode := new Node<Packet>(sendData);
      InsertSendListNode(pSendNode);
      ret := true;
    }

    /** One iteration of lum_delAllTcpWhileReconnServer: the next node is read before the present one
        may be freed. */
    method PassOrDelete(pCurNode: Node<Packet>, ghost i: nat) returns (next: Node?<Packet>, ghost j: nat)
      requires Valid() && i < |nodes| && nodes[i] == pCurNode
      modifies this, Nodes()
      ensures Valid() && Added() == old(Added())
      ensures Nodes() <= old(Nodes())
      ensures j <= |nodes| && next == NodeAt(nodes, j)
      ensures if old(Contents())[i].origin == Tcp then j == i && Contents() == Removed(old(Contents()), i)
              else j == i + 1 && Contents() == old(Contents())
    {
      next := pCurNode.Next();
      j := i + 1;
      if pCurNode.Body().origin == Tcp {
        NodeAtRemoved(nodes, i, i);
        DeleteNodeAt(pCurNode, i);
        j := i;
      }
    }

    /** lum_delAllTcpWhileReconnServer: what stays is exactly the packets of other origins, in order. */
    method DelAllTcp()
      requires Valid()
      modifies this, Nodes()
      ensures Valid() && Added() == old(Added())
      ensures Contents() == NotTcp(old(Contents()))
    {
      ghost var was := Contents();
      ghost var p: nat, i: nat := 0, 0;
      var pCurNode := firstNodePtr;
      while pCurNode != null
        invariant Valid() && Added() == old(Added())
        invariant Nodes() <= old(Nodes())
        invariant i <= |nodes| && pCurNode == NodeAt(nodes, i)
        invariant Purging(was, p, i, Contents())
        decreases |was| - p
      {
        PurgeNext(was, p, i, Contents());
        pCurNode, i := PassOrDelete(pCurNode, i);
        p := p + 1;
      }
      PurgeDone(was, p, i, Contents());
    }

    /** A write to the counters and times of the node at index i. */
    method SetBody(pNode: Node<Packet>, ghost i: nat, body: Packet)
      requires Valid() && i < |nodes| && nodes[i] == pNode
      modifies pNode`nodeBody
      ensures Valid() && Contents() == old(Contents())[i := body]
    {
      pNode.nodeBody := body;
      IndexOfNode(nodes, i);
    }

    /** The counters of a packet after an attempt, and whether its node stays. */
    method CountAttempt(p: Packet, curTime: Seconds, sendSuccess: bool) returns (body: Packet, stays: bool)
      ensures AfterAttempt(p, curTime, sendSuccess) == if stays then [body] else []
    {
      body := p;
      if sendSuccess {
        if body.request && NeedWaitSocketReback(body.cmdData) {
          body := body.(faildTimes := 0);
          body := body.(sendCount := Bump(body.sendCount));
          stays := body.sendCount < MAX_RESEND_COUNT;
        } else {
          stays := false;
        }
      } else {
        body := body.(faildTimes := Bump(body.faildTimes));
        stays := body.faildTimes < MAX_FAILD_COUNT;
      }
      if stays {
        body := body.(nextSendTime := Later(curTime, MAX_RESEND_INTERVAL));
      }
    }

    /** What sendSocketData does to a node it attempted. */
    method FinishAttempt(pCurNode: Node<Packet>, ghost i: nat, curTime: Seconds, sendSuccess: bool)
      requires Valid() && i < |nodes| && nodes[i] == pCurNode
      modifies this, Nodes()
      ensures Valid() && Added() == old(Added())
      ensures Contents() == Replaced(old(Contents()), i, AfterAttempt(old(Contents())[i], curTime, sendSuccess))
    {
      var body, stays := CountAttempt(pCurNode.Body(), curTime, sendSuccess);
      ReplacedIs(Contents(), i, body);
      if stays {
        SetBody(pCurNode, i, body);
      } else {
        DeleteNodeAt(pCurNode, i);
      }
    }

    /** sendSocketData on a node of neither socket: the node behind it is read before it is freed. */
    method DropForeign(pCurNode: Node<Packet>, ghost i: nat) returns (next: Node?<Packet>)
      requires Valid() && i < |nodes| && nodes[i] == pCurNode
      modifies this, Nodes()
      ensures Valid() && Added() == old(Added()) && Nodes() <= old(Nodes())
      ensures i <= |nodes| && next == NodeAt(nodes, i)
      ensures Contents() == Removed(old(Contents()), i)
    {
      next := pCurNode.Next();
      NodeAtRemoved(nodes, i, i);
      DeleteNodeAt(pCurNode, i);
    }

    /** One iteration of the loop of sendSocketData on a node that is not attempted. */
    method PassNode(pCurNode: Node<Packet>, ghost i: nat, curTime: Seconds) returns (next: Node?<Packet>, ghost j: nat)
      requires Valid() && i < |nodes| && nodes[i] == pCurNode
      modifies this, Nodes()
      ensures Valid() && Added() == old(Added()) && Nodes() <= old(Nodes())
      ensures j <= |nodes| && next == NodeAt(nodes, j)
      ensures var p := old(Contents())[i];
              if p.origin == LocalEvent then j == i && Contents() == Removed(old(Contents()), i)
              else j == i + 1 && Contents() == old(Contents())[i := PutOff(p, curTime)]
    {
      var body := pCurNode.Body();
      if body.origin != Udp && body.origin != Tcp {
        j := i;
        next := DropForeign(pCurNode, i);
      } else {
        if IsDue(body, curTime) {
          SetBody(pCurNode, i, body.(nextSendTime := Later(curTime, MAX_RESEND_INTERVAL / 2)));
        }
        next := pCurNode.Next();
        j := i + 1;
      }
    }

    /** sendSocketData: one poll of the queue. connected says that an address was obtained, ready(k)
        that the socket of the k-th node looked at can be written, sent that the transmission succeeds. */
    method SendSocketData(connected: bool, curTime: Seconds, ready: nat -> bool, sent: bool) returns (sendSuccess: bool)
      requires Valid()
      modifies this, Nodes()
      ensures Valid() && Added() == old(Added())
      ensures connected ==> Contents() == Poll(old(Contents()), curTime, ready, sent, 0).0
      ensures connected ==> (sendSuccess <==> sent && Poll(old(Contents()), curTime, ready, sent, 0).1 != NoAttempt)
      ensures !connected ==> !sendSuccess && Contents() == old(Contents())
    {
      sendSuccess := false;
      if !connected {
        return;
      }
      ghost var was := Contents();
      var k: nat := 0;
      ghost var i: nat := 0;
      var pCurNode := firstNodePtr;
      PollStart(was, curTime, ready, sent);
      while pCurNode != null
        invariant Valid() && Added() == old(Added())
        invariant Nodes() <= old(Nodes())
        invariant i <= |nodes| && pCurNode == NodeAt(nodes, i)
        invariant !sendSuccess && Polling(was, curTime, ready, sent, k, i, Contents())
        decreases |was| - k
      {
        PollNext(was, curTime, ready, sent, k, i, Contents());
        var body := pCurNode.Body();
        if body.origin != LocalEvent && IsDue(body, curTime) && ready(k) {
          FinishAttempt(pCurNode, i, curTime, sent);
          sendSuccess := sent;
          return;
        }
        pCurNode, i := PassNode(pCurNode, i, curTime);
        k := k + 1;
      }
      PollDone(was, curTime, ready, sent, k, i, Contents());
    }
  }

  /** q with the packets r in place of packet i. */
  function Replaced(q: seq<Packet>, i: nat, r: seq<Packet>): seq<Packet>
    requires i < |q|
  {
    q[..i] + r + q[i + 1..]
  }

  lemma ReplacedIs(q: seq<Packet>, i: nat, p: Packet)
    requires i < |q|
    ensures Replaced(q, i, [p]) == q[i := p]
    ensures Replaced(q, i, []) == Removed(q, i)
  {
  }

  /** k packets were gone past, and i of them are left in front. */
  ghost predicate Polling(was: seq<Packet>, cur: Seconds, ready: nat -> bool, sent: bool, k: nat, i: nat, now: seq<Packet>) {
    && k <= |was| && i <= |now| && now[i..] == was[k..]
    && Poll(was, cur, ready, sent, 0).0 == now[..i] + Poll(was[k..], cur, ready, sent, k).0
    && Poll(was, cur, ready, sent, 0).1 == Poll(was[k..], cur, ready, sent, k).1
  }

  lemma PollStart(was: seq<Packet>, cur: Seconds, ready: nat -> bool, sent: bool)
    ensures Polling(was, cur, ready, sent, 0, 0, was)
  {
  }

  lemma PollRest(was: seq<Packet>, cur: Seconds, ready: nat -> bool, sent: bool, k: nat, i: nat, now: seq<Packet>)
    requires Polling(was, cur, ready, sent, k, i, now) && i < |now|
    ensures k < |was| && was[k..][0] == now[i] && was[k..][1..] == was[k + 1..] == now[i + 1..]
  {
  }

  lemma PollDropped(was: seq<Packet>, cur: Seconds, ready: nat -> bool, sent: bool, k: nat, i: nat, now: seq<Packet>)
    requires Polling(was, cur, ready, sent, k, i, now) && i < |now|
    requires now[i].origin == LocalEvent
    ensures Polling(was, cur, ready, sent, k + 1, i, Removed(now, i))
  {
    PollRest(was, cur, ready, sent, k, i, now);
    PollUnfolds(was[k..], cur, ready, sent, k);
    RemovedIsSplit(now, i);
    assert Removed(now, i)[..i] == now[..i] && Removed(now, i)[i..] == now[i + 1..];
  }

  lemma PollPassed(was: seq<Packet>, cur: Seconds, ready: nat -> bool, sent: bool, k: nat, i: nat, now: seq<Packet>)
    requires Polling(was, cur, ready, sent, k, i, now) && i < |now|
    requires now[i].origin != LocalEvent && !(IsDue(now[i], cur) && ready(k))
    ensures Polling(was, cur, ready, sent, k + 1, i + 1, now[i := PutOff(now[i], cur)])
  {
    PollRest(was, cur, ready, sent, k, i, now);
    PollUnfolds(was[k..], cur, ready, sent, k);
    var p := PutOff(now[i], cur);
    var next := now[i := p];
    assert next[..i + 1] == now[..i] + [p] && next[i + 1..] == now[i + 1..];
  }

  lemma PollAttempted(was: seq<Packet>, cur: Seconds, ready: nat -> bool, sent: bool, k: nat, i: nat, now: seq<Packet>)
    requires Polling(was, cur, ready, sent, k, i, now) && i < |now|
    requires now[i].origin != LocalEvent && IsDue(now[i], cur) && ready(k)
    ensures Poll(was, cur, ready, sent, 0).0 == Replaced(now, i, AfterAttempt(now[i], cur, sent))
    ensures Poll(was, cur, ready, sent, 0).1 == Attempt(now[i], sent)
  {
  }

  lemma PollNext(was: seq<Packet>, cur: Seconds, ready: nat -> bool, sent: bool, k: nat, i: nat, now: seq<Packet>)
    requires Polling(was, cur, ready, sent, k, i, now) && i < |now|
    ensures k < |was|
    ensures now[i].origin == LocalEvent ==> Polling(was, cur, ready, sent, k + 1, i, Removed(now, i))
    ensures now[i].origin != LocalEvent && !(IsDue(now[i], cur) && ready(k)) ==>
              Polling(was, cur, ready, sent, k + 1, i + 1, now[i := PutOff(now[i], cur)])
    ensures now[i].origin != LocalEvent && IsDue(now[i], cur) && ready(k) ==>
              && Poll(was, cur, ready, sent, 0).0 == Replaced(now, i, AfterAttempt(now[i], cur, sent))
              && Poll(was, cur, ready, sent, 0).1 == Attempt(now[i], sent)
  {
    PollRest(was, cur, ready, sent, k, i, now);
    if now[i].origin == LocalEvent {
      PollDropped(was, cur, ready, sent, k, i, now);
    } else if IsDue(now[i], cur) && ready(k) {
      PollAttempted(was, cur, ready, sent, k, i, now);
    } else {
      PollPassed(was, cur, ready, sent, k, i, now);
    }
  }

  lemma PollUnfolds(q: seq<Packet>, cur: Seconds, ready: nat -> bool, sent: bool, k: nat)
    requires q != []
    ensures var next := Poll(q[1..], cur, ready, sent, k + 1);
            Poll(q, cur, ready, sent, k) ==
              if q[0].origin == LocalEvent then next
              else if IsDue(q[0], cur) && ready(k) then (AfterAttempt(q[0], cur, sent) + q[1..], Attempt(q[0], sent))
              else ([PutOff(q[0], cur)] + next.0, next.1)
  {
  }

  lemma PollDone(was: seq<Packet>, cur: Seconds, ready: nat -> bool, sent: bool, k: nat, i: nat, now: seq<Packet>)
    requires Polling(was, cur, ready, sent, k, i, now) && i == |now|
    ensures Poll(was, cur, ready, sent, 0).0 == now && Poll(was, cur, ready, sent, 0).1 == NoAttempt
  {
  }

  /** The first p packets were gone through, and i of them stayed. */
  ghost predicate Purging(was: seq<Packet>, p: nat, i: nat, now: seq<Packet>) {
    p <= |was| && |NotTcp(was[..p])| == i && now == NotTcp(was[..p]) + was[p..]
  }

  lemma PurgeNext(was: seq<Packet>, p: nat, i: nat, now: seq<Packet>)
    requires Purging(was, p, i, now) && i < |now|
    ensures p < |was| && now[i] == was[p]
    ensures if now[i].origin == Tcp then Purging(was, p + 1, i, Removed(now, i)) else Purging(was, p + 1, i + 1, now)
  {
    NotTcpNext(was, p);
    RemovedAt(NotTcp(was[..p]), was[p..]);
  }

  lemma PurgeDone(was: seq<Packet>, p: nat, i: nat, now: seq<Packet>)
    requires Purging(was, p, i, now) && i == |now|
    ensures now == NotTcp(was)
  {
    assert was[..p] == was;
  }

  lemma SameNodes(nodes: seq<Node<Packet>>, i: nat)
    requires i < |nodes|
    ensures (set n | n in nodes) == (set n | n in Removed(nodes, i)) + {nodes[i]}
  {
    forall n | n in nodes
      ensures n in Removed(nodes, i) || n == nodes[i]
    {
      var k :| 0 <= k < |nodes| && nodes[k] == n;
      if k < i {
        assert Removed(nodes, i)[k] == n;
      } else if k > i {
        assert Removed(nodes, i)[k - 1] == n;
      }
    }
  }

  lemma IndexOfNode(nodes: seq<Node<Packet>>, i: nat)
    requires i < |nodes| && Distinct(nodes)
    ensures nodes[i] in nodes && forall j: nat | j < |nodes| && nodes[j] == nodes[i] :: j == i
  {
  }

  function NotTcp(q: seq<Packet>): seq<Packet> {
    if q == [] then [] else (if q[0].origin == Tcp then [] else [q[0]]) + NotTcp(q[1..])
  }

  lemma {:induction false} NotTcpSum(a: seq<Packet>, b: seq<Packet>)
    ensures NotTcp(a + b) == NotTcp(a) + NotTcp(b)
  {
    if a == [] {
      assert a + b == b;
    } else {
      assert (a + b)[1..] == a[1..] + b;
      NotTcpSum(a[1..], b);
    }
  }

  lemma NotTcpNext(q: seq<Packet>, p: nat)
    requires p < |q|
    ensures NotTcp(q[..p + 1]) == NotTcp(q[..p]) + (if q[p].origin == Tcp then [] else [q[p]])
  {
    assert q[..p + 1] == q[..p] + [q[p]];
    NotTcpSum(q[..p], [q[p]]);
  }

  lemma BodiesOneLess(was: seq<Node<Packet>>, q: seq<Packet>, i: nat)
    requires i < |was| == |q|
    requires forall k: nat | k < |was| :: was[k].nodeBody == q[k]
    ensures Bodies(Removed(was, i)) == Removed(q, i)
  {
  }

  lemma HeaderOneLess(first: Node?<Packet>, was: seq<Node<Packet>>, gone: set<Node<Packet>>, i: nat)
    requires i < |was| && first == NodeAt(Removed(was, i), 0)
    requires LinkedPast(was, i)
    requires forall n | n in was :: n !in gone
    ensures Header(first, Decrement(Count(|was|, MAX_COUNT), MAX_COUNT), Removed(was, i), gone + {was[i]})
  {
    LinkedOneLess(was, i);
    OthersStay(was, i);
    assert forall n | n in Removed(was, i) :: n in was;
    assert |was| == |Removed(was, i)| + 1;
  }

  twostate lemma BodiesOneMore(was: seq<Node<Packet>>, new n: Node<Packet>)
    requires forall i: nat | i < |was| :: was[i].nodeBody == old(was[i].nodeBody)
    ensures Bodies(was + [n]) == old(Bodies(was)) + [n.nodeBody]
  {
  }

  lemma HeaderOneMore(first: Node?<Packet>, was: seq<Node<Packet>>, gone: set<Node<Packet>>, n: Node<Packet>)
    requires n !in was && n !in gone && n.pNodeNext == null && !n.freed
    requires Distinct(was)
    requires forall i: nat {:trigger was[i].pNodeNext} | i < |was| :: was[i].pNodeNext == NodeAt(was + [n], i + 1)
    requires forall i: nat | i < |was| :: !was[i].freed
    requires first == NodeAt(was + [n], 0)
    requires forall m | m in was :: m !in gone
    ensures Header(first, Increment(Count(|was|, MAX_COUNT), MAX_COUNT), was + [n], gone)
  {
  }
}
