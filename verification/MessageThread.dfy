/** The consumer thread over the list in memory, step by step: a refinement of the state machine of
    MessageRuns, so that every interleaving of its steps with inserts is a run of that machine. */
module MessageThread {
  import opened MessageList
  import opened Removal
  import opened LinkedNodes
  import Runs = MessageRuns

  /** Different numbers below next. */
  ghost predicate Numbered(q: seq<nat>, next: nat) {
    && (forall i: nat | i < |q| :: q[i] < next)
    && (forall i, j | 0 <= i < j < |q| :: q[i] != q[j])
  }

  /** Only node n can hold message id. */
  ghost predicate OnlyAt(nodes: seq<Node<Message>>, q: seq<nat>, n: Node<Message>, id: nat) {
    |nodes| == |q| && forall i: nat | i < |nodes| && q[i] == id :: nodes[i] == n
  }

  /** deviceMessageThread: curNode is its local variable, handled says that the switch statement was
      gone through. dispatched are the messages handed to their handlers. */
  class Thread {
    const list: List
    var curNode: Node?<Message>
    var handled: bool
    var dispatched: seq<nat>
    var next: nat

    /** The messages are numbered, and the consumer holds a node it may read. */
    ghost predicate Valid()
      reads this, list, list.nodes, if curNode == null then {} else {curNode}
    {
      && list.Valid() && Numbered(Bodies(list.nodes), next)
      && (curNode != null ==>
            && !curNode.freed && curNode.nodeBody < next
            && OnlyAt(list.nodes, Bodies(list.nodes), curNode, curNode.nodeBody))
    }

    ghost function ConsumerState(): Runs.Consumer
      reads this, if curNode == null then {} else {curNode}
    {
      if curNode == null then Runs.Idle
      else if handled then Runs.Dispatched(curNode.nodeBody)
      else Runs.Taken(curNode.nodeBody)
    }

    ghost function System(): Runs.System
      reads this, list, list.nodes, if curNode == null then {} else {curNode}
    {
      Runs.System(Bodies(list.nodes), list.noteCount, next, ConsumerState(), dispatched)
    }

    constructor ()
      ensures Valid() && System() == Runs.INITIAL && fresh(list)
    {
      list := new List();
      curNode := null;
      handled := false;
      dispatched := [];
      next := 0;
    }

    /** insertListNode of the next message, on the list alone. */
    method InsertNext() returns (pNode: Node<Message>)
      requires Valid()
      modifies list, list.nodes`pNodeNext
      ensures fresh(pNode) && list.Valid() && list.noteCount == Increment(old(list.noteCount), MAX_COUNT)
      ensures list.nodes == if old(list.noteCount) == 0 then [pNode] else old(list.nodes) + [pNode]
      ensures Bodies(list.nodes) == if old(list.noteCount) == 0 then [next] else old(Bodies(list.nodes)) + [next]
    {
      pNode := new Node<Message>(next);
      ghost var was, q := list.nodes, Bodies(list.nodes);
      ghost var replaced := list.noteCount == 0;
      list.InsertListNode(false, pNode);
      assert forall i: nat | i < |was| :: was[i].nodeBody == q[i];
      BodiesAre(list.nodes, if replaced then [next] else q + [next]);
    }

    /** Another thread inserts the next message. */
    method Insert()
      requires Valid()
      modifies this`next, list, list.nodes
      ensures Valid() && System() == Runs.InsertStep(old(System()))
    {
      ghost var nodes, q := list.nodes, Bodies(list.nodes);
      NumberedOneMore(q, next);
      var pNode := InsertNext();
      if curNode != null {
        OnlyAtOneMore(nodes, q, curNode, curNode.nodeBody, pNode, next);
      }
      next := next + 1;
    }

    /** The next step of the thread: take the head, go through the switch, delete the node. */
    method Consume()
      requires Valid()
      modifies this`curNode, this`handled, this`dispatched, list, list.nodes
      ensures Valid() && System() == Runs.ConsumeStep(old(System()))
    {
      if curNode == null {
        HeadIsOnly(list.nodes, Bodies(list.nodes), next);
        curNode := list.firstNodePtr;
        handled := false;
      } else if !handled {
        dispatched := dispatched + [curNode.Body()];
        handled := true;
      } else {
        DeleteCurrent();
        curNode := null;
      }
    }

    /** deleteListNode at the end of the loop body. */
    method DeleteCurrent()
      requires Valid() && curNode != null
      modifies list, list.nodes
      ensures list.Valid() && Numbered(Bodies(list.nodes), next)
      ensures var q, id := old(Bodies(list.nodes)), old(curNode.nodeBody);
              if id in q then Bodies(list.nodes) == Runs.Without(q, id) && list.noteCount == Decrement(old(list.noteCount), MAX_COUNT)
              else Bodies(list.nodes) == q && list.noteCount == old(list.noteCount)
    {
      ghost var nodes, q := list.nodes, Bodies(list.nodes);
      HeldNode(nodes, q, curNode, curNode.nodeBody);
      var ret, i := list.DeleteListNode(curNode);
      if ret {
        WithoutIs(q, i);
        NumberedOneLess(q, next, i);
        BodiesAre(list.nodes, Removed(q, i));
      } else {
        BodiesAre(list.nodes, q);
      }
    }
  }

  lemma NumberedOneMore(q: seq<nat>, next: nat)
    requires Numbered(q, next)
    ensures Numbered(q + [next], next + 1) && Numbered([next], next + 1)
  {
  }

  lemma NumberedOneLess(q: seq<nat>, next: nat, i: nat)
    requires Numbered(q, next) && i < |q|
    ensures Numbered(Removed(q, i), next)
  {
  }

  lemma HeadIsOnly(nodes: seq<Node<Message>>, q: seq<nat>, next: nat)
    requires |nodes| == |q| && Numbered(q, next)
    ensures nodes != [] ==> q[0] < next && OnlyAt(nodes, q, nodes[0], q[0])
  {
  }

  lemma OnlyAtOneMore(nodes: seq<Node<Message>>, q: seq<nat>, n: Node<Message>, id: nat, n': Node<Message>, id': nat)
    requires OnlyAt(nodes, q, n, id) && id != id'
    ensures OnlyAt(nodes + [n'], q + [id'], n, id) && OnlyAt([n'], [id'], n, id)
  {
  }

  /** A held node is in the list exactly when its message is queued. */
  lemma HeldNode(nodes: seq<Node<Message>>, q: seq<nat>, n: Node<Message>, id: nat)
    requires OnlyAt(nodes, q, n, id) && n.nodeBody == id
    requires forall i: nat | i < |nodes| :: nodes[i].nodeBody == q[i]
    ensures n in nodes <==> id in q
    ensures forall i: nat | i < |nodes| && nodes[i] == n :: q[i] == id
  {
  }

  lemma {:induction false} WithoutIs(q: seq<nat>, i: nat)
    requires i < |q| && forall a, b | 0 <= a < b < |q| :: q[a] != q[b]
    ensures Runs.Without(q, q[i]) == Removed(q, i)
    decreases |q|
  {
    if i == 0 {
      RemovedHead(q);
    } else {
      WithoutIs(q[1..], i - 1);
      RemovedBehindHead(q, i);
    }
  }
}
