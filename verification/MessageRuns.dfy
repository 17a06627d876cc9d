/** The message list and its one consumer as a state machine: inserts of other threads fall anywhere
    between the consumer's steps (take the head, dispatch it, delete it). Messages are numbered in the
    order of their insertion. */
module MessageRuns {

  /** The values of the U8 count. */
  const COUNT_LIMIT := 256

  /** Where deviceMessageThread stands. */
  datatype Consumer = Idle | Taken(id: nat) | Dispatched(id: nat)

  datatype System = System(queue: seq<nat>, noteCount: nat, next: nat, consumer: Consumer, dispatched: seq<nat>)

  datatype Event = Insert | Consume

  const INITIAL := System([], 0, 0, Idle, [])

  function Without(q: seq<nat>, id: nat): seq<nat> {
    if q == [] then [] else if q[0] == id then q[1..] else [q[0]] + Without(q[1..], id)
  }

  /** insertListNode(FALSE, ..): whether the list is empty is read off the count. */
  function InsertStep(s: System): System {
    s.(queue := if s.noteCount == 0 then [s.next] else s.queue + [s.next],
       noteCount := if s.noteCount == COUNT_LIMIT - 1 then 0 else s.noteCount + 1,
       next := s.next + 1)
  }

  /** The next step of the loop of deviceMessageThread. */
  function ConsumeStep(s: System): System {
    match s.consumer
    case Idle => if s.queue == [] then s else s.(consumer := Taken(s.queue[0]))
    case Taken(id) => s.(consumer := Dispatched(id), dispatched := s.dispatched + [id])
    case Dispatched(id) =>
      if id in s.queue then
        s.(queue := Without(s.queue, id), noteCount := if s.noteCount == 0 then COUNT_LIMIT - 1 else s.noteCount - 1, consumer := Idle)
      else s.(consumer := Idle)
  }

  function Step(s: System, e: Event): System {
    match e
    case Insert => InsertStep(s)
    case Consume => ConsumeStep(s)
  }

  function Run(s: System, events: seq<Event>): System {
    if events == [] then s else Step(Run(s, events[..|events| - 1]), events[|events| - 1])
  }

  /** The insert finds room in the count: fewer than 256 messages are queued. */
  predicate Fits(s: System) {
    |s.queue| < 256
  }

  /** Every insert of the run finds room. */
  predicate AllFit(s: System, events: seq<Event>) {
    events == []
    || (AllFit(s, events[..|events| - 1]) && (events[|events| - 1] == Insert ==> Fits(Run(s, events[..|events| - 1]))))
  }

  // ----- runs in which every insert fits

  /** The numbers from lo up to but not including hi. */
  function Numbers(lo: nat, hi: nat): (r: seq<nat>)
    requires lo <= hi
    ensures |r| == hi - lo
  {
    seq(hi - lo, i requires 0 <= i < hi - lo => lo + i)
  }

  /** The first message that is not deleted yet. */
  function Head(s: System): int {
    s.next - |s.queue|
  }

  /** The queue holds the latest messages in order, the count is its length, and the messages
      dispatched are exactly the earlier ones in order, with the head itself while it is not deleted. */
  ghost predicate InOrder(s: System) {
    && |s.queue| <= 256 && 0 <= Head(s)
    && s.queue == Numbers(Head(s), s.next)
    && s.noteCount == (if |s.queue| == 256 then 0 else |s.queue|)
    && match s.consumer
       case Idle => s.dispatched == Numbers(0, Head(s))
       case Taken(id) => s.queue != [] && id == Head(s) && s.dispatched == Numbers(0, id)
       case Dispatched(id) => s.queue != [] && id == Head(s) && s.dispatched == Numbers(0, id + 1)
  }

  lemma InsertKeepsOrder(s: System)
    requires InOrder(s) && Fits(s)
    ensures InOrder(InsertStep(s))
  {
  }

  lemma ConsumeKeepsOrder(s: System)
    requires InOrder(s)
    ensures InOrder(ConsumeStep(s))
  {
  }

  /** Over every interleaving in which inserts fit: messages are dispatched in insertion order, each
      exactly once, and the count is the length of the list. */
  lemma {:induction false} FifoExactlyOnce(events: seq<Event>)
    requires AllFit(INITIAL, events)
    ensures InOrder(Run(INITIAL, events))
    decreases |events|
  {
    if events != [] {
      var before := events[..|events| - 1];
      FifoExactlyOnce(before);
      if events[|events| - 1] == Insert {
        InsertKeepsOrder(Run(INITIAL, before));
      } else {
        ConsumeKeepsOrder(Run(INITIAL, before));
      }
    } else {
      assert Numbers(0, 0) == [];
    }
  }

  // ----- what an insert that does not fit loses

  /** The message is neither dispatched, nor queued, nor in the consumer's hands. */
  predicate Lost(s: System, id: nat) {
    id < s.next && id !in s.queue && id !in s.dispatched && s.consumer != Taken(id) && s.consumer != Dispatched(id)
  }

  lemma WithoutOnlyShrinks(q: seq<nat>, id: nat, x: nat)
    requires x in Without(q, id)
    ensures x in q
  {
  }

  /** A lost message stays lost, whatever follows. */
  lemma LostForGood(s: System, e: Event, id: nat)
    requires Lost(s, id)
    ensures Lost(Step(s, e), id)
  {
    if e == Consume {
      match s.consumer
      case Idle =>
      case Taken(t) =>
      case Dispatched(t) =>
        if id in Without(s.queue, t) {
          WithoutOnlyShrinks(s.queue, t, id);
        }
    }
  }

  /** The insert that finds 256 messages takes the count for an empty list and drops them. */
  lemma OverflowLoses(s: System)
    requires InOrder(s) && !Fits(s)
    ensures InsertStep(s).queue == [s.next]
    ensures Lost(InsertStep(s), s.next - 1)
  {
  }

  predicate NoneLost(s: System) {
    forall id: nat | id < s.next :: !Lost(s, id)
  }

  lemma InOrderLosesNone(s: System)
    requires InOrder(s)
    ensures NoneLost(s)
  {
    forall id: nat | id < s.next
      ensures !Lost(s, id)
    {
      if id < Head(s) {
        assert Numbers(0, Head(s))[id] == id;
        if s.consumer.Dispatched? {
          assert Numbers(0, Head(s) + 1)[id] == id;
        }
        assert id in s.dispatched;
      } else {
        assert s.queue[id - Head(s)] == id;
      }
    }
  }

  /** Exactly when no message is ever lost: when no insert finds 256 messages queued. */
  lemma {:induction false} NoneLostIff(events: seq<Event>)
    ensures NoneLost(Run(INITIAL, events)) <==> AllFit(INITIAL, events)
    decreases |events|
  {
    if AllFit(INITIAL, events) {
      FifoExactlyOnce(events);
      InOrderLosesNone(Run(INITIAL, events));
    } else {
      var before, e := events[..|events| - 1], events[|events| - 1];
      var s := Run(INITIAL, before);
      NoneLostIff(before);
      if AllFit(INITIAL, before) {
        FifoExactlyOnce(before);
        OverflowLoses(s);
      } else {
        var id: nat :| id < s.next && Lost(s, id);
        LostForGood(s, e, id);
      }
    }
  }

  // ----- the consumer alone

  /** Three steps of the consumer dispatch and delete the head. */
  lemma ThreeSteps(s: System)
    requires InOrder(s) && s.consumer == Idle && s.queue != []
    ensures var t := ConsumeStep(ConsumeStep(ConsumeStep(s)));
            InOrder(t) && t.consumer == Idle && t.next == s.next && |t.queue| == |s.queue| - 1
  {
  }

  function ConsumeSteps(s: System, n: nat): System
    decreases n
  {
    if n == 0 then s else ConsumeSteps(ConsumeStep(s), n - 1)
  }

  /** Left alone, the consumer empties the list: then every message ever inserted was dispatched, in
      order. */
  lemma {:induction false} Drains(s: System)
    requires InOrder(s) && s.consumer == Idle
    ensures var t := ConsumeSteps(s, 3 * |s.queue|);
            t.queue == [] && t.dispatched == Numbers(0, s.next)
    decreases |s.queue|
  {
    if s.queue != [] {
      ThreeSteps(s);
      Drains(ConsumeStep(ConsumeStep(ConsumeStep(s))));
      ThreeAtOnce(s, 3 * |s.queue|);
    }
  }

  lemma ThreeAtOnce(s: System, n: nat)
    requires n >= 3
    ensures ConsumeSteps(s, n) == ConsumeSteps(ConsumeStep(ConsumeStep(ConsumeStep(s))), n - 3)
  {
    assert ConsumeSteps(s, n) == ConsumeSteps(ConsumeStep(s), n - 1);
    assert ConsumeSteps(ConsumeStep(s), n - 1) == ConsumeSteps(ConsumeStep(ConsumeStep(s)), n - 2);
  }
}
