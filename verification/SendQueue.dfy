/** The retransmission queue as a sequence of packets: what one poll of sendSocketData does to it, and
    how often a packet can be attempted. */
module SendQueue {
  import opened Calendar

  const MAX_RESEND_COUNT := 4
  const MAX_FAILD_COUNT := 4
  const MAX_RESEND_INTERVAL := 8

  /** A byte counter. */
  type U8 = x: int | 0 <= x < 256

  function Bump(x: U8): U8 {
    if x == 255 then 0 else x + 1
  }

  datatype Origin = LocalEvent | Udp | Tcp

  /** SEND_NODE_DATA. The data length is that of data. */
  datatype Packet = Packet(snIndex: nat, cmdData: bv8, data: seq<bv8>, origin: Origin, socketIp: nat, request: bool,
                           sendCount: U8, faildTimes: U8, nextSendTime: Seconds)
  {
    function Key(): Identity {
      Identity(snIndex, cmdData, data, origin, socketIp, request)
    }
  }

  /** What of a packet never changes: all but its counters and its due time. */
  datatype Identity = Identity(snIndex: nat, cmdData: bv8, data: seq<bv8>, origin: Origin, socketIp: nat, request: bool)

  /** needWaitSocketReback: the commands that are not sent again. */
  predicate NeedWaitSocketReback(cmdData: bv8) {
    !(cmdData == 0x06 || cmdData == 0x08 || cmdData == 0x43 || cmdData == 0xFE)
  }

  predicate NeedsReply(p: Packet) {
    p.request && NeedWaitSocketReback(p.cmdData)
  }

  predicate IsDue(p: Packet, cur: Seconds) {
    p.nextSendTime == 0 || p.nextSendTime < cur
  }

  function Later(cur: Seconds, interval: nat): Seconds {
    (cur + interval) % 0x1_0000_0000
  }

  /** The packet after an attempt at time cur; no packet when it is taken off the queue. */
  function AfterAttempt(p: Packet, cur: Seconds, sent: bool): (r: seq<Packet>)
    ensures |r| <= 1
  {
    if sent then
      if NeedsReply(p) && Bump(p.sendCount) < MAX_RESEND_COUNT then
        [p.(faildTimes := 0, sendCount := Bump(p.sendCount), nextSendTime := Later(cur, MAX_RESEND_INTERVAL))]
      else []
    else if Bump(p.faildTimes) < MAX_FAILD_COUNT then
      [p.(faildTimes := Bump(p.faildTimes), nextSendTime := Later(cur, MAX_RESEND_INTERVAL))]
    else []
  }

  /** A packet that was due but whose socket was not ready is put off; others are left alone. */
  function PutOff(p: Packet, cur: Seconds): Packet {
    if IsDue(p, cur) then p.(nextSendTime := Later(cur, MAX_RESEND_INTERVAL / 2)) else p
  }

  /** At most one packet is attempted in a poll. */
  datatype Outcome = NoAttempt | Attempt(packet: Packet, sent: bool)

  /** One pass over the queue from its k-th node on. ready(k) is what socketSelectWrite says when it is
      asked for node k, sent is the result of the one transmission. */
  function Poll(q: seq<Packet>, cur: Seconds, ready: nat -> bool, sent: bool, k: nat): (r: (seq<Packet>, Outcome))
    decreases |q|
  {
    if q == [] then ([], NoAttempt)
    else
      var p := q[0];
      if p.origin == LocalEvent then Poll(q[1..], cur, ready, sent, k + 1)
      else if IsDue(p, cur) && ready(k) then (AfterAttempt(p, cur, sent) + q[1..], Attempt(p, sent))
      else
        var (rest, outcome) := Poll(q[1..], cur, ready, sent, k + 1);
        ([PutOff(p, cur)] + rest, outcome)
  }

  /** Node k + i of the pass could be attempted. */
  predicate Able(q: seq<Packet>, cur: Seconds, ready: nat -> bool, k: nat, i: nat)
    requires i < |q|
  {
    q[i].origin != LocalEvent && IsDue(q[i], cur) && ready(k + i)
  }

  /** What a pass leaves of packets it goes past: packets of no socket are dropped, those due on a
      socket that is not ready are put off. */
  function Passed(q: seq<Packet>, cur: Seconds): seq<Packet> {
    if q == [] then []
    else
      var rest := Passed(q[1..], cur);
      if q[0].origin == LocalEvent then rest
      else [PutOff(q[0], cur)] + rest
  }

  /** A pass that goes past its first node. */
  lemma PassesFirst(q: seq<Packet>, cur: Seconds, ready: nat -> bool, sent: bool, k: nat)
    requires q != [] && !Able(q, cur, ready, k, 0)
    ensures var (rest, outcome) := Poll(q[1..], cur, ready, sent, k + 1);
            Poll(q, cur, ready, sent, k) == (Passed([q[0]], cur) + rest, outcome)
  {
    var rest := Poll(q[1..], cur, ready, sent, k + 1).0;
    assert Passed([q[0]], cur) == if q[0].origin == LocalEvent then [] else [PutOff(q[0], cur)] by {
      assert [q[0]][1..] == [];
    }
    assert [] + rest == rest;
  }

  lemma {:induction false} PassedSum(p: Packet, q: seq<Packet>, cur: Seconds)
    ensures Passed([p] + q, cur) == Passed([p], cur) + Passed(q, cur)
  {
    assert ([p] + q)[1..] == q && [p][1..] == [];
  }

  lemma SumAssoc<T>(a: seq<T>, b: seq<T>, c: seq<T>)
    ensures a + (b + c) == (a + b) + c
  {
  }

  /** What a poll makes of the queue when it attempts packet i. */
  function WithAttempt(q: seq<Packet>, cur: Seconds, sent: bool, i: nat): seq<Packet>
    requires i < |q|
  {
    Passed(q[..i], cur) + (AfterAttempt(q[i], cur, sent) + q[i + 1..])
  }

  lemma AttemptBehind(q: seq<Packet>, cur: Seconds, sent: bool, i: nat)
    requires i + 1 < |q|
    ensures WithAttempt(q, cur, sent, i + 1) == Passed([q[0]], cur) + WithAttempt(q[1..], cur, sent, i)
  {
    PassedSum(q[0], q[1..][..i], cur);
    assert [q[0]] + q[1..][..i] == q[..i + 1];
    assert q[1..][i + 1..] == q[i + 2..];
    SumAssoc(Passed([q[0]], cur), Passed(q[1..][..i], cur), AfterAttempt(q[i + 1], cur, sent) + q[i + 2..]);
  }

  /** The packet attempted is the first one that is due and whose socket is ready; nothing behind it
      is touched. */
  lemma {:induction false} AttemptsFirstAble(q: seq<Packet>, cur: Seconds, ready: nat -> bool, sent: bool, k: nat) returns (i: nat)
    ensures i <= |q| && forall j: nat | j < i :: !Able(q, cur, ready, k, j)
    ensures i < |q| ==> Able(q, cur, ready, k, i) && Poll(q, cur, ready, sent, k) == (WithAttempt(q, cur, sent, i), Attempt(q[i], sent))
    ensures i == |q| ==> Poll(q, cur, ready, sent, k) == (Passed(q, cur), NoAttempt)
    decreases |q|
  {
    i := 0;
    if q != [] && !Able(q, cur, ready, k, 0) {
      var i' := AttemptsFirstAble(q[1..], cur, ready, sent, k + 1);
      i := i' + 1;
      forall j: nat | 0 < j < i
        ensures !Able(q, cur, ready, k, j)
      {
        assert !Able(q[1..], cur, ready, k + 1, j - 1);
      }
      PassesFirst(q, cur, ready, sent, k);
      if i < |q| {
        assert Able(q[1..], cur, ready, k + 1, i');
        AttemptBehind(q, cur, sent, i');
      } else {
        PassedSum(q[0], q[1..], cur);
        assert [q[0]] + q[1..] == q;
      }
    } else if q != [] {
      assert q[..0] == [] && Passed([], cur) + (AfterAttempt(q[0], cur, sent) + q[1..]) == AfterAttempt(q[0], cur, sent) + q[1..];
    }
  }

  /** The packets of the two sockets, in order. */
  function Sockets(q: seq<Packet>): seq<Packet> {
    if q == [] then [] else (if q[0].origin == LocalEvent then [] else [q[0]]) + Sockets(q[1..])
  }

  lemma {:induction false} SocketsOfSum(a: seq<Packet>, b: seq<Packet>)
    ensures Sockets(a + b) == Sockets(a) + Sockets(b)
  {
    if a == [] {
      assert a + b == b;
    } else {
      assert (a + b)[1..] == a[1..] + b;
      SocketsOfSum(a[1..], b);
      SumAssoc(if a[0].origin == LocalEvent then [] else [a[0]], Sockets(a[1..]), Sockets(b));
    }
  }

  /** A further packet is kept if it is of one of the two sockets. */
  lemma SocketsNext(q: seq<Packet>, p: Packet)
    ensures Sockets(q + [p]) == Sockets(q) + (if p.origin == Udp || p.origin == Tcp then [p] else [])
  {
    SocketsOfSum(q, [p]);
    assert [p][1..] == [];
  }

  lemma {:induction false} PassedCount(q: seq<Packet>, cur: Seconds)
    ensures |Passed(q, cur)| == |Sockets(q)|
  {
    if q != [] {
      PassedCount(q[1..], cur);
    }
  }

  /** r is p with all but its due time; if p was due at cur, r is due at cur' once more than 4 seconds have
      passed, and otherwise nothing changed. */
  predicate Waits(p: Packet, r: Packet, cur: Seconds, cur': Seconds) {
    && r == p.(nextSendTime := r.nextSendTime)
    && if p.nextSendTime == 0 || p.nextSendTime < cur then
         && r.nextSendTime == (cur + 4) % 0x1_0000_0000
         && (cur + 4 < 0x1_0000_0000 ==> (r.nextSendTime == 0 || r.nextSendTime < cur' <==> cur' > cur + 4))
       else r == p
  }

  lemma {:induction false} PassedWaits(q: seq<Packet>, cur: Seconds, n: nat, cur': Seconds)
    requires n < |Passed(q, cur)| == |Sockets(q)|
    ensures Waits(Sockets(q)[n], Passed(q, cur)[n], cur, cur')
    decreases |q|
  {
    if q[0].origin == LocalEvent {
      PassedWaits(q[1..], cur, n, cur');
    } else if n > 0 {
      PassedWaits(q[1..], cur, n - 1, cur');
    }
  }

  lemma AllPassedWait(q: seq<Packet>, cur: Seconds, cur': Seconds)
    ensures |Passed(q, cur)| == |Sockets(q)|
    ensures forall n: nat | n < |Sockets(q)| :: Waits(Sockets(q)[n], Passed(q, cur)[n], cur, cur')
  {
    PassedCount(q, cur);
    forall n: nat | n < |Sockets(q)|
      ensures Waits(Sockets(q)[n], Passed(q, cur)[n], cur, cur')
    {
      PassedWaits(q, cur, n, cur');
    }
  }

  lemma FirstAble(q: seq<Packet>, cur: Seconds, ready: nat -> bool, j: nat)
    requires j < |q|
    ensures Able(q, cur, ready, 0, j) <==>
              q[j].origin != LocalEvent && (q[j].nextSendTime == 0 || q[j].nextSendTime < cur) && ready(j)
  {
  }

  /** What a poll leaves. Packet i is the first of a socket that is due and whose socket is ready. The
      packets of sockets before it stay in order and wait; the others before it are dropped, and those
      behind it stay. */
  lemma PollLeaves(q: seq<Packet>, cur: Seconds, ready: nat -> bool, sent: bool, cur': Seconds) returns (i: nat)
    ensures i <= |q|
    ensures forall j: nat | j < i ::
              !(q[j].origin != LocalEvent && (q[j].nextSendTime == 0 || q[j].nextSendTime < cur) && ready(j))
    ensures i < |q| ==> q[i].origin != LocalEvent && (q[i].nextSendTime == 0 || q[i].nextSendTime < cur) && ready(i)
    ensures var (q', outcome) := Poll(q, cur, ready, sent, 0);
            var kept := Sockets(q[..i]);
            && |kept| <= |q'|
            && (forall n: nat | n < |kept| :: Waits(kept[n], q'[n], cur, cur'))
            && (i == |q| ==> |q'| == |kept| && outcome == NoAttempt)
            && (i < |q| ==> q'[|kept|..] == AfterAttempt(q[i], cur, sent) + q[i + 1..] && outcome == Attempt(q[i], sent))
  {
    i := AttemptsFirstAble(q, cur, ready, sent, 0);
    forall j: nat | j <= i && j < |q|
      ensures Able(q, cur, ready, 0, j) <==>
                q[j].origin != LocalEvent && (q[j].nextSendTime == 0 || q[j].nextSendTime < cur) && ready(j)
    {
      FirstAble(q, cur, ready, j);
    }
    AllPassedWait(q[..i], cur, cur');
    assert q[..|q|] == q;
  }

  /** What an attempt leaves of its packet: nothing after the fourth success in a row of transmissions that
      wait for a reply, after any other success, and after the fourth failure in a row; otherwise the
      packet with its counters, due again once more than 8 seconds have passed. */
  lemma AttemptLeaves(p: Packet, cur: Seconds, sent: bool, cur': Seconds)
    ensures var waits := p.request && p.cmdData != 0x06 && p.cmdData != 0x08 && p.cmdData != 0x43 && p.cmdData != 0xFE;
            var next := (cur + 8) % 0x1_0000_0000;
            AfterAttempt(p, cur, sent)
            == if sent && waits && (p.sendCount + 1) % 256 < 4 then
                 [p.(faildTimes := 0, sendCount := (p.sendCount + 1) % 256, nextSendTime := next)]
               else if !sent && (p.faildTimes + 1) % 256 < 4 then
                 [p.(faildTimes := (p.faildTimes + 1) % 256, nextSendTime := next)]
               else []
    ensures cur + 8 < 0x1_0000_0000 ==> forall r | r in AfterAttempt(p, cur, sent) :: IsDue(r, cur') <==> cur' > cur + 8
  {
  }

  // ----- how often packets are attempted

  predicate InBounds(p: Packet) {
    p.sendCount < MAX_RESEND_COUNT && p.faildTimes < MAX_FAILD_COUNT
  }

  predicate AllInBounds(q: seq<Packet>) {
    forall p | p in q :: InBounds(p)
  }

  /** What is counted: all attempts, the attempts of one packet, or its successful transmissions. */
  datatype Measure = AllAttempts | AttemptsOf(id: Identity) | SendsOf(id: Identity)

  /** How much of it a queued packet can still use up. */
  function Left(m: Measure, p: Packet): int {
    match m
    case AllAttempts => (MAX_RESEND_COUNT - p.sendCount) * MAX_FAILD_COUNT - p.faildTimes
    case AttemptsOf(id) => if p.Key() == id then (MAX_RESEND_COUNT - p.sendCount) * MAX_FAILD_COUNT - p.faildTimes else 0
    case SendsOf(id) => if p.Key() != id then 0 else if NeedsReply(p) then MAX_RESEND_COUNT - p.sendCount else 1
  }

  function TotalLeft(m: Measure, q: seq<Packet>): int {
    if q == [] then 0 else Left(m, q[0]) + TotalLeft(m, q[1..])
  }

  /** How much of it the outcome of a poll uses up. */
  function Used(m: Measure, outcome: Outcome): nat {
    match outcome
    case NoAttempt => 0
    case Attempt(p, sent) =>
      match m
      case AllAttempts => 1
      case AttemptsOf(id) => if p.Key() == id then 1 else 0
      case SendsOf(id) => if p.Key() == id && sent then 1 else 0
  }

  lemma AttemptCosts(m: Measure, p: Packet, cur: Seconds, sent: bool)
    requires InBounds(p)
    ensures AllInBounds(AfterAttempt(p, cur, sent))
    ensures TotalLeft(m, AfterAttempt(p, cur, sent)) + Used(m, Attempt(p, sent)) <= Left(m, p)
  {
  }

  lemma {:induction false} TotalOfSum(m: Measure, a: seq<Packet>, b: seq<Packet>)
    ensures TotalLeft(m, a + b) == TotalLeft(m, a) + TotalLeft(m, b)
  {
    if a == [] {
      assert a + b == b;
    } else {
      TotalOfSum(m, a[1..], b);
      assert (a + b)[1..] == a[1..] + b;
    }
  }

  lemma {:induction false} TotalInBounds(m: Measure, q: seq<Packet>)
    requires AllInBounds(q)
    ensures 0 <= TotalLeft(m, q) <= MAX_RESEND_COUNT * MAX_FAILD_COUNT * |q|
    ensures m == AllAttempts && q != [] ==> TotalLeft(m, q) > 0
  {
    if q != [] {
      assert InBounds(q[0]) by {
        assert q[0] in q;
      }
      TotalInBounds(m, q[1..]);
    }
  }

  /** A poll keeps the counters in bounds, and what it uses up is taken from what was left. */
  lemma {:induction false} PollCosts(m: Measure, q: seq<Packet>, cur: Seconds, ready: nat -> bool, sent: bool, k: nat)
    requires AllInBounds(q)
    ensures var (q', outcome) := Poll(q, cur, ready, sent, k);
            AllInBounds(q') && TotalLeft(m, q') + Used(m, outcome) <= TotalLeft(m, q)
    decreases |q|
  {
    if q != [] {
      var p, rest := q[0], q[1..];
      assert InBounds(p) by {
        assert p in q;
      }
      if p.origin != LocalEvent && IsDue(p, cur) && ready(k) {
        AttemptCosts(m, p, cur, sent);
        TotalOfSum(m, AfterAttempt(p, cur, sent), rest);
      } else {
        PollCosts(m, rest, cur, ready, sent, k + 1);
        TotalOfSum(m, [PutOff(p, cur)], Poll(rest, cur, ready, sent, k + 1).0);
      }
    }
  }

  // ----- runs of polls, inserts and deletions

  datatype Event =
    | PollOnce(cur: Seconds, ready: nat -> bool, sent: bool)
    | Add(packet: Packet)
    | Delete(index: nat)

  function Step(q: seq<Packet>, e: Event): (seq<Packet>, Outcome) {
    match e
    case PollOnce(cur, ready, sent) => Poll(q, cur, ready, sent, 0)
    case Add(p) => (q + [p], NoAttempt)
    case Delete(i) => (if i < |q| then q[..i] + q[i + 1..] else q, NoAttempt)
  }

  function After(q: seq<Packet>, events: seq<Event>): seq<Packet>
    decreases |events|
  {
    if events == [] then q else After(Step(q, events[0]).0, events[1..])
  }

  /** How much the polls of a run use up. */
  function TotalUsed(m: Measure, q: seq<Packet>, events: seq<Event>): nat
    decreases |events|
  {
    if events == [] then 0
    else
      var (q', outcome) := Step(q, events[0]);
      Used(m, outcome) + TotalUsed(m, q', events[1..])
  }

  /** How much the packets inserted during a run bring with them. */
  function TotalAdded(m: Measure, events: seq<Event>): int {
    if events == [] then 0 else (if events[0].Add? then Left(m, events[0].packet) else 0) + TotalAdded(m, events[1..])
  }

  ghost predicate AddsInBounds(events: seq<Event>) {
    forall e | e in events && e.Add? :: InBounds(e.packet)
  }

  lemma DeleteCosts(m: Measure, q: seq<Packet>, i: nat)
    requires AllInBounds(q) && i < |q|
    ensures AllInBounds(q[..i] + q[i + 1..])
    ensures TotalLeft(m, q[..i] + q[i + 1..]) <= TotalLeft(m, q)
  {
    assert q == q[..i] + ([q[i]] + q[i + 1..]);
    TotalOfSum(m, q[..i], [q[i]] + q[i + 1..]);
    TotalOfSum(m, q[..i], q[i + 1..]);
    TotalOfSum(m, [q[i]], q[i + 1..]);
    TotalInBounds(m, [q[i]]);
  }

  lemma StepCosts(m: Measure, q: seq<Packet>, e: Event)
    requires AllInBounds(q) && (e.Add? ==> InBounds(e.packet))
    ensures var (q', outcome) := Step(q, e);
            && AllInBounds(q')
            && TotalLeft(m, q') + Used(m, outcome) <= TotalLeft(m, q) + (if e.Add? then Left(m, e.packet) else 0)
  {
    match e
    case PollOnce(cur, ready, sent) => PollCosts(m, q, cur, ready, sent, 0);
    case Add(p) => TotalOfSum(m, q, [p]);
    case Delete(i) =>
      if i < |q| {
        DeleteCosts(m, q, i);
      }
  }

  /** Over every interleaving of polls, inserts and deletions: what was used up and what is left never
      exceed what was there and what was brought in. */
  lemma {:induction false} RunIsBounded(m: Measure, q: seq<Packet>, events: seq<Event>)
    requires AllInBounds(q) && AddsInBounds(events)
    ensures AllInBounds(After(q, events))
    ensures TotalUsed(m, q, events) + TotalLeft(m, After(q, events)) <= TotalLeft(m, q) + TotalAdded(m, events)
    decreases |events|
  {
    if events != [] {
      assert events[0] in events;
      StepCosts(m, q, events[0]);
      RunIsBounded(m, Step(q, events[0]).0, events[1..]);
    }
  }

  /** So at most 16 attempts are made per packet queued or inserted, and once as many attempts were
      made as could be, the queue is empty. */
  lemma AttemptsAreBounded(q: seq<Packet>, events: seq<Event>, inserts: nat)
    requires AllInBounds(q) && AddsInBounds(events) && inserts == Inserts(events)
    ensures TotalUsed(AllAttempts, q, events) <= 16 * (|q| + inserts)
    ensures TotalUsed(AllAttempts, q, events) == TotalLeft(AllAttempts, q) + TotalAdded(AllAttempts, events) ==> After(q, events) == []
  {
    RunIsBounded(AllAttempts, q, events);
    TotalInBounds(AllAttempts, q);
    TotalInBounds(AllAttempts, After(q, events));
    AddedInBounds(events);
  }

  function Inserts(events: seq<Event>): nat {
    if events == [] then 0 else (if events[0].Add? then 1 else 0) + Inserts(events[1..])
  }

  lemma {:induction false} AddedInBounds(events: seq<Event>)
    requires AddsInBounds(events)
    ensures TotalAdded(AllAttempts, events) <= MAX_RESEND_COUNT * MAX_FAILD_COUNT * Inserts(events)
  {
    if events != [] {
      assert events[0] in events;
      AddedInBounds(events[1..]);
    }
  }

  // ----- one packet among others

  predicate NoneIs(q: seq<Packet>, id: Identity) {
    forall p | p in q :: p.Key() != id
  }

  ghost predicate NoneAddedIs(events: seq<Event>, id: Identity) {
    forall e | e in events && e.Add? :: e.packet.Key() != id
  }

  lemma {:induction false} NothingLeft(m: Measure, q: seq<Packet>)
    requires m.AttemptsOf? || m.SendsOf?
    requires NoneIs(q, m.id)
    ensures TotalLeft(m, q) == 0
  {
    if q != [] {
      assert q[0] in q;
      NothingLeft(m, q[1..]);
    }
  }

  lemma {:induction false} NothingAdded(m: Measure, events: seq<Event>)
    requires m.AttemptsOf? || m.SendsOf?
    requires NoneAddedIs(events, m.id)
    ensures TotalAdded(m, events) == 0
  {
    if events != [] {
      assert events[0] in events;
      NothingAdded(m, events[1..]);
    }
  }

  /** A packet queued with zero counters, over every interleaving of polls, deletions and inserts of
      other packets: it is attempted at most 16 times, and sent at most 4 times, or once if it needs no
      reply. */
  lemma PacketIsBounded(q: seq<Packet>, p: Packet, events: seq<Event>)
    requires AllInBounds(q) && AddsInBounds(events) && p.sendCount == 0 && p.faildTimes == 0
    requires NoneIs(q, p.Key()) && NoneAddedIs(events, p.Key())
    ensures TotalUsed(AttemptsOf(p.Key()), q + [p], events) <= 16
    ensures TotalUsed(SendsOf(p.Key()), q + [p], events)
         <= if p.request && p.cmdData != 0x06 && p.cmdData != 0x08 && p.cmdData != 0x43 && p.cmdData != 0xFE then 4 else 1
  {
    MeasureIsBounded(AttemptsOf(p.Key()), q, p, events);
    MeasureIsBounded(SendsOf(p.Key()), q, p, events);
  }

  lemma MeasureIsBounded(m: Measure, q: seq<Packet>, p: Packet, events: seq<Event>)
    requires AllInBounds(q) && AddsInBounds(events) && InBounds(p) && (m.AttemptsOf? || m.SendsOf?) && m.id == p.Key()
    requires NoneIs(q, m.id) && NoneAddedIs(events, m.id)
    ensures TotalUsed(m, q + [p], events) <= Left(m, p)
  {
    RunIsBounded(m, q + [p], events);
    TotalInBounds(m, After(q + [p], events));
    TotalOfSum(m, q, [p]);
    NothingLeft(m, q);
    NothingAdded(m, events);
  }

  // ----- the queue drains

  predicate AllDue(q: seq<Packet>, cur: Seconds) {
    forall p | p in q :: IsDue(p, cur)
  }

  ghost predicate AlwaysReady(ready: nat -> bool) {
    forall k :: ready(k)
  }

  /** Polls more than 8 seconds apart. */
  ghost predicate Paced(events: seq<Event>)
    decreases |events|
  {
    events != [] ==>
      && events[0].PollOnce?
      && Paced(events[1..])
      && (|events| > 1 ==> events[1].PollOnce? && events[0].cur + 8 < events[1].cur)
  }

  /** How many of the polls find every socket ready. */
  ghost function ReadyPolls(events: seq<Event>): nat {
    if events == [] then 0
    else (if events[0].PollOnce? && AlwaysReady(events[0].ready) then 1 else 0) + ReadyPolls(events[1..])
  }

  lemma DueAgain(p: Packet, cur: Seconds, sent: bool, cur': Seconds)
    requires cur + 8 < cur'
    ensures AllDue(AfterAttempt(p, cur, sent), cur')
    ensures IsDue(p, cur) ==> IsDue(PutOff(p, cur), cur')
  {
    assert Later(cur, MAX_RESEND_INTERVAL) == cur + 8 && Later(cur, MAX_RESEND_INTERVAL / 2) == cur + 4;
  }

  /** After a poll of packets that are all due, whichever sockets are ready, all that stay are due again
      more than 8 seconds later. */
  lemma {:induction false} PollKeepsDue(q: seq<Packet>, cur: Seconds, ready: nat -> bool, sent: bool, k: nat, cur': Seconds)
    requires AllDue(q, cur) && cur + 8 < cur'
    ensures AllDue(Poll(q, cur, ready, sent, k).0, cur')
    decreases |q|
  {
    if q != [] {
      assert q[0] in q;
      assert forall p | p in q[1..] :: p in q;
      DueAgain(q[0], cur, sent, cur');
      PollKeepsDue(q[1..], cur, ready, sent, k + 1, cur');
    }
  }

  /** A poll of packets that are all due on ready sockets attempts one or empties the queue. */
  lemma {:induction false} PollProgresses(q: seq<Packet>, cur: Seconds, ready: nat -> bool, sent: bool, k: nat)
    requires AllDue(q, cur) && AlwaysReady(ready)
    ensures var (q', outcome) := Poll(q, cur, ready, sent, k);
            q' != [] ==> outcome != NoAttempt
    decreases |q|
  {
    if q != [] {
      assert q[0] in q;
      assert ready(k);
      if q[0].origin == LocalEvent {
        PollProgresses(q[1..], cur, ready, sent, k + 1);
      }
    }
  }

  /** Sockets may become ready and stop being ready again: once as many polls found every socket ready as
      attempts were left at the start, the queue is empty, whether or not the transmissions succeed. */
  lemma {:induction false} Drains(q: seq<Packet>, events: seq<Event>)
    requires AllInBounds(q) && Paced(events) && TotalLeft(AllAttempts, q) <= ReadyPolls(events)
    requires events != [] ==> AllDue(q, events[0].cur)
    ensures After(q, events) == []
    decreases |events|
  {
    TotalInBounds(AllAttempts, q);
    if events != [] {
      var PollOnce(cur, ready, sent) := events[0];
      var (q', outcome) := Poll(q, cur, ready, sent, 0);
      PollCosts(AllAttempts, q, cur, ready, sent, 0);
      TotalInBounds(AllAttempts, q');
      if |events| > 1 {
        PollKeepsDue(q, cur, ready, sent, 0, events[1].cur);
      }
      if AlwaysReady(ready) {
        PollProgresses(q, cur, ready, sent, 0);
      }
      if q' == [] {
        EmptyStays(events[1..]);
      } else {
        Drains(q', events[1..]);
      }
    }
  }

  lemma {:induction false} EmptyStays(events: seq<Event>)
    requires Paced(events)
    ensures After([], events) == []
    decreases |events|
  {
    if events != [] {
      EmptyStays(events[1..]);
    }
  }

  // ----- the bound is reached

  /** What a poll of a single packet adds to a run that follows it. */
  lemma FirstPoll(m: Measure, p: Packet, cur: Seconds, ready: nat -> bool, sent: bool, rest: seq<Event>)
    requires p.origin != LocalEvent && IsDue(p, cur) && ready(0)
    ensures var events := [PollOnce(cur, ready, sent)] + rest;
            && TotalUsed(m, [p], events) == Used(m, Attempt(p, sent)) + TotalUsed(m, AfterAttempt(p, cur, sent), rest)
            && After([p], events) == After(AfterAttempt(p, cur, sent), rest)
  {
    var e := PollOnce(cur, ready, sent);
    assert ([e] + rest)[0] == e && ([e] + rest)[1..] == rest;
    assert [p][1..] == [];
    assert AfterAttempt(p, cur, sent) + [] == AfterAttempt(p, cur, sent);
    assert Step([p], e) == (AfterAttempt(p, cur, sent), Attempt(p, sent));
  }

  /** Three failures and a success, 9 seconds apart, and then the rest. */
  function Round(cur: nat, ready: nat -> bool, rest: seq<Event>): seq<Event>
    requires cur + 36 < 0x1_0000_0000
  {
    [PollOnce(cur, ready, false)] + ([PollOnce(cur + 9, ready, false)] + ([PollOnce(cur + 18, ready, false)] + ([PollOnce(cur + 27, ready, true)] + rest)))
  }

  /** The packet before the k-th poll of a round. */
  function InRound(p: Packet, cur: nat, k: nat): Packet
    requires 0 < k <= 3 && cur + 36 < 0x1_0000_0000
  {
    p.(faildTimes := k, nextSendTime := cur + 9 * k - 1)
  }

  lemma Failures(p: Packet, cur: nat)
    requires p.faildTimes == 0 && cur + 36 < 0x1_0000_0000
    ensures AfterAttempt(p, cur, false) == [InRound(p, cur, 1)]
    ensures AfterAttempt(InRound(p, cur, 1), cur + 9, false) == [InRound(p, cur, 2)]
    ensures AfterAttempt(InRound(p, cur, 2), cur + 18, false) == [InRound(p, cur, 3)]
    ensures IsDue(InRound(p, cur, 1), cur + 9) && IsDue(InRound(p, cur, 2), cur + 18) && IsDue(InRound(p, cur, 3), cur + 27)
  {
  }

  lemma OneRound(m: Measure, p: Packet, cur: nat, ready: nat -> bool, rest: seq<Event>)
    requires m == AttemptsOf(p.Key()) || m == SendsOf(p.Key())
    requires p.origin != LocalEvent && p.faildTimes == 0 && cur + 36 < 0x1_0000_0000 && IsDue(p, cur) && ready(0)
    ensures var r := AfterAttempt(InRound(p, cur, 3), cur + 27, true);
            && TotalUsed(m, [p], Round(cur, ready, rest)) == (if m.AttemptsOf? then 4 else 1) + TotalUsed(m, r, rest)
            && After([p], Round(cur, ready, rest)) == After(r, rest)
  {
    Failures(p, cur);
    var r3 := [PollOnce(cur + 27, ready, true)] + rest;
    var r2 := [PollOnce(cur + 18, ready, false)] + r3;
    var r1 := [PollOnce(cur + 9, ready, false)] + r2;
    FirstPoll(m, p, cur, ready, false, r1);
    FirstPoll(m, InRound(p, cur, 1), cur + 9, ready, false, r2);
    FirstPoll(m, InRound(p, cur, 2), cur + 18, ready, false, r3);
    FirstPoll(m, InRound(p, cur, 3), cur + 27, ready, true, rest);
  }

  /** The bounds are reached: a packet that needs a reply is attempted 16 times and sent 4 times when
      three failures come before each success. */
  lemma {:induction false} BoundIsReached(p: Packet, cur: nat, ready: nat -> bool, n: nat) returns (events: seq<Event>)
    requires p.request && p.cmdData != 0x06 && p.cmdData != 0x08 && p.cmdData != 0x43 && p.cmdData != 0xFE
    requires p.origin != LocalEvent && p.faildTimes == 0 && p.sendCount + n == 4
    requires n > 0 && cur + 36 * n < 0x1_0000_0000 && IsDue(p, cur) && ready(0)
    ensures TotalUsed(AttemptsOf(p.Key()), [p], events) == 4 * n
    ensures TotalUsed(SendsOf(p.Key()), [p], events) == n
    ensures After([p], events) == []
    decreases n
  {
    var r := AfterAttempt(InRound(p, cur, 3), cur + 27, true);
    var rest := [];
    if n > 1 {
      rest := BoundIsReached(r[0], cur + 36, ready, n - 1);
    }
    events := Round(cur, ready, rest);
    OneRound(AttemptsOf(p.Key()), p, cur, ready, rest);
    OneRound(SendsOf(p.Key()), p, cur, ready, rest);
  }
}
