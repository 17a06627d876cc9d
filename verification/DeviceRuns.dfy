/** Runs of the device: whatever happens to the absences in between, each alarm and each countdown goes
    through the checks of every minute, and the log of the switch keeps them in order. */
module DeviceRuns {
  import opened WeekMask
  import opened Calendar
  import opened Alarms
  import opened Absences
  import opened AbsenceCheck
  import opened AbsenceRuns
  import opened Countdowns
  import opened CatchUp
  import opened DeviceChecks

  // ----- runs of checks

  /** A check of the date of a second: the device before and after. */
  datatype Checked = Checked(second: Seconds, before: Device, after: Device)

  ghost predicate IsCheck(env: Environment, c: Checked) {
    c.after == CheckOneMinute(env, c.before, Civil(c.second))
  }

  function Nth(run: seq<Checked>, k: nat): Checked
    requires k < |run|
  {
    run[k]
  }

  ghost predicate AreChecks(env: Environment, run: seq<Checked>) {
    forall k: nat {:trigger Nth(run, k)} | k < |run| :: IsCheck(env, Nth(run, k))
  }

  /** What may happen to the device between two checks: the clock is read, absences are set or deleted. */
  ghost predicate Idle(d: Device, r: Device) {
    && r.alarms == d.alarms && r.countdowns == d.countdowns
    && d.absence.readings <= r.absence.readings && d.absence.actions <= r.absence.actions
  }

  /** The checks of the run, and what happens before, between and after them, lead from d to r. */
  ghost predicate Leads(d: Device, run: seq<Checked>, r: Device) {
    if run == [] then Idle(d, r)
    else
      var n := |run| - 1;
      Leads(d, run[..n], run[n].before) && Idle(run[n].after, r)
  }

  lemma {:induction false} LeadsUpTo(d: Device, run: seq<Checked>, r: Device, k: nat)
    requires Leads(d, run, r) && k < |run|
    ensures Leads(d, run[..k], run[k].before)
  {
    var n := |run| - 1;
    if k < n {
      LeadsUpTo(d, run[..n], run[n].before, k);
      assert run[..n][..k] == run[..k];
    }
  }

  function SecondsOf(run: seq<Checked>): (ticks: seq<Seconds>)
    ensures |ticks| == |run|
  {
    seq(|run|, k requires 0 <= k < |run| => run[k].second)
  }

  lemma SecondsUpTo(run: seq<Checked>, k: nat, first: nat)
    requires k <= |run|
    ensures SecondsOf(run[..k]) == SecondsOf(run)[..k]
    ensures EveryMinute(SecondsOf(run), first) ==> EveryMinute(SecondsOf(run[..k]), first)
    ensures EveryMinute(SecondsOf(run), first) && k < |run| ==> run[k].second / 60 == first + k
  {
    assert EveryMinute(SecondsOf(run), first) && k < |run| ==> SecondsOf(run)[k] / 60 == first + k;
  }

  // ----- alarms

  lemma AlarmAfter(env: Environment, run: seq<Checked>, k: nat, i: nat)
    requires AreChecks(env, run) && k < |run| && i < |run[k].before.alarms|
    ensures var c, minute := run[k], run[k].second / 60;
            && |c.after.alarms| == |c.before.alarms|
            && c.after.alarms[i] == AfterCheck(c.before.alarms[i], Weekday(minute), minute % MINUTES_PER_DAY)
  {
    assert IsCheck(env, Nth(run, k));
    MinuteOfCivil(run[k].second);
  }

  lemma ChecksUpTo(env: Environment, run: seq<Checked>, n: nat)
    requires AreChecks(env, run) && n <= |run|
    ensures AreChecks(env, run[..n])
  {
    forall k: nat | k < n
      ensures IsCheck(env, Nth(run[..n], k))
    {
      assert Nth(run[..n], k) == Nth(run, k);
    }
  }

  /** Over a run of checks for every minute from first on, each alarm record goes through exactly the
      minutes AfterMinutes counts, so what is proved of those holds of the device. */
  lemma {:induction false} AlarmsSeeEveryMinute(env: Environment, d: Device, run: seq<Checked>, r: Device, first: nat, i: nat)
    requires AreChecks(env, run) && Leads(d, run, r) && EveryMinute(SecondsOf(run), first) && i < |d.alarms|
    ensures |r.alarms| == |d.alarms| && r.alarms[i] == AfterMinutes(d.alarms[i], first, |run|)
    decreases |run|
  {
    if run != [] {
      var n := |run| - 1;
      SecondsUpTo(run, n, first);
      ChecksUpTo(env, run, n);
      AlarmsSeeEveryMinute(env, d, run[..n], run[n].before, first, i);
      AlarmAfter(env, run, n, i);
      OneMoreMinute(d.alarms[i], first, |run|, first + n);
    }
  }

  // ----- countdowns

  /** The device when the turn of countdown i comes. */
  ghost function Turn(env: Environment, d: Device, i: nat, t: TimeData): (r: Device)
    requires i <= |d.countdowns|
    ensures Goes(d, r) && forall j: nat | i <= j < |d.countdowns| :: r.countdowns[j] == d.countdowns[j]
  {
    if i == 0 then d else CheckOneCountdown(env, Turn(env, d, i - 1, t), i - 1, t)
  }

  lemma {:induction false} RestAfterTurn(env: Environment, d: Device, i: nat, t: TimeData)
    requires i <= |d.countdowns|
    ensures CheckCountdowns(env, d, 0, t) == CheckCountdowns(env, Turn(env, d, i, t), i, t)
  {
    if i > 0 {
      RestAfterTurn(env, d, i - 1, t);
    }
  }

  lemma {:induction false} EarlierStay(env: Environment, d: Device, i: nat, t: TimeData, j: nat)
    requires j < i <= |d.countdowns|
    ensures CheckCountdowns(env, d, i, t).countdowns[j] == d.countdowns[j]
    decreases |d.countdowns| - i
  {
    if i < |d.countdowns| {
      EarlierStay(env, CheckOneCountdown(env, d, i, t), i + 1, t, j);
    }
  }

  /** The device when the turn of countdown i comes in a check. */
  ghost function TurnIn(env: Environment, c: Checked, i: nat): Device
    requires i < |c.before.countdowns|
  {
    Turn(env, CheckAlarmsAndAbsences(env, c.before, Civil(c.second)), i, Civil(c.second))
  }

  /** What the clock shows then. */
  ghost function ClockIn(env: Environment, c: Checked, i: nat): Seconds
    requires i < |c.before.countdowns|
  {
    env.clock(TurnIn(env, c, i).absence.readings)
  }

  /** The check carries countdown i out. */
  ghost predicate CarriesOut(env: Environment, c: Checked, i: nat)
    requires i < |c.before.countdowns|
  {
    Acts(c.before.countdowns[i], Civil(c.second), ClockIn(env, c, i))
  }

  /** A check does to countdown i what one comparison does, and leaves its action in the log unless an
      absence runs. */
  lemma CountdownInCheck(env: Environment, c: Checked, i: nat)
    requires IsCheck(env, c) && i < |c.before.countdowns|
    ensures var w, t := c.before.countdowns[i], Civil(c.second);
            && |c.after.countdowns| == |c.before.countdowns| && c.after.countdowns[i] == AfterCountdown(w, t, ClockIn(env, c, i))
            && TurnIn(env, c, i).absence.actions
               + (if CarriesOut(env, c, i) && !c.after.absence.running then [if w.action == 1 then Open else Close] else [])
               <= c.after.absence.actions
  {
    var t := Civil(c.second);
    var d := CheckAlarmsAndAbsences(env, c.before, t);
    var turn := TurnIn(env, c, i);
    var next := CheckOneCountdown(env, turn, i, t);
    RestAfterTurn(env, d, i, t);
    EarlierStay(env, next, i + 1, t, i);
    assert c.after == CheckCountdowns(env, next, i + 1, t);
  }

  lemma CountdownAfter(env: Environment, run: seq<Checked>, k: nat, i: nat)
    requires AreChecks(env, run) && k < |run| && i < |run[k].before.countdowns|
    ensures var c := run[k];
            |c.after.countdowns| == |c.before.countdowns|
            && c.after.countdowns[i] == AfterCountdown(c.before.countdowns[i], Civil(c.second), ClockIn(env, c, i))
  {
    assert IsCheck(env, Nth(run, k));
    CountdownInCheck(env, run[k], i);
  }

  /** Each check finds a countdown i. */
  ghost predicate HasCountdown(run: seq<Checked>, i: nat) {
    forall c | c in run :: i < |c.before.countdowns|
  }

  /** What the clock shows at each check of countdown i. */
  ghost function ClocksOf(env: Environment, run: seq<Checked>, i: nat): (clocks: seq<Seconds>)
    requires HasCountdown(run, i)
    ensures |clocks| == |run|
  {
    seq(|run|, k requires 0 <= k < |run| => ClockIn(env, run[k], i))
  }

  lemma ClocksUpTo(env: Environment, run: seq<Checked>, i: nat, k: nat)
    requires HasCountdown(run, i) && k <= |run|
    ensures HasCountdown(run[..k], i) && ClocksOf(env, run[..k], i) == ClocksOf(env, run, i)[..k]
  {
  }

  lemma FollowsOneMore(env: Environment, c: Countdown, run: seq<Checked>, i: nat)
    requires run != [] && HasCountdown(run, i)
    ensures var n := |run| - 1;
            && HasCountdown(run[..n], i) && i < |run[n].before.countdowns|
            && AfterTicks(c, SecondsOf(run), ClocksOf(env, run, i))
            == AfterCountdown(AfterTicks(c, SecondsOf(run[..n]), ClocksOf(env, run[..n], i)), Civil(run[n].second), ClockIn(env, run[n], i))
  {
    var n := |run| - 1;
    ClocksUpTo(env, run, i, n);
    SecondsUpTo(run, n, 0);
  }

  lemma HasOneMore(run: seq<Checked>, i: nat)
    requires run != [] && HasCountdown(run[..|run| - 1], i) && i < |run[|run| - 1].before.countdowns|
    ensures HasCountdown(run, i)
  {
    assert run == run[..|run| - 1] + [run[|run| - 1]];
  }

  /** Every run, replays included, takes each countdown record through AfterTicks. */
  lemma {:induction false} CountdownsFollow(env: Environment, d: Device, run: seq<Checked>, r: Device, i: nat)
    requires AreChecks(env, run) && Leads(d, run, r) && i < |d.countdowns|
    ensures HasCountdown(run, i) && |r.countdowns| == |d.countdowns|
    ensures r.countdowns[i] == AfterTicks(d.countdowns[i], SecondsOf(run), ClocksOf(env, run, i))
    decreases |run|
  {
    if run != [] {
      var n := |run| - 1;
      ChecksUpTo(env, run, n);
      CountdownsFollow(env, d, run[..n], run[n].before, i);
      CountdownAfter(env, run, n, i);
      HasOneMore(run, i);
      FollowsOneMore(env, d.countdowns[i], run, i);
    }
  }

  /** Over a run of checks for every minute from first on, with a clock that does not go back: a countdown
      is carried out exactly at the check of its minute, if and only if the clock is then at most 60
      seconds past the count. */
  lemma CountdownCarriedOutIff(env: Environment, d: Device, run: seq<Checked>, r: Device, first: nat, i: nat, k: nat)
    requires AreChecks(env, run) && Leads(d, run, r) && EveryMinute(SecondsOf(run), first) && k < |run| && HasCountdown(run, i)
    requires i < |d.countdowns| && Steady(ClocksOf(env, run, i), d.countdowns[i].count)
    requires d.countdowns[i].active && first <= d.countdowns[i].count / 60
    ensures var c := d.countdowns[i];
            CarriesOut(env, run[k], i) <==> k == c.count / 60 - first && ClockIn(env, run[k], i) <= c.count + 60
  {
    LeadsUpTo(d, run, r, k);
    ChecksUpTo(env, run, k);
    CountdownsFollow(env, d, run[..k], run[k].before, i);
    SecondsUpTo(run, k, first);
    ClocksUpTo(env, run, i, k);
    CarriedOutIff(d.countdowns[i], SecondsOf(run), ClocksOf(env, run, i), first, k);
  }

  // ----- the log of the switch

  /** The actions alarm i asks for in a check; a running absence suppresses them. */
  ghost function Asked(c: Checked, i: nat): seq<Switch>
    requires i < |c.before.alarms|
  {
    if c.before.absence.running then [] else Actions(c.before.alarms[i], Civil(c.second).week, Civil(c.second).hour * 60 + Civil(c.second).minute)
  }

  lemma {:induction false} SplitActions(alarms: seq<Alarm>, j: nat, i: nat, week: nat, minute: nat) returns (pre: seq<Switch>, post: seq<Switch>)
    requires j <= i < |alarms| && week < 7
    ensures AlarmActions(alarms, j, week, minute, false) == pre + Actions(alarms[i], week, minute) + post
    decreases i - j
  {
    if j == i {
      pre, post := [], AlarmActions(alarms, j + 1, week, minute, false);
    } else {
      pre, post := SplitActions(alarms, j + 1, i, week, minute);
      pre := Actions(alarms[j], week, minute) + pre;
    }
  }

  /** A check only adds to the log. */
  lemma LogGrows(env: Environment, run: seq<Checked>, k: nat)
    requires AreChecks(env, run) && k < |run|
    ensures run[k].before.absence.actions <= run[k].after.absence.actions
  {
    assert IsCheck(env, Nth(run, k));
  }

  lemma AlarmsInLog(env: Environment, c: Checked) returns (post: seq<Switch>)
    requires IsCheck(env, c)
    ensures var t, was := Civil(c.second), c.before.absence;
            c.after.absence.actions
            == was.actions + AlarmActions(c.before.alarms, 0, t.week, t.hour * 60 + t.minute, was.running) + post
  {
    var t, was := Civil(c.second), c.before.absence;
    var logged := was.actions + AlarmActions(c.before.alarms, 0, t.week, t.hour * 60 + t.minute, was.running);
    post := c.after.absence.actions[|logged|..];
  }

  /** What alarm i asks for in a check stands in the log, behind what was there before. */
  lemma AlarmInLog(env: Environment, c: Checked, i: nat) returns (pre: seq<Switch>, post: seq<Switch>)
    requires IsCheck(env, c) && i < |c.before.alarms|
    ensures c.after.absence.actions == c.before.absence.actions + pre + Asked(c, i) + post
  {
    var t := Civil(c.second);
    var rest := AlarmsInLog(env, c);
    if c.before.absence.running {
      pre, post := [], rest;
    } else {
      pre, post := SplitActions(c.before.alarms, 0, i, t.week, t.hour * 60 + t.minute);
      Regrouped(c.before.absence.actions, pre, Asked(c, i), post, rest);
      post := post + rest;
    }
  }

  lemma Regrouped<T>(a: seq<T>, b: seq<T>, c: seq<T>, d: seq<T>, e: seq<T>)
    ensures a + (b + c + d) + e == a + b + c + (d + e)
  {
  }

  lemma {:induction false} LogGrowsOver(env: Environment, d: Device, run: seq<Checked>, r: Device, j: nat)
    requires AreChecks(env, run) && Leads(d, run, r) && j < |run|
    ensures run[j].after.absence.actions <= r.absence.actions
    decreases |run|
  {
    var n := |run| - 1;
    if j < n {
      ChecksUpTo(env, run, n);
      LogGrowsOver(env, d, run[..n], run[n].before, j);
      LogGrows(env, run, n);
    }
  }

  lemma AsksAt(c: Checked, i: nat)
    requires i < |c.before.alarms|
    ensures Close in Asked(c, i) <==> !c.before.absence.running && ClosesAt(c.before.alarms[i], c.second / 60)
    ensures Open in Asked(c, i) <==> !c.before.absence.running && OpensAt(c.before.alarms[i], c.second / 60)
  {
    MinuteOfCivil(c.second);
  }

  lemma AskedTogether(c: Checked, c': Checked, i: nat, a: Alarm)
    requires i < |c.before.alarms| && i < |c'.before.alarms| && c.before.alarms[i] == a == c'.before.alarms[i]
    requires a.IsSet() && c'.second / 60 == c.second / 60 + a.Duration()
    ensures !c.before.absence.running && !c'.before.absence.running ==> (Close in Asked(c', i) <==> Open in Asked(c, i))
  {
    AsksAt(c, i);
    AsksAt(c', i);
    ClosesAfterOpening(a, c'.second / 60);
  }

  /** Check k of a run finds a repeating alarm as it was at the start. */
  lemma RepeatingInRun(env: Environment, d: Device, run: seq<Checked>, r: Device, first: nat, i: nat, k: nat)
    requires AreChecks(env, run) && Leads(d, run, r) && EveryMinute(SecondsOf(run), first) && k < |run|
    requires i < |d.alarms| && Repeating(d.alarms[i].repeatData)
    ensures i < |run[k].before.alarms| && run[k].before.alarms[i] == d.alarms[i] && run[k].second / 60 == first + k
  {
    LeadsUpTo(d, run, r, k);
    SecondsUpTo(run, k, first);
    ChecksUpTo(env, run, k);
    AlarmsSeeEveryMinute(env, d, run[..k], run[k].before, first, i);
    RepeatingStays(d.alarms[i], first, k);
  }

  /** Over a run of checks for every minute: unless an absence suppresses one of them, a repeating alarm
      enters its Close in the log exactly when it entered its Open one duration before. */
  lemma CloseFollowsOpen(env: Environment, d: Device, run: seq<Checked>, r: Device, first: nat, i: nat, j: nat, k: nat)
    requires AreChecks(env, run) && Leads(d, run, r) && EveryMinute(SecondsOf(run), first) && k < |run| && i < |d.alarms|
    requires var a := d.alarms[i];
             a.IsSet() && Repeating(a.repeatData) && k == j + a.Duration()
    ensures j < k && i < |run[j].before.alarms| && i < |run[k].before.alarms|
    ensures !run[j].before.absence.running && !run[k].before.absence.running ==>
              (Close in Asked(run[k], i) <==> Open in Asked(run[j], i))
    ensures run[j].after.absence.actions <= run[k].before.absence.actions
  {
    RepeatingInRun(env, d, run, r, first, i, j);
    RepeatingInRun(env, d, run, r, first, i, k);
    AskedTogether(run[j], run[k], i, d.alarms[i]);
    LeadsUpTo(d, run, r, k);
    ChecksUpTo(env, run, k);
    LogGrowsOver(env, d, run[..k], run[k].before, j);
  }

  // ----- runs of the timer, with commands in between

  datatype Event =
    | TimerFires
    | SetAbsence(w: Absence, index: nat)
    | DeleteAbsence(index: nat, needSave: bool)

  /** The device after an event, and the last minute it leaves. */
  ghost function AfterEvent(env: Environment, d: Device, last: LastField, e: Event): (Device, LastField) {
    match e
    case TimerFires => AfterCallback(env, d, last)
    case SetAbsence(w, index) => (d.(absence := AfterSet(env, d.absence, w, index)), last)
    case DeleteAbsence(index, needSave) => (d.(absence := AfterDelete(env, d.absence, index, needSave)), last)
  }

  ghost function AfterEvents(env: Environment, d: Device, last: LastField, events: seq<Event>): (Device, LastField)
    decreases |events|
  {
    if events == [] then (d, last)
    else
      var (d', last') := AfterEvent(env, d, last, events[0]);
      AfterEvents(env, d', last', events[1..])
  }

  /** Every reachable state keeps the absence registers in agreement. */
  lemma {:induction false} EventsKeepRegisters(env: Environment, d: Device, last: LastField, events: seq<Event>)
    requires Registers(d.absence)
    ensures Registers(AfterEvents(env, d, last, events).0.absence)
    decreases |events|
  {
    if events != [] {
      EventKeepsRegisters(env, d, last, events[0]);
      var (d', last') := AfterEvent(env, d, last, events[0]);
      EventsKeepRegisters(env, d', last', events[1..]);
    }
  }

  lemma EventKeepsRegisters(env: Environment, d: Device, last: LastField, e: Event)
    requires Registers(d.absence)
    ensures Registers(AfterEvent(env, d, last, e).0.absence)
  {
    match e
    case TimerFires =>
      CallbackKeepsRegisters(env, d, last);
    case SetAbsence(w, index) =>
      CheckNowKeepsRegisters(env, d.absence.(windows := Placed(d.absence.windows, w, PlaceFor(d.absence.windows, index))));
    case DeleteAbsence(index, needSave) =>
      CheckNowKeepsRegisters(env, d.absence.(windows := Placed(d.absence.windows, CLEARED, index)));
  }

  /** The checks of the dates of the given seconds. */
  ghost function ChecksOf(env: Environment, d: Device, ticks: seq<Seconds>): (run: seq<Checked>)
    ensures |run| == |ticks|
  {
    seq(|ticks|, k requires 0 <= k < |ticks| => Checked(ticks[k], CheckAll(env, d, ticks[..k]), CheckAll(env, d, ticks[..k + 1])))
  }

  /** The readings a callback starts with. */
  ghost function ReadingsOf(env: Environment, d: Device): Callback {
    Callback(env.clock(d.absence.readings), env.clock(d.absence.readings + 1))
  }

  /** The event is a callback, and the clock has been set. */
  ghost predicate ChecksMinutes(env: Environment, d: Device, e: Event) {
    e.TimerFires? && ReadingsOf(env, d).cur > SEC_2015_01_01_00_00_00
  }

  /** The checks an event runs for the minutes it hands on. */
  ghost function EventRun(env: Environment, d: Device, last: LastField, e: Event): seq<Checked> {
    if ChecksMinutes(env, d, e) then
      var c, first := ReadingsOf(env, d), OneReading(d);
      ChecksOf(env, if TotalMinutes(last, c.cur / 60 % 60) > 1 then OneReading(first) else first, Handed(last, c.cur, c.reread))
    else []
  }

  ghost function RunOf(env: Environment, d: Device, last: LastField, events: seq<Event>): seq<Checked>
    decreases |events|
  {
    if events == [] then []
    else
      var (d', last') := AfterEvent(env, d, last, events[0]);
      EventRun(env, d, last, events[0]) + RunOf(env, d', last', events[1..])
  }

  /** The callbacks among the events that find the clock set. */
  ghost function CallbacksOf(env: Environment, d: Device, last: LastField, events: seq<Event>): (callbacks: seq<Callback>)
    ensures forall c | c in callbacks :: c.cur > SEC_2015_01_01_00_00_00
    decreases |events|
  {
    if events == [] then []
    else
      var (d', last') := AfterEvent(env, d, last, events[0]);
      var rest := CallbacksOf(env, d', last', events[1..]);
      if ChecksMinutes(env, d, events[0]) then [ReadingsOf(env, d)] + rest else rest
  }

  lemma {:induction false} LeadsOn(d: Device, a: seq<Checked>, m: Device, b: seq<Checked>, r: Device)
    requires Leads(d, a, m) && Leads(m, b, r)
    ensures Leads(d, a + b, r)
    decreases |b|
  {
    if b == [] {
      assert a + b == a;
    } else {
      var n := |b| - 1;
      LeadsOn(d, a, m, b[..n], b[n].before);
      assert (a + b)[..|a + b| - 1] == a + b[..n];
    }
  }

  lemma ChecksOn(env: Environment, a: seq<Checked>, b: seq<Checked>)
    requires AreChecks(env, a) && AreChecks(env, b)
    ensures AreChecks(env, a + b)
  {
    forall k: nat | k < |a + b|
      ensures IsCheck(env, Nth(a + b, k))
    {
      assert Nth(a + b, k) == if k < |a| then Nth(a, k) else Nth(b, k - |a|);
    }
  }

  lemma AreChecksOf(env: Environment, d: Device, ticks: seq<Seconds>)
    ensures AreChecks(env, ChecksOf(env, d, ticks))
  {
    forall k: nat | k < |ticks|
      ensures IsCheck(env, Nth(ChecksOf(env, d, ticks), k))
    {
      CheckNext(env, d, ticks, k);
    }
  }

  /** Checks one upon the other, from d on. */
  ghost predicate Chain(d: Device, run: seq<Checked>, r: Device) {
    if run == [] then d == r
    else
      var n := |run| - 1;
      Chain(d, run[..n], run[n].before) && run[n].after == r
  }

  lemma {:induction false} ChainLeads(d: Device, start: Device, run: seq<Checked>, r: Device)
    requires Idle(d, start) && Chain(start, run, r)
    ensures Leads(d, run, r)
  {
    if run != [] {
      var n := |run| - 1;
      ChainLeads(d, start, run[..n], run[n].before);
    }
  }

  lemma {:induction false} ChecksChain(env: Environment, d: Device, ticks: seq<Seconds>, n: nat)
    requires n <= |ticks|
    ensures Chain(d, ChecksOf(env, d, ticks)[..n], CheckAll(env, d, ticks[..n]))
  {
    if n > 0 {
      ChecksChain(env, d, ticks, n - 1);
      assert ChecksOf(env, d, ticks)[..n][..n - 1] == ChecksOf(env, d, ticks)[..n - 1];
    }
  }

  lemma ChecksLead(env: Environment, d: Device, start: Device, ticks: seq<Seconds>)
    requires Idle(d, start)
    ensures Leads(d, ChecksOf(env, start, ticks), CheckAll(env, start, ticks))
  {
    var run := ChecksOf(env, start, ticks);
    ChecksChain(env, start, ticks, |ticks|);
    assert run[..|ticks|] == run && ticks[..|ticks|] == ticks;
    ChainLeads(d, start, run, CheckAll(env, start, ticks));
  }

  lemma EventLeads(env: Environment, d: Device, last: LastField, e: Event)
    ensures AreChecks(env, EventRun(env, d, last, e))
    ensures Leads(d, EventRun(env, d, last, e), AfterEvent(env, d, last, e).0)
  {
    if ChecksMinutes(env, d, e) {
      var c, first := ReadingsOf(env, d), OneReading(d);
      var start := if TotalMinutes(last, c.cur / 60 % 60) > 1 then OneReading(first) else first;
      var ticks := Handed(last, c.cur, c.reread);
      AreChecksOf(env, start, ticks);
      ChecksLead(env, d, start, ticks);
    }
  }

  lemma {:induction false} EventsLead(env: Environment, d: Device, last: LastField, events: seq<Event>)
    ensures AreChecks(env, RunOf(env, d, last, events))
    ensures Leads(d, RunOf(env, d, last, events), AfterEvents(env, d, last, events).0)
    decreases |events|
  {
    if events != [] {
      var (d', last') := AfterEvent(env, d, last, events[0]);
      var one, rest := EventRun(env, d, last, events[0]), RunOf(env, d', last', events[1..]);
      EventLeads(env, d, last, events[0]);
      EventsLead(env, d', last', events[1..]);
      ChecksOn(env, one, rest);
      LeadsOn(d, one, d', rest, AfterEvents(env, d', last', events[1..]).0);
    }
  }

  lemma SecondsOfSum(a: seq<Checked>, b: seq<Checked>)
    ensures SecondsOf(a + b) == SecondsOf(a) + SecondsOf(b)
  {
  }

  lemma ChecksHand(env: Environment, d: Device, ticks: seq<Seconds>)
    ensures SecondsOf(ChecksOf(env, d, ticks)) == ticks
  {
    forall k: nat | k < |ticks|
      ensures SecondsOf(ChecksOf(env, d, ticks))[k] == ticks[k]
    {
    }
  }

  lemma EventHands(env: Environment, d: Device, last: LastField, e: Event)
    ensures SecondsOf(EventRun(env, d, last, e)) ==
            if ChecksMinutes(env, d, e) then Handed(last, ReadingsOf(env, d).cur, ReadingsOf(env, d).reread) else []
    ensures AfterEvent(env, d, last, e).1 == if ChecksMinutes(env, d, e) then ReadingsOf(env, d).cur / 60 % 60 else last
  {
    if ChecksMinutes(env, d, e) {
      var c, first := ReadingsOf(env, d), OneReading(d);
      ChecksHand(env, if TotalMinutes(last, c.cur / 60 % 60) > 1 then OneReading(first) else first, Handed(last, c.cur, c.reread));
    }
  }

  lemma FirstHands(last: LastField, c: Callback, rest: seq<Callback>)
    ensures AllHanded(last, [c] + rest) == Handed(last, c.cur, c.reread) + AllHanded(c.cur / 60 % 60, rest)
  {
    assert ([c] + rest)[1..] == rest;
  }

  /** The seconds checked are those the callbacks hand on. */
  lemma {:induction false} RunHands(env: Environment, d: Device, last: LastField, events: seq<Event>)
    ensures SecondsOf(RunOf(env, d, last, events)) == AllHanded(last, CallbacksOf(env, d, last, events))
    decreases |events|
  {
    if events != [] {
      var (d', last') := AfterEvent(env, d, last, events[0]);
      RunHands(env, d', last', events[1..]);
      EventHands(env, d, last, events[0]);
      SecondsOfSum(EventRun(env, d, last, events[0]), RunOf(env, d', last', events[1..]));
      if ChecksMinutes(env, d, events[0]) {
        FirstHands(last, ReadingsOf(env, d), CallbacksOf(env, d', last', events[1..]));
      }
    }
  }

  lemma EventsCheck(env: Environment, d: Device, last: LastField, events: seq<Event>, lo: nat, hi: nat)
    requires lo <= hi && MinutesOf(AllHanded(last, CallbacksOf(env, d, last, events))) == MinutesAfter(lo, hi)
    ensures var run := RunOf(env, d, last, events);
            && AreChecks(env, run) && Leads(d, run, AfterEvents(env, d, last, events).0)
            && EveryMinute(SecondsOf(run), lo + 1) && |run| == hi - lo
  {
    EventsLead(env, d, last, events);
    RunHands(env, d, last, events);
    MinutesAreEvery(SecondsOf(RunOf(env, d, last, events)), lo, hi);
  }

  /** Whatever commands come in between: callbacks that are regular run a check for every minute after
      the last one checked, in order. */
  lemma EventsCheckEveryMinute(env: Environment, d: Device, lastMinute: nat, events: seq<Event>)
    requires Regular(lastMinute, CallbacksOf(env, d, lastMinute % 60, events))
    ensures var run := RunOf(env, d, lastMinute % 60, events);
            && AreChecks(env, run) && Leads(d, run, AfterEvents(env, d, lastMinute % 60, events).0)
            && EveryMinute(SecondsOf(run), lastMinute + 1)
            && lastMinute + |run| == LastMinute(lastMinute, CallbacksOf(env, d, lastMinute % 60, events))
  {
    var callbacks := CallbacksOf(env, d, lastMinute % 60, events);
    RunHandsEveryMinute(lastMinute, callbacks);
    EventsCheck(env, d, lastMinute % 60, events, lastMinute, LastMinute(lastMinute, callbacks));
  }

  /** From the start of the device: from the minute of the first callback that finds the clock set. */
  lemma FirstEventsCheckEveryMinute(env: Environment, d: Device, events: seq<Event>)
    requires var callbacks := CallbacksOf(env, d, NEVER_CHECKED, events);
             callbacks != [] && Regular(callbacks[0].cur / 60, callbacks[1..])
    ensures var run, callbacks := RunOf(env, d, NEVER_CHECKED, events), CallbacksOf(env, d, NEVER_CHECKED, events);
            && AreChecks(env, run) && Leads(d, run, AfterEvents(env, d, NEVER_CHECKED, events).0)
            && EveryMinute(SecondsOf(run), callbacks[0].cur / 60)
            && callbacks[0].cur / 60 + |run| == LastMinute(0, callbacks) + 1
  {
    var callbacks := CallbacksOf(env, d, NEVER_CHECKED, events);
    assert callbacks[0] in callbacks;
    FirstRunHandsEveryMinute(callbacks);
    EventsCheck(env, d, NEVER_CHECKED, events, callbacks[0].cur / 60 - 1, LastMinute(0, callbacks));
  }

  /** So after them each alarm is what the minutes since then make of it. */
  lemma EventsLeaveAlarms(env: Environment, d: Device, lastMinute: nat, events: seq<Event>, i: nat)
    requires Regular(lastMinute, CallbacksOf(env, d, lastMinute % 60, events)) && i < |d.alarms|
    ensures var r := AfterEvents(env, d, lastMinute % 60, events).0;
            var hi := LastMinute(lastMinute, CallbacksOf(env, d, lastMinute % 60, events));
            && lastMinute <= hi && |r.alarms| == |d.alarms|
            && r.alarms[i] == AfterMinutes(d.alarms[i], lastMinute + 1, hi - lastMinute)
  {
    var run, r := RunOf(env, d, lastMinute % 60, events), AfterEvents(env, d, lastMinute % 60, events).0;
    EventsCheckEveryMinute(env, d, lastMinute, events);
    AlarmsSeeEveryMinute(env, d, run, r, lastMinute + 1, i);
  }

  // ----- a replay that misleads the absence

  /** Thursday, 2015-01-01, 00:10:00. */
  const REPLAY_SECOND: Seconds := 1420071000

  /** Windows from 00:03 to 00:10 and from 00:02 to 00:08, both without weekdays, and eight unused records. */
  function TwoWindows(): (ws: seq<Absence>)
    ensures |ws| == MAX_ABSENCE_COUNT
  {
    [Absence(0x80, 0, 3, 0, 10), Absence(0x80, 0, 2, 0, 8)] + seq(8, _ => CLEARED)
  }

  /** After the first of the checks a callback at that second replays when minute 7 was checked last. */
  ghost function FirstReplayed(env: Environment, d: Device): Device {
    CheckOneMinute(env, OneReading(OneReading(d)), Civil(REPLAY_SECOND - 120))
  }

  lemma ReplayedMinutes()
    ensures Handed(7, REPLAY_SECOND, REPLAY_SECOND) == [REPLAY_SECOND - 120, REPLAY_SECOND - 60, REPLAY_SECOND]
    ensures MomentOf((REPLAY_SECOND - 120) / 60) == WeekMinute(4, 8) && MomentOf(REPLAY_SECOND / 60) == WeekMinute(4, 10)
  {
    var ticks := Handed(7, REPLAY_SECOND, REPLAY_SECOND);
    assert TotalMinutes(7, REPLAY_SECOND / 60 % 60) == 3;
    assert ticks[0] == REPLAY_SECOND - 120 && ticks[1] == REPLAY_SECOND - 60 && ticks[2] == REPLAY_SECOND;
  }

  lemma ReplayStatuses()
    ensures var ws := TwoWindows();
            && CountsAt(ws[0], WeekMinute(4, 8)) && EndsAt(ws[0], WeekMinute(4, 10)) && EndsAt(ws[1], WeekMinute(4, 8))
            && forall k: nat | 2 <= k < |ws| :: !Active(ws[k].repeatData)
  {
    StatusesOfReplay(0x80);
  }

  lemma ShownThen(env: Environment, k: nat)
    requires env.clock(k) == REPLAY_SECOND
    ensures Shown(env, k) == WeekMinute(4, 10)
  {
    ReplayedMinutes();
    MinuteOfCivil(REPLAY_SECOND);
  }

  /** A callback at 00:10 that replays 00:08 and 00:09. */
  lemma ReplayingCallback(env: Environment, d: Device)
    requires env.clock(d.absence.readings) == REPLAY_SECOND && env.clock(d.absence.readings + 1) == REPLAY_SECOND
    ensures var ticks := [REPLAY_SECOND - 120, REPLAY_SECOND - 60, REPLAY_SECOND];
            AfterCallback(env, d, 7) == (CheckAll(env, OneReading(OneReading(d)), ticks), 10)
  {
    ReplayedMinutes();
  }

  ghost predicate Misleads(r: State) {
    && r.running && !AnyCounts(r.windows, 0, WeekMinute(4, 8))
    && forall w | w in r.windows :: !Active(w.repeatData)
  }

  /** The check of 00:08 when the clock shows 00:10. */
  lemma MisledCheck(env: Environment, s: State)
    requires s.windows == TwoWindows()
    requires forall k: nat | s.readings <= k < CheckAt(env, s, WeekMinute(4, 8)).readings :: env.clock(k) == REPLAY_SECOND
    ensures Misleads(CheckAt(env, s, WeekMinute(4, 8)))
  {
    ShownThroughout(env, s, WeekMinute(4, 8));
    ReplayStatuses();
    PairIsMisled(env, s, WeekMinute(4, 8), WeekMinute(4, 10));
    NoneActive(s.windows, CheckAt(env, s, WeekMinute(4, 8)).windows);
  }

  lemma ShownThroughout(env: Environment, s: State, t: Moment)
    requires forall k: nat | s.readings <= k < CheckAt(env, s, t).readings :: env.clock(k) == REPLAY_SECOND
    ensures ClockDuring(env, s, t, WeekMinute(4, 10))
  {
    forall k: nat | s.readings <= k < CheckAt(env, s, t).readings
      ensures Shown(env, k) == WeekMinute(4, 10)
    {
      ShownThen(env, k);
    }
  }

  /** In that callback the check of 00:08 leaves the absence running, with every window switched off. */
  lemma MisledReplay(env: Environment, d: Device)
    requires d.absence.windows == TwoWindows()
    requires forall k: nat | d.absence.readings <= k < FirstReplayed(env, d).absence.readings :: env.clock(k) == REPLAY_SECOND
    ensures var ticks := [REPLAY_SECOND - 120, REPLAY_SECOND - 60, REPLAY_SECOND];
            AfterCallback(env, d, 7) == (CheckAll(env, OneReading(OneReading(d)), ticks), 10)
    ensures Misleads(FirstReplayed(env, d).absence)
  {
    var start := OneReading(OneReading(d));
    AbsenceAfter(env, start, REPLAY_SECOND - 120);
    ReplayedMinutes();
    ReplayingCallback(env, d);
    MisledCheck(env, AbsenceTurn(start, Civil(REPLAY_SECOND - 120)));
  }

  lemma NoneActive(ws: seq<Absence>, ws': seq<Absence>)
    requires ws == TwoWindows() && Narrows(ws, ws') && ws'[0] == ws[0].Inactive() && ws'[1] == ws[1].Inactive()
    ensures forall w | w in ws' :: !Active(w.repeatData)
  {
    DeactivatedIsInactive(0x80);
    DeactivatedIsInactive(0);
  }
}
