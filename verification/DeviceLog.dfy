/** What one check of the device adds to the log of the switch: the actions of the alarms, of the absence
    and of the countdowns, in this order and nothing else. */
module DeviceLog {
  import opened WeekMask
  import opened Calendar
  import opened Alarms
  import opened AbsenceCheck
  import opened AbsenceRuns
  import opened AbsenceActions
  import opened Countdowns
  import opened CatchUp
  import opened DeviceChecks
  import opened DeviceRuns
  import opened DeviceAbsences

  /** The sequences one behind the other. */
  function Flat<T>(parts: seq<seq<T>>): seq<T> {
    if parts == [] then [] else parts[0] + Flat(parts[1..])
  }

  lemma {:induction false} FlatOneMore<T>(parts: seq<seq<T>>, part: seq<T>)
    ensures Flat(parts + [part]) == Flat(parts) + part
  {
    if parts != [] {
      assert (parts + [part])[1..] == parts[1..] + [part];
      FlatOneMore(parts[1..], part);
    } else {
      assert Flat([part]) == part + Flat<T>([]);
    }
  }

  // ----- alarms

  /** What alarm i adds in a check: it opens at its start time on the days of its mask, and closes at its
      stop time on these days or, when that is not later than its start time, on the days after them; a
      running absence suppresses both. */
  ghost function AlarmPart(c: Checked, i: nat): seq<Switch>
    requires i < |c.before.alarms|
  {
    var a, minute, day := c.before.alarms[i], c.second / 60 % 1440, Weekday(c.second / 60);
    var stopDay := if StopsNextDay(a) then (day + 6) % 7 else day;
    if c.before.absence.running || !Active(a.repeatData) then []
    else
      (if minute == a.startHour * 60 + a.startMinute && OnDay(a.repeatData, day) then [Open] else [])
      + (if minute == a.stopHour * 60 + a.stopMinute && OnDay(a.repeatData, stopDay) then [Close] else [])
  }

  ghost function AlarmParts(c: Checked): (parts: seq<seq<Switch>>)
    ensures |parts| == |c.before.alarms|
  {
    seq(|c.before.alarms|, i requires 0 <= i < |c.before.alarms| => AlarmPart(c, i))
  }

  lemma AlarmPartIs(c: Checked, i: nat)
    requires i < |c.before.alarms|
    ensures AlarmPart(c, i) == Asked(c, i)
  {
    MinuteOfCivil(c.second);
    OpensOnItsDays(c.before.alarms[i], c.second / 60);
    ClosesOnItsDays(c.before.alarms[i], c.second / 60);
  }

  lemma {:induction false} AlarmsFrom(c: Checked, j: nat)
    requires j <= |c.before.alarms|
    ensures var t := Civil(c.second);
            Flat(AlarmParts(c)[j..])
            == AlarmActions(c.before.alarms, j, t.week, t.hour * 60 + t.minute, c.before.absence.running)
    decreases |c.before.alarms| - j
  {
    if j < |c.before.alarms| {
      AlarmPartIs(c, j);
      AlarmsFrom(c, j + 1);
      assert AlarmParts(c)[j..][1..] == AlarmParts(c)[j + 1..];
    }
  }

  // ----- countdowns

  /** What countdown i adds in a check: its action in its own minute, unless the clock has dropped it or
      an absence runs. */
  ghost function CountdownPart(env: Environment, c: Checked, i: nat): seq<Switch>
    requires i < |c.before.countdowns|
  {
    var w, cur := c.before.countdowns[i], ClockIn(env, c, i);
    var dropped := 60 < cur - w.count < 0x8000_0000 || 0x8000_0000 < w.count - cur < 0x1_0000_0000 - 60;
    if w.active && w.count / 60 == c.second / 60 && !dropped && !c.after.absence.running then
      [if w.action == 1 then Open else Close]
    else []
  }

  ghost function CountdownParts(env: Environment, c: Checked, n: nat): (parts: seq<seq<Switch>>)
    requires n <= |c.before.countdowns|
    ensures |parts| == n
  {
    seq(n, i requires 0 <= i < n => CountdownPart(env, c, i))
  }

  lemma CountdownPartIs(env: Environment, c: Checked, i: nat)
    requires i < |c.before.countdowns|
    ensures CountdownPart(env, c, i)
         == if CarriesOut(env, c, i) && !c.after.absence.running then [ActionOf(c.before.countdowns[i])] else []
  {
    DueIffSameMinute(c.before.countdowns[i], c.second);
    ExpiredIff(c.before.countdowns[i], ClockIn(env, c, i));
  }

  /** The device when the turn of countdown n comes, or after all of them. */
  ghost function TurnOf(env: Environment, c: Checked, n: nat): Device
    requires n <= |c.before.countdowns|
  {
    Turn(env, CheckAlarmsAndAbsences(env, c.before, Civil(c.second)), n, Civil(c.second))
  }

  lemma AllTurns(env: Environment, c: Checked)
    requires IsCheck(env, c)
    ensures TurnOf(env, c, |c.before.countdowns|) == c.after
  {
    RestAfterTurn(env, CheckAlarmsAndAbsences(env, c.before, Civil(c.second)), |c.before.countdowns|, Civil(c.second));
  }

  lemma OneTurn(env: Environment, c: Checked, n: nat)
    requires IsCheck(env, c) && n < |c.before.countdowns|
    ensures TurnOf(env, c, n + 1).absence.actions == TurnOf(env, c, n).absence.actions + CountdownPart(env, c, n)
  {
    CountdownPartIs(env, c, n);
  }

  lemma Joined<T>(log: seq<T>, a: seq<T>, b: seq<T>)
    ensures log + a + b == log + (a + b)
  {
  }

  lemma OneMorePart(env: Environment, c: Checked, n: nat)
    requires n < |c.before.countdowns|
    ensures Flat(CountdownParts(env, c, n + 1)) == Flat(CountdownParts(env, c, n)) + CountdownPart(env, c, n)
  {
    FlatOneMore(CountdownParts(env, c, n), CountdownPart(env, c, n));
    assert CountdownParts(env, c, n + 1) == CountdownParts(env, c, n) + [CountdownPart(env, c, n)];
  }

  lemma {:induction false} CountdownsUpTo(env: Environment, c: Checked, n: nat)
    requires IsCheck(env, c) && n <= |c.before.countdowns|
    ensures TurnOf(env, c, n).absence.actions == TurnOf(env, c, 0).absence.actions + Flat(CountdownParts(env, c, n))
  {
    if n > 0 {
      CountdownsUpTo(env, c, n - 1);
      OneTurn(env, c, n - 1);
      OneMorePart(env, c, n - 1);
      Joined(TurnOf(env, c, 0).absence.actions, Flat(CountdownParts(env, c, n - 1)), CountdownPart(env, c, n - 1));
    }
  }

  /** The record of a countdown after a check: inactive after its own minute, or when the clock has
      dropped it. */
  lemma CountdownRecord(env: Environment, c: Checked, i: nat)
    requires IsCheck(env, c) && i < |c.before.countdowns|
    ensures |c.after.countdowns| == |c.before.countdowns|
    ensures var w, cur := c.before.countdowns[i], ClockIn(env, c, i);
            var dropped := 60 < cur - w.count < 0x8000_0000 || 0x8000_0000 < w.count - cur < 0x1_0000_0000 - 60;
            c.after.countdowns[i]
            == if w.active && (dropped || w.count / 60 == c.second / 60) then Countdown(false, w.action, w.count) else w
  {
    CountdownInCheck(env, c, i);
    DueIffSameMinute(c.before.countdowns[i], c.second);
    ExpiredIff(c.before.countdowns[i], ClockIn(env, c, i));
  }

  // ----- the whole check

  lemma AbsenceInLog(env: Environment, c: Checked) returns (k: nat)
    requires IsCheck(env, c) && AbsenceInTime(env, c) && Registers(c.before.absence)
    ensures var m := c.second / 60;
            && TurnOf(env, c, 0).absence.actions
               == AbsenceTurn(c.before, Civil(c.second)).actions + AbsencePart(c.before.absence, c.after.absence, m % 1440)
            && NextIsSet(c.before.absence, c.after.absence, m % 1440, k)
  {
    MinuteOfCivil(c.second);
    AllTurns(env, c);
    k := CheckActs(env, AbsenceTurn(c.before, Civil(c.second)), MomentOf(c.second / 60));
  }

  /** A check whose absences are in time adds to the log what the alarms, the absence and the countdowns
      add, in this order; and the next toggle is set. */
  lemma LogOfCheck(env: Environment, c: Checked) returns (k: nat)
    requires IsCheck(env, c) && AbsenceInTime(env, c) && Registers(c.before.absence)
    ensures c.after.absence.actions
         == c.before.absence.actions
            + Flat(AlarmParts(c))
            + AbsencePart(c.before.absence, c.after.absence, c.second / 60 % 1440)
            + Flat(CountdownParts(env, c, |c.before.countdowns|))
    ensures NextIsSet(c.before.absence, c.after.absence, c.second / 60 % 1440, k)
  {
    AlarmsFrom(c, 0);
    assert AlarmParts(c)[0..] == AlarmParts(c);
    k := AbsenceInLog(env, c);
    CountdownsUpTo(env, c, |c.before.countdowns|);
    AllTurns(env, c);
  }

  lemma AbsenceAddsOnly(env: Environment, c: Checked)
    requires IsCheck(env, c)
    ensures c.before.absence.actions + Flat(AlarmParts(c)) <= TurnOf(env, c, 0).absence.actions
  {
    AlarmsFrom(c, 0);
    assert AlarmParts(c)[0..] == AlarmParts(c);
  }

  lemma RestOf<T>(a: seq<T>, b: seq<T>) returns (rest: seq<T>)
    requires a <= b
    ensures b == a + rest
  {
    rest := b[|a|..];
  }

  /** Whatever the clock shows, what the alarms add stands first and what the countdowns add stands last. */
  lemma LogOfAnyCheck(env: Environment, c: Checked) returns (absence: seq<Switch>)
    requires IsCheck(env, c)
    ensures c.after.absence.actions
         == c.before.absence.actions + Flat(AlarmParts(c)) + absence + Flat(CountdownParts(env, c, |c.before.countdowns|))
  {
    AbsenceAddsOnly(env, c);
    absence := RestOf(c.before.absence.actions + Flat(AlarmParts(c)), TurnOf(env, c, 0).absence.actions);
    CountdownsUpTo(env, c, |c.before.countdowns|);
    AllTurns(env, c);
  }

  // ----- while an absence runs

  lemma {:induction false} NothingAdded<T>(parts: seq<seq<T>>)
    requires forall i: nat | i < |parts| :: parts[i] == []
    ensures Flat(parts) == []
  {
    if parts != [] {
      NothingAdded(parts[1..]);
    }
  }

  lemma AlarmsSuppressed(c: Checked)
    requires c.before.absence.running
    ensures Flat(AlarmParts(c)) == []
  {
    NothingAdded(AlarmParts(c));
  }

  lemma CountdownsSuppressed(env: Environment, c: Checked)
    requires c.after.absence.running
    ensures Flat(CountdownParts(env, c, |c.before.countdowns|)) == []
  {
    NothingAdded(CountdownParts(env, c, |c.before.countdowns|));
  }

  /** A check that leaves the absence running adds what the absence adds, behind the alarms if it was not
      running before; what it leaves as the last action decides how far ahead the next toggle is. */
  lemma RunningCheck(env: Environment, c: Checked) returns (k: nat)
    requires IsCheck(env, c) && AbsenceInTime(env, c) && Registers(c.before.absence) && c.after.absence.running
    ensures var s, r, minute := c.before.absence, c.after.absence, c.second / 60 % 1440;
            && r.actions == s.actions + (if s.running then [] else Flat(AlarmParts(c))) + AbsencePart(s, r, minute)
            && NextIsSet(s, r, minute, k)
  {
    k := LogOfCheck(env, c);
    CountdownsSuppressed(env, c);
    if c.before.absence.running {
      AlarmsSuppressed(c);
    }
  }

  // ----- from toggle to toggle

  ghost predicate RunsThrough(run: seq<Checked>, j: nat, n: nat) {
    forall i: nat | j <= i <= n && i < |run| :: run[i].after.absence.running
  }

  /** The state check n of the run leaves, apart from windows and readings, is still that after check j. */
  ghost predicate Holds(run: seq<Checked>, j: nat, n: nat)
    requires j < |run| && n < |run|
  {
    var s, r := run[j].after.absence, run[n].after.absence;
    r.running && r.next == s.next && r.actions == s.actions
  }

  lemma Found(d: Device, run: seq<Checked>, n: nat)
    requires Unattended(d, run) && 0 < n < |run|
    ensures var s, r := run[n - 1].after.absence, run[n].before.absence;
            r.running == s.running && r.next == s.next && r.actions == s.actions
  {
    assert OnlyRead(Previous(d, run, n).absence, run[n].before.absence);
  }

  ghost predicate Timely(env: Environment, d: Device, run: seq<Checked>, first: nat) {
    AreChecks(env, run) && InTimeAll(env, run) && Unattended(d, run) && EveryMinute(SecondsOf(run), first)
  }

  /** Check n finds what check n - 1 left: it turns the switch over if its minute is the next toggle, and
      does nothing to the switch and the next toggle otherwise. */
  lemma NextCheck(env: Environment, d: Device, run: seq<Checked>, first: nat, n: nat)
    requires Timely(env, d, run, first) && 0 < n < |run|
    requires Registers(run[n - 1].after.absence) && run[n - 1].after.absence.running && run[n].after.absence.running
    ensures var s, r := run[n - 1].after.absence, run[n].after.absence;
            if s.next == (first + n) % 1440 then r.actions == s.actions + [TurnedOver(s.actions)]
            else r.actions == s.actions && r.next == s.next
  {
    assert IsCheck(env, Nth(run, n)) && AbsenceInTime(env, Nth(run, n));
    Found(d, run, n);
    SecondsUpTo(run, n, first);
    var k := RunningCheck(env, run[n]);
  }

  lemma {:induction false} QuietChecks(env: Environment, d: Device, run: seq<Checked>, first: nat, j: nat, k: nat, n: nat)
    requires Timely(env, d, run, first) && j <= n < |run| && n < j + k && k < MINUTES_PER_DAY
    requires RunsThrough(run, j, n) && Registers(run[j].after.absence) && run[j].after.absence.next == (first + j + k) % 1440
    ensures Holds(run, j, n)
    decreases n
  {
    if n > j {
      QuietChecks(env, d, run, first, j, k, n - 1);
      FirstReturn(first + j, n - j, k);
      NextCheck(env, d, run, first, n);
    }
  }

  /** Where the switch was turned by the absence: the last action of the log, and the next toggle. */
  lemma TurnedAt(env: Environment, c: Checked) returns (k: nat)
    requires IsCheck(env, c) && AbsenceInTime(env, c) && Registers(c.before.absence) && c.after.absence.running
    requires !c.before.absence.running || c.before.absence.next == c.second / 60 % 1440
    ensures var log := c.after.absence.actions;
            && log != [] && (!c.before.absence.running ==> log[|log| - 1] == Open)
            && (if log[|log| - 1] == Open then 20 <= k < 30 else 30 <= k < 50)
            && c.after.absence.next == (c.second / 60 + k) % 1440
    ensures Registers(c.after.absence)
  {
    k := RunningCheck(env, c);
    SumModDay(c.second / 60, k);
  }

  lemma TurnsAtNext(env: Environment, d: Device, run: seq<Checked>, first: nat, j: nat, k: nat)
    requires Timely(env, d, run, first) && j + k < |run| && 0 < k < MINUTES_PER_DAY
    requires RunsThrough(run, j, j + k) && Registers(run[j].after.absence) && run[j].after.absence.next == (first + j + k) % 1440
    ensures run[j + k].after.absence.actions == run[j].after.absence.actions + [TurnedOver(run[j].after.absence.actions)]
  {
    QuietChecks(env, d, run, first, j, k, j + k - 1);
    NextCheck(env, d, run, first, j + k);
  }

  /** The absence starts, or turns the switch over, at check j of a run with a check for every minute. As
      long as it runs, the log stays as it is until the k-th check from then, which turns the switch over:
      20 to 29 minutes after opening, and so after every start, and 30 to 49 after closing. */
  lemma NextToggle(env: Environment, d: Device, run: seq<Checked>, first: nat, j: nat) returns (k: nat)
    requires Timely(env, d, run, first) && j < |run| && Registers(run[j].before.absence) && run[j].after.absence.running
    requires !run[j].before.absence.running || run[j].before.absence.next == (first + j) % 1440
    ensures var log := run[j].after.absence.actions;
            && log != [] && (!run[j].before.absence.running ==> log[|log| - 1] == Open)
            && (if log[|log| - 1] == Open then 20 <= k < 30 else 30 <= k < 50)
            && (forall n: nat | j <= n < |run| && n < j + k && RunsThrough(run, j, n) :: run[n].after.absence.actions == log)
            && (j + k < |run| && RunsThrough(run, j, j + k) ==>
                  run[j + k].after.absence.actions == log + [if log[|log| - 1] == Open then Close else Open])
  {
    assert IsCheck(env, Nth(run, j)) && AbsenceInTime(env, Nth(run, j));
    SecondsUpTo(run, j, first);
    k := TurnedAt(env, run[j]);
    forall n: nat | j <= n < |run| && n < j + k && RunsThrough(run, j, n)
      ensures run[n].after.absence.actions == run[j].after.absence.actions
    {
      QuietChecks(env, d, run, first, j, k, n);
    }
    if j + k < |run| && RunsThrough(run, j, j + k) {
      TurnsAtNext(env, d, run, first, j, k);
    }
  }
}
