/** The records and globals of the minute timer as values: what one check, one callback and one command
    make of them. */
module DeviceChecks {
  import opened Calendar
  import opened Alarms
  import opened AbsenceCheck
  import opened AbsenceRuns
  import opened Countdowns
  import opened CatchUp

  const SEC_2015_01_01_00_00_00: Seconds := 1420041600

  /** Midnight of 2015-01-01 in UTC+8 is 16:00 on Wednesday, 2014-12-31 in UTC. */
  lemma StartOf2015()
    ensures Civil(SEC_2015_01_01_00_00_00) == TimeData(2014, 11, 31, 3, 16, 0, 0)
  {
    DateShows(TimeData(2014, 11, 31, 3, 16, 0, 0), SEC_2015_01_01_00_00_00, false);
  }

  /** The actions of the checks of alarms i and on, in order; a running absence suppresses them. */
  function AlarmActions(alarms: seq<Alarm>, i: nat, week: nat, minute: nat, running: bool): seq<Switch>
    requires i <= |alarms| && week < 7
    decreases |alarms| - i
  {
    if running || i == |alarms| then []
    else Actions(alarms[i], week, minute) + AlarmActions(alarms, i + 1, week, minute, running)
  }

  lemma OneMoreAlarm(log: seq<Switch>, alarms: seq<Alarm>, i: nat, week: nat, minute: nat, running: bool)
    requires i < |alarms| && week < 7
    ensures log + (if running then [] else Actions(alarms[i], week, minute)) + AlarmActions(alarms, i + 1, week, minute, running)
         == log + AlarmActions(alarms, i, week, minute, running)
  {
  }

  function AlarmsAfter(alarms: seq<Alarm>, week: nat, minute: nat): (r: seq<Alarm>)
    requires week < 7
    ensures |r| == |alarms|
  {
    seq(|alarms|, i requires 0 <= i < |alarms| => AfterCheck(alarms[i], week, minute))
  }

  /** Several alarms in one minute: the last one that asks for an action decides where the switch is. */
  lemma {:induction false} LastAlarmDecides(alarms: seq<Alarm>, i: nat, j: nat, week: nat, minute: nat)
    requires i <= j < |alarms| && week < 7 && Actions(alarms[j], week, minute) != []
    requires forall k: nat | j < k < |alarms| :: Actions(alarms[k], week, minute) == []
    ensures Latest(AlarmActions(alarms, i, week, minute, false)) == if ClosesNow(alarms[j], week, minute) then Close else Open
    ensures AlarmActions(alarms, i, week, minute, false) != []
    decreases j - i
  {
    if i < j {
      LastAlarmDecides(alarms, i + 1, j, week, minute);
    } else {
      NoAlarmActs(alarms, i + 1, week, minute);
    }
  }

  lemma {:induction false} NoAlarmActs(alarms: seq<Alarm>, i: nat, week: nat, minute: nat)
    requires i <= |alarms| && week < 7
    requires forall k: nat | i <= k < |alarms| :: Actions(alarms[k], week, minute) == []
    ensures AlarmActions(alarms, i, week, minute, false) == []
    decreases |alarms| - i
  {
    if i < |alarms| {
      NoAlarmActs(alarms, i + 1, week, minute);
    }
  }

  /** The records and globals of the timer as a value. */
  datatype Device = Device(alarms: seq<Alarm>, absence: State, countdowns: seq<Countdown>)

  /** What the check of countdowns does to a device: clock readings and actions are added, everything but
      the countdowns stays. */
  ghost predicate Goes(d: Device, r: Device) {
    && r.alarms == d.alarms && |r.countdowns| == |d.countdowns|
    && r.absence.windows == d.absence.windows && r.absence.next == d.absence.next && r.absence.running == d.absence.running
    && d.absence.readings <= r.absence.readings && d.absence.actions <= r.absence.actions
  }

  /** The check of countdown i, which reads the clock if it is active. */
  ghost function CheckOneCountdown(env: Environment, d: Device, i: nat, t: TimeData): (r: Device)
    requires i < |d.countdowns|
    ensures Goes(d, r)
  {
    var c := d.countdowns[i];
    if !c.active then d
    else
      var cur := env.clock(d.absence.readings);
      var asked := if Acts(c, t, cur) && !d.absence.running then [ActionOf(c)] else [];
      d.(absence := d.absence.(actions := d.absence.actions + asked, readings := d.absence.readings + 1),
         countdowns := d.countdowns[i := AfterCountdown(c, t, cur)])
  }

  ghost function CheckCountdowns(env: Environment, d: Device, i: nat, t: TimeData): (r: Device)
    requires i <= |d.countdowns|
    ensures Goes(d, r)
    decreases |d.countdowns| - i
  {
    if i == |d.countdowns| then d else CheckCountdowns(env, CheckOneCountdown(env, d, i, t), i + 1, t)
  }

  /** The absence state when its turn comes, after the alarms of the check. */
  ghost function AbsenceTurn(d: Device, t: TimeData): State
    requires t.week < 7
  {
    var asked := AlarmActions(d.alarms, 0, t.week, t.hour * 60 + t.minute, d.absence.running);
    d.absence.(actions := d.absence.actions + asked)
  }

  /** The alarms and then the absences of one check. */
  ghost function CheckAlarmsAndAbsences(env: Environment, d: Device, t: TimeData): (r: Device)
    requires t.week < 7
    ensures |r.alarms| == |d.alarms| && r.countdowns == d.countdowns
  {
    var minute := t.hour * 60 + t.minute;
    Device(AlarmsAfter(d.alarms, t.week, minute), Check(env, AbsenceTurn(d, t), t.week, minute), d.countdowns)
  }

  /** One lum_checkTimer: alarms, then absences, then countdowns. */
  ghost function CheckOneMinute(env: Environment, d: Device, t: TimeData): (r: Device)
    requires t.week < 7
    ensures |r.alarms| == |d.alarms| && |r.countdowns| == |d.countdowns|
  {
    CheckCountdowns(env, CheckAlarmsAndAbsences(env, d, t), 0, t)
  }

  /** The checks of the dates of the given seconds, in order. */
  ghost function CheckAll(env: Environment, d: Device, ticks: seq<Seconds>): (r: Device)
    ensures |r.alarms| == |d.alarms| && |r.countdowns| == |d.countdowns|
    decreases |ticks|
  {
    if ticks == [] then d
    else CheckOneMinute(env, CheckAll(env, d, ticks[..|ticks| - 1]), Civil(ticks[|ticks| - 1]))
  }

  lemma CheckKeepsRegistersOf(env: Environment, d: Device, t: TimeData)
    requires Registers(d.absence) && t.week < 7 && t.hour < 24 && t.minute < 60
    ensures Registers(CheckOneMinute(env, d, t).absence)
  {
    CheckKeepsRegisters(env, AbsenceTurn(d, t), t.week, t.hour * 60 + t.minute);
  }

  /** Every run of checks keeps the absence registers in agreement. */
  lemma {:induction false} ChecksKeepRegisters(env: Environment, d: Device, ticks: seq<Seconds>)
    requires Registers(d.absence)
    ensures Registers(CheckAll(env, d, ticks).absence)
    decreases |ticks|
  {
    if ticks != [] {
      ChecksKeepRegisters(env, d, ticks[..|ticks| - 1]);
      CheckKeepsRegistersOf(env, CheckAll(env, d, ticks[..|ticks| - 1]), Civil(ticks[|ticks| - 1]));
    }
  }

  /** The absence part of a check. */
  lemma AbsenceAfter(env: Environment, d: Device, tick: Seconds)
    ensures var r, t, was := CheckOneMinute(env, d, Civil(tick)), MomentOf(tick / 60), AbsenceTurn(d, Civil(tick));
            && r.absence.windows == CheckAt(env, was, t).windows && r.absence.running == CheckAt(env, was, t).running
            && d.absence.readings <= CheckAt(env, was, t).readings <= r.absence.readings
  {
    MinuteOfCivil(tick);
  }

  lemma CheckNext(env: Environment, d: Device, ticks: seq<Seconds>, n: nat)
    requires n < |ticks|
    ensures CheckAll(env, d, ticks[..n + 1]) == CheckOneMinute(env, CheckAll(env, d, ticks[..n]), Civil(ticks[n]))
  {
    assert ticks[..n + 1][..n] == ticks[..n];
  }

  lemma CheckSingle(env: Environment, d: Device, tick: Seconds)
    ensures CheckAll(env, d, [tick]) == CheckOneMinute(env, d, Civil(tick))
  {
  }

  // ----- one callback

  function OneReading(d: Device): Device {
    d.(absence := d.absence.(readings := d.absence.readings + 1))
  }

  /** lum_minuteCheckProtect after the reading cur: the ticks are those of Handed, and the second reading
      of the clock is taken only when there is something to catch up. */
  ghost function Protected(env: Environment, d: Device, last: LastField, cur: Seconds): (r: Device)
  {
    var reread := env.clock(d.absence.readings);
    CheckAll(env, if TotalMinutes(last, cur / 60 % 60) > 1 then OneReading(d) else d, Handed(last, cur, reread))
  }

  lemma ProtectedOnce(env: Environment, d: Device, last: LastField, cur: Seconds)
    requires TotalMinutes(last, cur / 60 % 60) <= 1
    ensures Protected(env, d, last, cur) == CheckOneMinute(env, d, Civil(cur))
  {
    CheckSingle(env, d, cur);
  }

  lemma ProtectedAgain(env: Environment, d: Device, last: LastField, cur: Seconds)
    requires TotalMinutes(last, cur / 60 % 60) > 1
    ensures Protected(env, d, last, cur) == CheckAll(env, OneReading(d), Handed(last, cur, env.clock(d.absence.readings)))
  {
  }

  /** lum_checkTimerCallback: the device after it, and the last minute it leaves. */
  ghost function AfterCallback(env: Environment, d: Device, last: LastField): (r: (Device, LastField)) {
    var cur := env.clock(d.absence.readings);
    if cur > SEC_2015_01_01_00_00_00 then (Protected(env, OneReading(d), last, cur), cur / 60 % 60)
    else (OneReading(d), last)
  }

  /** A callback after its reading of the clock. */
  lemma CallbackIs(env: Environment, d: Device, last: LastField, cur: Seconds)
    requires cur == env.clock(d.absence.readings)
    ensures AfterCallback(env, d, last) ==
            if cur > SEC_2015_01_01_00_00_00 then (Protected(env, OneReading(d), last, cur), cur / 60 % 60) else (OneReading(d), last)
  {
  }

  lemma CallbackKeepsRegisters(env: Environment, d: Device, last: LastField)
    requires Registers(d.absence)
    ensures Registers(AfterCallback(env, d, last).0.absence)
  {
    var cur := env.clock(d.absence.readings);
    var first := OneReading(d);
    var reread := env.clock(first.absence.readings);
    ChecksKeepRegisters(env, first, Handed(last, cur, reread));
    ChecksKeepRegisters(env, OneReading(first), Handed(last, cur, reread));
  }
}
