/** The absence of the device over runs of checks, minute after minute. */
module DeviceAbsences {
  import opened WeekMask
  import opened Calendar
  import opened Absences
  import opened AbsenceCheck
  import opened AbsenceRuns
  import opened AbsenceMinutes
  import opened CatchUp
  import opened DeviceChecks
  import opened DeviceRuns

  /** The check reads the clock for its absences only while that shows its minute, or not at all. */
  ghost predicate AbsenceInTime(env: Environment, c: Checked) {
    InTime(env, AbsenceTurn(c.before, Civil(c.second)), MomentOf(c.second / 60))
  }

  /** The device check k of a run follows upon. */
  function Previous(d: Device, run: seq<Checked>, k: nat): Device
    requires k < |run|
  {
    if k == 0 then d else run[k - 1].after
  }

  ghost predicate InTimeAll(env: Environment, run: seq<Checked>) {
    forall k: nat {:trigger Nth(run, k)} | k < |run| :: AbsenceInTime(env, Nth(run, k))
  }

  /** No command changes the absences between the checks. */
  ghost predicate Undisturbed(d: Device, run: seq<Checked>) {
    forall k: nat {:trigger Previous(d, run, k)} | k < |run| :: run[k].before.absence.windows == Previous(d, run, k).absence.windows
  }

  ghost predicate SomeCovered(ws: seq<Absence>, m: nat) {
    exists i: nat :: i < |ws| && Covered(ws[i], m)
  }

  /** The windows after a check of minute m in time. */
  function EndedAt(ws: seq<Absence>, m: nat): (ws': seq<Absence>)
    ensures |ws'| == |ws|
  {
    seq(|ws|, i requires 0 <= i < |ws| => if EndsAt(ws[i], MomentOf(m)) then ws[i].Inactive() else ws[i])
  }

  /** What a check in time does to the absences. */
  lemma AbsencesAfter(env: Environment, run: seq<Checked>, k: nat)
    requires AreChecks(env, run) && InTimeAll(env, run) && k < |run| && AllSet(run[k].before.absence.windows)
    ensures var ws, m := run[k].before.absence.windows, run[k].second / 60;
            run[k].after.absence.windows == EndedAt(ws, m) && (run[k].after.absence.running <==> SomeCovered(ws, m))
  {
    assert IsCheck(env, Nth(run, k)) && AbsenceInTime(env, Nth(run, k));
    AbsenceAfter(env, run[k].before, run[k].second);
    CheckInTime(env, AbsenceTurn(run[k].before, Civil(run[k].second)), MomentOf(run[k].second / 60));
    RunsIffCovered(env, AbsenceTurn(run[k].before, Civil(run[k].second)), run[k].second / 60);
  }

  /** What becomes of all windows by the checks of the n minutes after m. */
  function WindowsAfter(ws: seq<Absence>, m: nat, n: nat): (ws': seq<Absence>)
    requires AllSet(ws)
    ensures |ws'| == |ws| && AllSet(ws')
  {
    var ws' := seq(|ws|, i requires 0 <= i < |ws| => WindowAfter(ws[i], m, n));
    EvolvedSet(ws, ws', m, n);
    ws'
  }

  lemma EvolvedSet(ws: seq<Absence>, ws': seq<Absence>, m: nat, n: nat)
    requires AllSet(ws) && |ws'| == |ws| && forall i: nat | i < |ws| :: ws'[i] == WindowAfter(ws[i], m, n)
    ensures AllSet(ws')
  {
    forall i: nat | i < |ws| && Active(ws'[i].repeatData)
      ensures ws'[i].IsSet()
    {
      DeactivatedIsInactive(ws[i].repeatData);
    }
  }

  lemma WindowsNext(ws: seq<Absence>, m: nat, n: nat)
    requires AllSet(ws)
    ensures EndedAt(WindowsAfter(ws, m, n), m + n + 1) == WindowsAfter(ws, m, n + 1)
  {
    var ended, next := EndedAt(WindowsAfter(ws, m, n), m + n + 1), WindowsAfter(ws, m, n + 1);
    forall i: nat | i < |ws|
      ensures ended[i] == next[i]
    {
      WindowNext(ws[i], m, n + 1);
    }
  }

  lemma NoMinutes(ws: seq<Absence>, m: nat)
    requires AllSet(ws)
    ensures WindowsAfter(ws, m, 0) == ws
  {
  }

  /** Over a run of checks for every minute from first on, in time and without commands, check k finds the
      windows as the minutes before have left them. */
  lemma {:induction false} DeviceWindowsEvolve(env: Environment, d: Device, run: seq<Checked>, first: nat, k: nat)
    requires AreChecks(env, run) && InTimeAll(env, run) && Undisturbed(d, run) && EveryMinute(SecondsOf(run), first)
    requires first > 0 && k < |run| && AllSet(d.absence.windows)
    ensures run[k].before.absence.windows == WindowsAfter(d.absence.windows, first - 1, k)
  {
    assert run[k].before.absence.windows == Previous(d, run, k).absence.windows;
    if k == 0 {
      NoMinutes(d.absence.windows, first - 1);
    } else {
      DeviceWindowsEvolve(env, d, run, first, k - 1);
      SecondsUpTo(run, k - 1, first);
      AbsencesAfter(env, run, k - 1);
      WindowsNext(d.absence.windows, first - 1, k - 1);
    }
  }

  /** After the check of minute first + k the absence runs exactly when some occurrence covers that minute,
      of a window that the minutes before have not switched off. */
  lemma DeviceRunsIffCovered(env: Environment, d: Device, run: seq<Checked>, first: nat, k: nat)
    requires AreChecks(env, run) && InTimeAll(env, run) && Undisturbed(d, run) && EveryMinute(SecondsOf(run), first)
    requires first > 0 && k < |run| && AllSet(d.absence.windows)
    ensures run[k].after.absence.running <==> SomeCovered(WindowsAfter(d.absence.windows, first - 1, k), first + k)
  {
    DeviceWindowsEvolve(env, d, run, first, k);
    SecondsUpTo(run, k, first);
    AbsencesAfter(env, run, k);
  }

  // ----- runs of callbacks alone

  function End(d: Device, run: seq<Checked>): Device {
    if run == [] then d else run[|run| - 1].after
  }

  /** The clock was read, and nothing else happened. */
  predicate OnlyRead(s: State, r: State) {
    r == s.(readings := r.readings)
  }

  /** Between the checks nothing is done to the absences but reading the clock. */
  ghost predicate Unattended(d: Device, run: seq<Checked>) {
    forall k: nat {:trigger Previous(d, run, k)} | k < |run| :: OnlyRead(Previous(d, run, k).absence, run[k].before.absence)
  }

  lemma UnattendedOn(d: Device, a: seq<Checked>, m: Device, b: seq<Checked>)
    requires Unattended(d, a) && Unattended(m, b) && OnlyRead(End(d, a).absence, m.absence)
    ensures Unattended(d, a + b)
  {
    forall k: nat | k < |a + b|
      ensures OnlyRead(Previous(d, a + b, k).absence, (a + b)[k].before.absence)
    {
      if k < |a| {
        assert OnlyRead(Previous(d, a, k).absence, a[k].before.absence);
      } else {
        assert OnlyRead(Previous(m, b, k - |a|).absence, b[k - |a|].before.absence);
      }
    }
  }

  lemma CallbackUnattended(env: Environment, d: Device, last: LastField)
    ensures var run := EventRun(env, d, last, TimerFires);
            Unattended(d, run) && OnlyRead(End(d, run).absence, AfterCallback(env, d, last).0.absence)
  {
    if ChecksMinutes(env, d, TimerFires) {
      var c, first := ReadingsOf(env, d), OneReading(d);
      var start := if TotalMinutes(last, c.cur / 60 % 60) > 1 then OneReading(first) else first;
      ChecksUnattended(env, d, start, Handed(last, c.cur, c.reread));
    }
  }

  lemma ChecksUnattended(env: Environment, d: Device, start: Device, ticks: seq<Seconds>)
    requires OnlyRead(d.absence, start.absence)
    ensures Unattended(d, ChecksOf(env, start, ticks))
    ensures OnlyRead(End(d, ChecksOf(env, start, ticks)).absence, CheckAll(env, start, ticks).absence)
  {
    assert ticks[..|ticks|] == ticks;
  }

  /** Callbacks without commands in between leave the absences to the checks. */
  lemma {:induction false} CallbacksUnattended(env: Environment, d: Device, last: LastField, events: seq<Event>)
    requires forall e | e in events :: e.TimerFires?
    ensures Unattended(d, RunOf(env, d, last, events))
    decreases |events|
  {
    if events != [] {
      assert events[0].TimerFires?;
      var (d', last') := AfterCallback(env, d, last);
      CallbackUnattended(env, d, last);
      CallbacksUnattended(env, d', last', events[1..]);
      UnattendedOn(d, EventRun(env, d, last, TimerFires), d', RunOf(env, d', last', events[1..]));
    }
  }

  /** So they do not disturb the windows either. */
  lemma CallbacksUndisturbed(env: Environment, d: Device, last: LastField, events: seq<Event>)
    requires forall e | e in events :: e.TimerFires?
    ensures Undisturbed(d, RunOf(env, d, last, events))
  {
    var run := RunOf(env, d, last, events);
    CallbacksUnattended(env, d, last, events);
    forall k: nat | k < |run|
      ensures run[k].before.absence.windows == Previous(d, run, k).absence.windows
    {
      assert OnlyRead(Previous(d, run, k).absence, run[k].before.absence);
    }
  }
}
