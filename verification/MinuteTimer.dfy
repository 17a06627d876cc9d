/** The minute timer of the device: the alarm, absence and countdown records and the globals of
    lumTimer.c, checked in place. */
module MinuteTimer {
  import opened WeekMask
  import opened Calendar
  import opened Alarms
  import opened Absences
  import opened AbsenceCheck
  import opened AbsenceRuns
  import opened Countdowns
  import opened CatchUp
  import opened DeviceChecks

  const MAX_ALARM_COUNT := 32
  const MAX_COUNTDOWN_COUNT := 1
  const NOT_NTP_CHECK_TIMER_PERIOD := 10000

  class Timer {
    const env: Environment
    const alarms: array<Alarm>
    const absences: array<Absence>
    const countdowns: array<Countdown>
    var absenceRunning: bool
    var nextAbsenceMinute: nat
    var lastCheckMinute: LastField
    var actions: seq<Switch>
    var draws: nat
    var readings: nat

    ghost predicate Valid()
      reads this
    {
      && alarms.Length == MAX_ALARM_COUNT && absences.Length == MAX_ABSENCE_COUNT && countdowns.Length == MAX_COUNTDOWN_COUNT
    }

    /** The records as loaded, and the globals of lumTimer.c as they are initialized. */
    constructor (env: Environment, alarms: array<Alarm>, absences: array<Absence>, countdowns: array<Countdown>)
      requires alarms.Length == MAX_ALARM_COUNT && absences.Length == MAX_ABSENCE_COUNT && countdowns.Length == MAX_COUNTDOWN_COUNT
      ensures Valid() && Registers(Absence())
      ensures this.env == env && this.alarms == alarms && this.absences == absences && this.countdowns == countdowns
      ensures !absenceRunning && nextAbsenceMinute == INVALUE_ABSENCE_MINUTE && lastCheckMinute == NEVER_CHECKED && actions == []
    {
      this.env, this.alarms, this.absences, this.countdowns := env, alarms, absences, countdowns;
      absenceRunning := false;
      nextAbsenceMinute := INVALUE_ABSENCE_MINUTE;
      lastCheckMinute := NEVER_CHECKED;
      actions := [];
      draws := 0;
      readings := 0;
    }

    /** The part of the state an absence check works on. */
    ghost function Absence(): State
      reads this, absences
    {
      State(absences[..], absenceRunning, nextAbsenceMinute, actions, draws, readings)
    }

    // ----- readings from outside

    /** lum_getSystemTime. */
    method GetSystemTime() returns (utc: Seconds)
      modifies this`readings
      ensures utc == env.clock(old(readings)) && readings == old(readings) + 1
    {
      utc := env.clock(readings);
      readings := readings + 1;
    }

    method Rand() returns (r: nat)
      modifies this`draws
      ensures r == env.rand(old(draws)) && draws == old(draws) + 1
    {
      r := env.rand(draws);
      draws := draws + 1;
    }

    /** getRandomNumber. */
    method GetRandomNumber(minNum: nat, maxNum: nat) returns (r: nat)
      requires minNum < maxNum
      modifies this`draws
      ensures r == RandomNumber(env.rand(old(draws)), minNum, maxNum) && draws == old(draws) + 1
    {
      var randomData := Rand();
      r := minNum + randomData % (maxNum - minNum);
    }

    /** setSwitchStatus: the actions of the switch are kept in order. */
    method SetSwitchStatus(action: Switch)
      modifies this`actions
      ensures actions == old(actions) + [action]
    {
      actions := actions + [action];
    }

    // ----- alarms

    /** lum_checkInactiveAlarm. */
    method CheckInactiveAlarm(index: nat)
      requires index < alarms.Length
      modifies alarms
      ensures alarms[..] == old(alarms[..])[index := old(alarms[index]).Inactive()]
    {
      var tmp := alarms[index];
      tmp := tmp.(repeatData := Deactivated(tmp.repeatData));
      alarms[index] := tmp;
    }

    /** lum_compareAlarm. */
    method CompareAlarm(index: nat, week: nat, curMinute: nat)
      requires index < alarms.Length && week < 7
      modifies alarms, this`actions
      ensures alarms[..] == old(alarms[..])[index := AfterCheck(old(alarms[index]), week, curMinute)]
      ensures actions == old(actions) + (if absenceRunning then [] else Actions(old(alarms[index]), week, curMinute))
    {
      if !Active(alarms[index].repeatData) {
        return;
      }
      var checkStartMinute := alarms[index].startHour * 60 + alarms[index].startMinute;
      var checkStopMinute := alarms[index].stopHour * 60 + alarms[index].stopMinute;
      var compareWeek := alarms[index].repeatData;
      DeactivatedTwice(compareWeek);
      if checkStartMinute == curMinute {
        if CompareWeekData(compareWeek, week) {
          if !absenceRunning {
            SetSwitchStatus(Open);
          }
          if (alarms[index].stopHour == UNSET || alarms[index].stopMinute == UNSET) && compareWeek & 0x7F == 0 {
            CheckInactiveAlarm(index);
          }
        }
      }
      if checkStopMinute == curMinute {
        if alarms[index].startHour != UNSET && alarms[index].startMinute != UNSET && checkStopMinute <= checkStartMinute {
          compareWeek := AddOneDay(compareWeek);
        }
        if CompareWeekData(compareWeek, week) {
          if !absenceRunning {
            SetSwitchStatus(Close);
          }
          if compareWeek & 0x7F == 0 {
            CheckInactiveAlarm(index);
          }
        }
      }
    }

    /** lum_checkAlarm. */
    method CheckAlarm(week: nat, curMinute: nat)
      requires week < 7
      modifies alarms, this`actions
      ensures alarms[..] == AlarmsAfter(old(alarms[..]), week, curMinute)
      ensures actions == old(actions) + AlarmActions(old(alarms[..]), 0, week, curMinute, absenceRunning)
    {
      ghost var was := alarms[..];
      for i := 0 to alarms.Length
        invariant forall k: nat | k < alarms.Length :: alarms[k] == if k < i then AfterCheck(was[k], week, curMinute) else was[k]
        invariant actions + AlarmActions(was, i, week, curMinute, absenceRunning)
               == old(actions) + AlarmActions(was, 0, week, curMinute, absenceRunning)
      {
        OneMoreAlarm(actions, was, i, week, curMinute, absenceRunning);
        CompareAlarm(i, week, curMinute);
      }
    }

    // ----- absences

    /** lum_changeSwitchByAbsence. */
    method ChangeSwitchByAbsence(action: Switch, curMinute: nat, stopAbsence: bool)
      modifies this`actions, this`nextAbsenceMinute, this`draws
      ensures Absence() == ChangeSwitch(env, old(Absence()), action, curMinute, stopAbsence)
    {
      SetSwitchStatus(action);
      if stopAbsence {
        nextAbsenceMinute := INVALUE_ABSENCE_MINUTE;
      } else {
        var randMinute;
        if action == Close {
          randMinute := GetRandomNumber(MIN_ABSENCE_CLOSE_INTERVAL, MAX_ABSENCE_CLOSE_INTERVAL);
        } else {
          randMinute := GetRandomNumber(MIN_ABSENCE_OPEN_INTERVAL, MAX_ABSENCE_OPEN_INTERVAL);
        }
        nextAbsenceMinute := (curMinute + randMinute) % 1440;
      }
    }

    /** lum_getAbsenceEmptyPlace. */
    method AbsenceEmptyPlace() returns (i: nat)
      requires absences.Length == MAX_ABSENCE_COUNT
      ensures i == EmptyPlace(absences[..], 0)
    {
      i := 0;
      while i < MAX_ABSENCE_COUNT
        invariant i <= MAX_ABSENCE_COUNT && EmptyPlace(absences[..], i) == EmptyPlace(absences[..], 0)
      {
        if absences[i].startHour == UNSET {
          return;
        }
        i := i + 1;
      }
      i := ADD_ALARM_INDEX_EMPTY;
    }

    /** setAbsenceData: the record is placed and stored, unless it is a service command, and the
        absences are checked at once. */
    method SetAbsenceData(w: Absences.Absence, index: nat) returns (result: nat)
      requires absences.Length == MAX_ABSENCE_COUNT
      modifies this`absenceRunning, this`nextAbsenceMinute, this`actions, this`draws, this`readings, absences
      ensures var place := old(PlaceFor(absences[..], index));
              result == if place < MAX_ABSENCE_COUNT then place else ADD_ALARM_INDEX_EMPTY
      ensures Absence() == AfterSet(env, old(Absence()), w, index)
      ensures old(Registers(Absence())) ==> Registers(Absence())
      decreases ActiveSet(Placed(absences[..], w, PlaceFor(absences[..], index))), 4
    {
      var tmpIndex := index;
      if index == ADD_ALARM_INDEX_EMPTY {
        tmpIndex := AbsenceEmptyPlace();
      }
      if tmpIndex == ADD_ALARM_INDEX_EMPTY || tmpIndex >= MAX_ABSENCE_COUNT {
        return ADD_ALARM_INDEX_EMPTY;
      }
      if w.startHour == 7 && w.startMinute == 15 && w.endHour == 8 && w.endMinute == 16 {
        return tmpIndex;
      } else if w.startHour == 8 && w.startMinute == 16 && w.endHour == 9 && w.endMinute == 17 {
        return tmpIndex;
      }
      absences[tmpIndex] := w;
      CheckAbsenceWhileChange();
      result := tmpIndex;
    }

    /** deleteAbsenceData. */
    method DeleteAbsenceData(index: nat, needSave: bool)
      requires absences.Length == MAX_ABSENCE_COUNT
      modifies this`absenceRunning, this`nextAbsenceMinute, this`actions, this`draws, this`readings, absences
      ensures Absence() == AfterDelete(env, old(Absence()), index, needSave)
      ensures old(Registers(Absence())) ==> Registers(Absence())
    {
      if index >= MAX_ABSENCE_COUNT {
        return;
      }
      absences[index] := CLEARED;
      if needSave {
        CheckAbsenceWhileChange();
      }
    }

    /** lum_checkInactiveAbsence. */
    method CheckInactiveAbsence(index: nat)
      requires absences.Length == MAX_ABSENCE_COUNT && index < absences.Length && Active(absences[index].repeatData)
      modifies this`absenceRunning, this`nextAbsenceMinute, this`actions, this`draws, this`readings, absences
      ensures Absence() == if Repeating(old(absences[index]).repeatData) || IsService(old(absences[index])) then old(Absence())
                           else CheckNow(env, old(Absence()).(windows := old(absences[..])[index := old(absences[index]).Inactive()]))
      decreases ActiveSet(absences[..]), 0
    {
      var w := absences[index];
      if w.repeatData & 0x7F == 0 {
        SwitchOff(absences[..], index);
        var result := SetAbsenceData(w.(repeatData := Deactivated(w.repeatData)), index);
      }
    }

    /** lum_compareAbsence. */
    method CompareAbsence(index: nat, week: nat, curMinute: nat) returns (status: Status)
      requires absences.Length == MAX_ABSENCE_COUNT && index < absences.Length && week < 7
      modifies this`absenceRunning, this`nextAbsenceMinute, this`actions, this`draws, this`readings, absences
      ensures status == CompareStatus(old(absences[index]), week, curMinute)
      ensures Absence() == ScanOne(env, old(Absence()), index, week, curMinute)
      decreases ActiveSet(absences[..]), 1
    {
      status := OutOf;
      var w := absences[index];
      if !Active(w.repeatData) {
        return;
      }
      var startMinute := w.startHour * 60 + w.startMinute;
      var endMinute := w.endHour * 60 + w.endMinute;
      var withinPeriod := false;
      if curMinute >= startMinute {
        if CompareWeekData(w.repeatData, week) {
          if curMinute <= endMinute || startMinute >= endMinute {
            withinPeriod := true;
          }
        }
      } else if startMinute >= endMinute {
        if CompareWeekData(AddOneDay(w.repeatData), week) {
          if curMinute <= endMinute {
            withinPeriod := true;
          }
        }
      }
      if withinPeriod {
        if startMinute == curMinute {
          status := EqualStart;
        } else if curMinute == endMinute {
          status := EqualEnd;
          CheckInactiveAbsence(index);
        } else {
          status := Within;
        }
      }
    }

    /** lum_checkAbsence. */
    method CheckAbsence(week: nat, curMinute: nat)
      requires absences.Length == MAX_ABSENCE_COUNT && week < 7
      modifies this`absenceRunning, this`nextAbsenceMinute, this`actions, this`draws, this`readings, absences
      ensures Absence() == Check(env, old(Absence()), week, curMinute)
      decreases ActiveSet(absences[..]), 2
    {
      var checkStatus: set<Status> := {};
      ghost var start := Absence();
      for i := 0 to absences.Length
        invariant ActiveSet(absences[..]) <= ActiveSet(start.windows)
        invariant var (s, inside) := Scan(env, Absence(), i, week, curMinute);
                  var (s0, inside0) := Scan(env, start, 0, week, curMinute);
                  s == s0 && (inside0 <==> inside || EqualStart in checkStatus || Within in checkStatus)
      {
        ghost var before := Absence();
        var status := CompareAbsence(i, week, curMinute);
        NarrowsActive(before.windows, Absence().windows);
        checkStatus := checkStatus + {status};
      }
      if EqualStart in checkStatus || Within in checkStatus {
        if !absenceRunning {
          ChangeSwitchByAbsence(Open, curMinute, false);
          absenceRunning := true;
        } else if curMinute == nextAbsenceMinute {
          if Latest(actions) == Close {
            ChangeSwitchByAbsence(Open, curMinute, false);
          } else {
            ChangeSwitchByAbsence(Close, curMinute, false);
          }
        }
      } else {
        if absenceRunning {
          ChangeSwitchByAbsence(Close, curMinute, true);
          absenceRunning := false;
        }
      }
    }

    /** lum_checkAbsenceWhileChange. */
    method CheckAbsenceWhileChange()
      requires absences.Length == MAX_ABSENCE_COUNT
      modifies this`absenceRunning, this`nextAbsenceMinute, this`actions, this`draws, this`readings, absences
      ensures Absence() == CheckNow(env, old(Absence()))
      ensures old(Registers(Absence())) ==> Registers(Absence())
      decreases ActiveSet(absences[..]), 3
    {
      if Registers(Absence()) {
        CheckNowKeepsRegisters(env, Absence());
      }
      var utc := GetSystemTime();
      var curTime := Gmtime(utc);
      CheckAbsence(curTime.week, curTime.hour * 60 + curTime.minute);
    }

    // ----- countdowns

    ghost function Contents(): Device
      reads this, alarms, absences, countdowns
    {
      Device(alarms[..], Absence(), countdowns[..])
    }

    /** lum_checkInactiveCountdown. */
    method CheckInactiveCountdown(index: nat)
      requires index < countdowns.Length
      modifies countdowns
      ensures countdowns[..] == old(countdowns[..])[index := old(countdowns[index]).(active := false)]
    {
      var tmp := countdowns[index];
      tmp := tmp.(active := false);
      countdowns[index] := tmp;
    }

    /** lum_compareCountdown. */
    method CompareCountdown(index: nat, t: TimeData)
      requires index < countdowns.Length
      modifies countdowns, this`actions, this`readings
      ensures Contents() == CheckOneCountdown(env, old(Contents()), index, t)
    {
      var c := countdowns[index];
      if !c.active {
        return;
      }
      var curSecond := GetSystemTime();
      var tmp := SignedDifference(curSecond, c.count);
      if tmp > 60 {
        CheckInactiveCountdown(index);
        return;
      }
      var countdownTime := Gmtime(c.count);
      countdownTime := countdownTime.(second := t.second);
      if countdownTime == t {
        if !absenceRunning {
          SetSwitchStatus(if c.action == 1 then Open else Close);
        }
        CheckInactiveCountdown(index);
      }
    }

    /** lum_checkCountdown. */
    method CheckCountdown(t: TimeData)
      modifies countdowns, this`actions, this`readings
      ensures Contents() == CheckCountdowns(env, old(Contents()), 0, t)
    {
      for i := 0 to countdowns.Length
        invariant CheckCountdowns(env, Contents(), i, t) == CheckCountdowns(env, old(Contents()), 0, t)
      {
        CompareCountdown(i, t);
      }
    }

    // ----- the timer

    /** lum_checkTimer. */
    method CheckTimer(t: TimeData)
      requires absences.Length == MAX_ABSENCE_COUNT && t.week < 7
      modifies this`absenceRunning, this`nextAbsenceMinute, this`actions, this`draws, this`readings, alarms, absences, countdowns
      ensures Contents() == CheckOneMinute(env, old(Contents()), t)
    {
      var curMinute := t.hour * 60 + t.minute;
      ghost var d := Contents();
      CheckAlarm(t.week, curMinute);
      assert Absence() == AbsenceTurn(d, t);
      CheckAbsence(t.week, curMinute);
      assert Contents() == CheckAlarmsAndAbsences(env, d, t);
      CheckCountdown(t);
    }

    /** How many minutes lum_minuteCheckProtect checks. */
    method MinutesToCheck(minute: nat) returns (totalMinute: nat)
      requires Valid() && minute < 60
      ensures totalMinute == TotalMinutes(lastCheckMinute, minute)
    {
      if lastCheckMinute == NEVER_CHECKED {
        totalMinute := 1;
      } else {
        var tmpMinute := if minute < lastCheckMinute then minute + 60 else minute;
        totalMinute := tmpMinute - lastCheckMinute;
      }
      if totalMinute > 10 {
        totalMinute := 1;
      }
    }

    /** lum_minuteCheckProtect; cur is the second whose date is given. */
    method MinuteCheckProtect(t: TimeData, ghost cur: Seconds)
      requires Valid() && t == Civil(cur)
      modifies this`absenceRunning, this`nextAbsenceMinute, this`actions, this`draws, this`readings, alarms, absences, countdowns
      ensures Contents() == Protected(env, old(Contents()), old(lastCheckMinute), cur)
    {
      assert t.minute == cur / 60 % 60 && t.week < 7 by {
        MinuteOfCivil(cur);
      }
      var totalMinute := MinutesToCheck(t.minute);
      if totalMinute > 1 {
        ghost var d := Contents();
        var totalSecond := GetSystemTime();
        ghost var ticks := Handed(lastCheckMinute, cur, totalSecond);
        assert Contents() == OneReading(d);
        HandedAgain(lastCheckMinute, cur, totalSecond);
        ProtectedAgain(env, d, lastCheckMinute, cur);
        Replay(totalMinute, totalSecond, ticks);
      } else {
        ProtectedOnce(env, Contents(), lastCheckMinute, cur);
        CheckTimer(t);
      }
    }

    /** The catch-up loop of lum_minuteCheckProtect. */
    method Replay(totalMinute: nat, totalSecond: Seconds, ghost ticks: seq<Seconds>)
      requires absences.Length == MAX_ABSENCE_COUNT && |ticks| == totalMinute
      requires forall i: nat | i < totalMinute :: ticks[i] == ReplaySecond(totalSecond, totalMinute, i + 1)
      modifies this`absenceRunning, this`nextAbsenceMinute, this`actions, this`draws, this`readings, alarms, absences, countdowns
      ensures Contents() == CheckAll(env, old(Contents()), ticks)
    {
      for i := 1 to totalMinute + 1
        invariant Contents() == CheckAll(env, old(Contents()), ticks[..i - 1])
      {
        var tmpSecond := (totalSecond - (totalMinute - i) * 60) % 0x1_0000_0000;
        CheckNext(env, old(Contents()), ticks, i - 1);
        assert ticks[i - 1] == ReplaySecond(totalSecond, totalMinute, i);
        var tmpTime := Gmtime(tmpSecond);
        CheckTimer(tmpTime);
      }
      assert ticks[..totalMinute] == ticks;
    }

    /** The checks of lum_checkTimerCallback once the clock is set. */
    method CheckAtSecond(curSecond: Seconds) returns (timerPeriod: nat)
      requires Valid()
      modifies this, alarms, absences, countdowns
      ensures Contents() == Protected(env, old(Contents()), old(lastCheckMinute), curSecond)
      ensures lastCheckMinute == curSecond / 60 % 60 && timerPeriod == TimerPeriod(curSecond % 60)
    {
      var curTime := Gmtime(curSecond);
      assert curTime.minute == curSecond / 60 % 60 && curTime.second == curSecond % 60 by {
        MinuteOfCivil(curSecond);
      }
      MinuteCheckProtect(curTime, curSecond);
      lastCheckMinute := curTime.minute;
      timerPeriod := (70 - curTime.second) * 1000;
    }

    /** lum_checkTimerCallback; the result is the period the timer is set to. */
    method CheckTimerCallback() returns (timerPeriod: nat)
      requires Valid()
      modifies this, alarms, absences, countdowns
      ensures Valid()
      ensures (Contents(), lastCheckMinute) == AfterCallback(env, old(Contents()), old(lastCheckMinute))
      ensures var cur := env.clock(old(readings));
              timerPeriod == if cur > 1420041600 then (70 - cur % 60) * 1000 else 10000
      ensures old(Registers(Absence())) ==> Registers(Absence())
    {
      ghost var d := Contents();
      if Registers(d.absence) {
        CallbackKeepsRegisters(env, d, lastCheckMinute);
      }
      var curSecond := GetSystemTime();
      assert Contents() == OneReading(d);
      CallbackIs(env, d, lastCheckMinute, curSecond);
      if curSecond > SEC_2015_01_01_00_00_00 {
        timerPeriod := CheckAtSecond(curSecond);
      } else {
        timerPeriod := NOT_NTP_CHECK_TIMER_PERIOD;
      }
    }
  }
}
