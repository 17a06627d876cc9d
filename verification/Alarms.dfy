/** The alarms of the minute scheduler: one step of lum_compareAlarm, and what it does over minutes. */
module Alarms {
  import opened WeekMask
  import opened Calendar

  const MINUTES_PER_DAY := 1440
  const UNSET := 0xFF

  datatype Switch = Close | Open

  /** Where the switch stands after the given actions; it is closed at the start. */
  function Latest(actions: seq<Switch>): Switch {
    if actions == [] then Close else actions[|actions| - 1]
  }

  /** ALARM_DATA_INFO; the numbers are bytes, UNSET for no time. */
  datatype Alarm = Alarm(repeatData: bv8, startHour: nat, startMinute: nat, stopHour: nat, stopMinute: nat)
  {
    function Start(): nat {
      startHour * 60 + startMinute
    }

    function Stop(): nat {
      stopHour * 60 + stopMinute
    }

    function Inactive(): Alarm {
      this.(repeatData := Deactivated(repeatData))
    }

    /** Both times are times of day. */
    predicate IsSet() {
      startHour < 24 && startMinute < 60 && stopHour < 24 && stopMinute < 60
    }

    /** The minutes from opening to closing. */
    function Duration(): int {
      Stop() - Start() + (if Stop() <= Start() then MINUTES_PER_DAY else 0)
    }
  }

  function Weekday(m: nat): (w: nat)
    ensures w < 7
  {
    WeekdayOfDay(m / MINUTES_PER_DAY)
  }

  predicate OpensNow(a: Alarm, week: nat, minute: nat)
    requires week < 7
  {
    Active(a.repeatData) && a.Start() == minute && CompareWeekData(a.repeatData, week)
  }

  /** The mask the stop time is compared with. */
  function StopMask(a: Alarm): bv8 {
    if a.startHour != UNSET && a.startMinute != UNSET && a.Stop() <= a.Start() then AddOneDay(a.repeatData) else a.repeatData
  }

  predicate ClosesNow(a: Alarm, week: nat, minute: nat)
    requires week < 7
  {
    Active(a.repeatData) && a.Stop() == minute && CompareWeekData(StopMask(a), week)
  }

  /** A non-repeating alarm that closes, or that opens and has no stop time, is done. */
  predicate EndsNow(a: Alarm, week: nat, minute: nat)
    requires week < 7
  {
    || (OpensNow(a, week, minute) && (a.stopHour == UNSET || a.stopMinute == UNSET) && !Repeating(a.repeatData))
    || (ClosesNow(a, week, minute) && !Repeating(StopMask(a)))
  }

  /** The alarm record after a check. */
  function AfterCheck(a: Alarm, week: nat, minute: nat): Alarm
    requires week < 7
  {
    if EndsNow(a, week, minute) then a.Inactive() else a
  }

  /** The switch actions a check asks for, in order. */
  function Actions(a: Alarm, week: nat, minute: nat): seq<Switch>
    requires week < 7
  {
    (if OpensNow(a, week, minute) then [Open] else []) + (if ClosesNow(a, week, minute) then [Close] else [])
  }

  // ----- over absolute minutes

  predicate OpensAt(a: Alarm, m: nat) {
    OpensNow(a, Weekday(m), m % MINUTES_PER_DAY)
  }

  predicate ClosesAt(a: Alarm, m: nat) {
    ClosesNow(a, Weekday(m), m % MINUTES_PER_DAY)
  }

  /** Every record, whatever its fields are, opens exactly at its start time on the days of its mask. */
  lemma OpensOnItsDays(a: Alarm, m: nat)
    ensures OpensAt(a, m) <==>
              && Active(a.repeatData)
              && m % 1440 == a.startHour * 60 + a.startMinute
              && OnDay(a.repeatData, Weekday(m))
  {
    CompareIsOnDay(a.repeatData, Weekday(m));
  }

  /** The day whose mask bit the stop time goes by: the day before when the alarm has a start time that
      the stop time does not follow on the same day. */
  predicate StopsNextDay(a: Alarm) {
    && a.startHour != 255 && a.startMinute != 255
    && a.stopHour * 60 + a.stopMinute <= a.startHour * 60 + a.startMinute
  }

  /** Every record closes exactly at its stop time, on the days of its mask or on the days after them. */
  lemma ClosesOnItsDays(a: Alarm, m: nat)
    ensures ClosesAt(a, m) <==>
              && Active(a.repeatData)
              && m % 1440 == a.stopHour * 60 + a.stopMinute
              && OnDay(a.repeatData, if StopsNextDay(a) then (Weekday(m) + 6) % 7 else Weekday(m))
  {
    if StopsNextDay(a) {
      RotationIsNextDay(a.repeatData, (Weekday(m) + 6) % 7);
    } else {
      CompareIsOnDay(a.repeatData, Weekday(m));
    }
  }

  /** A check changes every record in one way only: without weekdays it is switched off when it closes,
      or when it opens and a byte of its stop time is unset. */
  lemma SwitchedOffIff(a: Alarm, m: nat)
    ensures AfterCheck(a, Weekday(m), m % 1440)
         == if !Repeating(a.repeatData) && (ClosesAt(a, m) || (OpensAt(a, m) && (a.stopHour == 255 || a.stopMinute == 255)))
            then a.Inactive() else a
  {
    RotationIsNextDay(a.repeatData, 0);
  }

  lemma NextWeekday(m: nat)
    requires MINUTES_PER_DAY <= m
    ensures Weekday(m) == (Weekday(m - MINUTES_PER_DAY) + 1) % 7
  {
    assert (m - MINUTES_PER_DAY) / MINUTES_PER_DAY == m / MINUTES_PER_DAY - 1;
  }

  /** The minutes of one day around a minute of day x. */
  lemma DayBack(m: nat, d: nat, x: nat, y: nat)
    requires x < MINUTES_PER_DAY && y < MINUTES_PER_DAY && d <= m
    requires d == y - x || d == y - x + MINUTES_PER_DAY
    ensures m % MINUTES_PER_DAY == y <==> (m - d) % MINUTES_PER_DAY == x
    ensures m % MINUTES_PER_DAY == y ==> (m - d) / MINUTES_PER_DAY == m / MINUTES_PER_DAY - (if d == y - x then 0 else 1)
  {
  }

  /** A set repeating alarm closes the switch at minute m exactly when it opened it one duration
      before, for every mask and every m, whether or not the window crosses midnight. */
  lemma ClosesAfterOpening(a: Alarm, m: nat)
    requires a.IsSet() && a.Duration() <= m
    ensures ClosesAt(a, m) <==> OpensAt(a, m - a.Duration())
  {
    var d := a.Duration();
    DayBack(m, d, a.Start(), a.Stop());
    CompareIsOnDay(a.repeatData, Weekday(m));
    CompareIsOnDay(a.repeatData, Weekday(m - d));
    if m % MINUTES_PER_DAY == a.Stop() && a.Stop() <= a.Start() {
      NextWeekday(m - d + MINUTES_PER_DAY);
      assert (m - d + MINUTES_PER_DAY) / MINUTES_PER_DAY == m / MINUTES_PER_DAY;
      RotationIsNextDay(a.repeatData, Weekday(m - d));
    }
  }

  /** The alarm record after the checks of the n minutes from m on. */
  function AfterMinutes(a: Alarm, m: nat, n: nat): Alarm {
    if n == 0 then a
    else
      var b := AfterMinutes(a, m, n - 1);
      AfterCheck(b, Weekday(m + n - 1), (m + n - 1) % MINUTES_PER_DAY)
  }

  lemma OneMoreMinute(a: Alarm, m: nat, n: nat, last: nat)
    requires n > 0 && last == m + n - 1
    ensures AfterMinutes(a, m, n) == AfterCheck(AfterMinutes(a, m, n - 1), Weekday(last), last % MINUTES_PER_DAY)
  {
  }

  /** A repeating alarm is never switched off by its own checks. */
  lemma {:induction false} RepeatingStays(a: Alarm, m: nat, n: nat)
    requires Repeating(a.repeatData)
    ensures AfterMinutes(a, m, n) == a
  {
    if n > 0 {
      RepeatingStays(a, m, n - 1);
      RotationIsNextDay(a.repeatData, 0);
    }
  }

  /** The minutes from m to the next time of day x, 0 when it is now. */
  function Wait(m: nat, x: nat): (w: nat)
    requires x < MINUTES_PER_DAY
    ensures w < MINUTES_PER_DAY && (m + w) % MINUTES_PER_DAY == x
  {
    var r := m % MINUTES_PER_DAY;
    assert m == MINUTES_PER_DAY * (m / MINUTES_PER_DAY) + r;
    var w := if r <= x then x - r else x - r + MINUTES_PER_DAY;
    assert m + w == MINUTES_PER_DAY * (m / MINUTES_PER_DAY + (if r <= x then 0 else 1)) + x;
    w
  }

  lemma WaitIsFirst(m: nat, x: nat, i: nat)
    requires x < MINUTES_PER_DAY && i < MINUTES_PER_DAY
    ensures (m + i) % MINUTES_PER_DAY == x <==> i == Wait(m, x)
  {
  }

  /** A set non-repeating alarm checked every minute from m on stays active through its first stop
      time and is off from then on. */
  lemma {:induction false} OneShotEnds(a: Alarm, m: nat, n: nat)
    requires a.IsSet() && Active(a.repeatData) && !Repeating(a.repeatData)
    ensures AfterMinutes(a, m, n) == if n <= Wait(m, a.Stop()) then a else a.Inactive()
  {
    if n > 0 {
      OneShotEnds(a, m, n - 1);
      DeactivatedIsInactive(a.repeatData);
      RotationIsNextDay(a.repeatData, 0);
      if n - 1 <= Wait(m, a.Stop()) {
        WaitIsFirst(m, a.Stop(), n - 1);
        CompareIsOnDay(StopMask(a), Weekday(m + n - 1));
      }
    }
  }

  /** What such an alarm does at the n-th minute: it closes once, at the first stop time; it opens
      once, at the first start time, if and only if that does not come after the first stop time. */
  lemma OneShotActions(a: Alarm, m: nat, n: nat)
    requires a.IsSet() && Active(a.repeatData) && !Repeating(a.repeatData)
    ensures var b := AfterMinutes(a, m, n);
            && (ClosesAt(b, m + n) <==> n == Wait(m, a.Stop()))
            && (OpensAt(b, m + n) <==> n == Wait(m, a.Start()) && Wait(m, a.Start()) <= Wait(m, a.Stop()))
  {
    OneShotEnds(a, m, n);
    DeactivatedIsInactive(a.repeatData);
    RotationIsNextDay(a.repeatData, 0);
    if n <= Wait(m, a.Stop()) {
      WaitIsFirst(m, a.Stop(), n);
      WaitIsFirst(m, a.Start(), n);
      CompareIsOnDay(StopMask(a), Weekday(m + n));
      CompareIsOnDay(a.repeatData, Weekday(m + n));
    }
  }

  // ----- alarms with one time only

  /** Both bytes of the stop time are unset. */
  predicate OpensOnly(a: Alarm) {
    a.startHour < 24 && a.startMinute < 60 && a.stopHour == UNSET && a.stopMinute == UNSET
  }

  /** Both bytes of the start time are unset. */
  predicate ClosesOnly(a: Alarm) {
    a.startHour == UNSET && a.startMinute == UNSET && a.stopHour < 24 && a.stopMinute < 60
  }

  /** Without a start time, for every mask: it closes at its stop time on the days of the mask and never
      opens. */
  lemma ClosesOnlyIff(a: Alarm, m: nat)
    requires ClosesOnly(a)
    ensures ClosesAt(a, m) <==>
              Active(a.repeatData) && m % 1440 == a.stopHour * 60 + a.stopMinute && OnDay(a.repeatData, Weekday(m))
    ensures !OpensAt(a, m)
  {
    ClosesOnItsDays(a, m);
    OpensOnItsDays(a, m);
  }

  /** Without a stop time, for every mask: it opens at its start time on the days of the mask and never
      closes. */
  lemma OpensOnlyIff(a: Alarm, m: nat)
    requires OpensOnly(a)
    ensures OpensAt(a, m) <==>
              Active(a.repeatData) && m % 1440 == a.startHour * 60 + a.startMinute && OnDay(a.repeatData, Weekday(m))
    ensures !ClosesAt(a, m)
  {
    ClosesOnItsDays(a, m);
    OpensOnItsDays(a, m);
  }

  /** A non-repeating alarm without a stop time opens once, at its first start time, and is off from
      then on. */
  lemma {:induction false} OpensOnce(a: Alarm, m: nat, n: nat)
    requires OpensOnly(a) && Active(a.repeatData) && !Repeating(a.repeatData)
    ensures var b := AfterMinutes(a, m, n);
            && b == (if n <= Wait(m, a.Start()) then a else a.Inactive())
            && (OpensAt(b, m + n) <==> n == Wait(m, a.Start()))
            && !ClosesAt(b, m + n)
  {
    DeactivatedIsInactive(a.repeatData);
    if n > 0 {
      OpensOnce(a, m, n - 1);
    }
    if n <= Wait(m, a.Start()) {
      WaitIsFirst(m, a.Start(), n);
      CompareIsOnDay(a.repeatData, Weekday(m + n));
    }
  }

  /** A non-repeating alarm without a start time closes once, at its first stop time, and is off from
      then on. */
  lemma {:induction false} ClosesOnce(a: Alarm, m: nat, n: nat)
    requires ClosesOnly(a) && Active(a.repeatData) && !Repeating(a.repeatData)
    ensures var b := AfterMinutes(a, m, n);
            && b == (if n <= Wait(m, a.Stop()) then a else a.Inactive())
            && (ClosesAt(b, m + n) <==> n == Wait(m, a.Stop()))
            && !OpensAt(b, m + n)
  {
    DeactivatedIsInactive(a.repeatData);
    if n > 0 {
      ClosesOnce(a, m, n - 1);
    }
    if n <= Wait(m, a.Stop()) {
      WaitIsFirst(m, a.Stop(), n);
      CompareIsOnDay(a.repeatData, Weekday(m + n));
    }
  }
}
