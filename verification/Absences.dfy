/** Absence windows: when lum_compareAbsence reports a window as running. */
module Absences {
  import opened WeekMask
  import opened Alarms

  datatype Status = OutOf | EqualStart | Within | EqualEnd

  /** ASBENCE_DATA_INFO. */
  datatype Absence = Absence(repeatData: bv8, startHour: nat, startMinute: nat, endHour: nat, endMinute: nat)
  {
    function Start(): nat {
      startHour * 60 + startMinute
    }

    function End(): nat {
      endHour * 60 + endMinute
    }

    function Inactive(): Absence {
      this.(repeatData := Deactivated(repeatData))
    }

    predicate IsSet() {
      startHour < 24 && startMinute < 60 && endHour < 24 && endMinute < 60
    }

    /** The minutes from the start of one occurrence to its end, which is not part of it any more. */
    function Span(): nat
      requires IsSet()
    {
      if End() > Start() then End() - Start() else End() - Start() + MINUTES_PER_DAY
    }

    /** The minutes from the first to the last minute of one occurrence, both included; a window
        whose start and end agree covers one day and stops short of its end. */
    function Length(): nat
      requires IsSet()
    {
      if End() > Start() then End() - Start()
      else if End() == Start() then MINUTES_PER_DAY - 1
      else End() - Start() + MINUTES_PER_DAY
    }
  }

  /** The windows of times that setAbsenceData takes for commands of the log and never stores. */
  predicate IsService(w: Absence) {
    || (w.startHour == 7 && w.startMinute == 15 && w.endHour == 8 && w.endMinute == 16)
    || (w.startHour == 8 && w.startMinute == 16 && w.endHour == 9 && w.endMinute == 17)
  }

  /** The day on which withinPeriod is decided. */
  predicate WithinPeriod(w: Absence, week: nat, minute: nat)
    requires week < 7
  {
    if minute >= w.Start() then
      CompareWeekData(w.repeatData, week) && (minute <= w.End() || w.Start() >= w.End())
    else
      w.Start() >= w.End() && CompareWeekData(AddOneDay(w.repeatData), week) && minute <= w.End()
  }

  /** The status lum_compareAbsence returns. */
  function CompareStatus(w: Absence, week: nat, minute: nat): Status
    requires week < 7
  {
    if !Active(w.repeatData) || !WithinPeriod(w, week, minute) then OutOf
    else if w.Start() == minute then EqualStart
    else if minute == w.End() then EqualEnd
    else Within
  }

  function StatusAt(w: Absence, m: nat): Status {
    CompareStatus(w, Weekday(m), m % MINUTES_PER_DAY)
  }

  // ----- occurrences as intervals of absolute minutes

  /** Minute m lies in the occurrence that begins on the given day. Day 0 is a day before minute 0,
      so that the windows running at minute 0 have a beginning. */
  ghost predicate InOccurrence(w: Absence, day: int, m: nat)
    requires w.IsSet()
  {
    day * MINUTES_PER_DAY + w.Start() <= m <= day * MINUTES_PER_DAY + w.Start() + w.Length()
  }

  ghost predicate BeginsOn(w: Absence, day: int) {
    Active(w.repeatData) && OnDay(w.repeatData, (day + 4) % 7)
  }

  lemma DayBefore(m: nat)
    ensures (m / MINUTES_PER_DAY - 1 + 4) % 7 == (Weekday(m) + 6) % 7
    ensures Weekday(m) == ((m / MINUTES_PER_DAY - 1 + 4) % 7 + 1) % 7
  {
  }

  /** A window is reported exactly when today's or yesterday's occurrence contains the minute. */
  lemma ReportedIffRunning(w: Absence, m: nat)
    requires w.IsSet()
    ensures var today := m / MINUTES_PER_DAY;
            StatusAt(w, m) != OutOf <==>
              || (BeginsOn(w, today) && InOccurrence(w, today, m))
              || (BeginsOn(w, today - 1) && InOccurrence(w, today - 1, m))
  {
    var week, minute, today := Weekday(m), m % MINUTES_PER_DAY, m / MINUTES_PER_DAY;
    assert m == today * MINUTES_PER_DAY + minute;
    CompareIsOnDay(w.repeatData, week);
    DayBefore(m);
    RotationIsNextDay(w.repeatData, (today - 1 + 4) % 7);
  }

  /** No occurrence of an earlier or later day contains the minute, so two days are enough. */
  lemma OnlyTwoDays(w: Absence, day: int, m: nat)
    requires w.IsSet() && InOccurrence(w, day, m)
    ensures m / MINUTES_PER_DAY - 1 <= day <= m / MINUTES_PER_DAY
  {
  }

  /** Over all days. */
  lemma RunningIffSomeOccurrence(w: Absence, m: nat)
    requires w.IsSet()
    ensures StatusAt(w, m) != OutOf <==> exists day: int :: BeginsOn(w, day) && InOccurrence(w, day, m)
  {
    ReportedIffRunning(w, m);
    forall day: int | BeginsOn(w, day) && InOccurrence(w, day, m)
      ensures StatusAt(w, m) != OutOf
    {
      OnlyTwoDays(w, day, m);
    }
  }

  /** The end of a window is reported at its last minute, except when start and end agree: such a
      window never reports its end, so without weekdays it stays active. */
  lemma EndIsReported(w: Absence, m: nat)
    requires w.IsSet()
    ensures StatusAt(w, m) == EqualEnd <==>
              && StatusAt(w, m) != OutOf && m % MINUTES_PER_DAY == w.End() && w.Start() != w.End()
    ensures StatusAt(w, m) == EqualStart <==> StatusAt(w, m) != OutOf && m % MINUTES_PER_DAY == w.Start()
  {
  }
}
