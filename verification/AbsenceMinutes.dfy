/** The absence on the axis of absolute minutes: which minutes it runs, and what becomes of each window. */
module AbsenceMinutes {
  import opened WeekMask
  import opened Alarms
  import opened Absences
  import opened AbsenceCheck
  import opened AbsenceRuns

  /** Minute m lies in the occurrence of the window that begins on the given day, from its start up to but
      not including its end. */
  ghost predicate Covers(w: Absence, day: int, m: nat) {
    && w.IsSet() && BeginsOn(w, day)
    && day * MINUTES_PER_DAY + w.Start() <= m < day * MINUTES_PER_DAY + w.Start() + w.Span()
  }

  ghost predicate Covered(w: Absence, m: nat) {
    exists day: int :: Covers(w, day, m)
  }

  /** Every window that is active has times of day. */
  ghost predicate AllSet(ws: seq<Absence>) {
    forall k: nat | k < |ws| && Active(ws[k].repeatData) :: ws[k].IsSet()
  }

  lemma MinuteOfDay(day: int, x: nat, m: nat)
    requires m == day * MINUTES_PER_DAY + x && x < 2 * MINUTES_PER_DAY
    ensures m % MINUTES_PER_DAY == if x < MINUTES_PER_DAY then x else x - MINUTES_PER_DAY
  {
    if x < MINUTES_PER_DAY {
      DividesAs(m, day, x);
    } else {
      DividesAs(m, day + 1, x - MINUTES_PER_DAY);
    }
  }

  lemma DividesAs(m: nat, q: int, r: nat)
    requires m == q * MINUTES_PER_DAY + r && r < MINUTES_PER_DAY
    ensures m % MINUTES_PER_DAY == r
  {
  }

  /** Of the minutes of an occurrence only its end is not covered, and a window whose start and end agree
      has no such minute. */
  lemma CoversAllButTheEnd(w: Absence, day: int, m: nat)
    requires w.IsSet() && BeginsOn(w, day)
    ensures Covers(w, day, m) <==> InOccurrence(w, day, m) && !(m % MINUTES_PER_DAY == w.End() && w.Start() != w.End())
  {
    var x := m - day * MINUTES_PER_DAY;
    if w.Start() <= x <= w.Start() + w.Length() {
      MinuteOfDay(day, x, m);
    }
  }

  /** A window counts exactly at the minutes some occurrence of it covers. */
  lemma CountsIffCovered(w: Absence, m: nat)
    requires w.IsSet()
    ensures CountsAt(w, MomentOf(m)) <==> Covered(w, m)
  {
    RunningIffSomeOccurrence(w, m);
    EndIsReported(w, m);
    forall day: int | BeginsOn(w, day)
      ensures Covers(w, day, m) <==> InOccurrence(w, day, m) && !(m % MINUTES_PER_DAY == w.End() && w.Start() != w.End())
    {
      CoversAllButTheEnd(w, day, m);
    }
  }

  /** After a check of minute m in time the absence runs exactly when some occurrence covers m. */
  lemma RunsIffCovered(env: Environment, s: State, m: nat)
    requires InTime(env, s, MomentOf(m)) && AllSet(s.windows)
    ensures CheckAt(env, s, MomentOf(m)).running <==> exists k: nat :: k < |s.windows| && Covered(s.windows[k], m)
  {
    CheckInTime(env, s, MomentOf(m));
    forall k: nat | k < |s.windows|
      ensures CountsAt(s.windows[k], MomentOf(m)) <==> Covered(s.windows[k], m)
    {
      if Active(s.windows[k].repeatData) {
        CountsIffCovered(s.windows[k], m);
      }
    }
  }

  // ----- minute after minute

  /** Each check of the n minutes after m is in time. */
  ghost predicate InTimeFor(env: Environment, s: State, m: nat, n: nat) {
    n == 0 || (InTimeFor(env, s, m, n - 1) && InTime(env, AfterChecks(env, s, m, n - 1), MomentOf(m + n)))
  }

  /** The window is switched off when it ends. */
  predicate EndsOnce(w: Absence) {
    Active(w.repeatData) && !Repeating(w.repeatData) && w.Start() != w.End() && !IsService(w)
  }

  /** What becomes of a window by the checks of the n minutes after m: without weekdays it stays until the
      first minute of its end time. */
  function WindowAfter(w: Absence, m: nat, n: nat): Absence
    requires Active(w.repeatData) ==> w.IsSet()
  {
    if EndsOnce(w) && n > Wait(m + 1, w.End()) then w.Inactive() else w
  }

  lemma EndsAtItsEnd(w: Absence, m: nat)
    requires Active(w.repeatData) ==> w.IsSet()
    ensures EndsAt(w, MomentOf(m)) <==> EndsOnce(w) && m % MINUTES_PER_DAY == w.End()
  {
    CompareIsOnDay(w.repeatData, Weekday(m));
    RotationIsNextDay(w.repeatData, (Weekday(m) + 6) % 7);
  }

  lemma WindowNext(w: Absence, m: nat, n: nat)
    requires n > 0 && (Active(w.repeatData) ==> w.IsSet())
    ensures var b := WindowAfter(w, m, n - 1);
            WindowAfter(w, m, n) == if EndsAt(b, MomentOf(m + n)) then b.Inactive() else b
  {
    EndsAtItsEnd(w, m + n);
    InactiveIsOut(w, MomentOf(m + n));
    if EndsOnce(w) && n - 1 <= Wait(m + 1, w.End()) {
      WaitIsFirst(m + 1, w.End(), n - 1);
    }
  }

  /** Over any number of minutes checked in time, each window evolves by itself. */
  lemma {:induction false} WindowsEvolve(env: Environment, s: State, m: nat, n: nat, k: nat)
    requires InTimeFor(env, s, m, n) && AllSet(s.windows) && k < |s.windows|
    ensures var r := AfterChecks(env, s, m, n);
            |r.windows| == |s.windows| && r.windows[k] == WindowAfter(s.windows[k], m, n)
  {
    if n > 0 {
      WindowsEvolve(env, s, m, n - 1, k);
      WindowNext(s.windows[k], m, n);
      CheckInTime(env, AfterChecks(env, s, m, n - 1), MomentOf(m + n));
    }
  }

  lemma {:induction false} SameCount(env: Environment, s: State, m: nat, n: nat)
    ensures |AfterChecks(env, s, m, n).windows| == |s.windows|
  {
    if n > 0 {
      SameCount(env, s, m, n - 1);
    }
  }

  lemma Evolved(env: Environment, s: State, m: nat, n: nat)
    requires InTimeFor(env, s, m, n) && AllSet(s.windows)
    ensures var r := AfterChecks(env, s, m, n);
            && |r.windows| == |s.windows| && AllSet(r.windows)
            && forall k: nat | k < |s.windows| :: r.windows[k] == WindowAfter(s.windows[k], m, n)
  {
    SameCount(env, s, m, n);
    forall k: nat | k < |s.windows|
      ensures AfterChecks(env, s, m, n).windows[k] == WindowAfter(s.windows[k], m, n)
      ensures Active(WindowAfter(s.windows[k], m, n).repeatData) ==> WindowAfter(s.windows[k], m, n).IsSet()
    {
      WindowsEvolve(env, s, m, n, k);
      DeactivatedIsInactive(s.windows[k].repeatData);
    }
  }

  /** So at minute m + n the absence runs exactly when an occurrence covers it of some window that the
      minutes before have not switched off. */
  lemma RunsOverMinutes(env: Environment, s: State, m: nat, n: nat)
    requires n > 0 && InTimeFor(env, s, m, n) && AllSet(s.windows)
    ensures AfterChecks(env, s, m, n).running <==>
            exists k: nat :: k < |s.windows| && Covered(WindowAfter(s.windows[k], m, n - 1), m + n)
  {
    Evolved(env, s, m, n - 1);
    RunsIffCovered(env, AfterChecks(env, s, m, n - 1), m + n);
  }
}
