/** What every absence check keeps, and what checks do from minute to minute. */
module AbsenceRuns {
  import opened WeekMask
  import opened Calendar
  import opened Alarms
  import opened Absences
  import opened AbsenceCheck

  // ----- the check within the check

  datatype WeekMinute = WeekMinute(week: nat, minute: nat)

  /** A minute of a day of the week. */
  type Moment = t: WeekMinute | t.week < 7 && t.minute < MINUTES_PER_DAY witness WeekMinute(0, 0)

  function MomentOf(m: nat): Moment {
    WeekMinute(Weekday(m), m % MINUTES_PER_DAY)
  }

  /** What reading k of the clock shows. */
  ghost function Shown(env: Environment, k: nat): Moment {
    var t := Civil(env.clock(k));
    WeekMinute(t.week, t.hour * 60 + t.minute)
  }

  ghost function CheckAt(env: Environment, s: State, t: Moment): State {
    Check(env, s, t.week, t.minute)
  }

  /** The state with which the check within the check begins. */
  function Nested(s: State, i: nat): State
    requires i < |s.windows|
  {
    s.(windows := s.windows[i := s.windows[i].Inactive()], readings := s.readings + 1)
  }

  lemma NestedIs(env: Environment, s: State, i: nat, week: nat, minute: nat)
    requires i < |s.windows| && week < 7 && Ends(s.windows[i], week, minute)
    ensures ScanOne(env, s, i, week, minute) == CheckAt(env, Nested(s, i), Shown(env, s.readings))
    ensures ActiveSet(Nested(s, i).windows) < ActiveSet(s.windows)
  {
    SwitchOff(s.windows, i);
  }

  lemma CheckWindows(env: Environment, s: State, t: Moment)
    ensures var r := Scan(env, s, 0, t.week, t.minute).0;
            CheckAt(env, s, t).windows == r.windows && CheckAt(env, s, t).readings == r.readings
  {
  }

  // ----- the registers, whatever the clock and the random numbers are

  /** The absence runs exactly while a next toggle is set, and that is a minute of the day. */
  ghost predicate Registers(s: State) {
    && (s.running <==> s.next != INVALUE_ABSENCE_MINUTE)
    && (s.running ==> s.next < MINUTES_PER_DAY)
  }

  lemma DecideKeepsRegisters(env: Environment, s: State, inside: bool, minute: nat)
    requires Registers(s) && minute < MINUTES_PER_DAY
    ensures var r := Decide(env, s, inside, minute);
            Registers(r) && (r.running <==> inside) && (r.running ==> r.next != minute)
  {
  }

  lemma {:induction false} ScanKeepsRegisters(env: Environment, s: State, i: nat, week: nat, minute: nat)
    requires i <= |s.windows| && week < 7 && Registers(s)
    ensures Registers(Scan(env, s, i, week, minute).0)
    decreases ActiveSet(s.windows), |s.windows| - i
  {
    if i < |s.windows| {
      var s1 := ScanOne(env, s, i, week, minute);
      StepKeepsRegisters(env, s, i, week, minute);
      NarrowsActive(s.windows, s1.windows);
      ScanKeepsRegisters(env, s1, i + 1, week, minute);
    }
  }

  lemma {:induction false} StepKeepsRegisters(env: Environment, s: State, i: nat, week: nat, minute: nat)
    requires i < |s.windows| && week < 7 && Registers(s)
    ensures Registers(ScanOne(env, s, i, week, minute))
    decreases ActiveSet(s.windows), |s.windows| - i, 0
  {
    if Ends(s.windows[i], week, minute) {
      var now := Shown(env, s.readings);
      NestedIs(env, s, i, week, minute);
      CheckKeepsRegisters(env, Nested(s, i), now.week, now.minute);
    }
  }

  /** After every check: the registers agree, the absence runs exactly when some window counted, and
      a running absence toggles at another minute than the one just checked. */
  lemma {:induction false} CheckKeepsRegisters(env: Environment, s: State, week: nat, minute: nat)
    requires week < 7 && minute < MINUTES_PER_DAY && Registers(s)
    ensures var r := Check(env, s, week, minute);
            && Registers(r)
            && (r.running <==> Scan(env, s, 0, week, minute).1)
            && (r.running ==> r.next != minute)
    decreases ActiveSet(s.windows), |s.windows| + 1
  {
    ScanKeepsRegisters(env, s, 0, week, minute);
    DecideKeepsRegisters(env, Scan(env, s, 0, week, minute).0, Scan(env, s, 0, week, minute).1, minute);
  }

  /** The check that follows a change of a record keeps them too. */
  lemma CheckNowKeepsRegisters(env: Environment, s: State)
    requires Registers(s)
    ensures Registers(CheckNow(env, s))
  {
    var t := Civil(env.clock(s.readings));
    CheckKeepsRegisters(env, s.(readings := s.readings + 1), t.week, t.hour * 60 + t.minute);
  }

  // ----- which windows a check switches off, and when the absence runs

  /** The readings from number lo up to but not including hi all show c. */
  ghost predicate ClockShows(env: Environment, c: Moment, lo: nat, hi: nat) {
    forall k: nat | lo <= k < hi :: Shown(env, k) == c
  }

  /** During the check of moment t the clock shows c whenever it is read; a check that switches no
      window off does not read it. */
  ghost predicate ClockDuring(env: Environment, s: State, t: Moment, c: Moment) {
    ClockShows(env, c, s.readings, CheckAt(env, s, t).readings)
  }

  predicate EndsAt(w: Absence, t: Moment) {
    Ends(w, t.week, t.minute)
  }

  /** The window is at its start or inside. */
  predicate CountsAt(w: Absence, t: Moment) {
    Counts(CompareStatus(w, t.week, t.minute))
  }

  ghost predicate AnyEnds(ws: seq<Absence>, i: nat, t: Moment) {
    exists j: nat :: i <= j < |ws| && EndsAt(ws[j], t)
  }

  ghost predicate AnyCounts(ws: seq<Absence>, i: nat, t: Moment) {
    exists j: nat :: i <= j < |ws| && CountsAt(ws[j], t)
  }

  /** One of the windows from i on, before k, ends at t. */
  ghost predicate EndsBefore(ws: seq<Absence>, i: nat, k: nat, t: Moment)
    requires k <= |ws|
  {
    exists j: nat :: i <= j < k && EndsAt(ws[j], t)
  }

  /** Window k is switched off by checking the windows from i on at t, with the clock at c. */
  ghost predicate GoesOff(ws: seq<Absence>, i: nat, t: Moment, c: Moment, k: nat)
    requires k < |ws|
  {
    (i <= k && EndsAt(ws[k], t)) || (AnyEnds(ws, i, t) && EndsAt(ws[k], c))
  }

  ghost predicate Settles(ws: seq<Absence>, ws': seq<Absence>, i: nat, t: Moment, c: Moment) {
    |ws'| == |ws| && forall k: nat | k < |ws| :: ws'[k] == if GoesOff(ws, i, t, c, k) then ws[k].Inactive() else ws[k]
  }

  /** The check comes upon a window that counts and that has not been switched off before. */
  ghost predicate SeenInside(ws: seq<Absence>, i: nat, t: Moment, c: Moment) {
    exists k: nat :: i <= k < |ws| && CountsAt(ws[k], t) && !(EndsAt(ws[k], c) && EndsBefore(ws, i, k, t))
  }

  lemma InactiveIsOut(w: Absence, t: Moment)
    ensures !EndsAt(w.Inactive(), t) && !CountsAt(w.Inactive(), t)
  {
    DeactivatedIsInactive(w.repeatData);
  }

  lemma PassedOver(ws: seq<Absence>, ws': seq<Absence>, i: nat, t: Moment, c: Moment)
    requires i < |ws| && !EndsAt(ws[i], t) && Settles(ws, ws', i + 1, t, c)
    ensures Settles(ws, ws', i, t, c)
    ensures SeenInside(ws, i, t, c) <==> CountsAt(ws[i], t) || SeenInside(ws, i + 1, t, c)
  {
    assert AnyEnds(ws, i, t) <==> AnyEnds(ws, i + 1, t);
    forall k: nat | i < k < |ws|
      ensures EndsBefore(ws, i, k, t) <==> EndsBefore(ws, i + 1, k, t)
    {
    }
  }

  /** Window i is switched off, and the check that this starts settles the others at c. */
  lemma SettledInside(ws: seq<Absence>, ws1: seq<Absence>, ws': seq<Absence>, i: nat, t: Moment, c: Moment)
    requires i < |ws| && EndsAt(ws[i], t)
    requires Settles(ws[i := ws[i].Inactive()], ws1, 0, c, c) && Settles(ws1, ws', i + 1, t, c)
    ensures Settles(ws, ws', i, t, c)
    ensures SeenInside(ws, i, t, c) <==> SeenInside(ws1, i + 1, t, c)
  {
    InactiveIsOut(ws[i], t);
    InactiveIsOut(ws[i], c);
    assert AnyEnds(ws, i, t);
    forall k: nat | k < |ws|
      ensures ws1[k] == if k == i || EndsAt(ws[k], c) then ws[k].Inactive() else ws[k]
      ensures !EndsAt(ws1[k], c)
    {
      InactiveIsOut(ws[k], c);
    }
    forall k: nat | k < |ws|
      ensures ws'[k] == if GoesOff(ws, i, t, c, k) then ws[k].Inactive() else ws[k]
      ensures k > i ==> (CountsAt(ws1[k], t) <==> CountsAt(ws[k], t) && !EndsAt(ws[k], c))
      ensures k > i ==> EndsBefore(ws, i, k, t)
    {
      InactiveIsOut(ws[k], t);
    }
  }

  lemma {:induction false} ScanSettles(env: Environment, s: State, i: nat, t: Moment, c: Moment)
    requires i <= |s.windows| && ClockShows(env, c, s.readings, Scan(env, s, i, t.week, t.minute).0.readings)
    ensures Settles(s.windows, Scan(env, s, i, t.week, t.minute).0.windows, i, t, c)
    ensures Scan(env, s, i, t.week, t.minute).1 <==> SeenInside(s.windows, i, t, c)
    decreases ActiveSet(s.windows), |s.windows| - i
  {
    if i < |s.windows| {
      var s1 := ScanOne(env, s, i, t.week, t.minute);
      var (r, later) := Scan(env, s1, i + 1, t.week, t.minute);
      assert Scan(env, s, i, t.week, t.minute) == (r, later || CountsAt(s.windows[i], t));
      NarrowsActive(s.windows, s1.windows);
      ScanSettles(env, s1, i + 1, t, c);
      if EndsAt(s.windows[i], t) {
        NestedSettles(env, s, i, t, c);
        SettledInside(s.windows, s1.windows, r.windows, i, t, c);
      } else {
        PassedOver(s.windows, r.windows, i, t, c);
      }
    }
  }

  /** The check within the check. */
  lemma {:induction false} NestedSettles(env: Environment, s: State, i: nat, t: Moment, c: Moment)
    requires i < |s.windows| && EndsAt(s.windows[i], t)
    requires ClockShows(env, c, s.readings, ScanOne(env, s, i, t.week, t.minute).readings)
    ensures Settles(s.windows[i := s.windows[i].Inactive()], ScanOne(env, s, i, t.week, t.minute).windows, 0, c, c)
    decreases ActiveSet(s.windows), |s.windows| - i, 0
  {
    NestedIs(env, s, i, t.week, t.minute);
    assert Shown(env, s.readings) == c;
    CheckWindows(env, Nested(s, i), c);
    ScanSettles(env, Nested(s, i), 0, c, c);
  }

  /** A check switches off exactly the windows without weekdays that end, and if there are any, those
      that end where the clock stands; the absence runs exactly when the check came upon a window that
      counts. */
  lemma CheckSettles(env: Environment, s: State, t: Moment, c: Moment)
    requires ClockDuring(env, s, t, c)
    ensures Settles(s.windows, CheckAt(env, s, t).windows, 0, t, c)
    ensures CheckAt(env, s, t).running <==> SeenInside(s.windows, 0, t, c)
  {
    ScanSettles(env, s, 0, t, c);
  }

  /** Some window ends at t, one before it counts, and all that count end where the clock stands: the
      check at t takes them for running and switches them off. */
  ghost predicate Misled(ws: seq<Absence>, t: Moment, c: Moment) {
    && AnyEnds(ws, 0, t)
    && (exists k: nat :: k < |ws| && CountsAt(ws[k], t) && !EndsBefore(ws, 0, k, t))
    && (forall k: nat | k < |ws| && CountsAt(ws[k], t) :: EndsAt(ws[k], c))
  }

  lemma NotMisledInTime(ws: seq<Absence>, t: Moment, c: Moment)
    requires c == t || !AnyEnds(ws, 0, t)
    ensures !Misled(ws, t, c)
  {
  }

  lemma InsideAfterSettling(ws: seq<Absence>, ws': seq<Absence>, t: Moment, c: Moment)
    requires Settles(ws, ws', 0, t, c)
    ensures !AnyEnds(ws', 0, t)
    ensures (SeenInside(ws, 0, t, c) <==> AnyCounts(ws', 0, t)) <==> !Misled(ws, t, c)
  {
    forall k: nat | k < |ws|
      ensures !EndsAt(ws'[k], t)
      ensures CountsAt(ws'[k], t) <==> CountsAt(ws[k], t) && !(AnyEnds(ws, 0, t) && EndsAt(ws[k], c))
    {
      InactiveIsOut(ws[k], t);
    }
    forall k: nat | k <= |ws| && EndsBefore(ws, 0, k, t)
      ensures AnyEnds(ws, 0, t)
    {
    }
  }

  /** Whether or not the minute checked is the one the clock shows: after the check the absence runs
      exactly when an enabled window is at its start or inside, if and only if the check is not
      misled. */
  lemma RunsIffInsideIff(env: Environment, s: State, t: Moment, c: Moment)
    requires ClockDuring(env, s, t, c)
    ensures var r := CheckAt(env, s, t);
            (r.running <==> AnyCounts(r.windows, 0, t)) <==> !Misled(s.windows, t, c)
  {
    CheckSettles(env, s, t, c);
    InsideAfterSettling(s.windows, CheckAt(env, s, t).windows, t, c);
  }

  /** The check of moment t reads the clock only while it still shows t, or not at all. */
  ghost predicate InTime(env: Environment, s: State, t: Moment) {
    !AnyEnds(s.windows, 0, t) || ClockDuring(env, s, t, t)
  }

  lemma {:induction false} SettledScan(env: Environment, s: State, i: nat, t: Moment)
    requires i <= |s.windows| && !AnyEnds(s.windows, i, t)
    ensures Scan(env, s, i, t.week, t.minute) == (s, AnyCounts(s.windows, i, t))
    decreases |s.windows| - i
  {
    if i < |s.windows| {
      assert !EndsAt(s.windows[i], t);
      SettledScan(env, s, i + 1, t);
      assert AnyCounts(s.windows, i, t) <==> CountsAt(s.windows[i], t) || AnyCounts(s.windows, i + 1, t);
    }
  }

  lemma InTimeIsDuring(env: Environment, s: State, t: Moment)
    requires InTime(env, s, t)
    ensures ClockDuring(env, s, t, t)
  {
    if !AnyEnds(s.windows, 0, t) {
      SettledScan(env, s, 0, t);
    }
  }

  /** In time, exactly the windows without weekdays that end are switched off, and the absence runs
      exactly when some window, before or after the check, is at its start or inside. */
  lemma CheckInTime(env: Environment, s: State, t: Moment)
    requires InTime(env, s, t)
    ensures var r := CheckAt(env, s, t);
            && |r.windows| == |s.windows|
            && (forall k: nat | k < |s.windows| :: r.windows[k] == if EndsAt(s.windows[k], t) then s.windows[k].Inactive() else s.windows[k])
            && (r.running <==> AnyCounts(s.windows, 0, t))
            && (r.running <==> AnyCounts(r.windows, 0, t))
  {
    var r := CheckAt(env, s, t);
    InTimeIsDuring(env, s, t);
    CheckSettles(env, s, t, t);
    NotMisledInTime(s.windows, t, t);
    InsideAfterSettling(s.windows, r.windows, t, t);
    InsideIsSeen(s.windows, t);
  }

  lemma InsideIsSeen(ws: seq<Absence>, t: Moment)
    ensures SeenInside(ws, 0, t, t) <==> AnyCounts(ws, 0, t)
  {
    forall w: Absence | CountsAt(w, t)
      ensures !EndsAt(w, t)
    {
    }
  }

  // ----- a second check in the same minute

  lemma {:induction false} ScanLeavesNone(env: Environment, s: State, i: nat, t: Moment)
    requires i <= |s.windows|
    ensures !AnyEnds(Scan(env, s, i, t.week, t.minute).0.windows, i, t)
    decreases |s.windows| - i
  {
    if i < |s.windows| {
      var s1 := ScanOne(env, s, i, t.week, t.minute);
      var r := Scan(env, s1, i + 1, t.week, t.minute).0;
      ScanLeavesNone(env, s1, i + 1, t);
      StepLeavesNone(env, s, i, t);
      InactiveIsOut(s1.windows[i], t);
      assert r.windows[i] == s1.windows[i] || r.windows[i] == s1.windows[i].Inactive();
    }
  }

  lemma StepLeavesNone(env: Environment, s: State, i: nat, t: Moment)
    requires i < |s.windows|
    ensures !EndsAt(ScanOne(env, s, i, t.week, t.minute).windows[i], t)
  {
    if EndsAt(s.windows[i], t) {
      var off := s.(windows := s.windows[i := s.windows[i].Inactive()]);
      InactiveIsOut(s.windows[i], t);
      InactiveIsOut(off.windows[i], t);
      assert Narrows(off.windows, CheckNow(env, off).windows);
    }
  }

  /** Whatever the clock shows: a second check changes nothing exactly when the first one left the
      absence running just if an enabled window is at its start or inside. */
  lemma SecondCheckIff(env: Environment, s: State, t: Moment)
    requires Registers(s)
    ensures var r := CheckAt(env, s, t);
            CheckAt(env, r, t) == r <==> (r.running <==> AnyCounts(r.windows, 0, t))
  {
    var r := CheckAt(env, s, t);
    CheckKeepsRegisters(env, s, t.week, t.minute);
    ScanLeavesNone(env, s, 0, t);
    SettledScan(env, r, 0, t);
    assert CheckAt(env, r, t) == Decide(env, r, AnyCounts(r.windows, 0, t), t.minute);
  }

  /** With the clock at c, a second check of t changes nothing if and only if the first was not misled. */
  lemma SecondCheckChangesNothingIff(env: Environment, s: State, t: Moment, c: Moment)
    requires Registers(s) && ClockDuring(env, s, t, c)
    ensures var r := CheckAt(env, s, t);
            CheckAt(env, r, t) == r <==> !Misled(s.windows, t, c)
  {
    SecondCheckIff(env, s, t);
    RunsIffInsideIff(env, s, t, c);
  }

  /** In particular when it is in time. */
  lemma SecondCheckChangesNothing(env: Environment, s: State, t: Moment)
    requires Registers(s) && InTime(env, s, t)
    ensures CheckAt(env, CheckAt(env, s, t), t) == CheckAt(env, s, t)
  {
    SecondCheckIff(env, s, t);
    CheckInTime(env, s, t);
  }

  /** The first window counts at t and ends where the clock stands, the second ends at t, the others are
      not active. */
  lemma PairIsMisled(env: Environment, s: State, t: Moment, c: Moment)
    requires |s.windows| >= 2 && ClockDuring(env, s, t, c)
    requires CountsAt(s.windows[0], t) && EndsAt(s.windows[0], c) && EndsAt(s.windows[1], t)
    requires forall k: nat | 2 <= k < |s.windows| :: !Active(s.windows[k].repeatData)
    ensures var r := CheckAt(env, s, t);
            && r.running && !AnyCounts(r.windows, 0, t)
            && |r.windows| == |s.windows| && r.windows[0] == s.windows[0].Inactive() && r.windows[1] == s.windows[1].Inactive()
  {
    var ws, r := s.windows, CheckAt(env, s, t);
    CheckSettles(env, s, t, c);
    assert EndsAt(ws[1], t) && CountsAt(ws[0], t) && !EndsBefore(ws, 0, 0, t);
    forall k: nat | k < |ws|
      ensures !CountsAt(r.windows[k], t)
    {
      InactiveIsOut(ws[k], t);
    }
  }

  lemma StatusesOfReplay(mask: bv8)
    requires Active(mask) && !Repeating(mask)
    ensures CountsAt(Absence(mask, 0, 3, 0, 10), WeekMinute(4, 8))
    ensures EndsAt(Absence(mask, 0, 3, 0, 10), WeekMinute(4, 10))
    ensures EndsAt(Absence(mask, 0, 2, 0, 8), WeekMinute(4, 8))
  {
    CompareIsOnDay(mask, 4);
  }

  // ----- whatever the clock shows during a check

  /** Window w ends at none of the moments the readings from lo up to hi show. */
  ghost predicate EndsAtNone(env: Environment, w: Absence, lo: nat, hi: nat) {
    forall k: nat | lo <= k < hi :: !EndsAt(w, Shown(env, k))
  }

  lemma {:induction false} ScanSpares(env: Environment, s: State, i: nat, t: Moment, k: nat)
    requires i <= |s.windows| && k < |s.windows| && !EndsAt(s.windows[k], t)
    requires EndsAtNone(env, s.windows[k], s.readings, Scan(env, s, i, t.week, t.minute).0.readings)
    ensures Scan(env, s, i, t.week, t.minute).0.windows[k] == s.windows[k]
    ensures i <= k && CountsAt(s.windows[k], t) ==> Scan(env, s, i, t.week, t.minute).1
    decreases ActiveSet(s.windows), |s.windows| - i
  {
    if i < |s.windows| {
      var s1 := ScanOne(env, s, i, t.week, t.minute);
      NarrowsActive(s.windows, s1.windows);
      StepSpares(env, s, i, t, k);
      ScanSpares(env, s1, i + 1, t, k);
    }
  }

  lemma {:induction false} StepSpares(env: Environment, s: State, i: nat, t: Moment, k: nat)
    requires i < |s.windows| && k < |s.windows| && !EndsAt(s.windows[k], t)
    requires EndsAtNone(env, s.windows[k], s.readings, ScanOne(env, s, i, t.week, t.minute).readings)
    ensures ScanOne(env, s, i, t.week, t.minute).windows[k] == s.windows[k]
    decreases ActiveSet(s.windows), |s.windows| - i, 0
  {
    if EndsAt(s.windows[i], t) {
      var nested, now := Nested(s, i), Shown(env, s.readings);
      NestedIs(env, s, i, t.week, t.minute);
      CheckWindows(env, nested, now);
      ScanSpares(env, nested, 0, now, k);
    }
  }

  lemma {:induction false} NothingInside(env: Environment, s: State, i: nat, t: Moment)
    requires i <= |s.windows| && !AnyCounts(s.windows, 0, t)
    ensures !AnyCounts(Scan(env, s, i, t.week, t.minute).0.windows, 0, t) && !Scan(env, s, i, t.week, t.minute).1
    decreases |s.windows| - i
  {
    if i < |s.windows| {
      var s1 := ScanOne(env, s, i, t.week, t.minute);
      assert !CountsAt(s.windows[i], t);
      StillNothingInside(s.windows, s1.windows, t);
      NothingInside(env, s1, i + 1, t);
    }
  }

  lemma StillNothingInside(ws: seq<Absence>, ws': seq<Absence>, t: Moment)
    requires Narrows(ws, ws') && !AnyCounts(ws, 0, t)
    ensures !AnyCounts(ws', 0, t)
  {
    forall k: nat | k < |ws'|
      ensures !CountsAt(ws'[k], t)
    {
      InactiveIsOut(ws[k], t);
    }
  }

  /** However the clock moves during the check: if some window counts at t and ends at no moment the clock
      shows, the absence runs and that window counts afterwards; if none counts, neither holds. */
  lemma CheckAnyClock(env: Environment, s: State, t: Moment, k: nat)
    requires k < |s.windows|
    ensures var r := CheckAt(env, s, t);
            && (CountsAt(s.windows[k], t) && EndsAtNone(env, s.windows[k], s.readings, r.readings) ==>
                  r.running && r.windows[k] == s.windows[k])
            && (!AnyCounts(s.windows, 0, t) ==> !r.running && !AnyCounts(r.windows, 0, t))
  {
    var r := CheckAt(env, s, t);
    if CountsAt(s.windows[k], t) && EndsAtNone(env, s.windows[k], s.readings, r.readings) {
      ScanSpares(env, s, 0, t, k);
    }
    if !AnyCounts(s.windows, 0, t) {
      NothingInside(env, s, 0, t);
    }
  }

  // ----- minute after minute

  /** Everything but the windows and the number of readings. */
  ghost predicate SameRegisters(s: State, r: State) {
    r.running == s.running && r.next == s.next && r.actions == s.actions && r.draws == s.draws
  }

  /** Deciding a second time in the same minute changes nothing. */
  lemma DecideTwice(env: Environment, s: State, s1: State, inside: bool, minute: nat)
    requires Registers(s) && minute < MINUTES_PER_DAY && SameRegisters(Decide(env, s, inside, minute), s1)
    ensures Decide(env, s1, inside, minute) == s1
  {
    DecideKeepsRegisters(env, s, inside, minute);
  }

  /** The registers are as they were at the start, or as the whole check decides. */
  ghost predicate DecidedOrNot(env: Environment, s: State, r: State, inside: bool, minute: nat) {
    SameRegisters(s, r) || SameRegisters(Decide(env, s, inside, minute), r)
  }

  lemma {:induction false} ScanDecides(env: Environment, s: State, i: nat, t: Moment, start: State, inside: bool)
    requires i <= |s.windows| && ClockShows(env, t, s.readings, Scan(env, s, i, t.week, t.minute).0.readings)
    requires Registers(start) && Registers(s) && DecidedOrNot(env, start, s, inside, t.minute)
    requires inside <==> AnyCounts(s.windows, 0, t)
    ensures DecidedOrNot(env, start, Scan(env, s, i, t.week, t.minute).0, inside, t.minute)
    decreases ActiveSet(s.windows), |s.windows| - i
  {
    if i < |s.windows| {
      var s1 := ScanOne(env, s, i, t.week, t.minute);
      NarrowsActive(s.windows, s1.windows);
      if EndsAt(s.windows[i], t) {
        NestedDecides(env, s, i, t, start, inside);
      }
      ScanDecides(env, s1, i + 1, t, start, inside);
    }
  }

  lemma {:induction false} NestedDecides(env: Environment, s: State, i: nat, t: Moment, start: State, inside: bool)
    requires i < |s.windows| && EndsAt(s.windows[i], t)
    requires ClockShows(env, t, s.readings, ScanOne(env, s, i, t.week, t.minute).readings)
    requires Registers(start) && Registers(s) && DecidedOrNot(env, start, s, inside, t.minute)
    requires inside <==> AnyCounts(s.windows, 0, t)
    ensures var s1 := ScanOne(env, s, i, t.week, t.minute);
            && Registers(s1) && DecidedOrNot(env, start, s1, inside, t.minute)
            && (inside <==> AnyCounts(s1.windows, 0, t))
    decreases ActiveSet(s.windows), |s.windows| - i, 0
  {
    var nested := Nested(s, i);
    NestedIs(env, s, i, t.week, t.minute);
    assert Shown(env, s.readings) == t;
    EndedDoesNotCount(s.windows, i, t);
    CheckDecides(env, nested, t);
    OnceDecided(env, start, nested, inside, t);
  }

  lemma OnceDecided(env: Environment, start: State, s: State, inside: bool, t: Moment)
    requires Registers(start) && Registers(s) && ClockDuring(env, s, t, t) && (inside <==> AnyCounts(s.windows, 0, t))
    requires DecidedOrNot(env, start, s, inside, t.minute)
    requires SameRegisters(Decide(env, s, inside, t.minute), CheckAt(env, s, t))
    ensures var r := CheckAt(env, s, t);
            Registers(r) && SameRegisters(Decide(env, start, inside, t.minute), r) && (inside <==> AnyCounts(r.windows, 0, t))
  {
    CheckInTime(env, s, t);
    DecideKeepsRegisters(env, start, inside, t.minute);
    if SameRegisters(Decide(env, start, inside, t.minute), s) {
      DecideTwice(env, start, s, inside, t.minute);
    }
  }

  lemma EndedDoesNotCount(ws: seq<Absence>, i: nat, t: Moment)
    requires i < |ws| && EndsAt(ws[i], t)
    ensures AnyCounts(ws[i := ws[i].Inactive()], 0, t) <==> AnyCounts(ws, 0, t)
  {
    InactiveIsOut(ws[i], t);
    forall k: nat | k < |ws|
      ensures CountsAt(ws[i := ws[i].Inactive()][k], t) <==> CountsAt(ws[k], t)
    {
    }
  }

  lemma CheckIsDecide(env: Environment, s: State, t: Moment)
    requires ClockDuring(env, s, t, t)
    ensures CheckAt(env, s, t) == Decide(env, Scan(env, s, 0, t.week, t.minute).0, AnyCounts(s.windows, 0, t), t.minute)
  {
    ScanSettles(env, s, 0, t, t);
    InsideIsSeen(s.windows, t);
  }

  /** With the clock at t, a check does to the registers exactly what one decision does, however many
      checks it starts within itself. */
  lemma {:induction false} CheckDecides(env: Environment, s: State, t: Moment)
    requires Registers(s) && ClockDuring(env, s, t, t)
    ensures SameRegisters(Decide(env, s, AnyCounts(s.windows, 0, t), t.minute), CheckAt(env, s, t))
    decreases ActiveSet(s.windows), |s.windows| + 1
  {
    var inside := AnyCounts(s.windows, 0, t);
    CheckIsDecide(env, s, t);
    ScanDecides(env, s, 0, t, s, inside);
    DecidedAgain(env, s, Scan(env, s, 0, t.week, t.minute).0, inside, t.minute);
  }

  lemma DecidedAgain(env: Environment, s: State, r: State, inside: bool, minute: nat)
    requires Registers(s) && minute < MINUTES_PER_DAY && DecidedOrNot(env, s, r, inside, minute)
    ensures SameRegisters(Decide(env, s, inside, minute), Decide(env, r, inside, minute))
  {
    if SameRegisters(Decide(env, s, inside, minute), r) {
      DecideTwice(env, s, r, inside, minute);
    }
  }

  /** The state after the checks of the n minutes that follow minute m. */
  ghost function AfterChecks(env: Environment, s: State, m: nat, n: nat): State {
    if n == 0 then s else CheckAt(env, AfterChecks(env, s, m, n - 1), MomentOf(m + n))
  }

  /** During the n minutes after m some window is at its start or inside, and each check is in time. */
  ghost predicate InsideFor(env: Environment, s: State, m: nat, n: nat) {
    n == 0 || (InsideFor(env, s, m, n - 1) && InsideAt(env, AfterChecks(env, s, m, n - 1), m + n))
  }

  ghost predicate InsideAt(env: Environment, s: State, m: nat) {
    AnyCounts(s.windows, 0, MomentOf(m)) && InTime(env, s, MomentOf(m))
  }

  lemma FirstReturn(m: nat, n: nat, r: nat)
    requires 0 < n <= r < MINUTES_PER_DAY
    ensures MomentOf(m + n).minute == MomentOf(m + r).minute <==> n == r
  {
  }

  /** One more minute, decided from registers that have not moved since s. */
  lemma NextMinute(env: Environment, s: State, m: nat, n: nat)
    requires n > 0 && Registers(s) && SameRegisters(s, AfterChecks(env, s, m, n - 1)) && InsideAt(env, AfterChecks(env, s, m, n - 1), m + n)
    ensures SameRegisters(Decide(env, s, true, MomentOf(m + n).minute), AfterChecks(env, s, m, n))
  {
    var before := AfterChecks(env, s, m, n - 1);
    InTimeIsDuring(env, before, MomentOf(m + n));
    CheckDecides(env, before, MomentOf(m + n));
  }

  /** A running absence whose next toggle was set r minutes ahead leaves the switch alone until then,
      also at minutes at which other windows end. */
  lemma {:induction false} QuietUntilNext(env: Environment, s: State, m: nat, r: nat, n: nat)
    requires Registers(s) && n < r < MINUTES_PER_DAY && s.running && s.next == MomentOf(m + r).minute
    requires InsideFor(env, s, m, n)
    ensures SameRegisters(s, AfterChecks(env, s, m, n))
  {
    if n > 0 {
      QuietUntilNext(env, s, m, r, n - 1);
      FirstReturn(m, n, r);
      NextMinute(env, s, m, n);
    }
  }

  /** From s to t the switch was turned over once, at minute m, and the next toggle is set r' minutes
      later: 20 to 29 after an opening, 30 to 49 after a closing. */
  ghost predicate Toggled(s: State, t: State, m: nat, r': nat) {
    && t.running && t.actions == s.actions + [Opposite(Latest(s.actions))]
    && t.next == MomentOf(m + r').minute
    && (if Latest(t.actions) == Open then 20 <= r' < 30 else 30 <= r' < 50)
  }

  lemma ToggledSame(s: State, d: State, t: State, m: nat, r': nat)
    requires Toggled(s, d, m, r') && SameRegisters(d, t)
    ensures Toggled(s, t, m, r')
  {
  }

  /** The toggle comes after exactly r minutes, and the next one is set. */
  lemma TogglesAtNext(env: Environment, s: State, m: nat, r: nat) returns (r': nat)
    requires Registers(s) && 0 < r < MINUTES_PER_DAY && s.running && s.next == MomentOf(m + r).minute
    requires InsideFor(env, s, m, r)
    ensures Toggled(s, AfterChecks(env, s, m, r), m + r, r')
  {
    assert InsideFor(env, s, m, r - 1) && InsideAt(env, AfterChecks(env, s, m, r - 1), m + r);
    QuietUntilNext(env, s, m, r, r - 1);
    NextMinute(env, s, m, r);
    r' := TogglesNow(env, s, AfterChecks(env, s, m, r), m + r);
  }

  lemma TogglesNow(env: Environment, s: State, after: State, m: nat) returns (r': nat)
    requires s.running && s.next == MomentOf(m).minute && SameRegisters(Decide(env, s, true, MomentOf(m).minute), after)
    ensures Toggled(s, after, m, r')
  {
    r' := ToggleDecision(env, s, m);
    ToggledSame(s, Decide(env, s, true, MomentOf(m).minute), after, m, r');
  }

  lemma ToggleDecision(env: Environment, s: State, m: nat) returns (r': nat)
    requires s.running && s.next == MomentOf(m).minute
    ensures Toggled(s, Decide(env, s, true, MomentOf(m).minute), m, r')
  {
    r' := Interval(env, s.draws, Opposite(Latest(s.actions)));
    SumModDay(m, r');
  }

  lemma SumModDay(m: nat, r: nat)
    ensures (m % MINUTES_PER_DAY + r) % MINUTES_PER_DAY == (m + r) % MINUTES_PER_DAY
  {
  }
}
