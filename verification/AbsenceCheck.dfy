/** The absence check: its state machine, and the check it starts within itself when it switches a
    window off (lum_checkAbsence, setAbsenceData, lum_checkAbsenceWhileChange). */
module AbsenceCheck {
  import opened WeekMask
  import opened Calendar
  import opened Alarms
  import opened Absences

  const INVALUE_ABSENCE_MINUTE := 0xFFFF
  const MIN_ABSENCE_OPEN_INTERVAL := 20
  const MAX_ABSENCE_OPEN_INTERVAL := 30
  const MIN_ABSENCE_CLOSE_INTERVAL := 30
  const MAX_ABSENCE_CLOSE_INTERVAL := 50

  /** What the check cannot see: the values rand() gives and the seconds the clock shows, each in
      the order of the calls. */
  datatype Environment = Environment(rand: nat -> nat, clock: nat -> Seconds)

  /** The windows, g_absenceRunning, g_nextAbsenceMinute, the actions of the switch so far, and how
      many random numbers and clock readings were used. */
  datatype State = State(windows: seq<Absence>, running: bool, next: nat, actions: seq<Switch>, draws: nat, readings: nat)

  /** getRandomNumber: below maxNum, which is not reached. */
  function RandomNumber(draw: nat, minNum: nat, maxNum: nat): (r: nat)
    requires minNum < maxNum
    ensures minNum <= r < maxNum
  {
    minNum + draw % (maxNum - minNum)
  }

  /** Each number of the half-open interval is drawn, exactly by the draws that leave its distance from
      minNum modulo the length of the interval. */
  lemma EveryNumberIsDrawn(draw: nat, minNum: nat, maxNum: nat, r: nat)
    requires minNum <= r < maxNum
    ensures RandomNumber(draw, minNum, maxNum) == r <==> draw % (maxNum - minNum) == r - minNum
  {
  }

  /** The minutes until the next toggle after an action. */
  function Interval(env: Environment, draws: nat, action: Switch): (r: nat)
    ensures MIN_ABSENCE_OPEN_INTERVAL <= r < MAX_ABSENCE_CLOSE_INTERVAL
  {
    if action == Close then RandomNumber(env.rand(draws), MIN_ABSENCE_CLOSE_INTERVAL, MAX_ABSENCE_CLOSE_INTERVAL)
    else RandomNumber(env.rand(draws), MIN_ABSENCE_OPEN_INTERVAL, MAX_ABSENCE_OPEN_INTERVAL)
  }

  function Opposite(sw: Switch): Switch {
    if sw == Close then Open else Close
  }

  /** lum_changeSwitchByAbsence. */
  function ChangeSwitch(env: Environment, s: State, action: Switch, minute: nat, stop: bool): State {
    if stop then s.(actions := s.actions + [action], next := INVALUE_ABSENCE_MINUTE)
    else s.(actions := s.actions + [action], next := (minute + Interval(env, s.draws, action)) % MINUTES_PER_DAY, draws := s.draws + 1)
  }

  /** The end of lum_checkAbsence: inside says that some window is at its start or within. */
  function Decide(env: Environment, s: State, inside: bool, minute: nat): State {
    if inside then
      if !s.running then ChangeSwitch(env, s, Open, minute, false).(running := true)
      else if minute == s.next then ChangeSwitch(env, s, Opposite(Latest(s.actions)), minute, false)
      else s
    else if s.running then ChangeSwitch(env, s, Close, minute, true).(running := false)
    else s
  }

  predicate Counts(status: Status) {
    status == EqualStart || status == Within
  }

  /** The window is at its end and names no weekday, so it is switched off. */
  predicate Ends(w: Absence, week: nat, minute: nat)
    requires week < 7
  {
    CompareStatus(w, week, minute) == EqualEnd && !Repeating(w.repeatData) && !IsService(w)
  }

  ghost function ActiveSet(ws: seq<Absence>): set<nat> {
    set i: nat | i < |ws| && Active(ws[i].repeatData)
  }

  /** The windows are the same except that some were switched off. */
  ghost predicate Narrows(ws: seq<Absence>, ws': seq<Absence>) {
    |ws'| == |ws| && forall i: nat | i < |ws| :: ws'[i] == ws[i] || ws'[i] == ws[i].Inactive()
  }

  lemma NarrowsActive(ws: seq<Absence>, ws': seq<Absence>)
    requires Narrows(ws, ws')
    ensures ActiveSet(ws') <= ActiveSet(ws)
  {
  }

  lemma SwitchOff(ws: seq<Absence>, i: nat)
    requires i < |ws| && Active(ws[i].repeatData)
    ensures Narrows(ws, ws[i := ws[i].Inactive()])
    ensures ActiveSet(ws[i := ws[i].Inactive()]) < ActiveSet(ws)
  {
    DeactivatedIsInactive(ws[i].repeatData);
    NarrowsActive(ws, ws[i := ws[i].Inactive()]);
    assert i in ActiveSet(ws);
  }

  lemma NarrowsTransitive(a: seq<Absence>, b: seq<Absence>, c: seq<Absence>)
    requires Narrows(a, b) && Narrows(b, c)
    ensures Narrows(a, c)
  {
  }

  /** What every check does to a state: windows are at most switched off, actions and readings are
      only added. */
  ghost predicate Extends(s: State, r: State) {
    Narrows(s.windows, r.windows) && s.readings <= r.readings && s.actions <= r.actions
  }

  lemma ExtendsTransitive(a: State, b: State, c: State)
    requires Extends(a, b) && Extends(b, c)
    ensures Extends(a, c)
  {
    NarrowsTransitive(a.windows, b.windows, c.windows);
  }

  lemma DeactivatedTwice(mask: bv8)
    ensures Deactivated(Deactivated(mask)) == Deactivated(mask)
  {
  }

  /** The loop of lum_checkAbsence from window i on: the state it leaves, and whether some status
      counts. Switching a window off runs a whole check at the time the clock then shows. */
  ghost function Scan(env: Environment, s: State, i: nat, week: nat, minute: nat): (r: (State, bool))
    requires i <= |s.windows| && week < 7
    ensures Extends(s, r.0)
    decreases ActiveSet(s.windows), |s.windows| - i
  {
    if i == |s.windows| then (s, false)
    else
      var s1 := ScanOne(env, s, i, week, minute);
      NarrowsActive(s.windows, s1.windows);
      var (s2, inside) := Scan(env, s1, i + 1, week, minute);
      ExtendsTransitive(s, s1, s2);
      (s2, inside || Counts(CompareStatus(s.windows[i], week, minute)))
  }

  /** One lum_compareAbsence with its effect. */
  ghost function ScanOne(env: Environment, s: State, i: nat, week: nat, minute: nat): (r: State)
    requires i < |s.windows| && week < 7
    ensures Extends(s, r)
    decreases ActiveSet(s.windows), |s.windows| - i, 0
  {
    if Ends(s.windows[i], week, minute) then
      SwitchOff(s.windows, i);
      var off := s.(windows := s.windows[i := s.windows[i].Inactive()]);
      var r := CheckNow(env, off);
      ExtendsTransitive(s, off, r);
      r
    else s
  }

  /** lum_checkAbsenceWhileChange: the check at the time the clock shows. */
  ghost function CheckNow(env: Environment, s: State): (r: State)
    ensures Extends(s, r)
    decreases ActiveSet(s.windows), |s.windows| + 2
  {
    var t := Civil(env.clock(s.readings));
    Check(env, s.(readings := s.readings + 1), t.week, t.hour * 60 + t.minute)
  }

  /** lum_checkAbsence. */
  ghost function Check(env: Environment, s: State, week: nat, minute: nat): (r: State)
    requires week < 7
    ensures Extends(s, r)
    decreases ActiveSet(s.windows), |s.windows| + 1
  {
    var (s1, inside) := Scan(env, s, 0, week, minute);
    Decide(env, s1, inside, minute)
  }

  // ----- where a record is stored

  const MAX_ABSENCE_COUNT := 10
  const ADD_ALARM_INDEX_EMPTY := 0xFE
  const CLEARED := Absence(0, UNSET, 0, 0, 0)

  /** The first unused record from i on, or none (ADD_ALARM_INDEX_EMPTY). */
  function EmptyPlace(ws: seq<Absence>, i: nat): (place: nat)
    requires i <= |ws|
    ensures place == ADD_ALARM_INDEX_EMPTY || (i <= place < |ws| && ws[place].startHour == UNSET)
    ensures forall j: nat | i <= j < |ws| && j < place :: ws[j].startHour != UNSET
    decreases |ws| - i
  {
    if i == |ws| then ADD_ALARM_INDEX_EMPTY
    else if ws[i].startHour == UNSET then i
    else EmptyPlace(ws, i + 1)
  }

  /** Where setAbsenceData puts a record: at the index, or at an unused place if none is given. */
  function PlaceFor(ws: seq<Absence>, index: nat): nat {
    if index == ADD_ALARM_INDEX_EMPTY then EmptyPlace(ws, 0) else index
  }

  function Placed(ws: seq<Absence>, w: Absence, place: nat): seq<Absence> {
    if place < |ws| then ws[place := w] else ws
  }

  /** What setAbsenceData makes of the state: windows that are service commands are not stored. */
  ghost function AfterSet(env: Environment, s: State, w: Absence, index: nat): State {
    var place := PlaceFor(s.windows, index);
    if place >= |s.windows| || IsService(w) then s else CheckNow(env, s.(windows := s.windows[place := w]))
  }
  /** What deleteAbsenceData makes of the state: the record is cleared, and the absences are checked if
      the change is to be saved. */
  ghost function AfterDelete(env: Environment, s: State, index: nat, needSave: bool): State {
    if index >= |s.windows| then s
    else
      var cleared := s.(windows := s.windows[index := CLEARED]);
      if needSave then CheckNow(env, cleared) else cleared
  }
}
