/** Absence windows that are set and deleted: where a record goes, and the check that follows at once. */
module AbsenceCommands {
  import opened Calendar
  import opened Alarms
  import opened Absences
  import opened AbsenceCheck
  import opened AbsenceRuns
  import opened AbsenceMinutes
  import opened AbsenceActions

  /** The state in which the absences are checked after a change of the windows. */
  function Changed(s: State, ws: seq<Absence>): State {
    s.(windows := ws, readings := s.readings + 1)
  }

  /** The minute the clock shows when a change is checked. */
  function MinuteNow(env: Environment, s: State): nat {
    env.clock(s.readings) / 60
  }

  lemma CheckedNow(env: Environment, s: State, ws: seq<Absence>)
    ensures CheckNow(env, s.(windows := ws)) == CheckAt(env, Changed(s, ws), MomentOf(MinuteNow(env, s)))
  {
    MinuteOfCivil(env.clock(s.readings));
  }

  /** What a change leaves if the clock stays in its minute: every window is as a check leaves it, the
      absence runs exactly when an occurrence of some window covers the minute, and the switch is turned
      if that started or ended the absence, or if the minute is the next toggle. */
  lemma CheckedInTime(env: Environment, s: State, ws: seq<Absence>) returns (k: nat)
    requires Registers(s) && AllSet(ws) && InTime(env, Changed(s, ws), MomentOf(MinuteNow(env, s)))
    ensures var m, r := MinuteNow(env, s), CheckNow(env, s.(windows := ws));
            && |r.windows| == |ws|
            && (forall i: nat | i < |ws| :: r.windows[i] == if EndsAt(ws[i], MomentOf(m)) then ws[i].Inactive() else ws[i])
            && (r.running <==> exists i: nat :: i < |ws| && Covered(ws[i], m))
            && r.actions == s.actions + AbsencePart(s, r, m % 1440) && NextIsSet(s, r, m % 1440, k)
  {
    CheckedNow(env, s, ws);
    CheckInTime(env, Changed(s, ws), MomentOf(MinuteNow(env, s)));
    RunsIffCovered(env, Changed(s, ws), MinuteNow(env, s));
    k := CheckActs(env, Changed(s, ws), MomentOf(MinuteNow(env, s)));
  }

  // ----- deleting

  const UNUSED := Absence(0, 0xFF, 0, 0, 0)

  /** An index behind the records changes nothing; otherwise the record is unused afterwards, whatever the
      check does to the others, and a later record without an index finds a place. */
  lemma DeleteLeavesUnused(env: Environment, s: State, index: nat, needSave: bool)
    ensures var r := AfterDelete(env, s, index, needSave);
            if index >= |s.windows| then r == s
            else
              && |r.windows| == |s.windows| && r.windows[index] == UNUSED && PlaceFor(r.windows, 0xFE) <= index
              && r == if needSave then CheckNow(env, s.(windows := s.windows[index := UNUSED]))
                      else s.(windows := s.windows[index := UNUSED])
  {
    if index < |s.windows| {
      var cleared := s.(windows := s.windows[index := UNUSED]);
      assert UNUSED.Inactive() == UNUSED;
      assert Narrows(cleared.windows, AfterDelete(env, s, index, needSave).windows);
    }
  }

  // ----- setting

  /** The place of a record: its index, or the first unused record if it comes without one. */
  lemma PlaceIs(ws: seq<Absence>, index: nat)
    requires |ws| <= 10
    ensures var place := PlaceFor(ws, index);
            && (index != 0xFE ==> place == index)
            && (index == 0xFE && place < |ws| ==>
                  ws[place].startHour == 0xFF && forall j: nat | j < place :: ws[j].startHour != 0xFF)
            && (index == 0xFE && place >= |ws| ==> forall w | w in ws :: w.startHour != 0xFF)
  {
  }

  /** A record without a place is not stored, and neither are the two windows that are commands. */
  lemma NotStored(env: Environment, s: State, w: Absence, index: nat)
    requires || PlaceFor(s.windows, index) >= |s.windows|
             || w == Absence(w.repeatData, 7, 15, 8, 16) || w == Absence(w.repeatData, 8, 16, 9, 17)
    ensures AfterSet(env, s, w, index) == s
  {
  }

  /** Every other record is stored, and the absences are checked at once. */
  lemma Stored(env: Environment, s: State, w: Absence, index: nat)
    requires PlaceFor(s.windows, index) < |s.windows|
    requires w != Absence(w.repeatData, 7, 15, 8, 16) && w != Absence(w.repeatData, 8, 16, 9, 17)
    ensures AfterSet(env, s, w, index) == CheckNow(env, s.(windows := s.windows[PlaceFor(s.windows, index) := w]))
  {
  }

  /** So a window that covers the present minute runs at once, and opens the switch if no absence ran. */
  lemma AddedRunsAtOnce(env: Environment, s: State, w: Absence, index: nat)
    requires Registers(s) && PlaceFor(s.windows, index) < |s.windows|
    requires w != Absence(w.repeatData, 7, 15, 8, 16) && w != Absence(w.repeatData, 8, 16, 9, 17)
    requires var ws := s.windows[PlaceFor(s.windows, index) := w];
             AllSet(ws) && InTime(env, Changed(s, ws), MomentOf(MinuteNow(env, s)))
    requires Covered(w, MinuteNow(env, s))
    ensures var r, place := AfterSet(env, s, w, index), PlaceFor(s.windows, index);
            && r.running && place < |r.windows| && r.windows[place] == w
            && (!s.running ==> r.actions == s.actions + [Open])
  {
    var m, place := MinuteNow(env, s), PlaceFor(s.windows, index);
    Stored(env, s, w, index);
    CountsIffCovered(w, m);
    assert Covered(s.windows[place := w][place], m);
    var k := CheckedInTime(env, s, s.windows[place := w]);
  }
}
