/** What an absence check adds to the log of the switch, and how far ahead it sets the next toggle. */
module AbsenceActions {
  import opened Alarms
  import opened AbsenceCheck
  import opened AbsenceRuns

  function TurnedOver(log: seq<Switch>): Switch {
    if log != [] && log[|log| - 1] == Open then Close else Open
  }

  /** What a check adds to the log that takes the absence from s to r: it opens the switch when it starts
      the absence, closes it when it ends it, and turns it over at the next toggle. */
  function AbsencePart(s: State, r: State, minute: nat): seq<Switch> {
    if !s.running && r.running then [Open]
    else if s.running && !r.running then [Close]
    else if s.running && s.next == minute then [TurnedOver(s.actions)]
    else []
  }

  /** The next toggle stays, or is set k minutes ahead: 20 to 29 after opening, 30 to 49 after closing. */
  ghost predicate NextIsSet(s: State, r: State, minute: nat, k: nat) {
    if !r.running then r.next == 0xFFFF
    else if s.running && s.next != minute then r.next == s.next
    else
      && r.next == (minute + k) % 1440
      && if AbsencePart(s, r, minute) == [Open] then 20 <= k < 30 else 30 <= k < 50
  }

  lemma DecideActs(env: Environment, s: State, inside: bool, minute: nat) returns (k: nat)
    requires Registers(s) && minute < MINUTES_PER_DAY
    ensures var r := Decide(env, s, inside, minute);
            r.actions == s.actions + AbsencePart(s, r, minute) && NextIsSet(s, r, minute, k)
  {
    k := Interval(env, s.draws, if s.running then Opposite(Latest(s.actions)) else Open);
  }

  /** A check in time, with all the checks it starts within itself. */
  lemma CheckActs(env: Environment, s: State, t: Moment) returns (k: nat)
    requires Registers(s) && InTime(env, s, t)
    ensures var r := CheckAt(env, s, t);
            r.actions == s.actions + AbsencePart(s, r, t.minute) && NextIsSet(s, r, t.minute, k)
  {
    InTimeIsDuring(env, s, t);
    CheckDecides(env, s, t);
    k := DecideActs(env, s, AnyCounts(s.windows, 0, t), t.minute);
  }
}
