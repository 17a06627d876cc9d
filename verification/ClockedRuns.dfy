/** Runs of the device on its own clock: what the clock shows between two syncs is steady, so countdowns are
    carried out as the countdown theorems say. */
module ClockedRuns {
  import opened Calendar
  import opened Clock
  import opened AbsenceCheck
  import opened Countdowns
  import opened CatchUp
  import opened DeviceChecks
  import opened DeviceRuns

  /** Of two reads in a timely run the later never shows less. */
  lemma {:induction false} ReadsAreOrdered(t: Tracked, from: nat, times: seq<nat>, j: nat, k: nat)
    requires Tracks(t) && t.anchorTime <= from && Timely(t, from, times) && j <= k < |times|
    ensures Reads(t, times)[j] <= Reads(t, times)[k]
    decreases k
  {
    if j < k {
      ReadsAreOrdered(t, from, times, j, k - 1);
      RunIsMonotone(t, from, times, k - 1);
    }
  }

  /** The values at the ends of a run lie within 2^31 seconds of the count. */
  ghost predicate EndsNear(values: seq<Seconds>, count: Seconds) {
    values != [] ==> -HALF_WORD < values[0] - count && values[|values| - 1] - count < HALF_WORD
  }

  lemma ReadsAreSteady(t: Tracked, from: nat, times: seq<nat>, count: Seconds)
    requires Tracks(t) && t.anchorTime <= from && Timely(t, from, times) && EndsNear(Reads(t, times), count)
    ensures Steady(Reads(t, times), count)
  {
    var values := Reads(t, times);
    forall j: nat, k: nat | j <= k < |values|
      ensures values[j] <= values[k]
    {
      ReadsAreOrdered(t, from, times, j, k);
    }
  }

  // ----- on the device

  /** The readings of the device from lo up to hi are the values of the clock, in order. */
  ghost predicate Follows(env: Environment, lo: nat, hi: nat, values: seq<Seconds>) {
    lo <= hi && |values| == hi - lo && forall k: nat | lo <= k < hi :: env.clock(k) == values[k - lo]
  }

  /** The number of the reading for countdown i in a check. */
  ghost function ReadingIn(env: Environment, c: Checked, i: nat): nat
    requires i < |c.before.countdowns|
  {
    TurnIn(env, c, i).absence.readings
  }

  lemma ReadingWithin(env: Environment, run: seq<Checked>, k: nat, i: nat)
    requires AreChecks(env, run) && k < |run| && i < |run[k].before.countdowns|
    ensures run[k].before.absence.readings <= ReadingIn(env, run[k], i) <= run[k].after.absence.readings
  {
    var c := Nth(run, k);
    assert IsCheck(env, c);
    AbsenceAfter(env, c.before, c.second);
    RestAfterTurn(env, CheckAlarmsAndAbsences(env, c.before, Civil(c.second)), i, Civil(c.second));
  }

  lemma {:induction false} ReadingsGrow(env: Environment, d: Device, run: seq<Checked>, r: Device, i: nat, k: nat)
    requires AreChecks(env, run) && Leads(d, run, r) && HasCountdown(run, i) && k < |run|
    ensures d.absence.readings <= ReadingIn(env, run[k], i) <= r.absence.readings
    decreases |run|
  {
    var n := |run| - 1;
    assert run[n] in run && run[k] in run;
    ReadingWithin(env, run, n, i);
    ChecksUpTo(env, run, n);
    if k < n {
      ReadingsGrow(env, d, run[..n], run[n].before, i, k);
    } else {
      LeadsReadings(env, d, run[..n], run[n].before);
    }
  }

  lemma {:induction false} LeadsReadings(env: Environment, d: Device, run: seq<Checked>, r: Device)
    requires AreChecks(env, run) && Leads(d, run, r)
    ensures d.absence.readings <= r.absence.readings
    decreases |run|
  {
    if run != [] {
      var n := |run| - 1;
      ChecksUpTo(env, run, n);
      LeadsReadings(env, d, run[..n], run[n].before);
      assert IsCheck(env, Nth(run, n));
      AbsenceAfter(env, run[n].before, run[n].second);
    }
  }

  lemma ReadingsInOrder(env: Environment, d: Device, run: seq<Checked>, r: Device, i: nat, j: nat, k: nat)
    requires AreChecks(env, run) && Leads(d, run, r) && HasCountdown(run, i) && j <= k < |run|
    ensures ReadingIn(env, run[j], i) <= ReadingIn(env, run[k], i)
  {
    assert run[k] in run;
    ReadingWithin(env, run, k, i);
    if j < k {
      LeadsUpTo(d, run, r, k);
      ChecksUpTo(env, run, k);
      assert run[..k][j] == run[j];
      ReadingsGrow(env, d, run[..k], run[k].before, i, j);
    }
  }

  /** A device whose readings are the timely reads of one clock shows steady times to its countdowns. */
  lemma ClocksAreSteady(env: Environment, d: Device, run: seq<Checked>, r: Device, i: nat, values: seq<Seconds>, count: Seconds)
    requires AreChecks(env, run) && Leads(d, run, r) && HasCountdown(run, i)
    requires Follows(env, d.absence.readings, r.absence.readings + 1, values) && Steady(values, count)
    ensures Steady(ClocksOf(env, run, i), count)
  {
    var clocks, lo := ClocksOf(env, run, i), d.absence.readings;
    forall j: nat, k: nat | j <= k < |clocks|
      ensures clocks[j] <= clocks[k] && -HALF_WORD < clocks[k] - count < HALF_WORD
    {
      ReadingsGrow(env, d, run, r, i, j);
      ReadingsGrow(env, d, run, r, i, k);
      ReadingsInOrder(env, d, run, r, i, j, k);
      assert values[ReadingIn(env, run[j], i) - lo] <= values[ReadingIn(env, run[k], i) - lo];
    }
  }

  /** So between two syncs, over checks for every minute, the device carries a countdown out exactly at the
      check of its minute, if and only if its clock then shows at most 60 seconds past the count. */
  lemma CountdownOnItsClock(env: Environment, d: Device, run: seq<Checked>, r: Device, first: nat, i: nat, k: nat,
                            t: Tracked, from: nat, times: seq<nat>)
    requires AreChecks(env, run) && Leads(d, run, r) && EveryMinute(SecondsOf(run), first) && k < |run| && i < |d.countdowns|
    requires HasCountdown(run, i) && d.countdowns[i].active && first <= d.countdowns[i].count / 60
    requires Tracks(t) && t.anchorTime <= from && Timely(t, from, times)
    requires Follows(env, d.absence.readings, r.absence.readings + 1, Reads(t, times))
    requires EndsNear(Reads(t, times), d.countdowns[i].count)
    ensures var c := d.countdowns[i];
            CarriesOut(env, run[k], i) <==> k == c.count / 60 - first && ClockIn(env, run[k], i) <= c.count + 60
  {
    ReadsAreSteady(t, from, times, d.countdowns[i].count);
    ClocksAreSteady(env, d, run, r, i, Reads(t, times), d.countdowns[i].count);
    CountdownCarriedOutIff(env, d, run, r, first, i, k);
  }
}
