/** The countdown: one step of lum_compareCountdown, and what it does over a run of minutes. */
module Countdowns {
  import opened Calendar
  import opened Alarms
  import opened CatchUp

  const HALF_WORD := 0x8000_0000

  /** COUNTDOWN_DATA_INFO. */
  datatype Countdown = Countdown(active: bool, action: nat, count: Seconds)

  /** The value of a U32 difference stored in an S32. */
  function SignedDifference(a: Seconds, b: Seconds): int {
    var d := (a - b) % 0x1_0000_0000;
    if d < HALF_WORD then d else d - 0x1_0000_0000
  }

  /** Dropped as too old: more than a minute before the clock, in 32-bit arithmetic. */
  predicate Expired(c: Countdown, cur: Seconds) {
    SignedDifference(cur, c.count) > 60
  }

  /** The comparison of the two dates with the seconds made equal. */
  ghost predicate Due(c: Countdown, t: TimeData) {
    Civil(c.count).(second := t.second) == t
  }

  /** The check of date t at clock time cur carries the countdown out. */
  ghost predicate Acts(c: Countdown, t: TimeData, cur: Seconds) {
    c.active && !Expired(c, cur) && Due(c, t)
  }

  ghost function AfterCountdown(c: Countdown, t: TimeData, cur: Seconds): Countdown {
    if c.active && (Expired(c, cur) || Due(c, t)) then c.(active := false) else c
  }

  function ActionOf(c: Countdown): Switch {
    if c.action == 1 then Open else Close
  }

  /** For the date of second s: due exactly in the minute of the count. */
  lemma DueIffSameMinute(c: Countdown, s: nat)
    ensures Due(c, Civil(s)) <==> c.count / 60 == s / 60
  {
    SameDateUpToSeconds(c.count, s);
  }

  /** The 32-bit test drops a countdown that is 61 seconds to 2^31 - 1 seconds old, and also one set
      more than 2^31 seconds (and less than 2^32 - 60) ahead. */
  lemma ExpiredIff(c: Countdown, cur: Seconds)
    ensures Expired(c, cur) <==> 60 < cur - c.count < HALF_WORD || HALF_WORD < c.count - cur < 0x1_0000_0000 - 60
  {
  }

  /** A replay of the countdown's minute, at a clock time within 2^31 seconds of it: it is carried out
      if the clock is at most 60 seconds past the count, and discarded otherwise. */
  lemma ReplayActsIff(c: Countdown, s: nat, cur: Seconds)
    requires c.active && c.count / 60 == s / 60 && -HALF_WORD < cur - c.count < HALF_WORD
    ensures Acts(c, Civil(s), cur) <==> cur <= c.count + 60
    ensures !AfterCountdown(c, Civil(s), cur).active
  {
    DueIffSameMinute(c, s);
    ExpiredIff(c, cur);
  }

  // ----- a run of checks, one for each minute

  /** The clock does not go back and stays within 2^31 seconds of the count. */
  ghost predicate Steady(clocks: seq<Seconds>, count: Seconds) {
    && (forall j: nat, k: nat | j <= k < |clocks| :: clocks[j] <= clocks[k])
    && (forall k: nat | k < |clocks| :: -HALF_WORD < clocks[k] - count < HALF_WORD)
  }

  /** The countdown after these checks; clocks[k] is what the clock shows at check k. */
  ghost function AfterTicks(c: Countdown, ticks: seq<Seconds>, clocks: seq<Seconds>): Countdown
    requires |ticks| == |clocks|
  {
    if ticks == [] then c
    else
      var n := |ticks| - 1;
      AfterCountdown(AfterTicks(c, ticks[..n], clocks[..n]), Civil(ticks[n]), clocks[n])
  }

  /** An active countdown stays until its minute is checked or the clock is more than 60 seconds past
      it, whichever comes first. */
  lemma {:induction false} StaysIff(c: Countdown, ticks: seq<Seconds>, clocks: seq<Seconds>, first: nat)
    requires |ticks| == |clocks| && EveryMinute(ticks, first) && Steady(clocks, c.count)
    requires c.active && first <= c.count / 60
    ensures AfterTicks(c, ticks, clocks) ==
            if |ticks| <= c.count / 60 - first && (ticks != [] ==> clocks[|ticks| - 1] <= c.count + 60) then c else c.(active := false)
  {
    if ticks != [] {
      var n := |ticks| - 1;
      assert EveryMinute(ticks[..n], first) && Steady(clocks[..n], c.count);
      StaysIff(c, ticks[..n], clocks[..n], first);
      DueIffSameMinute(c, ticks[n]);
      ExpiredIff(c, clocks[n]);
      assert n > 0 ==> clocks[n - 1] <= clocks[n];
    }
  }

  /** Whether the checks come in time or catch up: it is carried out at most once, at the check of its
      own minute, if and only if the clock is then at most 60 seconds past the count. */
  lemma CarriedOutIff(c: Countdown, ticks: seq<Seconds>, clocks: seq<Seconds>, first: nat, n: nat)
    requires n < |ticks| == |clocks| && EveryMinute(ticks, first) && Steady(clocks, c.count)
    requires c.active && first <= c.count / 60
    ensures Acts(AfterTicks(c, ticks[..n], clocks[..n]), Civil(ticks[n]), clocks[n])
            <==> n == c.count / 60 - first && clocks[n] <= c.count + 60
  {
    assert EveryMinute(ticks[..n], first) && Steady(clocks[..n], c.count);
    StaysIff(c, ticks[..n], clocks[..n], first);
    DueIffSameMinute(c, ticks[n]);
    ExpiredIff(c, clocks[n]);
    assert n > 0 ==> clocks[n - 1] <= clocks[n];
  }

  /** A countdown more than 2^31 seconds ahead is dropped by the first check. */
  lemma TooFarAheadIsDropped(c: Countdown, s: nat, cur: Seconds)
    requires c.active && HALF_WORD < c.count - cur < 0x1_0000_0000 - 60
    ensures !Acts(c, Civil(s), cur) && !AfterCountdown(c, Civil(s), cur).active
  {
  }
}
