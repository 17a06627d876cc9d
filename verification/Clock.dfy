/** The UTC clock of the firmware: seconds extrapolated from a millisecond counter that wraps. */
module Clock {
  import opened Calendar

  /** Milliseconds as hfsys_get_time returns them. */
  type Millis = x: int | 0 <= x < 0x1_0000_0000

  const SEC_2014_01_01_00_00_00: Seconds := 1388505600
  const DIFF_SEC_1900_1970: Seconds := 2208988800

  /** TIME_DATE_INFO as a value. */
  datatype Anchor = Anchor(utc: Seconds, system: Millis)

  /** What one call of lum_getSystemTime returns, and the anchor it leaves. */
  function Read(a: Anchor, cur: Millis): (r: (Seconds, Anchor)) {
    if cur < a.system then
      var utc := (a.utc + (0xFFFFFFFF - a.system + cur) / 1000) % 0x1_0000_0000;
      (utc, Anchor(utc, cur))
    else
      ((a.utc + (cur - a.system) / 1000) % 0x1_0000_0000, a)
  }

  /** g_timeDateInfo. The reading of the millisecond counter is a parameter of each method. */
  class TimeDateInfo {
    var lastUTCTime: Seconds
    var lastSystemTime: Millis

    function State(): Anchor
      reads this
    {
      Anchor(lastUTCTime, lastSystemTime)
    }

    /** lum_initSystemTime. */
    constructor (cur: Millis)
      ensures State() == Anchor(SEC_2014_01_01_00_00_00, cur)
    {
      lastSystemTime := cur;
      lastUTCTime := SEC_2014_01_01_00_00_00;
    }

    /** lum_syncNetworkTime. */
    method SyncNetworkTime(networkTime: Seconds, cur: Millis)
      modifies this
      ensures State() == Anchor(networkTime, cur)
    {
      lastUTCTime := networkTime;
      lastSystemTime := cur;
    }

    /** The part of getUtcTimeByMessage that handles an answer of the time server. */
    method ReceiveNetworkTime(utcTime: Seconds, cur: Millis) returns (getSucc: bool)
      modifies this
      ensures getSucc <==> utcTime > DIFF_SEC_1900_1970
      ensures State() == if getSucc then Anchor(utcTime - DIFF_SEC_1900_1970, cur) else old(State())
    {
      getSucc := false;
      if utcTime > DIFF_SEC_1900_1970 {
        SyncNetworkTime(utcTime - DIFF_SEC_1900_1970, cur);
        getSucc := true;
      }
    }

    /** lum_getSystemTime. */
    method GetSystemTime(cur: Millis) returns (utc: Seconds)
      modifies this
      ensures (utc, State()) == Read(old(State()), cur)
    {
      if cur < lastSystemTime {
        var totalMs := 0xFFFFFFFF - lastSystemTime + cur;
        var totalSecond := totalMs / 1000;
        lastUTCTime := (lastUTCTime + totalSecond) % 0x1_0000_0000;
        lastSystemTime := cur;
        utc := lastUTCTime;
      } else {
        var totalMs := cur - lastSystemTime;
        var totalSecond := totalMs / 1000;
        utc := (lastUTCTime + totalSecond) % 0x1_0000_0000;
      }
    }
  }

  // ----- the dates behind the constants

  /** The Gregorian days of the years from y up to but not including y'. */
  ghost function DaysOfYears(y: nat, y': nat): nat
    requires y <= y'
  {
    if y == y' then 0 else DaysOfYears(y, y' - 1) + YearDays(y' - 1)
  }

  lemma {:induction false} DaysFrom1900(y: nat)
    requires 1900 <= y
    ensures DaysOfYears(1900, y) == 365 * (y - 1900) + LeapsUpTo(y - 1) - 460
  {
    if y > 1900 {
      DaysFrom1900(y - 1);
      OneMoreYear(y - 1);
      LeapYearIsGregorian(y - 1);
    }
  }

  /** The time server counts from 1900, which is that many Gregorian days before 1970. */
  lemma ServerEpoch()
    ensures DIFF_SEC_1900_1970 == 86400 * DaysOfYears(1900, 1970)
  {
    DaysFrom1900(1970);
  }

  /** Midnight of 2014-01-01 in UTC+8 is 16:00 on Tuesday, 2013-12-31 in UTC. */
  lemma StartOf2014()
    ensures Civil(SEC_2014_01_01_00_00_00) == TimeData(2013, 11, 31, 2, 16, 0, 0)
  {
    DateShows(TimeData(2013, 11, 31, 2, 16, 0, 0), SEC_2014_01_01_00_00_00, false);
  }

  // ----- the clock against true time

  /** The true millisecond count, which does not wrap, as the counter shows it. */
  function Counter(time: nat): Millis {
    time % 0x1_0000_0000
  }

  /** A clock together with the true times behind it: when its anchor was taken, when the last sync
      was, which UTC second that sync gave, and how often the anchor moved since. */
  datatype Tracked = Tracked(anchor: Anchor, anchorTime: nat, syncTime: nat, syncUtc: nat, wraps: nat)

  /** The clock right after a sync. */
  function Synced(utc: Seconds, time: nat): (t: Tracked)
    ensures Tracks(t)
  {
    Tracked(Anchor(utc, Counter(time)), time, time, utc, 0)
  }

  /** True milliseconds of UTC at a true time. */
  function TrueUtc(t: Tracked, time: int): int {
    t.syncUtc * 1000 + (time - t.syncTime)
  }

  /** The anchor is where it was taken, and lags true time by one to a thousand milliseconds per move. */
  ghost predicate Tracks(t: Tracked) {
    && t.syncTime <= t.anchorTime
    && t.anchor.system == Counter(t.anchorTime)
    && t.wraps <= TrueUtc(t, t.anchorTime) - t.anchor.utc * 1000 <= 1000 * t.wraps
  }

  /** A reading at true time. */
  function ReadAt(t: Tracked, time: nat): (r: (Seconds, Tracked)) {
    var (utc, anchor) := Read(t.anchor, Counter(time));
    if Counter(time) < t.anchor.system then (utc, t.(anchor := anchor, anchorTime := time, wraps := t.wraps + 1))
    else (utc, t)
  }

  /** The UTC second still fits in 32 bits. */
  ghost predicate Representable(t: Tracked, time: nat) {
    TrueUtc(t, time) < 1000 * 0x1_0000_0000
  }

  /** While reads come within one period of the anchor, the counter is behind its anchor exactly when
      it has wrapped. */
  lemma WrapIsSeen(anchorTime: nat, time: nat)
    requires anchorTime <= time < anchorTime + 0x1_0000_0000
    ensures Counter(time) < Counter(anchorTime) <==> time / 0x1_0000_0000 > anchorTime / 0x1_0000_0000
    ensures time - anchorTime == if Counter(time) < Counter(anchorTime) then 0x1_0000_0000 - Counter(anchorTime) + Counter(time)
                                 else Counter(time) - Counter(anchorTime)
  {
  }

  /** The value of a read from the true time that passed since the anchor: a wrap costs 1 ms. */
  lemma ReadValue(t: Tracked, time: nat)
    requires Tracks(t) && t.anchorTime <= time < t.anchorTime + 0x1_0000_0000 && Representable(t, time)
    ensures var elapsed := time - t.anchorTime;
            ReadAt(t, time).0 == t.anchor.utc + (if Counter(time) < t.anchor.system then elapsed - 1 else elapsed) / 1000
  {
    WrapIsSeen(t.anchorTime, time);
    var elapsed := time - t.anchorTime;
    Thousandths(if Counter(time) < t.anchor.system then elapsed - 1 else elapsed);
  }

  /** One read: the clock still tracks, and the lag of the value is bounded. */
  lemma ReadTracks(t: Tracked, time: nat)
    requires Tracks(t) && t.anchorTime <= time < t.anchorTime + 0x1_0000_0000 && Representable(t, time)
    ensures var (utc, t') := ReadAt(t, time);
            && Tracks(t')
            && 0 <= TrueUtc(t, time) - utc * 1000 <= 1000 * t'.wraps + 999
  {
    var elapsed := time - t.anchorTime;
    ReadValue(t, time);
    Thousandths(if Counter(time) < t.anchor.system then elapsed - 1 else elapsed);
  }

  lemma Thousandths(x: int)
    ensures x - 999 <= 1000 * (x / 1000) <= x
  {
  }

  /** The milliseconds between two counter values, whether or not whole periods passed in between. */
  lemma CounterDifference(anchorTime: nat, time: nat)
    requires anchorTime <= time
    ensures (time - anchorTime) % 0x1_0000_0000 == if Counter(time) < Counter(anchorTime) then 0x1_0000_0000 - Counter(anchorTime) + Counter(time)
                                          else Counter(time) - Counter(anchorTime)
  {
  }

  lemma Remainder(x: nat, q: int, d: nat)
    requires x == 0x1_0000_0000 * q + d && d < 0x1_0000_0000
    ensures x % 0x1_0000_0000 == d
  {
  }

  /** What a read adds to the anchor, however long ago that was taken. */
  lemma ReadAdds(t: Tracked, time: nat) returns (lost: nat)
    requires Tracks(t) && t.anchorTime <= time && t.anchor.utc + (time - t.anchorTime) / 1000 < 0x1_0000_0000
    ensures lost <= 1 && lost <= (time - t.anchorTime) % 0x1_0000_0000
    ensures ReadAt(t, time).0 == t.anchor.utc + ((time - t.anchorTime) % 0x1_0000_0000 - lost) / 1000
  {
    CounterDifference(t.anchorTime, time);
    lost := if Counter(time) < t.anchor.system then 1 else 0;
    ThousandthIsLess((time - t.anchorTime) % 0x1_0000_0000 - lost, time - t.anchorTime);
  }

  lemma ThousandthIsLess(x: nat, y: nat)
    requires x <= y
    ensures x / 1000 <= y / 1000
  {
  }

  lemma LostPeriods(elapsed: nat, lost: nat)
    requires lost <= 1 && lost <= elapsed % 0x1_0000_0000
    ensures elapsed < 0x1_0000_0000 <==> 0 <= elapsed - 1000 * ((elapsed % 0x1_0000_0000 - lost) / 1000) <= 1000
  {
    var shown := elapsed % 0x1_0000_0000 - lost;
    Thousandths(shown);
    assert elapsed >= 0x1_0000_0000 ==> elapsed - elapsed % 0x1_0000_0000 >= 0x1_0000_0000;
  }

  /** Exactly when a read gives the time passed since the anchor, to a second: while less than one
      period of the counter passed. Beyond that whole periods are lost. */
  lemma ReadInTimeIff(t: Tracked, time: nat)
    requires Tracks(t) && t.anchorTime <= time && t.anchor.utc + (time - t.anchorTime) / 1000 < 0x1_0000_0000
    ensures var value: int := ReadAt(t, time).0;
            time - t.anchorTime < 0x1_0000_0000 <==> 0 <= time - t.anchorTime - 1000 * (value - t.anchor.utc) <= 1000
  {
    var lost := ReadAdds(t, time);
    LostPeriods(time - t.anchorTime, lost);
  }

  /** A read one whole period after a sync returns the UTC of the sync. */
  lemma MissedPeriod(utc: Seconds, time: nat)
    ensures ReadAt(Synced(utc, time), time + 0x1_0000_0000).0 == utc
  {
    CounterDifference(time, time + 0x1_0000_0000);
    Remainder(0x1_0000_0000, 1, 0);
  }

  /** A run of reads at the given true times, with the values they return. */
  function Reads(t: Tracked, times: seq<nat>): (values: seq<Seconds>)
    ensures |values| == |times|
    decreases |times|
  {
    if times == [] then []
    else
      var (utc, t') := ReadAt(t, times[0]);
      [utc] + Reads(t', times[1..])
  }

  function After(t: Tracked, times: seq<nat>): Tracked
    decreases |times|
  {
    if times == [] then t else After(ReadAt(t, times[0]).1, times[1..])
  }

  /** The reads are in order, and each comes less than 2^32 ms after the anchor then in force. */
  ghost predicate Timely(t: Tracked, from: nat, times: seq<nat>)
    decreases |times|
  {
    times != [] ==>
      && from <= times[0] < t.anchorTime + 0x1_0000_0000
      && Representable(t, times[0])
      && Timely(ReadAt(t, times[0]).1, times[0], times[1..])
  }

  /** Over every run since a sync: each value lags true UTC by 0 to 1000 k + 999 ms, k counting the
      wraps so far. */
  lemma {:induction false} RunLag(t: Tracked, from: nat, times: seq<nat>, i: nat)
    requires Tracks(t) && t.anchorTime <= from && Timely(t, from, times) && i < |times|
    ensures var k := After(t, times[..i + 1]).wraps;
            var utc: int := Reads(t, times)[i];
            0 <= TrueUtc(t, times[i]) - utc * 1000 <= 1000 * k + 999
    decreases i
  {
    var t' := ReadAt(t, times[0]).1;
    ReadTracks(t, times[0]);
    if i == 0 {
      assert times[..1][1..] == [];
    } else {
      RunLag(t', times[0], times[1..], i - 1);
      assert times[..i + 1][1..] == times[1..][..i];
    }
  }

  /** One value is never above the value of a later read. */
  lemma LaterReadIsNotEarlier(t: Tracked, time: nat, time': nat)
    requires Tracks(t) && t.anchorTime <= time <= time' && time < t.anchorTime + 0x1_0000_0000 && Representable(t, time)
    requires var t' := ReadAt(t, time).1; time' < t'.anchorTime + 0x1_0000_0000 && Representable(t', time')
    ensures var (utc, t') := ReadAt(t, time); utc <= ReadAt(t', time').0
  {
    var t' := ReadAt(t, time).1;
    ReadTracks(t, time);
    ReadValue(t, time);
    ReadValue(t', time');
    if t' == t {
      WrapIsSeen(t.anchorTime, time);
      WrapIsSeen(t.anchorTime, time');
      assert time == time' || time - t.anchorTime <= time' - t.anchorTime - 1;
    }
  }

  /** Between syncs the reported time never decreases. */
  lemma {:induction false} RunIsMonotone(t: Tracked, from: nat, times: seq<nat>, i: nat)
    requires Tracks(t) && t.anchorTime <= from && Timely(t, from, times) && i + 1 < |times|
    ensures Reads(t, times)[i] <= Reads(t, times)[i + 1]
    decreases i
  {
    var t' := ReadAt(t, times[0]).1;
    ReadTracks(t, times[0]);
    if i == 0 {
      assert times[1..][0] == times[1];
      LaterReadIsNotEarlier(t, times[0], times[1]);
    } else {
      RunIsMonotone(t', times[0], times[1..], i - 1);
    }
  }
}
