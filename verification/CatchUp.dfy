/** The minutes a timer callback hands to lum_checkTimer: lum_minuteCheckProtect and the period
    lum_checkTimerCallback sets. */
module CatchUp {
  import opened Calendar

  const NEVER_CHECKED := 0xFF
  const MAX_CATCH_UP := 10

  /** The minute field of the last check. */
  type LastField = n: nat | n < 60 || n == NEVER_CHECKED

  /** totalMinute, from the minute field of the last check and of this one. */
  function TotalMinutes(last: LastField, minute: nat): (n: nat)
    requires minute < 60
    ensures n <= MAX_CATCH_UP
  {
    var total := if last == NEVER_CHECKED then 1 else (if minute < last then minute + 60 else minute) - last;
    if total > MAX_CATCH_UP then 1 else total
  }

  /** The U32 second of replay i out of total. */
  function ReplaySecond(reread: Seconds, total: nat, i: nat): Seconds
    requires 1 <= i <= total
  {
    (reread - (total - i) * 60) % 0x1_0000_0000
  }

  /** The seconds whose dates one callback hands on: cur was read first, reread only to catch up. */
  function Handed(last: LastField, cur: Seconds, reread: Seconds): (ticks: seq<Seconds>)
    ensures |ticks| <= MAX_CATCH_UP
  {
    var total := TotalMinutes(last, cur / 60 % 60);
    if total > 1 then seq(total, i requires 0 <= i < total => ReplaySecond(reread, total, i + 1)) else [cur]
  }

  lemma HandedAgain(last: LastField, cur: Seconds, reread: Seconds)
    requires TotalMinutes(last, cur / 60 % 60) > 1
    ensures var ticks := Handed(last, cur, reread);
            && |ticks| == TotalMinutes(last, cur / 60 % 60)
            && forall i: nat | i < |ticks| :: ticks[i] == ReplaySecond(reread, |ticks|, i + 1)
  {
  }

  function MinutesOf(ticks: seq<Seconds>): (minutes: seq<nat>)
    ensures |minutes| == |ticks|
  {
    seq(|ticks|, i requires 0 <= i < |ticks| => ticks[i] / 60)
  }

  /** The minutes after lo up to and including hi. */
  function MinutesAfter(lo: nat, hi: nat): (minutes: seq<nat>)
    requires lo <= hi
    ensures |minutes| == hi - lo
  {
    seq(hi - lo, i requires 0 <= i < hi - lo => lo + 1 + i)
  }

  /** The seconds lie one in each minute from first on. */
  ghost predicate EveryMinute(ticks: seq<Seconds>, first: nat) {
    forall k: nat | k < |ticks| :: ticks[k] / 60 == first + k
  }

  lemma ReplayMinute(reread: Seconds, total: nat, i: nat)
    requires 1 <= i <= total && total * 60 <= reread
    ensures ReplaySecond(reread, total, i) / 60 == reread / 60 - (total - i)
  {
  }

  /** The gap in minutes seen through the minute field alone. */
  lemma TotalOfGap(lastMinute: nat, cur: Seconds)
    requires lastMinute <= cur / 60
    ensures var gap := cur / 60 - lastMinute;
            TotalMinutes(lastMinute % 60, cur / 60 % 60) == if gap % 60 > MAX_CATCH_UP then 1 else gap % 60
  {
    var m, l := cur / 60, lastMinute;
    var q := m / 60 - l / 60;
    assert m - l == 60 * q + (m % 60 - l % 60);
    if m % 60 < l % 60 {
      assert m - l == 60 * (q - 1) + (m % 60 + 60 - l % 60);
    }
  }

  /** A callback that catches up hands on as many minutes as passed, up to the one reread. */
  lemma CatchUpMinutes(lastMinute: nat, cur: Seconds, reread: Seconds, gap: nat)
    requires cur / 60 == lastMinute + gap && 2 <= gap <= MAX_CATCH_UP && gap <= reread / 60
    ensures MinutesOf(Handed(lastMinute % 60, cur, reread)) == MinutesAfter(reread / 60 - gap, reread / 60)
  {
    TotalOfGap(lastMinute, cur);
    CatchUpTicks(lastMinute % 60, cur, reread, gap);
    MinutesAre(Handed(lastMinute % 60, cur, reread), reread / 60 - gap, reread / 60);
  }

  lemma CatchUpTicks(last: LastField, cur: Seconds, reread: Seconds, gap: nat)
    requires gap == TotalMinutes(last, cur / 60 % 60) && gap > 1 && gap <= reread / 60
    ensures var ticks := Handed(last, cur, reread);
            |ticks| == gap && forall i: nat | i < gap :: ticks[i] / 60 == reread / 60 - gap + 1 + i
  {
    var ticks := Handed(last, cur, reread);
    forall i: nat | i < gap
      ensures ticks[i] / 60 == reread / 60 - gap + 1 + i
    {
      ReplayMinute(reread, gap, i + 1);
    }
  }

  lemma SameEnd(lo: nat, hi: nat, lo': nat, hi': nat)
    requires lo < hi && lo' < hi'
    ensures MinutesAfter(lo, hi) == MinutesAfter(lo', hi') ==> hi == hi'
  {
    assert MinutesAfter(lo, hi)[hi - lo - 1] == hi && MinutesAfter(lo', hi')[hi' - lo' - 1] == hi';
  }

  /** One callback hands on exactly the minutes since the last check if and only if that lies 1 to 10
      minutes back and, when it catches up, the clock is still in the minute first read. */
  lemma HandsEveryMinuteIff(lastMinute: nat, cur: Seconds, reread: Seconds)
    requires lastMinute <= cur / 60
    ensures var gap := cur / 60 - lastMinute;
            MinutesOf(Handed(lastMinute % 60, cur, reread)) == MinutesAfter(lastMinute, cur / 60)
            <==> 1 <= gap <= 10 && (gap == 1 || reread / 60 == cur / 60)
  {
    var gap := cur / 60 - lastMinute;
    TotalOfGap(lastMinute, cur);
    if gap == 1 {
      assert MinutesOf([cur]) == MinutesAfter(lastMinute, cur / 60);
    } else if gap < 1 || gap > MAX_CATCH_UP {
      assert |Handed(lastMinute % 60, cur, reread)| != gap;
    } else if gap <= reread / 60 {
      CatchUpMinutes(lastMinute, cur, reread, gap);
      SameEnd(reread / 60 - gap, reread / 60, lastMinute, cur / 60);
    } else {
      RereadIsLast(lastMinute % 60, cur, reread, gap);
      assert MinutesAfter(lastMinute, cur / 60)[gap - 1] == cur / 60;
    }
  }

  lemma RereadIsLast(last: LastField, cur: Seconds, reread: Seconds, gap: nat)
    requires gap == TotalMinutes(last, cur / 60 % 60) && gap > 1
    ensures MinutesOf(Handed(last, cur, reread))[gap - 1] == reread / 60
  {
    assert ReplaySecond(reread, gap, gap) == reread;
  }

  /** When the minute changes between the two readings, the replay is shifted: the first missed minute
      is skipped, and the minute that has just begun is handed on although it will come again. */
  lemma SecondReadingShifts(lastMinute: nat, cur: Seconds, reread: Seconds)
    requires 2 <= cur / 60 - lastMinute <= 10 && reread / 60 == cur / 60 + 1
    ensures MinutesOf(Handed(lastMinute % 60, cur, reread)) == MinutesAfter(lastMinute + 1, cur / 60 + 1)
  {
    CatchUpMinutes(lastMinute, cur, reread, cur / 60 - lastMinute);
  }

  lemma MinutesAre(ticks: seq<Seconds>, lo: nat, hi: nat)
    requires lo <= hi && |ticks| == hi - lo && forall i: nat | i < |ticks| :: ticks[i] / 60 == lo + 1 + i
    ensures MinutesOf(ticks) == MinutesAfter(lo, hi)
  {
  }

  lemma MinutesAreEvery(ticks: seq<Seconds>, lo: nat, hi: nat)
    requires lo <= hi && MinutesOf(ticks) == MinutesAfter(lo, hi)
    ensures EveryMinute(ticks, lo + 1) && |ticks| == hi - lo
  {
    forall k: nat | k < |ticks|
      ensures ticks[k] / 60 == lo + 1 + k
    {
      assert MinutesOf(ticks)[k] == MinutesAfter(lo, hi)[k];
    }
  }

  // ----- runs of callbacks

  /** The clock readings of one callback. */
  datatype Callback = Callback(cur: Seconds, reread: Seconds)

  ghost predicate InStep(lastMinute: nat, c: Callback) {
    && 1 <= c.cur / 60 - lastMinute <= 10
    && (c.cur / 60 - lastMinute == 1 || c.reread / 60 == c.cur / 60)
  }

  /** Each callback comes 1 to 10 minutes after the one before, and takes its second reading, if it
      takes one, in the minute of the first. */
  ghost predicate Regular(lastMinute: nat, run: seq<Callback>)
    decreases |run|
  {
    run == [] || (InStep(lastMinute, run[0]) && Regular(run[0].cur / 60, run[1..]))
  }

  /** Everything the callbacks hand on, in order; each leaves its own minute field behind. */
  ghost function AllHanded(last: LastField, run: seq<Callback>): seq<Seconds>
    decreases |run|
  {
    if run == [] then []
    else Handed(last, run[0].cur, run[0].reread) + AllHanded(run[0].cur / 60 % 60, run[1..])
  }

  function LastMinute(lastMinute: nat, run: seq<Callback>): nat {
    if run == [] then lastMinute else run[|run| - 1].cur / 60
  }

  lemma MinutesOfSum(a: seq<Seconds>, b: seq<Seconds>)
    ensures MinutesOf(a + b) == MinutesOf(a) + MinutesOf(b)
  {
  }

  lemma MinutesAfterSum(lo: nat, mid: nat, hi: nat)
    requires lo <= mid <= hi
    ensures MinutesAfter(lo, hi) == MinutesAfter(lo, mid) + MinutesAfter(mid, hi)
  {
  }

  /** Over every regular run the minutes handed on are every absolute minute once, in order. */
  lemma {:induction false} RunHandsEveryMinute(lastMinute: nat, run: seq<Callback>)
    requires Regular(lastMinute, run)
    ensures lastMinute <= LastMinute(lastMinute, run)
    ensures MinutesOf(AllHanded(lastMinute % 60, run)) == MinutesAfter(lastMinute, LastMinute(lastMinute, run))
    decreases |run|
  {
    if run != [] {
      var mid := run[0].cur / 60;
      HandsEveryMinuteIff(lastMinute, run[0].cur, run[0].reread);
      RunHandsEveryMinute(mid, run[1..]);
      MinutesOfSum(Handed(lastMinute % 60, run[0].cur, run[0].reread), AllHanded(mid % 60, run[1..]));
      MinutesAfterSum(lastMinute, mid, LastMinute(lastMinute, run));
    }
  }

  /** From the first callback ever on: its own minute, and then every minute. */
  lemma FirstRunHandsEveryMinute(run: seq<Callback>)
    requires run != [] && run[0].cur >= 60 && Regular(run[0].cur / 60, run[1..])
    ensures run[0].cur / 60 - 1 <= LastMinute(0, run)
    ensures MinutesOf(AllHanded(NEVER_CHECKED, run)) == MinutesAfter(run[0].cur / 60 - 1, LastMinute(0, run))
  {
    var first := run[0].cur / 60;
    RunHandsEveryMinute(first, run[1..]);
    MinutesOfSum([run[0].cur], AllHanded(first % 60, run[1..]));
    MinutesAfterSum(first - 1, first, LastMinute(0, run));
    assert MinutesOf([run[0].cur]) == MinutesAfter(first - 1, first);
  }

  /** The period set after a check at the given second, in milliseconds. */
  function TimerPeriod(second: nat): nat
    requires second < 60
  {
    (70 - second) * 1000
  }

  /** The period ends 10 s into the next minute. A callback that comes less than 590 s after that comes 1 to
      10 minutes after the last. */
  lemma PeriodKeepsStep(cur: Seconds, delay: nat, next: nat)
    requires delay < 590 && next == cur + TimerPeriod(cur % 60) / 1000 + delay
    ensures TimerPeriod(cur % 60) == 1000 * (60 - cur % 60 + 10)
    ensures 1 <= next / 60 - cur / 60 <= 10
    ensures next / 60 - cur / 60 == 1 <==> delay < 50
  {
  }

  /** c comes less than 590 s after the period set by the callback before, and rereads in its minute if it
      rereads. */
  ghost predicate OnTime(before: Callback, c: Callback) {
    && 0 <= c.cur - before.cur - TimerPeriod(before.cur % 60) / 1000 < 590
    && (c.cur / 60 - before.cur / 60 == 1 || c.reread / 60 == c.cur / 60)
  }

  ghost predicate AllOnTime(run: seq<Callback>)
    decreases |run|
  {
    |run| <= 1 || (OnTime(run[0], run[1]) && AllOnTime(run[1..]))
  }

  /** Every run of callbacks that are on time is regular. */
  lemma {:induction false} OnTimeIsRegular(run: seq<Callback>)
    requires run != [] && AllOnTime(run)
    ensures Regular(run[0].cur / 60, run[1..])
    decreases |run|
  {
    if |run| > 1 {
      var c := run[0].cur;
      PeriodKeepsStep(c, run[1].cur - c - TimerPeriod(c % 60) / 1000, run[1].cur);
      OnTimeIsRegular(run[1..]);
    }
  }
}
