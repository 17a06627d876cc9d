/** Civil time from seconds: lum_gmtime and the day of the week, against the Gregorian calendar. */
module Calendar {

  /** Seconds since 1970-01-01 00:00:00 as the firmware's U32 holds them. */
  type Seconds = x: int | 0 <= x < 0x1_0000_0000

  const SEC_PER_DAY := 86400
  const SEC_PER_HOUR := 3600

  /** TIME_DATA_INFO: month counts from 0, day from 1, week from Sunday = 0. */
  datatype TimeData = TimeData(year: nat, month: nat, day: nat, week: nat, hour: nat, minute: nat, second: nat)

  // ----- the Gregorian calendar

  ghost predicate IsLeapYear(y: nat) {
    (y % 4 == 0 && y % 100 != 0) || y % 400 == 0
  }

  ghost function YearDays(y: nat): (d: nat)
    ensures d >= 365
  {
    if IsLeapYear(y) then 366 else 365
  }

  ghost function MonthDays(y: nat, m: nat): (d: nat)
    requires m < 12
    ensures 28 <= d <= 31
  {
    if m == 1 then (if IsLeapYear(y) then 29 else 28)
    else if m == 3 || m == 5 || m == 8 || m == 10 then 30
    else 31
  }

  /** Days from 1970-01-01 to the first day of the year. */
  ghost function DaysBeforeYear(y: nat): nat
    requires 1970 <= y
  {
    if y == 1970 then 0 else DaysBeforeYear(y - 1) + YearDays(y - 1)
  }

  ghost function DaysBeforeMonth(y: nat, m: nat): nat
    requires m <= 12
  {
    if m == 0 then 0 else DaysBeforeMonth(y, m - 1) + MonthDays(y, m - 1)
  }

  /** A day of the calendar and a time of that day. */
  ghost predicate IsCivil(t: TimeData) {
    && 1970 <= t.year && t.month < 12 && 1 <= t.day <= MonthDays(t.year, t.month)
    && t.hour < 24 && t.minute < 60 && t.second < 60
  }

  ghost function DayNumber(t: TimeData): nat
    requires IsCivil(t)
  {
    DaysBeforeYear(t.year) + DaysBeforeMonth(t.year, t.month) + (t.day - 1)
  }

  /** The seconds since 1970-01-01 00:00:00 at which the clock shows t. */
  ghost function ToSeconds(t: TimeData): nat
    requires IsCivil(t)
  {
    DayNumber(t) * SEC_PER_DAY + t.hour * SEC_PER_HOUR + t.minute * 60 + t.second
  }

  /** The day of the week of a day counted from Thursday, 1970-01-01; Sunday is 0. */
  function WeekdayOfDay(day: nat): (w: nat)
    ensures w < 7
  {
    (day + 4) % 7
  }

  lemma {:induction false} YearIsTwelveMonths(y: nat)
    ensures DaysBeforeMonth(y, 12) == YearDays(y)
  {
    MonthStarts(y, 12);
  }

  /** The day numbers of the first of each month. */
  lemma {:induction false} MonthStarts(y: nat, m: nat)
    requires m <= 12
    ensures DaysBeforeMonth(y, m)
         == MONTH_STARTS[m] + (if m >= 2 && IsLeapYear(y) then 1 else 0)
  {
    if m > 0 {
      MonthStarts(y, m - 1);
    }
  }

  // ----- order of dates and order of seconds

  ghost predicate Earlier(a: TimeData, b: TimeData) {
    || a.year < b.year
    || (a.year == b.year && (a.month < b.month
    || (a.month == b.month && (a.day < b.day
    || (a.day == b.day && (a.hour < b.hour
    || (a.hour == b.hour && (a.minute < b.minute
    || (a.minute == b.minute && a.second < b.second)))))))))
  }

  lemma {:induction false} DaysBeforeYearGrows(y: nat, y': nat)
    requires 1970 <= y < y'
    ensures DaysBeforeYear(y) + YearDays(y) <= DaysBeforeYear(y')
    decreases y'
  {
    if y + 1 < y' {
      DaysBeforeYearGrows(y, y' - 1);
    }
  }

  lemma {:induction false} DaysBeforeMonthGrows(y: nat, m: nat, m': nat)
    requires m < m' <= 12
    ensures DaysBeforeMonth(y, m) + MonthDays(y, m) <= DaysBeforeMonth(y, m')
    decreases m'
  {
    if m + 1 < m' {
      DaysBeforeMonthGrows(y, m, m' - 1);
    }
  }

  lemma DayWithinYear(t: TimeData)
    requires IsCivil(t)
    ensures DaysBeforeYear(t.year) <= DayNumber(t) < DaysBeforeYear(t.year) + YearDays(t.year)
  {
    DaysBeforeMonthGrows(t.year, t.month, 12);
    YearIsTwelveMonths(t.year);
  }

  lemma EarlierDay(a: TimeData, b: TimeData)
    requires IsCivil(a) && IsCivil(b)
    requires a.year < b.year || (a.year == b.year && (a.month < b.month || (a.month == b.month && a.day < b.day)))
    ensures DayNumber(a) < DayNumber(b)
  {
    if a.year < b.year {
      DayWithinYear(a);
      DayWithinYear(b);
      DaysBeforeYearGrows(a.year, b.year);
    } else if a.month < b.month {
      DaysBeforeMonthGrows(a.year, a.month, b.month);
    }
  }

  /** Earlier dates have fewer seconds. */
  lemma EarlierIsFewerSeconds(a: TimeData, b: TimeData)
    requires IsCivil(a) && IsCivil(b) && Earlier(a, b)
    ensures ToSeconds(a) < ToSeconds(b)
  {
    if a.year != b.year || a.month != b.month || a.day != b.day {
      EarlierDay(a, b);
    }
  }

  /** A second is shown by one date only. */
  lemma SecondsDetermineDate(a: TimeData, b: TimeData)
    requires IsCivil(a) && IsCivil(b) && ToSeconds(a) == ToSeconds(b)
    requires a.week == b.week
    ensures a == b
  {
    if a != b {
      if Earlier(a, b) {
        EarlierIsFewerSeconds(a, b);
      } else {
        EarlierIsFewerSeconds(b, a);
      }
    }
  }

  // ----- the day of the week

  /** lum_bLeapYear. */
  function LeapYear(y: nat): nat {
    if y % 100 == 0 then (if y % 400 == 0 then 1 else 0) else (if y % 4 == 0 then 1 else 0)
  }

  lemma LeapYearIsGregorian(y: nat)
    ensures LeapYear(y) == if IsLeapYear(y) then 1 else 0
    ensures y % 400 == 0 ==> y % 100 == 0
    ensures y % 100 == 0 ==> y % 4 == 0
  {
    assert y == 400 * (y / 400) + y % 400;
    assert y == 100 * (y / 100) + y % 100;
    assert y % 400 == 0 ==> y == 100 * (4 * (y / 400));
    assert y % 100 == 0 ==> y == 4 * (25 * (y / 100));
  }

  const LUM_WEEK_DAY_INFO: seq<nat> := [0, 3, 2, 5, 0, 3, 5, 1, 4, 6, 2, 4]

  /** lum_getDayOfWeek; the month counts from 1 here. */
  function DayOfWeek(month: nat, day: nat, year: nat): nat
    requires 1 <= month <= 12 && 1 <= year
  {
    var y := if month < 3 then year - 1 else year;
    (y + y / 4 - y / 100 + y / 400 + LUM_WEEK_DAY_INFO[month - 1] + day) % 7
  }

  ghost function LeapsUpTo(y: nat): int {
    y / 4 - y / 100 + y / 400
  }

  lemma OneMoreYear(y: nat)
    requires 1 <= y
    ensures LeapsUpTo(y) == LeapsUpTo(y - 1) + LeapYear(y)
  {
    LeapYearIsGregorian(y);
    assert y / 4 == (y - 1) / 4 + (if y % 4 == 0 then 1 else 0);
    assert y / 100 == (y - 1) / 100 + (if y % 100 == 0 then 1 else 0);
    assert y / 400 == (y - 1) / 400 + (if y % 400 == 0 then 1 else 0);
  }

  /** The closed form of the day count. */
  lemma {:induction false} DaysBeforeYearIs(y: nat)
    requires 1970 <= y
    ensures DaysBeforeYear(y) == 365 * (y - 1970) + LeapsUpTo(y - 1) - 477
  {
    if y > 1970 {
      DaysBeforeYearIs(y - 1);
      OneMoreYear(y - 1);
      LeapYearIsGregorian(y - 1);
    }
  }

  lemma CongruentModSeven(a: int, b: int, k: int)
    requires a == b + 7 * k
    ensures a % 7 == b % 7
  {
  }

  const MONTH_STARTS: seq<nat> := [0, 31, 59, 90, 120, 151, 181, 212, 243, 273, 304, 334, 365]
  const WEEKS: seq<nat> := [349, 345, 341, 337, 332, 328, 324, 319, 315, 311, 306, 302]

  lemma WeekdayIdentity(y: int, leap: int, leaps: int, m: nat, day: int, start: int, number: int)
    requires m < 12 && start == MONTH_STARTS[m] + (if m >= 2 then leap else 0)
    requires number == 365 * (y - 1970) + leaps - 477 + start + (day - 1)
    ensures (if m < 2 then y - 1 + leaps else y + leaps + leap) + LUM_WEEK_DAY_INFO[m] + day
         == number + 4 + 7 * (WEEKS[m] - 52 * (y - 1970))
  {
  }

  /** Up to multiples of seven, the sum lum_getDayOfWeek reduces is the day number plus four. */
  lemma WeekdaySum(t: TimeData, y: nat)
    requires IsCivil(t) && y == if t.month < 2 then t.year - 1 else t.year
    ensures y + LeapsUpTo(y) + LUM_WEEK_DAY_INFO[t.month] + t.day
         == DayNumber(t) + 4 + 7 * (WEEKS[t.month] - 52 * (t.year - 1970))
  {
    DaysBeforeYearIs(t.year);
    MonthStarts(t.year, t.month);
    OneMoreYear(t.year);
    LeapYearIsGregorian(t.year);
    WeekdayIdentity(t.year, LeapYear(t.year), LeapsUpTo(t.year - 1), t.month, t.day,
                    DaysBeforeMonth(t.year, t.month), DayNumber(t));
  }

  /** The congruence agrees with counting days from a Thursday, for every date. */
  lemma DayOfWeekCountsDays(t: TimeData)
    requires IsCivil(t)
    ensures DayOfWeek(t.month + 1, t.day, t.year) == WeekdayOfDay(DayNumber(t))
  {
    var y := if t.month < 2 then t.year - 1 else t.year;
    var weeks := WEEKS[t.month] - 52 * (t.year - 1970);
    WeekdaySum(t, y);
    CongruentModSeven(y + LeapsUpTo(y) + LUM_WEEK_DAY_INFO[t.month] + t.day, DayNumber(t) + 4, weeks);
  }

  // ----- the date of a second

  /** t is what the clock shows at second s: the date, the time of day and the day of the week. */
  ghost predicate Shows(t: TimeData, s: nat) {
    IsCivil(t) && ToSeconds(t) == s && t.week == WeekdayOfDay(s / SEC_PER_DAY)
  }

  lemma {:induction false} YearExists(day: nat) returns (y: nat)
    ensures 1970 <= y && DaysBeforeYear(y) <= day < DaysBeforeYear(y) + YearDays(y)
  {
    y := 1970;
    if day > 0 {
      y := YearExists(day - 1);
      if day == DaysBeforeYear(y) + YearDays(y) {
        y := y + 1;
      }
    }
  }

  lemma {:induction false} MonthExists(y: nat, day: nat, m: nat) returns (m': nat)
    requires m <= 12 && day < DaysBeforeMonth(y, m)
    ensures m' < m && DaysBeforeMonth(y, m') <= day < DaysBeforeMonth(y, m') + MonthDays(y, m')
  {
    m' := m - 1;
    if day < DaysBeforeMonth(y, m - 1) {
      m' := MonthExists(y, day, m - 1);
    }
  }

  lemma CivilExists(s: nat)
    ensures exists t :: Shows(t, s)
  {
    var day, time := s / SEC_PER_DAY, s % SEC_PER_DAY;
    var y := YearExists(day);
    YearIsTwelveMonths(y);
    var m := MonthExists(y, day - DaysBeforeYear(y), 12);
    var d := day - DaysBeforeYear(y) - DaysBeforeMonth(y, m) + 1;
    assert Shows(TimeData(y, m, d, WeekdayOfDay(day), time / SEC_PER_HOUR, time % SEC_PER_HOUR / 60, time % 60), s);
  }

  /** The date and time the clock shows at second s. */
  ghost function Civil(s: nat): (t: TimeData)
    ensures Shows(t, s)
  {
    CivilExists(s);
    var t :| Shows(t, s);
    t
  }

  lemma CivilIsUnique(t: TimeData, s: nat)
    requires Shows(t, s)
    ensures t == Civil(s)
  {
    SecondsDetermineDate(t, Civil(s));
  }

  /** The closed form of a date's second. */
  lemma DateShows(t: TimeData, s: nat, leap: bool)
    requires IsCivil(t) && (leap <==> IsLeapYear(t.year))
    requires var day := 365 * (t.year - 1970) + LeapsUpTo(t.year - 1) - 477
                        + MONTH_STARTS[t.month] + (if t.month >= 2 && leap then 1 else 0) + t.day - 1;
             t.week == (day + 4) % 7 && s == day * 86400 + t.hour * 3600 + t.minute * 60 + t.second
    ensures Civil(s) == t
  {
    DaysBeforeYearIs(t.year);
    MonthStarts(t.year, t.month);
    CivilIsUnique(t, s);
  }

  // Dates on which the rules for leap years show.

  lemma LeapDayOf2000()
    ensures Civil(951827696) == TimeData(2000, 1, 29, 2, 12, 34, 56)
  {
    DateShows(TimeData(2000, 1, 29, 2, 12, 34, 56), 951827696, true);
  }

  lemma LeapDayOf2012()
    ensures Civil(1330473600) == TimeData(2012, 1, 29, 3, 0, 0, 0)
  {
    DateShows(TimeData(2012, 1, 29, 3, 0, 0, 0), 1330473600, true);
  }

  lemma LastOfFebruary2100()
    ensures Civil(4107542399) == TimeData(2100, 1, 28, 0, 23, 59, 59)
  {
    DateShows(TimeData(2100, 1, 28, 0, 23, 59, 59), 4107542399, false);
  }

  lemma FirstOfMarch2100()
    ensures Civil(4107542400) == TimeData(2100, 2, 1, 1, 0, 0, 0)
  {
    DateShows(TimeData(2100, 2, 1, 1, 0, 0, 0), 4107542400, false);
  }

  /** Later seconds show later dates, and the other way round. */
  lemma CivilIsMonotone(s: nat, s': nat)
    ensures s < s' <==> Earlier(Civil(s), Civil(s'))
  {
    var a, b := Civil(s), Civil(s');
    if Earlier(a, b) {
      EarlierIsFewerSeconds(a, b);
    } else if s < s' {
      assert a != b;
      assert Earlier(b, a);
      EarlierIsFewerSeconds(b, a);
    }
  }

  lemma DivideBy60(x: nat, q: int, r: nat)
    requires x == 60 * q + r && r < 60
    ensures x / 60 == q && x % 60 == r
  {
  }

  lemma DivideBy1440(x: nat, q: int, r: nat)
    requires x == 1440 * q + r && r < 1440
    ensures x / 1440 == q && x % 1440 == r
  {
  }

  lemma DivideByDay(x: nat, q: int, r: nat)
    requires x == SEC_PER_DAY * q + r && r < SEC_PER_DAY
    ensures x / SEC_PER_DAY == q && x % SEC_PER_DAY == r
  {
  }

  /** The time of day and the day of the week over absolute minutes. */
  lemma MinuteOfCivil(s: nat)
    ensures var m := s / 60;
            Civil(s).hour * 60 + Civil(s).minute == m % 1440 && Civil(s).week == WeekdayOfDay(m / 1440)
    ensures Civil(s).minute == s / 60 % 60 && Civil(s).second == s % 60
  {
    var t := Civil(s);
    var day, minute := DayNumber(t), t.hour * 60 + t.minute;
    DivideBy60(s, day * 1440 + minute, t.second);
    DivideBy1440(s / 60, day, minute);
    DivideByDay(s, day, minute * 60 + t.second);
    DivideBy60(s / 60, day * 24 + t.hour, t.minute);
  }

  /** Two seconds show the same date up to the seconds field exactly when their minute is the same. */
  lemma SameDateUpToSeconds(a: nat, b: nat)
    ensures Civil(a).(second := Civil(b).second) == Civil(b) <==> a / 60 == b / 60
  {
    var t := Civil(a).(second := Civil(b).second);
    MinuteOfCivil(a);
    MinuteOfCivil(b);
    assert ToSeconds(t) == a - a % 60 + b % 60;
    if a / 60 == b / 60 {
      assert a / SEC_PER_DAY == b / SEC_PER_DAY by {
        assert a / SEC_PER_DAY == a / 60 / 1440;
        assert b / SEC_PER_DAY == b / 60 / 1440;
      }
      CivilIsUnique(t, b);
    }
  }

  lemma {:induction false} DaysBeforeLateYear(y: nat)
    requires 1970 <= y
    ensures DaysBeforeYear(y) >= 365 * (y - 1970)
  {
    if y > 1970 {
      DaysBeforeLateYear(y - 1);
    }
  }

  /** A U32 second lies before 2107, so year, month and day stay within their U16 and U8 fields. */
  lemma YearOfSeconds(s: Seconds)
    ensures Civil(s).year <= 2106
  {
    DaysBeforeLateYear(Civil(s).year);
  }

  // ----- lum_gmtime

  const LUM_SEC_PER_YR: seq<nat> := [31536000, 31622400]

  const LUM_SEC_PER_MT: seq<seq<nat>> := [
    [2678400, 2419200, 2678400, 2592000, 2678400, 2592000, 2678400, 2678400, 2592000, 2678400, 2592000, 2678400],
    [2678400, 2505600, 2678400, 2592000, 2678400, 2592000, 2678400, 2678400, 2592000, 2678400, 2592000, 2678400]]

  lemma YearSeconds(y: nat)
    ensures LUM_SEC_PER_YR[LeapYear(y)] == YearDays(y) * SEC_PER_DAY
  {
    LeapYearIsGregorian(y);
  }

  lemma MonthSeconds(y: nat, m: nat)
    requires m < 12
    ensures LUM_SEC_PER_MT[LeapYear(y)][m] == MonthDays(y, m) * SEC_PER_DAY
  {
    LeapYearIsGregorian(y);
  }

  /** The year loop. */
  method SubtractYears(second: Seconds) returns (year: nat, rest: nat)
    ensures 1970 <= year && second == DaysBeforeYear(year) * SEC_PER_DAY + rest && rest < YearDays(year) * SEC_PER_DAY
  {
    year, rest := 1970, second;
    while true
      invariant 1970 <= year && second == DaysBeforeYear(year) * SEC_PER_DAY + rest
      decreases rest
    {
      YearSeconds(year);
      if rest < LUM_SEC_PER_YR[LeapYear(year)] {
        break;
      }
      rest := rest - LUM_SEC_PER_YR[LeapYear(year)];
      year := year + 1;
    }
  }

  /** The month loop: its index never passes 11. */
  method SubtractMonths(year: nat, time: nat) returns (month: nat, rest: nat)
    requires time < YearDays(year) * SEC_PER_DAY
    ensures month < 12 && time == DaysBeforeMonth(year, month) * SEC_PER_DAY + rest
    ensures rest < MonthDays(year, month) * SEC_PER_DAY
  {
    var leapYear := LeapYear(year);
    month, rest := 0, time;
    YearIsTwelveMonths(year);
    while true
      invariant month < 12 && time == DaysBeforeMonth(year, month) * SEC_PER_DAY + rest
      decreases rest
    {
      MonthSeconds(year, month);
      if rest < LUM_SEC_PER_MT[leapYear][month] {
        break;
      }
      rest := rest - LUM_SEC_PER_MT[leapYear][month];
      month := month + 1;
    }
  }

  /** lum_gmtime. */
  method Gmtime(second: Seconds) returns (t: TimeData)
    ensures t == Civil(second)
    ensures t.year <= 2106
  {
    var year, inYear := SubtractYears(second);
    var month, rest := SubtractMonths(year, inYear);
    var day := rest / SEC_PER_DAY + 1;
    rest := rest % SEC_PER_DAY;
    var hour := rest / SEC_PER_HOUR;
    rest := rest % SEC_PER_HOUR;
    t := TimeData(year, month, day, DayOfWeek(month + 1, day, year), hour, rest / 60, rest % 60);
    DayOfWeekCountsDays(t);
    DivideByDay(second, DayNumber(t), t.hour * SEC_PER_HOUR + t.minute * 60 + t.second);
    CivilIsUnique(t, second);
    YearOfSeconds(second);
  }
}
