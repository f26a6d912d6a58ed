/** MS-DOS dates and times, and seconds since 1970: date_dos2unix and date_unix2dos. */
module Dates {

  /** Days before the first of each month in a year that is not a leap year. */
  const DAY_N: seq<nat> := [0, 31, 59, 90, 120, 151, 181, 212, 243, 273, 304, 334, 0, 0, 0, 0]

  /** Seconds from 1970 to 1980. */
  const EPOCH_1980: int := 3652 * 86400

  const LONG_MAX: int := 0x7fffffff

  /** The fields packed in the two 16-bit words; years count from 1980, seconds in twos. */
  datatype Stamp = Stamp(year: nat, month: nat, day: nat, hour: nat, minute: nat, twoSecs: nat)

  function DateWord(s: Stamp): nat {
    s.day + 32 * s.month + 512 * s.year
  }

  function TimeWord(s: Stamp): nat {
    s.twoSecs + 32 * s.minute + 2048 * s.hour
  }

  /** The words taken apart again. */
  function Unpack(time: nat, date: nat): Stamp {
    Stamp(date / 512, date / 32 % 16, date % 32, time / 2048, time / 32 % 64, time % 32)
  }

  predicate Leap(year: nat) {
    year % 4 == 0
  }

  function DaysIn(year: nat, month: nat): nat
    requires 1 <= month <= 12
  {
    if month == 2 then (if Leap(year) then 29 else 28)
    else if month == 4 || month == 6 || month == 9 || month == 11 then 30 else 31
  }

  predicate Valid(s: Stamp) {
    && 1 <= s.month <= 12 && 1 <= s.day <= DaysIn(s.year, s.month)
    && s.hour < 24 && s.minute < 60 && s.twoSecs < 30
  }

  lemma PackUnpack(s: Stamp)
    requires Valid(s)
    ensures Unpack(TimeWord(s), DateWord(s)) == s
  {
    Fields(s.day, s.month, s.year, 16);
    Fields(s.twoSecs, s.minute, s.hour, 64);
  }

  /** Three fields packed with 5 and then 4 or 6 bits. */
  lemma Fields(a: nat, b: nat, c: nat, n: nat)
    requires a < 32 && b < n && (n == 16 || n == 64)
    ensures var w := a + 32 * b + 32 * n * c;
            w % 32 == a && w / 32 == b + n * c && w / 32 % n == b && w / (32 * n) == c
  {
    var w := a + 32 * b + 32 * n * c;
    var q := b + n * c;
    assert 32 * q == 32 * b + 32 * n * c;
    assert w == a + 32 * q;
    assert w / 32 == q && w % 32 == a;
    Shift(w, a, q, n);
    if n == 16 {
      assert q / 16 == c && q % 16 == b;
    } else {
      assert q / 64 == c && q % 64 == b;
    }
  }

  lemma Shift(w: nat, a: nat, q: nat, n: nat)
    requires w == a + 32 * q && a < 32 && (n == 16 || n == 64)
    ensures w / (32 * n) == q / n
  {
    if n == 16 {
      assert w / 512 == q / 16;
    } else {
      assert w / 2048 == q / 64;
    }
  }

  // ----- the calendar, from its months and years

  function DaysOfYear(year: nat): nat {
    if Leap(year) then 366 else 365
  }

  function YearStart(year: nat): nat {
    if year == 0 then 0 else YearStart(year - 1) + DaysOfYear(year - 1)
  }

  function MonthStart(year: nat, month: nat): nat
    requires 1 <= month <= 12
  {
    if month == 1 then 0 else MonthStart(year, month - 1) + DaysIn(year, month - 1)
  }

  /** Days from the first of January 1980. */
  function DayNumber(s: Stamp): nat
    requires Valid(s)
  {
    YearStart(s.year) + MonthStart(s.year, s.month) + s.day - 1
  }

  lemma {:induction false} YearStartIs(year: nat)
    ensures YearStart(year) == 365 * year + (year + 3) / 4
  {
    if year > 0 {
      YearStartIs(year - 1);
    }
  }

  lemma MonthStartIs(year: nat, month: nat)
    requires 1 <= month <= 12
    ensures MonthStart(year, month) == DAY_N[month - 1] + if month > 2 && Leap(year) then 1 else 0
  {
    if month > 1 {
      MonthStartIs(year, month - 1);
    }
  }

  lemma MonthFits(year: nat, month: nat)
    requires 1 <= month <= 12
    ensures MonthStart(year, month) + DaysIn(year, month) <= DaysOfYear(year)
    ensures month < 12 ==> MonthStart(year, month) + DaysIn(year, month) == MonthStart(year, month + 1)
  {
    MonthStartIs(year, month);
  }

  lemma {:induction false} YearsApart(x: nat, y: nat)
    requires x < y
    ensures YearStart(x) + DaysOfYear(x) <= YearStart(y)
    decreases y
  {
    if x + 1 < y {
      YearsApart(x, y - 1);
    }
  }

  lemma {:induction false} MonthsApart(year: nat, m: nat, n: nat)
    requires 1 <= m < n <= 12
    ensures MonthStart(year, m) + DaysIn(year, m) <= MonthStart(year, n)
    decreases n
  {
    if m + 1 < n {
      MonthsApart(year, m, n - 1);
    }
  }

  lemma InYear(s: Stamp)
    requires Valid(s)
    ensures YearStart(s.year) <= DayNumber(s) < YearStart(s.year) + DaysOfYear(s.year)
  {
    MonthFits(s.year, s.month);
  }

  /** A day has one date. */
  lemma OneDate(s: Stamp, t: Stamp)
    requires Valid(s) && Valid(t) && DayNumber(s) == DayNumber(t)
    ensures s.year == t.year && s.month == t.month && s.day == t.day
  {
    InYear(s);
    InYear(t);
    if s.year < t.year {
      YearsApart(s.year, t.year);
    } else if t.year < s.year {
      YearsApart(t.year, s.year);
    }
    if s.month < t.month {
      MonthsApart(s.year, s.month, t.month);
    } else if t.month < s.month {
      MonthsApart(s.year, t.month, s.month);
    }
  }

  // ----- the two conversions

  /** date_dos2unix: one expression over the packed words. */
  function Dos2Unix(time: nat, date: nat, timezone: int): int
    requires 1 <= date / 32 % 16
  {
    var month, year := date / 32 % 16 - 1, date / 512;
    time % 32 * 2 + 60 * (time / 32 % 64) + time / 2048 * 3600
    + 86400 * (date % 32 - 1 + DAY_N[month] + year / 4 + year * 365 - (if year % 4 == 0 && month < 2 then 1 else 0) + 3653)
    + timezone
  }

  function SecondsOfDay(s: Stamp): nat {
    s.twoSecs * 2 + 60 * s.minute + 3600 * s.hour
  }

  /** The expression over fields. */
  lemma Dos2UnixFields(s: Stamp, timezone: int)
    requires Valid(s)
    ensures DateWord(s) / 32 % 16 == s.month
    ensures Dos2Unix(TimeWord(s), DateWord(s), timezone) == SecondsOfDay(s) + timezone
            + 86400 * (s.day - 1 + DAY_N[s.month - 1] + s.year / 4 + s.year * 365
                       - (if s.year % 4 == 0 && s.month < 3 then 1 else 0) + 3653)
  {
    PackUnpack(s);
    var u := Unpack(TimeWord(s), DateWord(s));
    assert u.year == s.year && u.month == s.month && u.day == s.day;
  }

  lemma YearDays(s: Stamp)
    requires Valid(s)
    ensures DayNumber(s) == s.day - 1 + DAY_N[s.month - 1] + s.year / 4 + s.year * 365
                            - (if s.year % 4 == 0 && s.month < 3 then 1 else 0) + 1
  {
    hide YearStart, MonthStart;
    YearStartIs(s.year);
    MonthStartIs(s.year, s.month);
  }

  /** The expression is the calendar. */
  lemma Dos2UnixIs(s: Stamp, timezone: int)
    requires Valid(s)
    ensures DateWord(s) / 32 % 16 == s.month
    ensures Dos2Unix(TimeWord(s), DateWord(s), timezone) == EPOCH_1980 + 86400 * DayNumber(s) + SecondsOfDay(s) + timezone
  {
    hide Dos2Unix, DayNumber, SecondsOfDay;
    Dos2UnixFields(s, timezone);
    YearDays(s);
  }

  /** date_unix2dos for a local time from 1980 on that a 32-bit long can hold: the words of the
      stamp whose day and second it is. */
  method Unix2Dos(unixDate: int, timezone: int) returns (time: nat, date: nat, ghost s: Stamp)
    requires EPOCH_1980 <= unixDate - timezone <= LONG_MAX
    ensures Valid(s) && time == TimeWord(s) && date == DateWord(s)
    ensures var local := unixDate - timezone;
            && DayNumber(s) == local / 86400 - 3652
            && SecondsOfDay(s) == local % 86400 - local % 2
  {
    hide YearStart, MonthStart;
    var local: nat := unixDate - timezone;
    time := local % 60 / 2 + local / 60 % 60 * 32 + local / 3600 % 24 * 2048;
    TimeOfDay(local);
    var day: nat := local / 86400 - 3652;
    var year, nlDay, month := DateOf(day);
    date := nlDay - DAY_N[month - 1] + 1 + month * 32 + year * 512;
    s := Stamp(year, month, nlDay - DAY_N[month - 1] + 1, local / 3600 % 24, local / 60 % 60, local % 60 / 2);
  }

  /** The year and month of a day, and the day of the year as if there were no 29 February but
      with 29 February as day 59. */
  method DateOf(day0: nat) returns (year: nat, nlDay: nat, month: nat)
    requires day0 <= 36500
    ensures 1 <= month <= 12 && DAY_N[month - 1] <= nlDay && nlDay - DAY_N[month - 1] + 1 <= DaysIn(year, month)
    ensures YearStart(year) + MonthStart(year, month) + (nlDay - DAY_N[month - 1]) == day0
  {
    hide YearStart, MonthStart;
    var day, y := day0, day0 / 365;
    if (y + 3) / 4 + 365 * y > day {
      y := y - 1;
    }
    YearFound(day, y);
    year := y;
    day := day - ((year + 3) / 4 + 365 * year);
    YearStartIs(year);
    nlDay, month := day, 2;
    if !(day == 59 && year % 4 == 0) {
      nlDay := if year % 4 != 0 || day <= 59 then day else day - 1;
      month := 0;
      while month < 12 && !(DAY_N[month] > nlDay)
        invariant 0 <= month <= 12 && forall k | 0 <= k < month :: DAY_N[k] <= nlDay
      {
        month := month + 1;
      }
      assert month > 0 && DAY_N[month - 1] <= nlDay;
    }
    MonthStartIs(year, month);
  }

  /** The guess by years of 365 days is at most one too high. */
  lemma YearFound(day: nat, year: int)
    requires day <= 36500
    requires year == day / 365 - (if (day / 365 + 3) / 4 + 365 * (day / 365) > day then 1 else 0)
    ensures 0 <= year && (year + 3) / 4 + 365 * year <= day < (year + 4) / 4 + 365 * (year + 1)
  {
  }

  lemma TimeOfDay(local: nat)
    ensures local % 60 / 2 * 2 + 60 * (local / 60 % 60) + 3600 * (local / 3600 % 24) == local % 86400 - local % 2
    ensures local % 60 / 2 < 30 && local / 60 % 60 < 60 && local / 3600 % 24 < 24
  {
    var seconds, minutes := local % 60, local / 60;
    assert local / 3600 == minutes / 60;
    var hours := minutes / 60;
    assert local / 86400 == hours / 24;
    assert local % 86400 == local - 86400 * (hours / 24);
    assert local % 2 == seconds % 2;
  }

  /** Every valid MS-DOS date and time that a 32-bit long can hold survives the trip to seconds and
      back, in any time zone. */
  method DosRoundTrip(s: Stamp, timezone: int) returns (time: nat, date: nat)
    requires Valid(s) && EPOCH_1980 + 86400 * DayNumber(s) + SecondsOfDay(s) <= LONG_MAX
    ensures time == TimeWord(s) && date == DateWord(s)
  {
    hide Dos2Unix, DayNumber, SecondsOfDay;
    Dos2UnixIs(s, timezone);
    var unixDate := Dos2Unix(TimeWord(s), DateWord(s), timezone);
    ghost var t;
    time, date, t := Unix2Dos(unixDate, timezone);
    SameStamp(s, t, unixDate - timezone);
  }

  lemma SameStamp(s: Stamp, t: Stamp, local: int)
    requires Valid(s) && Valid(t) && local == EPOCH_1980 + 86400 * DayNumber(s) + SecondsOfDay(s)
    requires DayNumber(t) == local / 86400 - 3652 && SecondsOfDay(t) == local % 86400 - local % 2
    ensures t == s
  {
    hide DayNumber, DaysIn, SecondsOfDay;
    EvenSeconds(s);
    SplitDay(local, DayNumber(s), SecondsOfDay(s));
    OneDate(s, t);
    OneTime(s, t);
  }

  lemma EvenSeconds(s: Stamp)
    requires Valid(s)
    ensures SecondsOfDay(s) < 86400 && SecondsOfDay(s) % 2 == 0
  {
    hide DaysIn;
    assert SecondsOfDay(s) == 2 * (s.twoSecs + 30 * s.minute + 1800 * s.hour);
  }

  lemma SplitDay(local: int, days: nat, seconds: nat)
    requires local == EPOCH_1980 + 86400 * days + seconds && seconds < 86400 && seconds % 2 == 0
    ensures local / 86400 - 3652 == days && local % 86400 - local % 2 == seconds
  {
    assert local == 86400 * (3652 + days) + seconds;
  }

  lemma OneTime(s: Stamp, t: Stamp)
    requires Valid(s) && Valid(t) && SecondsOfDay(s) == SecondsOfDay(t)
    ensures s.hour == t.hour && s.minute == t.minute && s.twoSecs == t.twoSecs
  {
    hide DaysIn;
  }

  /** From 1980 on the reverse trip gives the time back, rounded down to even seconds. */
  method UnixRoundTrip(unixDate: int, timezone: int) returns (back: int)
    requires EPOCH_1980 <= unixDate - timezone <= LONG_MAX
    ensures back == unixDate - (unixDate - timezone) % 2
  {
    hide Dos2Unix, DayNumber, SecondsOfDay, TimeWord, DateWord, Valid;
    var time, date, s := Unix2Dos(unixDate, timezone);
    Dos2UnixIs(s, timezone);
    MonthPositive(s);
    back := Dos2Unix(time, date, timezone);
  }

  lemma MonthPositive(s: Stamp)
    requires Valid(s)
    ensures s.month >= 1
  {
  }
}
