/** The Gregorian calendar in UTC, counted from 1970: what services/mddbd/aggregation.go uses of
    the time library. Times are seconds since 1970-01-01, a Thursday. */
module Calendar {

  const DAY := 86400

  predicate Leap(year: int) { year % 4 == 0 && (year % 100 != 0 || year % 400 == 0) }

  /** Days of the month `m` (0 for January) of a year. */
  function MonthDays(year: int, m: nat): nat {
    if m == 1 then (if Leap(year) then 29 else 28)
    else if m == 3 || m == 5 || m == 8 || m == 10 then 30
    else 31
  }

  function YearDays(year: int): nat { if Leap(year) then 366 else 365 }

  /** Days of a year before its month m. */
  function DaysBefore(leap: bool, m: nat): nat {
    if m == 0 then 0
    else if m == 1 then 31
    else
      (if leap then 1 else 0) +
      (if m == 2 then 59 else if m == 3 then 90 else if m == 4 then 120 else if m == 5 then 151
       else if m == 6 then 181 else if m == 7 then 212 else if m == 8 then 243 else if m == 9 then 273
       else if m == 10 then 304 else 334)
  }

  /** Days from 1970-01-01 to the first day of the year 1970 + k. */
  function YearStart(k: nat): nat {
    if k == 0 then 0 else YearStart(k - 1) + YearDays(1970 + k - 1)
  }

  /** Days from 1970-01-01 to the first of month m, months counted from January 1970. */
  function MonthStart(m: nat): nat {
    YearStart(m / 12) + DaysBefore(Leap(1970 + m / 12), m % 12)
  }

  /** Month by month the starts move on by the lengths of the months. */
  lemma NextMonth(m: nat)
    ensures MonthStart(m + 1) == MonthStart(m) + MonthDays(1970 + m / 12, m % 12)
    ensures MonthStart(m + 1) > MonthStart(m)
  {
    if m % 12 == 11 {
      DivMod(m + 1, 12, m / 12 + 1, 0);
    } else {
      DivMod(m + 1, 12, m / 12, m % 12 + 1);
    }
  }

  lemma January(k: nat)
    ensures MonthStart(12 * k) == YearStart(k)
  {
    DivMod(12 * k, 12, k, 0);
  }

  lemma {:induction false} LaterMonth(a: nat, b: nat)
    requires a <= b
    ensures MonthStart(a) <= MonthStart(b)
  {
    if a < b {
      LaterMonth(a, b - 1);
      NextMonth(b - 1);
    }
  }

  /** A month lies within its year. */
  lemma MonthInYear(m: nat)
    ensures YearStart(m / 12) <= MonthStart(m) && MonthStart(m + 1) <= YearStart(m / 12 + 1)
  {
    var k := m / 12;
    January(k);
    January(k + 1);
    LaterMonth(12 * k, m);
    LaterMonth(m + 1, 12 * (k + 1));
  }

  predicate InMonth(day: int, m: nat) { MonthStart(m) <= day < MonthStart(m + 1) }

  /** The month a day lies in. */
  function MonthOf(day: nat): (m: nat)
    ensures InMonth(day, m)
  {
    MonthFrom(day, 0)
  }

  function MonthFrom(day: nat, m: nat): (r: nat)
    requires MonthStart(m) <= day
    ensures InMonth(day, r)
    decreases day - MonthStart(m)
  {
    NextMonth(m);
    if day < MonthStart(m + 1) then m else MonthFrom(day, m + 1)
  }

  lemma MonthIsUnique(day: int, m: nat, n: nat)
    requires InMonth(day, m) && InMonth(day, n)
    ensures m == n
  {
    if m < n {
      LaterMonth(m + 1, n);
    }
    if n < m {
      LaterMonth(n + 1, m);
    }
  }

  // ---- years ----------------------------------------------------------------------------------

  /** Leap years from year 1 through `year`. */
  function LeapsThrough(year: int): int { year / 4 - year / 100 + year / 400 }

  /** The closed form: 365 days a year and one more for every leap year. */
  lemma {:induction false} YearStartClosed(k: nat)
    ensures YearStart(k) == 365 * k + LeapsThrough(1969 + k) - LeapsThrough(1969)
  {
    if k > 0 {
      YearStartClosed(k - 1);
      LeapStep(1969 + k);
    }
  }

  lemma LeapStep(year: int)
    ensures LeapsThrough(year) == LeapsThrough(year - 1) + if Leap(year) then 1 else 0
  {
    Multiples(year, 4);
    Multiples(year, 100);
    Multiples(year, 400);
  }

  /** One more multiple of d when the number itself is one. */
  lemma Multiples(n: int, d: int)
    requires d > 1
    ensures n / d == (n - 1) / d + if n % d == 0 then 1 else 0
  {
    var q, r := n / d, n % d;
    assert n == d * q + r;
    if r == 0 {
      DivMod(n - 1, d, q - 1, d - 1);
    } else {
      DivMod(n - 1, d, q, r - 1);
    }
  }

  lemma DivMod(n: int, d: int, q: int, r: int)
    requires 0 <= r < d && n == d * q + r
    ensures n / d == q && n % d == r
  {
    var k, rest := n / d - q, n % d;
    assert n == d * (q + k) + rest;
    assert d * (q + k) == d * q + d * k;
    assert d * k == r - rest;
    Small(d, k);
  }

  /** A multiple of d strictly between -d and d is zero. */
  lemma Small(d: int, k: int)
    requires -d < d * k < d
    ensures k == 0
  {
    assert k >= 1 ==> d * (k - 1) >= 0;
    assert k <= -1 ==> d * (k + 1) <= 0;
  }

  lemma LeapsRepeat(year: int)
    ensures LeapsThrough(year + 400) == LeapsThrough(year) + 97
  {
    DivMod(year + 400, 4, year / 4 + 100, year % 4);
    DivMod(year + 400, 100, year / 100 + 4, year % 100);
    DivMod(year + 400, 400, year / 400 + 1, year % 400);
  }

  /** Gauss's rule for the weekday of New Year's Day, Monday counting as 0. */
  lemma NewYearsWeekday(k: nat)
    ensures var n := 1969 + k;
            Weekday(DAY * YearStart(k)) == (5 * (n % 4) + 4 * (n % 100) + 6 * (n % 400)) % 7
  {
    var n := 1969 + k;
    var day, leaps := YearStart(k), LeapsThrough(n);
    YearStartClosed(k);
    DivMod(DAY * day, DAY, day, 0);
    LeapsThrough1969();
    assert day == 365 * k + leaps - 477;
    WeeksBetween(n, n / 4, n / 100, n / 400, n % 4, n % 100, n % 400, day);
  }

  lemma LeapsThrough1969()
    ensures LeapsThrough(1969) == 477
  {
  }

  lemma WeeksBetween(n: int, q: int, c: int, f: int, a: int, b: int, d: int, day: int)
    requires n == 4 * q + a == 100 * c + b == 400 * f + d && day == 365 * (n - 1969) + (q - c + f) - 477
    ensures (day + 3) % 7 == (5 * a + 4 * b + 6 * d) % 7
  {
    var gauss, weeks := 5 * a + 4 * b + 6 * d, 52 * n - a - d - q + 57 * c - 57 * f - 102_737;
    assert day + 3 == gauss + 7 * weeks;
    DivMod(day + 3, 7, gauss / 7 + weeks, gauss % 7);
  }

  /** The calendar repeats every 400 years, weekdays included. */
  lemma FourCenturies(k: nat)
    ensures YearStart(k + 400) == YearStart(k) + 146_097
    ensures Weekday(DAY * YearStart(k + 400)) == Weekday(DAY * YearStart(k))
  {
    YearStartClosed(k);
    YearStartClosed(k + 400);
    LeapsRepeat(1969 + k);
    SameWeekday(YearStart(k), YearStart(k + 400));
  }

  lemma SameWeekday(a: int, b: int)
    requires b == a + 146_097
    ensures Weekday(DAY * b) == Weekday(DAY * a)
  {
    assert b + 3 == a + 3 + 7 * 20_871;
  }

  // ---- dates ------------------------------------------------------------------------------------

  /** Days since the epoch, for times before it too. */
  function DayOf(t: int): int { t / DAY }

  /** The weekday, 0 for Monday: day 0 is a Thursday. */
  function Weekday(t: int): int { (DayOf(t) + 3) % 7 }

  /** Adding months keeps the day of the month and the time of day; a day past the end of the
      new month runs on into the next. */
  function AddMonths(t: int, n: nat): int
    requires t >= 0
  {
    var m := MonthOf(DayOf(t));
    DAY * (MonthStart(m + n) + DayOf(t) - MonthStart(m)) + t % DAY
  }

  lemma FirstOfMonth(m: nat)
    ensures MonthOf(DayOf(DAY * MonthStart(m))) == m
  {
    NextMonth(m);
    MonthIsUnique(MonthStart(m), MonthOf(MonthStart(m)), m);
  }

  /** From the first of a month the first of a later one. */
  lemma AddMonthsToFirst(m: nat, n: nat)
    ensures AddMonths(DAY * MonthStart(m), n) == DAY * MonthStart(m + n)
  {
    FirstOfMonth(m);
  }
}
