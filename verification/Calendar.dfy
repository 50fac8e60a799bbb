/** The conversion of a broken-down date and time to seconds since 1970-01-01. */
module Calendar {

  // ---- The Gregorian calendar, counted day by day ----

  predicate IsLeap(year: int) {
    year % 4 == 0 && (year % 100 != 0 || year % 400 == 0)
  }

  function DaysInYear(year: int): nat { if IsLeap(year) then 366 else 365 }

  /** Months are numbered from 0 for January. */
  function DaysInMonth(year: int, month: nat): nat
    requires month < 12
  {
    if month == 1 then (if IsLeap(year) then 29 else 28)
    else if month in {3, 5, 8, 10} then 30
    else 31
  }

  datatype Date = Date(year: int, month: nat, day: nat)

  ghost predicate Valid(d: Date) {
    d.month < 12 && 1 <= d.day <= DaysInMonth(d.year, d.month)
  }

  /** Days from 1970-01-01 to the first of January. */
  function YearStart(year: int): int
    decreases if year < 1970 then 1970 - year else year - 1970
  {
    if year == 1970 then 0
    else if year > 1970 then YearStart(year - 1) + DaysInYear(year - 1)
    else YearStart(year + 1) - DaysInYear(year)
  }

  /** Days from the first of January to the first of a month. */
  function MonthStart(year: int, month: nat): nat
    requires month < 12
  {
    if month == 0 then 0 else MonthStart(year, month - 1) + DaysInMonth(year, month - 1)
  }

  function YearDay(d: Date): int
    requires d.month < 12
  {
    MonthStart(d.year, d.month) + d.day - 1
  }

  /** Days from 1970-01-01. */
  function DayNumber(d: Date): int
    requires d.month < 12
  {
    YearStart(d.year) + YearDay(d)
  }

  function NextDay(d: Date): (n: Date)
    requires Valid(d)
    ensures Valid(n)
  {
    if d.day < DaysInMonth(d.year, d.month) then d.(day := d.day + 1)
    else if d.month < 11 then Date(d.year, d.month + 1, 1)
    else Date(d.year + 1, 0, 1)
  }

  predicate Earlier(d: Date, e: Date) {
    d.year < e.year || (d.year == e.year && (d.month < e.month || (d.month == e.month && d.day < e.day)))
  }

  // ---- The conversion ----

  /** A broken-down time, its year counted from 1900. */
  datatype Tm = Tm(tmYear: int, tmMon: nat, tmMday: nat, tmHour: int, tmMin: int, tmSec: int)

  /** Integer division as in C: towards zero. */
  function TDiv(a: int, b: int): int
    requires b > 0
  {
    if a >= 0 then a / b else -(-a / b)
  }

  const DAYS_BEFORE_MONTH: seq<int> := [0, 31, 59, 90, 120, 151, 181, 212, 243, 273, 304, 334]

  function GmMktime(tm: Tm): int
    requires tm.tmMon < 12
  {
    var year := 1900 + tm.tmYear;
    var yearMinusOne := year - 1;
    var daysBeforeThisYear := yearMinusOne * 365
      + (TDiv(yearMinusOne, 4) - TDiv(yearMinusOne, 100) + TDiv(yearMinusOne, 400)) - 719162;
    var daysBeforeThisMonth := DAYS_BEFORE_MONTH[tm.tmMon]
      + if tm.tmMon >= 2 && year % 4 == 0 && (year % 100 != 0 || year % 400 == 0) then 1 else 0;
    var daysBeforeToday := tm.tmMday - 1;
    (daysBeforeThisYear + daysBeforeThisMonth + daysBeforeToday) * 86400
      + tm.tmHour * 3600 + tm.tmMin * 60 + tm.tmSec
  }

  function DateOf(tm: Tm): Date { Date(1900 + tm.tmYear, tm.tmMon, tm.tmMday) }

  function TimeOfDay(tm: Tm): int { tm.tmHour * 3600 + tm.tmMin * 60 + tm.tmSec }

  ghost predicate ValidTm(tm: Tm) {
    Valid(DateOf(tm)) && 0 <= tm.tmHour < 24 && 0 <= tm.tmMin < 60 && 0 <= tm.tmSec < 60
  }

  // ---- Closed forms of the counts ----

  lemma DivStep(n: int)
    ensures n / 4 == (n - 1) / 4 + if n % 4 == 0 then 1 else 0
    ensures n / 100 == (n - 1) / 100 + if n % 100 == 0 then 1 else 0
    ensures n / 400 == (n - 1) / 400 + if n % 400 == 0 then 1 else 0
  {
  }

  lemma LeapRule(n: int)
    ensures n % 400 == 0 ==> n % 100 == 0
    ensures n % 100 == 0 ==> n % 4 == 0
  {
    if n % 400 == 0 {
      DivIs(n, 100, 4 * (n / 400), 0);
    }
    if n % 100 == 0 {
      DivIs(n, 4, 25 * (n / 100), 0);
    }
  }

  /** Leap days before the first of January of year n + 1, up to a constant. */
  function LeapDays(n: int): int { n / 4 - n / 100 + n / 400 }

  lemma LeapDaysStep(n: int)
    ensures LeapDays(n) == LeapDays(n - 1) + if IsLeap(n) then 1 else 0
  {
    DivStep(n);
    LeapRule(n);
  }

  lemma {:induction false} YearStartClosed(year: int)
    ensures YearStart(year) == (year - 1) * 365 + LeapDays(year - 1) - 719162
    decreases if year < 1970 then 1970 - year else year - 1970
  {
    if year == 1970 {
    } else if year > 1970 {
      YearStartClosed(year - 1);
      LeapDaysStep(year - 1);
    } else {
      YearStartClosed(year + 1);
      LeapDaysStep(year);
    }
  }

  lemma TDivRoundsUp(n: int, k: int)
    requires k > 0
    ensures TDiv(n, k) == n / k + if n < 0 && n % k != 0 then 1 else 0
  {
    if n < 0 {
      var q, r := -n / k, -n % k;
      assert n == k * -q - r;
      if r == 0 {
        DivIs(n, k, -q, 0);
      } else {
        DivIs(n, k, -q - 1, k - r);
      }
    }
  }

  lemma DivIs(n: int, k: int, q: int, r: int)
    requires 0 <= r < k && n == k * q + r
    ensures n / k == q && n % k == r
  {
    var d := n / k - q;
    assert k * (n / k) + n % k == k * q + r;
    assert k * d == r - n % k;
    assert d >= 1 ==> k * d >= k;
    assert d <= -1 ==> k * d <= -k;
  }

  /** Truncation is a day off exactly when it rounds up, for a year before 1 that does not follow a leap year. */
  lemma TruncatedLeapDays(n: int)
    ensures TDiv(n, 4) - TDiv(n, 100) + TDiv(n, 400) == LeapDays(n) + if n < 0 && !IsLeap(n) then 1 else 0
  {
    TDivRoundsUp(n, 4);
    TDivRoundsUp(n, 100);
    TDivRoundsUp(n, 400);
    LeapRule(n);
  }

  lemma {:induction false} MonthTable(year: int, month: nat)
    requires month < 12
    ensures MonthStart(year, month) == DAYS_BEFORE_MONTH[month] + if month >= 2 && IsLeap(year) then 1 else 0
  {
    if month > 0 {
      MonthTable(year, month - 1);
    }
  }

  // ---- Correctness ----

  /** What the conversion gives for any year: the counted days, one more in the years where truncation rounds up. */
  lemma MktimeValue(tm: Tm)
    requires tm.tmMon < 12
    ensures var d := DateOf(tm);
            GmMktime(tm) == 86400 * (DayNumber(d) + if d.year < 1 && !IsLeap(d.year - 1) then 1 else 0) + TimeOfDay(tm)
  {
    var d := DateOf(tm);
    YearStartClosed(d.year);
    TruncatedLeapDays(d.year - 1);
    MonthTable(d.year, d.month);
  }

  /** The conversion counts the seconds of the calendar exactly for the years from 1 on and those after a leap year. */
  lemma MktimeCountsIff(tm: Tm)
    requires tm.tmMon < 12
    ensures GmMktime(tm) == 86400 * DayNumber(DateOf(tm)) + TimeOfDay(tm)
       <==> 1900 + tm.tmYear >= 1 || IsLeap(1900 + tm.tmYear - 1)
  {
    MktimeValue(tm);
  }

  /** The formula of POSIX.1-2017, Base Definitions, section 4.16, which is stated for years from 1970 on. */
  lemma MktimeIsPosix(tm: Tm)
    requires tm.tmMon < 12 && tm.tmYear >= 70
    ensures var tmYday := YearDay(DateOf(tm));
            GmMktime(tm) == tm.tmSec + tm.tmMin * 60 + tm.tmHour * 3600 + tmYday * 86400
                          + (tm.tmYear - 70) * 31536000 + ((tm.tmYear - 69) / 4) * 86400
                          - ((tm.tmYear - 1) / 100) * 86400 + ((tm.tmYear + 299) / 400) * 86400
  {
    MktimeValue(tm);
    var y := tm.tmYear;
    YearStartClosed(1900 + y);
    PosixLeapDays(y);
  }

  lemma PosixLeapDays(y: int)
    ensures LeapDays(1899 + y) == (y - 69) / 4 - (y - 1) / 100 + (y + 299) / 400 + 477
  {
    assert 1899 + y == y - 69 + 4 * 492;
    assert 1899 + y == y - 1 + 100 * 19;
    assert 1899 + y == y + 299 + 400 * 4;
  }

  // ---- Order and succession of days ----

  lemma MonthsFillYear(year: int)
    ensures MonthStart(year, 11) + DaysInMonth(year, 11) == DaysInYear(year)
  {
    MonthTable(year, 11);
  }

  lemma NextDayIsNext(d: Date)
    requires Valid(d)
    ensures DayNumber(NextDay(d)) == DayNumber(d) + 1
  {
    MonthsFillYear(d.year);
    YearFollows(d.year);
  }

  lemma YearFollows(year: int)
    ensures YearStart(year + 1) == YearStart(year) + DaysInYear(year)
  {
    YearStartClosed(year);
    YearStartClosed(year + 1);
    LeapDaysStep(year);
  }

  lemma {:induction false} MonthBefore(year: int, month: nat, later: nat)
    requires month < later < 12
    ensures MonthStart(year, month) + DaysInMonth(year, month) <= MonthStart(year, later)
  {
    if month + 1 < later {
      MonthBefore(year, month, later - 1);
    }
  }

  lemma {:induction false} YearBefore(year: int, later: int)
    requires year < later
    ensures YearStart(year) + DaysInYear(year) <= YearStart(later)
    decreases later - year
  {
    YearFollows(later - 1);
    if year < later - 1 {
      YearBefore(year, later - 1);
    }
  }

  lemma WithinYear(d: Date)
    requires Valid(d)
    ensures 0 <= YearDay(d) < DaysInYear(d.year)
  {
    if d.month < 11 {
      MonthBefore(d.year, d.month, 11);
    }
    MonthsFillYear(d.year);
  }

  lemma EarlierIsLess(d: Date, e: Date)
    requires Valid(d) && Valid(e) && Earlier(d, e)
    ensures DayNumber(d) < DayNumber(e)
  {
    if d.year < e.year {
      YearBefore(d.year, e.year);
      WithinYear(d);
      WithinYear(e);
    } else if d.month < e.month {
      MonthBefore(d.year, d.month, e.month);
    }
  }

  /** A day later is 86400 seconds later, over every month, leap-year and century boundary. */
  lemma NextDayAdvances(tm: Tm, next: Tm)
    requires ValidTm(tm) && 1900 + tm.tmYear >= 1
    requires DateOf(next) == NextDay(DateOf(tm)) && TimeOfDay(next) == TimeOfDay(tm)
    ensures GmMktime(next) == GmMktime(tm) + 86400
  {
    NextDayIsNext(DateOf(tm));
    MktimeValue(tm);
    MktimeValue(next);
  }

  lemma TimeOfDayOrder(a: Tm, b: Tm)
    requires ValidTm(a) && ValidTm(b)
    ensures 0 <= TimeOfDay(a) < 86400
    ensures TimeOfDay(a) == TimeOfDay(b) ==> a.tmHour == b.tmHour && a.tmMin == b.tmMin && a.tmSec == b.tmSec
  {
  }

  /** Later broken-down times have larger values, and only they: the conversion orders time and merges no two times. */
  lemma MktimeOrders(a: Tm, b: Tm)
    requires ValidTm(a) && ValidTm(b) && 1900 + a.tmYear >= 1 && 1900 + b.tmYear >= 1
    ensures GmMktime(a) < GmMktime(b)
       <==> Earlier(DateOf(a), DateOf(b)) || (DateOf(a) == DateOf(b) && TimeOfDay(a) < TimeOfDay(b))
    ensures GmMktime(a) == GmMktime(b) ==> a == b
  {
    MktimeValue(a);
    MktimeValue(b);
    TimeOfDayOrder(a, b);
    TimeOfDayOrder(b, a);
    var d, e := DateOf(a), DateOf(b);
    if Earlier(d, e) {
      EarlierIsLess(d, e);
    } else if Earlier(e, d) {
      EarlierIsLess(e, d);
    } else {
      assert d == e;
    }
  }

  /** The date a number of days after 1970-01-01. */
  function DateAt(days: nat): (d: Date)
    ensures Valid(d) && d.year >= 1970
  {
    if days == 0 then Date(1970, 0, 1) else NextDay(DateAt(days - 1))
  }

  lemma {:induction false} DateAtCounts(days: nat)
    ensures DayNumber(DateAt(days)) == days
  {
    if days > 0 {
      DateAtCounts(days - 1);
      NextDayIsNext(DateAt(days - 1));
    }
  }

  function TmAt(seconds: nat): Tm {
    var d, s := DateAt(seconds / 86400), seconds % 86400;
    Tm(d.year - 1900, d.month, d.day, s / 3600, s / 60 % 60, s % 60)
  }

  lemma ClockParts(s: nat)
    requires s < 86400
    ensures 0 <= s / 3600 < 24 && 0 <= s / 60 % 60 < 60 && 0 <= s % 60 < 60
    ensures s / 3600 * 3600 + s / 60 % 60 * 60 + s % 60 == s
  {
    assert s / 60 / 60 == s / 3600;
  }

  lemma SecondsOfDay(seconds: nat)
    ensures seconds == 86400 * (seconds / 86400) + seconds % 86400 && seconds % 86400 < 86400
  {
  }

  lemma TmAtIs(seconds: nat, days: nat, s: nat)
    requires days == seconds / 86400 && s == seconds % 86400
    ensures ValidTm(TmAt(seconds)) && DateOf(TmAt(seconds)) == DateAt(days) && TimeOfDay(TmAt(seconds)) == s
  {
    ClockParts(s);
  }

  lemma TmAtCounts(seconds: nat)
    ensures ValidTm(TmAt(seconds)) && DateOf(TmAt(seconds)).year >= 1970 && GmMktime(TmAt(seconds)) == seconds
  {
    var days, s := seconds / 86400, seconds % 86400;
    SecondsOfDay(seconds);
    TmAtIs(seconds, days, s);
    DateAtCounts(days);
    MktimeValue(TmAt(seconds));
  }

  /** Every second from 1970 on is the value of exactly one valid broken-down time. */
  lemma MktimeReachesAll(seconds: nat, tm: Tm)
    requires ValidTm(tm) && 1900 + tm.tmYear >= 1
    ensures ValidTm(TmAt(seconds))
    ensures GmMktime(tm) == seconds <==> tm == TmAt(seconds)
  {
    TmAtCounts(seconds);
    if GmMktime(tm) == seconds {
      MktimeOrders(tm, TmAt(seconds));
    }
  }
}
