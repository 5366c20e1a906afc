/** Proleptic Gregorian calendar dates and their position on a day count whose
    day 0 is 1970-01-01. A JavaScript `Date` built from a local date string at
    midnight is modelled by `EpochMs` of that date, in local time without
    daylight-saving shifts. */
module Calendar {

  const MsPerDay := 86400000

  datatype Date = Date(year: int, month: int, day: int)

  predicate IsLeapYear(y: int) {
    y % 4 == 0 && (y % 100 != 0 || y % 400 == 0)
  }

  function DaysInYear(y: int): int {
    if IsLeapYear(y) then 366 else 365
  }

  function DaysInMonth(y: int, m: int): (n: int)
    requires 1 <= m <= 12
    ensures 28 <= n <= 31
    ensures n == 29 <==> m == 2 && IsLeapYear(y)
  {
    match m
    case 2 => if IsLeapYear(y) then 29 else 28
    case 4 | 6 | 9 | 11 => 30
    case _ => 31
  }

  /** A real calendar date: a month of the year and a day of that month. */
  predicate ValidDate(d: Date) {
    1 <= d.month <= 12 && 1 <= d.day <= DaysInMonth(d.year, d.month)
  }

  /** Lexicographic order on (year, month, day): "a is an earlier date than b". */
  predicate Before(a: Date, b: Date) {
    a.year < b.year
    || (a.year == b.year && a.month < b.month)
    || (a.year == b.year && a.month == b.month && a.day < b.day)
  }

  /** Leap years among 1..n (counted with floor division for n < 0 as well). */
  function LeapYearsThrough(n: int): int {
    n / 4 - n / 100 + n / 400
  }

  /** Days from 1970-01-01 to January 1st of year `y`. */
  function DaysBeforeYear(y: int): int {
    365 * (y - 1970) + LeapYearsThrough(y - 1) - LeapYearsThrough(1969)
  }

  /** Days from January 1st to the first of month `m`. */
  function DaysBeforeMonth(y: int, m: int): int
    requires 1 <= m <= 12
  {
    var common :=
      match m
      case 1 => 0   case 2 => 31  case 3 => 59   case 4 => 90
      case 5 => 120 case 6 => 151 case 7 => 181  case 8 => 212
      case 9 => 243 case 10 => 273 case 11 => 304 case _ => 334;
    if m > 2 && IsLeapYear(y) then common + 1 else common
  }

  /** Days from 1970-01-01 to `d`. */
  function EpochDay(d: Date): int
    requires 1 <= d.month <= 12
  {
    DaysBeforeYear(d.year) + DaysBeforeMonth(d.year, d.month) + d.day - 1
  }

  /** `getTime()` of the date at local midnight: a whole number of days
      after the epoch, the day being the date's own day count. */
  function EpochMs(d: Date): (ms: int)
    requires 1 <= d.month <= 12
    ensures ms % MsPerDay == 0 && ms / MsPerDay == EpochDay(d)
  {
    EpochDay(d) * MsPerDay
  }

  /** One more year adds that year's length. */
  lemma YearStep(y: int)
    ensures DaysBeforeYear(y + 1) == DaysBeforeYear(y) + DaysInYear(y)
  {
    MultiplesStep(y, 4);
    MultiplesStep(y, 100);
    MultiplesStep(y, 400);
  }

  /** Going from `y - 1` to `y` adds one multiple of `k` exactly when `k` divides `y`. */
  lemma MultiplesStep(y: int, k: int)
    requires k == 4 || k == 100 || k == 400
    ensures y / k - (y - 1) / k == if y % k == 0 then 1 else 0
  {
    var q, r := (y - 1) / k, (y - 1) % k;
    if k == 4 {
      assert y - 1 == 4 * q + r && 0 <= r < 4;
      if r == 3 { assert y == 4 * (q + 1); } else { assert y == 4 * q + (r + 1); }
    } else if k == 100 {
      assert y - 1 == 100 * q + r && 0 <= r < 100;
      if r == 99 { assert y == 100 * (q + 1); } else { assert y == 100 * q + (r + 1); }
    } else {
      assert y - 1 == 400 * q + r && 0 <= r < 400;
      if r == 399 { assert y == 400 * (q + 1); } else { assert y == 400 * q + (r + 1); }
    }
  }

  /** Later years start later: every year before `z` ends no later than `z` begins. */
  lemma {:induction false} YearsAscend(y: int, z: int)
    requires y < z
    ensures DaysBeforeYear(y) + DaysInYear(y) <= DaysBeforeYear(z)
    decreases z - y
  {
    YearStep(y);
    if y + 1 < z {
      YearsAscend(y + 1, z);
      YearStep(y + 1);
    }
  }

  /** One more month adds that month's length. */
  lemma MonthStep(y: int, m: int)
    requires 1 <= m < 12
    ensures DaysBeforeMonth(y, m + 1) == DaysBeforeMonth(y, m) + DaysInMonth(y, m)
  {
  }

  lemma {:induction false} MonthsAscend(y: int, m: int, n: int)
    requires 1 <= m < n <= 12
    ensures DaysBeforeMonth(y, m) + DaysInMonth(y, m) <= DaysBeforeMonth(y, n)
    decreases n - m
  {
    MonthStep(y, m);
    if m + 1 < n {
      MonthsAscend(y, m + 1, n);
    }
  }

  /** A valid date falls inside its own year. */
  lemma WithinYear(d: Date)
    requires ValidDate(d)
    ensures DaysBeforeYear(d.year) <= EpochDay(d) < DaysBeforeYear(d.year) + DaysInYear(d.year)
  {
    if d.month < 12 {
      MonthsAscend(d.year, d.month, 12);
    }
  }

  /** The day count, and so `getTime()` of local midnight, is strictly
      increasing along the calendar order. */
  lemma EpochDayAscends(a: Date, b: Date)
    requires ValidDate(a) && ValidDate(b) && Before(a, b)
    ensures EpochDay(a) < EpochDay(b)
    ensures EpochMs(a) < EpochMs(b)
  {
    if a.year < b.year {
      WithinYear(a);
      WithinYear(b);
      YearsAscend(a.year, b.year);
    } else if a.month < b.month {
      MonthsAscend(a.year, a.month, b.month);
    }
  }

  /** Two valid dates denote the same day exactly when they are the same date;
      so comparing `getTime()` of two local midnights compares calendar dates. */
  lemma EpochDayInjective(a: Date, b: Date)
    requires ValidDate(a) && ValidDate(b)
    ensures EpochDay(a) == EpochDay(b) <==> a == b
    ensures EpochMs(a) == EpochMs(b) <==> a == b
  {
    if Before(a, b) {
      EpochDayAscends(a, b);
    } else if Before(b, a) {
      EpochDayAscends(b, a);
    }
  }
}
