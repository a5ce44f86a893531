/** The proleptic Gregorian calendar as Python's `datetime.date` implements it:
    dates are (year, month, day) triples, ordered lexicographically, and
    `date + timedelta(days = n)` is defined through the day ordinal
    (`toordinal`), with years restricted to 1..9999. */
module Calendar {
  import opened Wrappers

  datatype Date = Date(year: int, month: int, day: int)

  const MinYear: int := 1
  const MaxYear: int := 9999
  /** The ordinal of 9999-12-31, the last date Python's `date` represents. */
  const MaxOrdinal: int := 3652059

  predicate IsLeapYear(y: int) {
    y % 4 == 0 && (y % 100 != 0 || y % 400 == 0)
  }

  function DaysInYear(y: int): int {
    if IsLeapYear(y) then 366 else 365
  }

  function DaysInMonth(y: int, m: int): (n: int)
    requires 1 <= m <= 12
    ensures 28 <= n <= 31
  {
    if m == 2 then (if IsLeapYear(y) then 29 else 28)
    else if m == 4 || m == 6 || m == 9 || m == 11 then 30
    else 31
  }

  /** A real month and a day that month has, in any year. */
  predicate WellFormed(d: Date) {
    1 <= d.month <= 12 && 1 <= d.day <= DaysInMonth(d.year, d.month)
  }

  /** The year range of Python's `date` (MINYEAR..MAXYEAR). */
  predicate InRange(d: Date) {
    MinYear <= d.year <= MaxYear
  }

  /** A value Python's `date` can hold. */
  predicate IsValid(d: Date) {
    WellFormed(d) && InRange(d)
  }

  /** Strict date order: Python compares dates as (year, month, day) tuples, and the
      SQL queries compare the zero-padded ISO strings, which orders them the same way. */
  predicate Before(a: Date, b: Date) {
    a.year < b.year
    || (a.year == b.year && (a.month < b.month || (a.month == b.month && a.day < b.day)))
  }

  predicate AtOrBefore(a: Date, b: Date) {
    !Before(b, a)
  }

  lemma BeforeTransitive(a: Date, b: Date, c: Date)
    requires Before(a, b) && Before(b, c)
    ensures Before(a, c)
  {
  }

  /** Days in the years before `y` (Python's `_days_before_year`). */
  function DaysBeforeYear(y: int): int {
    var k := y - 1;
    k * 365 + k / 4 - k / 100 + k / 400
  }

  /** Days in the months of year `y` before month `m` (Python's `_days_before_month`). */
  function DaysBeforeMonth(y: int, m: int): int
    requires 1 <= m <= 12
  {
    var common :=
      match m
      case 1 => 0 case 2 => 31 case 3 => 59 case 4 => 90
      case 5 => 120 case 6 => 151 case 7 => 181 case 8 => 212
      case 9 => 243 case 10 => 273 case 11 => 304 case _ => 334;
    common + (if m > 2 && IsLeapYear(y) then 1 else 0)
  }

  /** The day number of a date, 0001-01-01 being day 1 (Python's `toordinal`). */
  function Ordinal(d: Date): int
    requires WellFormed(d)
  {
    DaysBeforeYear(d.year) + DaysBeforeMonth(d.year, d.month) + d.day
  }

  /** Floor division by 4, 100 and 400 goes up by one exactly when a multiple is reached. */
  lemma FloorSteps(k: int)
    ensures (k + 1) / 4 == k / 4 + (if (k + 1) % 4 == 0 then 1 else 0)
    ensures (k + 1) / 100 == k / 100 + (if (k + 1) % 100 == 0 then 1 else 0)
    ensures (k + 1) / 400 == k / 400 + (if (k + 1) % 400 == 0 then 1 else 0)
  {
  }

  lemma YearStep(y: int)
    ensures DaysBeforeYear(y + 1) == DaysBeforeYear(y) + DaysInYear(y)
  {
    FloorSteps(y - 1);
    MultiplesNest(y);
    var k := y - 1;
    assert DaysBeforeYear(y + 1) == y * 365 + y / 4 - y / 100 + y / 400;
    assert DaysBeforeYear(y) == k * 365 + k / 4 - k / 100 + k / 400;
    if y % 400 == 0 {
      assert DaysInYear(y) == 366;
    } else if y % 100 == 0 {
      assert DaysInYear(y) == 365;
    } else if y % 4 == 0 {
      assert DaysInYear(y) == 366;
    } else {
      assert DaysInYear(y) == 365;
    }
  }

  /** A multiple of 400 is a multiple of 100, and a multiple of 100 one of 4. */
  lemma MultiplesNest(y: int)
    ensures y % 400 == 0 ==> y % 100 == 0
    ensures y % 100 == 0 ==> y % 4 == 0
  {
    if y % 400 == 0 {
      var t := 4 * (y / 400) - y / 100;
      assert y % 100 == 100 * t;
    }
    if y % 100 == 0 {
      var t := 25 * (y / 100) - y / 4;
      assert y % 4 == 4 * t;
    }
  }

  lemma MonthStep(y: int, m: int)
    requires 1 <= m <= 12
    ensures m < 12 ==> DaysBeforeMonth(y, m + 1) == DaysBeforeMonth(y, m) + DaysInMonth(y, m)
    ensures m == 12 ==> DaysBeforeMonth(y, m) + DaysInMonth(y, m) == DaysInYear(y)
  {
  }

  /** The first day of the month after the one `d` lies in. */
  function FirstOfNextMonth(d: Date): (r: Date)
    requires WellFormed(d)
    ensures WellFormed(r) && r.day == 1 && Before(d, r)
    ensures Ordinal(r) == Ordinal(d) + DaysInMonth(d.year, d.month) - d.day + 1
  {
    MonthStep(d.year, d.month);
    if d.month == 12 then
      YearStep(d.year);
      Date(d.year + 1, 1, 1)
    else
      Date(d.year, d.month + 1, 1)
  }

  /** The last day of the month before the one `d` lies in. */
  function LastOfPreviousMonth(d: Date): (r: Date)
    requires WellFormed(d)
    ensures WellFormed(r) && Before(r, d)
    ensures Ordinal(r) == Ordinal(d) - d.day
  {
    if d.month == 1 then
      YearStep(d.year - 1);
      MonthStep(d.year - 1, 12);
      Date(d.year - 1, 12, 31)
    else
      MonthStep(d.year, d.month - 1);
      Date(d.year, d.month - 1, DaysInMonth(d.year, d.month - 1))
  }

  /** `d + timedelta(days = n)` without the range check: the date whose ordinal is
      `n` more than `d`'s, reached a month at a time. */
  function AddDays(d: Date, n: int): (r: Date)
    requires WellFormed(d)
    ensures WellFormed(r)
    ensures Ordinal(r) == Ordinal(d) + n
    ensures n > 0 ==> Before(d, r)
    ensures n < 0 ==> Before(r, d)
    decreases if n >= 0 then n else -n
  {
    if n == 0 then d
    else if n > 0 then
      if d.day + n <= DaysInMonth(d.year, d.month) then Date(d.year, d.month, d.day + n)
      else AddDays(FirstOfNextMonth(d), n - (DaysInMonth(d.year, d.month) - d.day + 1))
    else
      if d.day + n >= 1 then Date(d.year, d.month, d.day + n)
      else AddDays(LastOfPreviousMonth(d), n + d.day)
  }

  lemma {:induction false} DaysBeforeYearMonotone(a: int, b: int)
    requires a <= b
    ensures DaysBeforeYear(a) <= DaysBeforeYear(b)
    decreases b - a
  {
    if a < b {
      YearStep(a);
      DaysBeforeYearMonotone(a + 1, b);
    }
  }

  /** A date's ordinal lies within the ordinals of its own year. */
  lemma OrdinalWithinYear(d: Date)
    requires WellFormed(d)
    ensures DaysBeforeYear(d.year) < Ordinal(d) <= DaysBeforeYear(d.year + 1)
  {
    YearStep(d.year);
  }

  /** The triple order and the ordinal order agree, and the ordinal identifies the date. */
  lemma OrdinalOrder(a: Date, b: Date)
    requires WellFormed(a) && WellFormed(b)
    ensures Before(a, b) <==> Ordinal(a) < Ordinal(b)
    ensures a == b <==> Ordinal(a) == Ordinal(b)
  {
    if a.year < b.year {
      OrdinalWithinYear(a);
      OrdinalWithinYear(b);
      DaysBeforeYearMonotone(a.year + 1, b.year);
    } else if b.year < a.year {
      OrdinalWithinYear(a);
      OrdinalWithinYear(b);
      DaysBeforeYearMonotone(b.year + 1, a.year);
    } else if a.month < b.month {
      MonthsBefore(a.year, a.month, b.month);
    } else if b.month < a.month {
      MonthsBefore(a.year, b.month, a.month);
    }
  }

  lemma MonthsBefore(y: int, m: int, m': int)
    requires 1 <= m < m' <= 12
    ensures DaysBeforeMonth(y, m) + DaysInMonth(y, m) <= DaysBeforeMonth(y, m')
  {
  }

  /** Python's range check on `date + timedelta`: the result is representable exactly
      when its ordinal lies in 1..MaxOrdinal. */
  lemma InRangeByOrdinal(d: Date)
    requires WellFormed(d)
    ensures InRange(d) <==> 1 <= Ordinal(d) <= MaxOrdinal
  {
    OrdinalWithinYear(d);
    assert DaysBeforeYear(MinYear) == 0;
    assert DaysBeforeYear(MaxYear + 1) == MaxOrdinal;
    if d.year < MinYear {
      DaysBeforeYearMonotone(d.year + 1, MinYear);
    } else if d.year > MaxYear {
      DaysBeforeYearMonotone(MaxYear + 1, d.year);
    } else {
      DaysBeforeYearMonotone(MinYear, d.year);
      DaysBeforeYearMonotone(d.year + 1, MaxYear + 1);
    }
  }

  /** `d + timedelta(days = n)`: the date `n` days after (or before) `d`, or None where
      Python raises OverflowError because the result leaves years 1..9999. */
  function Shift(d: Date, n: int): (r: Option<Date>)
    requires WellFormed(d)
    ensures r.Some? <==> 1 <= Ordinal(d) + n <= MaxOrdinal
    ensures r.Some? ==> IsValid(r.value) && Ordinal(r.value) == Ordinal(d) + n
    ensures r.Some? && n > 0 ==> Before(d, r.value)
    ensures r.Some? && n < 0 ==> Before(r.value, d)
  {
    var e := AddDays(d, n);
    InRangeByOrdinal(e);
    if InRange(e) then Some(e) else None
  }

  /** The constructor `date(y, m, d)`: None where Python raises ValueError. */
  function MakeDate(y: int, m: int, d: int): (r: Option<Date>)
    ensures r.Some? <==> IsValid(Date(y, m, d))
    ensures r.Some? ==> r.value == Date(y, m, d)
  {
    if 1 <= m <= 12 && 1 <= d <= DaysInMonth(y, m) && MinYear <= y <= MaxYear then Some(Date(y, m, d))
    else None
  }
}
