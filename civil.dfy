/** Proleptic Gregorian calendar arithmetic over the years 1 to 9999, the
    range of Python's `datetime`. A date is numbered by its ordinal: day 1 is
    0001-01-01 (days-from-civil), and `FromOrdinal` is its inverse
    (civil-from-days). */
module Civil {

  const MinYear := 1
  const MaxYear := 9999

  datatype Date = Date(year: int, month: int, day: int)

  predicate IsLeapYear(y: int) {
    y % 4 == 0 && (y % 100 != 0 || y % 400 == 0)
  }

  function DaysInYear(y: int): int {
    if IsLeapYear(y) then 366 else 365
  }

  function DaysInMonth(y: int, m: int): (r: int)
    requires 1 <= m <= 12
    ensures 28 <= r <= 31
    ensures r == 29 <==> m == 2 && IsLeapYear(y)
  {
    if m == 2 then (if IsLeapYear(y) then 29 else 28)
    else if m == 4 || m == 6 || m == 9 || m == 11 then 30
    else 31
  }

  predicate ValidDate(d: Date) {
    MinYear <= d.year <= MaxYear && 1 <= d.month <= 12 && 1 <= d.day <= DaysInMonth(d.year, d.month)
  }

  /** Days in the years before `y`, counted from 0001-01-01. */
  function DaysBeforeYear(y: int): int
    requires y >= 1
  {
    var k := y - 1;
    k * 365 + k / 4 - k / 100 + k / 400
  }

  /** Days in the months of year `y` before month `m` (`m == 13` gives the whole year). */
  function DaysBeforeMonth(y: int, m: int): int
    requires 1 <= m <= 13
  {
    (367 * m - 362) / 12 - (if m <= 2 then 0 else if IsLeapYear(y) then 1 else 2)
  }

  /** The last ordinal of year 9999. */
  const MaxOrdinal := 3652059

  /** The closed form counts exactly one year length per year. */
  lemma DaysBeforeNextYear(y: int)
    requires y >= 1
    ensures DaysBeforeYear(y + 1) == DaysBeforeYear(y) + DaysInYear(y)
  {
    var k := y - 1;
    assert y / 4 - k / 4 == (if y % 4 == 0 then 1 else 0);
    assert y / 100 - k / 100 == (if y % 100 == 0 then 1 else 0);
    assert y / 400 - k / 400 == (if y % 400 == 0 then 1 else 0);
  }

  lemma {:induction false} DaysBeforeYearGrows(a: int, b: int)
    requires 1 <= a <= b
    ensures DaysBeforeYear(a) + 365 * (b - a) <= DaysBeforeYear(b)
    decreases b - a
  {
    if a < b {
      DaysBeforeYearGrows(a, b - 1);
      DaysBeforeNextYear(b - 1);
    }
  }

  lemma DaysBeforeNextMonth(y: int, m: int)
    requires 1 <= m <= 12
    ensures DaysBeforeMonth(y, m + 1) == DaysBeforeMonth(y, m) + DaysInMonth(y, m)
  {
  }

  lemma DaysBeforeMonthGrows(y: int, a: int, b: int)
    requires 1 <= a < b <= 13
    ensures DaysBeforeMonth(y, a) + 28 * (b - a) <= DaysBeforeMonth(y, b)
  {
  }

  /** The day of the year of a valid date lies within its year. */
  lemma DayOfYearWithin(d: Date)
    requires ValidDate(d)
    ensures 1 <= DaysBeforeMonth(d.year, d.month) + d.day <= DaysInYear(d.year)
  {
    DaysBeforeNextMonth(d.year, d.month);
    if d.month < 12 {
      DaysBeforeMonthGrows(d.year, d.month + 1, 13);
    }
  }

  /** Days-from-civil, as Python's `date.toordinal`: 0001-01-01 is 1. */
  function ToOrdinal(d: Date): (r: int)
    requires ValidDate(d)
    ensures 1 <= r <= MaxOrdinal
    ensures DaysBeforeYear(d.year) < r <= DaysBeforeYear(d.year + 1)
  {
    DayOfYearWithin(d);
    DaysBeforeNextYear(d.year);
    DaysBeforeYearGrows(d.year + 1, MaxYear + 1);
    DaysBeforeYear(d.year) + DaysBeforeMonth(d.year, d.month) + d.day
  }

  /** The date that is day `k` (counting from 1) of year `y`, found by
      walking through its months from month `m`, when `k` counts from the
      first day of month `m`. */
  function DateInYear(y: int, m: int, k: int): (d: Date)
    requires MinYear <= y <= MaxYear && 1 <= m <= 12
    requires 1 <= k <= DaysBeforeMonth(y, 13) - DaysBeforeMonth(y, m)
    ensures ValidDate(d) && d.year == y
    ensures DaysBeforeMonth(y, d.month) + d.day == DaysBeforeMonth(y, m) + k
    decreases k
  {
    DaysBeforeNextMonth(y, m);
    if k <= DaysInMonth(y, m) then Date(y, m, k)
    else DateInYear(y, m + 1, k - DaysInMonth(y, m))
  }

  /** The date whose ordinal is `n` past the last day of year `y - 1`, found
      by walking through the years from `y`. */
  function DateFrom(y: int, n: int): (d: Date)
    requires MinYear <= y <= MaxYear
    requires 1 <= n <= DaysBeforeYear(MaxYear + 1) - DaysBeforeYear(y)
    ensures ValidDate(d) && ToOrdinal(d) == DaysBeforeYear(y) + n
    decreases n
  {
    DaysBeforeNextYear(y);
    if n <= DaysInYear(y) then DateInYear(y, 1, n)
    else DateFrom(y + 1, n - DaysInYear(y))
  }

  /** Civil-from-days, as Python's `date.fromordinal`: the valid date whose ordinal is `n`. */
  function FromOrdinal(n: int): (d: Date)
    requires 1 <= n <= MaxOrdinal
    ensures ValidDate(d) && ToOrdinal(d) == n
  {
    DateFrom(MinYear, n)
  }

  /** Dates with the same ordinal lie in the same year. */
  lemma SameOrdinalSameYear(a: Date, b: Date)
    requires ValidDate(a) && ValidDate(b) && ToOrdinal(a) == ToOrdinal(b)
    ensures a.year == b.year
  {
    hide ToOrdinal;
    if a.year < b.year {
      DaysBeforeYearGrows(a.year + 1, b.year);
    } else if b.year < a.year {
      DaysBeforeYearGrows(b.year + 1, a.year);
    }
  }

  /** Distinct valid dates have distinct ordinals. */
  lemma ToOrdinalInjective(a: Date, b: Date)
    requires ValidDate(a) && ValidDate(b) && ToOrdinal(a) == ToOrdinal(b)
    ensures a == b
  {
    SameOrdinalSameYear(a, b);
    var y := a.year;
    assert DaysBeforeMonth(y, a.month) + a.day == DaysBeforeMonth(y, b.month) + b.day;
    DaysBeforeNextMonth(y, a.month);
    DaysBeforeNextMonth(y, b.month);
    if a.month < b.month {
      DaysBeforeMonthGrows(y, a.month + 1, b.month + 1);
    } else if b.month < a.month {
      DaysBeforeMonthGrows(y, b.month + 1, a.month + 1);
    }
  }

  /** Civil-from-days undoes days-from-civil. */
  lemma FromOrdinalToOrdinal(d: Date)
    requires ValidDate(d)
    ensures FromOrdinal(ToOrdinal(d)) == d
  {
    ToOrdinalInjective(FromOrdinal(ToOrdinal(d)), d);
  }
}
