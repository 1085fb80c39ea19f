/** The proleptic Gregorian calendar that JavaScript `Date` values follow,
    as a count of days since 1970-01-01.  `DaysFromCivil` is the usual
    closed form over 400-year eras with years starting on 1 March, so the
    leap day is the last day of its year.  `NextDay` and `PrevDay` step
    through the calendar month by month, independently of that closed form;
    the lemmas tie the two together, which is what a month or year rollover
    of a one-day shift rests on. */
module Calendar {

  datatype Civil = Civil(year: int, month: int, day: int)

  predicate IsLeapYear(y: int) {
    y % 4 == 0 && (y % 100 != 0 || y % 400 == 0)
  }

  function DaysInMonth(y: int, m: int): (n: int)
    requires 1 <= m <= 12
    ensures 28 <= n <= 31
  {
    if m == 2 then (if IsLeapYear(y) then 29 else 28)
    else if m == 4 || m == 6 || m == 9 || m == 11 then 30
    else 31
  }

  predicate Valid(d: Civil) {
    1 <= d.month <= 12 && 1 <= d.day <= DaysInMonth(d.year, d.month)
  }

  function NextDay(d: Civil): (r: Civil)
    requires Valid(d)
    ensures Valid(r)
  {
    if d.day < DaysInMonth(d.year, d.month) then Civil(d.year, d.month, d.day + 1)
    else if d.month < 12 then Civil(d.year, d.month + 1, 1)
    else Civil(d.year + 1, 1, 1)
  }

  function PrevDay(d: Civil): (r: Civil)
    requires Valid(d)
    ensures Valid(r) && NextDay(r) == d
  {
    if d.day > 1 then Civil(d.year, d.month, d.day - 1)
    else if d.month > 1 then Civil(d.year, d.month - 1, DaysInMonth(d.year, d.month - 1))
    else Civil(d.year - 1, 12, 31)
  }

  /** Days from 1 March of year 0 to 1 March of year `y`. */
  function MarchYearStart(y: int): int {
    var era := y / 400;
    var yoe := y - era * 400;
    era * 146097 + 365 * yoe + yoe / 4 - yoe / 100
  }

  /** Months since March: 0 for March up to 11 for the following February. */
  function MarchMonth(m: int): int {
    if m <= 2 then m + 9 else m - 3
  }

  /** Days from 1 March to the first of the month `mp` months later (0 <= mp < 12). */
  function MonthOffset(mp: int): int {
    (153 * mp + 2) / 5
  }

  /** 1970-01-01 is day 0. */
  function DaysFromCivil(d: Civil): int {
    var y := if d.month <= 2 then d.year - 1 else d.year;
    MarchYearStart(y) + MonthOffset(MarchMonth(d.month)) + d.day - 1 - 719468
  }

  lemma Remainder4(q: int, r: int)
    requires 0 <= r < 4
    ensures (4 * q + r) % 4 == r
  {
  }

  lemma Remainder100(q: int, r: int)
    requires 0 <= r < 100
    ensures (100 * q + r) % 100 == r
  {
  }

  lemma Remainder400(q: int, r: int)
    requires 0 <= r < 400
    ensures (400 * q + r) % 400 == r && (400 * q + r) / 400 == q
  {
  }

  /** Reading `y` as `400 * era + n` leaves its remainders by 4, 100 and 400 those of `n`. */
  lemma EraRemainders(y: int, era: int, n: int)
    requires y == 400 * era + n && 0 <= n < 400
    ensures y % 4 == n % 4 && y % 100 == n % 100 && y % 400 == n
  {
    Remainder400(era, n);
    assert y == 4 * (100 * era + n / 4) + n % 4;
    Remainder4(100 * era + n / 4, n % 4);
    assert y == 100 * (4 * era + n / 100) + n % 100;
    Remainder100(4 * era + n / 100, n % 100);
  }

  /** Within one era, the year start grows by 365 days plus the leap day of
      every fourth year that is not a century year. */
  lemma YearOfEraStep(n: int)
    requires 1 <= n < 400
    ensures n / 4 - (n - 1) / 4 == if n % 4 == 0 then 1 else 0
    ensures n / 100 - (n - 1) / 100 == if n % 100 == 0 then 1 else 0
  {
  }

  /** A March-based year is 366 days long exactly when the February that ends it is a leap February. */
  lemma MarchYearLength(y: int)
    ensures MarchYearStart(y + 1) - MarchYearStart(y) == if IsLeapYear(y + 1) then 366 else 365
  {
    var era := y / 400;
    var yoe := y - era * 400;
    assert y == 400 * era + yoe && 0 <= yoe < 400;
    if yoe == 399 {
      Remainder400(era + 1, 0);
      EraRemainders(y + 1, era + 1, 0);
      assert MarchYearStart(y + 1) == (era + 1) * 146097;
    } else {
      var n := yoe + 1;
      Remainder400(era, n);
      EraRemainders(y + 1, era, n);
      YearOfEraStep(n);
      assert MarchYearStart(y + 1) == era * 146097 + 365 * n + n / 4 - n / 100;
    }
  }

  /** Within a month, the next day is one day later. */
  lemma NextDayInMonth(d: Civil)
    requires Valid(d) && d.day < DaysInMonth(d.year, d.month)
    ensures DaysFromCivil(NextDay(d)) == DaysFromCivil(d) + 1
  {
  }

  /** From the last day of a month other than February to the first of the
      next month, within one March-based year. */
  lemma NextDayAcrossMonth(d: Civil)
    requires Valid(d) && d.day == DaysInMonth(d.year, d.month) && d.month != 2
    ensures DaysFromCivil(NextDay(d)) == DaysFromCivil(d) + 1
  {
    var y := if d.month <= 2 then d.year - 1 else d.year;
    var mp := MarchMonth(d.month);
    assert 0 <= mp < 11;
    assert DaysFromCivil(NextDay(d)) == MarchYearStart(y) + MonthOffset(mp + 1) - 719468;
    assert MonthOffset(mp + 1) - MonthOffset(mp) == DaysInMonth(d.year, d.month);
  }

  /** From the last day of February to 1 March: one March-based year ends and the next begins. */
  lemma NextDayAcrossFebruary(d: Civil)
    requires Valid(d) && d.day == DaysInMonth(d.year, d.month) && d.month == 2
    ensures DaysFromCivil(NextDay(d)) == DaysFromCivil(d) + 1
  {
    MarchYearLength(d.year - 1);
    assert DaysFromCivil(d) == MarchYearStart(d.year - 1) + 337 + d.day - 1 - 719468;
    assert DaysFromCivil(NextDay(d)) == MarchYearStart(d.year) - 719468;
  }

  lemma NextDayIsOneDayLater(d: Civil)
    requires Valid(d)
    ensures DaysFromCivil(NextDay(d)) == DaysFromCivil(d) + 1
  {
    if d.day < DaysInMonth(d.year, d.month) {
      NextDayInMonth(d);
    } else if d.month == 2 {
      NextDayAcrossFebruary(d);
    } else {
      NextDayAcrossMonth(d);
    }
  }

  lemma PrevDayIsOneDayEarlier(d: Civil)
    requires Valid(d)
    ensures DaysFromCivil(PrevDay(d)) == DaysFromCivil(d) - 1
  {
    NextDayIsOneDayLater(PrevDay(d));
  }

  lemma EpochIsDayZero()
    ensures DaysFromCivil(Civil(1970, 1, 1)) == 0
  {
  }
}
