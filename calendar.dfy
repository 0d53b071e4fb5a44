/**
  * Calendar dates and `Period.between(start, end).getYears()`.
  *
  * The whole-years count follows the JDK's `LocalDate.until`: the difference in
  * proleptic months, moved one month towards zero when the day-of-month
  * difference points the other way, then divided by 12 with Java's truncating
  * division.
  */
module Calendar {

  type Month = m: int | 1 <= m <= 12 witness 1
  type DayOfMonth = d: int | 1 <= d <= 31 witness 1

  datatype Date = Date(year: int, month: Month, day: DayOfMonth)

  /** `LocalDate.getProlepticMonth()`: months counted from year 0, January. */
  function ProlepticMonth(d: Date): int {
    d.year * 12 + d.month - 1
  }

  /** Java's `long / 12`, which truncates towards zero. */
  function TruncDiv12(a: int): (q: int)
    ensures a >= 0 ==> 0 <= a - 12 * q < 12
    ensures a < 0 ==> -12 < a - 12 * q <= 0
  {
    if a >= 0 then a / 12 else -((-a) / 12)
  }

  /** `a` comes no later than `b`. */
  predicate OnOrBefore(a: Date, b: Date) {
    a.year < b.year
    || (a.year == b.year && a.month < b.month)
    || (a.year == b.year && a.month == b.month && a.day <= b.day)
  }

  /**
    * `Period.between(start, end).getYears()`: never negative when `start`
    * comes first, never positive when it comes after `end`.
    */
  function WholeYearsBetween(start: Date, end: Date): (r: int)
    ensures OnOrBefore(start, end) ==> r >= 0
    ensures OnOrBefore(end, start) ==> r <= 0
  {
    var totalMonths := ProlepticMonth(end) - ProlepticMonth(start);
    var days := end.day - start.day;
    var months :=
      if totalMonths > 0 && days < 0 then totalMonths - 1
      else if totalMonths < 0 && days > 0 then totalMonths + 1
      else totalMonths;
    TruncDiv12(months)
  }

  /** The month and day of `b` fall before those of `a` within a year. */
  predicate EarlierInYear(b: Date, a: Date) {
    b.month < a.month || (b.month == a.month && b.day < a.day)
  }

  /**
    * For dates in order, the count is the difference of the years, less one
    * when the anniversary of `start` has not been reached yet in the final year.
    */
  lemma WholeYearsBetweenInOrder(start: Date, end: Date)
    requires OnOrBefore(start, end)
    ensures WholeYearsBetween(start, end)
         == end.year - start.year - (if EarlierInYear(end, start) then 1 else 0)
    ensures WholeYearsBetween(start, end) >= 0
  {
    var totalMonths := ProlepticMonth(end) - ProlepticMonth(start);
    var days := end.day - start.day;
    var years := end.year - start.year - (if EarlierInYear(end, start) then 1 else 0);
    var months :=
      if totalMonths > 0 && days < 0 then totalMonths - 1 else totalMonths;
    assert 0 <= months;
    assert 0 <= months - 12 * years < 12;
    TruncDivUnique(months, years);
  }

  /**
    * The truncating quotient is determined by its remainder range: from 0 to 11
    * for a non-negative dividend, from -11 to 0 for a negative one.
    */
  lemma TruncDivUnique(a: int, q: int)
    requires a >= 0 ==> 0 <= a - 12 * q < 12
    requires a < 0 ==> -12 < a - 12 * q <= 0
    ensures TruncDiv12(a) == q
  {
    var r := TruncDiv12(a);
    if a >= 0 {
      assert 0 <= a - 12 * r < 12;
    } else {
      assert -12 < a - 12 * r <= 0;
    }
  }

  /** Swapping the two dates negates the count. */
  lemma WholeYearsBetweenAntisymmetric(a: Date, b: Date)
    ensures WholeYearsBetween(b, a) == -WholeYearsBetween(a, b)
  {
    var t := ProlepticMonth(b) - ProlepticMonth(a);
    var d := b.day - a.day;
    var m :=
      if t > 0 && d < 0 then t - 1
      else if t < 0 && d > 0 then t + 1
      else t;
    assert WholeYearsBetween(a, b) == TruncDiv12(m);
    assert WholeYearsBetween(b, a) == TruncDiv12(-m);
    if m > 0 {
      assert TruncDiv12(-m) == -(m / 12);
    }
  }

  /** The date `n` years after `d`, on the same month and day. */
  function SameDayYearsLater(d: Date, n: int): Date {
    Date(d.year + n, d.month, d.day)
  }

  /** Between a day and the same day `n` years later there are exactly `n` whole years. */
  lemma WholeYearsToSameDay(d: Date, n: int)
    ensures WholeYearsBetween(d, SameDayYearsLater(d, n)) == n
  {
    var later := SameDayYearsLater(d, n);
    assert ProlepticMonth(later) - ProlepticMonth(d) == 12 * n;
    if n >= 0 {
      TruncDivUnique(12 * n, n);
    } else {
      TruncDivUnique(-12 * n, -n);
    }
  }
}
