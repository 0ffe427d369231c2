// The proleptic Gregorian calendar over day numbers; day 0 is 1 January of
// year 1, a Monday. Years run over all integers.
module Calendar {

  predicate IsLeap(y: int)
  {
    y % 4 == 0 && (y % 100 != 0 || y % 400 == 0)
  }

  function DaysInYear(y: int): nat
  {
    if IsLeap(y) then 366 else 365
  }

  /** Days from day 0 to 1 January of year `y`. */
  function YearStart(y: int): int
  {
    365 * (y - 1) + (y - 1) / 4 - (y - 1) / 100 + (y - 1) / 400
  }

  /** Days from 1 January to the first of month `m`; `m == 13` gives the length of the year. */
  function MonthStart(leap: bool, m: int): (d: int)
    requires 1 <= m <= 13
    ensures 0 <= d <= 366
  {
    if m <= 2 then 31 * (m - 1)
    else [59, 90, 120, 151, 181, 212, 243, 273, 304, 334, 365][m - 3] + if leap then 1 else 0
  }

  function DaysInMonth(leap: bool, m: int): (d: int)
    requires 1 <= m <= 12
    ensures 28 <= d <= 31
    ensures MonthStart(leap, m + 1) == MonthStart(leap, m) + d
  {
    if m == 2 then if leap then 29 else 28
    else if m == 4 || m == 6 || m == 9 || m == 11 then 30
    else 31
  }

  datatype Date = Date(year: int, month: int, day: int) {
    predicate Valid()
    {
      1 <= month <= 12 && 1 <= day <= DaysInMonth(IsLeap(year), month)
    }
  }

  function DayNumber(d: Date): int
    requires d.Valid()
  {
    YearStart(d.year) + MonthStart(IsLeap(d.year), d.month) + d.day - 1
  }

  function Divides(k: int, y: int): int
    requires k > 0
  {
    if y % k == 0 then 1 else 0
  }

  lemma NextQuotients(y: int)
    ensures y / 4 == (y - 1) / 4 + Divides(4, y)
    ensures y / 100 == (y - 1) / 100 + Divides(100, y)
    ensures y / 400 == (y - 1) / 400 + Divides(400, y)
  {
  }

  lemma LeapCount(y: int)
    ensures DaysInYear(y) == 365 + Divides(4, y) - Divides(100, y) + Divides(400, y)
  {
    var q4, r4 := y / 4, y % 4;
    var q100, r100 := y / 100, y % 100;
    var q400, r400 := y / 400, y % 400;
    assert y == 4 * q4 + r4 == 100 * q100 + r100 == 400 * q400 + r400;
  }

  lemma NextYear(y: int)
    ensures YearStart(y + 1) == YearStart(y) + DaysInYear(y)
  {
    NextQuotients(y);
    LeapCount(y);
  }

  /** How far day `n` is from year `y`. */
  function DaysAway(n: int, y: int): int
  {
    if n < YearStart(y) then YearStart(y) - n
    else if n >= YearStart(y + 1) then n - YearStart(y + 1) + 1
    else 0
  }

  lemma Nearer(n: int, y: int)
    ensures n < YearStart(y) ==> 0 <= DaysAway(n, y - 1) < DaysAway(n, y)
    ensures n >= YearStart(y + 1) ==> 0 <= DaysAway(n, y + 1) < DaysAway(n, y)
  {
    NextYear(y - 1);
    NextYear(y);
    NextYear(y + 1);
  }

  /** The year that day `n` falls in, looked for from year `y`. */
  function YearFrom(n: int, y: int): (r: int)
    ensures YearStart(r) <= n < YearStart(r + 1)
    decreases DaysAway(n, y)
  {
    Nearer(n, y);
    if n < YearStart(y) then YearFrom(n, y - 1)
    else if n >= YearStart(y + 1) then YearFrom(n, y + 1)
    else y
  }

  function MonthFrom(leap: bool, d: int, m: int): (r: int)
    requires 1 <= m <= 12 && MonthStart(leap, m) <= d < MonthStart(leap, 13)
    ensures m <= r <= 12 && MonthStart(leap, r) <= d < MonthStart(leap, r + 1)
    decreases 12 - m
  {
    if d < MonthStart(leap, m + 1) then m else MonthFrom(leap, d, m + 1)
  }

  /** The date of day `n`. */
  function DateOf(n: int): (d: Date)
    ensures d.Valid() && DayNumber(d) == n
  {
    var y := YearFrom(n, 1);
    NextYear(y);
    var rest := n - YearStart(y);
    var m := MonthFrom(IsLeap(y), rest, 1);
    Date(y, m, rest - MonthStart(IsLeap(y), m) + 1)
  }

  /** Sunday is 0. */
  function Weekday(n: int): (w: int)
    ensures 0 <= w <= 6
  {
    (n + 1) % 7
  }

  lemma ShiftedWeekday(start: int, offset: int, v: int, w: int)
    requires Weekday(start) == v == (w - offset) % 7 && 0 <= w <= 6
    ensures Weekday(start + offset) == w
  {
    var p, q := (start + 1) / 7, (w - offset) / 7;
    assert start + 1 == 7 * p + v && w - offset == 7 * q + v;
    assert start + offset + 1 == 7 * (p - q) + w;
  }

  /** Two days of one weekday are whole weeks apart. */
  lemma WholeWeeks(n: int, k: int)
    requires Weekday(n) == Weekday(k)
    ensures (k - n) % 7 == 0
  {
    var p, q := (n + 1) / 7, (k + 1) / 7;
    assert k - n == 7 * (q - p);
  }

  lemma YearsGrow(a: int, b: int)
    requires a <= b
    ensures YearStart(a) + 365 * (b - a) <= YearStart(b)
    decreases b - a
  {
    if a < b {
      YearsGrow(a, b - 1);
      NextYear(b - 1);
    }
  }

  lemma MonthsGrow(leap: bool, a: int, b: int)
    requires 1 <= a <= b <= 13
    ensures MonthStart(leap, a) <= MonthStart(leap, b)
  {
  }

  lemma YearIsUnique(n: int, a: int, b: int)
    requires YearStart(a) <= n < YearStart(a + 1) && YearStart(b) <= n < YearStart(b + 1)
    ensures a == b
  {
    if a < b {
      YearsGrow(a + 1, b);
    } else if b < a {
      YearsGrow(b + 1, a);
    }
  }

  lemma MonthIsUnique(leap: bool, d: int, a: int, b: int)
    requires 1 <= a <= 12 && MonthStart(leap, a) <= d < MonthStart(leap, a + 1)
    requires 1 <= b <= 12 && MonthStart(leap, b) <= d < MonthStart(leap, b + 1)
    ensures a == b
  {
    if a < b {
      MonthsGrow(leap, a + 1, b);
    } else if b < a {
      MonthsGrow(leap, b + 1, a);
    }
  }

  lemma DayInYear(d: Date)
    requires d.Valid()
    ensures YearStart(d.year) <= DayNumber(d) < YearStart(d.year + 1)
    ensures MonthStart(IsLeap(d.year), d.month) <= DayNumber(d) - YearStart(d.year)
            < MonthStart(IsLeap(d.year), d.month + 1)
  {
    NextYear(d.year);
    MonthsGrow(IsLeap(d.year), d.month + 1, 13);
  }

  /** Dates and day numbers determine each other. */
  lemma DateOfDayNumber(d: Date)
    requires d.Valid()
    ensures DateOf(DayNumber(d)) == d
  {
    var n := DayNumber(d);
    var e := DateOf(n);
    DayInYear(d);
    DayInYear(e);
    YearIsUnique(n, d.year, e.year);
    MonthIsUnique(IsLeap(d.year), n - YearStart(d.year), d.month, e.month);
  }

  /** The lengths of the twelve months, in a common year and in a leap year. */
  lemma MonthLengths(m: int)
    requires 1 <= m <= 12
    ensures DaysInMonth(false, m) == [31, 28, 31, 30, 31, 30, 31, 31, 30, 31, 30, 31][m - 1]
    ensures DaysInMonth(true, m) == [31, 29, 31, 30, 31, 30, 31, 31, 30, 31, 30, 31][m - 1]
  {
  }

  lemma RemainderOf4(q: int, r: int)
    requires 0 <= r < 4
    ensures (4 * q + r) % 4 == r
  {
  }

  lemma RemainderOf100(q: int, r: int)
    requires 0 <= r < 100
    ensures (100 * q + r) % 100 == r
  {
  }

  lemma RemainderOf400(q: int, r: int)
    requires 0 <= r < 400
    ensures (400 * q + r) % 400 == r
  {
  }

  /** A leap year is every fourth year, but of the years that end a century only every fourth. */
  lemma LeapYears(century: int, y: int)
    requires 0 <= y < 100
    ensures IsLeap(100 * century + y) <==> if y == 0 then century % 4 == 0 else y % 4 == 0
  {
    RemainderOf4(25 * century + y / 4, y % 4);
    RemainderOf100(century, y);
    RemainderOf400(century / 4, 100 * (century % 4) + y);
    assert 100 * century + y == 4 * (25 * century + y / 4) + y % 4;
    assert 100 * century + y == 400 * (century / 4) + (100 * (century % 4) + y);
  }

  /** Known dates: the first day, a Monday; the day Unix time begins, a Thursday; a leap day, a Tuesday. */
  lemma KnownDates()
    ensures DayNumber(Date(1, 1, 1)) == 0 && Weekday(0) == 1
    ensures DayNumber(Date(1970, 1, 1)) == 719162 && Weekday(719162) == 4
    ensures Date(2000, 2, 29).Valid() && DayNumber(Date(2000, 2, 29)) == 730178 && Weekday(730178) == 2
    ensures !Date(1900, 2, 29).Valid()
  {
  }

  /** The date after `d`. */
  function Tomorrow(d: Date): (e: Date)
    requires d.Valid()
    ensures e.Valid() && DayNumber(e) == DayNumber(d) + 1
  {
    NextYear(d.year);
    if d.day < DaysInMonth(IsLeap(d.year), d.month) then Date(d.year, d.month, d.day + 1)
    else if d.month < 12 then Date(d.year, d.month + 1, 1)
    else Date(d.year + 1, 1, 1)
  }

  /** Consecutive days have consecutive dates. */
  lemma NextDay(n: int)
    ensures DateOf(n + 1) == Tomorrow(DateOf(n))
  {
    DateOfDayNumber(Tomorrow(DateOf(n)));
  }
}
