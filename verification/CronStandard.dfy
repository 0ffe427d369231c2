// Where the scheduler's rule for days (pkg/scheduler/scheduler.go) and that of
// the crontab utility, INPUT FILES section, IEEE Std 1003.1-2017, part ways.
module CronStandard {
  import opened Calendar
  import opened CronFields
  import opened CronSchedule
  import opened CronLiveness

  ghost predicate DateMatches(f: Fields, n: int)
    requires f.Valid()
  {
    Admits(f.month, 1, DateOf(n).month) && Admits(f.day, 1, DateOf(n).day)
  }

  ghost predicate WeekdayMatches(f: Fields, n: int)
    requires f.Valid()
  {
    Admits(f.weekday, 0, Weekday(n))
  }

  /** The standard's rule: with both sides specified, either is enough. */
  ghost predicate StandardMatches(f: Fields, n: int)
    requires f.Valid()
  {
    if f.weekday.Every? then DateMatches(f, n)
    else if f.month.Every? && f.day.Every? then WeekdayMatches(f, n)
    else DateMatches(f, n) || WeekdayMatches(f, n)
  }

  /** The two rules select the same days. */
  ghost predicate RulesAgree(f: Fields)
    requires f.Valid()
  {
    forall n :: f.DayMatches(n) <==> StandardMatches(f, n)
  }

  ghost predicate AdmitsEveryDay(f: Fields)
    requires f.Valid()
  {
    AdmitsAll(f.day, 1, 31) && AdmitsAll(f.month, 1, 12) && AdmitsAll(f.weekday, 0, 6)
  }

  // ----- Every date falls on every weekday -----

  /** A year that is not a leap year and begins on weekday `w`. */
  function CommonYear(w: int): (y: int)
    requires 0 <= w <= 6
    ensures !IsLeap(y) && Weekday(YearStart(y)) == w
  {
    [2006, 2001, 2002, 2003, 2009, 2010, 2005][w]
  }

  /** A leap year that begins on weekday `w`. */
  function LeapYear(w: int): (y: int)
    requires 0 <= w <= 6
    ensures IsLeap(y) && Weekday(YearStart(y)) == w
  {
    [2012, 2024, 2008, 2020, 2004, 2016, 2028][w]
  }

  /** A year in which day `offset` falls on weekday `w`, of the length asked for. */
  lemma WeekdayOfOffset(leap: bool, offset: int, w: int) returns (y: int)
    requires 0 <= w <= 6
    ensures IsLeap(y) == leap && Weekday(YearStart(y) + offset) == w
  {
    var v := (w - offset) % 7;
    y := if leap then LeapYear(v) else CommonYear(v);
    ShiftedWeekday(YearStart(y), offset, v, w);
  }

  /** Every date of a leap year falls on every weekday in some year. */
  lemma DateOnWeekday(month: int, day: int, w: int) returns (n: int)
    requires IsLeapDate(month, day) && 0 <= w <= 6
    ensures IsDate(n, month, day) && Weekday(n) == w
  {
    var leap := (month, day) == (2, 29);
    var y := WeekdayOfOffset(leap, MonthStart(leap, month) + day - 1, w);
    n := DayNumber(Date(y, month, day));
    DateOfDayNumber(Date(y, month, day));
  }

  // ----- When the rules agree -----

  lemma AgreeingWeekdays(f: Fields, w: int)
    requires f.Valid() && RulesAgree(f) && !f.weekday.Every? && !(f.month.Every? && f.day.Every?) && 0 <= w <= 6
    ensures Admits(f.weekday, 0, w)
  {
    var v := ValidAdmitsSome(f.weekday, 0, 6);
    var m := WeekdayComes(0, v);
    assert f.DayMatches(m) <==> StandardMatches(f, m);
    var n := DateOnWeekday(DateOf(m).month, DateOf(m).day, w);
    assert f.DayMatches(n) <==> StandardMatches(f, n);
  }

  lemma AgreeingDates(f: Fields, month: int, day: int)
    requires f.Valid() && RulesAgree(f) && !f.weekday.Every? && !(f.month.Every? && f.day.Every?)
    requires IsLeapDate(month, day)
    ensures Admits(f.month, 1, month) && Admits(f.day, 1, day)
  {
    var v := ValidAdmitsSome(f.weekday, 0, 6);
    var n := DateOnWeekday(month, day, v);
    assert f.DayMatches(n) <==> StandardMatches(f, n);
  }

  /**
    * The rules select the same days exactly when the weekday or the date is
    * left open with `*`, or nothing is restricted in any other way either.
    */
  lemma RulesAgreeIff(f: Fields)
    requires f.Valid()
    ensures RulesAgree(f) <==> f.weekday.Every? || (f.month.Every? && f.day.Every?) || AdmitsEveryDay(f)
  {
    if RulesAgree(f) && !f.weekday.Every? && !(f.month.Every? && f.day.Every?) {
      forall w | 0 <= w <= 6
        ensures Admits(f.weekday, 0, w)
      {
        AgreeingWeekdays(f, w);
      }
      forall d | 1 <= d <= 31
        ensures Admits(f.day, 1, d)
      {
        AgreeingDates(f, 1, d);
      }
      forall m | 1 <= m <= 12
        ensures Admits(f.month, 1, m)
      {
        AgreeingDates(f, m, 1);
      }
    }
  }

  /** "0 0 13 * 5" */
  const FRIDAY_13: Fields := Fields(Field.At(0), Field.At(0), Field.At(13), Every, Field.At(5))

  /** Of Fridays other than the 13th, which the standard selects, the scheduler selects none. */
  lemma OtherFridaysDiffer(n: int)
    requires Weekday(n) == 5 && DateOf(n).day != 13
    ensures StandardMatches(FRIDAY_13, n) && !FRIDAY_13.DayMatches(n)
  {
  }

  /** There is such a Friday, a 6 February. */
  lemma SomeFridayDiffers() returns (n: int)
    ensures StandardMatches(FRIDAY_13, n) && !FRIDAY_13.DayMatches(n)
    ensures IsDate(n, 2, 6)
  {
    n := DateOnWeekday(2, 6, 5);
    OtherFridaysDiffer(n);
  }
}
