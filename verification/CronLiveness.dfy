// When the search for the next firing always finds one: it looks at 366
// calendar days, and what is left of the first of them may hold nothing.
module CronLiveness {
  import opened Common
  import opened Calendar
  import opened CronFields
  import opened CronSchedule

  /** Whatever the time asked at, a next firing is found. */
  ghost predicate AlwaysFound(f: Fields)
    requires f.Valid()
  {
    forall now, r :: f.IsNext(now, r) ==> r.Some?
  }

  /** One of the 365 days after day `n` matches. */
  ghost predicate MatchesAfter(f: Fields, n: int)
    requires f.Valid()
  {
    exists k :: n < k < n + HORIZON && f.DayMatches(k)
  }

  ghost predicate AdmitsAll(f: Field, min: int, max: int)
    requires f.Step? ==> f.n > 0
  {
    forall v :: min <= v <= max ==> Admits(f, min, v)
  }

  /** Some value of the range is allowed. */
  lemma ValidAdmitsSome(f: Field, min: int, max: int) returns (v: int)
    requires IsValid(f, min, max) && min <= max
    ensures min <= v <= max && Admits(f, min, v)
  {
    v := if f.At? then f.v else min;
  }

  // ----- From days to instants -----

  /** A day that matches, tomorrow or later within the horizon, gives a firing. */
  lemma MatchingDayFires(f: Fields, now: Instant, n: int) returns (t: Instant)
    requires f.Valid() && f.DayMatches(n) && n > DayOf(now)
    ensures f.Fires(t) && t > now && DayOf(t) == n
  {
    var h := ValidAdmitsSome(f.hour, 0, 23);
    var m := ValidAdmitsSome(f.minute, 0, 59);
    t := TimeAt(n, h, m);
    Parts(n, h, m);
  }

  lemma AfterLastMinute(n: int, u: Instant)
    requires u > TimeAt(n, 23, 59) && u % MINUTE == 0
    ensures DayOf(u) > n
  {
    Whole(u);
  }

  /** In the last minute of a day, nothing is found unless one of the next 365 days matches. */
  lemma NothingAfterLastMinute(f: Fields, n: int)
    requires f.Valid() && !MatchesAfter(f, n)
    ensures f.IsNext(TimeAt(n, 23, 59), None)
  {
    Parts(n, 23, 59);
    forall u | u > TimeAt(n, 23, 59) && DayOf(u) < n + HORIZON
      ensures !f.Fires(u)
    {
      if u % MINUTE == 0 {
        AfterLastMinute(n, u);
        assert !f.DayMatches(DayOf(u));
      }
    }
  }

  /** A next firing is always found exactly when after every day one of the next 365 days matches. */
  lemma FoundIffDayAhead(f: Fields)
    requires f.Valid()
    ensures AlwaysFound(f) <==> forall n :: MatchesAfter(f, n)
  {
    if AlwaysFound(f) {
      forall n
        ensures MatchesAfter(f, n)
      {
        if !MatchesAfter(f, n) {
          NothingAfterLastMinute(f, n);
        }
      }
    }
    if forall n :: MatchesAfter(f, n) {
      forall now, r | f.IsNext(now, r)
        ensures r.Some?
      {
        assert MatchesAfter(f, DayOf(now));
        var k :| DayOf(now) < k < DayOf(now) + HORIZON && f.DayMatches(k);
        var t := MatchingDayFires(f, now, k);
      }
    }
  }

  // ----- The calendar repeats -----

  /** The days of 400 years, a whole number of weeks. */
  const CYCLE: int := 146097

  lemma QuartersRepeat(x: int)
    ensures (x + 400) / 4 == x / 4 + 100 && (x + 400) % 4 == x % 4
  {
  }

  lemma CenturiesRepeat(x: int)
    ensures (x + 400) / 100 == x / 100 + 4 && (x + 400) % 100 == x % 100
  {
  }

  lemma CyclesRepeat(x: int)
    ensures (x + 400) / 400 == x / 400 + 1 && (x + 400) % 400 == x % 400
  {
  }

  lemma YearStartRepeats(y: int)
    ensures YearStart(y + 400) == YearStart(y) + CYCLE
  {
    var x := y - 1;
    QuartersRepeat(x);
    CenturiesRepeat(x);
    CyclesRepeat(x);
    assert y + 400 - 1 == x + 400;
  }

  lemma YearRepeats(y: int)
    ensures YearStart(y + 400) == YearStart(y) + CYCLE && IsLeap(y + 400) == IsLeap(y)
  {
    YearStartRepeats(y);
    QuartersRepeat(y);
    CenturiesRepeat(y);
    CyclesRepeat(y);
  }

  lemma WeekdayRepeats(n: int)
    ensures Weekday(n + CYCLE) == Weekday(n)
  {
    assert CYCLE == 7 * 20871;
  }

  lemma DateRepeats(d: Date)
    requires d.Valid()
    ensures var e := Date(d.year + 400, d.month, d.day); e.Valid() && DayNumber(e) == DayNumber(d) + CYCLE
  {
    YearRepeats(d.year);
  }

  lemma DayRepeats(n: int)
    ensures DateOf(n + CYCLE) == Date(DateOf(n).year + 400, DateOf(n).month, DateOf(n).day)
  {
    var d := DateOf(n);
    DateRepeats(d);
    DateOfDayNumber(Date(d.year + 400, d.month, d.day));
  }

  lemma DayMatchesRepeats(f: Fields, k: int)
    requires f.Valid()
    ensures f.DayMatches(k + CYCLE) <==> f.DayMatches(k)
  {
    DayRepeats(k);
    WeekdayRepeats(k);
  }

  lemma MatchesAfterRepeats(f: Fields, n: int)
    requires f.Valid()
    ensures MatchesAfter(f, n + CYCLE) <==> MatchesAfter(f, n)
  {
    if MatchesAfter(f, n) {
      var k :| n < k < n + HORIZON && f.DayMatches(k);
      DayMatchesRepeats(f, k);
    }
    if MatchesAfter(f, n + CYCLE) {
      var k :| n + CYCLE < k < n + CYCLE + HORIZON && f.DayMatches(k);
      DayMatchesRepeats(f, k - CYCLE);
    }
  }

  lemma {:induction false} MatchesAfterByCycles(f: Fields, n: int, q: nat)
    requires f.Valid()
    ensures MatchesAfter(f, n + q * CYCLE) <==> MatchesAfter(f, n)
  {
    if q > 0 {
      MatchesAfterByCycles(f, n, q - 1);
      MatchesAfterRepeats(f, n + (q - 1) * CYCLE);
    }
  }

  /** Whatever the expression, the days of 400 years decide. */
  lemma FoundIffFoundInCycle(f: Fields)
    requires f.Valid()
    ensures AlwaysFound(f) <==> forall n :: 0 <= n < CYCLE ==> MatchesAfter(f, n)
  {
    FoundIffDayAhead(f);
    if forall n :: 0 <= n < CYCLE ==> MatchesAfter(f, n) {
      forall n
        ensures MatchesAfter(f, n)
      {
        var q, m := n / CYCLE, n % CYCLE;
        assert n == m + q * CYCLE && MatchesAfter(f, m);
        if q >= 0 {
          MatchesAfterByCycles(f, m, q);
        } else {
          MatchesAfterByCycles(f, n, -q);
          assert n + (-q) * CYCLE == m;
        }
      }
    }
  }

  // ----- Runs that never end -----

  /** The run can be extended by one more answer. */
  ghost predicate GoesOn(f: Fields, now: Instant, ts: seq<Instant>)
    requires f.Valid()
  {
    exists t :: IsRun(f, now, ts + [t])
  }

  /** The first firing after `now`, given one. */
  lemma {:induction false} FirstFiring(f: Fields, now: Instant, u: Instant) returns (t: Instant)
    requires f.Valid() && f.Fires(u) && now < u && DayOf(u) < DayOf(now) + HORIZON
    ensures f.IsNext(now, Some(t))
    decreases u - now
  {
    if v :| now < v < u && f.Fires(v) {
      t := FirstFiring(f, now, v);
    } else {
      t := u;
    }
  }

  /** The last firing of a day, given one. */
  lemma {:induction false} LastFiring(f: Fields, u: Instant) returns (t: Instant)
    requires f.Valid() && f.Fires(u)
    ensures f.Fires(t) && DayOf(t) == DayOf(u) && forall v :: v > t && f.Fires(v) ==> DayOf(v) > DayOf(t)
    decreases (DayOf(u) + 1) * DAY - u
  {
    if v :| v > u && f.Fires(v) && DayOf(v) == DayOf(u) {
      t := LastFiring(f, v);
    } else {
      t := u;
    }
  }

  lemma {:induction false} MatchBefore(f: Fields, k: int, n: int) returns (a: int)
    requires f.Valid() && f.DayMatches(k)
    ensures a <= n && f.DayMatches(a)
    decreases k - n
  {
    a := k;
    if k > n {
      DayMatchesRepeats(f, k - CYCLE);
      a := MatchBefore(f, k - CYCLE, n);
    }
  }

  /** The last day up to day `n` that matches, given one. */
  lemma {:induction false} LastMatch(f: Fields, k: int, n: int) returns (a: int)
    requires f.Valid() && f.DayMatches(k) && k <= n
    ensures a <= n && f.DayMatches(a) && forall b :: a < b <= n ==> !f.DayMatches(b)
    decreases n - k
  {
    if b :| k < b <= n && f.DayMatches(b) {
      a := LastMatch(f, b, n);
    } else {
      a := k;
    }
  }

  lemma {:induction false} RunExtends(f: Fields, now: Instant, ts: seq<Instant>, t: Instant)
    requires f.Valid() && IsRun(f, now, ts)
    ensures IsRun(f, now, ts + [t]) <==> f.IsNext(if ts == [] then now else ts[|ts| - 1], Some(t))
    decreases |ts|
  {
    if ts == [] {
      assert [t][1..] == [];
    } else {
      RunExtends(f, ts[0], ts[1..], t);
      assert (ts + [t])[1..] == ts[1..] + [t];
    }
  }

  /** After the last firing before a gap of more than 365 days, asking again finds nothing. */
  lemma RunBeforeGap(f: Fields, k: int, n: int) returns (now: Instant, t: Instant)
    requires f.Valid() && f.DayMatches(k) && !MatchesAfter(f, n)
    ensures IsRun(f, now, [t]) && f.IsNext(t, None)
  {
    var a := MatchBefore(f, k, n);
    a := LastMatch(f, a, n);
    var u := MatchingDayFires(f, (a - 1) * DAY, a);
    t := LastFiring(f, u);
    now := t - 1;
    forall v | v > t && DayOf(v) < DayOf(t) + HORIZON
      ensures !f.Fires(v)
    {
      assert DayOf(v) > n ==> n < DayOf(v) < n + HORIZON;
    }
    assert [t][1..] == [];
  }

  lemma EndedRun(f: Fields, now: Instant, t: Instant)
    requires f.Valid() && IsRun(f, now, [t]) && f.IsNext(t, None)
    ensures !GoesOn(f, now, [t])
  {
    forall u
      ensures !IsRun(f, now, [t] + [u])
    {
      RunExtends(f, now, [t], u);
      if f.IsNext(t, Some(u)) {
        NextIsUnique(f, t, None, Some(u));
      }
    }
  }

  lemma RunGoesOn(f: Fields, now: Instant, ts: seq<Instant>)
    requires f.Valid() && ts != [] && IsRun(f, now, ts) && MatchesAfter(f, DayOf(ts[|ts| - 1]))
    ensures GoesOn(f, now, ts)
  {
    var t := NextFiring(f, ts[|ts| - 1]);
    RunExtends(f, now, ts, t);
  }

  lemma NextFiring(f: Fields, now: Instant) returns (t: Instant)
    requires f.Valid() && MatchesAfter(f, DayOf(now))
    ensures f.IsNext(now, Some(t))
  {
    var m :| DayOf(now) < m < DayOf(now) + HORIZON && f.DayMatches(m);
    var u := MatchingDayFires(f, now, m);
    t := FirstFiring(f, now, u);
  }

  /**
    * A job that fires at all is found again after each firing, for ever,
    * exactly when a next firing is found whatever the time asked at.
    */
  lemma NeverSilentIff(f: Fields, k: int)
    requires f.Valid() && f.DayMatches(k)
    ensures AlwaysFound(f) <==> forall now, ts :: ts != [] && IsRun(f, now, ts) ==> GoesOn(f, now, ts)
  {
    FoundIffDayAhead(f);
    if forall n :: MatchesAfter(f, n) {
      forall now, ts | ts != [] && IsRun(f, now, ts)
        ensures GoesOn(f, now, ts)
      {
        RunGoesOn(f, now, ts);
      }
    } else {
      var n :| !MatchesAfter(f, n);
      var now, t := RunBeforeGap(f, k, n);
      EndedRun(f, now, t);
    }
  }

  // ----- Which dates the 365 days after a day hold -----

  /** A month and day that exist in leap years. */
  predicate IsLeapDate(month: int, day: int)
  {
    1 <= month <= 12 && 1 <= day <= DaysInMonth(true, month)
  }

  /** A 29 February lies between the date and the same date of the next year. */
  predicate LeapDayAhead(d: Date)
  {
    if d.month < 2 || (d.month == 2 && d.day < 29) then IsLeap(d.year) else IsLeap(d.year + 1)
  }

  /** The one month and day that the 365 days after `d` miss: the date itself, or 29 February. */
  function Missed(d: Date): (int, int)
  {
    if LeapDayAhead(d) then (d.month, d.day) else (2, 29)
  }

  predicate IsDate(n: int, month: int, day: int)
  {
    DateOf(n).month == month && DateOf(n).day == day
  }

  /** Later this year. */
  lemma ComesThisYear(d: Date, month: int, day: int)
    requires d.Valid() && Date(d.year, month, day).Valid()
    requires month > d.month || (month == d.month && day > d.day)
    ensures DayNumber(d) < DayNumber(Date(d.year, month, day)) < DayNumber(d) + HORIZON
  {
    var e := Date(d.year, month, day);
    DayInYear(d);
    DayInYear(e);
    NextYear(d.year);
    if month > d.month {
      MonthsGrow(IsLeap(d.year), d.month + 1, month);
    }
  }

  /** Next year, unless the date itself is meant and a leap day lies between. */
  lemma ComesNextYear(d: Date, month: int, day: int)
    requires d.Valid() && Date(d.year + 1, month, day).Valid()
    requires month < d.month || (month == d.month && day <= d.day)
    ensures var k := DayNumber(Date(d.year + 1, month, day));
      DayNumber(d) < k && (k < DayNumber(d) + HORIZON <==> (month, day) != (d.month, d.day) || !LeapDayAhead(d))
  {
    var e := Date(d.year + 1, month, day);
    DayInYear(d);
    DayInYear(e);
    NextYear(d.year);
    LeapYearsApart(d.year);
    if month < d.month {
      MonthsGrow(IsLeap(d.year + 1), month + 1, d.month);
    }
    MonthStarts(d.month);
  }

  lemma LeapYearsApart(y: int)
    ensures !(IsLeap(y) && IsLeap(y + 1))
  {
  }

  /** After February a leap year is a day ahead. */
  lemma MonthStarts(m: int)
    requires 1 <= m <= 13
    ensures MonthStart(true, m) == MonthStart(false, m) + if m <= 2 then 0 else 1
  {
  }

  lemma DateComes(n: int, month: int, day: int) returns (k: int)
    requires IsLeapDate(month, day) && (month, day) != Missed(DateOf(n))
    ensures n < k < n + HORIZON && IsDate(k, month, day)
  {
    var d := DateOf(n);
    var later := month > d.month || (month == d.month && day > d.day);
    var e := Date(if later then d.year else d.year + 1, month, day);
    k := DayNumber(e);
    if later {
      ComesThisYear(d, month, day);
    } else {
      ComesNextYear(d, month, day);
    }
    DateOfDayNumber(e);
  }

  /** A day of the year after next is too far. */
  lemma WithinTwoYears(n: int, k: int)
    requires n < k < n + HORIZON
    ensures DateOf(k).year == DateOf(n).year || DateOf(k).year == DateOf(n).year + 1
  {
    var y, z := DateOf(n).year, DateOf(k).year;
    DayInYear(DateOf(n));
    DayInYear(DateOf(k));
    YearsApart(n, k, y, z);
  }

  lemma YearsApart(n: int, k: int, y: int, z: int)
    requires n < k < n + HORIZON
    requires YearStart(y) <= n < YearStart(y + 1) && YearStart(z) <= k < YearStart(z + 1)
    ensures z == y || z == y + 1
  {
    if z < y {
      YearsGrow(z + 1, y);
    } else if z > y + 1 {
      YearsGrow(y + 1, z);
    }
  }

  lemma DateDoesNotCome(n: int, k: int)
    requires n < k < n + HORIZON
    ensures (DateOf(k).month, DateOf(k).day) != Missed(DateOf(n))
  {
    WithinTwoYears(n, k);
    NotMissed(DateOf(n), DateOf(k));
  }

  lemma NotMissed(d: Date, e: Date)
    requires d.Valid() && e.Valid() && DayNumber(d) < DayNumber(e) < DayNumber(d) + HORIZON
    requires e.year == d.year || e.year == d.year + 1
    ensures (e.month, e.day) != Missed(d)
  {
    if e.year == d.year {
      SameYearOrder(d, e);
    } else if e.month < d.month || (e.month == d.month && e.day <= d.day) {
      ComesNextYear(d, e.month, e.day);
      LeapYearsApart(d.year);
    } else if (e.month, e.day) == (2, 29) {
      LeapDayOfNextYear(d);
    }
  }

  /** From before 29 February to that of the next year it is more than a year. */
  lemma LeapDayOfNextYear(d: Date)
    requires d.Valid() && IsLeap(d.year + 1) && (d.month < 2 || (d.month == 2 && d.day < 29))
    ensures DayNumber(Date(d.year + 1, 2, 29)) >= DayNumber(d) + HORIZON
  {
    NextYear(d.year);
  }

  /** In one year, later days have later dates. */
  lemma SameYearOrder(d: Date, e: Date)
    requires d.Valid() && e.Valid() && d.year == e.year && DayNumber(d) < DayNumber(e)
    ensures d.month < e.month || (d.month == e.month && d.day < e.day)
  {
    if e.month < d.month {
      MonthsGrow(IsLeap(d.year), e.month + 1, d.month);
    }
  }

  /** The 365 days after a day hold every month and day of a leap year but one. */
  lemma AllDatesButOneCome(n: int, month: int, day: int)
    requires IsLeapDate(month, day)
    ensures (exists k :: n < k < n + HORIZON && IsDate(k, month, day)) <==> (month, day) != Missed(DateOf(n))
  {
    if (month, day) != Missed(DateOf(n)) {
      var k := DateComes(n, month, day);
    }
    forall k | n < k < n + HORIZON && IsDate(k, month, day)
      ensures (month, day) != Missed(DateOf(n))
    {
      DateDoesNotCome(n, k);
    }
  }

  /** Every month and day is missed after some day. */
  lemma SomeDayMisses(month: int, day: int) returns (n: int)
    requires IsLeapDate(month, day)
    ensures Missed(DateOf(n)) == (month, day)
  {
    var d := if (month, day) == (2, 29) then Date(1, 1, 1)
             else if month <= 2 then Date(4, month, day) else Date(3, month, day);
    n := DayNumber(d);
    DateOfDayNumber(d);
  }

  // ----- Expressions that do not restrict the weekday -----

  ghost predicate AdmitsDate(f: Fields, month: int, day: int)
    requires f.Valid()
  {
    IsLeapDate(month, day) && Admits(f.month, 1, month) && Admits(f.day, 1, day)
  }

  /** Two months and days of a leap year are admitted. */
  ghost predicate AdmitsTwoDates(f: Fields)
    requires f.Valid()
  {
    exists m1, d1, m2, d2 :: AdmitsDate(f, m1, d1) && AdmitsDate(f, m2, d2) && (m1, d1) != (m2, d2)
  }

  lemma DayMatchesDate(f: Fields, k: int)
    requires f.Valid() && AdmitsAll(f.weekday, 0, 6)
    ensures f.DayMatches(k) <==> AdmitsDate(f, DateOf(k).month, DateOf(k).day)
  {
  }

  lemma TwoDatesMatchAfter(f: Fields, n: int)
    requires f.Valid() && AdmitsAll(f.weekday, 0, 6) && AdmitsTwoDates(f)
    ensures MatchesAfter(f, n)
  {
    var m1, d1, m2, d2 :| AdmitsDate(f, m1, d1) && AdmitsDate(f, m2, d2) && (m1, d1) != (m2, d2);
    var k;
    if (m1, d1) != Missed(DateOf(n)) {
      k := DateComes(n, m1, d1);
    } else {
      k := DateComes(n, m2, d2);
    }
    DayMatchesDate(f, k);
  }

  lemma OneDateFails(f: Fields) returns (n: int)
    requires f.Valid() && AdmitsAll(f.weekday, 0, 6) && !AdmitsTwoDates(f)
    ensures !MatchesAfter(f, n)
  {
    n := 0;
    if month, day :| AdmitsDate(f, month, day) {
      n := SomeDayMisses(month, day);
    }
    forall k | n < k < n + HORIZON
      ensures !f.DayMatches(k)
    {
      DayMatchesDate(f, k);
      DateDoesNotCome(n, k);
    }
  }

  /**
    * With no restriction on the weekday, a next firing is always found exactly
    * when month and day admit at least two dates of a leap year. A yearly job
    * admits one.
    */
  lemma FoundIffTwoDates(f: Fields)
    requires f.Valid() && AdmitsAll(f.weekday, 0, 6)
    ensures AlwaysFound(f) <==> AdmitsTwoDates(f)
  {
    FoundIffDayAhead(f);
    if AdmitsTwoDates(f) {
      forall n
        ensures MatchesAfter(f, n)
      {
        TwoDatesMatchAfter(f, n);
      }
    } else {
      var n := OneDateFails(f);
    }
  }

  // ----- Expressions that do not restrict the day of the month -----

  /** The first of seven days of the month `m` after `d`: what is left of this month, this year's or next year's. */
  function WeekStart(d: Date, m: int): (e: Date)
    requires d.Valid() && 1 <= m <= 12
    ensures e.Valid() && e.month == m && Date(e.year, m, e.day + 6).Valid()
  {
    if m == d.month && d.day <= 21 then Date(d.year, m, d.day + 1)
    else Date(if m > d.month then d.year else d.year + 1, m, 1)
  }

  lemma WeekStartIsNear(d: Date, m: int)
    requires d.Valid() && 1 <= m <= 12
    ensures DayNumber(d) < DayNumber(WeekStart(d, m)) && DayNumber(WeekStart(d, m)) + 6 < DayNumber(d) + HORIZON
  {
    if m > d.month {
      ComesThisYear(d, m, 1);
      ComesThisYear(d, m, 7);
    } else if m < d.month || d.day > 21 {
      WeekOfNextYear(d, m);
    }
  }

  lemma WeekOfNextYear(d: Date, m: int)
    requires d.Valid() && 1 <= m <= d.month && (m < d.month || d.day > 21)
    ensures var first := DayNumber(Date(d.year + 1, m, 1));
      DayNumber(d) < first && first + 6 < DayNumber(d) + HORIZON
  {
    ComesNextYear(d, m, 1);
    ComesNextYear(d, m, 7);
  }

  /** A full week of every month lies ahead. */
  lemma WeekOfMonthComes(n: int, m: int) returns (k: int)
    requires 1 <= m <= 12
    ensures n < k && k + 6 < n + HORIZON
    ensures forall j :: k <= j <= k + 6 ==> DateOf(j).month == m
  {
    var start := WeekStart(DateOf(n), m);
    k := DayNumber(start);
    WeekStartIsNear(DateOf(n), m);
    forall j | k <= j <= k + 6
      ensures DateOf(j).month == m
    {
      DateOfDayNumber(Date(start.year, m, start.day + (j - k)));
    }
  }

  lemma WeekdayComes(n: int, w: int) returns (k: int)
    requires 0 <= w <= 6
    ensures n < k <= n + 7 && Weekday(k) == w
  {
    k := n + 1 + (w - Weekday(n + 1)) % 7;
  }

  /** With no restriction on the day of the month, a next firing is always found. */
  lemma FoundOnOpenDay(f: Fields)
    requires f.Valid() && AdmitsAll(f.day, 1, 31)
    ensures AlwaysFound(f)
  {
    FoundIffDayAhead(f);
    var m := ValidAdmitsSome(f.month, 1, 12);
    var w := ValidAdmitsSome(f.weekday, 0, 6);
    forall n
      ensures MatchesAfter(f, n)
    {
      var week := WeekOfMonthComes(n, m);
      var k := WeekdayComes(week - 1, w);
      assert f.DayMatches(k);
    }
  }

  /** So it is with any two of day, month and weekday unrestricted. */
  lemma NextExists(f: Fields, now: Instant, r: Option<Instant>)
    requires f.Valid() && f.IsNext(now, r)
    requires AdmitsAll(f.day, 1, 31) || (AdmitsAll(f.month, 1, 12) && AdmitsAll(f.weekday, 0, 6))
    ensures r.Some?
  {
    if AdmitsAll(f.day, 1, 31) {
      FoundOnOpenDay(f);
    } else {
      var d := ValidAdmitsSome(f.day, 1, 31);
      assert AdmitsDate(f, 1, d) && AdmitsDate(f, 3, d);
      FoundIffTwoDates(f);
    }
  }

  // ----- One day of the month and one weekday -----

  /** A year that begins on weekday `w`, neither it nor the next one a leap year. */
  function CommonYears(w: int): (y: int)
    requires 0 <= w <= 6
    ensures !IsLeap(y) && !IsLeap(y + 1) && Weekday(YearStart(y)) == w
  {
    [2006, 2001, 2002, 2014, 2009, 2010, 2005][w]
  }

  /** A day `d` of July on weekday `w`, before a year without a 29 February. */
  lemma JulyOnWeekday(d: int, w: int) returns (y: int)
    requires 1 <= d <= 31 && 0 <= w <= 6
    ensures !IsLeap(y) && !IsLeap(y + 1) && Weekday(DayNumber(Date(y, 7, d))) == w
  {
    var v := (w - (180 + d)) % 7;
    y := CommonYears(v);
    ShiftedWeekday(YearStart(y), 180 + d, v, w);
  }

  /** How many days lie between a day of July and the same day of another month. */
  function Apart(y: int, e: Date): int
    requires 1 <= e.month <= 12
  {
    MonthStart(false, e.month) - MonthStart(false, 7) + if e.year == y then 0 else 365
  }

  lemma DaysApart(y: int, d: int, e: Date)
    requires !IsLeap(y) && !IsLeap(y + 1) && 1 <= d <= 31 && e.Valid() && e.day == d
    requires e.year == y || e.year == y + 1
    ensures DayNumber(e) - DayNumber(Date(y, 7, d)) == Apart(y, e)
  {
    NextYear(y);
  }

  /** Within a year from one July to the next that is never a whole number of weeks. */
  lemma NoWholeWeeks(m: int, apart: int, same: bool)
    requires 1 <= m <= 12 && apart == MonthStart(false, m) - MonthStart(false, 7) + if same then 0 else 365
    requires 0 < apart < HORIZON
    ensures apart % 7 != 0
  {
  }

  lemma SameDayOtherWeekday(y: int, d: int, e: Date)
    requires !IsLeap(y) && !IsLeap(y + 1) && 1 <= d <= 31 && e.Valid() && e.day == d
    requires e.year == y || e.year == y + 1
    requires var n := DayNumber(Date(y, 7, d)); n < DayNumber(e) < n + HORIZON
    ensures Weekday(DayNumber(e)) != Weekday(DayNumber(Date(y, 7, d)))
  {
    DaysApart(y, d, e);
    NoWholeWeeks(e.month, Apart(y, e), e.year == y);
    if Weekday(DayNumber(e)) == Weekday(DayNumber(Date(y, 7, d))) {
      WholeWeeks(DayNumber(Date(y, 7, d)), DayNumber(e));
    }
  }

  /**
    * A job on one day of the month and one weekday, like the 13th if it is a
    * Friday, is lost in some year, whatever months it is for: such days can be
    * fourteen months apart.
    */
  lemma DayAndWeekdayIsDropped(f: Fields)
    requires f.Valid() && f.day.At? && f.weekday.At?
    ensures !AlwaysFound(f)
  {
    var d, w := f.day.v, f.weekday.v;
    var y := JulyOnWeekday(d, w);
    var n := DayNumber(Date(y, 7, d));
    DateOfDayNumber(Date(y, 7, d));
    forall k | n < k < n + HORIZON
      ensures !f.DayMatches(k)
    {
      WithinTwoYears(n, k);
      if DateOf(k).day == d {
        SameDayOtherWeekday(y, d, DateOf(k));
      }
    }
    FoundIffDayAhead(f);
    assert !MatchesAfter(f, n);
  }

  // ----- Witnesses -----

  /** Midnight of 1 January: "0 0 1 1 *". */
  const YEARLY: Fields := Fields(Field.At(0), Field.At(0), Field.At(1), Field.At(1), Every)

  /** Asked at its own firing in a leap year, a yearly job is not found again, although it fires the next year. */
  lemma YearlyJobIsDropped(y: int)
    requires IsLeap(y)
    ensures var now := TimeAt(YearStart(y), 0, 0);
      YEARLY.Fires(now) && YEARLY.IsNext(now, None) && YEARLY.Fires(TimeAt(YearStart(y + 1), 0, 0))
  {
    var n, now := YearStart(y), TimeAt(YearStart(y), 0, 0);
    YearlyFires(y);
    YearlyFires(y + 1);
    Parts(n, 0, 0);
    forall u | u > now && DayOf(u) < n + HORIZON
      ensures !YEARLY.Fires(u)
    {
      YearlyIsSilent(y, u);
    }
  }

  lemma YearlyFires(y: int)
    ensures YEARLY.Fires(TimeAt(YearStart(y), 0, 0))
  {
    Parts(YearStart(y), 0, 0);
    DateOfDayNumber(Date(y, 1, 1));
  }

  lemma YearlyIsSilent(y: int, u: Instant)
    requires IsLeap(y) && u > TimeAt(YearStart(y), 0, 0) && DayOf(u) < YearStart(y) + HORIZON
    ensures !YEARLY.Fires(u)
  {
    if YEARLY.Fires(u) {
      Whole(u);
      DateOfDayNumber(Date(y, 1, 1));
      DateDoesNotCome(YearStart(y), DayOf(u));
    }
  }

  /** Midnight of 29 February: "0 0 29 2 *". */
  const LEAP_DAY: Fields := Fields(Field.At(0), Field.At(0), Field.At(29), Field.At(2), Every)

  lemma LeapDayOf(y: int, n: int)
    requires DateOf(n).month == 2 && DateOf(n).day == 29 && YearStart(y) <= n <= YearStart(y + 1)
    ensures IsLeap(y)
  {
    if n == YearStart(y + 1) {
      DateOfDayNumber(Date(y + 1, 1, 1));
    } else {
      DayInYear(DateOf(n));
      YearIsUnique(n, DateOf(n).year, y);
    }
  }

  lemma LeapDayFires(y: int, now: Instant) returns (t: Instant)
    requires IsLeap(y) && DayOf(now) <= YearStart(y)
    ensures LEAP_DAY.Fires(t) && t > now && DayOf(t) == YearStart(y) + 59
  {
    var d := Date(y, 2, 29);
    var n := DayNumber(d);
    DateOfDayNumber(d);
    t := TimeAt(n, 0, 0);
    Parts(n, 0, 0);
  }

  /**
    * On 1 January of year `y` the search finds a firing of "0 0 29 2 *" iff `y`
    * is a leap year, although one follows in any later leap year `z`.
    */
  lemma LeapDayIsFoundInLeapYears(y: int, z: int, now: Instant, r: Option<Instant>)
    requires DayOf(now) == YearStart(y) && LEAP_DAY.IsNext(now, r) && y < z && IsLeap(z)
    ensures r.Some? <==> IsLeap(y)
    ensures exists t :: t > now && LEAP_DAY.Fires(t)
  {
    NextYear(y);
    YearsGrow(y, z);
    var later := LeapDayFires(z, now);
    if IsLeap(y) {
      var t := LeapDayFires(y, now);
    } else if r.Some? {
      LeapDayOf(y, DayOf(r.value));
    }
  }
}
