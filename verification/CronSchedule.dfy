// The next firing of a cron expression (pkg/scheduler/scheduler.go). Instants
// are nanoseconds of local time, at a fixed offset from UTC, since the start
// of day 0 of the calendar.
module CronSchedule {
  import opened Common
  import opened Calendar
  import opened CronFields

  type Instant = int

  const MINUTE: int := 60_000_000_000
  const HOUR: int := 3_600_000_000_000
  const DAY: int := 86_400_000_000_000
  const HORIZON: int := 366

  function DayOf(t: Instant): int { t / DAY }
  function HourOf(t: Instant): int { (t % DAY) / HOUR }
  function MinuteOf(t: Instant): int { (t % HOUR) / MINUTE }

  function TimeAt(day: int, hour: int, minute: int): Instant
  {
    day * DAY + hour * HOUR + minute * MINUTE
  }

  lemma InDays(x: int, q: int, r: int)
    requires 0 <= r < DAY && x == q * DAY + r
    ensures x / DAY == q && x % DAY == r
  {
  }

  lemma InHours(x: int, q: int, r: int)
    requires 0 <= r < HOUR && x == q * HOUR + r
    ensures x / HOUR == q && x % HOUR == r
  {
  }

  lemma InMinutes(x: int, q: int, r: int)
    requires 0 <= r < MINUTE && x == q * MINUTE + r
    ensures x / MINUTE == q && x % MINUTE == r
  {
  }

  lemma Parts(day: int, hour: int, minute: int)
    requires 0 <= hour < 24 && 0 <= minute < 60
    ensures var t := TimeAt(day, hour, minute);
      t % MINUTE == 0 && DayOf(t) == day && HourOf(t) == hour && MinuteOf(t) == minute
  {
    var t := TimeAt(day, hour, minute);
    var inHour := minute * MINUTE;
    var inDay := hour * HOUR + inHour;
    InDays(t, day, inDay);
    InHours(inDay, hour, inHour);
    InHours(t, 24 * day + hour, inHour);
    InMinutes(inHour, minute, 0);
    InMinutes(t, 1440 * day + 60 * hour + minute, 0);
  }

  lemma Whole(t: Instant)
    requires t % MINUTE == 0
    ensures 0 <= HourOf(t) < 24 && 0 <= MinuteOf(t) < 60 && t == TimeAt(DayOf(t), HourOf(t), MinuteOf(t))
  {
    var k := t / MINUTE;
    var inDay := k % 1440;
    var day, hour, minute := k / 1440, inDay / 60, inDay % 60;
    assert t == TimeAt(day, hour, minute);
    Parts(day, hour, minute);
  }

  /** The five fields of an expression, as text. */
  datatype Fields = Fields(minute: Field, hour: Field, day: Field, month: Field, weekday: Field) {

    ghost predicate Valid()
    {
      && IsValid(minute, 0, 59) && IsValid(hour, 0, 23) && IsValid(day, 1, 31)
      && IsValid(month, 1, 12) && IsValid(weekday, 0, 6)
    }

    /** Month, day of the month and weekday must all be allowed. */
    ghost predicate DayMatches(n: int)
      requires Valid()
    {
      var d := DateOf(n);
      Admits(month, 1, d.month) && Admits(day, 1, d.day) && Admits(weekday, 0, Weekday(n))
    }

    ghost predicate Fires(t: Instant)
      requires Valid()
    {
      && t % MINUTE == 0
      && DayMatches(DayOf(t)) && Admits(hour, 0, HourOf(t)) && Admits(minute, 0, MinuteOf(t))
    }

    /** `r` is the first firing after `now` in the 366 calendar days starting today. */
    ghost predicate IsNext(now: Instant, r: Option<Instant>)
      requires Valid()
    {
      match r
      case None => forall u :: u > now && DayOf(u) < DayOf(now) + HORIZON ==> !Fires(u)
      case Some(t) =>
        && t > now && Fires(t) && DayOf(t) < DayOf(now) + HORIZON
        && forall u :: now < u < t ==> !Fires(u)
    }
  }

  function FieldsOf(texts: seq<string>): Fields
    requires |texts| == 5
  {
    Fields(FieldOf(texts[0]), FieldOf(texts[1]), FieldOf(texts[2]), FieldOf(texts[3]), FieldOf(texts[4]))
  }

  method MatchesField(value: int, allowed: seq<int>) returns (r: bool)
    ensures r <==> value in allowed
  {
    for i := 0 to |allowed|
      invariant value !in allowed[..i]
    {
      if allowed[i] == value {
        return true;
      }
    }
    return false;
  }

  /** `allowed` lists the values of the field in its range. */
  ghost predicate Reads(f: Field, min: int, max: int, allowed: seq<int>)
  {
    IsValid(f, min, max) && forall v :: min <= v <= max ==> (v in allowed <==> Admits(f, min, v))
  }

  /** No firing after `now` on days before `day`, nor on `day` before hour `h`, nor in that hour before minute `m`. */
  ghost predicate NoneBefore(f: Fields, now: Instant, day: int, h: int, m: int)
    requires f.Valid()
  {
    forall u :: u > now && Precedes(u, day, h, m) ==> !f.Fires(u)
  }

  ghost predicate Precedes(u: Instant, day: int, h: int, m: int)
  {
    DayOf(u) < day || (DayOf(u) == day && (HourOf(u) < h || (HourOf(u) == h && MinuteOf(u) < m)))
  }

  lemma EarlierPrecedes(u: Instant, day: int, h: int, m: int)
    requires 0 <= h < 24 && 0 <= m < 60 && u % MINUTE == 0 && u < TimeAt(day, h, m)
    ensures Precedes(u, day, h, m)
  {
    Whole(u);
  }

  /** `findNextTime`, for five fields. */
  method FindNextTime(texts: seq<string>, now: Instant) returns (r: Option<Instant>)
    requires |texts| == 5
    ensures !FieldsOf(texts).Valid() ==> r == None
    ensures FieldsOf(texts).Valid() ==> FieldsOf(texts).IsNext(now, r)
  {
    var minute := ParseCronField(texts[0], 0, 59);
    if minute.Err? { return None; }
    var hour := ParseCronField(texts[1], 0, 23);
    if hour.Err? { return None; }
    var day := ParseCronField(texts[2], 1, 31);
    if day.Err? { return None; }
    var month := ParseCronField(texts[3], 1, 12);
    if month.Err? { return None; }
    var weekday := ParseCronField(texts[4], 0, 6);
    if weekday.Err? { return None; }
    r := Search(FieldsOf(texts), minute.value, hour.value, day.value, month.value, weekday.value, now);
  }

  /** The loop over days. */
  method Search(ghost f: Fields, minute: seq<int>, hour: seq<int>, day: seq<int>, month: seq<int>, weekday: seq<int>,
                now: Instant)
    returns (r: Option<Instant>)
    requires Reads(f.minute, 0, 59, minute) && Reads(f.hour, 0, 23, hour) && Reads(f.day, 1, 31, day)
    requires Reads(f.month, 1, 12, month) && Reads(f.weekday, 0, 6, weekday)
    ensures f.IsNext(now, r)
  {
    for i := 0 to HORIZON
      invariant NoneBefore(f, now, DayOf(now) + i, 0, 0)
    {
      var candidate := DayOf(now) + i;
      var date := DateOf(candidate);
      var matches := MatchesField(date.month, month);
      if matches {
        matches := MatchesField(date.day, day);
      }
      if matches {
        matches := MatchesField(Weekday(candidate), weekday);
      }
      if matches {
        r := SearchDay(f, minute, hour, now, candidate);
        if r.Some? {
          return;
        }
      }
    }
    r := None;
  }

  /** The loops over the hours and minutes of a day that matches. */
  method SearchDay(ghost f: Fields, minute: seq<int>, hour: seq<int>, now: Instant, candidate: int)
    returns (r: Option<Instant>)
    requires f.Valid() && Reads(f.minute, 0, 59, minute) && Reads(f.hour, 0, 23, hour)
    requires f.DayMatches(candidate) && NoneBefore(f, now, candidate, 0, 0)
    ensures r.Some? ==> DayOf(r.value) == candidate && r.value > now && f.Fires(r.value)
    ensures r.Some? ==> forall u :: now < u < r.value ==> !f.Fires(u)
    ensures r.None? ==> NoneBefore(f, now, candidate + 1, 0, 0)
  {
    for h := 0 to 24
      invariant NoneBefore(f, now, candidate, h, 0)
    {
      var matches := MatchesField(h, hour);
      if matches {
        for m := 0 to 60
          invariant NoneBefore(f, now, candidate, h, m)
        {
          matches := MatchesField(m, minute);
          var target := TimeAt(candidate, h, m);
          Parts(candidate, h, m);
          if matches && target > now {
            forall u | now < u < target ensures !f.Fires(u) {
              if u % MINUTE == 0 {
                EarlierPrecedes(u, candidate, h, m);
              }
            }
            return Some(target);
          }
          NextMinute(f, now, candidate, h, m);
        }
      }
      NextHour(f, now, candidate, h);
    }
    NextDayBegins(f, now, candidate);
    r := None;
  }

  lemma NextMinute(f: Fields, now: Instant, day: int, h: int, m: int)
    requires f.Valid() && NoneBefore(f, now, day, h, m) && 0 <= h < 24 && 0 <= m < 60
    requires TimeAt(day, h, m) > now ==> !f.Fires(TimeAt(day, h, m))
    ensures NoneBefore(f, now, day, h, m + 1)
  {
    forall u | u > now && Precedes(u, day, h, m + 1) ensures !f.Fires(u) {
      if !Precedes(u, day, h, m) && u % MINUTE == 0 {
        Whole(u);
      }
    }
  }

  lemma NextHour(f: Fields, now: Instant, day: int, h: int)
    requires f.Valid() && NoneBefore(f, now, day, h, 0)
    requires NoneBefore(f, now, day, h, 60) || !Admits(f.hour, 0, h)
    ensures NoneBefore(f, now, day, h + 1, 0)
  {
    forall u | u > now && Precedes(u, day, h + 1, 0) ensures !f.Fires(u) {
      if u % MINUTE == 0 {
        Whole(u);
      }
    }
  }

  lemma NextDayBegins(f: Fields, now: Instant, day: int)
    requires f.Valid() && NoneBefore(f, now, day, 24, 0)
    ensures NoneBefore(f, now, day + 1, 0, 0)
  {
    forall u | u > now && Precedes(u, day + 1, 0, 0) ensures !f.Fires(u) {
      if u % MINUTE == 0 {
        Whole(u);
      }
    }
  }

  // ----- What the next firing is good for -----

  /** The next firing is determined by the fields and the time asked. */
  lemma NextIsUnique(f: Fields, now: Instant, r: Option<Instant>, q: Option<Instant>)
    requires f.Valid() && f.IsNext(now, r) && f.IsNext(now, q)
    ensures r == q
  {
    if r.Some? && q.Some? {
      assert !(now < r.value < q.value) && !(now < q.value < r.value);
    }
  }

  /** `ts` is what asking again and again yields, beginning at `now`. */
  ghost predicate IsRun(f: Fields, now: Instant, ts: seq<Instant>)
    requires f.Valid()
    decreases |ts|
  {
    ts == [] || (f.IsNext(now, Some(ts[0])) && IsRun(f, ts[0], ts[1..]))
  }

  /** Asking again and again enumerates the firings in order and skips none. */
  lemma {:induction false} RunEnumeratesFirings(f: Fields, now: Instant, ts: seq<Instant>, u: Instant)
    requires f.Valid() && IsRun(f, now, ts) && ts != []
    ensures ts[0] > now && forall i, j :: 0 <= i < j < |ts| ==> ts[i] < ts[j]
    ensures u in ts <==> f.Fires(u) && now < u <= ts[|ts| - 1]
    decreases |ts|
  {
    if |ts| > 1 {
      RunEnumeratesFirings(f, ts[0], ts[1..], u);
      assert ts == [ts[0]] + ts[1..];
    } else {
      assert ts == [ts[0]];
    }
  }

  /** When asking again finds nothing more, every firing not listed is 366 or more calendar days past the last. */
  lemma RunEndsAtGap(f: Fields, now: Instant, ts: seq<Instant>, u: Instant)
    requires f.Valid() && IsRun(f, now, ts) && ts != [] && f.IsNext(ts[|ts| - 1], None)
    ensures f.Fires(u) && u > now ==> u in ts || DayOf(u) - DayOf(ts[|ts| - 1]) >= HORIZON
  {
    RunEnumeratesFirings(f, now, ts, u);
  }

  // ----- Jobs -----

  datatype Schedule =
    | Interval(every: int)
    | Once(at: Instant)
    | Cron(expr: string)
    | Unknown

  /** The mutable part of a job; an absent time stands for Go's zero time. */
  datatype Job = Job(schedule: Schedule, lastRun: Option<Instant>, enabled: bool, nextRun: Option<Instant>)

  /** What the next run computed at `now` must be. */
  ghost predicate IsNextRun(job: Job, now: Instant, r: Option<Instant>)
  {
    match job.schedule
    case Interval(every) => r == Some((if job.lastRun.Some? then job.lastRun.value else now) + every)
    case Once(at) => r == if at > now then Some(at) else None
    case Cron(expr) =>
      var words := Words(expr);
      if |words| == 5 && FieldsOf(words).Valid() then FieldsOf(words).IsNext(now, r) else r == None
    case Unknown => r == None
  }

  method CalculateNextRun(job: Job, now: Instant) returns (r: Option<Instant>)
    ensures IsNextRun(job, now, r)
  {
    match job.schedule
    case Interval(every) =>
      if job.lastRun.None? {
        return Some(now + every);
      }
      return Some(job.lastRun.value + every);
    case Once(at) =>
      return if at > now then Some(at) else None;
    case Cron(expr) =>
      var words := ParseCronFields(expr);
      if |words| != 5 {
        return None;
      }
      r := FindNextTime(words, now);
    case Unknown =>
      return None;
  }

  /** Scheduling at `now` never yields a time that has passed, except for an interval counted from an old run. */
  lemma NextRunIsAhead(job: Job, now: Instant, t: Instant)
    requires IsNextRun(job, now, Some(t)) && t <= now
    ensures job.schedule.Interval? &&
      if job.lastRun.Some? then job.lastRun.value + job.schedule.every <= now else job.schedule.every <= 0
  {
  }
}
