/**
 Cron schedules and the skipping search for the next match.

 The search jumps over whole months, days, hours, minutes and seconds. It is
 proved to agree with looking at every second of the calendar.
 */
module Cron {
  import opened Wrappers
  import opened IntSets
  import opened Calendar

  datatype CronSchedule = CronSchedule(
    seconds: set<int>, minutes: set<int>, hours: set<int>, days: set<int>, months: set<int>, dows: set<int>)

  predicate FieldOk(s: set<int>, lo: int, hi: int)
  {
    s != {} && forall v :: v in s ==> lo <= v <= hi
  }

  /** What a successful parse guarantees: no field is empty or out of range. */
  predicate WellFormed(c: CronSchedule)
  {
    && FieldOk(c.seconds, 0, 59) && FieldOk(c.minutes, 0, 59) && FieldOk(c.hours, 0, 23)
    && FieldOk(c.days, 1, 31) && FieldOk(c.months, 1, 12) && FieldOk(c.dows, 0, 6)
  }

  /** Day of month AND day of week, unlike crontab's either-field rule. */
  predicate DayMatches(c: CronSchedule, t: DateTime)
    requires Valid(t)
  {
    t.day in c.days && Weekday(t) in c.dows
  }

  predicate Matches(c: CronSchedule, t: DateTime)
    requires Valid(t)
  {
    && t.second in c.seconds && t.minute in c.minutes && t.hour in c.hours
    && t.day in c.days && t.month in c.months && Weekday(t) in c.dows
  }

  /** The least member at or after `current`, or the first member and a wrap. */
  function NextOrFirst(s: set<int>, current: int): (r: (int, bool))
    requires s != {}
    ensures r.0 in s
    ensures !r.1 ==> r.0 >= current && forall v :: v in s && v >= current ==> r.0 <= v
    ensures r.1 ==> (forall v :: v in s ==> v < current && r.0 <= v)
  {
    var later := set v | v in s && v >= current;
    assert forall v :: v in s && v >= current ==> v in later;
    match Least(later)
    case Some(v) => (v, false)
    case None => (Least(s).value, true)
  }

  /** No date-time in [a, b) matches. */
  ghost predicate NoneIn(c: CronSchedule, a: DateTime, b: DateTime)
  {
    forall d :: Valid(d) && !Less(d, a) && Less(d, b) ==> !Matches(c, d)
  }

  // ----- one lemma per kind of jump -----

  lemma MonthJump(c: CronSchedule, t: DateTime)
    requires WellFormed(c) && Valid(t) && t.month !in c.months
    ensures var (m, wrapped) := NextOrFirst(c.months, t.month);
            var u := DateTime(if wrapped then t.year + 1 else t.year, m, 1, 0, 0, 0);
            Valid(u) && Less(t, u) && NoneIn(c, t, u)
  {
  }

  function Midnight(t: DateTime): DateTime
  {
    t.(hour := 0, minute := 0, second := 0)
  }

  lemma DayJump(c: CronSchedule, t: DateTime)
    requires WellFormed(c) && Valid(t) && !DayMatches(c, t)
    ensures var u := PlusDay(Midnight(t));
            Valid(u) && Less(t, u) && NoneIn(c, t, u)
  {
  }

  lemma HourJump(c: CronSchedule, t: DateTime)
    requires WellFormed(c) && Valid(t) && t.hour !in c.hours
    ensures var (h, wrapped) := NextOrFirst(c.hours, t.hour);
            var u := (if wrapped then PlusDay(Midnight(t)) else Midnight(t)).(hour := h);
            Valid(u) && Less(t, u) && NoneIn(c, t, u)
  {
  }

  lemma MinuteJump(c: CronSchedule, t: DateTime)
    requires WellFormed(c) && Valid(t) && t.minute !in c.minutes
    ensures var (m, wrapped) := NextOrFirst(c.minutes, t.minute);
            var top := t.(minute := 0, second := 0);
            var u := (if wrapped then PlusHour(top) else top).(minute := m);
            Valid(u) && Less(t, u) && NoneIn(c, t, u)
  {
  }

  lemma SecondJump(c: CronSchedule, t: DateTime)
    requires WellFormed(c) && Valid(t) && t.second !in c.seconds
    ensures var (s, wrapped) := NextOrFirst(c.seconds, t.second);
            var top := t.(second := 0);
            var u := (if wrapped then PlusMinute(top) else top).(second := s);
            Valid(u) && Less(t, u) && NoneIn(c, t, u)
  {
  }

  /** The reference: `t` is the first match strictly after `from`, looking at every second. */
  ghost predicate IsNextMatch(c: CronSchedule, from: DateTime, t: DateTime)
    requires Valid(from)
  {
    && Valid(t) && Matches(c, t) && Instant(t) > Instant(from)
    && forall d :: Valid(d) && Instant(from) < Instant(d) < Instant(t) ==> !Matches(c, d)
  }

  /** Every field of the schedule names the civil date-time's own: the day and its weekday both, Sunday being 0. */
  ghost predicate Names(c: CronSchedule, t: DateTime)
  {
    && t.second in c.seconds && t.minute in c.minutes && t.hour in c.hours
    && t.day in c.days && t.month in c.months && RataDie(t.year, t.month, t.day) % 7 in c.dows
  }

  /** Seconds since the first civil day, by the closed form. */
  ghost function CivilSeconds(t: DateTime): int
  {
    RataDie(t.year, t.month, t.day) * 86400 + t.hour * 3600 + t.minute * 60 + t.second
  }

  /** The reference, in civil terms: the schedule names `t` and names no valid date-time between `from` and `t`. */
  lemma NextMatchIff(c: CronSchedule, from: DateTime, t: DateTime)
    requires Valid(from) && Valid(t)
    ensures IsNextMatch(c, from, t) <==>
      && Names(c, t) && CivilSeconds(from) < CivilSeconds(t)
      && forall d :: Valid(d) && CivilSeconds(from) < CivilSeconds(d) < CivilSeconds(t) ==> !Names(c, d)
  {
    forall d | Valid(d)
      ensures Instant(d) == CivilSeconds(d) && (Matches(c, d) <==> Names(c, d))
    {
      DayNumberIsRataDie(d.year, d.month, d.day);
    }
  }

  /** The search covers the hundred years after the year of the second that follows `from`. */
  lemma CapIs(from: DateTime)
    requires Valid(from)
    ensures CapYear(from) == 100 + from.year + if from == DateTime(from.year, 12, 31, 23, 59, 59) then 1 else 0
  {
  }

  function CapYear(from: DateTime): int
    requires Valid(from)
  {
    PlusSecond(from).year + 100
  }

  lemma NoneBeforeCandidate(c: CronSchedule, from: DateTime, start: DateTime, t: DateTime, d: DateTime)
    requires Valid(from) && Valid(start) && Valid(t) && Valid(d) && Instant(start) == Instant(from) + 1
    requires NoneIn(c, start, t) && Instant(from) < Instant(d) && Less(d, t)
    ensures !Matches(c, d)
  {
    OrderIsInstantOrder(d, start);
  }

  lemma Extend(c: CronSchedule, start: DateTime, t: DateTime, u: DateTime)
    requires Valid(start) && Valid(t) && Valid(u) && !Less(t, start) && Less(t, u)
    requires NoneIn(c, start, t) && NoneIn(c, t, u)
    ensures NoneIn(c, start, u) && !Less(u, start)
    ensures Instant(t) < Instant(u)
  {
    OrderIsInstantOrder(t, u);
  }

  /** One turn of the loop: the first field that rules `t` out says where to jump. */
  method Jump(c: CronSchedule, t: DateTime) returns (jumped: bool, u: DateTime)
    requires WellFormed(c) && Valid(t)
    ensures jumped ==> Valid(u) && Less(t, u) && NoneIn(c, t, u)
    ensures !jumped ==> u == t && Matches(c, t)
  {
    if t.month !in c.months {
      MonthJump(c, t);
      var (month, wrapped) := NextOrFirst(c.months, t.month);
      return true, DateTime(if wrapped then t.year + 1 else t.year, month, 1, 0, 0, 0);
    }
    if !DayMatches(c, t) {
      DayJump(c, t);
      return true, PlusDay(Midnight(t));
    }
    if t.hour !in c.hours {
      HourJump(c, t);
      var (hour, wrapped) := NextOrFirst(c.hours, t.hour);
      var day := if wrapped then PlusDay(Midnight(t)) else Midnight(t);
      return true, day.(hour := hour);
    }
    if t.minute !in c.minutes {
      MinuteJump(c, t);
      var (minute, wrapped) := NextOrFirst(c.minutes, t.minute);
      var top := t.(minute := 0, second := 0);
      var hour := if wrapped then PlusHour(top) else top;
      return true, hour.(minute := minute);
    }
    if t.second !in c.seconds {
      SecondJump(c, t);
      var (second, wrapped) := NextOrFirst(c.seconds, t.second);
      var top := t.(second := 0);
      var minute := if wrapped then PlusMinute(top) else top;
      return true, minute.(second := second);
    }
    return false, t;
  }

  /**
   The search. It returns the least matching date-time strictly after `from`,
   fails exactly when there is none through the cap year, and terminates
   because each jump moves the candidate forward. Its last resort, a step of
   one second for a candidate no field rules out yet does not match, is never
   reached.
   */
  method NextAfter(c: CronSchedule, from: DateTime) returns (r: Result<DateTime>)
    requires WellFormed(c) && Valid(from)
    ensures r.Ok? ==> IsNextMatch(c, from, r.value) && r.value.year <= CapYear(from)
    ensures r.Err? <==> NoMatchThrough(c, from, CapYear(from))
  {
    SecondIsExact(from);
    var cand := PlusSecond(from);
    ghost var start := cand;
    var capYear := cand.year + 100;
    ghost var limit := DateTime(capYear + 1, 1, 1, 0, 0, 0);
    while cand.year <= capYear
      invariant Valid(cand) && NoneIn(c, start, cand) && !Less(cand, start)
      decreases Instant(limit) - Instant(cand)
    {
      OrderIsInstantOrder(cand, limit);
      var jumped, next := Jump(c, cand);
      if jumped {
        Extend(c, start, cand, next);
        cand := next;
      } else if Matches(c, cand) {
        FoundIsNext(c, from, start, cand);
        return Ok(cand);
      } else {
        assert false;
      }
    }
    forall d | Valid(d) && Instant(from) < Instant(d) && d.year <= capYear
      ensures !Matches(c, d)
    {
      NoneBeforeCandidate(c, from, start, cand, d);
    }
    return Err;
  }

  ghost predicate NoMatchThrough(c: CronSchedule, from: DateTime, year: int)
    requires Valid(from)
  {
    forall d :: Valid(d) && Instant(from) < Instant(d) && d.year <= year ==> !Matches(c, d)
  }

  lemma FoundIsNext(c: CronSchedule, from: DateTime, start: DateTime, t: DateTime)
    requires Valid(from) && Valid(start) && Valid(t) && Instant(start) == Instant(from) + 1
    requires NoneIn(c, start, t) && !Less(t, start) && Matches(c, t)
    ensures IsNextMatch(c, from, t)
  {
    OrderIsInstantOrder(t, start);
    forall d | Valid(d) && Instant(from) < Instant(d) < Instant(t)
      ensures !Matches(c, d)
    {
      OrderIsInstantOrder(d, t);
      NoneBeforeCandidate(c, from, start, t, d);
    }
  }
}
