/**
 Next-fire instants in a time zone.

 A zone maps every Unix second to a local date-time, and a local date-time to
 the earliest second that shows it, if any: an ambiguous local time resolves to
 its first pass. Gaps (local times nothing shows) and folds (local times shown
 twice) are both possible.
 */
module Zones {
  import opened Wrappers
  import opened Calendar
  import opened Cron
  import opened CronParse
  import Scheduler

  datatype Zone = Zone(toLocal: int -> DateTime, fromLocal: DateTime -> Option<int>)

  ghost predicate Shows(z: Zone, t: DateTime)
  {
    exists v :: z.toLocal(v) == t
  }

  /** `fromLocal` is the earliest inverse of `toLocal`. */
  ghost predicate Coherent(z: Zone)
  {
    && (forall v :: Valid(z.toLocal(v)))
    && (forall t :: z.fromLocal(t).None? <==> !Shows(z, t))
    && (forall t :: z.fromLocal(t).Some? ==> z.toLocal(z.fromLocal(t).value) == t)
    && (forall t, v :: z.fromLocal(t).Some? && z.toLocal(v) == t ==> z.fromLocal(t).value <= v)
  }

  function Local(z: Zone, v: int): int
    requires Valid(z.toLocal(v))
  {
    Instant(z.toLocal(v))
  }

  /** The local clock never goes back or stands still; it may jump forward. */
  ghost predicate NoFolds(z: Zone)
    requires Coherent(z)
  {
    forall u, v :: u < v ==> Local(z, u) < Local(z, v)
  }

  /** Some scheduled local time is reached at `u`: it is shown there, or lies in the gap that ends there. */
  ghost predicate Fires(z: Zone, c: CronSchedule, u: int)
    requires Coherent(z)
  {
    exists b :: Valid(b) && Matches(c, b) && Local(z, u - 1) < Instant(b) <= Local(z, u)
  }

  /** `u` is the first firing instant strictly after `from`. */
  ghost predicate IsNextFire(z: Zone, c: CronSchedule, from: int, u: int)
    requires Coherent(z)
  {
    u > from && Fires(z, c, u) && forall v :: from < v < u ==> !Fires(z, c, v)
  }

  /** The local time the code settles on: the first one at or after the next match `m` that the zone shows. */
  ghost predicate Chosen(z: Zone, c: CronSchedule, from: int, m: DateTime, t: DateTime)
    requires Coherent(z)
  {
    && IsNextMatch(c, z.toLocal(from), m)
    && Valid(t) && Instant(m) <= Instant(t) && Shows(z, t)
    && NoneShown(z, Instant(m), Instant(t))
  }

  ghost predicate NoneShown(z: Zone, lo: int, hi: int)
    requires Coherent(z)
  {
    forall v :: lo <= Local(z, v) ==> hi <= Local(z, v)
  }

  /** The match and the local time are both within the centuries the code looks at. */
  ghost predicate Answer(z: Zone, c: CronSchedule, from: int, m: DateTime, t: DateTime)
    requires Coherent(z)
  {
    Chosen(z, c, from, m, t) && m.year <= CapYear(z.toLocal(from)) && t.year <= m.year + 100
  }

  /** Nothing from the next match through its cap year is shown. */
  ghost predicate GapThroughCap(z: Zone, m: DateTime)
    requires Coherent(z) && Valid(m)
  {
    forall v :: Instant(m) <= Local(z, v) ==> z.toLocal(v).year > m.year + 100
  }

  /** There is no match in range, or the zone skips the next one and the century after it. */
  ghost predicate Unanswerable(z: Zone, c: CronSchedule, from: int)
    requires Coherent(z)
  {
    || NoMatchThrough(c, z.toLocal(from), CapYear(z.toLocal(from)))
    || exists m :: IsNextMatch(c, z.toLocal(from), m) && GapThroughCap(z, m)
  }

  // ----- the one answer -----

  /** There is at most one next match and one local time to settle on. */
  lemma ChosenIsUnique(z: Zone, c: CronSchedule, from: int, m: DateTime, t: DateTime, m': DateTime, t': DateTime)
    requires Coherent(z) && Chosen(z, c, from, m, t) && Chosen(z, c, from, m', t')
    ensures m == m' && t == t'
  {
    OrderIsInstantOrder(m, m');
    var v, v' :| z.toLocal(v) == t && z.toLocal(v') == t';
    assert Instant(m) <= Local(z, v) && Instant(m) <= Local(z, v');
    OrderIsInstantOrder(t, t');
  }

  /** A local time the zone shows, in range of the one next match, rules out both ways to fail. */
  lemma AnsweredIsAnswerable(z: Zone, c: CronSchedule, from: int, m: DateTime, t: DateTime)
    requires Coherent(z) && Answer(z, c, from, m, t)
    ensures !Unanswerable(z, c, from)
  {
    forall m' | IsNextMatch(c, z.toLocal(from), m')
      ensures !GapThroughCap(z, m')
    {
      OrderIsInstantOrder(m', m);
      var v :| z.toLocal(v) == t;
      assert Instant(m') <= Local(z, v);
    }
  }

  lemma {:induction false} LeastMatch(c: CronSchedule, from: DateTime, d: DateTime) returns (m: DateTime)
    requires Valid(from) && Valid(d) && Matches(c, d) && Instant(from) < Instant(d)
    ensures IsNextMatch(c, from, m) && Instant(m) <= Instant(d) && m.year <= d.year
    decreases Instant(d) - Instant(from)
  {
    if e :| Valid(e) && Instant(from) < Instant(e) < Instant(d) && Matches(c, e) {
      m := LeastMatch(c, from, e);
    } else {
      m := d;
    }
    OrderIsInstantOrder(m, d);
  }

  lemma {:induction false} LeastShown(z: Zone, lo: int, v: int) returns (u: int)
    requires Coherent(z) && lo <= Local(z, v)
    ensures lo <= Local(z, u) <= Local(z, v) && NoneShown(z, lo, Local(z, u)) && z.toLocal(u).year <= z.toLocal(v).year
    decreases Local(z, v) - lo
  {
    if w :| lo <= Local(z, w) < Local(z, v) {
      u := LeastShown(z, lo, w);
    } else {
      u := v;
    }
    OrderIsInstantOrder(z.toLocal(u), z.toLocal(v));
  }

  lemma AnswerExists(z: Zone, c: CronSchedule, from: int)
    requires Coherent(z) && !Unanswerable(z, c, from)
    ensures exists m, t :: Answer(z, c, from, m, t)
  {
    var start := z.toLocal(from);
    var d :| Valid(d) && Instant(start) < Instant(d) && d.year <= CapYear(start) && Matches(c, d);
    var m := LeastMatch(c, start, d);
    var v :| Instant(m) <= Local(z, v) && z.toLocal(v).year <= m.year + 100;
    var u := LeastShown(z, Instant(m), v);
    assert Shows(z, z.toLocal(u));
    assert Answer(z, c, from, m, z.toLocal(u));
  }

  /** What the code answers for a cron schedule: the earliest instant of the one local time it settles on. */
  ghost function NextCron(z: Zone, c: CronSchedule, from: int): Result<int>
    requires Coherent(z)
  {
    if Unanswerable(z, c, from) then Err
    else
      AnswerExists(z, c, from);
      var m, t :| Answer(z, c, from, m, t);
      Ok(z.fromLocal(t).value)
  }

  lemma AnswerIsNextCron(z: Zone, c: CronSchedule, from: int, m: DateTime, t: DateTime)
    requires Coherent(z) && Answer(z, c, from, m, t)
    ensures z.fromLocal(t).Some? && NextCron(z, c, from) == Ok(z.fromLocal(t).value)
  {
    AnsweredIsAnswerable(z, c, from, m, t);
    AnswerExists(z, c, from);
    var m', t' :| Answer(z, c, from, m', t') && NextCron(z, c, from) == Ok(z.fromLocal(t').value);
    ChosenIsUnique(z, c, from, m, t, m', t');
  }

  /** The next-fire calculator of a parsed expression in a zone. */
  ghost function NextUnix(z: Zone, expr: ScheduleExpr, from: int): Result<int>
    requires Coherent(z)
  {
    match expr
    case Every(interval) => Scheduler.Every(interval)(from)
    case CronExpr(c) => NextCron(z, c, from)
  }

  /**
   `next_after_unix_in_tz` computes that calculator. In any zone a cron result
   is the earliest instant of the one local time chosen, and the call fails
   exactly when the schedule has no match in range or the zone shows nothing for
   a century after it.
   */
  method NextAfterUnix(expr: ScheduleExpr, from: int, z: Zone) returns (r: Result<int>)
    requires Coherent(z)
    requires expr.CronExpr? ==> WellFormed(expr.schedule)
    ensures r == NextUnix(z, expr, from)
    ensures expr.Every? ==> r == if from + expr.interval > I64_MAX then Err else Ok(from + expr.interval)
    ensures expr.CronExpr? && r.Ok? ==>
      exists m, t :: Answer(z, expr.schedule, from, m, t) && z.fromLocal(t) == Some(r.value)
    ensures expr.CronExpr? && r.Ok? && NoFolds(z) ==> IsNextFire(z, expr.schedule, from, r.value)
    ensures expr.CronExpr? ==> (r.Err? <==> Unanswerable(z, expr.schedule, from))
  {
    match expr
    case Every(interval) =>
      return if from + interval > I64_MAX then Err else Ok(from + interval);
    case CronExpr(c) =>
      var next := NextAfter(c, z.toLocal(from));
      if next.Err? {
        return Err;
      }
      var cand := next.value;
      var capYear := cand.year + 100;
      ghost var limit := DateTime(capYear + 1, 1, 1, 0, 0, 0);
      while cand.year <= capYear
        invariant Valid(cand) && Instant(next.value) <= Instant(cand)
        invariant NoneShown(z, Instant(next.value), Instant(cand))
        decreases Instant(limit) - Instant(cand)
      {
        var back := z.fromLocal(cand);
        OrderIsInstantOrder(cand, limit);
        if back.Some? {
          assert Answer(z, c, from, next.value, cand);
          AnswerIsNextCron(z, c, from, next.value, cand);
          if NoFolds(z) {
            ChosenIsNextFire(z, c, from, next.value, cand, back.value);
          }
          AnsweredIsAnswerable(z, c, from, next.value, cand);
          return Ok(back.value);
        }
        SkipUnshown(z, Instant(next.value), cand);
        cand := PlusSecond(cand);
      }
      forall v | Instant(next.value) <= Local(z, v)
        ensures z.toLocal(v).year > capYear
      {
        OrderIsInstantOrder(z.toLocal(v), cand);
      }
      return Err;
  }

  lemma SkipUnshown(z: Zone, lo: int, t: DateTime)
    requires Coherent(z) && Valid(t) && lo <= Instant(t)
    requires NoneShown(z, lo, Instant(t)) && z.fromLocal(t).None?
    ensures Valid(PlusSecond(t)) && Instant(PlusSecond(t)) == Instant(t) + 1
    ensures NoneShown(z, lo, Instant(PlusSecond(t)))
  {
    SecondIsExact(t);
    forall v
      ensures lo <= Local(z, v) ==> Instant(t) + 1 <= Local(z, v)
    {
      OrderIsInstantOrder(z.toLocal(v), t);
    }
  }

  /** Without folds, the earliest instant of the chosen local time is the first firing instant after `from`. */
  lemma ChosenIsNextFire(z: Zone, c: CronSchedule, from: int, m: DateTime, t: DateTime, u: int)
    requires Coherent(z) && NoFolds(z) && Chosen(z, c, from, m, t) && z.fromLocal(t) == Some(u)
    ensures IsNextFire(z, c, from, u)
  {
    if u <= from {
      ClockGrows(z, u, from);
    }
    ClockGrows(z, u - 1, u);
    ChosenFires(z, c, from, m, t, u);
    forall v | from < v < u
      ensures !Fires(z, c, v)
    {
      BeforeChosen(z, c, from, m, t, u, v);
    }
  }

  lemma ClockGrows(z: Zone, u: int, v: int)
    requires Coherent(z) && NoFolds(z) && u <= v
    ensures Local(z, u) <= Local(z, v)
    ensures u < v ==> Local(z, u) < Local(z, v)
  {
  }

  lemma ChosenFires(z: Zone, c: CronSchedule, from: int, m: DateTime, t: DateTime, u: int)
    requires Coherent(z) && Chosen(z, c, from, m, t) && z.fromLocal(t) == Some(u) && Local(z, u - 1) < Local(z, u)
    ensures Fires(z, c, u) && Local(z, from) < Local(z, u)
  {
    assert Local(z, u) == Instant(t);
    assert Local(z, u - 1) < Instant(m);
  }

  lemma BeforeChosen(z: Zone, c: CronSchedule, from: int, m: DateTime, t: DateTime, u: int, v: int)
    requires Coherent(z) && NoFolds(z) && Chosen(z, c, from, m, t) && z.fromLocal(t) == Some(u) && from < v < u
    ensures !Fires(z, c, v)
  {
    ClockGrows(z, from, v - 1);
    ClockGrows(z, v, u);
    NoEarlierFire(z, c, from, m, t, v);
  }

  lemma NoEarlierFire(z: Zone, c: CronSchedule, from: int, m: DateTime, t: DateTime, v: int)
    requires Coherent(z) && Chosen(z, c, from, m, t)
    requires Local(z, from) <= Local(z, v - 1) && Local(z, v) < Instant(t)
    ensures !Fires(z, c, v)
  {
    assert Local(z, v) < Instant(m);
    forall b | Valid(b) && Local(z, v - 1) < Instant(b) <= Local(z, v)
      ensures !Matches(c, b)
    {
    }
  }

  // ----- when the result is strictly after the start -----

  /**
   For one schedule, in any zone: the result is after `from` exactly when
   the clock has not yet shown the chosen local time.
   */
  lemma StrictIff(z: Zone, c: CronSchedule, from: int, m: DateTime, t: DateTime)
    requires Coherent(z) && Answer(z, c, from, m, t)
    ensures NextCron(z, c, from).Ok?
    ensures NextCron(z, c, from).value > from <==> forall v :: v <= from ==> z.toLocal(v) != t
  {
    AnswerIsNextCron(z, c, from, m, t);
  }

  /** The clock has never shown a later local time than it shows at `from`: `from` is not in a second pass. */
  ghost predicate FirstPass(z: Zone, from: int)
    requires Coherent(z)
  {
    forall v :: v <= from ==> Local(z, v) <= Local(z, from)
  }

  /** Whatever the schedule, an answer from `from` is after it. */
  ghost predicate AlwaysStrict(z: Zone, from: int)
    requires Coherent(z)
  {
    forall c :: WellFormed(c) && NextCron(z, c, from).Ok? ==> NextCron(z, c, from).value > from
  }

  /**
   For every schedule, with folds of at most a day: the result is after `from`,
   whatever the schedule, exactly when `from` is not in a second pass.
   */
  lemma StrictForEveryScheduleIff(z: Zone, from: int)
    requires Coherent(z)
    requires forall v :: v <= from ==> Local(z, v) < Local(z, from) + 86400
    ensures AlwaysStrict(z, from) <==> FirstPass(z, from)
  {
    if FirstPass(z, from) {
      forall c | WellFormed(c) && NextCron(z, c, from).Ok?
        ensures NextCron(z, c, from).value > from
      {
        FirstPassIsStrict(z, c, from);
      }
    } else {
      var v :| v <= from && Local(z, v) > Local(z, from);
      SecondPassGoesBack(z, from, v);
    }
  }

  lemma FirstPassIsStrict(z: Zone, c: CronSchedule, from: int)
    requires Coherent(z) && FirstPass(z, from) && NextCron(z, c, from).Ok?
    ensures NextCron(z, c, from).value > from
  {
    AnswerExists(z, c, from);
    var m, t :| Answer(z, c, from, m, t);
    AnswerIsNextCron(z, c, from, m, t);
    var u := z.fromLocal(t).value;
    assert Local(z, u) == Instant(t) > Local(z, from);
  }

  /** In a second pass the daily schedule of a local time already shown fires in the past. */
  lemma SecondPassGoesBack(z: Zone, from: int, v: int)
    requires Coherent(z) && v <= from && Local(z, from) < Local(z, v) < Local(z, from) + 86400
    ensures WellFormed(DailyAt(z.toLocal(v)))
    ensures NextCron(z, DailyAt(z.toLocal(v)), from).Ok? && NextCron(z, DailyAt(z.toLocal(v)), from).value <= from
  {
    var t := z.toLocal(v);
    DailyNext(z.toLocal(from), t);
    NextDayInRange(z.toLocal(from), t);
    assert Answer(z, DailyAt(t), from, t, t);
    AnswerIsNextCron(z, DailyAt(t), from, t, t);
  }

  lemma NextDayInRange(from: DateTime, t: DateTime)
    requires Valid(from) && Valid(t) && Instant(t) < Instant(from) + 86400
    ensures t.year <= CapYear(from)
  {
    DayIsExact(from);
    OrderIsInstantOrder(t, PlusDay(from));
  }

  /** The schedule "every day at this hour, minute and second". */
  function DailyAt(t: DateTime): CronSchedule
  {
    EVERY_SECOND.(seconds := {t.second}, minutes := {t.minute}, hours := {t.hour})
  }

  /** Seconds since midnight. */
  function TimeOfDay(t: DateTime): int
  {
    t.hour * 3600 + t.minute * 60 + t.second
  }

  /** Two date-times at the same time of day and less than a day apart are the same instant. */
  lemma SameTimeSameDay(a: DateTime, b: DateTime)
    requires Valid(a) && Valid(b) && TimeOfDay(a) == TimeOfDay(b)
    requires -86400 < Instant(a) - Instant(b) < 86400
    ensures Instant(a) == Instant(b)
  {
    SameDay(DayNumber(a.year, a.month, a.day), DayNumber(b.year, b.month, b.day), TimeOfDay(a), Instant(a), Instant(b));
  }

  lemma SameDay(p: int, q: int, time: int, a: int, b: int)
    requires a == p * 86400 + time && b == q * 86400 + time && -86400 < a - b < 86400
    ensures a == b
  {
  }

  lemma DailyMatchTime(t: DateTime, d: DateTime)
    requires Valid(t) && Valid(d)
    ensures Matches(DailyAt(t), d) ==> TimeOfDay(d) == TimeOfDay(t)
    ensures Matches(DailyAt(t), t)
  {
    EverySecondMatches(t);
  }

  lemma DailyNext(from: DateTime, t: DateTime)
    requires Valid(from) && Valid(t) && Instant(from) < Instant(t) < Instant(from) + 86400
    ensures WellFormed(DailyAt(t)) && IsNextMatch(DailyAt(t), from, t)
  {
    assert 1 in DailyAt(t).days && 1 in DailyAt(t).months && 1 in DailyAt(t).dows;
    DailyMatchTime(t, t);
    forall d | Valid(d) && Instant(from) < Instant(d) < Instant(t)
      ensures !Matches(DailyAt(t), d)
    {
      DailyMatchTime(t, d);
      if TimeOfDay(d) == TimeOfDay(t) {
        SameTimeSameDay(d, t);
      }
    }
  }

  // ----- the scheduler in a zone without folds -----

  /** The calculator of a cron schedule, as the scheduler uses it. */
  ghost function CronNext(z: Zone, c: CronSchedule): (next: Scheduler.Next)
    requires Coherent(z)
    ensures forall t :: next(t) == NextCron(z, c, t)
  {
    (t: int) => NextCron(z, c, t)
  }

  /** Without folds it returns the next firing instant. */
  lemma CronNextFires(z: Zone, c: CronSchedule, t: int)
    requires Coherent(z) && NoFolds(z) && NextCron(z, c, t).Ok?
    ensures IsNextFire(z, c, t, NextCron(z, c, t).value)
  {
    AnswerExists(z, c, t);
    var m, d :| Answer(z, c, t, m, d);
    AnswerIsNextCron(z, c, t, m, d);
    ChosenIsNextFire(z, c, t, m, d, z.fromLocal(d).value);
  }

  ghost function Boundary(z: Zone, c: CronSchedule): (boundary: int -> bool)
    requires Coherent(z)
    ensures forall u :: boundary(u) <==> Fires(z, c, u)
  {
    (u: int) => Fires(z, c, u)
  }

  lemma CronIsLeastAfter(z: Zone, c: CronSchedule)
    requires Coherent(z) && NoFolds(z)
    ensures Scheduler.LeastAfter(CronNext(z, c), Boundary(z, c)) && Scheduler.StrictlyAfter(CronNext(z, c))
  {
    var next, boundary := CronNext(z, c), Boundary(z, c);
    forall t | next(t).Ok?
      ensures next(t).value > t && boundary(next(t).value) && forall v :: t < v < next(t).value ==> !boundary(v)
    {
      CronNextFires(z, c, t);
    }
  }

  /** So the catch-up skip of a cron task lands on the chain of boundaries that firing one by one would reach. */
  lemma CronSkipLandsOnChain(z: Zone, c: CronSchedule, at: int, tick: int)
    requires Coherent(z) && NoFolds(z) && at <= tick
    requires forall t :: at <= t <= tick ==> NextCron(z, c, t).Ok?
    ensures Scheduler.OnChain(CronNext(z, c), at, NextCron(z, c, tick).value)
  {
    CronIsLeastAfter(z, c);
    Scheduler.SkipLandsOnChain(CronNext(z, c), Boundary(z, c), at, tick);
  }

  /**
   And any run of ticks of a cron task, failing ones included, that never finds
   more than 64 fires due delivers every firing instant of the calendar in the
   zone exactly once, in order, and no other.
   */
  lemma CronFiresExactlyOnce(z: Zone, c: CronSchedule, at: int, ticks: seq<int>)
    requires Coherent(z) && NoFolds(z) && Fires(z, c, at)
    requires Scheduler.NeverCapped(CronNext(z, c), at, ticks)
    ensures var f := Scheduler.RunTicks(CronNext(z, c), at, ticks);
            && Scheduler.Increasing(f.fires) && at <= f.next && Fires(z, c, f.next)
            && forall u :: u in f.fires <==> at <= u < f.next && Fires(z, c, u)
  {
    CronIsLeastAfter(z, c);
    Scheduler.EveryBoundaryFiresOnce(CronNext(z, c), Boundary(z, c), at, ticks);
  }

  // ----- a fold -----

  /** A clock that shows local second `base + v` and is set back by five seconds at v = 10. */
  ghost function SetBackLocal(base: int, v: int): (t: DateTime)
    ensures Valid(t) && Instant(t) == base + (if v < 10 then v else v - 5)
  {
    AtInstant(base + (if v < 10 then v else v - 5))
  }

  ghost function SetBackUnix(base: int, t: DateTime): Option<int>
  {
    if !Valid(t) then None
    else if Instant(t) - base < 10 then Some(Instant(t) - base)
    else Some(Instant(t) - base + 5)
  }

  ghost function SetBack(base: int): (z: Zone)
    ensures forall v :: z.toLocal(v) == SetBackLocal(base, v)
    ensures forall t :: z.fromLocal(t) == SetBackUnix(base, t)
  {
    Zone((v: int) => SetBackLocal(base, v), (t: DateTime) => SetBackUnix(base, t))
  }

  lemma SetBackInverse(base: int, t: DateTime)
    requires Valid(t)
    ensures SetBackUnix(base, t).Some? && SetBackLocal(base, SetBackUnix(base, t).value) == t
    ensures forall v :: SetBackLocal(base, v) == t ==> SetBackUnix(base, t).value <= v
  {
    OrderIsInstantOrder(SetBackLocal(base, SetBackUnix(base, t).value), t);
  }

  lemma SetBackIsCoherent(base: int)
    ensures Coherent(SetBack(base))
  {
    var z := SetBack(base);
    forall t
      ensures z.fromLocal(t).None? <==> !Shows(z, t)
      ensures z.fromLocal(t).Some? ==> z.toLocal(z.fromLocal(t).value) == t
      ensures forall v :: z.fromLocal(t).Some? && z.toLocal(v) == t ==> z.fromLocal(t).value <= v
    {
      if Valid(t) {
        SetBackInverse(base, t);
        assert z.toLocal(z.fromLocal(t).value) == t;
      }
    }
  }

  /** Every second of every day. */
  const EVERY_SECOND := CronSchedule(
    set v: int | 0 <= v <= 59, set v: int | 0 <= v <= 59, set v: int | 0 <= v <= 23,
    set v: int | 1 <= v <= 31, set v: int | 1 <= v <= 12, set v: int | 0 <= v <= 6)

  lemma EverySecondMatches(t: DateTime)
    requires Valid(t)
    ensures Matches(EVERY_SECOND, t)
  {
  }

  /**
   In the second pass of a fold the result precedes `from`: at v = 12 the clock
   shows base + 7, the next match is base + 8, and its first pass was at 8.
   */
  lemma FoldGoesBack(base: int)
    ensures Coherent(SetBack(base)) && NextCron(SetBack(base), EVERY_SECOND, 12) == Ok(8)
  {
    var z := SetBack(base);
    SetBackIsCoherent(base);
    var t := z.toLocal(8);
    EverySecondMatches(t);
    assert Instant(z.toLocal(12)) == base + 7 && Instant(t) == base + 8;
    NextDayInRange(z.toLocal(12), t);
    assert Answer(z, EVERY_SECOND, 12, t, t);
    AnswerIsNextCron(z, EVERY_SECOND, 12, t, t);
  }
}
