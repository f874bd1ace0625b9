/**
 A worker's whole wait: it claims, and when the claim comes back empty it asks
 `queue_next_claim_at` how long to sleep and parks until that time or a tick,
 while other connections commit and the poller polls.
 */
module Sleepers {
  import opened Wrappers
  import opened Queue
  import opened Jobs
  import opened Claims
  import opened NextClaim
  import Runs
  import Wakes

  /** A worker of one queue, with its own subscription to the watcher. */
  datatype Worker = Worker(queue: string, name: string, timeout: int, id: nat)

  /** What the worker went to sleep on: the tables it asked about, when, and the answer. */
  datatype Plan = Plan(db: Db, at: int, until: int)

  /** `emptyAt` is the clock of the worker's last claim while that claim came back empty and it has not parked since. */
  datatype World = World(wakes: Wakes.World, db: Db, clock: int, plan: Plan, emptyAt: Option<int>)

  /**
   `Work` is an operation of any other connection, `Signal` an event of the wake
   path, among them commits outside the job tables; `TryClaim` and `Ask` are the
   worker's own statements.
   */
  datatype Move =
    | Work(s: Runs.Stamp)
    | Signal(ev: Wakes.Event)
    | TryClaim(now: int, fault: bool)
    | Ask(now: int)

  function ClaimOf(me: Worker, now: int, fault: bool): Runs.Stamp
  {
    Runs.Stamp(now, Claim(me.queue, me.name, 1, me.timeout), fault)
  }

  /** An operation at its clock reading; a change of the tables is a commit. */
  function Written(w: World, s: Runs.Stamp): World
  {
    var db := Runs.Apply(w.db, s);
    w.(db := db, clock := s.now, wakes := if db == w.db then w.wakes else Wakes.Step(w.wakes, Wakes.Commit))
  }

  function SetParked(wakes: Wakes.World, id: nat, parked: bool): Wakes.World
  {
    if id in wakes.subs then Wakes.Update(wakes, id, wakes.subs[id].(parked := parked)) else wakes
  }

  function Step(me: Worker, w: World, m: Move): World
  {
    match m
    case Work(s) => Written(w, s)
    case Signal(ev) => if ev == Wakes.Reread(me.id) then w else w.(wakes := Wakes.Step(w.wakes, ev))
    case TryClaim(now, fault) =>
      var s := ClaimOf(me, now, fault);
      var after := Written(w, s);
      after.(wakes := SetParked(after.wakes, me.id, false),
             emptyAt := if Runs.Commits(w.db, s) && Matched(w.db, s.ev, now) == {} then Some(now) else None)
    case Ask(now) =>
      if w.emptyAt.None? then w.(clock := now)
      else
        World(Wakes.Step(w.wakes, Wakes.Reread(me.id)), w.db, now,
              Plan(w.db, now, QueueNextClaimAt(w.db, me.queue, now)), None)
  }

  function Run(me: Worker, w: World, moves: seq<Move>): World
    decreases |moves|
  {
    if moves == [] then w else Run(me, Step(me, w, moves[0]), moves[1..])
  }

  function Now(w: World, m: Move): int
  {
    match m
    case Work(s) => s.now
    case Signal(_) => w.clock
    case TryClaim(now, _) => now
    case Ask(now) => now
  }

  /** Along the run time does not go back. */
  ghost predicate Timed(me: Worker, w: World, moves: seq<Move>)
    decreases |moves|
  {
    moves == [] || (w.clock <= Now(w, moves[0]) && Timed(me, Step(me, w, moves[0]), moves[1..]))
  }

  predicate Asks(w: World, m: Move)
  {
    m.Ask? && w.emptyAt.Some?
  }

  predicate Reconnects(w: World, m: Move)
  {
    m.Signal? && m.ev.Reconnect? && !w.wakes.connected
  }

  /**
   A reconnect finds nobody behind without a tick, and the worker asks while
   a row is due or no claimable lease has lapsed.
   */
  ghost predicate SafeMove(me: Worker, w: World, m: Move)
  {
    && (Reconnects(w, m) ==> Wakes.AllBehindWoken(w.wakes))
    && (Asks(w, m) ==> DueNow(w.db, me.queue, m.now) || LapsedKeys(w.db, me.queue, m.now) == {})
  }

  ghost predicate SafeRun(me: Worker, w: World, moves: seq<Move>)
    decreases |moves|
  {
    moves == [] || (SafeMove(me, w, moves[0]) && SafeRun(me, Step(me, w, moves[0]), moves[1..]))
  }

  predicate Parked(me: Worker, w: World)
  {
    me.id in w.wakes.subs && Wakes.Live(w.wakes.subs[me.id]) && w.wakes.subs[me.id].parked
  }

  /** The worker is about to wake at `now`: its timer has run out or a tick is in its channel. */
  predicate Waking(me: Worker, w: World, now: int)
  {
    (me.id in w.wakes.subs && w.wakes.subs[me.id].tick) || (w.plan.until != 0 && w.plan.until <= now)
  }

  /**
   The plan a parked worker sleeps on is sound, and is about the present
   tables unless something has committed since.
   */
  ghost predicate PlanHolds(me: Worker, w: World, s: Wakes.Subscriber)
  {
    && s.lastRead <= w.wakes.commits
    && (s.lastRead == w.wakes.commits ==> w.db == w.plan.db)
    && w.plan.at <= w.clock
    && Dormant(w.plan.db, me.queue, w.plan.at, w.plan.until)
  }

  ghost predicate Rested(me: Worker, w: World)
  {
    && 0 < w.clock && Sound(w.db, w.clock)
    && Wakes.NoLostWake(w.wakes) && Wakes.Baselined(w.wakes)
    && me.id < w.wakes.nextId
    && (Parked(me, w) ==> PlanHolds(me, w, w.wakes.subs[me.id]))
  }

  // ----- what every move keeps -----

  lemma WriteKeepsRested(me: Worker, w: World, s: Runs.Stamp)
    requires Rested(me, w) && w.clock <= s.now
    ensures Rested(me, Written(w, s))
  {
    Runs.StepOf(w.db, w.clock, s, 0);
    Wakes.StepLosesNothing(w.wakes, Wakes.Commit);
    Wakes.StepIsBaselined(w.wakes, Wakes.Commit);
  }

  lemma SignalKeepsRested(me: Worker, w: World, ev: Wakes.Event)
    requires Rested(me, w) && ev != Wakes.Reread(me.id)
    requires ev.Reconnect? && !w.wakes.connected ==> Wakes.AllBehindWoken(w.wakes)
    ensures Rested(me, w.(wakes := Wakes.Step(w.wakes, ev)))
  {
    if ev.Reconnect? && !w.wakes.connected {
      Wakes.ReconnectSafeIff(w.wakes, ev.newOrigin);
    } else {
      Wakes.StepLosesNothing(w.wakes, ev);
    }
    Wakes.StepIsBaselined(w.wakes, ev);
  }

  lemma UnparkKeepsRested(me: Worker, w: World, emptyAt: Option<int>)
    requires Rested(me, w)
    ensures Rested(me, w.(wakes := SetParked(w.wakes, me.id, false), emptyAt := emptyAt))
  {
  }

  lemma AskKeepsRested(me: Worker, w: World, now: int)
    requires Rested(me, w) && w.clock <= now && w.emptyAt.Some?
    requires DueNow(w.db, me.queue, now) || LapsedKeys(w.db, me.queue, now) == {}
    ensures Rested(me, Step(me, w, Ask(now)))
  {
    LaterIsSound(w.db, w.clock, now);
    AnswerHoldsIff(w.db, me.queue, now);
    Wakes.StepLosesNothing(w.wakes, Wakes.Reread(me.id));
    Wakes.StepIsBaselined(w.wakes, Wakes.Reread(me.id));
  }

  lemma ClaimKeepsRested(me: Worker, w: World, now: int, fault: bool)
    requires Rested(me, w) && w.clock <= now
    ensures Rested(me, Step(me, w, TryClaim(now, fault)))
  {
    WriteKeepsRested(me, w, ClaimOf(me, now, fault));
    UnparkKeepsRested(me, Written(w, ClaimOf(me, now, fault)), Step(me, w, TryClaim(now, fault)).emptyAt);
  }

  lemma MoveKeepsRested(me: Worker, w: World, m: Move)
    requires Rested(me, w) && w.clock <= Now(w, m) && SafeMove(me, w, m)
    ensures Rested(me, Step(me, w, m))
  {
    match m
    case Work(s) => WriteKeepsRested(me, w, s);
    case Signal(ev) =>
      if ev != Wakes.Reread(me.id) {
        SignalKeepsRested(me, w, ev);
      }
    case TryClaim(now, fault) => ClaimKeepsRested(me, w, now, fault);
    case Ask(now) =>
      if w.emptyAt.Some? {
        AskKeepsRested(me, w, now);
      } else {
        LaterIsSound(w.db, w.clock, now);
      }
  }

  lemma {:induction false} RunKeepsRested(me: Worker, w: World, moves: seq<Move>)
    requires Rested(me, w) && Timed(me, w, moves) && SafeRun(me, w, moves)
    ensures Rested(me, Run(me, w, moves))
    decreases |moves|
  {
    if moves == [] {
    } else {
      MoveKeepsRested(me, w, moves[0]);
      RunKeepsRested(me, Step(me, w, moves[0]), moves[1..]);
    }
  }

  // ----- no job is slept through -----

  lemma QuietMeansNoJob(me: Worker, w: World, now: int)
    requires Rested(me, w) && Parked(me, w) && w.clock <= now && !Waking(me, w, now)
    requires w.wakes.subs[me.id].lastRead == w.wakes.commits
    ensures !HasJob(w.db, me.queue, now)
  {
  }

  /**
   Whatever other connections commit and however the poller fares, a parked
   worker with a job to claim is about to wake, or some commit still waits for
   its poll.
   */
  lemma SleepsOnlyUntilPolled(me: Worker, start: World, moves: seq<Move>, now: int)
    requires Rested(me, start) && Timed(me, start, moves) && SafeRun(me, start, moves)
    requires var w := Run(me, start, moves); Parked(me, w) && w.clock <= now && HasJob(w.db, me.queue, now)
    ensures var w := Run(me, start, moves); Waking(me, w, now) || w.wakes.seen < w.wakes.commits
  {
    var w := Run(me, start, moves);
    RunKeepsRested(me, start, moves);
    if !Waking(me, w, now) && w.wakes.seen >= w.wakes.commits {
      assert !Wakes.Missed(w.wakes.subs[me.id], w.wakes.seen);
      QuietMeansNoJob(me, w, now);
    }
  }

  lemma PolledIsWaking(me: Worker, w: World, now: int)
    requires Rested(me, w) && Parked(me, w) && w.clock <= now && HasJob(w.db, me.queue, now)
             && Wakes.PollNotices(w.wakes)
    ensures Waking(me, Step(me, w, Signal(Wakes.PollOk)), now)
  {
    var polled := Step(me, w, Signal(Wakes.PollOk));
    Wakes.PollWakesAll([], w.wakes);
    SignalKeepsRested(me, w, Wakes.PollOk);
    assert !Wakes.Missed(polled.wakes.subs[me.id], polled.wakes.commits);
    if !Waking(me, polled, now) {
      QuietMeansNoJob(me, polled, now);
    }
  }

  /**
   The next answered poll settles it: the worker is about to wake, and the
   claims it then makes reach a job within the bound the promotion cap sets.
   */
  lemma NoJobSleptThrough(me: Worker, start: World, moves: seq<Move>, now: int, calls: seq<Call>)
    requires Rested(me, start) && Timed(me, start, moves) && SafeRun(me, start, moves)
    requires var w := Run(me, start, moves);
             && Parked(me, w) && w.clock <= now && HasJob(w.db, me.queue, now) && Wakes.PollNotices(w.wakes)
             && |calls| >= CallsNeeded(|DueScheduledKeys(w.db, me.queue, now)|)
    requires forall c :: c in calls ==> c.n != 0
    ensures var polled := Step(me, Run(me, start, moves), Signal(Wakes.PollOk));
            Waking(me, polled, now) && SomeReturns(polled.db, me.queue, calls, now)
  {
    var w := Run(me, start, moves);
    RunKeepsRested(me, start, moves);
    PolledIsWaking(me, w, now);
    var i :| i in w.db.live && w.db.live[i].queue == me.queue && Eligible(w.db.live[i], now);
    assert ClaimKey(i, w.db.live[i]) in EligibleKeys(w.db, me.queue, now);
    BoundedProgress(w.db, me.queue, calls, now);
  }

  // ----- when the worker asks in time -----

  /** No operation takes or extends a lease to a time already past. */
  predicate LeasesAhead(ev: Event)
  {
    (ev.Claim? ==> ev.timeout >= 0) && (ev.Heartbeat? ==> ev.extend >= 0)
  }

  /** The worker asks within the second of its empty claim, and nobody takes a lease into the past. */
  ghost predicate PromptMove(me: Worker, w: World, m: Move)
  {
    && (Reconnects(w, m) ==> Wakes.AllBehindWoken(w.wakes))
    && (Asks(w, m) ==> w.emptyAt == Some(m.now))
    && (m.Work? ==> LeasesAhead(m.s.ev))
  }

  ghost predicate PromptRun(me: Worker, w: World, moves: seq<Move>)
    decreases |moves|
  {
    moves == [] || (PromptMove(me, w, moves[0]) && PromptRun(me, Step(me, w, moves[0]), moves[1..]))
  }

  /** Since the worker's empty claim no claimable lease has lapsed, as long as the second has not passed. */
  ghost predicate NoneLapsedYet(me: Worker, w: World)
  {
    w.emptyAt.Some? ==>
      && w.emptyAt.value <= w.clock
      && (w.emptyAt.value == w.clock ==> LapsedKeys(w.db, me.queue, w.clock) == {})
  }

  lemma NothingLapses(db: Db, queue: string, s: Runs.Stamp, id: int)
    requires LeasesAhead(s.ev) && LapsedKeys(db, queue, s.now) == {}
    requires Legal(s.now, Look(db, id), Runs.EffectAt(db, s, id), Look(Runs.Apply(db, s), id))
    ensures var after := Runs.Apply(db, s);
            id in after.live && after.live[id].queue == queue && after.live[id].state == Processing
            ==> !Eligible(after.live[id], s.now)
  {
    if id in db.live && db.live[id].queue == queue && db.live[id].state == Processing && Eligible(db.live[id], s.now) {
      assert ClaimKey(id, db.live[id]) in LapsedKeys(db, queue, s.now);
    }
  }

  /** Within one second no operation makes a claimable lease lapse. */
  lemma WorkLapsesNothing(db: Db, queue: string, s: Runs.Stamp)
    requires Sound(db, s.now) && LeasesAhead(s.ev) && LapsedKeys(db, queue, s.now) == {}
    ensures LapsedKeys(Runs.Apply(db, s), queue, s.now) == {}
  {
    var after := Runs.Apply(db, s);
    if k :| k in LapsedKeys(after, queue, s.now) {
      Runs.StepOf(db, s.now, s, k.id);
      assert Look(after, k.id).Live?;
      NothingLapses(db, queue, s, k.id);
    }
  }

  lemma EmptyClaimLeavesNoneLapsed(me: Worker, db: Db, now: int)
    requires Sound(db, now) && Matched(db, ClaimOf(me, now, false).ev, now) == {}
    ensures LapsedKeys(Runs.Apply(db, ClaimOf(me, now, false)), me.queue, now) == {}
  {
    var call := Call(me.name, 1, me.timeout);
    HousekeepSucceeds(db, me.queue, now);
    EmptyClaimLook(db, me.queue, call, now);
    EmptyClaimMeansNoneReady(db, me.queue, 1, now);
    CandidatesAfterHousekeeping(db, me.queue, now);
  }

  lemma PromptMoveIsSafe(me: Worker, w: World, m: Move)
    requires Rested(me, w) && w.clock <= Now(w, m) && PromptMove(me, w, m) && NoneLapsedYet(me, w)
    ensures SafeMove(me, w, m) && NoneLapsedYet(me, Step(me, w, m))
  {
    match m
    case Work(s) =>
      if w.emptyAt == Some(s.now) {
        WorkLapsesNothing(w.db, me.queue, s);
      }
    case Signal(_) =>
    case TryClaim(now, fault) =>
      LaterIsSound(w.db, w.clock, now);
      if Step(me, w, m).emptyAt.Some? {
        EmptyClaimLeavesNoneLapsed(me, w.db, now);
      }
    case Ask(_) =>
  }

  /** A worker that asks within the second of its empty claim always asks safely. */
  lemma {:induction false} PromptRunIsSafe(me: Worker, w: World, moves: seq<Move>)
    requires Rested(me, w) && Timed(me, w, moves) && PromptRun(me, w, moves) && NoneLapsedYet(me, w)
    ensures SafeRun(me, w, moves)
    decreases |moves|
  {
    if moves == [] {
    } else {
      PromptMoveIsSafe(me, w, moves[0]);
      MoveKeepsRested(me, w, moves[0]);
      PromptRunIsSafe(me, Step(me, w, moves[0]), moves[1..]);
    }
  }

  // ----- when it asks too late -----

  /**
   For a worker with an empty channel the condition is exact: otherwise it
   is parked over a job with nothing to wake it.
   */
  lemma AskSafeIff(me: Worker, w: World, now: int)
    requires Rested(me, w) && w.clock <= now && w.emptyAt.Some?
    requires me.id in w.wakes.subs && !w.wakes.subs[me.id].tick
    ensures var asked := Step(me, w, Ask(now));
            (forall at :: now <= at && HasJob(asked.db, me.queue, at) ==> Waking(me, asked, at))
            <==> DueNow(w.db, me.queue, now) || LapsedKeys(w.db, me.queue, now) == {}
  {
    var asked := Step(me, w, Ask(now));
    LaterIsSound(w.db, w.clock, now);
    AnswerHoldsIff(w.db, me.queue, now);
    if !Dormant(w.db, me.queue, now, asked.plan.until) {
      var i, at :| && i in w.db.live && w.db.live[i].queue == me.queue && now <= at
                   && (asked.plan.until == 0 || at < asked.plan.until) && Eligible(w.db.live[i], at);
      assert HasJob(asked.db, me.queue, at);
    } else {
      forall at | now <= at && HasJob(asked.db, me.queue, at)
        ensures Waking(me, asked, at)
      {
        var i :| i in w.db.live && w.db.live[i].queue == me.queue && Eligible(w.db.live[i], at);
      }
    }
  }

  const ME := Worker("q", "me", 60, 0)
  const HELD := Row("q", "", Processing, 0, 0, Some("other"), Some(5), 1, 3, 0, None, Some(1))
  const HELD_DB := Db(map[1 := HELD], map[], 2)
  const PLAN := Plan(HELD_DB, 6, 0)

  /** The worker has subscribed; another one holds the queue's only job until second 5. */
  function HeldByAnother(clock: int, emptyAt: Option<int>, parked: bool): World
  {
    World(Wakes.Start(0, 0, 0).(subs := map[0 := Wakes.Subscriber(true, true, false, parked, 0)], nextId := 1),
          HELD_DB, clock, PLAN, emptyAt)
  }

  lemma HeldIsNotMoved()
    ensures Housekeep(HELD_DB, "q", 5) == Ok(HELD_DB)
  {
    assert PromoteIds(HELD_DB, "q", 5) == {};
    HousekeepSucceeds(HELD_DB, "q", 5);
    HousekeepSlot(HELD_DB, 1, "q", 5);
    var h := Housekeep(HELD_DB, "q", 5).value;
    forall i
      ensures Look(h, i) == Look(HELD_DB, i)
    {
      HousekeepSlot(HELD_DB, i, "q", 5);
    }
    SameLooks(h, HELD_DB);
  }

  lemma SameLooks(a: Db, b: Db)
    requires a.live.Keys !! a.dead.Keys && b.live.Keys !! b.dead.Keys && a.nextId == b.nextId
    requires forall i :: Look(a, i) == Look(b, i)
    ensures a == b
  {
    forall i
      ensures (i in a.live <==> i in b.live) && (i in a.live ==> a.live[i] == b.live[i])
      ensures (i in a.dead <==> i in b.dead) && (i in a.dead ==> a.dead[i] == b.dead[i])
    {
      assert Look(a, i) == Look(b, i);
    }
    assert a.live == b.live && a.dead == b.dead;
  }

  lemma HeldIsNotTaken()
    ensures Matched(HELD_DB, ClaimOf(ME, 5, false).ev, 5) == {}
    ensures Exec(HELD_DB, ClaimOf(ME, 5, false).ev, 5) == Ok(HELD_DB)
  {
    HeldIsNotMoved();
    ClaimIsTopEligible(HELD_DB, "q", 1, 5);
    assert EligibleKeys(HELD_DB, "q", 5) == {};
    EmptyClaimLook(HELD_DB, "q", Call("me", 1, 60), 5);
  }

  lemma ClaimsAtFive()
    ensures Step(ME, HeldByAnother(5, None, false), TryClaim(5, false)) == HeldByAnother(5, Some(5), false)
  {
    HeldIsNotTaken();
  }

  lemma AsksAtSix()
    ensures Step(ME, HeldByAnother(5, Some(5), false), Ask(6)) == HeldByAnother(6, None, true)
  {
    assert HELD_DB.live[1] == HELD;
  }

  lemma StartsRested()
    ensures Rested(ME, HeldByAnother(5, None, false))
  {
  }

  lemma SleepsForever(now: int)
    requires now >= 6
    ensures HasJob(HELD_DB, "q", now) && !Waking(ME, HeldByAnother(6, None, true), now)
  {
    assert 1 in HELD_DB.live && HELD_DB.live[1] == HELD;
  }

  lemma RunTwo(me: Worker, w: World, a: Move, b: Move)
    requires w.clock <= Now(w, a) && Step(me, w, a).clock <= Now(Step(me, w, a), b)
    ensures Run(me, w, [a] + [b]) == Step(me, Step(me, w, a), b)
    ensures Timed(me, w, [a] + [b])
  {
    assert ([a] + [b])[1..] == [b] && [b][1..] == [];
    assert Run(me, Step(me, w, a), [b]) == Run(me, Step(me, Step(me, w, a), b), []);
  }

  /**
   A lease that lapses between the worker's empty claim and its question is
   invisible to the answer: claiming at 5 and asking at 6, the worker parks
   without a timer, with no commit left to wake it, over a job it could claim.
   */
  lemma LateAskSleepsThrough()
    ensures var w := HeldByAnother(5, None, false);
            var late := Run(ME, w, [TryClaim(5, false)] + [Ask(6)]);
            && Rested(ME, w) && Timed(ME, w, [TryClaim(5, false)] + [Ask(6)])
            && Parked(ME, late) && late.wakes.seen == late.wakes.commits
            && forall now :: now >= 6 ==> HasJob(late.db, "q", now) && !Waking(ME, late, now)
  {
    StartsRested();
    ClaimsAtFive();
    AsksAtSix();
    RunTwo(ME, HeldByAnother(5, None, false), TryClaim(5, false), Ask(6));
    forall now | now >= 6
      ensures HasJob(HELD_DB, "q", now) && !Waking(ME, HeldByAnother(6, None, true), now)
    {
      SleepsForever(now);
    }
  }
}
