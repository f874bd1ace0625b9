/** `queue_next_claim_at`: how long a worker whose claim came back empty may sleep. */
module NextClaim {
  import opened Wrappers
  import opened IntSets
  import opened Ranking
  import opened Queue
  import opened Jobs
  import opened Claims

  predicate Claimable(r: Row, queue: string, now: int)
  {
    r.queue == queue && r.attempts < r.maxAttempts && !Expired(r, now)
  }

  function ScheduledTimes(db: Db, queue: string, now: int): set<int>
  {
    set i | i in db.live && Claimable(db.live[i], queue, now) && db.live[i].state == Scheduled :: db.live[i].runAt
  }

  function LeaseTimes(db: Db, queue: string, now: int): set<int>
  {
    set i | && i in db.live && Claimable(db.live[i], queue, now)
            && db.live[i].state == Processing && LeaseHeld(db.live[i], now)
      :: db.live[i].lease.value + 1
  }

  function Max(a: int, b: int): int
  {
    if a < b then b else a
  }

  function QueueNextClaimAt(db: Db, queue: string, now: int): int
  {
    if exists i :: && i in db.live && Claimable(db.live[i], queue, now)
                   && db.live[i].state == Pending && db.live[i].runAt <= now then
      now
    else
      match (Least(ScheduledTimes(db, queue, now)), Least(LeaseTimes(db, queue, now)))
      case (None, None) => 0
      case (Some(a), None) => Max(a, now)
      case (None, Some(b)) => Max(b, now)
      case (Some(a), Some(b)) => Max(Ranking.Min(a, b), now)
  }

  // ----- the answer, on the rows themselves -----

  /** A pending row with attempts left, unexpired and due. */
  ghost predicate DuePending(db: Db, queue: string, now: int, i: int)
  {
    && i in db.live && db.live[i].queue == queue && db.live[i].state == Pending && db.live[i].runAt <= now
    && db.live[i].attempts < db.live[i].maxAttempts
    && (db.live[i].expiresAt.Some? ==> now < db.live[i].expiresAt.value)
  }

  /**
   A row with attempts left, unexpired, that is ready at `at`: a scheduled one at
   its run_at, or now if that has passed, and a claimed one, whose lease has not
   passed yet, one second after it.
   */
  ghost predicate ReadyIn(db: Db, queue: string, now: int, i: int, at: int)
  {
    && i in db.live && db.live[i].queue == queue && db.live[i].attempts < db.live[i].maxAttempts
    && (db.live[i].expiresAt.Some? ==> now < db.live[i].expiresAt.value)
    && (|| (db.live[i].state == Scheduled && at == if db.live[i].runAt < now then now else db.live[i].runAt)
        || (db.live[i].state == Processing && db.live[i].lease.Some? && now <= db.live[i].lease.value
            && at == db.live[i].lease.value + 1))
  }

  /** The answer is now if a pending row is due, else the first time a row is ready, else 0. */
  lemma AnswerIs(db: Db, queue: string, now: int)
    ensures var at := QueueNextClaimAt(db, queue, now);
            if exists i :: DuePending(db, queue, now, i) then at == now
            else if exists i, t :: ReadyIn(db, queue, now, i, t) then
              && (exists i :: ReadyIn(db, queue, now, i, at))
              && (forall i, t :: ReadyIn(db, queue, now, i, t) ==> at <= t)
            else at == 0
  {
    var at := QueueNextClaimAt(db, queue, now);
    var s, l := ScheduledTimes(db, queue, now), LeaseTimes(db, queue, now);
    if forall i :: !DuePending(db, queue, now, i) {
      NoPendingDue(db, queue, now);
      forall i, t | ReadyIn(db, queue, now, i, t)
        ensures s != {} || l != {}
        ensures at <= t
      {
        if db.live[i].state == Scheduled {
          assert db.live[i].runAt in s;
        } else {
          assert db.live[i].lease.value + 1 in l;
        }
      }
      if s != {} || l != {} {
        FirstIsReady(db, queue, now);
      }
    }
  }

  lemma NoPendingDue(db: Db, queue: string, now: int)
    requires forall i :: !DuePending(db, queue, now, i)
    ensures forall i :: i in db.live && Claimable(db.live[i], queue, now) && db.live[i].state == Pending ==>
              db.live[i].runAt > now
  {
    if i :| && i in db.live && Claimable(db.live[i], queue, now)
            && db.live[i].state == Pending && db.live[i].runAt <= now {
      assert DuePending(db, queue, now, i);
    }
  }

  lemma FirstIsReady(db: Db, queue: string, now: int)
    requires forall i :: !DuePending(db, queue, now, i)
    requires ScheduledTimes(db, queue, now) != {} || LeaseTimes(db, queue, now) != {}
    ensures exists i :: ReadyIn(db, queue, now, i, QueueNextClaimAt(db, queue, now))
  {
    var at := QueueNextClaimAt(db, queue, now);
    NoPendingDue(db, queue, now);
    var s, l := Least(ScheduledTimes(db, queue, now)), Least(LeaseTimes(db, queue, now));
    if s.Some? && (l.None? || s.value <= l.value) {
      var i :| i in db.live && Claimable(db.live[i], queue, now) && db.live[i].state == Scheduled
               && db.live[i].runAt == s.value;
      assert ReadyIn(db, queue, now, i, at);
    } else {
      var i :| i in db.live && Claimable(db.live[i], queue, now) && db.live[i].state == Processing
               && LeaseHeld(db.live[i], now) && db.live[i].lease.value + 1 == l.value;
      assert ReadyIn(db, queue, now, i, at);
    }
  }

  // ----- claims in between -----

  /** A claim of the queue at its own clock reading. */
  datatype TimedCall = TimedCall(call: Call, now: int)

  function AfterCall(db: Db, queue: string, c: TimedCall): Db
  {
    match Exec(db, Claim(queue, c.call.worker, c.call.n, c.call.timeout), c.now)
    case Ok(after) => after
    case Err => db
  }

  function Returned(db: Db, queue: string, c: TimedCall): set<int>
  {
    Matched(db, Claim(queue, c.call.worker, c.call.n, c.call.timeout), c.now)
  }

  ghost predicate AllEmpty(db: Db, queue: string, calls: seq<TimedCall>)
    decreases |calls|
  {
    calls == [] || (Returned(db, queue, calls[0]) == {} && AllEmpty(AfterCall(db, queue, calls[0]), queue, calls[1..]))
  }

  function AfterCalls(db: Db, queue: string, calls: seq<TimedCall>): Db
    decreases |calls|
  {
    if calls == [] then db else AfterCalls(AfterCall(db, queue, calls[0]), queue, calls[1..])
  }

  /** Every call happens at or after `from` and before `until`; 0 is "no end". */
  ghost predicate Within(calls: seq<TimedCall>, from: int, until: int)
  {
    forall k :: 0 <= k < |calls| ==> from <= calls[k].now && (until == 0 || calls[k].now < until)
  }

  /** No row of the queue can be handed out in the window. */
  ghost predicate Dormant(db: Db, queue: string, from: int, until: int)
  {
    forall i, now :: i in db.live && db.live[i].queue == queue && from <= now && (until == 0 || now < until)
      ==> !Eligible(db.live[i], now)
  }

  lemma DormantReturnsNothing(db: Db, queue: string, c: TimedCall, from: int, until: int)
    requires db.live.Keys !! db.dead.Keys && Dormant(db, queue, from, until)
    requires from <= c.now && (until == 0 || c.now < until)
    ensures Returned(db, queue, c) == {}
    ensures Housekeep(db, queue, c.now).Ok?
    ensures AfterCall(db, queue, c) == Housekeep(db, queue, c.now).value
    ensures var after := AfterCall(db, queue, c);
            after.live.Keys !! after.dead.Keys && Dormant(after, queue, from, until)
  {
    HousekeepSucceeds(db, queue, c.now);
    ClaimIsTopEligible(db, queue, c.call.n, c.now);
    assert EligibleKeys(db, queue, c.now) == {};
    EmptyClaimLook(db, queue, c.call, c.now);
    var h := Housekeep(db, queue, c.now).value;
    forall i, now | i in h.live && h.live[i].queue == queue && from <= now && (until == 0 || now < until)
      ensures !Eligible(h.live[i], now)
    {
      HousekeepLook(db, queue, c.now, i);
      PromoteLook(db, queue, c.now, i);
      assert !Eligible(db.live[i], now);
    }
  }

  lemma {:induction false} DormantStaysQuiet(db: Db, queue: string, calls: seq<TimedCall>, from: int, until: int)
    requires db.live.Keys !! db.dead.Keys && Dormant(db, queue, from, until) && Within(calls, from, until)
    ensures AllEmpty(db, queue, calls)
    decreases |calls|
  {
    if calls == [] {
    } else {
      DormantReturnsNothing(db, queue, calls[0], from, until);
      forall k | 0 <= k < |calls[1..]|
        ensures from <= calls[1..][k].now && (until == 0 || calls[1..][k].now < until)
      {
        assert calls[1..][k] == calls[k + 1];
      }
      DormantStaysQuiet(AfterCall(db, queue, calls[0]), queue, calls[1..], from, until);
    }
  }

  lemma RowSleeps(db: Db, queue: string, t: int, i: int, now: int)
    requires Sound(db, t) && 0 < t <= now
    requires i in db.live && db.live[i].queue == queue
    requires var until := QueueNextClaimAt(db, queue, t); until == 0 || now < until
    requires LapsedKeys(db, queue, t) == {}
    ensures !Eligible(db.live[i], now)
  {
    var r := db.live[i];
    assert r.state == Processing && Eligible(r, t) ==> ClaimKey(i, r) in LapsedKeys(db, queue, t);
    assert r.state == Scheduled && Claimable(r, queue, t) ==> r.runAt in ScheduledTimes(db, queue, t);
    assert r.state == Processing && Claimable(r, queue, t) && LeaseHeld(r, t)
           ==> r.lease.value + 1 in LeaseTimes(db, queue, t);
  }

  /** A claim at `now` has a waiting row to hand out or to promote. */
  ghost predicate DueNow(db: Db, queue: string, now: int)
  {
    exists i :: && i in db.live && Claimable(db.live[i], queue, now)
                && db.live[i].state != Processing && db.live[i].runAt <= now
  }

  /** The answer is the current time exactly when a waiting row is due. */
  lemma NowIffDue(db: Db, queue: string, now: int)
    requires Sound(db, now) && 0 < now
    ensures QueueNextClaimAt(db, queue, now) == now <==> DueNow(db, queue, now)
  {
    if i :| && i in db.live && Claimable(db.live[i], queue, now)
            && db.live[i].state == Scheduled && db.live[i].runAt <= now {
      assert db.live[i].runAt in ScheduledTimes(db, queue, now);
    }
  }

  /**
   When the answer T can be trusted: nothing is claimable in [now, T) exactly
   when a waiting row is due, so that T is now itself, or no claimable lease has
   already lapsed.
   */
  lemma AnswerHoldsIff(db: Db, queue: string, now: int)
    requires Sound(db, now) && 0 < now
    ensures var until := QueueNextClaimAt(db, queue, now);
            Dormant(db, queue, now, until) <==> DueNow(db, queue, now) || LapsedKeys(db, queue, now) == {}
  {
    var until := QueueNextClaimAt(db, queue, now);
    NowIffDue(db, queue, now);
    if until != now && LapsedKeys(db, queue, now) == {} {
      forall i, at | i in db.live && db.live[i].queue == queue && now <= at && (until == 0 || at < until)
        ensures !Eligible(db.live[i], at)
      {
        RowSleeps(db, queue, now, i, at);
      }
    } else if until != now {
      var k :| k in LapsedKeys(db, queue, now);
      assert Eligible(db.live[k.id], now);
    }
  }

  /** What an empty claim establishes about the rows it leaves behind. */
  lemma EmptyClaimDormant(db: Db, queue: string, empty: TimedCall)
    requires Sound(db, empty.now) && 0 < empty.now && empty.call.n != 0
    requires Returned(db, queue, empty) == {}
    ensures var after := AfterCall(db, queue, empty);
            && Sound(after, empty.now)
            && Dormant(after, queue, empty.now, QueueNextClaimAt(after, queue, empty.now))
  {
    var t := empty.now;
    HousekeepSucceeds(db, queue, t);
    EmptyClaimLook(db, queue, empty.call, t);
    EmptyClaimMeansNoneReady(db, queue, empty.call.n, t);
    StepKeepsSound(db, Claim(queue, empty.call.worker, empty.call.n, empty.call.timeout), t);
    CandidatesAfterHousekeeping(db, queue, t);
    AnswerHoldsIff(Housekeep(db, queue, t).value, queue, t);
  }

  /**
   Right after an empty claim at t, `queue_next_claim_at` at t returns T such
   that, with no other writes, every claim at a clock in [t, T) is empty, and
   T = 0 means every later claim is empty.
   */
  lemma NoJobBefore(db: Db, queue: string, empty: TimedCall, calls: seq<TimedCall>)
    requires Sound(db, empty.now) && 0 < empty.now && empty.call.n != 0
    requires Returned(db, queue, empty) == {}
    requires Within(calls, empty.now, QueueNextClaimAt(AfterCall(db, queue, empty), queue, empty.now))
    ensures AllEmpty(AfterCall(db, queue, empty), queue, calls)
  {
    EmptyClaimDormant(db, queue, empty);
    var after := AfterCall(db, queue, empty);
    DormantStaysQuiet(after, queue, calls, empty.now, QueueNextClaimAt(after, queue, empty.now));
  }

  // ----- exactness -----

  ghost predicate NoExpiry(db: Db, queue: string)
  {
    forall i :: i in db.live && db.live[i].queue == queue ==> db.live[i].expiresAt.None?
  }

  /** Some row of the queue will be eligible at `at`, whatever claims do before. */
  ghost predicate HasJob(db: Db, queue: string, at: int)
  {
    exists i :: i in db.live && db.live[i].queue == queue && Eligible(db.live[i], at)
  }

  lemma HousekeepKeepsBudgeted(db: Db, queue: string, now: int, id: int)
    requires Housekeep(db, queue, now).Ok?
    requires id in db.live && db.live[id].expiresAt.None? && db.live[id].attempts < db.live[id].maxAttempts
    ensures id in Housekeep(db, queue, now).value.live
  {
  }

  /** Without expiries every promoted row is claimable, so a claim with an eligible row is never empty. */
  lemma EligibleIsReturned(db: Db, queue: string, c: TimedCall)
    requires db.live.Keys !! db.dead.Keys && NoExpiry(db, queue) && HasJob(db, queue, c.now) && c.call.n != 0
    requires forall i :: i in db.live && db.live[i].state == Scheduled ==> db.live[i].attempts < db.live[i].maxAttempts
    ensures Returned(db, queue, c) != {}
  {
    HousekeepSucceeds(db, queue, c.now);
    var i :| i in db.live && db.live[i].queue == queue && Eligible(db.live[i], c.now);
    var e, d := EligibleKeys(db, queue, c.now), DeferredKeys(db, queue, c.now);
    assert ClaimKey(i, db.live[i]) in e;
    if DueScheduled(db.live[i], queue, c.now) {
      SomePromoted(db, queue, c.now, i);
      var j :| j in PromoteIds(db, queue, c.now);
      PromoteLook(db, queue, c.now, j);
      assert ClaimKey(j, db.live[j]) in e && ClaimKey(j, db.live[j]) !in d;
    } else {
      assert ClaimKey(i, db.live[i]) !in d;
    }
    if Returned(db, queue, c) == {} {
      EmptyClaimMeansNoneReady(db, queue, c.call.n, c.now);
    }
  }

  lemma SomePromoted(db: Db, queue: string, now: int, i: int)
    requires i in db.live && DueScheduled(db.live[i], queue, now)
    ensures PromoteIds(db, queue, now) != {}
  {
    var c := DueScheduledKeys(db, queue, now);
    assert Key(db.live[i].runAt, 0, i) in c;
    TopNNonempty(c, CLAIM_HOUSEKEEPING_LIMIT);
    IdsNonempty(TopN(c, CLAIM_HOUSEKEEPING_LIMIT));
  }

  lemma {:induction false} WakeSurvives(db: Db, queue: string, calls: seq<TimedCall>, from: int, until: int)
    requires Sound(db, from) && NoExpiry(db, queue) && HasJob(db, queue, until) && until != 0
    requires Dormant(db, queue, from, until) && Within(calls, from, until)
    requires forall k :: 0 < k < |calls| ==> calls[k - 1].now <= calls[k].now
    ensures var after := AfterCalls(db, queue, calls);
            && after.live.Keys !! after.dead.Keys && NoExpiry(after, queue) && HasJob(after, queue, until)
            && forall i :: i in after.live && after.live[i].state == Scheduled ==>
                 after.live[i].attempts < after.live[i].maxAttempts
    decreases |calls|
  {
    if calls == [] {
    } else {
      var c := calls[0];
      DormantReturnsNothing(db, queue, c, from, until);
      var h := Housekeep(db, queue, c.now).value;
      LaterIsSound(db, from, c.now);
      StepKeepsSound(db, Claim(queue, c.call.worker, c.call.n, c.call.timeout), c.now);
      forall i | i in h.live && h.live[i].queue == queue
        ensures h.live[i].expiresAt.None?
      {
        HousekeepLook(db, queue, c.now, i);
      }
      var i :| i in db.live && db.live[i].queue == queue && Eligible(db.live[i], until);
      HousekeepKeepsBudgeted(db, queue, c.now, i);
      HousekeepLook(db, queue, c.now, i);
      PromoteLook(db, queue, c.now, i);
      assert Eligible(h.live[i], until);
      var rest := calls[1..];
      forall k | 0 <= k < |rest|
        ensures c.now <= rest[k].now < until && (0 < k ==> rest[k - 1].now <= rest[k].now)
      {
        OrderedFromFirst(calls, k + 1);
      }
      assert Dormant(h, queue, c.now, until);
      WakeSurvives(h, queue, rest, c.now, until);
    }
  }

  lemma {:induction false} OrderedFromFirst(calls: seq<TimedCall>, k: nat)
    requires k < |calls|
    requires forall k :: 0 < k < |calls| ==> calls[k - 1].now <= calls[k].now
    ensures calls[0].now <= calls[k].now
  {
    if k == 0 {
    } else {
      OrderedFromFirst(calls, k - 1);
    }
  }

  /**
   When no row of the queue has an expiry, T is exact: after any empty claims
   in between, the claim at T itself returns a job.
   */
  lemma ExactWithoutExpiry(db: Db, queue: string, empty: TimedCall, calls: seq<TimedCall>, last: TimedCall)
    requires Sound(db, empty.now) && 0 < empty.now && empty.call.n != 0 && last.call.n != 0
    requires Returned(db, queue, empty) == {}
    requires NoExpiry(db, queue)
    requires var at := QueueNextClaimAt(AfterCall(db, queue, empty), queue, empty.now);
             at != 0 && last.now == at && Within(calls, empty.now, at)
    requires forall k :: 0 < k < |calls| ==> calls[k - 1].now <= calls[k].now
    ensures Returned(AfterCalls(AfterCall(db, queue, empty), queue, calls), queue, last) != {}
  {
    var t := empty.now;
    EmptyClaimDormant(db, queue, empty);
    HousekeepSucceeds(db, queue, t);
    EmptyClaimLook(db, queue, empty.call, t);
    var h := AfterCall(db, queue, empty);
    var at := QueueNextClaimAt(h, queue, t);
    forall i | i in h.live && h.live[i].queue == queue
      ensures h.live[i].expiresAt.None?
    {
      HousekeepLook(db, queue, t, i);
    }
    NextIsAWake(h, queue, t);
    WakeSurvives(h, queue, calls, t, at);
    EligibleIsReturned(AfterCalls(h, queue, calls), queue, last);
  }

  /** No row that is unexpired when the question is asked has expired by `at`. */
  ghost predicate NoneExpiresBy(db: Db, queue: string, now: int, at: int)
  {
    forall i :: i in db.live && db.live[i].queue == queue && db.live[i].expiresAt.Some?
      ==> db.live[i].expiresAt.value <= now || at < db.live[i].expiresAt.value
  }

  lemma NextIsAWake(db: Db, queue: string, now: int)
    requires QueueNextClaimAt(db, queue, now) != 0
    requires NoneExpiresBy(db, queue, now, QueueNextClaimAt(db, queue, now))
    ensures HasJob(db, queue, QueueNextClaimAt(db, queue, now))
  {
    var at := QueueNextClaimAt(db, queue, now);
    AnswerIs(db, queue, now);
    if i :| ReadyIn(db, queue, now, i, at) {
      assert Eligible(db.live[i], at);
    } else {
      var i :| DuePending(db, queue, now, i);
      assert Eligible(db.live[i], at);
    }
  }

  /** A row eligible at `until` is not buried by claims before it. */
  lemma {:induction false} JobSurvives(db: Db, queue: string, calls: seq<TimedCall>, from: int, until: int)
    requires db.live.Keys !! db.dead.Keys && HasJob(db, queue, until) && until != 0
    requires Dormant(db, queue, from, until) && Within(calls, from, until)
    ensures var after := AfterCalls(db, queue, calls);
            after.live.Keys !! after.dead.Keys && HasJob(after, queue, until)
    decreases |calls|
  {
    if calls == [] {
    } else {
      var c := calls[0];
      DormantReturnsNothing(db, queue, c, from, until);
      var h := Housekeep(db, queue, c.now).value;
      var i :| i in db.live && db.live[i].queue == queue && Eligible(db.live[i], until);
      EligibleIsKept(db, queue, c.now, until, i);
      forall k | 0 <= k < |calls[1..]|
        ensures from <= calls[1..][k].now < until
      {
        assert calls[1..][k] == calls[k + 1];
      }
      JobSurvives(h, queue, calls[1..], from, until);
    }
  }

  lemma EligibleIsKept(db: Db, queue: string, now: int, until: int, id: int)
    requires Housekeep(db, queue, now).Ok? && now < until
    requires id in db.live && db.live[id].queue == queue && Eligible(db.live[id], until)
    ensures var h := Housekeep(db, queue, now).value;
            id in h.live && h.live[id].queue == queue && Eligible(h.live[id], until)
  {
    HousekeepSlot(db, id, queue, now);
  }

  /**
   With rows that expire the answer is exact as well, as long as no row the
   question finds unexpired expires before it: rows that had expired when it was
   asked do not count. After any empty claims in between, the claims at T return
   a job within the bound the promotion cap sets.
   */
  lemma ExactAmongUnexpired(db: Db, queue: string, empty: TimedCall, calls: seq<TimedCall>, last: seq<Call>)
    requires Sound(db, empty.now) && 0 < empty.now && empty.call.n != 0
    requires Returned(db, queue, empty) == {}
    requires var h := AfterCall(db, queue, empty);
             var at := QueueNextClaimAt(h, queue, empty.now);
             && at != 0 && NoneExpiresBy(h, queue, empty.now, at) && Within(calls, empty.now, at)
             && |last| >= CallsNeeded(|DueScheduledKeys(AfterCalls(h, queue, calls), queue, at)|)
    requires forall c :: c in last ==> c.n != 0
    ensures var h := AfterCall(db, queue, empty);
            SomeReturns(AfterCalls(h, queue, calls), queue, last, QueueNextClaimAt(h, queue, empty.now))
  {
    EmptyClaimDormant(db, queue, empty);
    var h := AfterCall(db, queue, empty);
    var at := QueueNextClaimAt(h, queue, empty.now);
    NextIsAWake(h, queue, empty.now);
    JobSurvives(h, queue, calls, empty.now, at);
    var after := AfterCalls(h, queue, calls);
    var i :| i in after.live && after.live[i].queue == queue && Eligible(after.live[i], at);
    assert ClaimKey(i, after.live[i]) in EligibleKeys(after, queue, at);
    BoundedProgress(after, queue, last, at);
  }

  /**
   Without an empty claim first the answer can be late: a lease that has
   already lapsed is not seen, so a job claimable now is reported as "never".
   */
  lemma LapsedLeaseIsInvisible()
    ensures var held := Row("q", "", Processing, 0, 0, Some("w"), Some(5), 1, 3, 0, None, Some(1));
            var db := Db(map[1 := held], map[], 2);
            && Sound(db, 10) && Eligible(held, 10)
            && QueueNextClaimAt(db, "q", 10) == 0
  {
  }
}
