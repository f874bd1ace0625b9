/**
 What `claim_batch` hands out, what each operation leaves alone, what a dead row
 says, and that a claim cannot be starved by its own caps.
 */
module Claims {
  import opened Wrappers
  import opened Ranking
  import opened Queue
  import opened Jobs

  /** The reference: every row of the queue a claim may hand out, straight from the pre-state. */
  function EligibleKeys(db: Db, queue: string, now: int): set<Key>
  {
    set i | i in db.live && db.live[i].queue == queue && Eligible(db.live[i], now) :: ClaimKey(i, db.live[i])
  }

  /** Eligible rows whose promotion the cap put off to a later claim. */
  function DeferredKeys(db: Db, queue: string, now: int): set<Key>
  {
    set i | i in db.live && DueScheduled(db.live[i], queue, now) && i !in PromoteIds(db, queue, now)
      && Eligible(db.live[i], now)
      :: ClaimKey(i, db.live[i])
  }

  /** Housekeeping never removes an eligible row and leaves its claim key alone. */
  lemma HousekeepLook(db: Db, queue: string, now: int, id: int)
    requires Housekeep(db, queue, now).Ok?
    ensures var h := Housekeep(db, queue, now).value;
            && h.live.Keys <= db.live.Keys
            && (id in h.live ==>
                  h.live[id] ==
                  if id in PromoteIds(db, queue, now) then db.live[id].(state := Pending) else db.live[id])
            && (id in db.live && Eligible(db.live[id], now) ==> id in h.live)
            && (id in db.live && db.live[id].queue != queue ==> id in h.live)
  {
  }

  /** A row the claim query itself would consider. */
  predicate Candidate(db: Db, queue: string, now: int, id: int)
  {
    && id in db.live && db.live[id].queue == queue
    && db.live[id].state != Scheduled && Eligible(db.live[id], now)
  }

  lemma CandidateIff(db: Db, queue: string, now: int, id: int)
    requires Housekeep(db, queue, now).Ok?
    ensures var h := Housekeep(db, queue, now).value;
            && (Candidate(h, queue, now, id) <==>
                  && id in db.live && db.live[id].queue == queue && Eligible(db.live[id], now)
                  && (DueScheduled(db.live[id], queue, now) ==> id in PromoteIds(db, queue, now)))
            && (Candidate(h, queue, now, id) ==> ClaimKey(id, h.live[id]) == ClaimKey(id, db.live[id]))
  {
  }

  lemma BothArms(db: Db, queue: string, now: int, k: Key)
    ensures k in ReadyKeys(db, queue, now) + LapsedKeys(db, queue, now)
            <==> Candidate(db, queue, now, k.id) && k == ClaimKey(k.id, db.live[k.id])
  {
  }

  lemma CandidatesAfterHousekeeping(db: Db, queue: string, now: int)
    requires Housekeep(db, queue, now).Ok?
    ensures var h := Housekeep(db, queue, now).value;
            ReadyKeys(h, queue, now) + LapsedKeys(h, queue, now)
            == EligibleKeys(db, queue, now) - DeferredKeys(db, queue, now)
  {
    var h := Housekeep(db, queue, now).value;
    var c := ReadyKeys(h, queue, now) + LapsedKeys(h, queue, now);
    var e, d := EligibleKeys(db, queue, now), DeferredKeys(db, queue, now);
    forall k: Key
      ensures k in c <==> k in e - d
    {
      BothArms(h, queue, now, k);
      CandidateIff(db, queue, now, k.id);
    }
  }

  /**
   Exactly what a claim returns, whatever the backlog: the first n, by priority
   descending, run_at and id, of the pre-state rows that are due or lapsed,
   unexpired and under budget, less those whose promotion was deferred.
   */
  lemma ClaimIsTopEligible(db: Db, queue: string, n: int, now: int)
    requires Housekeep(db, queue, now).Ok?
    ensures var h := Housekeep(db, queue, now).value;
            ClaimIds(h, queue, n, now) == Ids(TopN(EligibleKeys(db, queue, now) - DeferredKeys(db, queue, now), n))
  {
    var h := Housekeep(db, queue, now).value;
    CandidatesAfterHousekeeping(db, queue, now);
    TwoArms(ReadyKeys(h, queue, now), LapsedKeys(h, queue, now), n);
  }

  lemma IdsSubset(a: set<Key>, b: set<Key>, db: Db)
    requires forall k :: k in a || k in b ==> k.id in db.live && k == ClaimKey(k.id, db.live[k.id])
    ensures Ids(a) == Ids(b) ==> a == b
  {
    if Ids(a) == Ids(b) {
      forall k: Key
        ensures k in a <==> k in b
      {
        if k in a { assert k.id in Ids(b); }
        if k in b { assert k.id in Ids(a); }
      }
    }
  }

  /** The claim is the plain "first n eligible rows" exactly when no deferred row ranks among them. */
  lemma ClaimExactIff(db: Db, queue: string, n: int, now: int)
    requires Housekeep(db, queue, now).Ok?
    ensures var h := Housekeep(db, queue, now).value;
            var eligible := EligibleKeys(db, queue, now);
            ClaimIds(h, queue, n, now) == Ids(TopN(eligible, n)) <==> TopN(eligible, n) !! DeferredKeys(db, queue, now)
  {
    var e, d := EligibleKeys(db, queue, now), DeferredKeys(db, queue, now);
    ClaimIsTopEligible(db, queue, n, now);
    if TopN(e, n) !! d {
      DropUnranked(e, d, n);
    } else if Ids(TopN(e - d, n)) == Ids(TopN(e, n)) {
      IdsSubset(TopN(e - d, n), TopN(e, n), db);
    }
  }

  lemma UnderCapPromotesAll(db: Db, queue: string, now: int)
    requires |DueScheduledKeys(db, queue, now)| <= CLAIM_HOUSEKEEPING_LIMIT
    ensures DeferredKeys(db, queue, now) == {}
  {
    var c := DueScheduledKeys(db, queue, now);
    forall k | k in c
      ensures k in TopN(c, CLAIM_HOUSEKEEPING_LIMIT)
    {
      AheadSmaller(c, k);
    }
    forall i | i in db.live && DueScheduled(db.live[i], queue, now)
      ensures i in PromoteIds(db, queue, now)
    {
      assert Key(db.live[i].runAt, 0, i) in TopN(c, CLAIM_HOUSEKEEPING_LIMIT);
    }
  }

  /** With at most 1000 due scheduled rows a claim takes exactly the first n eligible rows of the queue. */
  lemma ClaimExactUnderCap(db: Db, queue: string, n: nat, now: int)
    requires Housekeep(db, queue, now).Ok?
    requires |DueScheduledKeys(db, queue, now)| <= CLAIM_HOUSEKEEPING_LIMIT
    ensures var h := Housekeep(db, queue, now).value;
            var eligible := EligibleKeys(db, queue, now);
            && ClaimIds(h, queue, n, now) == Ids(TopN(eligible, n))
            && IsFirstN(TopN(eligible, n), eligible, n)
  {
    UnderCapPromotesAll(db, queue, now);
    ClaimExactIff(db, queue, n, now);
    TopNMeaning(TopN(EligibleKeys(db, queue, now), n), EligibleKeys(db, queue, now), n);
  }

  /**
   When a row can next be handed out. A new job waits for its delay, else its
   run_at, else nothing; a claimed one until its lease has lapsed, and only
   with attempts left; a retried one for the retry's delay.
   */
  lemma AvailableFrom(job: JobSpec, r: Row, worker: string, timeout: int, delay: int, now: int, t: int)
    requires job.maxAttempts >= 1 && r.attempts < r.maxAttempts
    ensures var from :=
              if job.delay.Some? then now + job.delay.value else if job.runAt.Some? then job.runAt.value else now;
            Eligible(NewRow(job, now), t) <==> from <= t && (job.expires.Some? ==> t < now + job.expires.value)
    ensures Eligible(TakeRow(r, worker, timeout, now), t)
            <==> now + timeout < t && r.attempts + 1 < r.maxAttempts && !Expired(r, t)
    ensures Eligible(ReleaseRow(r, delay, now), t) <==> now + delay <= t && !Expired(r, t)
  {
  }

  /** A heartbeat moves the lease and nothing else: not the claim time, not the token, not the budget. */
  lemma HeartbeatMovesOnlyTheLease(db: Db, id: int, worker: string, extend: int, token: Option<int>, now: int, t: int)
    requires id in Matched(db, Heartbeat(id, worker, extend, token), now)
    ensures var after := Exec(db, Heartbeat(id, worker, extend, token), now).value;
            && id in after.live && after.dead == db.dead
            && after.live[id].(lease := db.live[id].lease) == db.live[id]
            && (LeaseHeld(after.live[id], t) <==> t <= now + extend)
            && (Eligible(after.live[id], t)
                <==> now + extend < t && db.live[id].attempts < db.live[id].maxAttempts && !Expired(db.live[id], t))
  {
  }

  /** The jobs an operation may change at all: the one it names, or those of its queue. */
  predicate Addressed(db: Db, ev: Event, id: int)
  {
    match ev
    case Enqueue(_) => db.nextId <= id
    case Tick(_) => db.nextId <= id
    case Claim(q, _, _, _) => id in db.live && db.live[id].queue == q
    case Sweep(q) => id in db.live && db.live[id].queue == q
    case AckBatch(es, _) => exists e :: e in es && e.id == id
    case Ack(i, _, _) => i == id
    case RetryUpdate(i, _, _, _) => i == id
    case RetryDelete(i, _, _, _) => i == id
    case Fail(i, _, _, _) => i == id
    case Heartbeat(i, _, _, _) => i == id
    case Cancel(i, _) => i == id
  }

  /** Every other job keeps its row, live or dead. */
  lemma OthersUntouched(db: Db, ev: Event, now: int, id: int)
    requires Sound(db, now) && Exec(db, ev, now).Ok? && !Addressed(db, ev, id)
    ensures Look(Exec(db, ev, now).value, id) == Look(db, id)
  {
    StepIsLegal(db, ev, now, id);
    match ev
    case Claim(q, w, n, t) =>
      HousekeepSlot(db, id, q, now);
      ClaimIsTopEligible(db, q, n, now);
    case Sweep(q) => SweptIds(db, q, now, -1, id);
    case AckBatch(es, w) => assert Plain(id) in es ==> Plain(id).id == id;
    case _ =>
  }

  /**
   What a dead row says: the run_at, attempts and budget of the row that died,
   the clock reading of its death, and why. The caller's error is kept; a sweep
   records "expired" only for an expired row and "max attempts exceeded" only
   for a lapsed claim with no attempts left.
   */
  lemma DeadRowSays(db: Db, ev: Event, now: int, id: int)
    requires Sound(db, now) && Exec(db, ev, now).Ok? && id in db.live && id in Exec(db, ev, now).value.dead
    ensures var d := Exec(db, ev, now).value.dead[id];
            var r := db.live[id];
            && d.runAt == r.runAt && d.diedAt == now && d.attempts == r.attempts && d.maxAttempts == r.maxAttempts
            && d.queue == r.queue && d.payload == r.payload && d.priority == r.priority && d.createdAt == r.createdAt
            && (ev.Fail? || ev.RetryDelete? ==> d.lastError == ev.error)
            && (!ev.Fail? && !ev.RetryDelete? ==>
                  || (d.lastError == "expired" && Expired(r, now))
                  || (d.lastError == "max attempts exceeded" && Exhausted(r, r.queue, now)))
  {
    TablesStayDisjoint(db, ev, now);
    StepIsLegal(db, ev, now, id);
    match ev
    case Claim(q, w, n, t) => HousekeepSlot(db, id, q, now);
    case Sweep(q) => SweptIds(db, q, now, -1, id);
    case _ =>
  }

  // ----- bounded progress -----

  /** One claim at the fixed clock reading `now`. */
  function AfterClaim(db: Db, queue: string, worker: string, n: int, timeout: int, now: int): Db
    requires Housekeep(db, queue, now).Ok?
  {
    Exec(db, Claim(queue, worker, n, timeout), now).value
  }

  datatype Call = Call(worker: string, n: int, timeout: int)

  /** Some call of the sequence returns a job. */
  ghost predicate SomeReturns(db: Db, queue: string, calls: seq<Call>, now: int)
    decreases |calls|
  {
    && calls != []
    && Housekeep(db, queue, now).Ok?
    && (|| Matched(db, Claim(queue, calls[0].worker, calls[0].n, calls[0].timeout), now) != {}
        || SomeReturns(AfterClaim(db, queue, calls[0].worker, calls[0].n, calls[0].timeout, now), queue, calls[1..],
                       now))
  }

  /** max(1, ceil(S / 1000)) calls clear a backlog of S due scheduled rows. */
  function CallsNeeded(due: nat): nat
  {
    if due <= 1000 then 1 else 1 + CallsNeeded(due - 1000)
  }

  lemma {:induction false} CallsNeededIsCeil(due: nat)
    ensures CallsNeeded(due) == if due == 0 then 1 else (due + 999) / 1000
    decreases due
  {
    if due > 1000 {
      CallsNeededIsCeil(due - 1000);
      assert (due + 999) / 1000 == (due - 1000 + 999) / 1000 + 1;
    }
  }

  lemma EmptyClaimLook(db: Db, queue: string, call: Call, now: int)
    requires Housekeep(db, queue, now).Ok?
    requires Matched(db, Claim(queue, call.worker, call.n, call.timeout), now) == {}
    ensures AfterClaim(db, queue, call.worker, call.n, call.timeout, now) == Housekeep(db, queue, now).value
  {
  }

  lemma IdsNonempty(s: set<Key>)
    requires s != {}
    ensures Ids(s) != {}
  {
    var k :| k in s;
    assert k.id in Ids(s);
  }

  lemma EmptyClaimMeansNoneReady(db: Db, queue: string, n: int, now: int)
    requires Housekeep(db, queue, now).Ok? && n != 0
    requires ClaimIds(Housekeep(db, queue, now).value, queue, n, now) == {}
    ensures EligibleKeys(db, queue, now) <= DeferredKeys(db, queue, now)
  {
    ClaimIsTopEligible(db, queue, n, now);
    var e, d := EligibleKeys(db, queue, now), DeferredKeys(db, queue, now);
    if e - d != {} {
      TopNNonempty(e - d, n);
      IdsNonempty(TopN(e - d, n));
    }
    forall k | k in e
      ensures k in d
    {
      assert k in e - d || k in d;
    }
  }

  /** A claim that finds more than 1000 due scheduled rows leaves at most 1000 fewer of them. */
  lemma BacklogShrinks(db: Db, queue: string, now: int)
    requires Housekeep(db, queue, now).Ok?
    ensures var h := Housekeep(db, queue, now).value;
            var due, left := DueScheduledKeys(db, queue, now), DueScheduledKeys(h, queue, now);
            && left <= due - TopN(due, 1000)
            && |left| <= if |due| <= 1000 then 0 else |due| - 1000
  {
    var h := Housekeep(db, queue, now).value;
    var c := DueScheduledKeys(db, queue, now);
    var top := TopN(c, 1000);
    forall k | k in DueScheduledKeys(h, queue, now)
      ensures k in c && k !in top
    {
      HousekeepLook(db, queue, now, k.id);
      PromoteLook(db, queue, now, k.id);
      assert k in top ==> k.id in Ids(top);
    }
    TopNCard(c, 1000);
    SubsetCard(DueScheduledKeys(h, queue, now), c - top);
    assert |c - top| == |c| - |top|;
  }

  /** A claim that comes back empty while a job is eligible has cut 1000 rows off the scheduled backlog. */
  lemma EmptyClaimStep(db: Db, queue: string, call: Call, now: int)
    requires db.live.Keys !! db.dead.Keys && call.n != 0
    requires EligibleKeys(db, queue, now) != {}
    requires Housekeep(db, queue, now).Ok?
    requires Matched(db, Claim(queue, call.worker, call.n, call.timeout), now) == {}
    ensures var h := Housekeep(db, queue, now).value;
            && AfterClaim(db, queue, call.worker, call.n, call.timeout, now) == h
            && h.live.Keys !! h.dead.Keys
            && EligibleKeys(h, queue, now) != {}
            && |DueScheduledKeys(db, queue, now)| > 1000
            && |DueScheduledKeys(h, queue, now)| <= |DueScheduledKeys(db, queue, now)| - 1000
  {
    var h := Housekeep(db, queue, now).value;
    HousekeepSucceeds(db, queue, now);
    EmptyClaimLook(db, queue, call, now);
    EmptyClaimMeansNoneReady(db, queue, call.n, now);
    if |DueScheduledKeys(db, queue, now)| <= 1000 {
      UnderCapPromotesAll(db, queue, now);
    }
    BacklogShrinks(db, queue, now);
    var k :| k in EligibleKeys(db, queue, now);
    HousekeepLook(db, queue, now, k.id);
    assert k == ClaimKey(k.id, h.live[k.id]);
    assert k in EligibleKeys(h, queue, now);
  }

  /** However many expired, exhausted or scheduled rows are queued, an eligible job is reached within the bound. */
  lemma {:induction false} BoundedProgress(db: Db, queue: string, calls: seq<Call>, now: int)
    requires db.live.Keys !! db.dead.Keys
    requires EligibleKeys(db, queue, now) != {}
    requires |calls| >= CallsNeeded(|DueScheduledKeys(db, queue, now)|)
    requires forall c :: c in calls ==> c.n != 0
    ensures SomeReturns(db, queue, calls, now)
    decreases |calls|
  {
    var call := calls[0];
    HousekeepSucceeds(db, queue, now);
    if Matched(db, Claim(queue, call.worker, call.n, call.timeout), now) == {} {
      EmptyClaimStep(db, queue, call, now);
      var h := Housekeep(db, queue, now).value;
      MonotoneCalls(|DueScheduledKeys(h, queue, now)|, |DueScheduledKeys(db, queue, now)| - 1000);
      BoundedProgress(h, queue, calls[1..], now);
    }
  }

  lemma {:induction false} MonotoneCalls(a: nat, b: nat)
    requires a <= b
    ensures CallsNeeded(a) <= CallsNeeded(b)
  {
    if b > 1000 && a > 1000 {
      MonotoneCalls(a - 1000, b - 1000);
    }
  }
}
