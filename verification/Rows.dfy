/**
 What each operation writes, row by row, with every condition and every column
 written out on the rows it finds.

 Nothing here speaks through the guards and key functions the operations are
 built from: a claim, for instance, is the four sets of rows it promotes, buries
 and takes, each said to be the first of its kind.
 */
module Rows {
  import opened Wrappers
  import opened Ranking
  import opened Queue
  import opened Jobs
  import opened Claims

  // ----- the first rows of a query -----

  /** As many of `all` as a LIMIT allows; a negative one allows all of them. */
  predicate Sized(some: set<int>, all: set<int>, limit: int)
  {
    some <= all && |some| == if 0 <= limit < |all| then limit else |all|
  }

  lemma {:induction false} SameSize(keys: set<Key>)
    requires forall j, k :: j in keys && k in keys && j.id == k.id ==> j == k
    ensures |Ids(keys)| == |keys|
    decreases |keys|
  {
    if keys == {} {
      assert Ids(keys) == {};
    } else {
      var k :| k in keys;
      SameSize(keys - {k});
      assert Ids(keys) == Ids(keys - {k}) + {k.id};
    }
  }

  /** `keys` ranks exactly the rows of `all`. */
  ghost predicate Ranks(keys: set<Key>, all: set<int>, key: int -> Key)
  {
    && (forall k :: k in keys ==> k.id in all && k == key(k.id))
    && (forall i :: i in all ==> key(i) in keys && key(i).id == i)
  }

  /** Ordering rows by their keys and keeping the first `n`, said of the row ids. */
  lemma FirstRows(keys: set<Key>, all: set<int>, key: int -> Key, n: int)
    requires Ranks(keys, all, key)
    ensures var some := Ids(TopN(keys, n));
            Sized(some, all, n) && forall i, j :: i in some && j in all - some ==> Before(key(i), key(j))
  {
    var top := TopN(keys, n);
    forall i
      ensures i in Ids(keys) <==> i in all
    {
      assert i in all ==> key(i) in keys && key(i).id == i;
    }
    assert Ids(keys) == all;
    SameSize(keys);
    SameSize(top);
    if n >= 0 {
      TopNMeaning(top, keys, n);
      forall i, j | i in Ids(top) && j in all - Ids(top)
        ensures Before(key(i), key(j))
      {
        assert key(i) in top && key(j) in keys && key(j).id == j;
      }
    }
  }

  // ----- the rows a claim finds -----

  ghost function DueRows(db: Db, queue: string, now: int): set<int>
  {
    set i | i in db.live && db.live[i].queue == queue && db.live[i].state == Scheduled && db.live[i].runAt <= now
  }

  /** Rows whose expiry has passed and which nobody holds under an unexpired lease. */
  ghost function ExpiredRows(db: Db, queue: string, now: int): set<int>
  {
    set i | && i in db.live && db.live[i].queue == queue
            && db.live[i].expiresAt.Some? && db.live[i].expiresAt.value <= now
            && (db.live[i].state == Processing ==> db.live[i].lease.Some? && db.live[i].lease.value < now)
  }

  /** Lapsed claims with no attempts left. */
  ghost function SpentRows(db: Db, queue: string, now: int): set<int>
  {
    set i | && i in db.live && db.live[i].queue == queue && db.live[i].state == Processing
            && db.live[i].lease.Some? && db.live[i].lease.value < now
            && db.live[i].attempts >= db.live[i].maxAttempts
  }

  /** Rows to hand out: due or with a lapsed lease, with attempts left, unexpired. */
  ghost function OpenRows(db: Db, queue: string, now: int): set<int>
  {
    set i | && i in db.live && db.live[i].queue == queue && db.live[i].attempts < db.live[i].maxAttempts
            && (db.live[i].expiresAt.Some? ==> now < db.live[i].expiresAt.value)
            && (if db.live[i].state == Processing then db.live[i].lease.Some? && db.live[i].lease.value < now
                else db.live[i].runAt <= now)
  }

  /** What a claim chose: which rows it promoted, buried for either reason, and took. */
  datatype Choice = Choice(promoted: set<int>, expired: set<int>, spent: set<int>, taken: set<int>)

  /** The first 1000 due rows by run_at, the first 1000 expired by expiry, the first 1000 other spent ones by lease. */
  ghost predicate Housekept(db: Db, queue: string, now: int, c: Choice)
  {
    && Sized(c.promoted, DueRows(db, queue, now), 1000)
    && (forall i, j :: i in c.promoted && j in DueRows(db, queue, now) - c.promoted ==>
          || db.live[i].runAt < db.live[j].runAt
          || (db.live[i].runAt == db.live[j].runAt && i < j))
    && Sized(c.expired, ExpiredRows(db, queue, now), 1000)
    && (forall i, j :: i in c.expired && j in ExpiredRows(db, queue, now) - c.expired ==>
          || db.live[i].expiresAt.value < db.live[j].expiresAt.value
          || (db.live[i].expiresAt.value == db.live[j].expiresAt.value && i < j))
    && Sized(c.spent, SpentRows(db, queue, now) - c.expired, 1000)
    && (forall i, j :: i in c.spent && j in SpentRows(db, queue, now) - c.expired - c.spent ==>
          || db.live[i].lease.value < db.live[j].lease.value
          || (db.live[i].lease.value == db.live[j].lease.value && i < j))
  }

  /** The open rows a claim can reach: all but the scheduled ones whose promotion was put off. */
  ghost function Reachable(db: Db, queue: string, now: int, promoted: set<int>): set<int>
  {
    set i | i in OpenRows(db, queue, now) && (db.live[i].state == Scheduled ==> i in promoted)
  }

  /** The first n reachable rows, by priority, highest first, then run_at, then id. */
  ghost predicate Chosen(db: Db, queue: string, n: int, now: int, c: Choice)
  {
    var reachable := Reachable(db, queue, now, c.promoted);
    && Sized(c.taken, reachable, n)
    && forall i, j :: i in c.taken && j in reachable - c.taken ==>
         || db.live[i].priority > db.live[j].priority
         || (db.live[i].priority == db.live[j].priority && db.live[i].runAt < db.live[j].runAt)
         || (db.live[i].priority == db.live[j].priority && db.live[i].runAt == db.live[j].runAt && i < j)
  }

  function Grave(r: Row, error: string, now: int): DeadRow
  {
    DeadRow(queue := r.queue, payload := r.payload, priority := r.priority, runAt := r.runAt,
            maxAttempts := r.maxAttempts, attempts := r.attempts, lastError := error,
            createdAt := r.createdAt, diedAt := now)
  }

  /** The row a claim leaves: only state, worker, lease, claim time and attempts are written. */
  ghost predicate Taken(r: Row, t: Row, worker: string, timeout: int, now: int)
  {
    && t.state == Processing && t.worker == Some(worker) && t.lease == Some(now + timeout)
    && t.claimedAt == Some(now) && t.attempts == r.attempts + 1
    && t.queue == r.queue && t.payload == r.payload && t.priority == r.priority && t.runAt == r.runAt
    && t.maxAttempts == r.maxAttempts && t.createdAt == r.createdAt && t.expiresAt == r.expiresAt
  }

  /** What the tables then say of one id. */
  ghost predicate RowWritten(db: Db, after: Db, worker: string, timeout: int, now: int, c: Choice, i: int)
  {
    if i in c.expired then
      i in db.live && Look(after, i) == Buried(Grave(db.live[i], "expired", now))
    else if i in c.spent then
      i in db.live && Look(after, i) == Buried(Grave(db.live[i], "max attempts exceeded", now))
    else if i in c.taken then
      i in db.live && i in after.live && Taken(db.live[i], after.live[i], worker, timeout, now)
    else if i in c.promoted then
      i in db.live && Look(after, i) == Live(db.live[i].(state := Pending))
    else
      Look(after, i) == Look(db, i)
  }

  /** The tables a claim leaves, given what it chose. */
  ghost predicate ClaimWritten(db: Db, after: Db, worker: string, timeout: int, now: int, c: Choice)
  {
    after.nextId == db.nextId && forall i :: RowWritten(db, after, worker, timeout, now, c, i)
  }

  // ----- the claim makes exactly that choice -----

  function DueKey(db: Db): int -> Key
  {
    i => if i in db.live then Key(db.live[i].runAt, 0, i) else Key(0, 0, i)
  }

  function ExpiryKey(db: Db): int -> Key
  {
    i => if i in db.live && db.live[i].expiresAt.Some? then Key(db.live[i].expiresAt.value, 0, i) else Key(0, 0, i)
  }

  function LeaseKey(db: Db): int -> Key
  {
    i => if i in db.live && db.live[i].lease.Some? then Key(db.live[i].lease.value, 0, i) else Key(0, 0, i)
  }

  function OpenKey(db: Db): int -> Key
  {
    i => if i in db.live then Key(-db.live[i].priority, db.live[i].runAt, i) else Key(0, 0, i)
  }

  lemma PromotesFirst(db: Db, queue: string, now: int, limit: int)
    ensures var due := DueRows(db, queue, now);
            var ids := Ids(TopN(DueScheduledKeys(db, queue, now), limit));
            && Sized(ids, due, limit)
            && forall i, j :: i in ids && j in due - ids ==>
                 || db.live[i].runAt < db.live[j].runAt
                 || (db.live[i].runAt == db.live[j].runAt && i < j)
  {
    var due := DueRows(db, queue, now);
    FirstRows(DueScheduledKeys(db, queue, now), due, DueKey(db), limit);
  }

  lemma ExpiresFirst(db: Db, queue: string, now: int, limit: int)
    ensures var all, ids := ExpiredRows(db, queue, now), ExpireIds(db, queue, now, limit);
            && Sized(ids, all, limit)
            && forall i, j :: i in ids && j in all - ids ==>
                 || db.live[i].expiresAt.value < db.live[j].expiresAt.value
                 || (db.live[i].expiresAt.value == db.live[j].expiresAt.value && i < j)
  {
    var all := ExpiredRows(db, queue, now);
    FirstRows(ExpiredKeys(db, queue, now), all, ExpiryKey(db), limit);
  }

  lemma SpentFirst(db: Db, queue: string, now: int, limit: int)
    ensures var all, ids := SpentRows(db, queue, now), ExhaustIds(db, queue, now, limit);
            && Sized(ids, all, limit)
            && forall i, j :: i in ids && j in all - ids ==>
                 || db.live[i].lease.value < db.live[j].lease.value
                 || (db.live[i].lease.value == db.live[j].lease.value && i < j)
  {
    var all := SpentRows(db, queue, now);
    FirstRows(ExhaustedKeys(db, queue, now), all, LeaseKey(db), limit);
  }

  /** The choice `claim_batch` makes. */
  ghost function ClaimChoice(db: Db, queue: string, n: int, now: int): Choice
    requires Housekeep(db, queue, now).Ok?
  {
    var p := Promote(db, queue, now);
    var u := Expire(p, queue, now, 1000).value;
    Choice(PromoteIds(db, queue, now), ExpireIds(p, queue, now, 1000), ExhaustIds(u, queue, now, 1000),
           ClaimIds(Housekeep(db, queue, now).value, queue, n, now))
  }

  lemma ExpiryIgnoresPromotion(db: Db, queue: string, now: int)
    ensures ExpiredRows(Promote(db, queue, now), queue, now) == ExpiredRows(db, queue, now)
    ensures forall i :: i in db.live ==>
              && i in Promote(db, queue, now).live
              && Promote(db, queue, now).live[i].(state := db.live[i].state) == db.live[i]
  {
    forall i
      ensures i in ExpiredRows(Promote(db, queue, now), queue, now) <==> i in ExpiredRows(db, queue, now)
    {
      PromoteLook(db, queue, now, i);
    }
  }

  lemma SpentAfterExpiry(db: Db, queue: string, now: int)
    requires Expire(Promote(db, queue, now), queue, now, 1000).Ok?
    ensures var p := Promote(db, queue, now);
            var u := Expire(p, queue, now, 1000).value;
            && SpentRows(u, queue, now) == SpentRows(db, queue, now) - ExpireIds(p, queue, now, 1000)
            && forall i :: i in u.live ==> i in db.live && u.live[i].(state := db.live[i].state) == db.live[i]
  {
    var p := Promote(db, queue, now);
    var u := Expire(p, queue, now, 1000).value;
    forall i
      ensures i in SpentRows(u, queue, now) <==> i in SpentRows(db, queue, now) && i !in ExpireIds(p, queue, now, 1000)
      ensures i in u.live ==> i in db.live && u.live[i].(state := db.live[i].state) == db.live[i]
    {
      PromoteLook(db, queue, now, i);
      MoveLook(p, ExpireIds(p, queue, now, 1000), "expired", now, i);
    }
  }

  lemma ClaimHousekeeps(db: Db, queue: string, n: int, now: int)
    requires Housekeep(db, queue, now).Ok?
    ensures Housekept(db, queue, now, ClaimChoice(db, queue, n, now))
  {
    PromotesFirst(db, queue, now, 1000);
    ExpiresFirst(Promote(db, queue, now), queue, now, 1000);
    ExpiryIgnoresPromotion(db, queue, now);
    SpentFirst(Expire(Promote(db, queue, now), queue, now, 1000).value, queue, now, 1000);
    SpentAfterExpiry(db, queue, now);
  }

  lemma ClaimChooses(db: Db, queue: string, n: int, now: int)
    requires Housekeep(db, queue, now).Ok?
    ensures Chosen(db, queue, n, now, ClaimChoice(db, queue, n, now))
  {
    var reachable := Reachable(db, queue, now, PromoteIds(db, queue, now));
    ReachableKeys(db, queue, now);
    ClaimIsTopEligible(db, queue, n, now);
    FirstRows(EligibleKeys(db, queue, now) - DeferredKeys(db, queue, now), reachable, OpenKey(db), n);
  }

  lemma ReachableKeys(db: Db, queue: string, now: int)
    ensures Ranks(EligibleKeys(db, queue, now) - DeferredKeys(db, queue, now),
                  Reachable(db, queue, now, PromoteIds(db, queue, now)), OpenKey(db))
  {
    var keys := EligibleKeys(db, queue, now) - DeferredKeys(db, queue, now);
    forall i | i in Reachable(db, queue, now, PromoteIds(db, queue, now))
      ensures OpenKey(db)(i) in keys
    {
      assert OpenKey(db)(i) == ClaimKey(i, db.live[i]);
    }
  }

  lemma RowIsWritten(db: Db, queue: string, worker: string, n: int, timeout: int, now: int, i: int)
    requires Housekeep(db, queue, now).Ok?
    ensures RowWritten(db, AfterClaim(db, queue, worker, n, timeout, now), worker, timeout, now,
                       ClaimChoice(db, queue, n, now), i)
  {
    var h := Housekeep(db, queue, now).value;
    HousekeepSlot(db, i, queue, now);
    HousekeepLook(db, queue, now, i);
    TakeLook(h, ClaimIds(h, queue, n, now), worker, timeout, now, i);
  }

  lemma ClaimWrites(db: Db, queue: string, worker: string, n: int, timeout: int, now: int)
    requires Housekeep(db, queue, now).Ok?
    ensures ClaimWritten(db, AfterClaim(db, queue, worker, n, timeout, now), worker, timeout, now,
                         ClaimChoice(db, queue, n, now))
  {
    var c, after := ClaimChoice(db, queue, n, now), AfterClaim(db, queue, worker, n, timeout, now);
    forall i
      ensures RowWritten(db, after, worker, timeout, now, c, i)
    {
      RowIsWritten(db, queue, worker, n, timeout, now, i);
    }
  }

  /**
   A claim, whole and on the rows themselves: it succeeds, keeps house by its
   three caps in order, takes the first n open rows it can reach, and writes the
   columns a claim writes, leaving every other row, live or dead, alone.
   */
  lemma ClaimIs(db: Db, queue: string, worker: string, n: int, timeout: int, now: int)
    requires db.live.Keys !! db.dead.Keys
    ensures Exec(db, Claim(queue, worker, n, timeout), now).Ok?
    ensures exists c ::
              && Housekept(db, queue, now, c) && Chosen(db, queue, n, now, c)
              && ClaimWritten(db, Exec(db, Claim(queue, worker, n, timeout), now).value, worker, timeout, now, c)
              && Matched(db, Claim(queue, worker, n, timeout), now) == c.taken
  {
    HousekeepSucceeds(db, queue, now);
    ClaimHousekeeps(db, queue, n, now);
    ClaimChooses(db, queue, n, now);
    ClaimWrites(db, queue, worker, n, timeout, now);
  }

  // ----- repeated claims clear the backlog -----

  function AfterEach(db: Db, queue: string, calls: seq<Call>, now: int): Db
    decreases |calls|
  {
    if calls == [] then db
    else match Exec(db, Claim(queue, calls[0].worker, calls[0].n, calls[0].timeout), now)
      case Err => db
      case Ok(after) => AfterEach(after, queue, calls[1..], now)
  }

  function Less1000(n: nat): nat
  {
    if n < 1000 then 0 else n - 1000
  }

  lemma BacklogAfter(db: Db, queue: string, call: Call, now: int)
    requires Housekeep(db, queue, now).Ok? && call.timeout >= 0
    ensures var c := ClaimChoice(db, queue, call.n, now);
            var after := AfterClaim(db, queue, call.worker, call.n, call.timeout, now);
            && ExpiredRows(after, queue, now) <= ExpiredRows(db, queue, now) - c.expired
            && SpentRows(after, queue, now) <= SpentRows(db, queue, now) - c.expired - c.spent
  {
    var c := ClaimChoice(db, queue, call.n, now);
    var after := AfterClaim(db, queue, call.worker, call.n, call.timeout, now);
    forall i
      ensures i in ExpiredRows(after, queue, now) ==> i in ExpiredRows(db, queue, now) - c.expired
      ensures i in SpentRows(after, queue, now) ==> i in SpentRows(db, queue, now) - c.expired - c.spent
    {
      ClaimHousekeeps(db, queue, call.n, now);
      ClaimChooses(db, queue, call.n, now);
      RowIsWritten(db, queue, call.worker, call.n, call.timeout, now, i);
      LeftInBacklog(db, after, queue, call, now, c, i);
    }
  }

  /** One claim that takes no lease into the past buries 1000 of each kind, or all there are, and makes no new ones. */
  lemma BacklogShrinks(db: Db, queue: string, call: Call, now: int)
    requires Housekeep(db, queue, now).Ok? && call.timeout >= 0
    ensures var after := AfterClaim(db, queue, call.worker, call.n, call.timeout, now);
            && |ExpiredRows(after, queue, now)| <= Less1000(|ExpiredRows(db, queue, now)|)
            && |SpentRows(after, queue, now)| <= Less1000(|SpentRows(db, queue, now)|)
  {
    var c := ClaimChoice(db, queue, call.n, now);
    var after := AfterClaim(db, queue, call.worker, call.n, call.timeout, now);
    ClaimHousekeeps(db, queue, call.n, now);
    BacklogAfter(db, queue, call, now);
    var spent := SpentRows(db, queue, now) - c.expired;
    LeftOver(ExpiredRows(after, queue, now), ExpiredRows(db, queue, now), c.expired);
    LeftOver(SpentRows(after, queue, now), spent, c.spent);
    SubsetCard(spent, SpentRows(db, queue, now));
  }

  lemma LeftOver(left: set<int>, all: set<int>, gone: set<int>)
    requires left <= all - gone && Sized(gone, all, 1000)
    ensures |left| <= Less1000(|all|)
  {
    SubsetCard(left, all - gone);
    assert |all - gone| == |all| - |gone|;
  }

  lemma LeftInBacklog(db: Db, after: Db, queue: string, call: Call, now: int, c: Choice, i: int)
    requires call.timeout >= 0 && RowWritten(db, after, call.worker, call.timeout, now, c, i)
    requires i in c.taken ==> i in OpenRows(db, queue, now)
    requires i in c.promoted ==> i in DueRows(db, queue, now)
    ensures i in ExpiredRows(after, queue, now) ==> i in ExpiredRows(db, queue, now) - c.expired
    ensures i in SpentRows(after, queue, now) ==> i in SpentRows(db, queue, now) - c.expired - c.spent
  {
  }

  /**
   Whatever is queued, claims at one clock reading bury it all: after as many as
   there are thousands of expired rows and of spent leases, neither is left.
   */
  lemma {:induction false} ClaimsClearBacklog(db: Db, queue: string, calls: seq<Call>, now: int)
    requires db.live.Keys !! db.dead.Keys
    requires forall c :: c in calls ==> c.timeout >= 0
    requires |ExpiredRows(db, queue, now)| <= 1000 * |calls| && |SpentRows(db, queue, now)| <= 1000 * |calls|
    ensures var after := AfterEach(db, queue, calls, now);
            ExpiredRows(after, queue, now) == {} && SpentRows(after, queue, now) == {}
    decreases |calls|
  {
    if calls == [] {
    } else {
      HousekeepSucceeds(db, queue, now);
      BacklogShrinks(db, queue, calls[0], now);
      var after := AfterClaim(db, queue, calls[0].worker, calls[0].n, calls[0].timeout, now);
      assert after.live.Keys !! after.dead.Keys;
      ClaimsClearBacklog(after, queue, calls[1..], now);
    }
  }

  // ----- the other operations -----

  /** A new row: its time is now plus the delay, else the given time, else now, and it is scheduled if that is ahead. */
  ghost predicate NewlyWritten(job: JobSpec, r: Row, now: int)
  {
    && r.queue == job.queue && r.payload == job.payload && r.priority == job.priority
    && r.maxAttempts == job.maxAttempts && r.attempts == 0 && r.createdAt == now
    && r.worker == None && r.lease == None && r.claimedAt == None
    && r.runAt == (if job.delay.Some? then now + job.delay.value
                   else if job.runAt.Some? then job.runAt.value
                   else now)
    && (if r.runAt > now then r.state == Scheduled else r.state == Pending)
    && r.expiresAt == (match job.expires case None => None case Some(e) => Some(now + e))
  }

  /** The tables with one such row for each job under consecutive ids, and nothing else changed. */
  ghost predicate Inserted(db: Db, after: Db, jobs: seq<JobSpec>, now: int)
  {
    && after.nextId == db.nextId + |jobs| && after.dead == db.dead
    && forall i ::
         if db.nextId <= i < db.nextId + |jobs| then
           i in after.live && NewlyWritten(jobs[i - db.nextId], after.live[i], now)
         else Look(after, i) == Look(db, i)
  }

  /** Enqueues and ticks insert their jobs, unless the budget of one is below 1. */
  lemma EnqueueWrites(db: Db, ev: Event, now: int)
    requires ev.Enqueue? || ev.Tick?
    ensures var jobs := if ev.Enqueue? then [ev.job] else ev.jobs;
            match Exec(db, ev, now)
            case Err => exists k :: 0 <= k < |jobs| && jobs[k].maxAttempts < 1
            case Ok(after) =>
              (forall k :: 0 <= k < |jobs| ==> jobs[k].maxAttempts >= 1) && Inserted(db, after, jobs, now)
  {
    var jobs := if ev.Enqueue? then [ev.job] else ev.jobs;
    InsertAllSucceedsIff(db, jobs, now);
    if Exec(db, ev, now).Ok? {
      InsertAllLook(db, jobs, now, 0);
      forall i
        ensures if db.nextId <= i < db.nextId + |jobs| then
                  && i in Exec(db, ev, now).value.live
                  && NewlyWritten(jobs[i - db.nextId], Exec(db, ev, now).value.live[i], now)
                else Look(Exec(db, ev, now).value, i) == Look(db, i)
      {
        InsertAllLook(db, jobs, now, i);
      }
    }
  }

  /** A sweep buries exactly the expired rows of its queue that nobody holds, and touches nothing else. */
  lemma SweepWrites(db: Db, queue: string, now: int)
    requires db.live.Keys !! db.dead.Keys
    ensures Exec(db, Sweep(queue), now).Ok? && Matched(db, Sweep(queue), now) == ExpiredRows(db, queue, now)
    ensures var after := Exec(db, Sweep(queue), now).value;
            && after.nextId == db.nextId
            && forall i :: Look(after, i) ==
                 if i in ExpiredRows(db, queue, now) then Buried(Grave(db.live[i], "expired", now)) else Look(db, i)
  {
    ExpiresFirst(db, queue, now, -1);
    SubsetCard(ExpireIds(db, queue, now, -1), ExpiredRows(db, queue, now));
    MovesSucceed(db, ExpireIds(db, queue, now, -1), "expired", now);
    forall i
      ensures Look(Exec(db, Sweep(queue), now).value, i) ==
              if i in ExpiredRows(db, queue, now) then Buried(Grave(db.live[i], "expired", now)) else Look(db, i)
    {
      MoveLook(db, ExpireIds(db, queue, now, -1), "expired", now, i);
    }
  }

  /** Exactly this row changed, and to this. */
  ghost predicate OnlyRow(db: Db, after: Db, id: int, post: Slot)
  {
    after.nextId == db.nextId && forall i :: Look(after, i) == if i == id then post else Look(db, i)
  }

  /** A cancel removes the job, whatever its state, unless it was asked for in another queue or is not there. */
  lemma CancelWrites(db: Db, id: int, inQueue: Option<string>, now: int)
    requires db.live.Keys !! db.dead.Keys
    ensures Exec(db, Cancel(id, inQueue), now).Ok?
    ensures var hit := id in db.live && (inQueue == None || inQueue == Some(db.live[id].queue));
            && Matched(db, Cancel(id, inQueue), now) == (if hit then {id} else {})
            && OnlyRow(db, Exec(db, Cancel(id, inQueue), now).value, id, if hit then Vacant else Look(db, id))
  {
  }

  /**
   Whether a completion's row is still its caller's. With a token: the worker's,
   claimed that many times, and processing. Without one: the worker's, under a
   lease that has not passed; a retry and a heartbeat also check the state.
   */
  ghost predicate Owned(r: Row, worker: string, token: Option<int>, now: int, checksState: bool)
  {
    && r.worker == Some(worker)
    && (token.Some? ==> r.attempts == token.value && r.state == Processing)
    && (token.None? ==> r.lease.Some? && now <= r.lease.value)
    && (checksState ==> r.state == Processing)
  }

  lemma AckWrites(db: Db, id: int, worker: string, token: Option<int>, now: int)
    requires db.live.Keys !! db.dead.Keys
    ensures Exec(db, Ack(id, worker, token), now).Ok?
    ensures var hit := id in db.live && Owned(db.live[id], worker, token, now, false);
            && Matched(db, Ack(id, worker, token), now) == (if hit then {id} else {})
            && OnlyRow(db, Exec(db, Ack(id, worker, token), now).value, id, if hit then Vacant else Look(db, id))
  {
  }

  lemma FailWrites(db: Db, id: int, worker: string, error: string, token: Option<int>, now: int)
    requires db.live.Keys !! db.dead.Keys
    ensures Exec(db, Fail(id, worker, error, token), now).Ok?
    ensures var hit := id in db.live && Owned(db.live[id], worker, token, now, false);
            && Matched(db, Fail(id, worker, error, token), now) == (if hit then {id} else {})
            && OnlyRow(db, Exec(db, Fail(id, worker, error, token), now).value, id,
                       if hit then Buried(Grave(db.live[id], error, now)) else Look(db, id))
  {
  }

  lemma HeartbeatWrites(db: Db, id: int, worker: string, extend: int, token: Option<int>, now: int)
    ensures Exec(db, Heartbeat(id, worker, extend, token), now).Ok?
    ensures var hit := id in db.live && Owned(db.live[id], worker, token, now, true);
            && Matched(db, Heartbeat(id, worker, extend, token), now) == (if hit then {id} else {})
            && OnlyRow(db, Exec(db, Heartbeat(id, worker, extend, token), now).value, id,
                       if hit then Live(db.live[id].(lease := Some(now + extend))) else Look(db, id))
  {
  }

  /** A released row: unheld, due after the delay, scheduled if that is ahead; the rest is as it was. */
  ghost predicate PutBack(r: Row, t: Row, delay: int, now: int)
  {
    && t.state == (if delay > 0 then Scheduled else Pending) && t.runAt == now + delay
    && t.worker == None && t.lease == None && t.claimedAt == None
    && t.queue == r.queue && t.payload == r.payload && t.priority == r.priority && t.attempts == r.attempts
    && t.maxAttempts == r.maxAttempts && t.createdAt == r.createdAt && t.expiresAt == r.expiresAt
  }

  /** The two guarded writes of a retry: back to the queue with attempts left, to the dead table without. */
  lemma RetryWrites(db: Db, id: int, worker: string, delay: int, error: string, token: Option<int>, now: int)
    requires db.live.Keys !! db.dead.Keys
    ensures Exec(db, RetryUpdate(id, worker, delay, token), now).Ok?
    ensures Exec(db, RetryDelete(id, worker, error, token), now).Ok?
    ensures var owned := id in db.live && Owned(db.live[id], worker, token, now, true);
            var after := Exec(db, RetryUpdate(id, worker, delay, token), now).value;
            var dead := Exec(db, RetryDelete(id, worker, error, token), now).value;
            && (if owned && db.live[id].attempts < db.live[id].maxAttempts then
                  && Matched(db, RetryUpdate(id, worker, delay, token), now) == {id}
                  && id in after.live && PutBack(db.live[id], after.live[id], delay, now)
                  && OnlyRow(db, after, id, Live(after.live[id]))
                else Matched(db, RetryUpdate(id, worker, delay, token), now) == {} && after == db)
            && (if owned && db.live[id].attempts >= db.live[id].maxAttempts then
                  && Matched(db, RetryDelete(id, worker, error, token), now) == {id}
                  && OnlyRow(db, dead, id, Buried(Grave(db.live[id], error, now)))
                else Matched(db, RetryDelete(id, worker, error, token), now) == {} && dead == db)
  {
    var dead := Exec(db, RetryDelete(id, worker, error, token), now).value;
    if Matched(db, RetryDelete(id, worker, error, token), now) == {} {
      assert dead.live == db.live && dead.dead == db.dead;
    }
  }
}
