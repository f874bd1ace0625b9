/**
 The job tables and the SQL statements that change them.

 `Db` is a committed snapshot of `_honker_live`, `_honker_dead` and the
 AUTOINCREMENT counter. A function below is what one statement, or one
 savepoint body, does to such a snapshot at one clock reading.
 */
module Queue {
  import opened Wrappers
  import opened Ranking

  const CLAIM_HOUSEKEEPING_LIMIT: int := 1000

  datatype JobState = Scheduled | Pending | Processing

  datatype Row = Row(
    queue: string,
    payload: string,
    state: JobState,
    priority: int,
    runAt: int,
    worker: Option<string>,
    lease: Option<int>,          // claim_expires_at
    attempts: int,
    maxAttempts: int,
    createdAt: int,
    expiresAt: Option<int>,
    claimedAt: Option<int>)

  datatype DeadRow = DeadRow(
    queue: string,
    payload: string,
    priority: int,
    runAt: int,
    maxAttempts: int,
    attempts: int,
    lastError: string,
    createdAt: int,
    diedAt: int)

  datatype Db = Db(live: map<int, Row>, dead: map<int, DeadRow>, nextId: int)

  const EMPTY_DB := Db(map[], map[], 1)

  // ----- row predicates; a comparison with NULL is false -----

  predicate Lapsed(r: Row, now: int)
  {
    r.lease.Some? && r.lease.value < now
  }

  predicate LeaseHeld(r: Row, now: int)
  {
    r.lease.Some? && r.lease.value >= now
  }

  predicate Expired(r: Row, now: int)
  {
    r.expiresAt.Some? && r.expiresAt.value <= now
  }

  /** A claim may hand this row out: due or lapsed, under budget, unexpired. */
  predicate Eligible(r: Row, now: int)
  {
    && (if r.state == Processing then Lapsed(r, now) else r.runAt <= now)
    && r.attempts < r.maxAttempts
    && !Expired(r, now)
  }

  // ----- the completion guards; `token` is the fenced form's attempts value -----

  predicate HoldsToken(r: Row, worker: string, attempt: int)
  {
    r.worker == Some(worker) && r.attempts == attempt && r.state == Processing
  }

  predicate AckGuard(r: Row, worker: string, token: Option<int>, now: int)
  {
    match token
    case None => r.worker == Some(worker) && LeaseHeld(r, now)
    case Some(a) => HoldsToken(r, worker, a)
  }

  predicate RetryGuard(r: Row, worker: string, token: Option<int>, now: int)
  {
    AckGuard(r, worker, token, now) && r.state == Processing
  }

  // ----- enqueue -----

  datatype JobSpec = JobSpec(
    queue: string,
    payload: string,
    runAt: Option<int>,
    delay: Option<int>,
    priority: int,
    maxAttempts: int,
    expires: Option<int>)

  function RunAt(job: JobSpec, now: int): int
  {
    match job.delay
    case Some(d) => now + d
    case None => if job.runAt.Some? then job.runAt.value else now
  }

  function NewRow(job: JobSpec, now: int): Row
  {
    Row(job.queue, job.payload,
        if RunAt(job, now) > now then Scheduled else Pending,
        job.priority, RunAt(job, now), None, None, 0, job.maxAttempts, now,
        if job.expires.Some? then Some(now + job.expires.value) else None, None)
  }

  function Insert(db: Db, job: JobSpec, now: int): Db
  {
    db.(live := db.live[db.nextId := NewRow(job, now)], nextId := db.nextId + 1)
  }

  /** One savepoint that inserts every job; a budget below 1 is an error. */
  function InsertAll(db: Db, jobs: seq<JobSpec>, now: int): Result<Db>
    decreases |jobs|
  {
    if jobs == [] then Ok(db)
    else if jobs[0].maxAttempts < 1 then Err
    else InsertAll(Insert(db, jobs[0], now), jobs[1..], now)
  }

  // ----- claim_batch -----

  predicate DueScheduled(r: Row, queue: string, now: int)
  {
    r.queue == queue && r.state == Scheduled && r.runAt <= now
  }

  function DueScheduledKeys(db: Db, queue: string, now: int): set<Key>
  {
    set i | i in db.live && DueScheduled(db.live[i], queue, now) :: Key(db.live[i].runAt, 0, i)
  }

  function PromoteIds(db: Db, queue: string, now: int): set<int>
  {
    Ids(TopN(DueScheduledKeys(db, queue, now), CLAIM_HOUSEKEEPING_LIMIT))
  }

  function Promote(db: Db, queue: string, now: int): Db
  {
    var ids := PromoteIds(db, queue, now);
    db.(live := map i | i in db.live :: if i in ids then db.live[i].(state := Pending) else db.live[i])
  }

  predicate ExpiredUnheld(r: Row, queue: string, now: int)
  {
    r.queue == queue && Expired(r, now) && (r.state == Processing ==> Lapsed(r, now))
  }

  function ExpiredKeys(db: Db, queue: string, now: int): set<Key>
  {
    set i | i in db.live && ExpiredUnheld(db.live[i], queue, now) :: Key(db.live[i].expiresAt.value, 0, i)
  }

  predicate Exhausted(r: Row, queue: string, now: int)
  {
    r.queue == queue && r.state == Processing && Lapsed(r, now) && r.attempts >= r.maxAttempts
  }

  function ExhaustedKeys(db: Db, queue: string, now: int): set<Key>
  {
    set i | i in db.live && Exhausted(db.live[i], queue, now) :: Key(db.live[i].lease.value, 0, i)
  }

  function Bury(r: Row, error: string, now: int): DeadRow
  {
    DeadRow(r.queue, r.payload, r.priority, r.runAt, r.maxAttempts, r.attempts, error, r.createdAt, now)
  }

  /** INSERT INTO _honker_dead SELECT ids, then DELETE ids; the primary key of the dead table can refuse. */
  function MoveToDead(db: Db, ids: set<int>, error: string, now: int): Result<Db>
    requires ids <= db.live.Keys
  {
    if ids !! db.dead.Keys then
      Ok(db.(live := map i | i in db.live && i !in ids :: db.live[i],
             dead := db.dead + map i | i in ids :: Bury(db.live[i], error, now)))
    else Err
  }

  function ExpireIds(db: Db, queue: string, now: int, limit: int): (ids: set<int>)
    ensures ids <= db.live.Keys
  {
    Ids(TopN(ExpiredKeys(db, queue, now), limit))
  }

  function ExhaustIds(db: Db, queue: string, now: int, limit: int): (ids: set<int>)
    ensures ids <= db.live.Keys
  {
    Ids(TopN(ExhaustedKeys(db, queue, now), limit))
  }

  function Expire(db: Db, queue: string, now: int, limit: int): Result<Db>
  {
    MoveToDead(db, ExpireIds(db, queue, now, limit), "expired", now)
  }

  function Exhaust(db: Db, queue: string, now: int, limit: int): Result<Db>
  {
    MoveToDead(db, ExhaustIds(db, queue, now, limit), "max attempts exceeded", now)
  }

  /** The three capped steps before the claim itself. */
  function Housekeep(db: Db, queue: string, now: int): Result<Db>
  {
    match Expire(Promote(db, queue, now), queue, now, CLAIM_HOUSEKEEPING_LIMIT)
    case Err => Err
    case Ok(unexpired) => Exhaust(unexpired, queue, now, CLAIM_HOUSEKEEPING_LIMIT)
  }

  function ClaimKey(i: int, r: Row): Key
  {
    Key(-r.priority, r.runAt, i)
  }

  function ReadyKeys(db: Db, queue: string, now: int): set<Key>
  {
    set i | i in db.live && db.live[i].queue == queue && db.live[i].state == Pending && Eligible(db.live[i], now)
      :: ClaimKey(i, db.live[i])
  }

  function LapsedKeys(db: Db, queue: string, now: int): set<Key>
  {
    set i | i in db.live && db.live[i].queue == queue && db.live[i].state == Processing && Eligible(db.live[i], now)
      :: ClaimKey(i, db.live[i])
  }

  /** The two-arm query: a limited ready arm, UNION ALL lapsed leases, limited again. */
  function ClaimIds(db: Db, queue: string, n: int, now: int): (ids: set<int>)
    ensures ids <= db.live.Keys
  {
    Ids(TopN(TopN(ReadyKeys(db, queue, now), n) + LapsedKeys(db, queue, now), n))
  }

  function TakeRow(r: Row, worker: string, timeout: int, now: int): Row
  {
    r.(state := Processing, worker := Some(worker), lease := Some(now + timeout),
       claimedAt := Some(now), attempts := r.attempts + 1)
  }

  function Take(db: Db, ids: set<int>, worker: string, timeout: int, now: int): Db
  {
    db.(live := map i | i in db.live :: if i in ids then TakeRow(db.live[i], worker, timeout, now) else db.live[i])
  }

  // ----- ack, retry, fail, heartbeat, cancel -----

  /** One element of an ack batch: a plain id, or an [id, attempt] pair. */
  datatype Element = Plain(id: int) | Pair(id: int, attempt: int)

  /** The row deleted by the batch statement: its own form of some element matches it. */
  predicate BatchGuard(i: int, r: Row, elements: seq<Element>, worker: string, now: int)
  {
    && r.worker == Some(worker)
    && ((LeaseHeld(r, now) && Plain(i) in elements)
        || (r.state == Processing && Pair(i, r.attempts) in elements))
  }

  function BatchIds(db: Db, elements: seq<Element>, worker: string, now: int): set<int>
  {
    set i | i in db.live && BatchGuard(i, db.live[i], elements, worker, now)
  }

  function Delete(db: Db, ids: set<int>): Db
  {
    db.(live := map i | i in db.live && i !in ids :: db.live[i])
  }

  function ReleaseRow(r: Row, delay: int, now: int): Row
  {
    r.(state := if delay > 0 then Scheduled else Pending, runAt := now + delay,
       worker := None, lease := None, claimedAt := None)
  }

  // ----- operations -----

  datatype Event =
    | Enqueue(job: JobSpec)
    | Tick(jobs: seq<JobSpec>)
    | Claim(queue: string, worker: string, n: int, timeout: int)
    | Ack(id: int, worker: string, token: Option<int>)
    | AckBatch(elements: seq<Element>, worker: string)
    | RetryUpdate(id: int, worker: string, delay: int, token: Option<int>)
    | RetryDelete(id: int, worker: string, error: string, token: Option<int>)
    | Fail(id: int, worker: string, error: string, token: Option<int>)
    | Heartbeat(id: int, worker: string, extend: int, token: Option<int>)
    | Cancel(id: int, inQueue: Option<string>)
    | Sweep(queue: string)

  /** The live rows an operation's WHERE clause matches: what it counts or returns. */
  function Matched(db: Db, ev: Event, now: int): set<int>
  {
    match ev
    case Enqueue(_) => {}
    case Tick(_) => {}
    case Claim(q, _, n, _) => if Housekeep(db, q, now).Ok? then ClaimIds(Housekeep(db, q, now).value, q, n, now) else {}
    case Ack(id, w, token) => One(db, id, id in db.live && AckGuard(db.live[id], w, token, now))
    case AckBatch(es, w) => BatchIds(db, es, w, now)
    case RetryUpdate(id, w, _, token) =>
      One(db, id, id in db.live && RetryGuard(db.live[id], w, token, now)
          && db.live[id].attempts < db.live[id].maxAttempts)
    case RetryDelete(id, w, _, token) =>
      One(db, id, id in db.live && RetryGuard(db.live[id], w, token, now)
          && db.live[id].attempts >= db.live[id].maxAttempts)
    case Fail(id, w, _, token) => One(db, id, id in db.live && AckGuard(db.live[id], w, token, now))
    case Heartbeat(id, w, _, token) => One(db, id, id in db.live && RetryGuard(db.live[id], w, token, now))
    case Cancel(id, q) => One(db, id, id in db.live && (q.Some? ==> db.live[id].queue == q.value))
    case Sweep(q) => ExpireIds(db, q, now, -1)
  }

  function One(db: Db, id: int, matches: bool): set<int>
    requires matches ==> id in db.live
  {
    if matches then {id} else {}
  }

  /** The committed effect of one operation, or Err when it rolls back. */
  function Exec(db: Db, ev: Event, now: int): Result<Db>
  {
    match ev
    case Enqueue(job) => InsertAll(db, [job], now)
    case Tick(jobs) => InsertAll(db, jobs, now)
    case Claim(q, w, n, t) =>
      (match Housekeep(db, q, now)
       case Err => Err
       case Ok(h) => Ok(Take(h, ClaimIds(h, q, n, now), w, t, now)))
    case Ack(_, _, _) => Ok(Delete(db, Matched(db, ev, now)))
    case AckBatch(_, _) => Ok(Delete(db, Matched(db, ev, now)))
    case RetryUpdate(id, _, delay, _) =>
      if id in Matched(db, ev, now) then Ok(db.(live := db.live[id := ReleaseRow(db.live[id], delay, now)])) else Ok(db)
    case RetryDelete(id, _, error, _) => MoveToDead(db, Matched(db, ev, now), error, now)
    case Fail(id, _, error, _) => MoveToDead(db, Matched(db, ev, now), error, now)
    case Heartbeat(id, _, extend, _) =>
      if id in Matched(db, ev, now) then Ok(db.(live := db.live[id := db.live[id].(lease := Some(now + extend))]))
      else Ok(db)
    case Cancel(_, _) => Ok(Delete(db, Matched(db, ev, now)))
    case Sweep(q) => Expire(db, q, now, -1)
  }
}
