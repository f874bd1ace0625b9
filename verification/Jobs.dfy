/**
 One job seen through every operation.

 `Look` is what the tables say about one id, `EffectOf` what an operation does
 to that id, and `Legal` the automaton a single job follows. `StepIsLegal`
 projects every set-oriented operation onto it, so whole-run properties are
 proved once, on one job.
 */
module Jobs {
  import opened Wrappers
  import opened Queue

  datatype Slot = Vacant | Live(row: Row) | Buried(dead: DeadRow)

  function Look(db: Db, id: int): Slot
  {
    if id in db.live then Live(db.live[id])
    else if id in db.dead then Buried(db.dead[id])
    else Vacant
  }

  datatype Effect =
    | Untouched
    | Issued(row: Row)
    | Promoted
    | Claimed(worker: string, attempt: int, lease: int)
    | Extended(worker: string, attempt: int, lease: int)
    | Released(worker: string, attempt: int, runAt: int)
    | Acked(worker: string, attempt: int)
    | Failed(worker: string, attempt: int, error: string)
    | Swept(error: string)
    | Cancelled

  function JobsOf(ev: Event): seq<JobSpec>
  {
    match ev
    case Enqueue(job) => [job]
    case Tick(jobs) => jobs
    case _ => []
  }

  function ClaimEffect(db: Db, id: int, queue: string, worker: string, n: int, timeout: int, now: int): Effect
    requires Housekeep(db, queue, now).Ok?
  {
    var promoted := Promote(db, queue, now);
    var unexpired := Expire(promoted, queue, now, CLAIM_HOUSEKEEPING_LIMIT).value;
    if id in ExpireIds(promoted, queue, now, CLAIM_HOUSEKEEPING_LIMIT) then Swept("expired")
    else if id in ExhaustIds(unexpired, queue, now, CLAIM_HOUSEKEEPING_LIMIT) then Swept("max attempts exceeded")
    else if id in ClaimIds(Housekeep(db, queue, now).value, queue, n, now) then
      Claimed(worker, (if id in db.live then db.live[id].attempts else 0) + 1, now + timeout)
    else if id in PromoteIds(db, queue, now) then Promoted
    else Untouched
  }

  /** What a committed operation does to job `id`. */
  function EffectOf(db: Db, ev: Event, now: int, id: int): Effect
    requires Exec(db, ev, now).Ok?
  {
    if ev.Claim? then ClaimEffect(db, id, ev.queue, ev.worker, ev.n, ev.timeout, now)
    else if (ev.Enqueue? || ev.Tick?) && db.nextId <= id < db.nextId + |JobsOf(ev)| then
      Issued(NewRow(JobsOf(ev)[id - db.nextId], now))
    else if id in Matched(db, ev, now) && id in db.live then
      var r := db.live[id];
      match ev
      case Ack(_, w, _) => Acked(w, r.attempts)
      case AckBatch(_, w) => Acked(w, r.attempts)
      case RetryUpdate(_, w, delay, _) => Released(w, r.attempts, now + delay)
      case RetryDelete(_, w, error, _) => Failed(w, r.attempts, error)
      case Fail(_, w, error, _) => Failed(w, r.attempts, error)
      case Heartbeat(_, w, extend, _) => Extended(w, r.attempts, now + extend)
      case Cancel(_, _) => Cancelled
      case _ => Swept("expired")
    else Untouched
  }

  /** Scheduled and pending rows are unheld and within budget; pending ones are due; processing ones are held. */
  predicate Shaped(r: Row, now: int)
  {
    && (r.state == Processing ==> r.worker.Some? && r.lease.Some? && 1 <= r.attempts <= r.maxAttempts)
    && (r.state != Processing
        ==> r.worker.None? && r.lease.None? && r.claimedAt.None? && 0 <= r.attempts < r.maxAttempts)
    && (r.state == Pending ==> r.runAt <= now)
  }

  /** A held row says since when; only a claim made before the column existed does not. */
  predicate Stamped(r: Row)
  {
    r.state == Processing ==> r.claimedAt.Some?
  }

  /** Issued ids are 1 .. nextId - 1, no id is both live and dead, and every live row is shaped. */
  ghost predicate Sound(db: Db, now: int)
  {
    && 1 <= db.nextId
    && db.live.Keys !! db.dead.Keys
    && (forall i :: i in db.live ==> 1 <= i < db.nextId && Shaped(db.live[i], now))
    && (forall i :: i in db.dead ==> 1 <= i < db.nextId)
  }

  /** The transitions one job can make at clock `now`. */
  predicate Legal(now: int, pre: Slot, e: Effect, post: Slot)
  {
    match e
    case Untouched => post == pre
    case Issued(row) => pre.Vacant? && post == Live(row) && row.attempts == 0 && Shaped(row, now)
    case Promoted =>
      && pre.Live? && pre.row.state == Scheduled && pre.row.runAt <= now
      && post == Live(pre.row.(state := Pending))
    case Claimed(w, a, l) =>
      && pre.Live? && Eligible(pre.row, now) && a == pre.row.attempts + 1
      && post == Live(TakeRow(pre.row, w, l - now, now))
    case Extended(w, a, l) => pre.Live? && HoldsToken(pre.row, w, a) && post == Live(pre.row.(lease := Some(l)))
    case Released(w, a, at) =>
      && pre.Live? && HoldsToken(pre.row, w, a) && a < pre.row.maxAttempts
      && post == Live(ReleaseRow(pre.row, at - now, now))
    case Acked(w, a) => pre.Live? && HoldsToken(pre.row, w, a) && post == Vacant
    case Failed(w, a, error) => pre.Live? && HoldsToken(pre.row, w, a) && post == Buried(Bury(pre.row, error, now))
    case Swept(error) =>
      && pre.Live? && (pre.row.state == Processing ==> Lapsed(pre.row, now))
      && (Expired(pre.row, now) || pre.row.attempts >= pre.row.maxAttempts)
      && post == Buried(Bury(pre.row, error, now))
    case Cancelled => pre.Live? && post == Vacant
  }

  // ----- projecting the statements -----

  lemma {:induction false} InsertAllLook(db: Db, jobs: seq<JobSpec>, now: int, id: int)
    requires InsertAll(db, jobs, now).Ok?
    ensures var after := InsertAll(db, jobs, now).value;
            && after.nextId == db.nextId + |jobs|
            && after.dead == db.dead
            && (db.nextId <= id < db.nextId + |jobs| ==>
                  && Look(after, id) == Live(NewRow(jobs[id - db.nextId], now))
                  && jobs[id - db.nextId].maxAttempts >= 1)
            && (!(db.nextId <= id < db.nextId + |jobs|) ==> Look(after, id) == Look(db, id))
    decreases |jobs|
  {
    if jobs == [] {
    } else {
      var next := Insert(db, jobs[0], now);
      InsertAllLook(next, jobs[1..], now, id);
    }
  }

  lemma PromoteLook(db: Db, queue: string, now: int, id: int)
    ensures var p := Promote(db, queue, now);
            && p.nextId == db.nextId && p.dead == db.dead && p.live.Keys == db.live.Keys
            && (id in PromoteIds(db, queue, now) ==>
                  && id in db.live && DueScheduled(db.live[id], queue, now)
                  && p.live[id] == db.live[id].(state := Pending))
            && (id !in PromoteIds(db, queue, now) ==> Look(p, id) == Look(db, id))
  {
  }

  lemma MoveLook(db: Db, ids: set<int>, error: string, now: int, id: int)
    requires ids <= db.live.Keys && MoveToDead(db, ids, error, now).Ok?
    ensures var m := MoveToDead(db, ids, error, now).value;
            && m.nextId == db.nextId
            && m.live.Keys == db.live.Keys - ids
            && m.dead.Keys == db.dead.Keys + ids
            && (id in ids ==> Look(m, id) == Buried(Bury(db.live[id], error, now)))
            && (id !in ids ==> Look(m, id) == Look(db, id))
  {
  }

  /** The tables are disjoint, so the dead table's primary key never refuses a move. */
  lemma MovesSucceed(db: Db, ids: set<int>, error: string, now: int)
    requires ids <= db.live.Keys && db.live.Keys !! db.dead.Keys
    ensures MoveToDead(db, ids, error, now).Ok?
    ensures var m := MoveToDead(db, ids, error, now).value; m.live.Keys !! m.dead.Keys
  {
  }

  lemma HousekeepSucceeds(db: Db, queue: string, now: int)
    requires db.live.Keys !! db.dead.Keys
    ensures Housekeep(db, queue, now).Ok?
    ensures var h := Housekeep(db, queue, now).value; h.live.Keys !! h.dead.Keys && h.nextId == db.nextId
  {
  }

  lemma TakeLook(db: Db, ids: set<int>, worker: string, timeout: int, now: int, id: int)
    requires ids <= db.live.Keys
    ensures var t := Take(db, ids, worker, timeout, now);
            && t.nextId == db.nextId && t.dead == db.dead && t.live.Keys == db.live.Keys
            && (id in ids ==> Look(t, id) == Live(TakeRow(db.live[id], worker, timeout, now)))
            && (id !in ids ==> Look(t, id) == Look(db, id))
  {
  }

  lemma ClaimIdsEligible(db: Db, queue: string, n: int, now: int, id: int)
    requires id in ClaimIds(db, queue, n, now)
    ensures id in db.live && Eligible(db.live[id], now) && db.live[id].queue == queue && db.live[id].state != Scheduled
  {
  }

  lemma SweptIds(db: Db, queue: string, now: int, limit: int, id: int)
    ensures id in ExpireIds(db, queue, now, limit) ==> id in db.live && ExpiredUnheld(db.live[id], queue, now)
    ensures id in ExhaustIds(db, queue, now, limit) ==> id in db.live && Exhausted(db.live[id], queue, now)
  {
  }

  /** Housekeeping buries the swept rows, promotes the promoted ones and leaves the rest alone. */
  lemma HousekeepSlot(db: Db, id: int, queue: string, now: int)
    requires Housekeep(db, queue, now).Ok?
    ensures var k := CLAIM_HOUSEKEEPING_LIMIT;
            var p := Promote(db, queue, now);
            var u := Expire(p, queue, now, k).value;
            var h := Housekeep(db, queue, now).value;
            && h.nextId == db.nextId
            && (if id in ExpireIds(p, queue, now, k) then
                  && id in db.live && ExpiredUnheld(db.live[id], queue, now)
                  && Look(h, id) == Buried(Bury(db.live[id], "expired", now))
                else if id in ExhaustIds(u, queue, now, k) then
                  && id in db.live && Exhausted(db.live[id], queue, now)
                  && Look(h, id) == Buried(Bury(db.live[id], "max attempts exceeded", now))
                else if id in PromoteIds(db, queue, now) then
                  && id in db.live && DueScheduled(db.live[id], queue, now)
                  && Look(h, id) == Live(db.live[id].(state := Pending))
                else Look(h, id) == Look(db, id))
  {
  }

  lemma ClaimIsLegal(db: Db, id: int, queue: string, worker: string, n: int, timeout: int, now: int)
    requires Housekeep(db, queue, now).Ok?
    ensures var h := Housekeep(db, queue, now).value;
            var after := Take(h, ClaimIds(h, queue, n, now), worker, timeout, now);
            && after.nextId == db.nextId
            && Legal(now, Look(db, id), ClaimEffect(db, id, queue, worker, n, timeout, now), Look(after, id))
  {
    HousekeepSlot(db, id, queue, now);
    var h := Housekeep(db, queue, now).value;
    var claimed := ClaimIds(h, queue, n, now);
    TakeLook(h, claimed, worker, timeout, now, id);
    if id in claimed {
      ClaimIdsEligible(h, queue, n, now, id);
    }
  }

  lemma LaterIsSound(db: Db, now: int, later: int)
    requires Sound(db, now) && now <= later
    ensures Sound(db, later)
  {
  }

  /** Every committed operation moves every job along the automaton. */
  lemma StepIsLegal(db: Db, ev: Event, now: int, id: int)
    requires Sound(db, now) && Exec(db, ev, now).Ok?
    ensures Legal(now, Look(db, id), EffectOf(db, ev, now, id), Look(Exec(db, ev, now).value, id))
    ensures Exec(db, ev, now).value.nextId == db.nextId + |JobsOf(ev)|
  {
    match ev
    case Claim(q, w, n, t) => ClaimIsLegal(db, id, q, w, n, t, now);
    case Enqueue(job) => InsertAllLook(db, [job], now, id);
    case Tick(jobs) => InsertAllLook(db, jobs, now, id);
    case Sweep(q) =>
      SweptIds(db, q, now, -1, id);
      MoveLook(db, ExpireIds(db, q, now, -1), "expired", now, id);
    case Fail(_, _, error, _) => MoveLook(db, Matched(db, ev, now), error, now, id);
    case RetryDelete(_, _, error, _) => MoveLook(db, Matched(db, ev, now), error, now, id);
    case _ => RowOpIsLegal(db, ev, now, id);
  }

  /** The single-statement operations on the live table alone. */
  lemma RowOpIsLegal(db: Db, ev: Event, now: int, id: int)
    requires Sound(db, now)
    requires ev.Ack? || ev.AckBatch? || ev.RetryUpdate? || ev.Heartbeat? || ev.Cancel?
    ensures Exec(db, ev, now).Ok? && Exec(db, ev, now).value.nextId == db.nextId
    ensures Legal(now, Look(db, id), EffectOf(db, ev, now, id), Look(Exec(db, ev, now).value, id))
  {
  }

  lemma TablesStayDisjoint(db: Db, ev: Event, now: int)
    requires Sound(db, now) && Exec(db, ev, now).Ok?
    ensures var after := Exec(db, ev, now).value; after.live.Keys !! after.dead.Keys
  {
    var after := Exec(db, ev, now).value;
    match ev
    case Claim(q, w, n, t) =>
      HousekeepSucceeds(db, q, now);
    case Enqueue(_) =>
      forall i | i in after.live ensures i !in after.dead { InsertAllLook(db, JobsOf(ev), now, i); }
    case Tick(_) =>
      forall i | i in after.live ensures i !in after.dead { InsertAllLook(db, JobsOf(ev), now, i); }
    case Sweep(q) => MovesSucceed(db, ExpireIds(db, q, now, -1), "expired", now);
    case Fail(_, _, error, _) => MovesSucceed(db, Matched(db, ev, now), error, now);
    case RetryDelete(_, _, error, _) => MovesSucceed(db, Matched(db, ev, now), error, now);
    case _ =>
  }

  lemma LegalKeepsShape(now: int, pre: Slot, e: Effect, post: Slot)
    requires Legal(now, pre, e, post) && (pre.Live? ==> Shaped(pre.row, now))
    ensures post.Live? ==> Shaped(post.row, now)
  {
  }

  /** The row shape is inductive: every operation keeps it. */
  lemma StepKeepsSound(db: Db, ev: Event, now: int)
    requires Sound(db, now) && Exec(db, ev, now).Ok?
    ensures Sound(Exec(db, ev, now).value, now)
  {
    var after := Exec(db, ev, now).value;
    TablesStayDisjoint(db, ev, now);
    StepIsLegal(db, ev, now, 0);
    forall i | i in after.live || i in after.dead
      ensures 1 <= i < after.nextId && (i in after.live ==> Shaped(after.live[i], now))
    {
      StepIsLegal(db, ev, now, i);
      LegalKeepsShape(now, Look(db, i), EffectOf(db, ev, now, i), Look(after, i));
    }
  }

  predicate BudgetsValid(jobs: seq<JobSpec>)
  {
    forall j :: 0 <= j < |jobs| ==> jobs[j].maxAttempts >= 1
  }

  /** On sound tables an operation rolls back only for a job budget below 1. */
  lemma ExecSucceedsIff(db: Db, ev: Event, now: int)
    requires Sound(db, now)
    ensures Exec(db, ev, now).Ok? <==> BudgetsValid(JobsOf(ev))
  {
    match ev
    case Claim(q, w, n, t) => HousekeepSucceeds(db, q, now);
    case Enqueue(job) => InsertAllSucceedsIff(db, [job], now);
    case Tick(jobs) => InsertAllSucceedsIff(db, jobs, now);
    case Sweep(q) => MovesSucceed(db, ExpireIds(db, q, now, -1), "expired", now);
    case Fail(_, _, error, _) => MovesSucceed(db, Matched(db, ev, now), error, now);
    case RetryDelete(_, _, error, _) => MovesSucceed(db, Matched(db, ev, now), error, now);
    case _ =>
  }

  lemma {:induction false} InsertAllSucceedsIff(db: Db, jobs: seq<JobSpec>, now: int)
    ensures InsertAll(db, jobs, now).Ok? <==> BudgetsValid(jobs)
    decreases |jobs|
  {
    if jobs == [] {
    } else {
      InsertAllSucceedsIff(Insert(db, jobs[0], now), jobs[1..], now);
      assert forall j :: 0 < j < |jobs| ==> jobs[j] == jobs[1..][j - 1];
      assert forall j :: 0 <= j < |jobs[1..]| ==> jobs[1..][j] == jobs[j + 1];
    }
  }
}
