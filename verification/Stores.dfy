/**
 The queue operations as they run: each updates the tables statement by
 statement inside a savepoint, and any statement may fail.

 `fails` is the set of statement numbers that fail. Whatever it is, an
 operation either has the whole effect `Exec` gives it or none.
 */
module Stores {
  import opened Wrappers
  import opened Ranking
  import opened Queue
  import opened Jobs
  import opened Runs
  import opened Claims
  import opened Retry

  /** The RETURNING clause of the claim. */
  function ReturnedRows(db: Db, ids: set<int>): map<int, Row>
    requires ids <= db.live.Keys
  {
    map i | i in ids :: db.live[i]
  }

  /** What a claim reports: the first n undeferred eligible rows, each now held by the caller. */
  ghost predicate ClaimAnswer(
    before: Db, after: Db, queue: string, worker: string, n: int, timeout: int, now: int, rows: map<int, Row>)
  {
    && rows.Keys == Ids(TopN(EligibleKeys(before, queue, now) - DeferredKeys(before, queue, now), n))
    && forall i :: i in rows ==>
         && i in after.live && rows[i] == after.live[i]
         && HoldsToken(rows[i], worker, rows[i].attempts)
         && rows[i].lease == Some(now + timeout) && rows[i].claimedAt == Some(now)
  }

  lemma Answered(db: Db, queue: string, worker: string, n: int, timeout: int, now: int)
    requires Housekeep(db, queue, now).Ok?
    ensures var h := Housekeep(db, queue, now).value;
            var ids := ClaimIds(h, queue, n, now);
            var after := Take(h, ids, worker, timeout, now);
            ids <= after.live.Keys && ClaimAnswer(db, after, queue, worker, n, timeout, now, ReturnedRows(after, ids))
  {
    ClaimIsTopEligible(db, queue, n, now);
    var h := Housekeep(db, queue, now).value;
    TakeLook(h, ClaimIds(h, queue, n, now), worker, timeout, now, 0);
  }

  class Store {
    var live: map<int, Row>
    var dead: map<int, DeadRow>
    var nextId: int

    ghost function View(): Db
      reads this
    {
      Db(live, dead, nextId)
    }

    constructor ()
      ensures View() == EMPTY_DB
    {
      live, dead, nextId := map[], map[], 1;
    }

    /** INSERT into the live table; ids come from the AUTOINCREMENT counter. */
    method InsertRow(job: JobSpec, now: int) returns (id: int)
      modifies this
      ensures View() == Insert(old(View()), job, now)
      ensures id == old(nextId)
    {
      id := nextId;
      var runAt := now;
      if job.delay.Some? {
        runAt := now + job.delay.value;
      } else if job.runAt.Some? {
        runAt := job.runAt.value;
      }
      var expiresAt: Option<int> := None;
      if job.expires.Some? {
        expiresAt := Some(now + job.expires.value);
      }
      live := live[id := Row(job.queue, job.payload, if runAt > now then Scheduled else Pending,
                             job.priority, runAt, None, None, 0, job.maxAttempts, now, expiresAt, None)];
      nextId := nextId + 1;
    }

    method Enqueue(job: JobSpec, now: int, fails: set<nat>) returns (r: Result<int>)
      modifies this
      ensures r.Err? ==> View() == old(View())
      ensures r.Ok? ==> Exec(old(View()), Event.Enqueue(job), now) == Ok(View()) && r.value == old(nextId)
      ensures fails == {} ==> (r.Ok? <==> Exec(old(View()), Event.Enqueue(job), now).Ok?)
      ensures 0 in fails ==> r.Err?
    {
      if job.maxAttempts < 1 || 0 in fails {
        return Err;
      }
      var id := InsertRow(job, now);
      InsertOne(old(View()), job, now);
      return Ok(id);
    }

    /**
     `move_to_dead`: copy the selected rows to the dead table, then delete the
     rows the same query selects again. Failing half-way leaves the copies
     behind; the caller's savepoint undoes them. The row counts never differ.
     */
    method MoveSelected(exhausted: bool, queue: string, now: int, limit: int, first: nat, fails: set<nat>)
      returns (r: Result<nat>)
      modifies this
      ensures nextId == old(nextId)
      ensures r.Ok? ==>
        && (if exhausted then Exhaust(old(View()), queue, now, limit)
            else Expire(old(View()), queue, now, limit)) == Ok(View())
        && r.value == |if exhausted then ExhaustIds(old(View()), queue, now, limit)
                       else ExpireIds(old(View()), queue, now, limit)|
      ensures fails == {} ==>
        (r.Ok? <==> (if exhausted then Exhaust(old(View()), queue, now, limit)
                     else Expire(old(View()), queue, now, limit)).Ok?)
      ensures first in fails ==> r.Err?
    {
      var error := if exhausted then "max attempts exceeded" else "expired";
      var db := Db(live, dead, nextId);
      var ids := if exhausted then ExhaustIds(db, queue, now, limit) else ExpireIds(db, queue, now, limit);
      if first in fails || !(ids !! dead.Keys) {
        return Err;
      }
      dead := dead + map i | i in ids :: Bury(live[i], error, now);
      var copied := |ids|;
      if copied == 0 {
        assert ids == {};
        assert live == map i | i in live && i !in ids :: live[i];
        return Ok(0);
      }
      if first + 1 in fails {
        return Err;
      }
      db := Db(live, dead, nextId);
      var again := if exhausted then ExhaustIds(db, queue, now, limit) else ExpireIds(db, queue, now, limit);
      SameSelection(old(View()), db, exhausted, queue, now, limit);
      live := map i | i in live && i !in again :: live[i];
      if |again| != copied {
        return Err;
      }
      return Ok(copied);
    }

    /**
     `claim_batch`. On success the returned rows are the first n, by priority
     descending, run_at and id, of the eligible rows the promotion cap did not
     defer, each now held by `worker`; on any failure nothing changed.
     */
    method ClaimBatch(queue: string, worker: string, n: int, timeout: int, now: int, fails: set<nat>)
      returns (r: Result<map<int, Row>>)
      modifies this
      ensures r.Err? ==> View() == old(View())
      ensures r.Ok? ==>
        && Exec(old(View()), Event.Claim(queue, worker, n, timeout), now) == Ok(View())
        && ClaimAnswer(old(View()), View(), queue, worker, n, timeout, now, r.value)
      ensures fails == {} ==> (r.Ok? <==> Exec(old(View()), Event.Claim(queue, worker, n, timeout), now).Ok?)
      ensures 0 in fails ==> r.Err?
    {
      var savedLive, savedDead := live, dead;
      var ok := HousekeepTables(queue, now, fails);
      if !ok || 5 in fails {
        live, dead := savedLive, savedDead;
        return Err;
      }
      ghost var h := View();
      var ids := ClaimIds(Db(live, dead, nextId), queue, n, now);
      live := map i | i in live :: if i in ids then TakeRow(live[i], worker, timeout, now) else live[i];
      assert View() == Take(h, ids, worker, timeout, now);
      if 6 in fails {
        live, dead := savedLive, savedDead;
        return Err;
      }
      Answered(old(View()), queue, worker, n, timeout, now);
      return Ok(ReturnedRows(Db(live, dead, nextId), ids));
    }

    /** Promote due rows, then move expired and exhausted ones; a failure may leave it half done. */
    method HousekeepTables(queue: string, now: int, fails: set<nat>) returns (ok: bool)
      modifies this
      ensures nextId == old(nextId)
      ensures ok ==> Housekeep(old(View()), queue, now) == Ok(View())
      ensures fails == {} ==> (ok <==> Housekeep(old(View()), queue, now).Ok?)
      ensures 0 in fails ==> !ok
    {
      if 0 in fails {
        return false;
      }
      var promote := PromoteIds(Db(live, dead, nextId), queue, now);
      live := map i | i in live :: if i in promote then live[i].(state := Pending) else live[i];
      assert View() == Promote(old(View()), queue, now);
      var moved := MoveSelected(false, queue, now, CLAIM_HOUSEKEEPING_LIMIT, 1, fails);
      if moved.Err? {
        return false;
      }
      moved := MoveSelected(true, queue, now, CLAIM_HOUSEKEEPING_LIMIT, 3, fails);
      return moved.Ok?;
    }

    /** A DELETE with a guard on one row; reports how many rows it removed. */
    method AckJob(id: int, worker: string, token: Option<int>, now: int, fails: set<nat>) returns (r: Result<int>)
      modifies this
      ensures r.Err? ==> View() == old(View())
      ensures r.Ok? ==>
        && Exec(old(View()), Event.Ack(id, worker, token), now) == Ok(View())
        && r.value == (if old(id in live && AckGuard(live[id], worker, token, now)) then 1 else 0)
      ensures r.Ok? <==> 0 !in fails
    {
      if 0 in fails {
        return Err;
      }
      if id in live && AckGuard(live[id], worker, token, now) {
        live := map i | i in live && i !in {id} :: live[i];
        assert View() == Delete(old(View()), {id});
        return Ok(1);
      }
      DeleteNone(View());
      return Ok(0);
    }

    /** The batch DELETE, its RETURNING rows counted one by one. */
    method AckMany(elements: seq<Element>, worker: string, now: int, fails: set<nat>) returns (r: Result<nat>)
      modifies this
      ensures r.Err? ==> View() == old(View())
      ensures r.Ok? ==>
        && Exec(old(View()), Event.AckBatch(elements, worker), now) == Ok(View())
        && r.value == |Matched(old(View()), Event.AckBatch(elements, worker), now)|
      ensures r.Ok? <==> 0 !in fails
    {
      if 0 in fails {
        return Err;
      }
      var rows := BatchIds(Db(live, dead, nextId), elements, worker, now);
      live := map i | i in live && i !in rows :: live[i];
      var rest, count := rows, 0;
      while rest != {}
        invariant rest <= rows && count + |rest| == |rows|
        decreases |rest|
      {
        var i :| i in rest;
        rest := rest - {i};
        count := count + 1;
      }
      return Ok(count);
    }

    /** DELETE ... RETURNING one row and INSERT it into the dead table, in one savepoint. */
    method BuryOne(id: int, matches: bool, error: string, now: int, fails: set<nat>) returns (r: Result<int>)
      requires matches ==> id in live
      modifies this
      ensures nextId == old(nextId)
      ensures r.Err? ==> View() == old(View())
      ensures r.Ok? ==> MoveToDead(old(View()), One(old(View()), id, matches), error, now) == Ok(View())
      ensures r.Ok? ==> r.value == if matches then 1 else 0
      ensures fails == {} ==> (r.Ok? <==> MoveToDead(old(View()), One(old(View()), id, matches), error, now).Ok?)
      ensures 0 in fails ==> r.Err?
    {
      var saved := live;
      if 0 in fails {
        return Err;
      }
      if !matches {
        if 2 in fails {
          return Err;
        }
        MoveNone(View(), error, now);
        return Ok(0);
      }
      var row := live[id];
      live := map i | i in live && i !in {id} :: live[i];
      if 1 in fails || id in dead {
        live := saved;
        return Err;
      }
      var savedDead := dead;
      dead := dead[id := Bury(row, error, now)];
      if 2 in fails {
        live, dead := saved, savedDead;
        return Err;
      }
      MoveOne(old(View()), id, error, now);
      return Ok(1);
    }

    method FailJob(id: int, worker: string, error: string, token: Option<int>, now: int, fails: set<nat>)
      returns (r: Result<int>)
      modifies this
      ensures r.Err? ==> View() == old(View())
      ensures r.Ok? ==>
        && Exec(old(View()), Event.Fail(id, worker, error, token), now) == Ok(View())
        && r.value == (if old(id in live && AckGuard(live[id], worker, token, now)) then 1 else 0)
      ensures fails == {} ==> (r.Ok? <==> Exec(old(View()), Event.Fail(id, worker, error, token), now).Ok?)
      ensures 0 in fails ==> r.Err?
    {
      r := BuryOne(id, id in live && AckGuard(live[id], worker, token, now), error, now, fails);
    }

    method HeartbeatJob(id: int, worker: string, extend: int, token: Option<int>, now: int, fails: set<nat>)
      returns (r: Result<int>)
      modifies this
      ensures r.Err? ==> View() == old(View())
      ensures r.Ok? ==>
        && Exec(old(View()), Event.Heartbeat(id, worker, extend, token), now) == Ok(View())
        && r.value == (if old(id in live && RetryGuard(live[id], worker, token, now)) then 1 else 0)
      ensures r.Ok? <==> 0 !in fails
    {
      if 0 in fails {
        return Err;
      }
      if id in live && RetryGuard(live[id], worker, token, now) {
        live := live[id := live[id].(lease := Some(now + extend))];
        return Ok(1);
      }
      return Ok(0);
    }

    method CancelJob(id: int, inQueue: Option<string>, now: int, fails: set<nat>) returns (r: Result<int>)
      modifies this
      ensures r.Err? ==> View() == old(View())
      ensures r.Ok? ==>
        && Exec(old(View()), Event.Cancel(id, inQueue), now) == Ok(View())
        && r.value == (if old(id in live && (inQueue.Some? ==> live[id].queue == inQueue.value)) then 1 else 0)
      ensures r.Ok? <==> 0 !in fails
    {
      if 0 in fails {
        return Err;
      }
      if id in live && (inQueue.Some? ==> live[id].queue == inQueue.value) {
        live := map i | i in live && i !in {id} :: live[i];
        assert View() == Delete(old(View()), {id});
        return Ok(1);
      }
      DeleteNone(View());
      return Ok(0);
    }

    method SweepExpired(queue: string, now: int, fails: set<nat>) returns (r: Result<nat>)
      modifies this
      ensures r.Err? ==> View() == old(View())
      ensures r.Ok? ==>
        && Exec(old(View()), Event.Sweep(queue), now) == Ok(View())
        && r.value == |Matched(old(View()), Event.Sweep(queue), now)|
      ensures fails == {} ==> (r.Ok? <==> Exec(old(View()), Event.Sweep(queue), now).Ok?)
      ensures 0 in fails ==> r.Err?
    {
      var savedLive, savedDead := live, dead;
      r := MoveSelected(false, queue, now, -1, 0, fails);
      if r.Err? || 2 in fails {
        live, dead := savedLive, savedDead;
        return Err;
      }
    }

    // ----- statements of retry, and other connections in between -----

    method RetryUpdateStatement(c: RetryCall, now: int, fails: set<nat>) returns (r: Result<int>)
      modifies this
      ensures r.Err? ==> View() == old(View())
      ensures r.Ok? ==>
        && Exec(old(View()), UpdateOf(c), now) == Ok(View())
        && r.value == (if c.id in Matched(old(View()), UpdateOf(c), now) then 1 else 0)
      ensures r.Ok? <==> 0 !in fails
    {
      if 0 in fails {
        return Err;
      }
      if c.id in live && RetryGuard(live[c.id], c.worker, c.token, now)
         && live[c.id].attempts < live[c.id].maxAttempts {
        live := live[c.id := live[c.id].(
          state := if c.delay > 0 then Scheduled else Pending, runAt := now + c.delay,
          worker := None, lease := None, claimedAt := None)];
        return Ok(1);
      }
      return Ok(0);
    }

    method RetryDeleteStatement(c: RetryCall, now: int, fails: set<nat>) returns (r: Result<int>)
      modifies this
      ensures r.Err? ==> View() == old(View())
      ensures r.Ok? ==>
        && Exec(old(View()), DeleteOf(c), now) == Ok(View())
        && r.value == (if c.id in Matched(old(View()), DeleteOf(c), now) then 1 else 0)
      ensures fails == {} ==> (r.Ok? <==> Exec(old(View()), DeleteOf(c), now).Ok?)
      ensures 0 in fails ==> r.Err?
    {
      r := BuryOne(c.id,
                   c.id in live && RetryGuard(live[c.id], c.worker, c.token, now)
                   && live[c.id].attempts >= live[c.id].maxAttempts,
                   c.error, now, fails);
    }

    /** Several inserts in one savepoint, as a scheduler tick makes them. */
    method InsertMany(jobs: seq<JobSpec>, now: int, fails: set<nat>) returns (r: Result<int>)
      modifies this
      ensures r.Err? ==> View() == old(View())
      ensures r.Ok? ==> InsertAll(old(View()), jobs, now) == Ok(View())
      ensures fails == {} ==> (r.Ok? <==> InsertAll(old(View()), jobs, now).Ok?)
      ensures 0 in fails ==> r.Err?
    {
      var savedLive, savedNextId := live, nextId;
      if 0 in fails {
        return Err;
      }
      for i := 0 to |jobs|
        invariant InsertAll(old(View()), jobs[..i], now) == Ok(View())
        invariant dead == old(dead)
      {
        if jobs[i].maxAttempts < 1 || i + 1 in fails {
          live, nextId := savedLive, savedNextId;
          InsertAllSucceedsIff(old(View()), jobs, now);
          return Err;
        }
        InsertAllAppend(old(View()), jobs[..i], jobs[i], now);
        assert jobs[..i + 1] == jobs[..i] + [jobs[i]];
        var id := InsertRow(jobs[i], now);
      }
      assert jobs[..|jobs|] == jobs;
      if |jobs| + 1 in fails {
        live, nextId := savedLive, savedNextId;
        return Err;
      }
      return Ok(|jobs|);
    }

    /**
     One operation of a connection, any of whose statements may fail. Whichever
     do, the tables are those of the operation applied with or without a fault.
     */
    method Perform(ev: Event, now: int, fails: set<nat>) returns (failed: bool)
      modifies this
      ensures View() == Apply(old(View()), Stamp(now, ev, failed))
      ensures fails == {} ==> !failed
      ensures 0 in fails ==> failed
    {
      var ok := Attempt(ev, now, fails);
      failed := !ok && fails != {};
    }

    method Attempt(ev: Event, now: int, fails: set<nat>) returns (ok: bool)
      modifies this
      ensures if ok then Exec(old(View()), ev, now) == Ok(View()) else View() == old(View())
      ensures fails == {} ==> (ok <==> Exec(old(View()), ev, now).Ok?)
      ensures 0 in fails ==> !ok
    {
      match ev
      case Enqueue(job) => var r := Enqueue(job, now, fails); ok := r.Ok?;
      case Tick(jobs) => var r := InsertMany(jobs, now, fails); ok := r.Ok?;
      case Claim(q, w, n, t) => var r := ClaimBatch(q, w, n, t, now, fails); ok := r.Ok?;
      case Ack(id, w, token) => var r := AckJob(id, w, token, now, fails); ok := r.Ok?;
      case AckBatch(es, w) => var r := AckMany(es, w, now, fails); ok := r.Ok?;
      case RetryUpdate(id, w, delay, token) =>
        var r := RetryUpdateStatement(RetryCall(id, w, delay, "", token), now, fails);
        ok := r.Ok?;
      case RetryDelete(id, w, error, token) =>
        var r := RetryDeleteStatement(RetryCall(id, w, 0, error, token), now, fails);
        ok := r.Ok?;
      case Fail(id, w, error, token) => var r := FailJob(id, w, error, token, now, fails); ok := r.Ok?;
      case Heartbeat(id, w, extend, token) => var r := HeartbeatJob(id, w, extend, token, now, fails); ok := r.Ok?;
      case Cancel(id, q) => var r := CancelJob(id, q, now, fails); ok := r.Ok?;
      case Sweep(q) => var r := SweepExpired(q, now, fails); ok := r.Ok?;
    }

    method PerformAll(run: seq<Stamp>)
      modifies this
      ensures View() == Run(old(View()), run)
    {
      for i := 0 to |run|
        invariant View() == Run(old(View()), run[..i])
      {
        RunConcat(old(View()), 0, run[..i], [run[i]]);
        assert run[..i + 1] == run[..i] + [run[i]];
        var failed := Perform(run[i].ev, run[i].now, if run[i].fault then {0} else {});
      }
      assert run[..|run|] == run;
    }

    /** `retry_with`: UPDATE, then SELECT, then DELETE + INSERT, with other connections committing in between. */
    method RetryJob(c: RetryCall, s: Schedule) returns (r: Result<int>)
      modifies this
      ensures var t := Traced(old(View()), c, s);
              r == t.result && View() == t.statements[|t.statements| - 1].post
    {
      var updated := RetryUpdateStatement(c, s.t1, if s.fault1 then {0} else {});
      if updated.Err? || updated.value > 0 {
        return updated;
      }
      PerformAll(s.others1);
      if s.fault2 {
        return Err;
      }
      var exhausted :=
        c.id in live && RetryGuard(live[c.id], c.worker, c.token, s.t2)
        && live[c.id].attempts >= live[c.id].maxAttempts;
      if !exhausted {
        return Ok(0);
      }
      PerformAll(s.others2);
      r := RetryDeleteStatement(c, s.t3, if s.fault3 then {0} else {});
    }
  }

  /** The number of jobs inserted so far is the number of the next statement. */
  lemma {:induction false} InsertAllAppend(db: Db, jobs: seq<JobSpec>, job: JobSpec, now: int)
    requires InsertAll(db, jobs, now).Ok? && job.maxAttempts >= 1
    ensures InsertAll(db, jobs + [job], now) == Ok(Insert(InsertAll(db, jobs, now).value, job, now))
    decreases |jobs|
  {
    if jobs == [] {
      assert jobs + [job] == [job];
      InsertOne(db, job, now);
    } else {
      assert (jobs + [job])[1..] == jobs[1..] + [job];
      InsertAllAppend(Insert(db, jobs[0], now), jobs[1..], job, now);
    }
  }

  lemma InsertOne(db: Db, job: JobSpec, now: int)
    requires job.maxAttempts >= 1
    ensures InsertAll(db, [job], now) == Ok(Insert(db, job, now))
  {
  }

  lemma MoveOne(db: Db, id: int, error: string, now: int)
    requires id in db.live && id !in db.dead
    ensures MoveToDead(db, {id}, error, now) ==
            Ok(Db(map i | i in db.live && i !in {id} :: db.live[i], db.dead[id := Bury(db.live[id], error, now)],
                  db.nextId))
  {
    var m := MoveToDead(db, {id}, error, now).value;
    assert m.dead == db.dead[id := Bury(db.live[id], error, now)];
    assert m.live == map i | i in db.live && i !in {id} :: db.live[i];
    assert m == Db(m.live, m.dead, db.nextId);
  }

  lemma DeleteNone(db: Db)
    ensures Delete(db, {}) == db
  {
  }

  lemma MoveNone(db: Db, error: string, now: int)
    ensures MoveToDead(db, {}, error, now) == Ok(db)
  {
    var m := MoveToDead(db, {}, error, now).value;
    assert m.live == db.live && m.dead == db.dead;
  }

  /** Copying rows to the dead table does not change what the query selects from the live one. */
  lemma SameSelection(a: Db, b: Db, exhausted: bool, queue: string, now: int, limit: int)
    requires a.live == b.live
    ensures ExpireIds(a, queue, now, limit) == ExpireIds(b, queue, now, limit)
    ensures ExhaustIds(a, queue, now, limit) == ExhaustIds(b, queue, now, limit)
  {
  }
}
