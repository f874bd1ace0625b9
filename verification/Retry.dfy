/**
 `retry` is up to three separately committed statements: a guarded UPDATE, a
 SELECT that chooses the branch, and a guarded DELETE + INSERT in a savepoint.
 Other connections commit anything in between. It still behaves as one atomic
 retry at one of those instants.
 */
module Retry {
  import opened Wrappers
  import opened Queue
  import opened Jobs
  import opened Runs

  datatype RetryCall = RetryCall(id: int, worker: string, delay: int, error: string, token: Option<int>)

  predicate Guarded(db: Db, c: RetryCall, now: int)
  {
    c.id in db.live && RetryGuard(db.live[c.id], c.worker, c.token, now)
  }

  predicate OutOfAttempts(db: Db, id: int)
    requires id in db.live
  {
    db.live[id].attempts >= db.live[id].maxAttempts
  }

  /** The specification: release the job, bury it, or report 0, in one step. */
  function AtomicRetry(db: Db, c: RetryCall, now: int): (Db, Result<int>)
  {
    if !Guarded(db, c, now) then (db, Ok(0))
    else if !OutOfAttempts(db, c.id) then
      (db.(live := db.live[c.id := ReleaseRow(db.live[c.id], c.delay, now)]), Ok(1))
    else match MoveToDead(db, {c.id}, c.error, now)
      case Ok(after) => (after, Ok(1))
      case Err => (db, Err)
  }

  /** The clock readings, faults and other commits around the three statements. */
  datatype Schedule = Schedule(
    t1: int, fault1: bool, others1: seq<Stamp>,
    t2: int, fault2: bool, others2: seq<Stamp>,
    t3: int, fault3: bool)

  /** A statement of the call: the tables it found, when, and the tables it left. */
  datatype Statement = Statement(pre: Db, now: int, post: Db)

  datatype Trace = Trace(statements: seq<Statement>, result: Result<int>)

  function UpdateOf(c: RetryCall): Event
  {
    RetryUpdate(c.id, c.worker, c.delay, c.token)
  }

  function DeleteOf(c: RetryCall): Event
  {
    RetryDelete(c.id, c.worker, c.error, c.token)
  }

  /** `retry_with`, statement by statement, starting on tables `db`. */
  function Traced(db: Db, c: RetryCall, s: Schedule): Trace
  {
    var update := Stamp(s.t1, UpdateOf(c), s.fault1);
    var first := Statement(db, s.t1, Apply(db, update));
    if s.fault1 then Trace([first], Err)
    else if c.id in Matched(db, UpdateOf(c), s.t1) then Trace([first], Ok(1))
    else
      var db2 := Run(first.post, s.others1);
      var second := Statement(db2, s.t2, db2);
      if s.fault2 then Trace([first, second], Err)
      else if !(Guarded(db2, c, s.t2) && OutOfAttempts(db2, c.id)) then Trace([first, second], Ok(0))
      else
        var db3 := Run(db2, s.others2);
        var delete := Stamp(s.t3, DeleteOf(c), s.fault3);
        var third := Statement(db3, s.t3, Apply(db3, delete));
        Trace([first, second, third],
              if Commits(db3, delete) then Ok(if c.id in Matched(db3, DeleteOf(c), s.t3) then 1 else 0) else Err)
  }

  ghost predicate WellTimed(from: int, s: Schedule)
  {
    && from <= s.t1 && Clocked(s.t1, s.others1)
    && End(s.t1, s.others1) <= s.t2 && Clocked(s.t2, s.others2)
    && End(s.t2, s.others2) <= s.t3
  }

  /** While a job stays live its attempts never go down and its budget never moves. */
  lemma {:induction false} AttemptsGrow(db: Db, from: int, run: seq<Stamp>, id: int)
    requires Sound(db, from) && Clocked(from, run) && id in db.live
    ensures var after := Run(db, run);
            id in after.live ==>
              && db.live[id].attempts <= after.live[id].attempts
              && db.live[id].maxAttempts == after.live[id].maxAttempts
    decreases |run|
  {
    if run == [] {
    } else {
      StepOf(db, from, run[0], id);
      var next := Apply(db, run[0]);
      if id in next.live {
        AttemptsGrow(next, run[0].now, run[1..], id);
      } else {
        NeverReenters(next, run[0].now, run[1..], id);
      }
    }
  }

  /** Statement k did all the work of an atomic retry with that result, and the others changed nothing. */
  ghost predicate LinearizedAt(t: Trace, c: RetryCall, k: nat)
  {
    && k < |t.statements|
    && AtomicRetry(t.statements[k].pre, c, t.statements[k].now) == (t.statements[k].post, t.result)
    && forall j :: 0 <= j < |t.statements| && j != k ==> t.statements[j].post == t.statements[j].pre
  }

  lemma UpdateIsAtomic(db: Db, c: RetryCall, now: int)
    ensures c.id in Matched(db, UpdateOf(c), now)
            ==> AtomicRetry(db, c, now) == (Exec(db, UpdateOf(c), now).value, Ok(1))
    ensures c.id !in Matched(db, UpdateOf(c), now) ==> Exec(db, UpdateOf(c), now) == Ok(db)
    ensures c.id !in Matched(db, UpdateOf(c), now) ==> !Guarded(db, c, now) || OutOfAttempts(db, c.id)
  {
  }

  lemma DeleteIsAtomic(db: Db, c: RetryCall, now: int)
    requires Exec(db, DeleteOf(c), now).Ok?
    ensures c.id in Matched(db, DeleteOf(c), now)
            ==> AtomicRetry(db, c, now) == (Exec(db, DeleteOf(c), now).value, Ok(1))
    ensures c.id !in Matched(db, DeleteOf(c), now) ==> Exec(db, DeleteOf(c), now) == Ok(db)
    ensures c.id !in Matched(db, DeleteOf(c), now) ==> !Guarded(db, c, now) || !OutOfAttempts(db, c.id)
  {
    if c.id !in Matched(db, DeleteOf(c), now) {
      assert Matched(db, DeleteOf(c), now) == {};
      var after := Exec(db, DeleteOf(c), now).value;
      assert after.live == db.live && after.dead == db.dead;
    }
  }

  /**
   Linearizability of retry, fenced or not: under every interleaving with other
   operations, a call that reports a result had exactly the effect and the
   result of one atomic retry at the instant of one of its own statements, and
   a call that reports an error changed nothing.
   */
  lemma RetryIsLinearizable(db: Db, from: int, c: RetryCall, s: Schedule)
    requires Sound(db, from) && WellTimed(from, s)
    ensures var t := Traced(db, c, s);
            && (t.result.Ok? ==> exists k :: LinearizedAt(t, c, k))
            && (t.result.Err? ==> forall j :: 0 <= j < |t.statements| ==> t.statements[j].post == t.statements[j].pre)
  {
    var t := Traced(db, c, s);
    UpdateIsAtomic(db, c, s.t1);
    if s.fault1 {
    } else if c.id in Matched(db, UpdateOf(c), s.t1) {
      assert LinearizedAt(t, c, 0);
    } else {
      LaterIsSound(db, from, s.t1);
      RunIsSound(db, s.t1, s.others1);
      var db2 := Run(db, s.others1);
      LaterIsSound(db2, End(s.t1, s.others1), s.t2);
      if s.fault2 {
      } else if !(Guarded(db2, c, s.t2) && OutOfAttempts(db2, c.id)) {
        if !Guarded(db, c, s.t1) {
          assert LinearizedAt(t, c, 0);
        } else {
          AttemptsGrow(db, s.t1, s.others1, c.id);
          assert LinearizedAt(t, c, 1);
        }
      } else {
        RunIsSound(db2, s.t2, s.others2);
        var db3 := Run(db2, s.others2);
        LaterIsSound(db3, End(s.t2, s.others2), s.t3);
        AttemptsGrow(db2, s.t2, s.others2, c.id);
        if Commits(db3, Stamp(s.t3, DeleteOf(c), s.fault3)) {
          DeleteIsAtomic(db3, c, s.t3);
          assert LinearizedAt(t, c, 2);
        }
      }
    }
  }
}
