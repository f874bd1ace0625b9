/**
 The queue operations on a connection whose commands may fail.

 Each operation that runs in a savepoint is given as the body it hands to
 `in_savepoint`, statement by statement. Its atomicity is then not built in but
 follows from what savepoints guarantee, also when SAVEPOINT, RELEASE or
 ROLLBACK fail, and every run on such a connection is a run of the model.
 */
module Atomicity {
  import opened Wrappers
  import opened Queue
  import opened Jobs
  import opened Runs
  import opened Savepoints
  import opened Stores

  /** The tables, and the row a DELETE ... RETURNING of the body handed back. */
  datatype Session = Session(db: Db, returned: Option<Row>)

  type Script = Body<Session>

  /** Statement `k` of the body: it fails if `k` is among the failing ones, or if it has no result. */
  function Stmt(fails: set<nat>, k: nat, f: Session -> Option<Session>, rest: Script): Script
  {
    Statement((s: Session) => if k in fails then None else f(s), rest)
  }

  // ----- the statements -----

  function PromoteStmt(queue: string, now: int): Session -> Option<Session>
  {
    (s: Session) => Some(s.(db := Promote(s.db, queue, now)))
  }

  function Selected(db: Db, exhausted: bool, queue: string, now: int, limit: int): (ids: set<int>)
    ensures ids <= db.live.Keys
  {
    if exhausted then ExhaustIds(db, queue, now, limit) else ExpireIds(db, queue, now, limit)
  }

  /** INSERT INTO _honker_dead SELECT ...: refused when an id is already there. */
  function Copied(db: Db, exhausted: bool, queue: string, now: int, limit: int): Option<Db>
  {
    var ids := Selected(db, exhausted, queue, now, limit);
    var error := if exhausted then "max attempts exceeded" else "expired";
    if ids !! db.dead.Keys then Some(db.(dead := db.dead + map i | i in ids :: Bury(db.live[i], error, now))) else None
  }

  function CopyStmt(exhausted: bool, queue: string, now: int, limit: int): Session -> Option<Session>
  {
    (s: Session) =>
      match Copied(s.db, exhausted, queue, now, limit)
      case None => None
      case Some(db) => Some(s.(db := db))
  }

  function DeleteStmt(exhausted: bool, queue: string, now: int, limit: int): Session -> Option<Session>
  {
    (s: Session) => Some(s.(db := Delete(s.db, Selected(s.db, exhausted, queue, now, limit))))
  }

  function TakeStmt(queue: string, worker: string, n: int, timeout: int, now: int): Session -> Option<Session>
  {
    (s: Session) => Some(s.(db := Take(s.db, ClaimIds(s.db, queue, n, now), worker, timeout, now)))
  }

  /** DELETE ... RETURNING the one row the operation's guard matches. */
  function ReturnStmt(ev: Event, id: int, now: int): Session -> Option<Session>
  {
    (s: Session) =>
      if id in Matched(s.db, ev, now) && id in s.db.live then Some(Session(Delete(s.db, {id}), Some(s.db.live[id])))
      else Some(s.(returned := None))
  }

  /** Insert the returned row into the dead table; without one there is nothing to do. */
  function BuryStmt(id: int, error: string, now: int): Session -> Option<Session>
  {
    (s: Session) =>
      match s.returned
      case None => Some(s)
      case Some(row) =>
        if id in s.db.dead then None
        else Some(s.(db := s.db.(dead := s.db.dead[id := Bury(row, error, now)])))
  }

  function InsertStmt(job: JobSpec, now: int): Session -> Option<Session>
  {
    (s: Session) => if job.maxAttempts < 1 then None else Some(s.(db := Insert(s.db, job, now)))
  }

  // ----- the bodies -----

  /** `move_to_dead`: copy, then delete what the same query selects. */
  function MoveScript(exhausted: bool, queue: string, now: int, limit: int, fails: set<nat>, k: nat,
                      rest: Script): Script
  {
    Stmt(fails, k, CopyStmt(exhausted, queue, now, limit),
         Stmt(fails, k + 1, DeleteStmt(exhausted, queue, now, limit), rest))
  }

  function InsertScript(jobs: seq<JobSpec>, now: int, fails: set<nat>, k: nat): Script
    decreases |jobs|
  {
    if jobs == [] then Done else Stmt(fails, k, InsertStmt(jobs[0], now), InsertScript(jobs[1..], now, fails, k + 1))
  }

  function BuryScript(ev: Event, id: int, error: string, now: int, fails: set<nat>): Script
  {
    Stmt(fails, 0, ReturnStmt(ev, id, now), Stmt(fails, 1, BuryStmt(id, error, now), Done))
  }

  /** The operations that run in a savepoint; the others are one statement. */
  predicate Scripted(ev: Event)
  {
    ev.Claim? || ev.Tick? || ev.RetryDelete? || ev.Fail? || ev.Sweep?
  }

  function ScriptOf(ev: Event, now: int, fails: set<nat>): Script
    requires Scripted(ev)
  {
    match ev
    case Claim(q, w, n, t) =>
      Stmt(fails, 0, PromoteStmt(q, now),
           MoveScript(false, q, now, CLAIM_HOUSEKEEPING_LIMIT, fails, 1,
                      MoveScript(true, q, now, CLAIM_HOUSEKEEPING_LIMIT, fails, 3,
                                 Stmt(fails, 5, TakeStmt(q, w, n, t, now), Done))))
    case Tick(jobs) => InsertScript(jobs, now, fails, 0)
    case RetryDelete(id, _, error, _) => BuryScript(ev, id, error, now, fails)
    case Fail(id, _, error, _) => BuryScript(ev, id, error, now, fails)
    case Sweep(q) => MoveScript(false, q, now, -1, fails, 0, Done)
  }

  // ----- what a completed body has done -----

  /** Copy and delete together are `MoveToDead`: the delete selects the rows that were copied. */
  lemma MoveScriptMoves(exhausted: bool, queue: string, now: int, limit: int, fails: set<nat>, k: nat, rest: Script,
                        s: Session, s': Session)
    requires Leaves(MoveScript(exhausted, queue, now, limit, fails, k, rest), s, s')
    ensures var m := if exhausted then Exhaust(s.db, queue, now, limit) else Expire(s.db, queue, now, limit);
            m.Ok? && Leaves(rest, s.(db := m.value), s')
  {
    var copied := Copied(s.db, exhausted, queue, now, limit).value;
    var ids := Selected(s.db, exhausted, queue, now, limit);
    assert Selected(copied, exhausted, queue, now, limit) == ids;
    var m := if exhausted then Exhaust(s.db, queue, now, limit) else Expire(s.db, queue, now, limit);
    assert m == Ok(Delete(copied, ids));
  }

  lemma {:induction false} InsertScriptInserts(jobs: seq<JobSpec>, now: int, fails: set<nat>, k: nat, s: Session,
                                               s': Session)
    requires Leaves(InsertScript(jobs, now, fails, k), s, s')
    ensures InsertAll(s.db, jobs, now) == Ok(s'.db)
    decreases |jobs|
  {
    if jobs == [] {
    } else {
      InsertScriptInserts(jobs[1..], now, fails, k + 1, s.(db := Insert(s.db, jobs[0], now)), s');
    }
  }

  /** The body ran its two statements one after the other. */
  lemma BuryScriptSteps(ev: Event, id: int, error: string, now: int, fails: set<nat>, s: Session, s': Session)
    requires Leaves(BuryScript(ev, id, error, now, fails), s, s')
    ensures ReturnStmt(ev, id, now)(s).Some? && BuryStmt(id, error, now)(ReturnStmt(ev, id, now)(s).value) == Some(s')
  {
    assert Leaves(Stmt(fails, 1, BuryStmt(id, error, now), Done), ReturnStmt(ev, id, now)(s).value, s');
  }

  lemma BuryScriptBuries(ev: Event, id: int, error: string, now: int, fails: set<nat>, s: Session, s': Session)
    requires Matched(s.db, ev, now) == {} || Matched(s.db, ev, now) == {id}
    requires Matched(s.db, ev, now) <= s.db.live.Keys && s.db.live.Keys !! s.db.dead.Keys
    requires Leaves(BuryScript(ev, id, error, now, fails), s, s')
    ensures MoveToDead(s.db, Matched(s.db, ev, now), error, now) == Ok(s'.db)
  {
    BuryScriptSteps(ev, id, error, now, fails, s, s');
    if id in Matched(s.db, ev, now) {
      MoveOne(s.db, id, error, now);
    } else {
      MoveNone(s.db, error, now);
    }
  }

  /** A body that ran to its end did exactly what the model says the operation does. */
  lemma ScriptIsExec(ev: Event, now: int, fails: set<nat>, s: Session, s': Session)
    requires Scripted(ev) && s.db.live.Keys !! s.db.dead.Keys
    requires Leaves(ScriptOf(ev, now, fails), s, s')
    ensures Exec(s.db, ev, now) == Ok(s'.db)
  {
    match ev
    case Claim(q, w, n, t) => ClaimScriptIsExec(q, w, n, t, now, fails, s, s');
    case Tick(jobs) => InsertScriptInserts(jobs, now, fails, 0, s, s');
    case RetryDelete(id, _, error, _) => BuryScriptBuries(ev, id, error, now, fails, s, s');
    case Fail(id, _, error, _) => BuryScriptBuries(ev, id, error, now, fails, s, s');
    case Sweep(q) => MoveScriptMoves(false, q, now, -1, fails, 0, Done, s, s');
  }

  lemma ClaimScriptIsExec(q: string, w: string, n: int, t: int, now: int, fails: set<nat>, s: Session, s': Session)
    requires Leaves(ScriptOf(Claim(q, w, n, t), now, fails), s, s')
    ensures Exec(s.db, Claim(q, w, n, t), now) == Ok(s'.db)
  {
    var k := CLAIM_HOUSEKEEPING_LIMIT;
    var last := Stmt(fails, 5, TakeStmt(q, w, n, t, now), Done);
    var p := s.(db := Promote(s.db, q, now));
    MoveScriptMoves(false, q, now, k, fails, 1, MoveScript(true, q, now, k, fails, 3, last), p, s');
    var u := s.(db := Expire(p.db, q, now, k).value);
    MoveScriptMoves(true, q, now, k, fails, 3, last, u, s');
  }

  // ----- a body whose statements all work runs to its end -----

  lemma MoveRunsThrough(exhausted: bool, queue: string, now: int, limit: int, k: nat, rest: Script, s: Session)
    requires s.db.live.Keys !! s.db.dead.Keys
    ensures var m := if exhausted then Exhaust(s.db, queue, now, limit) else Expire(s.db, queue, now, limit);
            && m.Ok? && m.value.live.Keys !! m.value.dead.Keys
            && Ends(MoveScript(exhausted, queue, now, limit, {}, k, rest), s) == Ends(rest, s.(db := m.value))
  {
    var copied := Copied(s.db, exhausted, queue, now, limit).value;
    var ids := Selected(s.db, exhausted, queue, now, limit);
    assert Selected(copied, exhausted, queue, now, limit) == ids;
    var m := if exhausted then Exhaust(s.db, queue, now, limit) else Expire(s.db, queue, now, limit);
    assert m == Ok(Delete(copied, ids));
  }

  lemma ClaimRunsThrough(q: string, w: string, n: int, t: int, now: int, s: Session)
    requires s.db.live.Keys !! s.db.dead.Keys
    ensures Ends(ScriptOf(Claim(q, w, n, t), now, {}), s).0.Fine?
  {
    var k := CLAIM_HOUSEKEEPING_LIMIT;
    var last := Stmt({}, 5, TakeStmt(q, w, n, t, now), Done);
    var p := s.(db := Promote(s.db, q, now));
    PromoteLook(s.db, q, now, 0);
    MoveRunsThrough(false, q, now, k, 1, MoveScript(true, q, now, k, {}, 3, last), p);
    MoveRunsThrough(true, q, now, k, 3, last, s.(db := Expire(p.db, q, now, k).value));
  }

  lemma {:induction false} InsertsRunThrough(jobs: seq<JobSpec>, now: int, k: nat, s: Session)
    requires InsertAll(s.db, jobs, now).Ok?
    ensures Ends(InsertScript(jobs, now, {}, k), s).0.Fine?
    decreases |jobs|
  {
    if jobs == [] {
    } else {
      InsertsRunThrough(jobs[1..], now, k + 1, s.(db := Insert(s.db, jobs[0], now)));
    }
  }

  lemma BuryRunsThrough(ev: Event, id: int, error: string, now: int, s: Session)
    requires s.db.live.Keys !! s.db.dead.Keys
    ensures Ends(BuryScript(ev, id, error, now, {}), s).0.Fine?
  {
    var returned := ReturnStmt(ev, id, now)(s).value;
    assert BuryStmt(id, error, now)(returned).Some?;
  }

  /** If no statement fails, the body runs to its end unless the operation is itself an error. */
  lemma ScriptRunsThrough(ev: Event, now: int, s: Session)
    requires Scripted(ev) && s.db.live.Keys !! s.db.dead.Keys && Exec(s.db, ev, now).Ok?
    ensures Ends(ScriptOf(ev, now, {}), s).0.Fine?
  {
    match ev
    case Claim(q, w, n, t) => ClaimRunsThrough(q, w, n, t, now, s);
    case Tick(jobs) => InsertsRunThrough(jobs, now, 0, s);
    case RetryDelete(id, _, error, _) => BuryRunsThrough(ev, id, error, now, s);
    case Fail(id, _, error, _) => BuryRunsThrough(ev, id, error, now, s);
    case Sweep(q) => MoveRunsThrough(false, q, now, -1, 0, Done, s);
  }

  lemma {:induction false} InsertScriptIsPlain(jobs: seq<JobSpec>, now: int, fails: set<nat>, k: nat)
    ensures !Catches(InsertScript(jobs, now, fails, k)) && !MayAbort(InsertScript(jobs, now, fails, k))
    decreases |jobs|
  {
    if jobs == [] {
    } else {
      InsertScriptIsPlain(jobs[1..], now, fails, k + 1);
    }
  }

  lemma ScriptIsPlain(ev: Event, now: int, fails: set<nat>)
    requires Scripted(ev)
    ensures !Catches(ScriptOf(ev, now, fails)) && !MayAbort(ScriptOf(ev, now, fails))
  {
    if ev.Tick? {
      InsertScriptIsPlain(ev.jobs, now, fails, 0);
    }
  }

  // ----- on a connection -----

  /** An operation, its clock reading, and which statements of its body fail. */
  datatype Call = Call(ev: Event, now: int, fails: set<nat>)

  /** A statement on its own, as a bare operation executes it. */
  function Bare(c: Call): Session -> Option<Session>
  {
    (s: Session) =>
      if 0 in c.fails then None
      else match Exec(s.db, c.ev, c.now)
        case Err => None
        case Ok(db) => Some(s.(db := db))
  }

  /**
   One operation on the connection, whatever its commands do. Unless an undo
   failure is reported, it had its whole effect or none; only if the engine
   itself ended a transaction the caller had open are the caller's own earlier
   writes gone with it. When nothing fails, only the operation's own error does.
   */
  method Perform(conn: Connection<Session>, c: Call) returns (fault: bool)
    requires conn.Valid() && conn.tables.db.live.Keys !! conn.tables.db.dead.Keys
    modifies conn
    ensures conn.Valid() && (old(conn.unknown) ==> conn.unknown)
    ensures !conn.unknown && (old(conn.autocommit) || conn.aborts == old(conn.aborts)) ==>
      && conn.tables.db == Apply(old(conn.tables.db), Stamp(c.now, c.ev, fault))
      && conn.stack == old(conn.stack) && conn.autocommit == old(conn.autocommit)
    ensures !conn.unknown && !old(conn.autocommit) && conn.aborts != old(conn.aborts) ==>
      fault && conn.RolledBack(old(conn.base))
    ensures conn.Reliable() && !old(conn.unknown) && c.fails == {} ==>
      && !conn.unknown && conn.aborts == old(conn.aborts)
      && (fault <==> Exec(old(conn.tables.db), c.ev, c.now).Err?)
  {
    ghost var before := conn.tables;
    if Scripted(c.ev) {
      ScriptIsPlain(c.ev, c.now, c.fails);
      var o := conn.InSavepoint("honker", ScriptOf(c.ev, c.now, c.fails));
      fault := !o.Fine?;
      if o.Fine? && !conn.unknown && conn.aborts == old(conn.aborts) {
        ScriptIsExec(c.ev, c.now, c.fails, before, conn.tables);
      } else if c.fails == {} && Exec(before.db, c.ev, c.now).Ok? {
        ScriptRunsThrough(c.ev, c.now, before);
      }
    } else {
      var ok := conn.Execute(Bare(c));
      fault := !ok;
    }
  }

  /** The run of the model the calls make, given which of them failed. */
  function StampsOf(calls: seq<Call>, faults: seq<bool>): (run: seq<Stamp>)
    requires |faults| == |calls|
    ensures |run| == |calls|
  {
    seq(|calls|, i requires 0 <= i < |calls| => Stamp(calls[i].now, calls[i].ev, faults[i]))
  }

  predicate ClockedCalls(from: int, calls: seq<Call>)
    decreases |calls|
  {
    calls == [] || (from <= calls[0].now && ClockedCalls(calls[0].now, calls[1..]))
  }

  lemma {:induction false} StampsAreClocked(from: int, calls: seq<Call>, faults: seq<bool>)
    requires |faults| == |calls| && ClockedCalls(from, calls)
    ensures Clocked(from, StampsOf(calls, faults))
    decreases |calls|
  {
    if calls == [] {
    } else {
      StampsAreClocked(calls[0].now, calls[1..], faults[1..]);
      assert StampsOf(calls, faults)[1..] == StampsOf(calls[1..], faults[1..]);
    }
  }

  lemma {:induction false} ClockedPrefix(from: int, calls: seq<Call>, i: nat)
    requires ClockedCalls(from, calls) && i <= |calls|
    ensures ClockedCalls(from, calls[..i])
    decreases i
  {
    if i == 0 {
    } else {
      ClockedPrefix(calls[0].now, calls[1..], i - 1);
      assert calls[..i][1..] == calls[1..][..i - 1];
    }
  }

  /** After any such run the tables are sound, so the next operation may start. */
  lemma PrefixIsSound(db: Db, from: int, calls: seq<Call>, i: nat, faults: seq<bool>)
    requires Sound(db, from) && ClockedCalls(from, calls) && i <= |calls| && |faults| == i
    ensures Sound(Run(db, StampsOf(calls[..i], faults)), End(from, StampsOf(calls[..i], faults)))
  {
    ClockedPrefix(from, calls, i);
    StampsAreClocked(from, calls[..i], faults);
    RunIsSound(db, from, StampsOf(calls[..i], faults));
  }

  lemma RunStep(db: Db, calls: seq<Call>, i: nat, faults: seq<bool>, fault: bool)
    requires i < |calls| && |faults| == i
    ensures Run(db, StampsOf(calls[..i + 1], faults + [fault]))
            == Apply(Run(db, StampsOf(calls[..i], faults)), Stamp(calls[i].now, calls[i].ev, fault))
  {
    var last := Stamp(calls[i].now, calls[i].ev, fault);
    assert StampsOf(calls[..i + 1], faults + [fault]) == StampsOf(calls[..i], faults) + [last];
    RunConcat(db, 0, StampsOf(calls[..i], faults), [last]);
  }

  /**
   A whole run on a connection in autocommit mode: whichever statements and
   whichever SAVEPOINT, RELEASE and ROLLBACK commands fail or abort, unless an
   undo failure is reported the tables are those of a run of the model in which
   each call either happened or faulted. So conservation, fencing and lease
   safety hold of it.
   */
  method PerformAll(conn: Connection<Session>, calls: seq<Call>, ghost from: int) returns (faults: seq<bool>)
    requires conn.Valid() && conn.autocommit && !conn.unknown
    requires Sound(conn.tables.db, from) && ClockedCalls(from, calls)
    modifies conn
    ensures conn.Valid()
    ensures !conn.unknown ==>
      && conn.autocommit && |faults| == |calls|
      && Clocked(from, StampsOf(calls, faults))
      && conn.tables.db == Run(old(conn.tables.db), StampsOf(calls, faults))
  {
    faults := [];
    for i := 0 to |calls|
      invariant conn.Valid() && conn.autocommit && !conn.unknown && |faults| == i
      invariant conn.tables.db == Run(old(conn.tables.db), StampsOf(calls[..i], faults))
    {
      PrefixIsSound(old(conn.tables.db), from, calls, i, faults);
      var fault := Perform(conn, calls[i]);
      if conn.unknown {
        return;
      }
      RunStep(old(conn.tables.db), calls, i, faults, fault);
      faults := faults + [fault];
    }
    assert calls[..|calls|] == calls;
    StampsAreClocked(from, calls, faults);
  }
}
