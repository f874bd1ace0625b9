/**
 The one-time migration of a database written before the `scheduled` state,
 raced by any number of bootstrapping processes, with the new build's own
 operations running as soon as one of them has returned.
 */
module Migration {
  import opened Wrappers
  import opened Queue
  import opened Jobs
  import opened Runs
  import opened Savepoints

  /** What an older build leaves: future and exhausted rows may be pending, and no row is both live and dead. */
  ghost predicate Legacy(db: Db)
  {
    && 1 <= db.nextId && db.live.Keys !! db.dead.Keys
    && (forall i :: i in db.dead ==> 1 <= i < db.nextId)
    && forall i :: i in db.live ==> 1 <= i < db.nextId && LegacyRow(db.live[i])
  }

  predicate LegacyRow(r: Row)
  {
    if r.state == Processing then r.worker.Some? && r.lease.Some? && 1 <= r.attempts <= r.maxAttempts
    else r.worker.None? && r.lease.None? && r.claimedAt.None? && 0 <= r.attempts
  }

  function Rescheduled(r: Row, now: int): Row
  {
    if r.state == Pending && r.runAt > now then r.(state := Scheduled) else r
  }

  function Reschedule(db: Db, now: int): Db
  {
    db.(live := map i | i in db.live :: Rescheduled(db.live[i], now))
  }

  predicate Spent(r: Row)
  {
    r.state != Processing && r.attempts >= r.maxAttempts
  }

  function SpentIds(db: Db): (ids: set<int>)
    ensures ids <= db.live.Keys
  {
    set i | i in db.live && Spent(db.live[i])
  }

  /** The migration's three table statements. */
  function Migrate(db: Db, now: int): Result<Db>
  {
    var r := Reschedule(db, now);
    MoveToDead(r, SpentIds(r), "max attempts exceeded", now)
  }

  /**
   Each legacy row is buried if it was waiting with no attempts left, and
   otherwise kept, rescheduled if in the future.
   */
  ghost predicate RowMigrated(r: Row, m: Db, i: int, now: int)
  {
    if (r.state == Pending || r.state == Scheduled) && r.attempts >= r.maxAttempts then
      && i !in m.live && i in m.dead
      && m.dead[i] == DeadRow(r.queue, r.payload, r.priority, r.runAt, r.maxAttempts, r.attempts,
                              "max attempts exceeded", r.createdAt, now)
    else
      && i in m.live
      && m.live[i] == if r.state == Pending && r.runAt > now then r.(state := Scheduled) else r
  }

  lemma MigrateLook(db: Db, now: int, i: int)
    requires db.live.Keys !! db.dead.Keys
    ensures Migrate(db, now).Ok?
    ensures var m := Migrate(db, now).value;
            && m.nextId == db.nextId && m.live.Keys !! m.dead.Keys
            && m.live.Keys + m.dead.Keys == db.live.Keys + db.dead.Keys
            && (i in db.live ==> RowMigrated(db.live[i], m, i, now))
            && (i in db.dead ==> i in m.dead && m.dead[i] == db.dead[i])
            && (i in m.live ==> i in db.live)
  {
  }

  /**
   The migration succeeds on any legacy database, leaves processing rows
   untouched, loses or duplicates no id, buries exactly the exhausted waiting
   rows, leaves no future pending row, and its result is sound for the queue.
   */
  lemma MigrationIsSound(db: Db, now: int)
    requires Legacy(db)
    ensures Migrate(db, now).Ok?
    ensures var m := Migrate(db, now).value;
            && Sound(m, now) && m.nextId == db.nextId
            && m.live.Keys + m.dead.Keys == db.live.Keys + db.dead.Keys
            && (forall i :: i in db.dead ==> i in m.dead && m.dead[i] == db.dead[i])
            && (forall i :: i in db.live ==> RowMigrated(db.live[i], m, i, now))
            && (forall i :: i in db.live && db.live[i].state == Processing ==> i in m.live && m.live[i] == db.live[i])
            && (forall i :: i in m.live && m.live[i].state != Processing ==> m.live[i].attempts < m.live[i].maxAttempts)
            && (forall i :: i in m.live && m.live[i].state == Pending ==> m.live[i].runAt <= now)
  {
    MigrateLook(db, now, 0);
    var m := Migrate(db, now).value;
    forall i
      ensures i in db.live ==> RowMigrated(db.live[i], m, i, now)
      ensures i in db.dead ==> i in m.dead && m.dead[i] == db.dead[i]
      ensures i in m.live ==> i in db.live && Shaped(m.live[i], now)
    {
      MigrateLook(db, now, i);
    }
    assert forall i :: i in m.dead ==> i in m.live.Keys + m.dead.Keys;
  }

  // ----- the race -----

  /** Where a process is in `migrate_claim_v2`; `saw` records that its first check found the marker. */
  datatype Progress = Starting | Saw | Returned(ok: bool, saw: bool)

  datatype World = World(db: Db, marker: bool, clock: int, commits: nat, procs: map<nat, Progress>)

  datatype Event =
    | Arrive(p: nat)
    | Check(p: nat, checkFails: bool)
    | Enter(p: nat, now: int, fault: bool)
    | Work(s: Stamp)

  /** The savepoint body under the write lock: check the marker again, and migrate only if it is still there. */
  function Step(w: World, ev: Event): World
  {
    match ev
    case Arrive(p) => if p in w.procs then w else w.(procs := w.procs[p := Starting])
    case Check(p, fails) =>
      if p in w.procs && w.procs[p].Starting? then
        w.(procs := w.procs[p := if fails then Returned(false, false)
                                 else if w.marker then Saw
                                 else Returned(true, false)])
      else w
    case Enter(p, now, fault) =>
      if !(p in w.procs && w.procs[p].Saw?) then w
      else if fault then w.(procs := w.procs[p := Returned(false, true)])
      else if !w.marker then w.(procs := w.procs[p := Returned(true, true)])
      else (match Migrate(w.db, now)
            case Err => w.(procs := w.procs[p := Returned(false, true)])
            case Ok(m) => World(m, false, now, w.commits + 1, w.procs[p := Returned(true, true)]))
    case Work(s) =>
      if SomeoneReady(w) then w.(db := Apply(w.db, s), clock := s.now) else w
  }

  /** Only a process whose bootstrap returned success runs queue operations. */
  predicate SomeoneReady(w: World)
  {
    exists p :: p in w.procs && w.procs[p].Returned? && w.procs[p].ok
  }

  function Now(ev: Event, clock: int): int
  {
    match ev
    case Enter(_, now, _) => now
    case Work(s) => s.now
    case _ => clock
  }

  function RunAll(w: World, events: seq<Event>): World
    decreases |events|
  {
    if events == [] then w else RunAll(Step(w, events[0]), events[1..])
  }

  /** Along the events, time does not go back. */
  ghost predicate Timed(w: World, events: seq<Event>)
    decreases |events|
  {
    events == [] || (w.clock <= Now(events[0], w.clock) && Timed(Step(w, events[0]), events[1..]))
  }

  /**
   While the marker stands nothing has happened; once it is gone the migration
   has committed exactly once and the tables are sound; and no bootstrap has
   returned success with the marker still there.
   */
  ghost predicate Safe(w: World, db0: Db)
  {
    && w.commits == (if w.marker then 0 else 1)
    && (w.marker ==> w.db == db0)
    && (!w.marker ==> Sound(w.db, w.clock))
    && (w.marker ==> !SomeoneReady(w))
  }

  lemma StepIsSafe(w: World, ev: Event, db0: Db)
    requires Legacy(db0) && Safe(w, db0) && w.clock <= Now(ev, w.clock)
    ensures Safe(Step(w, ev), db0)
  {
    match ev
    case Arrive(p) =>
      assert SomeoneReady(Step(w, ev)) ==> SomeoneReady(w);
    case Check(p, fails) =>
    case Enter(p, now, fault) =>
      MigrationIsSound(db0, now);
      if !w.marker {
        LaterIsSound(w.db, w.clock, now);
      }
    case Work(s) =>
      if SomeoneReady(w) {
        StepOf(w.db, w.clock, s, 0);
      }
  }

  /**
   What each step does for its process. The first that finds the marker under
   the write lock migrates the tables as they are then, and returns success; one
   that finds it gone, before or under the lock, returns success and changes
   nothing; a fault returns an error and changes nothing.
   */
  lemma EachProcess(w: World, ev: Event, p: nat)
    requires p in w.procs && Legacy(w.db)
    ensures p in Step(w, ev).procs
    ensures var v := Step(w, ev);
            match ev
            case Check(q, fails) =>
              && v == w.(procs := v.procs)
              && (p == q && w.procs[p].Starting? ==>
                    v.procs[p] == if fails then Returned(false, false) else if w.marker then Saw
                      else Returned(true, false))
            case Enter(q, now, fault) =>
              if p == q && w.procs[p].Saw? then
                && v.procs[p] == Returned(!fault, true)
                && (if !fault && w.marker then
                      !v.marker && v.commits == w.commits + 1 && Migrate(w.db, now) == Ok(v.db)
                    else v == w.(procs := v.procs))
              else p != q ==> v.procs[p] == w.procs[p]
            case _ => v.procs[p] == w.procs[p] && v.marker == w.marker && v.commits == w.commits
  {
    if ev.Enter? {
      MigrationIsSound(w.db, ev.now);
    }
  }

  /**
   The race is safe for any number of processes in any interleaving: the
   migration commits at most once, it has committed before any bootstrap
   returns success, and every operation after it runs on sound tables.
   */
  lemma {:induction false} RaceIsSafe(w: World, events: seq<Event>, db0: Db)
    requires Legacy(db0) && Safe(w, db0) && Timed(w, events)
    ensures var after := RunAll(w, events);
            && Safe(after, db0)
            && after.commits <= 1
            && (forall p :: p in after.procs && after.procs[p].Returned? && after.procs[p].ok ==>
                  after.commits == 1 && !after.marker)
    decreases |events|
  {
    if events == [] {
    } else {
      StepIsSafe(w, events[0], db0);
      RaceIsSafe(Step(w, events[0]), events[1..], db0);
    }
  }

  /** In particular from the moment the first process of the new build arrives. */
  lemma RaceFromStart(db0: Db, clock: int, events: seq<Event>)
    requires Legacy(db0) && Timed(World(db0, true, clock, 0, map[]), events)
    ensures var after := RunAll(World(db0, true, clock, 0, map[]), events);
            && after.commits <= 1
            && (SomeoneReady(after) ==> after.commits == 1 && !after.marker && Sound(after.db, after.clock))
            && (after.marker ==> after.db == db0)
  {
    RaceIsSafe(World(db0, true, clock, 0, map[]), events, db0);
  }

  // ----- the procedure -----

  /** The tables with the marker: whether the _honker_live_claim index exists. */
  datatype Marked = Marked(db: Db, marker: bool)

  /** Statement `k`, which touches nothing. */
  function Probe(fails: set<nat>, k: nat, rest: Body<Marked>): Body<Marked>
  {
    Statement((s: Marked) => if k in fails then None else Some(s), rest)
  }

  /** Statement `k` of the batch, which runs only if the second check found the marker. */
  function Batched(fails: set<nat>, k: nat, f: Db -> Option<Db>, rest: Body<Marked>): Body<Marked>
  {
    Statement(
      (s: Marked) =>
        if !s.marker then Some(s)
        else if k in fails || f(s.db).None? then None
        else Some(s.(db := f(s.db).value)), rest)
  }

  function CopySpent(db: Db, now: int): Option<Db>
  {
    var spent := SpentIds(db);
    if spent !! db.dead.Keys then
      Some(db.(dead := db.dead + map i | i in spent :: Bury(db.live[i], "max attempts exceeded", now)))
    else None
  }

  /**
   The body of the migration's savepoint: take the write lock, check again,
   and run the batch, whose last part drops the marker.
   */
  function MigrationBody(now: int, fails: set<nat>): Body<Marked>
  {
    Probe(fails, 1, Probe(fails, 2,
      Batched(fails, 3, (db: Db) => Some(Reschedule(db, now)),
        Batched(fails, 4, (db: Db) => CopySpent(db, now),
          Batched(fails, 5, (db: Db) => Some(Delete(db, SpentIds(db))), DropMarker(fails, 6))))))
  }

  /** The two DROP INDEX statements; with the first the marker is gone. */
  function DropMarker(fails: set<nat>, k: nat): Body<Marked>
  {
    Statement((s: Marked) => if !s.marker then Some(s) else if k in fails then None else Some(s.(marker := false)),
              Done)
  }

  /** Copying and deleting the spent rows is moving them. */
  lemma CopyThenDelete(db: Db, now: int)
    requires CopySpent(db, now).Some?
    ensures MoveToDead(db, SpentIds(db), "max attempts exceeded", now)
            == Ok(Delete(CopySpent(db, now).value, SpentIds(CopySpent(db, now).value)))
  {
    assert SpentIds(CopySpent(db, now).value) == SpentIds(db);
  }

  lemma CompletedBody(now: int, fails: set<nat>, s: Marked, s': Marked)
    requires Leaves(MigrationBody(now, fails), s, s')
    ensures if s.marker then Migrate(s.db, now) == Ok(s'.db) && !s'.marker else s' == s
  {
    if s.marker {
      CopyThenDelete(Reschedule(s.db, now), now);
    }
  }

  lemma BodyCompletes(now: int, s: Marked)
    requires Legacy(s.db)
    ensures Ends(MigrationBody(now, {}), s).0.Fine?
  {
    var r := Reschedule(s.db, now);
    assert CopySpent(r, now).Some?;
  }

  /**
   `migrate_claim_v2` on a connection whose every command may fail: the whole
   migration or nothing, unless an undo failure is reported. Only if the engine
   ended a transaction the caller had open are the caller's own writes gone too.
   */
  method MigrateClaimV2(conn: Connection<Marked>, now: int, fails: set<nat>) returns (ok: bool)
    requires conn.Valid()
    modifies conn
    ensures conn.Valid() && (old(conn.unknown) ==> conn.unknown)
    ensures !conn.unknown && (old(conn.autocommit) || conn.aborts == old(conn.aborts)) ==>
      && conn.stack == old(conn.stack) && conn.autocommit == old(conn.autocommit)
      && (ok && old(conn.tables.marker) ==>
            Migrate(old(conn.tables.db), now) == Ok(conn.tables.db) && !conn.tables.marker)
      && (!ok || !old(conn.tables.marker) ==> conn.tables == old(conn.tables))
    ensures !conn.unknown && !old(conn.autocommit) && conn.aborts != old(conn.aborts) ==>
      !ok && conn.RolledBack(old(conn.base))
    ensures conn.Reliable() && !old(conn.unknown) && fails == {} && Legacy(old(conn.tables.db)) ==> ok && !conn.unknown
  {
    ghost var before := conn.tables;
    ok := conn.Execute((s: Marked) => if 0 in fails then None else Some(s));
    if !ok || !conn.tables.marker {
      return;
    }
    var o := conn.InSavepoint("honker_bootstrap", MigrationBody(now, fails));
    ok := o.Fine?;
    if ok && !conn.unknown && conn.aborts == old(conn.aborts) {
      CompletedBody(now, fails, before, conn.tables);
    } else if fails == {} && Legacy(before.db) {
      BodyCompletes(now, before);
    }
  }
}
