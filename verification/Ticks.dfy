/**
 `scheduler_tick`: one savepoint that fires every due task in name order and
 moves its `next_fire_at`, or changes nothing.
 */
module Ticks {
  import opened Wrappers
  import opened Queue
  import opened Jobs
  import opened Scheduler
  import opened Stores
  import opened Cron
  import opened Zones

  datatype Task = Task(
    queue: string, cronExpr: string, payload: string, priority: int,
    expires: Option<int>, nextFireAt: int, enabled: bool, maxAttempts: int)

  /** One element of the tick's answer. */
  datatype Fire = Fire(name: string, queue: string, fireAt: int, jobId: int)

  /** The job a fire enqueues: claimable at once, with its task's budget and expiry. */
  function SpecOf(t: Task): JobSpec
  {
    JobSpec(t.queue, t.payload, None, None, t.priority, t.maxAttempts, t.expires)
  }

  predicate Due(t: Task, tick: int)
  {
    t.enabled && t.nextFireAt <= tick
  }

  /**
   The statements of a tick that fail: the select of the due tasks, inserts
   by position, updates by task, the release.
   */
  datatype Faults = Faults(select: bool, inserts: set<nat>, updates: set<string>, release: bool)

  const NO_FAULTS := Faults(false, {}, {}, false)

  /** The calculator of each expression. */
  type Clock = string -> Next

  function FiresOf(fires: seq<Fire>, name: string): seq<int>
  {
    if fires == [] then []
    else if fires[|fires| - 1].name == name then FiresOf(fires[..|fires| - 1], name) + [fires[|fires| - 1].fireAt]
    else FiresOf(fires[..|fires| - 1], name)
  }

  function Specs(fires: seq<Fire>, tasks: map<string, Task>): seq<JobSpec>
    requires forall i :: 0 <= i < |fires| ==> fires[i].name in tasks
  {
    seq(|fires|, i requires 0 <= i < |fires| => SpecOf(tasks[fires[i].name]))
  }

  /** A due task fired exactly its boundaries and moved on; any other task is as before. */
  ghost predicate TaskTicked(clock: Clock, before: Task, after: Task, fires: seq<int>, tick: int)
  {
    if before.enabled && before.nextFireAt <= tick then
      && TickTask(clock(before.cronExpr), before.nextFireAt, tick) == Ok(Fired(fires, after.nextFireAt))
      && after == before.(nextFireAt := after.nextFireAt)
    else after == before && fires == []
  }

  /** The tick can go through: every due task has a budget and a computable next fire. */
  ghost predicate Tickable(tasks: map<string, Task>, clock: Clock, tick: int)
  {
    forall name :: name in tasks && tasks[name].enabled && tasks[name].nextFireAt <= tick ==>
      && tasks[name].maxAttempts >= 1
      && TickTask(clock(tasks[name].cronExpr), tasks[name].nextFireAt, tick).Ok?
  }

  /** A successful tick. */
  ghost predicate Ticked(
    clock: Clock, tick: int, now: int, before: map<string, Task>, after: map<string, Task>,
    db0: Db, db: Db, fires: seq<Fire>)
  {
    && after.Keys == before.Keys
    && (forall name :: name in before ==> TaskTicked(clock, before[name], after[name], FiresOf(fires, name), tick))
    && (forall i, j :: 0 <= i < j < |fires| ==>
          fires[i].name == fires[j].name || NameLess(fires[i].name, fires[j].name))
    && Enqueued(now, before, db0, db, fires)
  }

  /** Each fire enqueued one job of its task, under consecutive ids, and nothing else touched the job tables. */
  ghost predicate Enqueued(now: int, tasks: map<string, Task>, db0: Db, db: Db, fires: seq<Fire>)
  {
    && (forall i :: 0 <= i < |fires| ==>
          fires[i].name in tasks && fires[i].queue == tasks[fires[i].name].queue && fires[i].jobId == db0.nextId + i)
    && Exec(db0, Event.Tick(Specs(fires, tasks)), now) == Ok(db)
  }

  // ----- task names in order -----

  predicate NameLess(a: string, b: string)
  {
    b != [] && (a == [] || a[0] < b[0] || (a[0] == b[0] && NameLess(a[1..], b[1..])))
  }

  lemma {:induction false} NamesAreTotal(a: string, b: string)
    ensures a == b || NameLess(a, b) || NameLess(b, a)
    decreases |a|
  {
    if a != [] && b != [] && a[0] == b[0] {
      NamesAreTotal(a[1..], b[1..]);
      assert a == [a[0]] + a[1..] && b == [b[0]] + b[1..];
    }
  }

  lemma {:induction false} NamesAreTransitive(a: string, b: string, c: string)
    requires NameLess(a, b) && NameLess(b, c)
    ensures NameLess(a, c)
    decreases |a|
  {
    if a != [] && a[0] == b[0] == c[0] {
      NamesAreTransitive(a[1..], b[1..], c[1..]);
    }
  }

  /** The order of the code points: at the first place they differ, or one is the start of the other. */
  lemma {:induction false} NameLessIff(a: string, b: string)
    ensures NameLess(a, b) <==>
      || (|a| < |b| && a == b[..|a|])
      || exists k :: 0 <= k < |a| && k < |b| && a[..k] == b[..k] && a[k] < b[k]
    decreases |a|
  {
    if a == [] || b == [] {
    } else {
      NameLessIff(a[1..], b[1..]);
      SharedPrefix(a, b);
      if a[0] == b[0] {
        LaterDifference(a, b);
      } else if a[0] < b[0] {
        assert a[..0] == b[..0];
      }
    }
  }

  lemma SharedPrefix(a: string, b: string)
    requires a != [] && b != []
    ensures |a| <= |b| ==> (a == b[..|a|] <==> a[0] == b[0] && a[1..] == b[1..][..|a| - 1])
  {
    if |a| <= |b| {
      assert a == [a[0]] + a[1..] && b[..|a|] == [b[0]] + b[1..][..|a| - 1];
    }
  }

  lemma LaterDifference(a: string, b: string)
    requires a != [] && b != [] && a[0] == b[0]
    ensures (exists k :: 0 <= k < |a| && k < |b| && a[..k] == b[..k] && a[k] < b[k])
            <==> exists k :: 0 <= k < |a[1..]| && k < |b[1..]| && a[1..][..k] == b[1..][..k] && a[1..][k] < b[1..][k]
  {
    if k :| 0 <= k < |a| && k < |b| && a[..k] == b[..k] && a[k] < b[k] {
      assert a[1..][..k - 1] == a[..k][1..] && b[1..][..k - 1] == b[..k][1..];
      assert a[1..][k - 1] == a[k] && b[1..][k - 1] == b[k];
    }
    if k :| 0 <= k < |a[1..]| && k < |b[1..]| && a[1..][..k] == b[1..][..k] && a[1..][k] < b[1..][k] {
      assert a[..k + 1] == [a[0]] + a[1..][..k] && b[..k + 1] == [b[0]] + b[1..][..k];
      assert a[k + 1] == a[1..][k] && b[k + 1] == b[1..][k];
    }
  }

  predicate IsFirst(name: string, names: set<string>)
  {
    name in names && forall other :: other in names && other != name ==> NameLess(name, other)
  }

  lemma {:induction false} FirstExists(names: set<string>)
    requires names != {}
    ensures exists name :: IsFirst(name, names)
    decreases |names|
  {
    var a :| a in names;
    if names == {a} {
      assert IsFirst(a, names);
    } else {
      FirstExists(names - {a});
      var b :| IsFirst(b, names - {a});
      NamesAreTotal(a, b);
      var first := if NameLess(a, b) then a else b;
      forall other | other in names && other != first
        ensures NameLess(first, other)
      {
        if other != a && other != b && first == a {
          NamesAreTransitive(a, b, other);
        }
      }
      assert IsFirst(first, names);
    }
  }

  // ----- appending fires -----

  /** Put boundaries already fired in front of what the rest of the loop fires. */
  function After(fired: seq<int>, rest: Result<Fired>): Result<Fired>
  {
    match rest
    case Err => Err
    case Ok(f) => Ok(Fired(fired + f.fires, f.next))
  }

  class Ticker {
    const store: Store
    var tasks: map<string, Task>

    constructor (store: Store, tasks: map<string, Task>)
      ensures this.store == store && this.tasks == tasks
    {
      this.store, this.tasks := store, tasks;
    }

    /** The catch-up loop of one task: enqueue each missed boundary, up to the cap, then skip the rest. */
    method FireTask(name: string, task: Task, next: Next, tick: int, now: int, fires: seq<Fire>, fails: set<nat>)
      returns (r: Result<int>, out: seq<Fire>, ghost fired: seq<int>)
      requires Due(task, tick)
      modifies store
      ensures store.dead == old(store.dead)
      ensures r.Ok? ==>
        && TickTask(next, task.nextFireAt, tick) == Ok(Fired(fired, r.value))
        && task.maxAttempts >= 1
        && Appended(fires, out, name, task.queue, old(store.nextId))
        && FiresOf(out, name) == FiresOf(fires, name) + fired
        && (forall other :: other != name ==> FiresOf(out, other) == FiresOf(fires, other))
        && InsertAll(old(store.View()), seq(|out| - |fires|, _ => SpecOf(task)), now) == Ok(store.View())
      ensures r.Err? && fails == {} ==> task.maxAttempts < 1 || TickTask(next, task.nextFireAt, tick).Err?
    {
      out := fires;
      var at := task.nextFireAt;
      var done := 0;
      fired := [];
      AfterNone(TickTask(next, at, tick));
      while at <= tick
        invariant done == |fired|
        invariant Catching(next, name, task, tick, now, fires, out, fired, at, old(store.View()), store.View())
        decreases MAX_CATCHUP_FIRES - done
      {
        if done >= MAX_CATCHUP_FIRES {
          var skipped := next(tick);
          if skipped.Err? {
            return Err, out, fired;
          }
          assert fired + [] == fired;
          return Ok(skipped.value), out, fired;
        }
        if task.maxAttempts < 1 || |out| in fails {
          return Err, out, fired;
        }
        ghost var db := store.View();
        var id := store.InsertRow(SpecOf(task), now);
        var fire := Fire(name, task.queue, at, id);
        var after := next(at);
        if after.Err? {
          return Err, out + [fire], fired;
        }
        CatchingStep(next, name, task, tick, now, fires, out, fired, at, after.value, old(store.View()), db, fire);
        out := out + [fire];
        fired := fired + [at];
        done := done + 1;
        at := after.value;
      }
      assert fired + [] == fired;
      return Ok(at), out, fired;
    }

    /**
     The whole tick. On success every due task fired exactly the boundaries its
     catch-up gives, in name order, each fire enqueued one job at the same clock
     reading, and `next_fire_at` moved accordingly. On failure neither a job
     nor a `next_fire_at` changed.
     */
    method Tick(clock: Clock, tick: int, now: int, faults: Faults) returns (r: Result<seq<Fire>>)
      modifies this, store
      ensures r.Err? ==> tasks == old(tasks) && store.View() == old(store.View())
      ensures r.Ok? ==> Ticked(clock, tick, now, old(tasks), tasks, old(store.View()), store.View(), r.value)
      ensures faults == NO_FAULTS ==> (r.Ok? <==> Tickable(old(tasks), clock, tick))
      ensures Turned(clock, old(tasks), Turn(tick, tasks, if r.Ok? then r.value else []))
    {
      var savedTasks, savedLive, savedNextId := tasks, store.live, store.nextId;
      var ok, out, finished := TickDue(clock, tick, now, faults);
      if !ok || faults.release {
        tasks, store.live, store.nextId := savedTasks, savedLive, savedNextId;
        return Err;
      }
      TickDone(clock, tick, now, old(tasks), tasks, old(store.View()), store.View(), out, finished);
      return Ok(out);
    }

    /** The loop over the due tasks; a failure may leave it half done. */
    method TickDue(clock: Clock, tick: int, now: int, faults: Faults)
      returns (ok: bool, out: seq<Fire>, ghost finished: set<string>)
      modifies this, store
      ensures store.dead == old(store.dead)
      ensures ok ==> Midway(clock, tick, now, old(tasks), tasks, old(store.View()), store.View(), out, {}, finished)
      ensures !ok && faults == NO_FAULTS ==> !Tickable(old(tasks), clock, tick)
    {
      if faults.select {
        return false, [], {};
      }
      var pending := set name | name in tasks && Due(tasks[name], tick);
      out, finished := [], {};
      MidwayStart(clock, tick, now, tasks, store.View());
      while pending != {}
        invariant store.dead == old(store.dead)
        invariant Midway(clock, tick, now, old(tasks), tasks, old(store.View()), store.View(), out, pending, finished)
        decreases |pending|
      {
        var name: string;
        ok, out, name := TickNext(clock, tick, now, out, pending, faults, old(tasks), old(store.View()), finished);
        if !ok {
          return;
        }
        pending := pending - {name};
        finished := finished + {name};
      }
      ok := true;
    }

    /** One turn of the loop over the due tasks: the first pending name. */
    method TickNext(
        clock: Clock, tick: int, now: int, fires: seq<Fire>, pending: set<string>, faults: Faults,
        ghost before: map<string, Task>, ghost db0: Db, ghost finished: set<string>)
      returns (ok: bool, out: seq<Fire>, name: string)
      requires pending != {}
      requires Midway(clock, tick, now, before, tasks, db0, store.View(), fires, pending, finished)
      modifies this, store
      ensures store.dead == old(store.dead)
      ensures ok ==>
        && name in pending
        && Midway(clock, tick, now, before, tasks, db0, store.View(), out, pending - {name}, finished + {name})
      ensures !ok && faults == NO_FAULTS ==> !Tickable(before, clock, tick)
    {
      FirstExists(pending);
      name :| IsFirst(name, pending);
      assert name in pending + finished;
      var task := tasks[name];
      ghost var db := store.View();
      var moved: Result<int>;
      ghost var fired: seq<int>;
      moved, out, fired := FireTask(name, task, clock(task.cronExpr), tick, now, fires, faults.inserts);
      ok := moved.Ok? && name !in faults.updates;
      if ok {
        MidwayStep(clock, tick, now, before, tasks, db0, db, store.View(), fires, out, pending, finished, name,
                   Fired(fired, moved.value));
        tasks := tasks[name := task.(nextFireAt := moved.value)];
      }
    }
  }

  /** The state of the tick between two tasks. */
  ghost predicate Midway(
    clock: Clock, tick: int, now: int, before: map<string, Task>, after: map<string, Task>,
    db0: Db, db: Db, out: seq<Fire>, pending: set<string>, finished: set<string>)
  {
    && Partition(before, tick, pending, finished)
    && InNameOrder(out, pending, finished)
    && Accounted(clock, tick, before, after, (n: string) => FiresOf(out, n), finished)
    && Inserted(db0, db, out, before, now)
  }

  lemma MidwayStart(clock: Clock, tick: int, now: int, tasks: map<string, Task>, db: Db)
    ensures Midway(clock, tick, now, tasks, tasks, db, db, [], set name | name in tasks && Due(tasks[name], tick), {})
  {
  }

  lemma MidwayStep(
      clock: Clock, tick: int, now: int, before: map<string, Task>, after: map<string, Task>,
      db0: Db, db: Db, db': Db, earlier: seq<Fire>, out: seq<Fire>, pending: set<string>, finished: set<string>,
      name: string, f: Fired)
    requires Midway(clock, tick, now, before, after, db0, db, earlier, pending, finished)
    requires IsFirst(name, pending) && name in before && name !in finished && Due(before[name], tick)
    requires before[name].maxAttempts >= 1
    requires TickTask(clock(before[name].cronExpr), before[name].nextFireAt, tick) == Ok(f)
    requires FiresOf(out, name) == FiresOf(earlier, name) + f.fires
    requires forall other :: other != name ==> FiresOf(out, other) == FiresOf(earlier, other)
    requires Appended(earlier, out, name, before[name].queue, db.nextId)
    requires InsertAll(db, seq(|out| - |earlier|, _ => SpecOf(before[name])), now) == Ok(db')
    ensures Midway(clock, tick, now, before, after[name := before[name].(nextFireAt := f.next)],
                   db0, db', out, pending - {name}, finished + {name})
  {
    PartitionStep(before, tick, pending, finished, name);
    OrderStep(earlier, out, name, before[name].queue, db.nextId, pending, finished);
    AccountStep(clock, tick, before, after, (n: string) => FiresOf(earlier, n), (n: string) => FiresOf(out, n),
                finished, name, f);
    InsertStep(db0, db, db', earlier, out, before, name, now);
  }

  lemma PartitionStep(tasks: map<string, Task>, tick: int, pending: set<string>, finished: set<string>, name: string)
    requires Partition(tasks, tick, pending, finished) && name in pending
    ensures Partition(tasks, tick, pending - {name}, finished + {name})
  {
  }

  // ----- what the tick loop keeps -----

  lemma TickDone(
      clock: Clock, tick: int, now: int, before: map<string, Task>, after: map<string, Task>,
      db0: Db, db: Db, out: seq<Fire>, finished: set<string>)
    requires Partition(before, tick, {}, finished) && InNameOrder(out, {}, finished)
    requires Accounted(clock, tick, before, after, (n: string) => FiresOf(out, n), finished)
             && Inserted(db0, db, out, before, now)
    ensures Ticked(clock, tick, now, before, after, db0, db, out)
    ensures Tickable(before, clock, tick)
  {
  }

  ghost predicate Appended(fires: seq<Fire>, out: seq<Fire>, name: string, queue: string, firstId: int)
  {
    && |fires| <= |out| && out[..|fires|] == fires
    && forall i :: |fires| <= i < |out| ==>
         out[i].name == name && out[i].queue == queue && out[i].jobId == firstId + i - |fires|
  }

  ghost predicate Partition(tasks: map<string, Task>, tick: int, pending: set<string>, finished: set<string>)
  {
    && pending !! finished
    && forall name :: name in pending + finished <==> name in tasks && Due(tasks[name], tick)
  }

  /** Finished tasks come before pending ones, and the answer lists them in that order. */
  ghost predicate InNameOrder(out: seq<Fire>, pending: set<string>, finished: set<string>)
  {
    && (forall i :: 0 <= i < |out| ==> out[i].name in finished)
    && (forall a, b :: a in finished && b in pending ==> NameLess(a, b))
    && (forall i, j :: 0 <= i < j < |out| ==> out[i].name == out[j].name || NameLess(out[i].name, out[j].name))
  }

  /** Where one task stands: done with these fires, or not yet touched. */
  ghost predicate TaskStands(clock: Clock, tick: int, before: Task, after: Task, fires: seq<int>, done: bool)
  {
    if done then Due(before, tick) && before.maxAttempts >= 1 && TaskTicked(clock, before, after, fires, tick)
    else after == before && fires == []
  }

  ghost predicate Accounted(
    clock: Clock, tick: int, before: map<string, Task>, after: map<string, Task>, fires: string -> seq<int>,
    finished: set<string>)
  {
    && after.Keys == before.Keys && finished <= before.Keys
    && forall name :: name in before ==>
         TaskStands(clock, tick, before[name], after[name], fires(name), name in finished)
  }

  ghost predicate Inserted(db0: Db, db: Db, out: seq<Fire>, tasks: map<string, Task>, now: int)
  {
    && (forall i :: 0 <= i < |out| ==>
          out[i].name in tasks && out[i].queue == tasks[out[i].name].queue && out[i].jobId == db0.nextId + i)
    && db.nextId == db0.nextId + |out|
    && InsertAll(db0, Specs(out, tasks), now) == Ok(db)
  }

  lemma OrderStep(
      earlier: seq<Fire>, out: seq<Fire>, name: string, queue: string, firstId: int, pending: set<string>,
      finished: set<string>)
    requires InNameOrder(earlier, pending, finished) && IsFirst(name, pending)
    requires Appended(earlier, out, name, queue, firstId)
    ensures InNameOrder(out, pending - {name}, finished + {name})
  {
  }

  lemma AccountStep(
      clock: Clock, tick: int, before: map<string, Task>, after: map<string, Task>,
      fires: string -> seq<int>, fires': string -> seq<int>, finished: set<string>, name: string, f: Fired)
    requires Accounted(clock, tick, before, after, fires, finished)
    requires name in before && name !in finished && Due(before[name], tick) && before[name].maxAttempts >= 1
    requires TickTask(clock(before[name].cronExpr), before[name].nextFireAt, tick) == Ok(f)
    requires fires'(name) == fires(name) + f.fires
    requires forall other :: other != name ==> fires'(other) == fires(other)
    ensures Accounted(clock, tick, before, after[name := before[name].(nextFireAt := f.next)], fires',
                      finished + {name})
  {
    assert [] + f.fires == f.fires;
  }

  lemma InsertStep(
      db0: Db, db: Db, after: Db, earlier: seq<Fire>, out: seq<Fire>, tasks: map<string, Task>, name: string, now: int)
    requires Inserted(db0, db, earlier, tasks, now) && name in tasks
    requires Appended(earlier, out, name, tasks[name].queue, db.nextId)
    requires InsertAll(db, seq(|out| - |earlier|, _ => SpecOf(tasks[name])), now) == Ok(after)
    ensures Inserted(db0, after, out, tasks, now)
  {
    var added := seq(|out| - |earlier|, _ => SpecOf(tasks[name]));
    assert forall i :: 0 <= i < |earlier| ==> out[i] == earlier[i];
    InsertAllConcat(db0, Specs(earlier, tasks), added, now);
    InsertAllLook(db, added, now, 0);
    assert Specs(out, tasks) == Specs(earlier, tasks) + added;
  }

  lemma {:induction false} InsertAllConcat(db: Db, a: seq<JobSpec>, b: seq<JobSpec>, now: int)
    requires InsertAll(db, a, now).Ok?
    ensures InsertAll(db, a + b, now) == InsertAll(InsertAll(db, a, now).value, b, now)
    decreases |a|
  {
    if a == [] {
      assert a + b == b;
    } else {
      assert (a + b)[1..] == a[1..] + b;
      InsertAllConcat(Insert(db, a[0], now), a[1..], b, now);
    }
  }

  /** The catch-up loop of one task with `fired` boundaries enqueued and `at` the next one. */
  ghost predicate Catching(
    next: Next, name: string, task: Task, tick: int, now: int, fires: seq<Fire>, out: seq<Fire>, fired: seq<int>,
    at: int, db0: Db, db: Db)
  {
    && |fired| <= MAX_CATCHUP_FIRES && |out| == |fires| + |fired|
    && (fired != [] ==> task.maxAttempts >= 1)
    && TickTask(next, task.nextFireAt, tick) == After(fired, CatchUp(next, at, tick, |fired|))
    && Appended(fires, out, name, task.queue, db0.nextId)
    && FiresOf(out, name) == FiresOf(fires, name) + fired
    && (forall other :: other != name ==> FiresOf(out, other) == FiresOf(fires, other))
    && InsertAll(db0, seq(|fired|, _ => SpecOf(task)), now) == Ok(db)
    && db.nextId == db0.nextId + |fired| && db.dead == db0.dead
  }

  lemma CatchingStep(
      next: Next, name: string, task: Task, tick: int, now: int, fires: seq<Fire>, out: seq<Fire>, fired: seq<int>,
      at: int, after: int, db0: Db, db: Db, fire: Fire)
    requires Catching(next, name, task, tick, now, fires, out, fired, at, db0, db)
    requires at <= tick && |fired| < MAX_CATCHUP_FIRES && task.maxAttempts >= 1 && next(at) == Ok(after)
    requires fire == Fire(name, task.queue, at, db.nextId)
    ensures Catching(next, name, task, tick, now, fires, out + [fire], fired + [at], after, db0,
                     Insert(db, SpecOf(task), now))
  {
    var jobs := seq(|fired|, _ => SpecOf(task));
    InsertAllAppend(db0, jobs, SpecOf(task), now);
    assert seq(|fired| + 1, _ => SpecOf(task)) == jobs + [SpecOf(task)];
    AppendFire(out, fire, FiresOf(fires, name), fired, name);
    AfterStep(fired, at, CatchUp(next, after, tick, |fired| + 1));
    assert CatchUp(next, at, tick, |fired|) == After([at], CatchUp(next, after, tick, |fired| + 1));
    assert Appended(fires, out + [fire], name, task.queue, db0.nextId);
  }

  lemma AppendFire(out: seq<Fire>, fire: Fire, earlier: seq<int>, fired: seq<int>, name: string)
    requires fire.name == name && FiresOf(out, name) == earlier + fired
    ensures FiresOf(out + [fire], name) == earlier + (fired + [fire.fireAt])
    ensures forall other :: other != name ==> FiresOf(out + [fire], other) == FiresOf(out, other)
  {
  }

  lemma AfterNone(rest: Result<Fired>)
    ensures After([], rest) == rest
  {
    if rest.Ok? {
      assert [] + rest.value.fires == rest.value.fires;
    }
  }

  lemma AfterStep(fired: seq<int>, at: int, rest: Result<Fired>)
    ensures After(fired, After([at], rest)) == After(fired + [at], rest)
  {
    if rest.Ok? {
      assert fired + ([at] + rest.value.fires) == fired + [at] + rest.value.fires;
    }
  }

  /**
   The job a fire of `t` stands for: claimable at the tick's clock reading,
   with its task's payload, budget and expiry.
   */
  ghost predicate FiredJob(r: Row, t: Task, now: int)
  {
    && r.queue == t.queue && r.payload == t.payload && r.priority == t.priority
    && r.maxAttempts == t.maxAttempts && r.maxAttempts >= 1 && r.attempts == 0 && r.runAt == now && r.state == Pending
    && r.expiresAt == (if t.expires.Some? then Some(now + t.expires.value) else None)
    && (Eligible(r, now) <==> (t.expires.Some? ==> t.expires.value > 0))
  }

  lemma NewRowIsFired(t: Task, now: int)
    requires t.maxAttempts >= 1
    ensures FiredJob(NewRow(SpecOf(t), now), t, now)
  {
  }

  /** Each fire of a successful tick is such a job in the live table. */
  lemma FireIsAJob(now: int, tasks: map<string, Task>, db0: Db, db: Db, fires: seq<Fire>, i: nat)
    requires Enqueued(now, tasks, db0, db, fires) && i < |fires|
    ensures fires[i].jobId in db.live && FiredJob(db.live[fires[i].jobId], tasks[fires[i].name], now)
  {
    var t := tasks[fires[i].name];
    assert Specs(fires, tasks)[i] == SpecOf(t) && fires[i].jobId == db0.nextId + i;
    JobOf(db0, db, Specs(fires, tasks), now, i);
    NewRowIsFired(t, now);
  }

  lemma JobOf(db0: Db, db: Db, jobs: seq<JobSpec>, now: int, i: nat)
    requires InsertAll(db0, jobs, now) == Ok(db) && i < |jobs|
    ensures db0.nextId + i in db.live && db.live[db0.nextId + i] == NewRow(jobs[i], now) && jobs[i].maxAttempts >= 1
  {
    InsertAllLook(db0, jobs, now, db0.nextId + i);
  }

  /**
   What a successful tick did to one task. A paused task, or one whose time is
   ahead, is untouched and fired nothing. Any other fired from its next_fire_at
   on, at most 64 times and fewer only if fewer boundaries were due. With at most
   64 due it now waits for the next one, and else for one step after the tick;
   either lies beyond the tick if its calculator moves forward.
   */
  lemma TickMeans(
      clock: Clock, tick: int, now: int, before: map<string, Task>, after: map<string, Task>,
      db0: Db, db: Db, fires: seq<Fire>, name: string)
    requires Ticked(clock, tick, now, before, after, db0, db, fires) && name in before
    ensures name in after && after[name].(nextFireAt := before[name].nextFireAt) == before[name]
    ensures !before[name].enabled || before[name].nextFireAt > tick ==>
      after[name] == before[name] && forall i :: 0 <= i < |fires| ==> fires[i].name != name
    ensures before[name].enabled && before[name].nextFireAt <= tick ==>
      var (next, at, fired) := (clock(before[name].cronExpr), before[name].nextFireAt, FiresOf(fires, name));
      && 0 < |fired| <= 64 && fired[0] == at
      && (AtMost(next, at, tick, 63) <==> |fired| < 64)
      && (if AtMost(next, at, tick, 64) then Reaches(next, at, after[name].nextFireAt, |fired|)
          else next(tick) == Ok(after[name].nextFireAt))
      && (StrictlyAfter(next) ==> after[name].nextFireAt > tick)
  {
    assert TaskTicked(clock, before[name], after[name], FiresOf(fires, name), tick);
    if before[name].enabled && before[name].nextFireAt <= tick {
      var next, at := clock(before[name].cronExpr), before[name].nextFireAt;
      CapIs64(next, at, tick);
      if StrictlyAfter(next) {
        CatchUpInOrder(next, at, tick, 0);
      }
    } else {
      NoFires(fires, name);
    }
  }

  lemma {:induction false} NoFires(fires: seq<Fire>, name: string)
    requires FiresOf(fires, name) == []
    ensures forall i :: 0 <= i < |fires| ==> fires[i].name != name
    decreases |fires|
  {
    if fires == [] {
    } else {
      NoFires(fires[..|fires| - 1], name);
    }
  }

  // ----- whole runs of ticks over the task table -----

  /** One call of the tick: its time, the task table after it, and its answer. */
  datatype Turn = Turn(tick: int, tasks: map<string, Task>, fires: seq<Fire>)

  /** What `Tick` promises of one call: it failed and changed nothing, or every task ticked. */
  ghost predicate Turned(clock: Clock, before: map<string, Task>, t: Turn)
  {
    || (t.tasks == before && t.fires == [])
    || (t.tasks.Keys == before.Keys
        && forall name :: name in before ==>
             TaskTicked(clock, before[name], t.tasks[name], FiresOf(t.fires, name), t.tick))
  }

  ghost predicate TurnedAll(clock: Clock, before: map<string, Task>, turns: seq<Turn>)
    decreases |turns|
  {
    turns == [] || (Turned(clock, before, turns[0]) && TurnedAll(clock, turns[0].tasks, turns[1..]))
  }

  /** Every fire of one task over the run. */
  function History(turns: seq<Turn>, name: string): seq<int>
    decreases |turns|
  {
    if turns == [] then [] else FiresOf(turns[0].fires, name) + History(turns[1..], name)
  }

  function Last(tasks: map<string, Task>, turns: seq<Turn>): map<string, Task>
  {
    if turns == [] then tasks else turns[|turns| - 1].tasks
  }

  /** One call seen by one task: it ticked, or nothing happened to it. */
  lemma TurnOfTask(clock: Clock, before: map<string, Task>, t: Turn, name: string) returns (ticked: bool)
    requires Turned(clock, before, t) && name in before
    ensures name in t.tasks && t.tasks[name].cronExpr == before[name].cronExpr
    ensures ticked ==>
      TickTask(clock(before[name].cronExpr), before[name].nextFireAt, t.tick)
      == Ok(Fired(FiresOf(t.fires, name), t.tasks[name].nextFireAt))
    ensures !ticked ==> FiresOf(t.fires, name) == [] && t.tasks[name] == before[name]
  {
    if t.tasks == before && t.fires == [] {
      ticked := false;
    } else {
      assert TaskTicked(clock, before[name], t.tasks[name], FiresOf(t.fires, name), t.tick);
      ticked := Due(before[name], t.tick);
    }
  }

  /** No call finds more than 64 boundaries of the task due. */
  ghost predicate NeverCappedTask(clock: Clock, tasks: map<string, Task>, turns: seq<Turn>, name: string)
    decreases |turns|
  {
    turns == [] ||
    (&& (name in tasks ==> AtMost(clock(tasks[name].cronExpr), tasks[name].nextFireAt, turns[0].tick,
                                  MAX_CATCHUP_FIRES))
     && NeverCappedTask(clock, turns[0].tasks, turns[1..], name))
  }

  /**
   A task's history in the table is a run of ticks of that task alone; other
   tasks and failed calls do not show in it.
   */
  lemma {:induction false} HistoryIsTaskRun(clock: Clock, tasks: map<string, Task>, turns: seq<Turn>, name: string)
    returns (ticks: seq<int>)
    requires TurnedAll(clock, tasks, turns) && name in tasks
    ensures name in Last(tasks, turns)
    ensures TickAll(clock(tasks[name].cronExpr), tasks[name].nextFireAt, ticks)
            == Ok(Fired(History(turns, name), Last(tasks, turns)[name].nextFireAt))
    ensures NeverCappedTask(clock, tasks, turns, name)
            ==> NeverCapped(clock(tasks[name].cronExpr), tasks[name].nextFireAt, ticks)
    decreases |turns|
  {
    ticks := [];
    if turns == [] {
    } else {
      var t := turns[0];
      var ticked := TurnOfTask(clock, tasks, t, name);
      ticks := HistoryIsTaskRun(clock, t.tasks, turns[1..], name);
      assert Last(tasks, turns) == Last(t.tasks, turns[1..]);
      if ticked {
        ghost var rest := ticks;
        ticks := [t.tick] + rest;
        assert ticks[0] == t.tick && ticks[1..] == rest;
        assert History(turns, name) == FiresOf(t.fires, name) + History(turns[1..], name);
      } else {
        assert [] + History(turns[1..], name) == History(turns[1..], name);
      }
    }
  }

  /**
   Over any run of tick calls on the task table one task's fires strictly
   increase and stay below its next_fire_at.
   */
  lemma TaskFiresIncrease(clock: Clock, tasks: map<string, Task>, turns: seq<Turn>, name: string)
    requires TurnedAll(clock, tasks, turns) && name in tasks && StrictlyAfter(clock(tasks[name].cronExpr))
    ensures name in Last(tasks, turns)
    ensures var h := History(turns, name);
            && Increasing(h)
            && (forall i :: 0 <= i < |h| ==> tasks[name].nextFireAt <= h[i] < Last(tasks, turns)[name].nextFireAt)
  {
    var ticks := HistoryIsTaskRun(clock, tasks, turns, name);
    FiresIncreaseAcrossTicks(clock(tasks[name].cronExpr), tasks[name].nextFireAt, ticks);
  }

  /**
   From the calendar to the task table. A cron task due at one of its firing
   instants, in a zone without folds, fires at every firing instant up to its
   final next_fire_at exactly once, in order, and at no other instant, over any
   run of tick calls that never finds more than 64 fires due, whatever other
   tasks do and whichever calls fail.
   */
  lemma CronTaskFiresExactlyOnce(
      z: Zone, c: CronSchedule, clock: Clock, tasks: map<string, Task>, turns: seq<Turn>, name: string)
    requires Coherent(z) && NoFolds(z) && name in tasks && Fires(z, c, tasks[name].nextFireAt)
    requires clock(tasks[name].cronExpr) == CronNext(z, c)
    requires TurnedAll(clock, tasks, turns) && NeverCappedTask(clock, tasks, turns, name)
    ensures name in Last(tasks, turns)
    ensures var (from, until, h) := (tasks[name].nextFireAt, Last(tasks, turns)[name].nextFireAt, History(turns, name));
            && Increasing(h) && from <= until && Fires(z, c, until)
            && forall u :: u in h <==> from <= u < until && Fires(z, c, u)
  {
    var ticks := HistoryIsTaskRun(clock, tasks, turns, name);
    AllCommitted(CronNext(z, c), tasks[name].nextFireAt, ticks);
    CronFiresExactlyOnce(z, c, tasks[name].nextFireAt, ticks);
  }
}
