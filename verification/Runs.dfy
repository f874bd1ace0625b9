/**
 Whole runs: any sequence of operations, each at its own clock reading, each
 possibly failing at any of its statements and rolling back.
 */
module Runs {
  import opened Wrappers
  import opened Queue
  import opened Jobs

  /** One operation of a run; `fault` says some statement of it failed. */
  datatype Stamp = Stamp(now: int, ev: Event, fault: bool)

  predicate Commits(db: Db, s: Stamp)
  {
    !s.fault && Exec(db, s.ev, s.now).Ok?
  }

  function Apply(db: Db, s: Stamp): Db
  {
    if Commits(db, s) then Exec(db, s.ev, s.now).value else db
  }

  function EffectAt(db: Db, s: Stamp, id: int): Effect
  {
    if Commits(db, s) then EffectOf(db, s.ev, s.now, id) else Untouched
  }

  function Run(db: Db, run: seq<Stamp>): Db
    decreases |run|
  {
    if run == [] then db else Run(Apply(db, run[0]), run[1..])
  }

  /** What each operation of the run did to job `id`. */
  function Effects(db: Db, run: seq<Stamp>, id: int): seq<Effect>
    decreases |run|
  {
    if run == [] then [] else [EffectAt(db, run[0], id)] + Effects(Apply(db, run[0]), run[1..], id)
  }

  /** The clock never runs backwards. */
  predicate Clocked(from: int, run: seq<Stamp>)
    decreases |run|
  {
    run == [] || (from <= run[0].now && Clocked(run[0].now, run[1..]))
  }

  function End(from: int, run: seq<Stamp>): int
    decreases |run|
  {
    if run == [] then from else End(run[0].now, run[1..])
  }

  /** One step of a run, for one job. */
  lemma StepOf(db: Db, from: int, s: Stamp, id: int)
    requires Sound(db, from) && from <= s.now
    ensures Sound(db, s.now) && Sound(Apply(db, s), s.now)
    ensures Legal(s.now, Look(db, id), EffectAt(db, s, id), Look(Apply(db, s), id))
    ensures db.nextId <= Apply(db, s).nextId
    ensures EffectAt(db, s, id).Issued? ==> db.nextId <= id < Apply(db, s).nextId
    ensures db.nextId <= id < Apply(db, s).nextId ==> EffectAt(db, s, id).Issued?
  {
    LaterIsSound(db, from, s.now);
    if Commits(db, s) {
      StepKeepsSound(db, s.ev, s.now);
      StepIsLegal(db, s.ev, s.now, id);
    }
  }

  /** Every reachable table is sound: the row shape holds in every run. */
  lemma {:induction false} RunIsSound(db: Db, from: int, run: seq<Stamp>)
    requires Sound(db, from) && Clocked(from, run)
    ensures Sound(Run(db, run), End(from, run))
    decreases |run|
  {
    if run == [] {
    } else {
      StepOf(db, from, run[0], 0);
      RunIsSound(Apply(db, run[0]), run[0].now, run[1..]);
    }
  }

  lemma {:induction false} RunKeepsStamped(db: Db, from: int, run: seq<Stamp>, id: int)
    requires Sound(db, from) && Clocked(from, run)
    requires id in db.live ==> Stamped(db.live[id])
    ensures id in Run(db, run).live ==> Stamped(Run(db, run).live[id])
    decreases |run|
  {
    if run == [] {
    } else {
      StepOf(db, from, run[0], id);
      RunKeepsStamped(Apply(db, run[0]), run[0].now, run[1..], id);
    }
  }

  /**
   The shape of every row of every run: a pending or scheduled row carries no
   worker, lease or claim time and is under budget, a pending one is due, and a
   processing row carries all three and 1 to max_attempts attempts.
   */
  lemma RowShape(from: int, run: seq<Stamp>, id: int)
    requires Clocked(from, run) && id in Run(EMPTY_DB, run).live
    ensures Shaped(Run(EMPTY_DB, run).live[id], End(from, run)) && Stamped(Run(EMPTY_DB, run).live[id])
  {
    RunIsSound(EMPTY_DB, from, run);
    RunKeepsStamped(EMPTY_DB, from, run, id);
  }

  /** So the unfenced ack and fail, which have no state check, only ever remove processing rows. */
  lemma UnfencedRemovesOnlyProcessing(db: Db, now: int, id: int, worker: string, error: string)
    requires Sound(db, now)
    ensures id in Matched(db, Ack(id, worker, None), now) ==> db.live[id].state == Processing
    ensures id in Matched(db, Fail(id, worker, error, None), now) ==> db.live[id].state == Processing
    ensures Matched(db, Ack(id, worker, None), now) == Matched(db, Heartbeat(id, worker, 0, None), now)
  {
  }

  lemma {:induction false} RunConcat(db: Db, from: int, a: seq<Stamp>, b: seq<Stamp>)
    ensures Run(db, a + b) == Run(Run(db, a), b)
    ensures Clocked(from, a + b) <==> Clocked(from, a) && Clocked(End(from, a), b)
    decreases |a|
  {
    if a == [] {
      assert a + b == b;
    } else {
      assert (a + b)[1..] == a[1..] + b;
      RunConcat(Apply(db, a[0]), a[0].now, a[1..], b);
    }
  }

  // ----- conservation -----

  /** Where a job is, computed from its history alone. */
  datatype Fate =
    | Unissued
    | InQueue(job: Row, claims: nat)
    | Dead(job: Row, claims: nat)
    | AckedAway(job: Row, claims: nat)
    | CancelledAway(job: Row, claims: nat)

  function FateStep(f: Fate, e: Effect): Fate
  {
    match e
    case Issued(row) => if f.Unissued? then InQueue(row, 0) else f
    case Claimed(_, _, _) => if f.InQueue? then InQueue(f.job, f.claims + 1) else f
    case Acked(_, _) => if f.InQueue? then AckedAway(f.job, f.claims) else f
    case Failed(_, _, _) => if f.InQueue? then Dead(f.job, f.claims) else f
    case Swept(_) => if f.InQueue? then Dead(f.job, f.claims) else f
    case Cancelled => if f.InQueue? then CancelledAway(f.job, f.claims) else f
    case _ => f
  }

  function FateAfter(f: Fate, effects: seq<Effect>): Fate
    decreases |effects|
  {
    if effects == [] then f else FateAfter(FateStep(f, effects[0]), effects[1..])
  }

  predicate SameJob(r: Row, job: Row)
  {
    && r.queue == job.queue && r.payload == job.payload && r.priority == job.priority
    && r.maxAttempts == job.maxAttempts && r.createdAt == job.createdAt && r.expiresAt == job.expiresAt
  }

  predicate SameDead(d: DeadRow, job: Row, claims: nat)
  {
    && d.queue == job.queue && d.payload == job.payload && d.priority == job.priority
    && d.maxAttempts == job.maxAttempts && d.createdAt == job.createdAt
    && d.attempts == claims <= job.maxAttempts
  }

  /** The tables say about `id` exactly what its history says. */
  predicate Tracks(f: Fate, db: Db, id: int)
  {
    match f
    case Unissued => Look(db, id) == Vacant && !(1 <= id < db.nextId)
    case InQueue(job, n) =>
      && id in db.live && id !in db.dead && 1 <= id < db.nextId
      && SameJob(db.live[id], job) && db.live[id].attempts == n <= job.maxAttempts
    case Dead(job, n) => id in db.dead && id !in db.live && 1 <= id < db.nextId && SameDead(db.dead[id], job, n)
    case _ => Look(db, id) == Vacant && 1 <= id < db.nextId
  }

  lemma {:induction false} HistoryTracks(db: Db, from: int, run: seq<Stamp>, id: int, f: Fate)
    requires Sound(db, from) && Clocked(from, run) && Tracks(f, db, id)
    ensures Tracks(FateAfter(f, Effects(db, run, id)), Run(db, run), id)
    decreases |run|
  {
    if run == [] {
    } else {
      StepOf(db, from, run[0], id);
      var e := EffectAt(db, run[0], id);
      HistoryTracks(Apply(db, run[0]), run[0].now, run[1..], id, FateStep(f, e));
      assert Effects(db, run, id)[1..] == Effects(Apply(db, run[0]), run[1..], id);
    }
  }

  /**
   Conservation. After any run from an empty database, whatever failed on the
   way, each id is in exactly the place its own history says: unissued, live,
   dead, acked or cancelled. Live and dead rows carry the job as it was
   enqueued and as many attempts as it was claimed, within its budget.
   */
  lemma Conservation(from: int, run: seq<Stamp>, id: int)
    requires Clocked(from, run)
    ensures var db := Run(EMPTY_DB, run);
            var fate := FateAfter(Unissued, Effects(EMPTY_DB, run, id));
            && Tracks(fate, db, id)
            && (fate.Unissued? <==> !(1 <= id < db.nextId))
            && (fate.InQueue? <==> id in db.live)
            && (fate.Dead? <==> id in db.dead)
  {
    HistoryTracks(EMPTY_DB, from, run, id, Unissued);
  }

  /** A job that left the live table never comes back, and its dead row never changes. */
  lemma {:induction false} NeverReenters(db: Db, from: int, run: seq<Stamp>, id: int)
    requires Sound(db, from) && Clocked(from, run)
    requires id < db.nextId && id !in db.live
    ensures id !in Run(db, run).live
    ensures Look(Run(db, run), id) == Look(db, id)
    ensures id < Run(db, run).nextId
    decreases |run|
  {
    if run == [] {
    } else {
      StepOf(db, from, run[0], id);
      NeverReenters(Apply(db, run[0]), run[0].now, run[1..], id);
    }
  }

  // ----- fencing -----

  /** The claim (id, worker, attempt) is the row's current one: the fenced guard. */
  predicate Current(db: Db, id: int, worker: string, attempt: int)
  {
    id in db.live && HoldsToken(db.live[id], worker, attempt)
  }

  /** Steps that end a claim; promotions cannot touch it and heartbeats keep it. */
  predicate EndsClaim(e: Effect)
  {
    e.Claimed? || e.Released? || e.Acked? || e.Failed? || e.Swept? || e.Cancelled?
  }

  ghost predicate NoneEnds(effects: seq<Effect>)
  {
    forall k :: 0 <= k < |effects| ==> !EndsClaim(effects[k])
  }

  /** Claim number `attempt` of the job is over for good. */
  predicate Over(db: Db, id: int, attempt: int)
  {
    && id < db.nextId
    && (id in db.live ==>
          || db.live[id].attempts > attempt
          || (db.live[id].attempts == attempt && db.live[id].state != Processing))
  }

  lemma {:induction false} OverStays(db: Db, from: int, run: seq<Stamp>, id: int, attempt: int)
    requires Sound(db, from) && Clocked(from, run) && Over(db, id, attempt)
    ensures Over(Run(db, run), id, attempt)
    ensures Completions(Effects(db, run, id), attempt) == 0
    decreases |run|
  {
    if run == [] {
    } else {
      StepOf(db, from, run[0], id);
      OverStays(Apply(db, run[0]), run[0].now, run[1..], id, attempt);
    }
  }

  /**
   Fencing. From the moment a claim is current, through any run at any clock,
   its fenced guard still holds if and only if no step has ended the claim.
   */
  lemma {:induction false} FencedIffNotEnded(db: Db, from: int, run: seq<Stamp>, id: int, worker: string, attempt: int)
    requires Sound(db, from) && Clocked(from, run) && Current(db, id, worker, attempt)
    ensures Current(Run(db, run), id, worker, attempt) <==> NoneEnds(Effects(db, run, id))
    decreases |run|
  {
    if run == [] {
    } else {
      StepOf(db, from, run[0], id);
      var next := Apply(db, run[0]);
      var e := EffectAt(db, run[0], id);
      var effects := Effects(db, run, id);
      assert effects[0] == e && effects[1..] == Effects(next, run[1..], id);
      if EndsClaim(e) {
        OverStays(next, run[0].now, run[1..], id, attempt);
      } else {
        FencedIffNotEnded(next, run[0].now, run[1..], id, worker, attempt);
        if NoneEnds(effects[1..]) {
          forall k | 0 <= k < |effects| ensures !EndsClaim(effects[k]) {
            assert k > 0 ==> effects[k] == effects[1..][k - 1];
          }
        } else {
          var k :| 0 <= k < |effects[1..]| && EndsClaim(effects[1..][k]);
          assert effects[k + 1] == effects[1..][k];
        }
      }
    }
  }

  lemma FencedMatchesCurrent(db: Db, now: int, id: int, worker: string, attempt: int, x: int, error: string)
    ensures id in Matched(db, Ack(id, worker, Some(attempt)), now) <==> Current(db, id, worker, attempt)
    ensures id in Matched(db, Fail(id, worker, error, Some(attempt)), now) <==> Current(db, id, worker, attempt)
    ensures id in Matched(db, Heartbeat(id, worker, x, Some(attempt)), now) <==> Current(db, id, worker, attempt)
    ensures (id in Matched(db, RetryUpdate(id, worker, x, Some(attempt)), now)
             || id in Matched(db, RetryDelete(id, worker, error, Some(attempt)), now))
            <==> Current(db, id, worker, attempt)
  {
  }

  /**
   The token of a claim works exactly as long as the claim does: after any run,
   at any clock value, the fenced ack, fail, heartbeat and retry with the
   (id, worker, attempts) a claim returned find a row if and only if no step
   since then ended that claim.
   */
  lemma FencedCallsWorkIffNotEnded(
      db: Db, from: int, claim: Stamp, run: seq<Stamp>, id: int,
      worker: string, attempt: int, lease: int, now: int, x: int, error: string)
    requires Sound(db, from) && Clocked(from, [claim] + run)
    requires EffectAt(db, claim, id) == Claimed(worker, attempt, lease)
    ensures var after := Run(Apply(db, claim), run);
            var lives := NoneEnds(Effects(Apply(db, claim), run, id));
            && (id in Matched(after, Ack(id, worker, Some(attempt)), now) <==> lives)
            && (id in Matched(after, Fail(id, worker, error, Some(attempt)), now) <==> lives)
            && (id in Matched(after, Heartbeat(id, worker, x, Some(attempt)), now) <==> lives)
            && ((id in Matched(after, RetryUpdate(id, worker, x, Some(attempt)), now)
                 || id in Matched(after, RetryDelete(id, worker, error, Some(attempt)), now)) <==> lives)
  {
    assert ([claim] + run)[1..] == run;
    StepOf(db, from, claim, id);
    var taken := Apply(db, claim);
    assert Current(taken, id, worker, attempt);
    FencedIffNotEnded(taken, claim.now, run, id, worker, attempt);
    FencedMatchesCurrent(Run(taken, run), now, id, worker, attempt, x, error);
  }

  // ----- the unfenced calls -----

  /** Claim number `attempt` of the job is the worker's, under a lease to `lease`. */
  predicate LeasedTo(db: Db, id: int, worker: string, attempt: int, lease: int)
  {
    && id in db.live && db.live[id].state == Processing
    && db.live[id].worker == Some(worker) && db.live[id].attempts == attempt && db.live[id].lease == Some(lease)
  }

  /** No step ends the claim or moves its lease. */
  ghost predicate LeftAlone(effects: seq<Effect>)
  {
    forall k :: 0 <= k < |effects| ==> !EndsClaim(effects[k]) && !effects[k].Extended?
  }

  lemma {:induction false} LeaseStays(
      db: Db, from: int, run: seq<Stamp>, id: int, worker: string, attempt: int, lease: int)
    requires Sound(db, from) && Clocked(from, run) && LeasedTo(db, id, worker, attempt, lease)
    requires LeftAlone(Effects(db, run, id))
    ensures LeasedTo(Run(db, run), id, worker, attempt, lease)
    decreases |run|
  {
    if run == [] {
    } else {
      StepOf(db, from, run[0], id);
      var next := Apply(db, run[0]);
      var effects := Effects(db, run, id);
      assert effects[0] == EffectAt(db, run[0], id) && effects[1..] == Effects(next, run[1..], id);
      assert forall k :: 0 <= k < |effects[1..]| ==> effects[1..][k] == effects[k + 1];
      LeaseStays(next, run[0].now, run[1..], id, worker, attempt, lease);
    }
  }

  /**
   On a claimed row the unfenced calls work for its worker through the last
   second of its lease, and for nobody else.
   */
  lemma UnfencedOnLease(
      db: Db, id: int, worker: string, attempt: int, lease: int, caller: string, now: int, x: int, error: string)
    requires LeasedTo(db, id, worker, attempt, lease)
    ensures var works := caller == worker && now <= lease;
            && (id in Matched(db, Ack(id, caller, None), now) <==> works)
            && (id in Matched(db, AckBatch([Plain(id)], caller), now) <==> works)
            && (id in Matched(db, Fail(id, caller, error, None), now) <==> works)
            && (id in Matched(db, Heartbeat(id, caller, x, None), now) <==> works)
            && (id in Matched(db, RetryUpdate(id, caller, x, None), now)
                <==> works && attempt < db.live[id].maxAttempts)
            && (id in Matched(db, RetryDelete(id, caller, error, None), now)
                <==> works && attempt >= db.live[id].maxAttempts)
  {
  }

  /**
   The unfenced calls go by the lease. After a claim or a heartbeat gave a
   worker the lease `lease`, through any run that neither ends that claim nor
   extends it again, the unfenced ack, fail, heartbeat and retry find the row if
   and only if the caller is that worker and the clock is not past the lease;
   which of retry's two writes finds it depends on the attempts left.
   */
  lemma UnfencedCallsWorkIffLeased(
      db: Db, from: int, grant: Stamp, run: seq<Stamp>, id: int,
      worker: string, attempt: int, lease: int, caller: string, now: int, x: int, error: string)
    requires Sound(db, from) && Clocked(from, [grant] + run)
    requires EffectAt(db, grant, id) in {Claimed(worker, attempt, lease), Extended(worker, attempt, lease)}
    requires LeftAlone(Effects(Apply(db, grant), run, id))
    ensures var after := Run(Apply(db, grant), run);
            var works := caller == worker && now <= lease;
            && id in after.live
            && (id in Matched(after, Ack(id, caller, None), now) <==> works)
            && (id in Matched(after, AckBatch([Plain(id)], caller), now) <==> works)
            && (id in Matched(after, Fail(id, caller, error, None), now) <==> works)
            && (id in Matched(after, Heartbeat(id, caller, x, None), now) <==> works)
            && (id in Matched(after, RetryUpdate(id, caller, x, None), now)
                <==> works && attempt < after.live[id].maxAttempts)
            && (id in Matched(after, RetryDelete(id, caller, error, None), now)
                <==> works && attempt >= after.live[id].maxAttempts)
  {
    assert ([grant] + run)[1..] == run;
    StepOf(db, from, grant, id);
    var leased := Apply(db, grant);
    assert LeasedTo(leased, id, worker, attempt, lease);
    LeaseStays(leased, grant.now, run, id, worker, attempt, lease);
    UnfencedOnLease(Run(leased, run), id, worker, attempt, lease, caller, now, x, error);
  }

  // ----- completions -----

  /** How many successful completions of claim number `attempt` a job's history holds. */
  function Completions(effects: seq<Effect>, attempt: int): nat
    decreases |effects|
  {
    if effects == [] then 0
    else (if Completes(effects[0], attempt) then 1 else 0) + Completions(effects[1..], attempt)
  }

  predicate Completes(e: Effect, attempt: int)
  {
    (e.Acked? || e.Released? || e.Failed?) && e.attempt == attempt
  }

  /** A claim is consumed by at most one completion, fenced or not, whoever else uses its worker id. */
  lemma {:induction false} AtMostOneCompletion(db: Db, from: int, run: seq<Stamp>, id: int, worker: string,
                                               attempt: int)
    requires Sound(db, from) && Clocked(from, run) && Current(db, id, worker, attempt)
    ensures Completions(Effects(db, run, id), attempt) <= 1
    decreases |run|
  {
    if run == [] {
    } else {
      StepOf(db, from, run[0], id);
      var next := Apply(db, run[0]);
      assert Effects(db, run, id)[1..] == Effects(next, run[1..], id);
      if EndsClaim(EffectAt(db, run[0], id)) {
        OverStays(next, run[0].now, run[1..], id, attempt);
      } else {
        AtMostOneCompletion(next, run[0].now, run[1..], id, worker, attempt);
      }
    }
  }

  // ----- leases -----

  /** The operations a worker addresses to one claim of its own. */
  predicate CallByWorker(ev: Event, worker: string)
  {
    (ev.Ack? || ev.AckBatch? || ev.RetryUpdate? || ev.RetryDelete? || ev.Fail? || ev.Heartbeat?) && ev.worker == worker
  }

  /** While a lease is unexpired only its holder's own calls, or a cancel, change or remove the row. */
  lemma LeaseIsSafe(db: Db, from: int, s: Stamp, id: int)
    requires Sound(db, from) && from <= s.now
    requires id in db.live && db.live[id].state == Processing && LeaseHeld(db.live[id], s.now)
    requires Look(Apply(db, s), id) != Look(db, id)
    ensures s.ev.Cancel? || CallByWorker(s.ev, db.live[id].worker.value)
  {
    StepOf(db, from, s, id);
    var e := EffectAt(db, s, id);
    if s.ev.Claim? {
      ClaimIsLegal(db, id, s.ev.queue, s.ev.worker, s.ev.n, s.ev.timeout, s.now);
    }
  }

  ghost predicate NoneReleases(effects: seq<Effect>)
  {
    forall k :: 0 <= k < |effects| ==> !effects[k].Released?
  }

  lemma {:induction false} StaysProcessing(db: Db, from: int, run: seq<Stamp>, id: int)
    requires Sound(db, from) && Clocked(from, run)
    requires id in db.live && db.live[id].state == Processing
    requires NoneReleases(Effects(db, run, id))
    requires id in Run(db, run).live
    ensures Run(db, run).live[id].state == Processing
    decreases |run|
  {
    if run == [] {
    } else {
      StepOf(db, from, run[0], id);
      var next := Apply(db, run[0]);
      var effects := Effects(db, run, id);
      assert effects[1..] == Effects(next, run[1..], id) && !effects[0].Released?;
      assert forall k :: 0 <= k < |effects[1..]| ==> effects[1..][k] == effects[k + 1];
      if id !in next.live {
        NeverReenters(next, run[0].now, run[1..], id);
      } else {
        StaysProcessing(next, run[0].now, run[1..], id);
      }
    }
  }

  /** Between two claims of a job there was a retry, or the lease in force at the second claim had lapsed. */
  lemma ClaimsAreSeparated(db: Db, from: int, run: seq<Stamp>, s: Stamp, id: int, worker: string, attempt: int)
    requires Sound(db, from) && Clocked(from, run + [s]) && Current(db, id, worker, attempt)
    requires EffectAt(Run(db, run), s, id).Claimed?
    ensures || !NoneReleases(Effects(db, run, id))
            || (id in Run(db, run).live && Lapsed(Run(db, run).live[id], s.now))
  {
    RunConcat(db, from, run, [s]);
    RunIsSound(db, from, run);
    StepOf(Run(db, run), End(from, run), s, id);
    if NoneReleases(Effects(db, run, id)) {
      StaysProcessing(db, from, run, id);
    }
  }
}
