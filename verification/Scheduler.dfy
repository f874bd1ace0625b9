/**
 Scheduler ticks: which boundaries of a task one tick fires, where it leaves
 `next_fire_at`, and what any sequence of ticks delivers. `Next` is the
 next-fire calculator of one task's expression; it may fail.
 */
module Scheduler {
  import opened Wrappers
  import CronParse

  const MAX_CATCHUP_FIRES: nat := 64

  type Next = int -> Result<int>

  /** What a tick does to one due task: the boundaries enqueued, and the new next_fire_at. */
  datatype Fired = Fired(fires: seq<int>, next: int)

  /** The catch-up loop with `done` boundaries of this task already enqueued by this tick. */
  function CatchUp(next: Next, at: int, tick: int, done: nat): Result<Fired>
    requires done <= MAX_CATCHUP_FIRES
    decreases MAX_CATCHUP_FIRES - done
  {
    if at > tick then Ok(Fired([], at))
    else if done == MAX_CATCHUP_FIRES then
      (match next(tick) case Err => Err case Ok(after) => Ok(Fired([], after)))
    else
      match next(at)
      case Err => Err
      case Ok(after) =>
        match CatchUp(next, after, tick, done + 1)
        case Err => Err
        case Ok(rest) => Ok(Fired([at] + rest.fires, rest.next))
  }

  /** A whole tick on one task. */
  function TickTask(next: Next, at: int, tick: int): Result<Fired>
  {
    CatchUp(next, at, tick, 0)
  }

  ghost predicate StrictlyAfter(next: Next)
  {
    forall t :: next(t).Ok? ==> next(t).value > t
  }

  ghost predicate Increasing(s: seq<int>)
  {
    forall i, j :: 0 <= i < j < |s| ==> s[i] < s[j]
  }

  /** Fires start at next_fire_at, increase, stay within the tick and below the new next_fire_at. */
  ghost predicate InOrder(f: Fired, at: int, tick: int)
  {
    && Increasing(f.fires)
    && (forall i :: 0 <= i < |f.fires| ==> at <= f.fires[i] <= tick && f.fires[i] < f.next)
    && at <= f.next
  }

  lemma {:induction false} CatchUpInOrder(next: Next, at: int, tick: int, done: nat)
    requires done <= MAX_CATCHUP_FIRES && StrictlyAfter(next)
    requires CatchUp(next, at, tick, done).Ok?
    ensures var f := CatchUp(next, at, tick, done).value;
            && InOrder(f, at, tick)
            && f.next > tick
            && |f.fires| <= MAX_CATCHUP_FIRES - done
            && (at <= tick && done < MAX_CATCHUP_FIRES ==> |f.fires| > 0 && f.fires[0] == at)
    decreases MAX_CATCHUP_FIRES - done
  {
    if at <= tick && done < MAX_CATCHUP_FIRES {
      CatchUpInOrder(next, next(at).value, tick, done + 1);
    }
  }

  /** Ticking one task at each of `ticks` in turn; any failing tick is an error of the whole. */
  function TickAll(next: Next, at: int, ticks: seq<int>): Result<Fired>
    decreases |ticks|
  {
    if ticks == [] then Ok(Fired([], at))
    else
      match TickTask(next, at, ticks[0])
      case Err => Err
      case Ok(first) =>
        match TickAll(next, first.next, ticks[1..])
        case Err => Err
        case Ok(rest) => Ok(Fired(first.fires + rest.fires, rest.next))
  }

  /** Across any sequence of ticks a task never fires the same boundary twice, nor goes back. */
  lemma {:induction false} FiresIncreaseAcrossTicks(next: Next, at: int, ticks: seq<int>)
    requires StrictlyAfter(next) && TickAll(next, at, ticks).Ok?
    ensures var f := TickAll(next, at, ticks).value;
            && Increasing(f.fires)
            && (forall i :: 0 <= i < |f.fires| ==> at <= f.fires[i] < f.next)
            && at <= f.next
            && (forall k :: 0 <= k < |ticks| ==> f.next > ticks[k])
    decreases |ticks|
  {
    if ticks == [] {
    } else {
      CatchUpInOrder(next, at, ticks[0], 0);
      var first := TickTask(next, at, ticks[0]).value;
      FiresIncreaseAcrossTicks(next, first.next, ticks[1..]);
      assert forall k :: 0 < k < |ticks| ==> ticks[k] == ticks[1..][k - 1];
    }
  }

  /** A run of ticks some of which fail: a failing tick fires nothing and leaves next_fire_at alone. */
  function RunTicks(next: Next, at: int, ticks: seq<int>): Fired
    decreases |ticks|
  {
    if ticks == [] then Fired([], at)
    else
      var first := match TickTask(next, at, ticks[0]) case Ok(f) => f case Err => Fired([], at);
      var rest := RunTicks(next, first.next, ticks[1..]);
      Fired(first.fires + rest.fires, rest.next)
  }

  /** The ticks of the run that went through. */
  function Committed(next: Next, at: int, ticks: seq<int>): seq<int>
    decreases |ticks|
  {
    if ticks == [] then []
    else match TickTask(next, at, ticks[0])
      case Ok(f) => [ticks[0]] + Committed(next, f.next, ticks[1..])
      case Err => Committed(next, at, ticks[1..])
  }

  /** Failing ticks leave no trace: the run delivers what its committed ticks alone deliver. */
  lemma {:induction false} FailuresLeaveNoTrace(next: Next, at: int, ticks: seq<int>)
    ensures TickAll(next, at, Committed(next, at, ticks)) == Ok(RunTicks(next, at, ticks))
    decreases |ticks|
  {
    if ticks == [] {
    } else {
      match TickTask(next, at, ticks[0])
      case Ok(first) =>
        FailuresLeaveNoTrace(next, first.next, ticks[1..]);
        assert Committed(next, at, ticks)[1..] == Committed(next, first.next, ticks[1..]);
      case Err =>
        FailuresLeaveNoTrace(next, at, ticks[1..]);
        var rest := RunTicks(next, at, ticks[1..]);
        assert [] + rest.fires == rest.fires;
    }
  }

  /** A run in which every tick goes through is what `TickAll` says. */
  lemma {:induction false} AllCommitted(next: Next, at: int, ticks: seq<int>)
    requires TickAll(next, at, ticks).Ok?
    ensures TickAll(next, at, ticks) == Ok(RunTicks(next, at, ticks))
    decreases |ticks|
  {
    if ticks == [] {
    } else {
      AllCommitted(next, TickTask(next, at, ticks[0]).value.next, ticks[1..]);
    }
  }

  /** At most `k` boundaries of the chain from `at` are due at `tick`. */
  predicate AtMost(next: Next, at: int, tick: int, k: nat)
    decreases k
  {
    at > tick || (k > 0 && next(at).Ok? && AtMost(next, next(at).value, tick, k - 1))
  }

  lemma {:induction false} SplitTick(next: Next, at: int, t1: int, t2: int, d1: nat, d2: nat)
    requires StrictlyAfter(next) && t1 <= t2 && d1 <= d2 <= MAX_CATCHUP_FIRES
    requires AtMost(next, at, t2, MAX_CATCHUP_FIRES - d2)
    ensures var whole := CatchUp(next, at, t2, d2);
            var first := CatchUp(next, at, t1, d1);
            && whole.Ok? && first.Ok?
            && TickTask(next, first.value.next, t2).Ok?
            && var second := TickTask(next, first.value.next, t2).value;
               whole.value == Fired(first.value.fires + second.fires, second.next)
    decreases MAX_CATCHUP_FIRES - d2
  {
    if at > t1 {
      Uncapped(next, at, t2, d2, 0);
      var whole := CatchUp(next, at, t2, d2).value;
      assert [] + whole.fires == whole.fires;
    } else {
      var after := next(at).value;
      SplitTick(next, after, t1, t2, d1 + 1, d2 + 1);
      var first := CatchUp(next, after, t1, d1 + 1).value;
      var second := TickTask(next, first.next, t2).value;
      assert [at] + (first.fires + second.fires) == ([at] + first.fires) + second.fires;
    }
  }

  /** Below the cap the number of fires already done does not matter. */
  lemma {:induction false} Uncapped(next: Next, at: int, tick: int, d: nat, e: nat)
    requires d <= MAX_CATCHUP_FIRES && e <= d
    requires AtMost(next, at, tick, MAX_CATCHUP_FIRES - d)
    ensures CatchUp(next, at, tick, d).Ok?
    ensures CatchUp(next, at, tick, d) == CatchUp(next, at, tick, e)
    decreases MAX_CATCHUP_FIRES - d
  {
    if at <= tick {
      Uncapped(next, next(at).value, tick, d + 1, e + 1);
    }
  }

  /** Every next-fire computation the ticks below need succeeds. */
  ghost predicate Computable(next: Next)
  {
    forall t :: next(t).Ok?
  }

  /** With at most 64 boundaries due, how the time is cut into ticks does not matter. */
  lemma SplitUnderCap(next: Next, at: int, t1: int, t2: int)
    requires StrictlyAfter(next) && t1 <= t2 && AtMost(next, at, t2, MAX_CATCHUP_FIRES)
    ensures TickAll(next, at, [t1, t2]) == TickTask(next, at, t2)
  {
    SplitTick(next, at, t1, t2, 0, 0);
    TickTwice(next, at, t1, t2);
  }

  /**
   Ticking at t1 and then at t2 fires the same boundaries as ticking once at
   t2, for every earlier t1, exactly when at most 64 boundaries are due at t2.
   */
  lemma SplitIffUnderCap(next: Next, at: int, t2: int)
    requires StrictlyAfter(next) && Computable(next)
    ensures (forall t1 :: t1 <= t2 ==> TickAll(next, at, [t1, t2]) == TickTask(next, at, t2))
            <==> AtMost(next, at, t2, MAX_CATCHUP_FIRES)
  {
    if AtMost(next, at, t2, MAX_CATCHUP_FIRES) {
      forall t1 | t1 <= t2
        ensures TickAll(next, at, [t1, t2]) == TickTask(next, at, t2)
      {
        SplitUnderCap(next, at, t1, t2);
      }
    } else {
      if AtMost(next, at, t2, MAX_CATCHUP_FIRES - 1) {
        AtMostGrows(next, at, t2, MAX_CATCHUP_FIRES - 1);
      }
      FullFires(next, at, t2, 0);
      var second := next(at).value;
      FullFires(next, second, t2, 0);
      TickTwice(next, at, at, t2);
      assert CatchUp(next, second, at, 1) == Ok(Fired([], second));
      assert [at] + [] == [at];
      assert TickTask(next, at, at) == Ok(Fired([at], second));
      assert TickAll(next, at, [at, t2]) != TickTask(next, at, t2);
    }
  }

  lemma TickTwice(next: Next, at: int, t1: int, t2: int)
    requires TickTask(next, at, t1).Ok? && TickTask(next, TickTask(next, at, t1).value.next, t2).Ok?
    ensures var first := TickTask(next, at, t1).value;
            var second := TickTask(next, first.next, t2).value;
            TickAll(next, at, [t1, t2]) == Ok(Fired(first.fires + second.fires, second.next))
  {
    var first := TickTask(next, at, t1).value;
    var second := TickTask(next, first.next, t2).value;
    assert [t1, t2][1..] == [t2];
    assert [t2][1..] == [];
    assert TickAll(next, second.next, []) == Ok(Fired([], second.next));
    assert second.fires + [] == second.fires;
    assert TickAll(next, first.next, [t2]) == Ok(second);
  }

  lemma {:induction false} AtMostGrows(next: Next, at: int, tick: int, k: nat)
    requires AtMost(next, at, tick, k)
    ensures AtMost(next, at, tick, k + 1)
    decreases k
  {
    if at <= tick {
      AtMostGrows(next, next(at).value, tick, k - 1);
    }
  }

  /** A tick with a backlog past the cap fires exactly as many boundaries as the cap allows. */
  lemma {:induction false} FullFires(next: Next, at: int, tick: int, done: nat)
    requires Computable(next) && done <= MAX_CATCHUP_FIRES
    requires done < MAX_CATCHUP_FIRES ==> !AtMost(next, at, tick, MAX_CATCHUP_FIRES - 1 - done)
    ensures CatchUp(next, at, tick, done).Ok?
    ensures |CatchUp(next, at, tick, done).value.fires| == MAX_CATCHUP_FIRES - done
    decreases MAX_CATCHUP_FIRES - done
  {
    if done < MAX_CATCHUP_FIRES {
      FullFires(next, next(at).value, tick, done + 1);
    }
  }

  lemma {:induction false} FiresUpToCap(next: Next, at: int, tick: int, done: nat)
    requires done <= MAX_CATCHUP_FIRES && CatchUp(next, at, tick, done).Ok?
    ensures var (f, room) := (CatchUp(next, at, tick, done).value, MAX_CATCHUP_FIRES - done);
            var fires := f.fires;
            && |fires| <= room
            && (if AtMost(next, at, tick, room) then f.next > tick && Reaches(next, at, f.next, |fires|)
                else next(tick) == Ok(f.next))
            && (at <= tick && room > 0 ==> fires != [] && fires[0] == at)
            && (room > 0 ==> (|fires| < room <==> AtMost(next, at, tick, room - 1)))
            && (forall k: nat :: k < |fires| ==> Reaches(next, at, fires[k], k))
    decreases MAX_CATCHUP_FIRES - done
  {
    if at <= tick && done < MAX_CATCHUP_FIRES {
      var after := next(at).value;
      FiresUpToCap(next, after, tick, done + 1);
      var rest := CatchUp(next, after, tick, done + 1).value.fires;
      forall k: nat | k < |rest| + 1
        ensures Reaches(next, at, ([at] + rest)[k], k)
      {
        assert k > 0 ==> ([at] + rest)[k] == rest[k - 1];
      }
    }
  }

  /**
   A due task fires its boundaries in turn: all of them if at most 64 are due,
   which leaves it on the next one, and else the first 64, which leaves it one
   step after the tick time.
   */
  lemma CapIs64(next: Next, at: int, tick: int)
    requires at <= tick && TickTask(next, at, tick).Ok?
    ensures var f := TickTask(next, at, tick).value;
            var fires := f.fires;
            && 0 < |fires| <= 64 && fires[0] == at
            && (if AtMost(next, at, tick, 64) then f.next > tick && Reaches(next, at, f.next, |fires|)
                else next(tick) == Ok(f.next))
            && (|fires| < 64 <==> AtMost(next, at, tick, 63))
            && (forall k: nat :: k < |fires| ==> Reaches(next, at, fires[k], k))
  {
    FiresUpToCap(next, at, tick, 0);
  }

  // ----- where the catch-up skip lands -----

  /** `next` returns the least boundary strictly after its argument. */
  ghost predicate LeastAfter(next: Next, boundary: int -> bool)
  {
    forall t :: next(t).Ok? ==>
      next(t).value > t && boundary(next(t).value) && forall v :: t < v < next(t).value ==> !boundary(v)
  }

  /** `u` is reached from `at` by iterating `next`. */
  ghost predicate Reaches(next: Next, at: int, u: int, steps: nat)
    decreases steps
  {
    if steps == 0 then at == u else next(at).Ok? && Reaches(next, next(at).value, u, steps - 1)
  }

  /** `u` is one of the instants iterating `next` from `at` reaches. */
  ghost predicate OnChain(next: Next, at: int, u: int)
  {
    exists steps: nat :: Reaches(next, at, u, steps)
  }

  /** With least-boundary next-fire, skipping from the tick time lands on the chain that iterating would reach. */
  lemma {:induction false} SkipLandsOnChain(next: Next, boundary: int -> bool, at: int, tick: int)
    requires LeastAfter(next, boundary) && at <= tick
    requires forall t :: at <= t <= tick ==> next(t).Ok?
    ensures OnChain(next, at, next(tick).value)
    decreases tick - at
  {
    var after := next(at).value;
    if after > tick {
      assert next(tick).value == after by {
        assert boundary(after) && boundary(next(tick).value);
      }
      assert Reaches(next, after, after, 0);
      assert Reaches(next, at, after, 1);
    } else {
      SkipLandsOnChain(next, boundary, after, tick);
      var steps: nat :| Reaches(next, after, next(tick).value, steps);
      assert Reaches(next, at, next(tick).value, steps + 1);
    }
  }

  /** `u` is the least boundary after `t`. */
  ghost predicate IsLeastAfter(boundary: int -> bool, t: int, u: int)
  {
    u > t && boundary(u) && forall v :: t < v < u ==> !boundary(v)
  }

  /** `fires` are the first boundaries of [at, tick], all of them or `cap`. */
  ghost predicate FirstBoundaries(boundary: int -> bool, at: int, tick: int, cap: nat, fires: seq<int>)
  {
    && Increasing(fires) && |fires| <= cap
    && (forall u :: u in fires ==> at <= u <= tick && boundary(u))
    && (forall u :: at <= u <= tick && boundary(u) && u !in fires ==>
          |fires| == cap && forall w :: w in fires ==> w < u)
  }

  /**
   What a tick delivers. Started on a boundary, it fires the first boundaries
   up to the tick time, in order, all of them unless there are more than 64,
   and leaves next_fire_at on the first boundary after the tick.
   */
  lemma {:induction false} CatchUpFiresFirstBoundaries(next: Next, boundary: int -> bool, at: int, tick: int, done: nat)
    requires done <= MAX_CATCHUP_FIRES && LeastAfter(next, boundary) && boundary(at)
    requires CatchUp(next, at, tick, done).Ok?
    ensures var f := CatchUp(next, at, tick, done).value;
            && FirstBoundaries(boundary, at, tick, MAX_CATCHUP_FIRES - done, f.fires)
            && (at <= tick ==> IsLeastAfter(boundary, tick, f.next))
            && (at > tick ==> f.next == at)
    decreases MAX_CATCHUP_FIRES - done
  {
    if at <= tick && done < MAX_CATCHUP_FIRES {
      var after := next(at).value;
      CatchUpFiresFirstBoundaries(next, boundary, after, tick, done + 1);
      ConsBoundaries(
        boundary, at, after, tick, MAX_CATCHUP_FIRES - done, CatchUp(next, after, tick, done + 1).value.fires);
    }
  }

  lemma ConsBoundaries(boundary: int -> bool, at: int, after: int, tick: int, cap: nat, rest: seq<int>)
    requires boundary(at) && at <= tick && IsLeastAfter(boundary, at, after) && cap > 0
    requires FirstBoundaries(boundary, after, tick, cap - 1, rest)
    ensures FirstBoundaries(boundary, at, tick, cap, [at] + rest)
  {
    var fires := [at] + rest;
    forall i, j | 0 <= i < j < |fires|
      ensures fires[i] < fires[j]
    {
      assert fires[j] == rest[j - 1] && rest[j - 1] in rest;
      assert i > 0 ==> fires[i] == rest[i - 1];
    }
    assert forall u :: u in fires <==> u == at || u in rest;
  }

  /** Under the cap nothing is skipped: the fires are exactly the boundaries due. */
  lemma {:induction false} UnderCapFiresAll(next: Next, boundary: int -> bool, at: int, tick: int, done: nat)
    requires done <= MAX_CATCHUP_FIRES && LeastAfter(next, boundary) && boundary(at)
    requires AtMost(next, at, tick, MAX_CATCHUP_FIRES - done)
    ensures CatchUp(next, at, tick, done).Ok?
    ensures var f := CatchUp(next, at, tick, done).value;
            forall u :: u in f.fires <==> at <= u <= tick && boundary(u)
    decreases MAX_CATCHUP_FIRES - done
  {
    if at <= tick {
      var after := next(at).value;
      UnderCapFiresAll(next, boundary, after, tick, done + 1);
      var rest := CatchUp(next, after, tick, done + 1).value.fires;
      assert CatchUp(next, at, tick, done).value.fires == [at] + rest;
      assert forall u :: u in [at] + rest <==> u == at || u in rest;
    }
  }

  /** No committed tick of the run finds more than 64 boundaries due. */
  ghost predicate NeverCapped(next: Next, at: int, ticks: seq<int>)
    decreases |ticks|
  {
    ticks == [] ||
    match TickTask(next, at, ticks[0])
    case Ok(f) => AtMost(next, at, ticks[0], MAX_CATCHUP_FIRES) && NeverCapped(next, f.next, ticks[1..])
    case Err => NeverCapped(next, at, ticks[1..])
  }

  /** `fires` are exactly the boundaries from `at` up to `end`, in order. */
  ghost predicate AllBetween(boundary: int -> bool, at: int, end: int, fires: seq<int>)
  {
    at <= end && Increasing(fires) && forall u :: u in fires <==> at <= u < end && boundary(u)
  }

  lemma JoinBetween(boundary: int -> bool, at: int, mid: int, end: int, a: seq<int>, b: seq<int>)
    requires AllBetween(boundary, at, mid, a) && AllBetween(boundary, mid, end, b)
    ensures AllBetween(boundary, at, end, a + b)
  {
    assert forall i :: 0 <= i < |a| ==> a[i] in a;
    assert forall i :: 0 <= i < |b| ==> b[i] in b;
  }

  /** One tick under the cap. */
  lemma TickFiresAllBetween(next: Next, boundary: int -> bool, at: int, tick: int)
    requires LeastAfter(next, boundary) && boundary(at) && AtMost(next, at, tick, MAX_CATCHUP_FIRES)
    ensures TickTask(next, at, tick).Ok?
    ensures var f := TickTask(next, at, tick).value; AllBetween(boundary, at, f.next, f.fires) && boundary(f.next)
  {
    UnderCapFiresAll(next, boundary, at, tick, 0);
    CatchUpFiresFirstBoundaries(next, boundary, at, tick, 0);
  }

  /**
   Exactly once. Over any run of ticks, failing ones included, none of which
   finds more than 64 boundaries due, the fires are exactly the boundaries from
   the first next_fire_at up to the last one, each once and in order.
   */
  lemma {:induction false} EveryBoundaryFiresOnce(next: Next, boundary: int -> bool, at: int, ticks: seq<int>)
    requires LeastAfter(next, boundary) && boundary(at) && NeverCapped(next, at, ticks)
    ensures var f := RunTicks(next, at, ticks); AllBetween(boundary, at, f.next, f.fires) && boundary(f.next)
    decreases |ticks|
  {
    if ticks == [] {
    } else {
      match TickTask(next, at, ticks[0])
      case Ok(first) =>
        TickFiresAllBetween(next, boundary, at, ticks[0]);
        EveryBoundaryFiresOnce(next, boundary, first.next, ticks[1..]);
        var rest := RunTicks(next, first.next, ticks[1..]);
        JoinBetween(boundary, at, first.next, rest.next, first.fires, rest.fires);
      case Err =>
        EveryBoundaryFiresOnce(next, boundary, at, ticks[1..]);
        var rest := RunTicks(next, at, ticks[1..]);
        assert [] + rest.fires == rest.fires;
    }
  }

  // ----- interval schedules -----

  /** The `@every` calculator: a fixed step from whatever instant it is given, unless it overflows. */
  function Every(interval: int): Next
  {
    (t: int) => if t + interval > CronParse.I64_MAX then Err else Ok(t + interval)
  }

  lemma {:induction false} EveryReaches(interval: int, at: int, u: int, steps: nat)
    requires interval > 0
    ensures Reaches(Every(interval), at, u, steps)
            <==> u == at + steps * interval && (steps > 0 ==> u <= CronParse.I64_MAX)
    decreases steps
  {
    if steps == 0 {
    } else {
      EveryReaches(interval, at + interval, u, steps - 1);
      assert at + interval + (steps - 1) * interval == at + steps * interval;
      assert steps > 1 ==> (steps - 1) * interval > 0;
    }
  }

  /** One step from the tick time stays on the chain exactly when the tick is a whole number of steps away. */
  lemma StepFromTickOnChainIff(interval: int, at: int, tick: int)
    requires interval > 0 && at <= tick && tick + interval <= CronParse.I64_MAX
    ensures OnChain(Every(interval), at, tick + interval) <==> (tick - at) % interval == 0
  {
    var u := tick + interval;
    if (tick - at) % interval == 0 {
      var k: nat := (tick - at) / interval;
      assert u == at + (k + 1) * interval by {
        assert tick - at == interval * k;
        assert (k + 1) * interval == k * interval + interval;
      }
      EveryReaches(interval, at, u, k + 1);
    }
    forall steps: nat | Reaches(Every(interval), at, u, steps)
      ensures (tick - at) % interval == 0
    {
      EveryReaches(interval, at, u, steps);
      assert tick - at == (steps - 1) * interval;
      MultipleHasNoRemainder(steps - 1, interval);
    }
  }

  /**
   A tick on an interval schedule: with room under the cap it ends on its
   chain, else one step after the tick time.
   */
  lemma {:induction false} EveryCatchUp(interval: int, at: int, tick: int, done: nat)
    requires interval > 0 && done <= MAX_CATCHUP_FIRES && CatchUp(Every(interval), at, tick, done).Ok?
    ensures var f := CatchUp(Every(interval), at, tick, done).value;
            && (tick - at < (MAX_CATCHUP_FIRES - done) * interval ==> OnChain(Every(interval), at, f.next))
            && (tick - at >= (MAX_CATCHUP_FIRES - done) * interval ==> f.next == tick + interval <= CronParse.I64_MAX)
    decreases MAX_CATCHUP_FIRES - done
  {
    var next, room := Every(interval), MAX_CATCHUP_FIRES - done;
    if at > tick {
      assert 0 <= room * interval;
      assert Reaches(next, at, at, 0);
    } else if room == 0 {
      assert room * interval == 0;
    } else {
      var after := at + interval;
      assert next(at) == Ok(after);
      EveryCatchUp(interval, after, tick, done + 1);
      assert room * interval == (room - 1) * interval + interval;
      var u := CatchUp(next, after, tick, done + 1).value.next;
      if OnChain(next, after, u) {
        var steps: nat :| Reaches(next, after, u, steps);
        assert Reaches(next, at, u, steps + 1);
      }
    }
  }

  /**
   Where a tick leaves an interval schedule: on the chain of its own boundaries
   if and only if it was not capped, or the tick time is a whole number of
   steps away. Otherwise the skip starts a new chain at the tick time.
   */
  lemma EverySkipOnChainIff(interval: int, at: int, tick: int)
    requires interval > 0 && at <= tick && TickTask(Every(interval), at, tick).Ok?
    ensures OnChain(Every(interval), at, TickTask(Every(interval), at, tick).value.next)
            <==> tick - at < 64 * interval || (tick - at) % interval == 0
  {
    EveryCatchUp(interval, at, tick, 0);
    if tick - at >= MAX_CATCHUP_FIRES * interval {
      StepFromTickOnChainIff(interval, at, tick);
    }
  }

  lemma {:induction false} EveryTickSucceeds(interval: int, at: int, tick: int, done: nat)
    requires interval > 0 && done <= MAX_CATCHUP_FIRES && tick + interval <= CronParse.I64_MAX
    ensures CatchUp(Every(interval), at, tick, done).Ok?
    decreases MAX_CATCHUP_FIRES - done
  {
    if at > tick || done == MAX_CATCHUP_FIRES {
    } else {
      EveryTickSucceeds(interval, at + interval, tick, done + 1);
    }
  }

  /** `@every 2s` due at 0 and ticked at 129: the skip goes to 131, and no iteration from 0 ever gets there. */
  lemma EverySkipLeavesChain()
    ensures TickTask(Every(2), 0, 129).Ok? && TickTask(Every(2), 0, 129).value.next == 131
    ensures !OnChain(Every(2), 0, 131)
  {
    EveryTickSucceeds(2, 0, 129, 0);
    EveryCatchUp(2, 0, 129, 0);
    EverySkipOnChainIff(2, 0, 129);
  }

  lemma {:induction false} MultipleHasNoRemainder(k: int, n: int)
    requires n > 0
    ensures k * n % n == 0
  {
    var q, r := k * n / n, k * n % n;
    OnlyZero(k - q, n, r) by {
      assert (k - q) * n == k * n - q * n;
      assert k * n == n * q + r;
    }
  }

  lemma OnlyZero(a: int, n: int, r: int)
    requires 0 <= r < n && a * n == r
    ensures r == 0
  {
  }
}
