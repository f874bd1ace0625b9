/**
 The wake path: a poller compares `PRAGMA data_version` with the last value it
 saw and fans a tick out to every subscriber; a subscriber that receives one
 reads the database again and parks. Channels hold one tick.

 `data_version` is a 32-bit counter of one connection: it starts anywhere and
 moves with every commit of another connection, and with a checkpoint too.
 */
module Wakes {
  import opened Wrappers

  const VERSIONS: int := 0x1_0000_0000

  datatype Subscriber = Subscriber(
    listed: bool,       // its sender is in the map
    receiving: bool,    // its receiver has not been dropped
    tick: bool,         // the capacity-1 channel holds a tick
    parked: bool,       // waiting on the channel, having read the database
    lastRead: nat)      // the commit count at that read

  /**
   `commits` counts commits, `changes` everything that moves the version. The
   poller's connection shows `origin + changes`; `lastVersion` is what it last
   read, at change count `baseline`, or 0 when it could not read; `seen` is the
   commit count the poller has caught up with.
   */
  datatype World = World(
    commits: nat, changes: nat, origin: nat, lastVersion: int, baseline: Option<nat>, seen: nat,
    connected: bool, subs: map<nat, Subscriber>, nextId: nat)

  datatype Event =
    | Commit
    | Checkpoint
    | PollOk
    | PollLocked
    | PollError
    | StatError
    | Reconnect(newOrigin: nat)
    | ReconnectUnread(newOrigin: nat)
    | Subscribe
    | Unsubscribe(id: nat)
    | DropReceiver(id: nat)
    | Receive(id: nat)
    | Reread(id: nat)

  /** What the poller's connection answers to `PRAGMA data_version`. */
  function Version(w: World): int
  {
    (w.origin + w.changes) % VERSIONS
  }

  function Start(commits: nat, changes: nat, origin: nat): World
  {
    Rebase(World(commits, changes, origin, 0, None, 0, true, map[], 0))
  }

  /** Take the version of this moment as the new baseline. */
  function Rebase(w: World): World
  {
    w.(lastVersion := Version(w), baseline := Some(w.changes), seen := w.commits)
  }

  /** try_send to one subscriber: a full channel keeps its tick, a dropped receiver is pruned. */
  function Send(s: Subscriber): Subscriber
  {
    if !s.listed then s
    else if s.receiving then s.(tick := true)
    else s.(listed := false)
  }

  function FanOut(subs: map<nat, Subscriber>): map<nat, Subscriber>
  {
    map id | id in subs :: Send(subs[id])
  }

  function Update(w: World, id: nat, s: Subscriber): World
  {
    w.(subs := w.subs[id := s])
  }

  function Step(w: World, ev: Event): World
  {
    match ev
    case Commit => w.(commits := w.commits + 1, changes := w.changes + 1)
    case Checkpoint => w.(changes := w.changes + 1)
    case PollOk => if w.connected && Version(w) != w.lastVersion then Rebase(w).(subs := FanOut(w.subs)) else w
    case PollLocked => w
    case PollError => if w.connected then w.(connected := false, subs := FanOut(w.subs)) else w
    case StatError => w.(connected := false, subs := FanOut(w.subs))
    case Reconnect(o) => if w.connected then w else Rebase(w.(connected := true, origin := o))
    case ReconnectUnread(o) =>
      if w.connected then w else w.(connected := true, origin := o, lastVersion := 0, baseline := None)
    case Subscribe => Update(w, w.nextId, Subscriber(true, true, false, false, 0)).(nextId := w.nextId + 1)
    case Unsubscribe(id) => if id in w.subs then Update(w, id, w.subs[id].(listed := false)) else w
    case DropReceiver(id) => if id in w.subs then Update(w, id, w.subs[id].(receiving := false)) else w
    case Receive(id) =>
      if id in w.subs && w.subs[id].tick then Update(w, id, w.subs[id].(tick := false, parked := false)) else w
    case Reread(id) =>
      if id in w.subs then Update(w, id, w.subs[id].(parked := true, lastRead := w.commits)) else w
  }

  function Run(w: World, events: seq<Event>): World
    decreases |events|
  {
    if events == [] then w else Run(Step(w, events[0]), events[1..])
  }

  predicate Live(s: Subscriber)
  {
    s.listed && s.receiving
  }

  /** The subscriber waits with no tick although it last read before commit `n`. */
  predicate Missed(s: Subscriber, n: nat)
  {
    Live(s) && s.parked && s.lastRead < n && !s.tick
  }

  /** A parked live subscriber whose last read predates what the poller has seen has a tick waiting. */
  ghost predicate NoLostWake(w: World)
  {
    w.seen <= w.commits && forall id :: id in w.subs ==> !Missed(w.subs[id], w.seen)
  }

  /** No wake is lost at any point of the run. */
  ghost predicate NeverLost(w: World, events: seq<Event>)
    decreases |events|
  {
    NoLostWake(w) && (events != [] ==> NeverLost(Step(w, events[0]), events[1..]))
  }

  /** A live parked reader that is behind the database has a tick. */
  ghost predicate AllBehindWoken(w: World)
  {
    forall id :: id in w.subs ==> !Missed(w.subs[id], w.commits)
  }

  /** Whenever the run takes a new baseline on reconnecting, nobody is behind without a tick. */
  ghost predicate ReconnectsSafe(w: World, events: seq<Event>)
    decreases |events|
  {
    events == [] ||
    ((events[0].Reconnect? && !w.connected ==> AllBehindWoken(w)) && ReconnectsSafe(Step(w, events[0]), events[1..]))
  }

  /**
   Every step but a reconnect that takes a baseline keeps the guarantee:
   commits, checkpoints, polls, errors with their own wake, subscribers and
   readers, and also a reconnect that could not read the version.
   */
  lemma StepLosesNothing(w: World, ev: Event)
    requires NoLostWake(w) && !(ev.Reconnect? && !w.connected)
    ensures NoLostWake(Step(w, ev))
  {
  }

  /**
   A reconnect takes its baseline without a wake, so it keeps the guarantee
   only if nobody is behind at that moment.
   */
  lemma ReconnectSafeIff(w: World, origin: nat)
    requires NoLostWake(w) && !w.connected
    ensures NoLostWake(Step(w, Reconnect(origin))) <==> AllBehindWoken(w)
  {
  }

  /**
   No lost wake, exactly: in every interleaving of commits, checkpoints,
   answered, locked and failing polls, reconnects, subscribers coming and going,
   and readers, the guarantee holds throughout if and only if each reconnect
   finds nobody behind without a tick.
   */
  lemma {:induction false} NeverLostIff(w: World, events: seq<Event>)
    requires NoLostWake(w)
    ensures NeverLost(w, events) <==> ReconnectsSafe(w, events)
    decreases |events|
  {
    if events == [] {
    } else {
      if events[0].Reconnect? && !w.connected {
        ReconnectSafeIff(w, events[0].newOrigin);
      } else {
        StepLosesNothing(w, events[0]);
      }
      if NoLostWake(Step(w, events[0])) {
        NeverLostIff(Step(w, events[0]), events[1..]);
      }
    }
  }

  lemma {:induction false} EndOfNeverLost(w: World, events: seq<Event>)
    requires NeverLost(w, events)
    ensures NoLostWake(Run(w, events))
    decreases |events|
  {
    if events == [] {
    } else {
      EndOfNeverLost(Step(w, events[0]), events[1..]);
    }
  }

  /** The poller never reconnects; its polls answer or are transiently locked, until one fails for good. */
  ghost predicate Steady(events: seq<Event>)
  {
    forall i :: 0 <= i < |events| ==> !events[i].Reconnect?
  }

  lemma {:induction false} SteadyIsSafe(w: World, events: seq<Event>)
    requires Steady(events)
    ensures ReconnectsSafe(w, events)
    decreases |events|
  {
    if events == [] {
    } else {
      assert !events[0].Reconnect?;
      assert forall i :: 0 <= i < |events[1..]| ==> events[1..][i] == events[i + 1];
      SteadyIsSafe(Step(w, events[0]), events[1..]);
    }
  }

  /** So without reconnects no wake is ever lost. */
  lemma WakesAreNotLost(w: World, events: seq<Event>)
    requires NoLostWake(w) && Steady(events)
    ensures NeverLost(w, events)
  {
    SteadyIsSafe(w, events);
    NeverLostIff(w, events);
  }

  // ----- who is woken, and who is listed -----

  /**
   The moments that wake everybody: a poll whose version differs from the last
   one read, a poll that fails for good, and a failed identity check.
   */
  ghost predicate Notifies(w: World, ev: Event)
  {
    || (ev.PollOk? && w.connected && (w.origin + w.changes) % 0x1_0000_0000 != w.lastVersion)
    || (ev.PollError? && w.connected)
    || ev.StatError?
  }

  /**
   Each subscriber through each event. It is unlisted by its own unsubscribe,
   or when a wake finds its receiver gone, and by nothing else; a full channel
   keeps it listed. It has a tick exactly if a wake reached it since it last
   took one, and it leaves the park only by taking one.
   */
  lemma EachSubscriber(w: World, ev: Event, id: nat)
    requires id in w.subs && id < w.nextId
    ensures id in Step(w, ev).subs
    ensures var (s, t) := (w.subs[id], Step(w, ev).subs[id]);
            && (t.listed <==> s.listed && ev != Unsubscribe(id) && !(Notifies(w, ev) && !s.receiving))
            && (t.receiving <==> s.receiving && ev != DropReceiver(id))
            && (t.tick <==> (s.tick && ev != Receive(id)) || (Notifies(w, ev) && s.listed && s.receiving))
            && (t.parked <==> (s.parked && !(ev == Receive(id) && s.tick)) || ev == Reread(id))
            && (t.lastRead == if ev == Reread(id) then w.commits else s.lastRead)
  {
  }

  /** A live subscriber stays listed through any run without its own unsubscribe or the loss of its receiver. */
  lemma {:induction false} StaysListed(w: World, events: seq<Event>, id: nat)
    requires id in w.subs && id < w.nextId && Live(w.subs[id])
    requires Unsubscribe(id) !in events && DropReceiver(id) !in events
    ensures id in Run(w, events).subs && Live(Run(w, events).subs[id])
    decreases |events|
  {
    if events == [] {
    } else {
      EachSubscriber(w, events[0], id);
      StaysListed(Step(w, events[0]), events[1..], id);
    }
  }

  /** A wake leaves a tick with every live subscriber, and the tick stays until it is taken. */
  lemma TickStays(w: World, ev: Event, rest: seq<Event>, id: nat)
    requires id in w.subs && id < w.nextId && Live(w.subs[id]) && (Notifies(w, ev) || w.subs[id].tick)
    requires ev != Receive(id) && Receive(id) !in rest
    ensures id in Run(w, [ev] + rest).subs && Run(w, [ev] + rest).subs[id].tick
  {
    EachSubscriber(w, ev, id);
    RunOne(w, ev, rest);
    TickOnly(Step(w, ev), rest, id);
  }

  lemma {:induction false} TickOnly(w: World, events: seq<Event>, id: nat)
    requires id in w.subs && id < w.nextId && w.subs[id].tick && Receive(id) !in events
    ensures id in Run(w, events).subs && Run(w, events).subs[id].tick
    decreases |events|
  {
    if events == [] {
    } else {
      EachSubscriber(w, events[0], id);
      TickOnly(Step(w, events[0]), events[1..], id);
    }
  }

  /** Only a subscribe adds a subscriber: under the next id, listed and live, with an empty channel. */
  lemma EachSubscribe(w: World, ev: Event)
    ensures var v := Step(w, ev);
            && v.nextId == w.nextId + (if ev.Subscribe? then 1 else 0)
            && v.subs.Keys == w.subs.Keys + (if ev.Subscribe? then {w.nextId} else {})
            && (ev.Subscribe? ==> Live(v.subs[w.nextId]) && !v.subs[w.nextId].tick)
  {
  }

  /** The poller itself: when it is connected, and when it takes a new baseline. */
  lemma EachPoll(w: World, ev: Event)
    ensures var v := Step(w, ev);
            && (v.connected == (|| (w.connected && !ev.PollError? && !ev.StatError?)
                                || ev.Reconnect? || ev.ReconnectUnread?))
            && (v.commits == w.commits + if ev.Commit? then 1 else 0)
            && (v.changes == w.changes + if ev.Commit? || ev.Checkpoint? then 1 else 0)
            && (v.lastVersion ==
                if (ev.PollOk? && w.connected) || (ev.Reconnect? && !w.connected) then
                  (v.origin + v.changes) % 0x1_0000_0000
                else if ev.ReconnectUnread? && !w.connected then 0
                else w.lastVersion)
  {
  }

  // ----- what a poll notices -----

  /** The baseline is the version at its change count, and commits since `seen` moved the version since then. */
  ghost predicate Baselined(w: World)
  {
    w.baseline.Some? ==>
      && w.baseline.value <= w.changes && w.seen <= w.commits
      && w.commits - w.seen <= w.changes - w.baseline.value
      && w.lastVersion == (w.origin + w.baseline.value) % VERSIONS
  }

  lemma StepIsBaselined(w: World, ev: Event)
    requires Baselined(w)
    ensures Baselined(Step(w, ev))
  {
  }

  lemma {:induction false} RunIsBaselined(w: World, events: seq<Event>)
    requires Baselined(w)
    ensures Baselined(Run(w, events))
    decreases |events|
  {
    if events == [] {
    } else {
      StepIsBaselined(w, events[0]);
      RunIsBaselined(Step(w, events[0]), events[1..]);
    }
  }

  /** A poll notices, and catches up with the commits, exactly when the version did not move by a multiple of 2^32. */
  lemma PollNoticesIff(w: World)
    requires w.connected && Baselined(w) && w.baseline.Some?
    ensures Version(w) != w.lastVersion <==> (w.changes - w.baseline.value) % VERSIONS != 0
    ensures w.seen < w.commits
            ==> (Step(w, PollOk).seen == w.commits <==> (w.changes - w.baseline.value) % VERSIONS != 0)
  {
    var (a, d) := (w.origin + w.baseline.value, w.changes - w.baseline.value);
    assert w.origin + w.changes == a + d;
    ShiftsIff(a, d);
  }

  lemma ShiftsIff(a: nat, d: nat)
    ensures (a + d) % VERSIONS != a % VERSIONS <==> d % VERSIONS != 0
  {
  }

  /** An answered poll now catches up with the database. */
  predicate PollNotices(w: World)
  {
    && w.connected
    && match w.baseline
       case Some(b) => w.changes == b || (w.changes - b) % VERSIONS != 0
       case None => Version(w) != w.lastVersion
  }

  /**
   From the start, whatever ran so far, an answered poll leaves every live
   parked reader that is behind with a tick, unless the version came round by a
   multiple of 2^32, or shows 0 after a reconnect that could not read it.
   */
  lemma PollWakesAll(events: seq<Event>, start: World)
    requires NoLostWake(start) && Baselined(start) && ReconnectsSafe(start, events)
    requires PollNotices(Run(start, events))
    ensures AllBehindWoken(Step(Run(start, events), PollOk))
  {
    var w := Run(start, events);
    NeverLostIff(start, events);
    EndOfNeverLost(start, events);
    RunIsBaselined(start, events);
    if w.baseline.Some? {
      PollNoticesIff(w);
    }
  }

  // ----- a lost wake -----

  lemma RunOne(w: World, ev: Event, rest: seq<Event>)
    ensures Run(w, [ev] + rest) == Run(Step(w, ev), rest)
  {
  }

  /** A reader that has read everything and parked, beside a poller that is connected or not. */
  function Reader(connected: bool, tick: bool): World
  {
    Start(0, 0, 0).(connected := connected, subs := map[0 := Subscriber(true, true, tick, true, 0)], nextId := 1)
  }

  const SUBSCRIBE_AND_READ: seq<Event> := [Subscribe] + ([Reread(0)] + [])
  const ERROR_AND_DRAIN: seq<Event> := [PollError] + ([Receive(0)] + ([Reread(0)] + []))
  const COMMIT_AND_RECONNECT: seq<Event> := [Commit] + ([Reconnect(0)] + [])

  lemma ReaderParks()
    ensures Run(Start(0, 0, 0), SUBSCRIBE_AND_READ) == Reader(true, false)
  {
    var w := Start(0, 0, 0);
    RunOne(w, Subscribe, [Reread(0)] + []);
    RunOne(Step(w, Subscribe), Reread(0), []);
  }

  lemma ReaderDrains()
    ensures Run(Reader(true, false), ERROR_AND_DRAIN) == Reader(false, false)
  {
    var w := Reader(true, false);
    RunOne(w, PollError, [Receive(0)] + ([Reread(0)] + []));
    assert Step(w, PollError) == Reader(false, true);
    RunOne(Reader(false, true), Receive(0), [Reread(0)] + []);
    RunOne(Step(Reader(false, true), Receive(0)), Reread(0), []);
  }

  lemma ReaderIsMissed()
    ensures var w := Run(Reader(false, false), COMMIT_AND_RECONNECT);
            w.seen == 1 && 0 in w.subs && Missed(w.subs[0], 1)
  {
    var w := Reader(false, false);
    RunOne(w, Commit, [Reconnect(0)] + []);
    RunOne(Step(w, Commit), Reconnect(0), []);
  }

  lemma {:induction false} RunJoins(w: World, a: seq<Event>, b: seq<Event>)
    ensures Run(w, a + b) == Run(Run(w, a), b)
    decreases |a|
  {
    if a == [] {
      assert a + b == b;
    } else {
      assert (a + b)[1..] == a[1..] + b;
      RunJoins(Step(w, a[0]), a[1..], b);
    }
  }

  /** A commit between the error's own wake and the reconnect is lost on a reader that drained that wake in time. */
  lemma ReconnectCanLoseAWake()
    ensures !NoLostWake(Run(Start(0, 0, 0), SUBSCRIBE_AND_READ + (ERROR_AND_DRAIN + COMMIT_AND_RECONNECT)))
  {
    ReaderParks();
    ReaderDrains();
    ReaderIsMissed();
    RunJoins(Start(0, 0, 0), SUBSCRIBE_AND_READ, ERROR_AND_DRAIN + COMMIT_AND_RECONNECT);
    RunJoins(Reader(true, false), ERROR_AND_DRAIN, COMMIT_AND_RECONNECT);
  }

  // ----- the shared watcher -----

  /** The poller's state and the subscriber map it shares with `subscribe` and `unsubscribe`. */
  class SharedWatcher {
    var lastVersion: int
    ghost var baseline: Option<nat>
    ghost var seen: nat
    ghost var origin: nat
    var connected: bool
    var subs: map<nat, Subscriber>
    var nextId: nat

    ghost function View(commits: nat, changes: nat): World
      reads this
    {
      World(commits, changes, origin, lastVersion, baseline, seen, connected, subs, nextId)
    }

    /** `version` is what the new connection answers. */
    constructor (version: int, ghost commits: nat, ghost changes: nat, ghost origin: nat)
      requires version == (origin + changes) % VERSIONS
      ensures View(commits, changes) == Start(commits, changes, origin)
    {
      lastVersion, connected, subs, nextId := version, true, map[], 0;
      this.origin, baseline, seen := origin, Some(changes), commits;
    }

    /** The on_change closure: try_send to every sender, dropping those whose receiver is gone. */
    method OnChange()
      modifies `subs
      ensures subs == FanOut(old(subs))
    {
      var rest := subs.Keys;
      while rest != {}
        invariant rest <= old(subs).Keys && subs.Keys == old(subs).Keys
        invariant forall id :: id in old(subs) ==> subs[id] == if id in rest then old(subs)[id] else Send(old(subs)[id])
        decreases |rest|
      {
        var id :| id in rest;
        var s := subs[id];
        if s.listed {
          if s.receiving {
            subs := subs[id := s.(tick := true)];
          } else {
            subs := subs[id := s.(listed := false)];
          }
        }
        rest := rest - {id};
      }
    }

    /**
     One turn of `run_poll_loop`: the poll or reconnect and its outcome, then the
     identity check, whose stat may fail. `newOrigin` is where the counter of a
     connection opened now starts.
     */
    method Poll(answer: PollAnswer, statFails: bool, ghost commits: nat, ghost changes: nat, ghost newOrigin: nat)
      requires answer.Read? ==> answer.version == ((if connected then origin else newOrigin) + changes) % VERSIONS
      modifies this
      ensures var polled := Step(old(View(commits, changes)), EventOf(old(connected), answer, newOrigin));
              View(commits, changes) == if statFails then Step(polled, StatError) else polled
    {
      if connected {
        match answer
        case Read(version) =>
          if version != lastVersion {
            lastVersion := version;
            baseline, seen := Some(changes), commits;
            OnChange();
          }
        case Locked =>
        case Broken =>
          connected := false;
          OnChange();
      } else if answer.Read? {
        lastVersion := answer.version;
        origin, baseline, seen := newOrigin, Some(changes), commits;
        connected := true;
      } else if answer.Locked? {
        lastVersion := 0;
        origin, baseline := newOrigin, None;
        connected := true;
      }
      if statFails {
        connected := false;
        OnChange();
      }
    }

    method SubscribeOne(ghost commits: nat, ghost changes: nat) returns (id: nat)
      modifies `subs, `nextId
      ensures View(commits, changes) == Step(old(View(commits, changes)), Subscribe)
      ensures id == old(nextId)
    {
      id := nextId;
      nextId := nextId + 1;
      subs := subs[id := Subscriber(true, true, false, false, 0)];
    }

    method UnsubscribeOne(id: nat, ghost commits: nat, ghost changes: nat)
      modifies `subs
      ensures View(commits, changes) == Step(old(View(commits, changes)), Unsubscribe(id))
    {
      if id in subs {
        subs := subs[id := subs[id].(listed := false)];
      }
    }
  }

  /** The version was read; the connection is open but the read was refused; the connection failed. */
  datatype PollAnswer = Read(version: int) | Locked | Broken

  function EventOf(connected: bool, answer: PollAnswer, newOrigin: nat): Event
  {
    match answer
    case Read(_) => if connected then PollOk else Reconnect(newOrigin)
    case Locked => if connected then PollLocked else ReconnectUnread(newOrigin)
    case Broken => if connected then PollError else PollLocked
  }
}
