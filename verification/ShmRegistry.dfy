/**
 The registry of `-shm` descriptors. Closing any descriptor of an inode drops
 every POSIX lock the process holds on it, so a descriptor may be closed only
 when its inode has no name left and no watcher holds it.
 */
module ShmRegistry {
  import opened Wrappers
  import Ranking

  const MAX_RETAINED: nat := 256

  /** (dev, ino). */
  type Inode = (int, int)

  /** A file object of the kernel: its inode number and how many names it has. */
  datatype File = File(inode: Inode, links: nat)

  /** A descriptor of this process, open on a file. */
  datatype Fd = Fd(id: nat, file: nat)

  /**
   The registry (`live`, `extra`), the kernel's files and this process's open
   descriptors, the watchers' own clones of each, and what was closed so far.
   */
  datatype World = World(
    live: map<Inode, Fd>,
    extra: seq<Fd>,
    files: map<nat, File>,
    open: set<Fd>,
    holders: map<nat, nat>,
    closed: set<Fd>,
    nextFd: nat)

  function Holders(holders: map<nat, nat>, fd: Fd): nat
  {
    if fd.id in holders then holders[fd.id] else 0
  }

  /** The link count, or None when fstat fails. */
  function LinkCount(w: World, fd: Fd, fstatFails: set<nat>): Option<nat>
  {
    if fd.id in fstatFails || fd.file !in w.files then None else Some(w.files[fd.file].links)
  }

  /** `retain`: some watcher holds it, or its inode is not provably gone. */
  predicate Keep(w: World, fd: Fd, fstatFails: set<nat>)
  {
    Holders(w.holders, fd) > 0 || LinkCount(w, fd, fstatFails) != Some(0)
  }

  function KeptExtra(w: World, extra: seq<Fd>, fstatFails: set<nat>): seq<Fd>
  {
    if extra == [] then []
    else
      var rest := KeptExtra(w, extra[..|extra| - 1], fstatFails);
      if Keep(w, extra[|extra| - 1], fstatFails) then rest + [extra[|extra| - 1]] else rest
  }

  function KeptLive(w: World, fstatFails: set<nat>): map<Inode, Fd>
  {
    map k | k in w.live && Keep(w, w.live[k], fstatFails) :: w.live[k]
  }

  /** The descriptors `retain` drops, and so closes. */
  function Dropped(w: World, fstatFails: set<nat>): set<Fd>
  {
    (set k | k in w.live && !Keep(w, w.live[k], fstatFails) :: w.live[k])
    + (set i | 0 <= i < |w.extra| && !Keep(w, w.extra[i], fstatFails) :: w.extra[i])
  }

  function Reclaim(w: World, fstatFails: set<nat>): World
  {
    w.(live := KeptLive(w, fstatFails), extra := KeptExtra(w, w.extra, fstatFails),
       open := w.open - Dropped(w, fstatFails), closed := w.closed + Dropped(w, fstatFails))
  }

  function Hold(w: World, fd: Fd): World
  {
    w.(holders := w.holders[fd.id := Holders(w.holders, fd) + 1])
  }

  /** `path` was stat'ed before the lock; `target` is the file an open of it yields, if it succeeds. */
  datatype Request = Request(statted: Option<Inode>, target: Option<nat>, identified: bool, fstatFails: set<nat>)

  predicate Opens(w: World, target: Option<nat>)
  {
    target.Some? && target.value in w.files && w.files[target.value].links > 0
  }

  /** A newly opened descriptor filed in `extra`, or shared under a free inode. */
  function Filed(w: World, file: nat, shared: bool): World
    requires file in w.files
  {
    var fd := Fd(w.nextFd, file);
    var n := w.(nextFd := w.nextFd + 1, open := w.open + {fd});
    if shared then n.(live := n.live[w.files[file].inode := fd]) else n.(extra := n.extra + [fd])
  }

  /** Share what is on file, refuse past the cap, else open and file it; a lost race returns the winner. */
  function Lookup(w: World, r: Request): (World, Option<Fd>)
  {
    if r.statted.Some? && r.statted.value in w.live then
      (Hold(w, w.live[r.statted.value]), Some(w.live[r.statted.value]))
    else if |w.live| + |w.extra| >= MAX_RETAINED || !Opens(w, r.target) then (w, None)
    else
      var file := r.target.value;
      var inode := w.files[file].inode;
      var taken := r.identified && inode in w.live;
      var fd := if taken then w.live[inode] else Fd(w.nextFd, file);
      (Hold(Filed(w, file, r.identified && !taken), fd), Some(fd))
  }

  /** `acquire_shm_fd`: reclaim, then look up. */
  function Acquire(w: World, r: Request): (World, Option<Fd>)
  {
    Lookup(Reclaim(w, r.fstatFails), r)
  }

  datatype Event =
    | Get(request: Request)
    | DropClone(id: nat)
    | Create(file: nat, inode: Inode)
    | Link(file: nat)
    | Unlink(file: nat)

  /** The kernel cannot give a new file the inode number of one that still has a name or an open descriptor. */
  predicate Present(files: map<nat, File>, open: set<Fd>, file: nat)
  {
    file in files && (files[file].links > 0 || exists fd :: fd in open && fd.file == file)
  }

  predicate Free(files: map<nat, File>, open: set<Fd>, inode: Inode)
  {
    forall f :: f in files && Present(files, open, f) ==> files[f].inode != inode
  }

  function Step(w: World, ev: Event): World
  {
    match ev
    case Get(request) => Acquire(w, request).0
    case DropClone(id) =>
      if id in w.holders && w.holders[id] > 0 then w.(holders := w.holders[id := w.holders[id] - 1]) else w
    case Create(file, inode) =>
      if file !in w.files && Free(w.files, w.open, inode) then w.(files := w.files[file := File(inode, 1)]) else w
    case Link(file) =>
      if file in w.files && w.files[file].links > 0 then
        w.(files := w.files[file := w.files[file].(links := w.files[file].links + 1)])
      else w
    case Unlink(file) =>
      if file in w.files && w.files[file].links > 0 then
        w.(files := w.files[file := w.files[file].(links := w.files[file].links - 1)])
      else w
  }

  function Run(w: World, events: seq<Event>): World
    decreases |events|
  {
    if events == [] then w else Run(Step(w, events[0]), events[1..])
  }

  /** No descriptor was closed while its inode had a name or a watcher held it. */
  ghost predicate NothingClosedEarly(closed: set<Fd>, holders: map<nat, nat>, files: map<nat, File>)
  {
    forall fd :: fd in closed ==> Holders(holders, fd) == 0 && fd.file in files && files[fd.file].links == 0
  }

  /** Every held descriptor is still open. */
  ghost predicate HeldAreOpen(open: set<Fd>, holders: map<nat, nat>)
  {
    forall id :: id in holders && holders[id] > 0 ==> exists fd :: fd in open && fd.id == id
  }

  /** Each descriptor number stands for one descriptor, open or closed. */
  ghost predicate Numbered(open: set<Fd>, closed: set<Fd>, holders: map<nat, nat>, files: map<nat, File>, nextFd: nat)
  {
    && (forall a, b :: a in open + closed && b in open + closed && a.id == b.id ==> a == b)
    && (forall fd :: fd in open + closed ==> fd.id < nextFd && fd.file in files)
    && open !! closed
    && (forall id :: id in holders ==> id < nextFd)
  }

  predicate Shared(live: map<Inode, Fd>, fd: Fd)
  {
    exists k :: k in live && live[k] == fd
  }

  /** The registry keeps exactly the open descriptors; a shared one is filed under its own inode. */
  ghost predicate Registered(live: map<Inode, Fd>, extra: seq<Fd>, open: set<Fd>, files: map<nat, File>)
  {
    && (forall fd :: fd in open <==> fd in extra || Shared(live, fd))
    && (forall k :: k in live ==> live[k].file in files && files[live[k].file].inode == k)
    && |live| + |extra| <= MAX_RETAINED
  }

  /** No two files in use share an inode number. */
  ghost predicate UniqueInodes(files: map<nat, File>, open: set<Fd>)
  {
    forall f, g :: Present(files, open, f) && Present(files, open, g) && files[f].inode == files[g].inode ==> f == g
  }

  ghost predicate Descriptors(w: World)
  {
    && NothingClosedEarly(w.closed, w.holders, w.files) && HeldAreOpen(w.open, w.holders)
    && Numbered(w.open, w.closed, w.holders, w.files, w.nextFd)
  }

  ghost predicate Safe(w: World)
  {
    && Descriptors(w)
    && Registered(w.live, w.extra, w.open, w.files)
    && UniqueInodes(w.files, w.open)
  }

  const EMPTY := World(map[], [], map[], {}, map[], {}, 0)

  // ----- reclaiming -----

  lemma {:induction false} KeptExtraIs(w: World, extra: seq<Fd>, fstatFails: set<nat>)
    ensures |KeptExtra(w, extra, fstatFails)| <= |extra|
    ensures forall fd :: fd in KeptExtra(w, extra, fstatFails) <==> fd in extra && Keep(w, fd, fstatFails)
  {
    if extra == [] {
    } else {
      KeptExtraIs(w, extra[..|extra| - 1], fstatFails);
      assert extra == extra[..|extra| - 1] + [extra[|extra| - 1]];
    }
  }

  lemma DroppedIff(w: World, fstatFails: set<nat>, fd: Fd)
    requires Registered(w.live, w.extra, w.open, w.files)
    ensures fd in Dropped(w, fstatFails) <==> fd in w.open && !Keep(w, fd, fstatFails)
  {
  }

  lemma ReclaimRegistered(w: World, fstatFails: set<nat>)
    requires Registered(w.live, w.extra, w.open, w.files)
    ensures var r := Reclaim(w, fstatFails); Registered(r.live, r.extra, r.open, r.files)
  {
    var r := Reclaim(w, fstatFails);
    KeptExtraIs(w, w.extra, fstatFails);
    forall fd
      ensures fd in r.open <==> fd in r.extra || Shared(r.live, fd)
    {
      DroppedIff(w, fstatFails, fd);
      if fd in r.open && fd !in r.extra {
        var k :| k in w.live && w.live[k] == fd;
        assert k in r.live && r.live[k] == fd;
      }
    }
    Ranking.SubsetCard(r.live.Keys, w.live.Keys);
    assert |r.live| == |r.live.Keys| && |w.live| == |w.live.Keys|;
  }

  lemma ReclaimIsSafe(w: World, fstatFails: set<nat>)
    requires Safe(w)
    ensures Safe(Reclaim(w, fstatFails))
  {
    var r := Reclaim(w, fstatFails);
    ReclaimRegistered(w, fstatFails);
    forall fd
      ensures fd in r.open <==> fd in w.open && Keep(w, fd, fstatFails)
      ensures fd in r.closed <==> fd in w.closed || (fd in w.open && !Keep(w, fd, fstatFails))
    {
      DroppedIff(w, fstatFails, fd);
    }
    CloseDropped(w, r, fstatFails);
    FewerPresent(w, r);
  }

  lemma FewerPresent(w: World, r: World)
    requires UniqueInodes(w.files, w.open) && r.files == w.files && r.open <= w.open
    ensures UniqueInodes(r.files, r.open)
  {
  }

  lemma CloseDropped(w: World, r: World, fstatFails: set<nat>)
    requires Descriptors(w)
    requires r.files == w.files && r.holders == w.holders && r.nextFd == w.nextFd
    requires forall fd :: fd in r.open <==> fd in w.open && Keep(w, fd, fstatFails)
    requires forall fd :: fd in r.closed <==> fd in w.closed || (fd in w.open && !Keep(w, fd, fstatFails))
    ensures Descriptors(r)
  {
  }

  // ----- acquiring -----

  lemma HoldIsSafe(w: World, fd: Fd)
    requires Safe(w) && fd in w.open
    ensures Safe(Hold(w, fd))
  {
  }

  lemma SharedIsRegistered(live: map<Inode, Fd>, extra: seq<Fd>, open: set<Fd>, files: map<nat, File>, fd: Fd)
    requires Registered(live, extra, open, files) && |live| + |extra| < MAX_RETAINED
    requires fd.file in files && files[fd.file].inode !in live
    ensures Registered(live[files[fd.file].inode := fd], extra, open + {fd}, files)
  {
    var inode := files[fd.file].inode;
    var live' := live[inode := fd];
    assert live'.Keys == live.Keys + {inode};
    assert |live'| == |live| + 1;
    forall x
      ensures Shared(live', x) <==> x == fd || Shared(live, x)
    {
      if x == fd {
        assert inode in live' && live'[inode] == x;
      }
      if Shared(live, x) {
        var k :| k in live && live[k] == x;
        assert k in live' && live'[k] == x;
      }
      if Shared(live', x) && x != fd {
        var k :| k in live' && live'[k] == x;
        assert k in live && live[k] == x;
      }
    }
  }

  lemma ExtraIsRegistered(live: map<Inode, Fd>, extra: seq<Fd>, open: set<Fd>, files: map<nat, File>, fd: Fd)
    requires Registered(live, extra, open, files) && |live| + |extra| < MAX_RETAINED
    ensures Registered(live, extra + [fd], open + {fd}, files)
  {
  }

  lemma FiledIsSafe(w: World, file: nat, shared: bool)
    requires Safe(w) && file in w.files && w.files[file].links > 0 && |w.live| + |w.extra| < MAX_RETAINED
    requires shared ==> w.files[file].inode !in w.live
    ensures Safe(Filed(w, file, shared))
  {
    var f := Filed(w, file, shared);
    if shared {
      SharedIsRegistered(w.live, w.extra, w.open, w.files, Fd(w.nextFd, file));
    } else {
      ExtraIsRegistered(w.live, w.extra, w.open, w.files, Fd(w.nextFd, file));
    }
    OpenOne(w, f, Fd(w.nextFd, file));
    assert forall g :: Present(f.files, f.open, g) ==> Present(w.files, w.open, g);
  }

  lemma OpenOne(w: World, f: World, fd: Fd)
    requires Descriptors(w)
    requires f.files == w.files && f.holders == w.holders && f.closed == w.closed
    requires f.open == w.open + {fd} && fd.id == w.nextFd && f.nextFd == w.nextFd + 1 && fd.file in w.files
    ensures Descriptors(f)
  {
  }

  /**
   The descriptor is open, held, and of the file that was opened or of the
   one file in use with the inode asked for.
   */
  ghost predicate Answers(w: World, r: Request, fd: Fd)
  {
    && fd in w.open && Holders(w.holders, fd) > 0 && fd.file in w.files
    && (|| r.target == Some(fd.file)
        || (r.statted == Some(w.files[fd.file].inode)
            && forall f :: Present(w.files, w.open, f) && w.files[f].inode == r.statted.value ==> f == fd.file))
  }

  lemma SharedAnswers(w: World, r: Request, inode: Inode)
    requires Safe(w) && inode in w.live && r.statted == Some(inode)
    ensures Answers(Hold(w, w.live[inode]), r, w.live[inode])
  {
  }

  /** A lost race: the descriptor on file is open on the same file as the one just opened. */
  lemma WinnerIsSameFile(w: World, file: nat)
    requires Safe(w) && Opens(w, Some(file)) && w.files[file].inode in w.live
    ensures w.live[w.files[file].inode].file == file
  {
  }

  lemma LookupIsSafe(w: World, r: Request)
    requires Safe(w)
    ensures Safe(Lookup(w, r).0)
    ensures Lookup(w, r).1.Some? ==> Answers(Lookup(w, r).0, r, Lookup(w, r).1.value)
  {
    if r.statted.Some? && r.statted.value in w.live {
      HoldIsSafe(w, w.live[r.statted.value]);
      SharedAnswers(w, r, r.statted.value);
    } else if |w.live| + |w.extra| < MAX_RETAINED && Opens(w, r.target) {
      var file := r.target.value;
      var inode := w.files[file].inode;
      var taken := r.identified && inode in w.live;
      var fd := if taken then w.live[inode] else Fd(w.nextFd, file);
      var f := Filed(w, file, r.identified && !taken);
      if taken {
        WinnerIsSameFile(w, file);
      }
      FiledIsSafe(w, file, r.identified && !taken);
      assert fd in f.open && fd.file == file;
      HoldIsSafe(f, fd);
      assert Answers(Hold(f, fd), r, fd);
    }
  }

  /** An acquire keeps every rule, and answers with a descriptor the caller now holds. */
  lemma AcquireIsSafe(w: World, r: Request)
    requires Safe(w)
    ensures Safe(Acquire(w, r).0)
    ensures Acquire(w, r).1.Some? ==> Answers(Acquire(w, r).0, r, Acquire(w, r).1.value)
  {
    ReclaimIsSafe(w, r.fstatFails);
    LookupIsSafe(Reclaim(w, r.fstatFails), r);
  }

  // ----- what an acquire closes, opens and answers -----

  /** No watcher holds the descriptor and fstat says that its file has no name left. */
  ghost predicate Reclaimable(w: World, r: Request, fd: Fd)
  {
    && (fd.id in w.holders ==> w.holders[fd.id] == 0)
    && fd.id !in r.fstatFails && fd.file in w.files && w.files[fd.file].links == 0
  }

  /** What the reclaim at the start of an acquire does: it closes exactly the reclaimable descriptors. */
  lemma ReclaimedIff(w: World, r: Request, fd: Fd)
    requires Safe(w)
    ensures var after := Reclaim(w, r.fstatFails);
            && (fd in after.closed <==> fd in w.closed || (fd in w.open && Reclaimable(w, r, fd)))
            && (fd in after.open <==> fd in w.open && !Reclaimable(w, r, fd))
            && (fd in after.extra <==> fd in w.extra && !Reclaimable(w, r, fd))
    ensures forall k :: k in Reclaim(w, r.fstatFails).live <==> k in w.live && !Reclaimable(w, r, w.live[k])
    ensures forall k :: k in Reclaim(w, r.fstatFails).live ==> Reclaim(w, r.fstatFails).live[k] == w.live[k]
  {
    DroppedIff(w, r.fstatFails, fd);
    KeptExtraIs(w, w.extra, r.fstatFails);
  }

  /** A descriptor is on file under the inode the path showed, and is not reclaimed. */
  ghost predicate OnFile(w: World, r: Request)
  {
    r.statted.Some? && r.statted.value in w.live && !Reclaimable(w, r, w.live[r.statted.value])
  }

  /**
   When an acquire succeeds: the descriptor is on file, or fewer than 256 are
   left after the reclaim and the path can be opened.
   */
  lemma AcquireSucceedsIff(w: World, r: Request)
    requires Safe(w)
    ensures var left := Reclaim(w, r.fstatFails);
            Acquire(w, r).1.Some? <==>
              || OnFile(w, r)
              || (&& |left.live| + |left.extra| < 256
                  && r.target.Some? && r.target.value in w.files && w.files[r.target.value].links > 0)
  {
    if r.statted.Some? && r.statted.value in w.live {
      ReclaimedIff(w, r, w.live[r.statted.value]);
    }
  }

  /** Every watcher's count stays, but for one more clone of the descriptor the acquire answers with. */
  lemma AcquireCounts(w: World, r: Request, fd: Fd)
    requires Safe(w) && fd.id < w.nextFd
    ensures var (after, answer) := Acquire(w, r);
            Holders(after.holders, fd)
            == Holders(w.holders, fd) + if answer.Some? && answer.value.id == fd.id then 1 else 0
  {
  }

  /**
   Sharing: a path whose descriptor is on file is answered with that one and
   nothing is opened, else one descriptor is opened. A path acquired again under
   the inode it opened is answered with the same descriptor.
   */
  lemma AcquireShares(w: World, r: Request)
    requires Safe(w) && Acquire(w, r).1.Some?
    ensures var (after, fd) := Acquire(w, r);
            && (OnFile(w, r) ==> fd.value == w.live[r.statted.value] && after.nextFd == w.nextFd)
            && (!OnFile(w, r) ==> after.nextFd == w.nextFd + 1 && fd.value.file == r.target.value)
            && (!OnFile(w, r) && !r.identified ==> after.live == Reclaim(w, r.fstatFails).live)
            && (!OnFile(w, r) && r.identified ==>
                  var again := Acquire(after, r.(statted := Some(w.files[r.target.value].inode)));
                  again.1 == fd && again.0.nextFd == after.nextFd)
  {
    if r.statted.Some? && r.statted.value in w.live {
      ReclaimedIff(w, r, w.live[r.statted.value]);
    }
    if !OnFile(w, r) {
      ReclaimIsSafe(w, r.fstatFails);
      OpenedAgain(Reclaim(w, r.fstatFails), r);
    }
  }

  lemma OpenedAgain(w: World, r: Request)
    requires Safe(w) && Lookup(w, r).1.Some? && !(r.statted.Some? && r.statted.value in w.live)
    ensures var (after, fd) := Lookup(w, r);
            && after.nextFd == w.nextFd + 1 && fd.value.file == r.target.value
            && (r.identified ==>
                  var again := Acquire(after, r.(statted := Some(w.files[r.target.value].inode)));
                  again.1 == fd && again.0.nextFd == after.nextFd)
  {
    var (after, fd) := Lookup(w, r);
    var inode := w.files[r.target.value].inode;
    LookupIsSafe(w, r);
    if inode in w.live {
      WinnerIsSameFile(w, r.target.value);
    }
    if r.identified {
      assert inode in after.live && after.live[inode] == fd.value;
      FoundAgain(after, r.(statted := Some(inode)), inode);
    }
  }

  /** A held descriptor on file under the inode the path shows is the answer, and nothing is opened. */
  lemma FoundAgain(w: World, r: Request, inode: Inode)
    requires Safe(w) && r.statted == Some(inode) && inode in w.live && Holders(w.holders, w.live[inode]) > 0
    ensures Acquire(w, r).1 == Some(w.live[inode]) && Acquire(w, r).0.nextFd == w.nextFd
  {
    ReclaimedIff(w, r, w.live[inode]);
  }

  // ----- letting go -----

  /** A watcher letting go of its clone closes nothing. */
  lemma DropIsSafe(w: World, id: nat)
    requires Safe(w)
    ensures Safe(Step(w, DropClone(id)))
  {
  }

  /** With `fd` just acquired beside `current`: keep one, let go of the other. */
  function Settle(acquired: World, fd: Option<Fd>, current: Fd, readable: bool): (World, Option<Fd>)
  {
    if fd.None? then (acquired, None)
    else if !readable then (Step(acquired, DropClone(fd.value.id)), None)
    else (Step(acquired, DropClone(current.id)), fd)
  }

  /**
   `reopen_shm_header` by a watcher that holds `current`: acquire the path's
   descriptor; if its header or the path's identity cannot be read, let go of it
   and stay on `current`, else let go of `current`.
   */
  function Reopen(w: World, r: Request, current: Fd, readable: bool): (World, Option<Fd>)
  {
    Settle(Acquire(w, r).0, Acquire(w, r).1, current, readable)
  }

  /** Every rule holds, nothing that was closed reopened, and `fd` is open and still held by someone. */
  ghost predicate StillHeld(before: World, after: World, fd: Fd)
  {
    Safe(after) && before.closed <= after.closed && fd in after.open && Holders(after.holders, fd) > 0
  }

  /** The acquire inside a reopen, before either clone is let go. */
  lemma AcquiredForReopen(w: World, r: Request, current: Fd)
    requires Safe(w) && current in w.open && Holders(w.holders, current) > 0
    ensures var (acquired, fd) := Acquire(w, r);
            && StillHeld(w, acquired, current)
            && (fd == Some(current) ==> Holders(acquired.holders, current) > 1)
            && (fd.Some? ==> StillHeld(w, acquired, fd.value))
  {
    AcquireIsSafe(w, r);
    AcquireKeepsHeld(w, r, current);
  }

  /** After the acquire one of two clones is let go; both descriptors stay open and the other stays held. */
  lemma LetGoOfOne(w: World, acquired: World, dropped: Fd, kept: Fd)
    requires StillHeld(w, acquired, dropped) && StillHeld(w, acquired, kept)
    requires dropped == kept ==> Holders(acquired.holders, kept) > 1
    ensures var after := Step(acquired, DropClone(dropped.id)); StillHeld(w, after, kept) && dropped in after.open
  {
    DropIsSafe(acquired, dropped.id);
    DropCounts(acquired, dropped, kept);
  }

  lemma SettleKeepsBothOpen(w: World, acquired: World, fd: Option<Fd>, current: Fd, readable: bool)
    requires StillHeld(w, acquired, current) && (fd.Some? ==> StillHeld(w, acquired, fd.value))
    requires fd == Some(current) ==> Holders(acquired.holders, current) > 1
    ensures var (after, kept) := Settle(acquired, fd, current, readable);
            StillHeld(w, after, if kept.Some? then kept.value else current) && current in after.open
  {
    if fd.Some? {
      if readable {
        LetGoOfOne(w, acquired, current, fd.value);
      } else {
        LetGoOfOne(w, acquired, fd.value, current);
      }
    }
  }

  /**
   The reopen keeps every rule, and the descriptor the watcher replaces is not
   closed by it: it stays open, and the watcher ends up holding an open one.
   */
  lemma ReopenKeepsOldOpen(w: World, r: Request, current: Fd, readable: bool)
    requires Safe(w) && current in w.open && Holders(w.holders, current) > 0
    ensures var (after, kept) := Reopen(w, r, current, readable);
            StillHeld(w, after, if kept.Some? then kept.value else current) && current in after.open
  {
    AcquiredForReopen(w, r, current);
    SettleKeepsBothOpen(w, Acquire(w, r).0, Acquire(w, r).1, current, readable);
  }

  /**
   A reopen moves one clone: it succeeds if the acquire does and the header can
   be read, and then the watcher's one clone is of the new descriptor instead of
   the old one; else no count has changed.
   */
  lemma ReopenMovesOneClone(w: World, r: Request, current: Fd, readable: bool, fd: Fd)
    requires Safe(w) && current in w.open && Holders(w.holders, current) > 0
    requires fd in w.open && Holders(w.holders, fd) > 0
    ensures var (after, kept) := Reopen(w, r, current, readable);
            && (kept.Some? <==> Acquire(w, r).1.Some? && readable)
            && (kept.Some? ==> kept == Acquire(w, r).1)
            && Holders(after.holders, fd) == Holders(w.holders, fd)
                 + (if kept.Some? && fd.id == kept.value.id then 1 else 0)
                 - (if kept.Some? && fd == current then 1 else 0)
  {
    AcquireCounts(w, r, fd);
    AcquiredForReopen(w, r, current);
    AcquiredForReopen(w, r, fd);
    var (acquired, answer) := Acquire(w, r);
    SettleMovesOneClone(acquired, answer, current, readable, fd);
  }

  lemma SettleMovesOneClone(acquired: World, answer: Option<Fd>, current: Fd, readable: bool, fd: Fd)
    requires Safe(acquired) && current in acquired.open && Holders(acquired.holders, current) > 0 && fd in acquired.open
    requires answer.Some? ==> answer.value in acquired.open && Holders(acquired.holders, answer.value) > 0
    ensures var (after, kept) := Settle(acquired, answer, current, readable);
            Holders(after.holders, fd) == Holders(acquired.holders, fd)
              - if answer.Some? && fd == (if readable then current else answer.value) then 1 else 0
  {
    if answer.Some? {
      DropTakesOne(acquired, if readable then current else answer.value, fd);
      SameNumber(acquired, answer.value, current, fd);
    }
  }

  lemma DropTakesOne(w: World, dropped: Fd, fd: Fd)
    requires Holders(w.holders, dropped) > 0
    ensures Holders(Step(w, DropClone(dropped.id)).holders, fd)
            == Holders(w.holders, fd) - if fd.id == dropped.id then 1 else 0
  {
  }

  lemma SameNumber(w: World, a: Fd, b: Fd, fd: Fd)
    requires Safe(w) && a in w.open && b in w.open && fd in w.open
    ensures (fd.id == a.id <==> fd == a) && (fd.id == b.id <==> fd == b)
  {
  }

  /** Letting go of one clone leaves every descriptor open and every other clone counted. */
  lemma DropCounts(w: World, dropped: Fd, other: Fd)
    requires Safe(w) && dropped in w.open && other in w.open && Holders(w.holders, dropped) > 0
    requires Holders(w.holders, other) > if other == dropped then 1 else 0
    ensures var after := Step(w, DropClone(dropped.id));
            after.open == w.open && after.closed == w.closed && Holders(after.holders, other) > 0
  {
  }

  /** An acquire takes no clone away; the descriptor it answers with gains one. */
  lemma AcquireKeepsHeld(w: World, r: Request, held: Fd)
    requires Safe(w) && held in w.open && Holders(w.holders, held) > 0
    ensures var (after, fd) := Acquire(w, r);
            && held in after.open && w.closed <= after.closed
            && Holders(after.holders, held) > if fd == Some(held) then 1 else 0
  {
    ReclaimKeepsHeld(w, r.fstatFails, held);
    LookupKeepsHeld(Reclaim(w, r.fstatFails), r, held);
  }

  lemma LookupKeepsHeld(w: World, r: Request, held: Fd)
    requires held in w.open && Holders(w.holders, held) > 0
    ensures var (after, fd) := Lookup(w, r);
            && held in after.open && w.closed == after.closed
            && Holders(after.holders, held) > if fd == Some(held) then 1 else 0
  {
  }

  lemma ReclaimKeepsHeld(w: World, fstatFails: set<nat>, fd: Fd)
    requires Safe(w) && fd in w.open && Holders(w.holders, fd) > 0
    ensures fd in Reclaim(w, fstatFails).open
  {
    DroppedIff(w, fstatFails, fd);
  }

  /** The file system moving on: names come and go, but a file without a name never gets one back. */
  lemma FilesMayChange(w: World, after: World, file: nat)
    requires Safe(w)
    requires after == w.(files := after.files) && w.files.Keys <= after.files.Keys
    requires forall f :: f in w.files ==> after.files[f].inode == w.files[f].inode
    requires forall f :: f in w.files && w.files[f].links == 0 ==> after.files[f].links == 0
    requires forall f :: f in after.files && f !in w.files ==> f == file && Free(w.files, w.open, after.files[f].inode)
    ensures Safe(after)
  {
  }

  lemma CreateIsSafe(w: World, file: nat, inode: Inode)
    requires Safe(w)
    ensures Safe(Step(w, Create(file, inode)))
  {
    if file !in w.files && Free(w.files, w.open, inode) {
      FilesMayChange(w, w.(files := w.files[file := File(inode, 1)]), file);
    }
  }

  lemma RenameIsSafe(w: World, file: nat, links: nat)
    requires Safe(w) && file in w.files && w.files[file].links > 0
    ensures Safe(w.(files := w.files[file := w.files[file].(links := links)]))
  {
    FilesMayChange(w, w.(files := w.files[file := w.files[file].(links := links)]), file);
  }

  lemma StepIsSafe(w: World, ev: Event)
    requires Safe(w)
    ensures Safe(Step(w, ev))
  {
    if ev.Get? {
      AcquireIsSafe(w, ev.request);
    } else if ev.DropClone? {
      DropIsSafe(w, ev.id);
    } else if ev.Create? {
      CreateIsSafe(w, ev.file, ev.inode);
    } else if ev.file in w.files && w.files[ev.file].links > 0 {
      RenameIsSafe(w, ev.file, if ev.Link? then w.files[ev.file].links + 1 else w.files[ev.file].links - 1);
    }
  }

  /**
   Over every run of acquires, watcher drops, file creations, links and
   unlinks: nothing is closed early, held descriptors stay open, an inode has
   at most one shared entry, and at most 256 descriptors are retained.
   */
  lemma {:induction false} RunIsSafe(w: World, events: seq<Event>)
    requires Safe(w)
    ensures Safe(Run(w, events))
    decreases |events|
  {
    if events == [] {
    } else {
      StepIsSafe(w, events[0]);
      RunIsSafe(Step(w, events[0]), events[1..]);
    }
  }

  /** In particular from the start of a process, whose registry is empty. */
  lemma RunFromStart(events: seq<Event>)
    ensures Safe(Run(EMPTY, events))
    ensures NothingClosedEarly(Run(EMPTY, events).closed, Run(EMPTY, events).holders, Run(EMPTY, events).files)
    ensures |Run(EMPTY, events).live| + |Run(EMPTY, events).extra| <= 256
  {
    RunIsSafe(EMPTY, events);
  }

  // ----- the registry object -----

  /** `ShmFdRegistry`; the rest of the world is the kernel's and the watchers'. */
  class ShmFdRegistry {
    var live: map<Inode, Fd>
    var extra: seq<Fd>

    constructor ()
      ensures live == map[] && extra == []
    {
      live, extra := map[], [];
    }

    /** Both `retain` passes; the descriptors they drop are closed. */
    method ReclaimUnlinked(w: World, fstatFails: set<nat>) returns (dropped: set<Fd>)
      requires w.live == live && w.extra == extra
      modifies this
      ensures live == KeptLive(w, fstatFails) && extra == KeptExtra(w, w.extra, fstatFails)
      ensures dropped == Dropped(w, fstatFails)
    {
      live := map k | k in live && Keep(w, live[k], fstatFails) :: live[k];
      dropped := set k | k in w.live && !Keep(w, w.live[k], fstatFails) :: w.live[k];
      ghost var droppedLive := dropped;
      var kept: seq<Fd> := [];
      for i := 0 to |extra|
        invariant extra == w.extra
        invariant live == KeptLive(w, fstatFails)
        invariant kept == KeptExtra(w, extra[..i], fstatFails)
        invariant dropped == droppedLive + set j | 0 <= j < i && !Keep(w, w.extra[j], fstatFails) :: w.extra[j]
      {
        assert extra[..i + 1][..i] == extra[..i] && extra[..i + 1][i] == extra[i];
        if Keep(w, extra[i], fstatFails) {
          kept := kept + [extra[i]];
        } else {
          dropped := dropped + {extra[i]};
        }
      }
      assert extra[..|extra|] == extra;
      extra := kept;
    }

    /** `acquire_shm_fd` under the registry's lock. `after` is the world it leaves. */
    method AcquireShmFd(w: World, r: Request) returns (fd: Option<Fd>, ghost after: World)
      requires w.live == live && w.extra == extra
      modifies this
      ensures (after, fd) == Acquire(w, r)
      ensures live == after.live && extra == after.extra
    {
      var dropped := ReclaimUnlinked(w, r.fstatFails);
      ghost var w1 := Reclaim(w, r.fstatFails);
      if r.statted.Some? && r.statted.value in live {
        fd, after := Some(live[r.statted.value]), Hold(w1, live[r.statted.value]);
        return;
      }
      if |live| + |extra| >= MAX_RETAINED || !Opens(w, r.target) {
        fd, after := None, w1;
        return;
      }
      var file := r.target.value;
      var newFd := Fd(w.nextFd, file);
      if !r.identified {
        extra := extra + [newFd];
        fd, after := Some(newFd), Hold(Filed(w1, file, false), newFd);
        return;
      }
      var inode := w.files[file].inode;
      if inode in live {
        extra := extra + [newFd];
        fd, after := Some(live[inode]), Hold(Filed(w1, file, false), live[inode]);
      } else {
        live := live[inode := newFd];
        fd, after := Some(newFd), Hold(Filed(w1, file, true), newFd);
      }
    }
  }
}
