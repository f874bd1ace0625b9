/**
 `in_savepoint` on a SQLite connection whose every command may fail.

 The connection keeps a stack of savepoint frames and an autocommit flag. A
 body runs statements, any of which may fail, nests further savepoints and may
 go on after one of them failed, returns an error, panics, or hits an error for
 which the engine itself rolls the whole transaction back.
 */
module Savepoints {
  import opened Wrappers

  /** A savepoint: its name, the tables when it was opened, and whether it opened the transaction. */
  datatype Frame<T> = Frame(name: string, snapshot: T, begins: bool)

  datatype Outcome = Fine | Error | Panicked

  /** A command works, fails and changes nothing, or fails so badly that the engine rolls the transaction back. */
  datatype Fate = Works | Fails | Aborts

  datatype Body<!T> =
    | Done
    | Raise
    | Panic
    | EngineAbort
    | Statement(f: T -> Option<T>, rest: Body<T>)
    | Nested(name: string, inner: Body<T>, rest: Body<T>)
    | Try(name: string, inner: Body<T>, rest: Body<T>, caught: Body<T>)

  /** A body that ends normally can turn `t` into `t'`; a nested savepoint that failed contributes nothing. */
  ghost predicate Leaves<T(!new)>(body: Body<T>, t: T, t': T)
    decreases body
  {
    match body
    case Done => t' == t
    case Statement(f, rest) => f(t).Some? && Leaves(rest, f(t).value, t')
    case Nested(_, inner, rest) => exists mid :: Leaves(inner, t, mid) && Leaves(rest, mid, t')
    case Try(_, inner, rest, caught) =>
      (exists mid :: Leaves(inner, t, mid) && Leaves(rest, mid, t')) || Leaves(caught, t, t')
    case _ => false
  }

  /** The body goes on after some nested failure. */
  predicate Catches<T>(body: Body<T>)
    decreases body
  {
    match body
    case Statement(_, rest) => Catches(rest)
    case Nested(_, inner, rest) => Catches(inner) || Catches(rest)
    case Try(_, _, _, _) => true
    case _ => false
  }

  /** How the body ends, and what it has written by then, when every engine command works. */
  function Ends<T>(body: Body<T>, t: T): (Outcome, T)
    decreases body
  {
    match body
    case Done => (Fine, t)
    case Raise => (Error, t)
    case Panic => (Panicked, t)
    case EngineAbort => (Error, t)
    case Statement(f, rest) => (match f(t) case None => (Error, t) case Some(t') => Ends(rest, t'))
    case Nested(_, inner, rest) => var (o, t') := Ends(inner, t); if o.Fine? then Ends(rest, t') else (o, t)
    case Try(_, inner, rest, caught) =>
      var (o, t') := Ends(inner, t);
      if o.Fine? then Ends(rest, t') else if o.Error? then Ends(caught, t) else (o, t)
  }

  /** Some statement of the body may make the engine roll the transaction back. */
  predicate MayAbort<T>(body: Body<T>)
    decreases body
  {
    match body
    case EngineAbort => true
    case Statement(_, rest) => MayAbort(rest)
    case Nested(_, inner, rest) => MayAbort(inner) || MayAbort(rest)
    case Try(_, inner, rest, caught) => MayAbort(inner) || MayAbort(rest) || MayAbort(caught)
    case _ => false
  }

  // ----- the reference: what a call does, from the fate of each command -----

  /** How a call ended, with which tables, at which command, and whether a failed undo was reported. */
  datatype Played<T> = Played(how: Outcome, tables: T, step: nat, reported: bool)

  /**
   From command `k` on: ROLLBACK TO, then RELEASE, and if either failed and we
   opened the transaction, ROLLBACK. A failure is reported unless that works.
   */
  function PlayUndo<T>(how: Outcome, t: T, k: nat, owns: bool, fates: nat -> Fate): Played<T>
  {
    if fates(k).Works? && fates(k + 1).Works? then Played(how, t, k + 2, false)
    else
      var after := if fates(k).Works? then k + 2 else k + 1;
      if owns then Played(how, t, after + 1, !fates(after).Works?) else Played(how, t, after, true)
  }

  /**
   When undoing the innermost frame newly reports a failure, command by command.
   A command that aborts takes the transaction with it and is reported; one
   that merely fails is not, if we own the transaction and the ROLLBACK that
   follows works.
   */
  predicate UndoFails(fates: nat -> Fate, k: nat, owns: bool)
  {
    match fates(k)
    case Aborts => true
    case Fails => !owns || !fates(k + 1).Works?
    case Works =>
      match fates(k + 1)
      case Works => false
      case Aborts => true
      case Fails => !owns || !fates(k + 2).Works?
  }

  /** A savepoint around `body` on tables `t`, its first command being number `k`, when no command aborts. */
  function PlayCall<T>(body: Body<T>, t: T, k: nat, owns: bool, fates: nat -> Fate): Played<T>
    decreases body, 1
  {
    if !fates(k).Works? then Played(Error, t, k + 1, false)
    else
      var ran := Play(body, t, k + 1, fates);
      if ran.reported then ran else PlayClose(ran.how, ran.tables, t, ran.step, owns, fates)
  }

  /** From command `k` on: RELEASE after success, and undo back to `t` after anything else or a failed RELEASE. */
  function PlayClose<T>(how: Outcome, written: T, t: T, k: nat, owns: bool, fates: nat -> Fate): Played<T>
  {
    if !how.Fine? then PlayUndo(how, t, k, owns, fates)
    else if fates(k).Works? then Played(Fine, written, k + 1, false)
    else PlayUndo(Error, t, k + 1, owns, fates)
  }

  /** The body itself; a nested savepoint never owns the transaction. */
  function Play<T>(body: Body<T>, t: T, k: nat, fates: nat -> Fate): Played<T>
    decreases body, 0
  {
    match body
    case Done => Played(Fine, t, k, false)
    case Raise => Played(Error, t, k, false)
    case Panic => Played(Panicked, t, k, false)
    case EngineAbort => Played(Error, t, k, false)
    case Statement(f, rest) =>
      (match f(t) case None => Played(Error, t, k, false) case Some(t') => Play(rest, t', k, fates))
    case Nested(_, inner, rest) =>
      var call := PlayCall(inner, t, k, false, fates);
      if call.reported || !call.how.Fine? then call else Play(rest, call.tables, call.step, fates)
    case Try(_, inner, rest, caught) =>
      var call := PlayCall(inner, t, k, false, fates);
      if call.reported || call.how.Panicked? then call
      else if call.how.Fine? then Play(rest, call.tables, call.step, fates)
      else Play(caught, t, call.step, fates)
  }

  class Connection<T(!new)> {
    var tables: T
    var stack: seq<Frame<T>>
    var autocommit: bool
    var base: T                 // the tables the open transaction started from
    const fates: nat -> Fate    // how each engine command ends
    var step: nat
    var unknown: bool           // an undo failure was reported
    var aborts: nat             // how often the engine rolled a transaction back on its own

    /** Only the first frame can have opened the transaction, and then it starts from that frame's snapshot. */
    ghost predicate Valid()
      reads this
    {
      && (autocommit ==> stack == [])
      && (forall i :: 0 < i < |stack| ==> !stack[i].begins)
      && (stack != [] && stack[0].begins ==> base == stack[0].snapshot)
    }

    constructor (tables: T, fates: nat -> Fate)
      ensures Valid() && autocommit && stack == [] && this.tables == tables && !unknown && aborts == 0
    {
      this.tables, stack, autocommit, base := tables, [], true, tables;
      this.fates, step, unknown, aborts := fates, 0, false, 0;
    }

    /** Every engine command works. */
    ghost predicate Reliable()
    {
      forall k :: fates(k).Works?
    }

    /** No engine command makes the engine roll back on its own. */
    ghost predicate NeverAborts()
    {
      forall k :: !fates(k).Aborts?
    }

    /** The engine has ended the whole transaction and restored its start. */
    ghost predicate RolledBack(start: T)
      reads this
    {
      autocommit && stack == [] && tables == start
    }

    /** Nothing of the transaction changed. */
    ghost predicate Kept(tables0: T, stack0: seq<Frame<T>>, autocommit0: bool, aborts0: nat)
      reads this
    {
      tables == tables0 && stack == stack0 && autocommit == autocommit0 && aborts == aborts0
    }

    /** The engine ends the open transaction and restores what it started from. */
    method EngineRollback()
      requires Valid() && !autocommit
      modifies `stack, `tables, `autocommit, `aborts
      ensures Valid() && RolledBack(base) && aborts == old(aborts) + 1
    {
      tables, stack, autocommit, aborts := base, [], true, aborts + 1;
    }

    /** The next engine command; one that aborts takes the open transaction with it. */
    method Command() returns (ok: bool)
      requires Valid()
      modifies `step, `stack, `tables, `autocommit, `aborts
      ensures Valid()
      ensures
        || Kept(old(tables), old(stack), old(autocommit), old(aborts))
        || (!ok && old(!autocommit) && aborts > old(aborts) && RolledBack(base))
      ensures ok == fates(old(step)).Works? && step == old(step) + 1
      ensures !fates(old(step)).Aborts? ==> Kept(old(tables), old(stack), old(autocommit), old(aborts))
      ensures fates(old(step)).Aborts? && old(!autocommit) ==> autocommit
    {
      ok := fates(step).Works?;
      if fates(step).Aborts? && !autocommit {
        EngineRollback();
      }
      step := step + 1;
    }

    /** One statement on its own, outside any savepoint of ours. */
    method Execute(f: T -> Option<T>) returns (ok: bool)
      requires Valid()
      modifies `step, `stack, `tables, `autocommit, `aborts
      ensures Valid() && old(aborts) <= aborts
      ensures ok ==> f(old(tables)) == Some(tables)
      ensures ok ==> stack == old(stack) && autocommit == old(autocommit) && aborts == old(aborts)
      ensures !ok ==>
        || Kept(old(tables), old(stack), old(autocommit), old(aborts))
        || (old(!autocommit) && aborts > old(aborts) && RolledBack(base))
      ensures Reliable() ==> aborts == old(aborts) && (ok <==> f(old(tables)).Some?)
    {
      ok := Command();
      if ok {
        match f(tables) {
          case None => ok := false;
          case Some(written) => tables := written;
        }
      }
    }

    method Savepoint(name: string) returns (ok: bool)
      requires Valid()
      modifies `step, `stack, `tables, `autocommit, `aborts, `base
      ensures Valid()
      ensures !ok ==>
        && base == old(base)
        && (|| Kept(old(tables), old(stack), old(autocommit), old(aborts))
            || (old(!autocommit) && aborts > old(aborts) && RolledBack(base)))
      ensures ok ==>
        && stack == old(stack) + [Frame(name, tables, old(autocommit))]
        && tables == old(tables) && aborts == old(aborts)
        && !autocommit && base == if old(autocommit) then tables else old(base)
      ensures ok == fates(old(step)).Works? && step == old(step) + 1
      ensures !fates(old(step)).Aborts? && !ok ==> Kept(old(tables), old(stack), old(autocommit), old(aborts))
    {
      ok := Command();
      if ok {
        if autocommit {
          base := tables;
        }
        stack := stack + [Frame(name, tables, autocommit)];
        autocommit := false;
      }
    }

    /** The innermost frame of that name, or the stack's length. */
    function Find(name: string, from: nat): (k: nat)
      requires from <= |stack|
      reads this
      ensures k <= |stack|
      ensures k < |stack| ==> stack[k].name == name && k < from
      ensures 0 < from && stack[from - 1].name == name ==> k == from - 1
      decreases from
    {
      if from == 0 then |stack|
      else if stack[from - 1].name == name then from - 1
      else Find(name, from - 1)
    }

    /** RELEASE: pop through the frame; releasing the frame that opened the transaction commits it. */
    method Release(name: string) returns (ok: bool)
      requires Valid()
      modifies `step, `stack, `tables, `autocommit, `aborts
      ensures Valid()
      ensures !ok ==>
        || Kept(old(tables), old(stack), old(autocommit), old(aborts))
        || (old(!autocommit) && aborts > old(aborts) && RolledBack(base))
      ensures ok ==> tables == old(tables) && aborts == old(aborts)
      ensures ok && old(stack) != [] && old(stack)[|old(stack)| - 1].name == name ==>
        && stack == old(stack)[..|old(stack)| - 1]
        && autocommit == (old(autocommit) || (|old(stack)| == 1 && old(stack)[0].begins))
      ensures ok ==> old(stack) != []
      ensures step == old(step) + 1
      ensures old(stack) != [] && old(stack)[|old(stack)| - 1].name == name ==> ok == fates(old(step)).Works?
      ensures fates(old(step)).Aborts? && old(!autocommit) ==> autocommit
      ensures !fates(old(step)).Aborts? && !ok ==> Kept(old(tables), old(stack), old(autocommit), old(aborts))
    {
      ok := Command();
      var k := Find(name, |stack|);
      if !ok || k == |stack| {
        return false;
      }
      if k == 0 && stack[0].begins {
        autocommit := true;
      }
      stack := stack[..k];
    }

    /** ROLLBACK TO: restore the frame's snapshot and keep the frame. */
    method RollbackTo(name: string) returns (ok: bool)
      requires Valid()
      modifies `step, `stack, `tables, `autocommit, `aborts
      ensures Valid()
      ensures !ok ==>
        || Kept(old(tables), old(stack), old(autocommit), old(aborts))
        || (old(!autocommit) && aborts > old(aborts) && RolledBack(base))
      ensures ok ==> autocommit == old(autocommit) && aborts == old(aborts)
      ensures ok && old(stack) != [] && old(stack)[|old(stack)| - 1].name == name ==>
        stack == old(stack) && tables == stack[|stack| - 1].snapshot
      ensures step == old(step) + 1
      ensures old(stack) != [] && old(stack)[|old(stack)| - 1].name == name ==> ok == fates(old(step)).Works?
      ensures fates(old(step)).Aborts? && old(!autocommit) ==> autocommit
      ensures !fates(old(step)).Aborts? && !ok ==> Kept(old(tables), old(stack), old(autocommit), old(aborts))
    {
      ok := Command();
      var k := Find(name, |stack|);
      if !ok || k == |stack| {
        return false;
      }
      tables := stack[k].snapshot;
      stack := stack[..k + 1];
    }

    method Rollback() returns (ok: bool)
      requires Valid() && !autocommit
      modifies `step, `stack, `tables, `autocommit, `aborts
      ensures Valid() && old(aborts) <= aborts
      ensures ok ==> RolledBack(base) && aborts == old(aborts)
      ensures ok == fates(old(step)).Works? && step == old(step) + 1
      ensures !fates(old(step)).Aborts? && !ok ==> Kept(old(tables), old(stack), old(autocommit), old(aborts))
    {
      ok := Command();
      if ok {
        tables, stack, autocommit := base, [], true;
      }
    }

    /** The frame is the innermost one: the connection is where `in_savepoint` left it before its body. */
    ghost predicate OnTop(frame: Frame<T>, below: seq<Frame<T>>, start: T)
      reads this
    {
      !autocommit && stack == below + [frame] && base == start
    }

    /**
     `undo_savepoint_frame`: roll the frame back and pop it; if we opened the
     transaction and it is still open, roll all of it back. A failure that
     leaves the state unknown is reported.
     */
    method Undo(name: string, owns: bool, ghost frame: Frame<T>, ghost below: seq<Frame<T>>, ghost start: T)
      requires Valid() && frame.name == name && frame.begins == owns
      requires owns ==> below == [] && start == frame.snapshot
      modifies this
      ensures Valid() && old(aborts) <= aborts && (old(unknown) ==> unknown)
      ensures !unknown ==> aborts == old(aborts)
      ensures !unknown && old(RolledBack(start)) ==> RolledBack(start)
      ensures !unknown && old(OnTop(frame, below, start)) ==>
        stack == below && tables == frame.snapshot && autocommit == owns && (!owns ==> base == start)
      ensures old(OnTop(frame, below, start)) ==>
        unknown == (old(unknown) || UndoFails(fates, old(step), owns))
      ensures old(OnTop(frame, below, start)) && !UndoFails(fates, old(step), owns) ==>
        && stack == below && tables == frame.snapshot && autocommit == owns && (!owns ==> base == start)
        && aborts == old(aborts) && step == PlayUndo(Error, tables, old(step), owns, fates).step
      ensures NeverAborts() ==> aborts == old(aborts)
      ensures old(autocommit) ==>
        && Kept(old(tables), old(stack), true, old(aborts))
        && unknown == old(unknown) && step == old(step)
    {
      if !autocommit {
        UndoOpen(name, owns, frame, below, start);
      }
    }

    /** The undo of a frame whose transaction the engine has not ended. */
    method UndoOpen(name: string, owns: bool, ghost frame: Frame<T>, ghost below: seq<Frame<T>>, ghost start: T)
      requires Valid() && !autocommit && frame.name == name && frame.begins == owns
      requires owns ==> below == [] && start == frame.snapshot
      modifies this
      ensures Valid() && old(aborts) <= aborts && (old(unknown) ==> unknown)
      ensures !unknown ==> aborts == old(aborts)
      ensures old(OnTop(frame, below, start)) ==>
        unknown == (old(unknown) || UndoFails(fates, old(step), owns))
      ensures old(OnTop(frame, below, start)) && !UndoFails(fates, old(step), owns) ==>
        && stack == below && tables == frame.snapshot && autocommit == owns && (!owns ==> base == start)
        && aborts == old(aborts) && step == PlayUndo(Error, tables, old(step), owns, fates).step
      ensures NeverAborts() ==> aborts == old(aborts)
    {
      var ok := RollbackTo(name);
      if ok {
        ok := Release(name);
      }
      var failed := !ok;
      if owns && !autocommit {
        ok := Rollback();
        failed := !ok;
      }
      if failed {
        unknown := true;
      }
    }

    /**
     The guarantee, for every entry state, body and pattern of failing commands,
     unless an undo failure is reported. As long as the engine does not abort:
     success keeps exactly the writes of the body, whose failed nested
     savepoints contribute nothing, and anything else restores the tables,
     savepoint stack and autocommit flag of entry. If the engine does abort and
     the body does not go on after that, the call fails and the tables are those
     from before the transaction, with the entry state restored if this call
     opened it. When every command works the call ends as its body does.
     */
    method InSavepoint(name: string, body: Body<T>) returns (o: Outcome)
      requires Valid()
      modifies this
      ensures Valid() && old(aborts) <= aborts && (old(unknown) ==> unknown)
      ensures !unknown && aborts == old(aborts) ==>
        && stack == old(stack) && autocommit == old(autocommit) && (!autocommit ==> base == old(base))
        && (if o.Fine? then Leaves(body, old(tables), tables) else tables == old(tables))
      ensures !unknown && aborts > old(aborts) && !Catches(body) ==>
        && !o.Fine?
        && RolledBack(if old(autocommit) then old(tables) else old(base))
      ensures o.Fine? && !Catches(body) ==> unknown == old(unknown)
      ensures Reliable() && !old(unknown) && !MayAbort(body) ==>
        && !unknown && aborts == old(aborts)
        && o == Ends(body, old(tables)).0
        && (o.Fine? ==> tables == Ends(body, old(tables)).1)
      ensures NeverAborts() && !old(unknown) && !MayAbort(body) ==>
        var p := PlayCall(body, old(tables), old(step), old(autocommit), fates);
        && unknown == p.reported
        && (!p.reported ==> o == p.how && tables == p.tables && step == p.step)
      ensures NeverAborts() && !MayAbort(body) ==> aborts == old(aborts)
      ensures Reliable() && !old(unknown) && !Catches(body) ==> !unknown
      decreases body, 1
    {
      var owns := autocommit;
      var ok := Savepoint(name);
      if !ok {
        return Error;
      }
      ghost var frame := stack[|stack| - 1];
      ghost var start := base;
      o := RunBody(body);
      o := Close(name, owns, o, frame, old(stack), start);
    }

    /** What follows the body: RELEASE after success, and undo the frame after anything else or a failed RELEASE. */
    method Close(name: string, owns: bool, ran: Outcome, ghost frame: Frame<T>, ghost below: seq<Frame<T>>,
                 ghost start: T)
      returns (o: Outcome)
      requires Valid() && frame.name == name && frame.begins == owns
      requires owns ==> below == [] && start == frame.snapshot
      modifies this
      ensures Valid() && old(aborts) <= aborts && (old(unknown) ==> unknown)
      ensures !unknown && aborts == old(aborts) && old(OnTop(frame, below, start)) ==>
        && stack == below && autocommit == owns && (!owns ==> base == start)
        && (if o.Fine? then ran.Fine? && tables == old(tables) else tables == frame.snapshot)
      ensures !unknown && old(OnTop(frame, below, start)) && aborts > old(aborts) ==> !o.Fine? && RolledBack(start)
      ensures o.Fine? ==> ran.Fine? && unknown == old(unknown)
      ensures old(autocommit) && !ran.Fine? ==> unknown == old(unknown)
      ensures !unknown && old(RolledBack(start)) && !ran.Fine?
              ==> !o.Fine? && RolledBack(start) && aborts == old(aborts)
      ensures NeverAborts() ==> aborts == old(aborts)
      ensures NeverAborts() && old(OnTop(frame, below, start)) && !old(unknown) ==>
        var p := PlayClose(ran, old(tables), frame.snapshot, old(step), owns, fates);
        && unknown == p.reported
        && (!p.reported ==> o == p.how && tables == p.tables && step == p.step)
    {
      o := ran;
      if ran.Fine? {
        var released := Release(name);
        if released {
          return Fine;
        }
        o := Error;
      }
      Undo(name, owns, frame, below, start);
    }

    /** Run the body under the frame `in_savepoint` just opened. */
    method RunBody(body: Body<T>) returns (o: Outcome)
      requires Valid()
      modifies this
      ensures Valid() && old(aborts) <= aborts && (old(unknown) ==> unknown)
      ensures !unknown && aborts == old(aborts) && !old(autocommit) && old(stack) != [] ==>
        && stack == old(stack) && !autocommit && base == old(base)
        && (o.Fine? ==> Leaves(body, old(tables), tables))
      ensures !unknown && aborts > old(aborts) && !old(autocommit) && old(stack) != [] && !Catches(body) ==>
        !o.Fine? && RolledBack(old(base))
      ensures o.Fine? && !Catches(body) ==> unknown == old(unknown)
      ensures Reliable() && !old(unknown) && !MayAbort(body) && !old(autocommit) && old(stack) != [] ==>
        && !unknown && aborts == old(aborts)
        && o == Ends(body, old(tables)).0
        && (o.Fine? ==> tables == Ends(body, old(tables)).1)
      ensures NeverAborts() && !old(unknown) && !MayAbort(body) && !old(autocommit) && old(stack) != [] ==>
        var p := Play(body, old(tables), old(step), fates);
        && unknown == p.reported
        && (!p.reported ==> o == p.how && (o.Fine? ==> tables == p.tables) && step == p.step)
      ensures NeverAborts() && !MayAbort(body) ==> aborts == old(aborts)
      ensures Reliable() && !old(unknown) && !Catches(body) && !old(autocommit) && old(stack) != [] ==> !unknown
      decreases body, 0
    {
      match body
      case Done => o := Fine;
      case Raise => o := Error;
      case Panic => o := Panicked;
      case EngineAbort =>
        if !autocommit {
          EngineRollback();
        }
        o := Error;
      case Statement(f, rest) =>
        match f(tables) {
          case None => o := Error;
          case Some(written) =>
            tables := written;
            o := RunBody(rest);
        }
      case Nested(name, inner, rest) =>
        o := InSavepoint(name, inner);
        if o.Fine? {
          o := RunBody(rest);
        }
      case Try(name, inner, rest, caught) =>
        o := InSavepoint(name, inner);
        if o.Fine? {
          o := RunBody(rest);
        } else if o.Error? {
          o := RunBody(caught);
        }
    }
  }
}
