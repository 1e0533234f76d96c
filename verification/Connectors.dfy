/**
  The connector object, each method cut where the C++ connector calls out to the receiver, the error
  handler or the executor, and proved to take the state machine's steps.
 */
module Connectors {
  import opened Connecting
  import opened ConnectorInvariant
  import opened Wrappers

  /** The connector with its end of the pipe, the executor's tasks and the calls in progress. */
  class Connector {
    var error: bool
    var paused: bool
    var open: bool
    var read: Option<Watch>
    var closed: Option<Watch>
    var nextId: nat
    var handler: bool
    var handlerRuns: nat
    ghost var cause: Option<Cause>
    var tasks: seq<Task>
    var frames: seq<Frame>
    var inbox: seq<Msg>
    ghost var sent: seq<Msg>
    ghost var taken: seq<Msg>
    ghost var delivered: seq<Msg>
    var peerClosed: bool

    ghost function Now(): State
      reads this
    {
      State(error, paused, open, read, closed, nextId, handler, handlerRuns, cause, tasks, frames, inbox, sent, taken,
            delivered, peerClosed)
    }

    constructor ()
      ensures Now() == Init()
    {
      error, paused, open, read, closed, nextId := false, false, true, None, None, 0;
      handler, handlerRuns, cause, tasks, frames := false, 0, None, [], [];
      inbox, sent, taken, delivered, peerClosed := [], [], [], [], false;
    }

    /** SimpleWatcher::Arm on one of the two watchers. */
    method ArmWatch(kind: Kind)
      modifies this
      ensures Now() == Arm(old(Now()), kind)
    {
      var watch := if kind == Read then read else closed;
      if watch.None? || !watch.value.active { return; }
      var signalled := if kind == Read then inbox != [] else peerClosed;
      if signalled {
        tasks := tasks + [Task(watch.value.id, kind, true)];
      } else if kind == Read {
        read := Some(watch.value.(armed := true));
      } else {
        closed := Some(watch.value.(armed := true));
      }
    }

    method DropWatchers()
      modifies this
      ensures Now() == CancelWatchers(old(Now()))
    {
      read := None;
      closed := None;
    }

    method StartReceiving()
      modifies this
      ensures Now() == Connecting.StartReceiving(old(Now()))
    {
      hide Connecting.Arm;
      if !open || read.Some? { return; }
      read := Some(Watch(nextId, true, false));
      ArmFrame(Now(), Read);
      ArmWatch(Read);
      closed := Some(Watch(nextId + 1, true, false));
      nextId := nextId + 2;
      ArmWatch(Closed);
    }

    method PauseIncomingMethodCallProcessing()
      modifies this
      ensures Now() == Pause(old(Now()))
    {
      paused := true;
      DropWatchers();
    }

    method ResumeIncomingMethodCallProcessing()
      modifies this
      ensures Now() == Resume(old(Now()))
    {
      if !paused { return; }
      paused := false;
      StartReceiving();
    }

    method CloseMessagePipe()
      modifies this
      ensures Now() == Connecting.CloseMessagePipe(old(Now()))
    {
      DropWatchers();
      open := false;
      inbox := [];
    }

    /** The end of a watcher's task. */
    method Finish(t: Option<Task>)
      modifies this
      ensures Now() == Connecting.Finish(old(Now()), t)
    {
      if t.None? { return; }
      var watch := if t.value.kind == Read then read else closed;
      if watch.Some? && watch.value.id == t.value.watch && watch.value.active { ArmWatch(t.value.kind); }
    }

    /** RaiseError, up to the call of the error handler if there is one. */
    method RaiseError(ghost why: Cause, t: Option<Task>)
      modifies this
      ensures Now() == Connecting.RaiseError(old(Now()), why, t)
    {
      hide Connecting.Finish, Connecting.CloseMessagePipe, Connecting.CallHandler;
      if error {
        Finish(t);
        return;
      }
      error := true;
      cause := Some(why);
      assert Now() == old(Now()).(error := true, cause := Some(why));
      CloseMessagePipe();
      CallHandler(t);
    }

    method CallHandler(t: Option<Task>)
      modifies this
      ensures Now() == Connecting.CallHandler(old(Now()), t)
    {
      hide Connecting.Finish;
      if handler {
        handler := false;
        handlerRuns := handlerRuns + 1;
        frames := frames + [Handler(t)];
      } else {
        Finish(t);
      }
    }

    method EndDrain(t: Task)
      modifies this
      ensures Now() == Connecting.EndDrain(old(Now()), t)
    {
      if t.kind == Closed { RaiseError(StoppedEarly, Some(t)); } else { Finish(Some(t)); }
    }

    /** One turn of ReadAllAvailableMessages, up to the call of the receiver. */
    method ReadNext(t: Task) returns (m: Option<Msg>)
      modifies this
      ensures Now() == Connecting.ReadNext(old(Now()), t)
      ensures m.Some? ==> delivered == old(delivered) + [m.value]
    {
      hide Connecting.RaiseError, Connecting.EndDrain;
      m := None;
      if !open {
        RaiseError(PipeMissing, Some(t));
      } else if inbox == [] {
        if peerClosed { RaiseError(PeerGone, Some(t)); } else { EndDrain(t); }
      } else {
        var next := inbox[0];
        inbox := inbox[1..];
        taken := taken + [next];
        if !next.parses {
          RaiseError(Malformed, Some(t));
        } else {
          delivered := delivered + [next];
          frames := frames + [Dispatch(t)];
          m := Some(next);
        }
      }
    }

    /** The receiver is back: the rest of the turn, and the next one. */
    method ReceiverReturned(accepted: bool) returns (m: Option<Msg>)
      requires frames != [] && frames[|frames| - 1].Dispatch?
      modifies this
      ensures Now() == Step(old(Now()), ReceiverReturns(accepted))
    {
      hide Connecting.RaiseError, Connecting.EndDrain, Connecting.ReadNext;
      var t := frames[|frames| - 1].task;
      frames := frames[..|frames| - 1];
      m := None;
      if !accepted {
        RaiseError(Rejected, Some(t));
      } else if error || paused {
        EndDrain(t);
      } else {
        m := ReadNext(t);
      }
    }

    /** The error handler is back: the end of the callback that led to it. */
    method HandlerReturned()
      requires frames != [] && frames[|frames| - 1].Handler?
      modifies this
      ensures Now() == Step(old(Now()), HandlerReturns)
    {
      hide Connecting.Finish;
      var t := frames[|frames| - 1].after;
      frames := frames[..|frames| - 1];
      Finish(t);
    }

    method OnReadable(t: Task) returns (m: Option<Msg>)
      modifies this
      ensures Now() == Connecting.OnReadable(old(Now()), t)
    {
      hide Connecting.RaiseError, Connecting.Finish, Connecting.ReadNext;
      m := None;
      if paused || error {
        Finish(Some(t));
      } else if !t.ok {
        RaiseError(BadEvent, Some(t));
      } else {
        m := ReadNext(t);
      }
    }

    method OnPeerClosed(t: Task) returns (m: Option<Msg>)
      modifies this
      ensures Now() == Connecting.OnPeerClosed(old(Now()), t)
    {
      hide Connecting.Finish, Connecting.ReadNext;
      m := None;
      if closed.Some? { closed := Some(closed.value.(active := false)); }
      if paused || error {
        Finish(Some(t));
      } else {
        m := ReadNext(t);
      }
    }

    /** The executor runs the next posted task. */
    method RunOneTask() returns (m: Option<Msg>)
      requires tasks != []
      modifies this
      ensures Now() == Step(old(Now()), TaskRuns)
    {
      hide Connecting.OnReadable, Connecting.OnPeerClosed;
      var t := tasks[0];
      tasks := tasks[1..];
      var watch := if t.kind == Read then read else closed;
      m := None;
      if watch.None? || watch.value.id != t.watch || !watch.value.active { return; }
      if t.kind == Read { m := OnReadable(t); } else { m := OnPeerClosed(t); }
    }

    /** An outgoing message; the write's outcome is the pipe's. */
    method Accept(written: bool) returns (ok: bool)
      modifies this
      ensures Now() == AcceptOutgoing(old(Now()), written)
      ensures ok <==> old(open) && !old(error) && written
    {
      hide Connecting.RaiseError;
      if !open || error { return false; }
      if !written { RaiseError(WriteFailed, None); }
      ok := written;
    }
  }
}
