/**
  What every event of the connector's machine keeps: message order, the error state, and both
  watchers' wake-ups.
 */
module ConnectorInvariant {
  import opened Connecting
  import opened Wrappers

  /** Messages are in order, and none is lost while the pipe is open. */
  predicate InOrder(s: State) {
    && s.taken + s.inbox <= s.sent
    && (s.open ==> s.taken + s.inbox == s.sent)
    && s.delivered <= s.taken
    && (s.cause == Some(PeerGone) ==> s.delivered == s.sent && s.peerClosed)
  }

  /** Without an error everything taken from the pipe was delivered. */
  predicate AllDelivered(s: State) { !s.error ==> s.delivered == s.taken }

  predicate ErrorOk(s: State) {
    && (s.error <==> s.cause.Some?)
    && s.handlerRuns <= (if s.error then 1 else 0)
    && (s.error ==> !s.open)
    && (!s.open ==> s.read.None? && s.closed.None? && s.inbox == [])
    && (s.read.None? <==> s.closed.None?)
    && (forall i :: 0 <= i < |s.tasks| && s.tasks[i].kind == Closed ==> s.peerClosed)
    && forall i :: 0 <= i < |s.frames| && IsClosing(s.frames[i]) ==> s.peerClosed
  }

  predicate IsClosing(f: Frame) {
    match f
    case Dispatch(t) => t.kind == Closed
    case Handler(after) => after.Some? && after.value.kind == Closed
  }

  predicate IsFor(t: Option<Task>, id: nat, kind: Kind) { t.Some? && t.value.watch == id && t.value.kind == kind }

  predicate HoldsTask(f: Frame, id: nat, kind: Kind) {
    match f
    case Dispatch(t) => t.watch == id && t.kind == kind
    case Handler(t) => IsFor(t, id, kind)
  }

  /** A task of this watcher is posted, or its callback is running. */
  predicate Expected(s: State, id: nat, kind: Kind) {
    || (exists i :: 0 <= i < |s.tasks| && s.tasks[i].watch == id && s.tasks[i].kind == kind)
    || (exists i :: 0 <= i < |s.frames| && HoldsTask(s.frames[i], id, kind))
  }

  /**
    No lost wake-up, while the callback of task t is on its way: a watcher that is not armed is
    about to run or running, and an armed one has nothing to report.
   */
  predicate WatchOk(s: State, kind: Kind, t: Option<Task>) {
    match WatchOf(s, kind)
    case None => true
    case Some(w) =>
      && w.id < s.nextId && (kind == Read ==> w.active)
      && (w.active ==> if w.armed then !Signalled(s, kind) else Expected(s, w.id, kind) || IsFor(t, w.id, kind))
  }

  predicate WatchesOk(s: State, t: Option<Task>) { WatchOk(s, Read, t) && WatchOk(s, Closed, t) }

  predicate Inv(s: State) { InOrder(s) && AllDelivered(s) && ErrorOk(s) && WatchesOk(s, None) }

  // ----- watchers keep it -----

  lemma PostExpects(s: State, t: Task, id: nat, kind: Kind)
    requires t.watch == id && t.kind == kind
    ensures Expected(Post(s, t), id, kind)
  {
    assert Post(s, t).tasks[|s.tasks|] == t;
  }

  function Other(kind: Kind): Kind { if kind == Read then Closed else Read }

  /** More tasks and frames leave a watcher's state right. */
  lemma WatchKept(s: State, r: State, kind: Kind, t: Option<Task>)
    requires WatchOk(s, kind, t) && WatchOf(r, kind) == WatchOf(s, kind) && s.nextId <= r.nextId
    requires s.tasks <= r.tasks && s.frames <= r.frames && (Signalled(r, kind) ==> Signalled(s, kind))
    ensures WatchOk(r, kind, t)
  {
    if WatchOf(s, kind).Some? && Expected(s, WatchOf(s, kind).value.id, kind) {
      MoreExpected(s, r, WatchOf(s, kind).value.id, kind);
    }
  }

  lemma MoreExpected(s: State, r: State, id: nat, kind: Kind)
    requires Expected(s, id, kind) && s.tasks <= r.tasks && s.frames <= r.frames
    ensures Expected(r, id, kind)
  {
    if i :| 0 <= i < |s.tasks| && s.tasks[i].watch == id && s.tasks[i].kind == kind {
      assert r.tasks[i] == s.tasks[i];
    } else {
      var i :| 0 <= i < |s.frames| && HoldsTask(s.frames[i], id, kind);
      assert r.frames[i] == s.frames[i];
    }
  }

  /** Arming settles the watcher's own task and leaves the other watcher alone. */
  lemma ArmKeeps(s: State, kind: Kind, t: Option<Task>)
    requires match WatchOf(s, kind) case None => true
             case Some(w) => w.id < s.nextId && (kind == Read ==> w.active) && (w.active && w.armed ==> !Signalled(s, kind))
    requires WatchOk(s, Other(kind), t)
    ensures WatchOk(Arm(s, kind), kind, None) && WatchOk(Arm(s, kind), Other(kind), t)
  {
    hide Expected;
    var r := Arm(s, kind);
    WatchKept(s, r, Other(kind), t);
    if WatchOf(s, kind).Some? { PostExpects(s, Task(WatchOf(s, kind).value.id, kind, true), WatchOf(s, kind).value.id, kind); }
  }

  // ----- every call keeps it -----

  lemma FinishKeeps(s: State, t: Option<Task>)
    requires InOrder(s) && AllDelivered(s) && ErrorOk(s) && WatchesOk(s, t)
    requires t.Some? && t.value.kind == Closed ==> s.peerClosed
    ensures Inv(Finish(s, t))
  {
    hide Expected;
    if t.Some? && Live(s, t.value) { ArmKeeps(s, t.value.kind, t); }
  }

  lemma StartKeeps(s: State)
    requires Inv(s)
    ensures Inv(StartReceiving(s)) && StartReceiving(s).delivered == s.delivered
  {
    hide Expected;
    if s.open && s.read.None? {
      var s1 := s.(read := Some(Watch(s.nextId, true, false)), nextId := s.nextId + 2);
      ArmKeeps(s1, Read, None);
      var s2 := Arm(s1, Read).(closed := Some(Watch(s.nextId + 1, true, false)));
      WatchKept(Arm(s1, Read), s2, Read, None);
      ArmKeeps(s2, Closed, None);
      assert StartReceiving(s) == Arm(s2, Closed);
    }
  }

  /** What must hold when an error is about to be raised for a cause. */
  predicate MayRaise(s: State, cause: Cause, t: Option<Task>) {
    && InOrder(s) && ErrorOk(s) && WatchesOk(s, t) && (s.error ==> AllDelivered(s))
    && (t.Some? && t.value.kind == Closed ==> s.peerClosed)
    && (cause == PeerGone && !s.error ==> s.delivered == s.sent && s.peerClosed)
  }

  lemma RaiseKeeps(s: State, cause: Cause, t: Option<Task>)
    requires MayRaise(s, cause, t)
    ensures Inv(RaiseError(s, cause, t)) && RaiseError(s, cause, t).error
    ensures RaiseError(s, cause, t).delivered == s.delivered
  {
    hide Expected;
    if s.error { FinishKeeps(s, t); }
  }

  lemma EndDrainKeeps(s: State, t: Task)
    requires InOrder(s) && AllDelivered(s) && ErrorOk(s) && WatchesOk(s, Some(t)) && (t.kind == Closed ==> s.peerClosed)
    ensures Inv(EndDrain(s, t)) && EndDrain(s, t).delivered == s.delivered
  {
    hide Expected, WatchesOk, ErrorOk, InOrder;
    if t.kind == Closed { RaiseKeeps(s, StoppedEarly, Some(t)); } else { FinishKeeps(s, Some(t)); }
  }

  /** A frame that holds the task keeps it expected. */
  lemma FrameKeeps(s: State, f: Frame, t: Task)
    requires WatchesOk(s, Some(t)) && HoldsTask(f, t.watch, t.kind)
    ensures WatchesOk(s.(frames := s.frames + [f]), None)
  {
    hide Expected;
    var r := s.(frames := s.frames + [f]);
    WatchKept(s, r, Read, Some(t));
    WatchKept(s, r, Closed, Some(t));
    FrameExpects(s, f, t);
  }

  lemma FrameExpects(s: State, f: Frame, t: Task)
    requires HoldsTask(f, t.watch, t.kind)
    ensures Expected(s.(frames := s.frames + [f]), t.watch, t.kind)
  {
    assert s.(frames := s.frames + [f]).frames[|s.frames|] == f;
  }

  lemma ReadNextKeeps(s: State, t: Task)
    requires InOrder(s) && AllDelivered(s) && ErrorOk(s) && WatchesOk(s, Some(t)) && (t.kind == Closed ==> s.peerClosed)
    requires !s.error
    ensures Inv(ReadNext(s, t)) && s.delivered <= ReadNext(s, t).delivered
  {
    hide Expected;
    if !s.open {
      RaiseKeeps(s, PipeMissing, Some(t));
    } else if s.inbox == [] {
      assert s.taken + [] == s.taken;
      if s.peerClosed { RaiseKeeps(s, PeerGone, Some(t)); } else { EndDrainKeeps(s, t); }
    } else {
      var m := s.inbox[0];
      var r := s.(inbox := s.inbox[1..], taken := s.taken + [m]);
      assert s.taken + [m] + s.inbox[1..] == s.taken + s.inbox;
      var d := if m.parses then r.(delivered := r.delivered + [m]) else r;
      WatchKept(s, d, Read, Some(t));
      WatchKept(s, d, Closed, Some(t));
      if m.parses { FrameKeeps(d, Dispatch(t), t); } else { RaiseKeeps(r, Malformed, Some(t)); }
    }
  }

  lemma AfterAcceptKeeps(s: State, t: Task, accepted: bool)
    requires InOrder(s) && AllDelivered(s) && ErrorOk(s) && WatchesOk(s, Some(t)) && (t.kind == Closed ==> s.peerClosed)
    ensures Inv(AfterAccept(s, t, accepted)) && s.delivered <= AfterAccept(s, t, accepted).delivered
    ensures s.error ==> AfterAccept(s, t, accepted).delivered == s.delivered
  {
    hide Expected, WatchesOk, ErrorOk, InOrder, EndDrain, ReadNext, RaiseError;
    if !accepted {
      RaiseKeeps(s, Rejected, Some(t));
    } else if s.error || s.paused {
      EndDrainKeeps(s, t);
    } else {
      ReadNextKeeps(s, t);
    }
  }

  /** Taking the first task off the queue leaves it to be dealt with. */
  lemma PopKeeps(s: State)
    requires Inv(s) && s.tasks != []
    ensures var r := s.(tasks := s.tasks[1..]);
            InOrder(r) && AllDelivered(r) && ErrorOk(r) && WatchesOk(r, Some(s.tasks[0])) &&
            (s.tasks[0].kind == Closed ==> r.peerClosed)
  {
    var r := s.(tasks := s.tasks[1..]);
    PopExpects(s, Read);
    PopExpects(s, Closed);
  }

  lemma PopExpects(s: State, kind: Kind)
    requires s.tasks != [] && WatchOk(s, kind, None)
    ensures WatchOk(s.(tasks := s.tasks[1..]), kind, Some(s.tasks[0]))
  {
    var r := s.(tasks := s.tasks[1..]);
    if WatchOf(s, kind).Some? && WatchOf(s, kind).value.active && !WatchOf(s, kind).value.armed {
      var id := WatchOf(s, kind).value.id;
      if i :| 0 <= i < |s.tasks| && s.tasks[i].watch == id && s.tasks[i].kind == kind {
        if i > 0 { assert r.tasks[i - 1] == s.tasks[i]; }
      } else {
        var i :| 0 <= i < |s.frames| && HoldsTask(s.frames[i], id, kind);
        assert HoldsTask(r.frames[i], id, kind);
      }
    }
  }

  /** A task that is not live is nobody's. */
  lemma DeadTask(s: State, t: Task)
    requires WatchesOk(s, Some(t)) && !Live(s, t)
    ensures WatchesOk(s, None)
  {
    hide Expected;
  }

  lemma RunTaskKeeps(s: State)
    requires Inv(s) && s.tasks != []
    ensures Inv(RunTask(s)) && s.delivered <= RunTask(s).delivered
    ensures s.error ==> RunTask(s).delivered == s.delivered
  {
    hide Expected, InOrder, ReadNext, RaiseError, Finish;
    PopKeeps(s);
    var t := s.tasks[0];
    var r := s.(tasks := s.tasks[1..]);
    if !Live(r, t) {
      DeadTask(r, t);
    } else if t.kind == Read {
      OnReadableKeeps(r, t);
    } else {
      OnPeerClosedKeeps(r, t);
    }
  }

  lemma OnReadableKeeps(s: State, t: Task)
    requires InOrder(s) && AllDelivered(s) && ErrorOk(s) && WatchesOk(s, Some(t)) && t.kind == Read
    ensures Inv(OnReadable(s, t)) && s.delivered <= OnReadable(s, t).delivered
    ensures s.error ==> OnReadable(s, t).delivered == s.delivered
  {
    hide Expected, WatchesOk, ErrorOk, InOrder, ReadNext, RaiseError;
    if s.paused || s.error {
      FinishKeeps(s, Some(t));
    } else if !t.ok {
      RaiseKeeps(s, BadEvent, Some(t));
    } else {
      ReadNextKeeps(s, t);
    }
  }

  lemma OnPeerClosedKeeps(s: State, t: Task)
    requires InOrder(s) && AllDelivered(s) && ErrorOk(s) && WatchesOk(s, Some(t)) && t.kind == Closed && s.peerClosed
    ensures Inv(OnPeerClosed(s, t)) && s.delivered <= OnPeerClosed(s, t).delivered
    ensures s.error ==> OnPeerClosed(s, t).delivered == s.delivered
  {
    hide Expected, ReadNext, RaiseError;
    var r := if s.closed.Some? then s.(closed := Some(s.closed.value.(active := false))) else s;
    WatchKept(s, r, Read, Some(t));
    if r.paused || r.error { FinishKeeps(r, Some(t)); } else { ReadNextKeeps(r, t); }
  }

  /** Returning from a call-out leaves the frame's task to be dealt with. */
  lemma PopFrameKeeps(s: State, kind: Kind, t: Option<Task>)
    requires WatchOk(s, kind, None) && s.frames != []
    requires match s.frames[|s.frames| - 1] case Dispatch(task) => t == Some(task) case Handler(after) => t == after
    ensures WatchOk(s.(frames := s.frames[..|s.frames| - 1]), kind, t)
  {
    var r := s.(frames := s.frames[..|s.frames| - 1]);
    if WatchOf(s, kind).Some? && WatchOf(s, kind).value.active && !WatchOf(s, kind).value.armed {
      var id := WatchOf(s, kind).value.id;
      if i :| 0 <= i < |s.tasks| && s.tasks[i].watch == id && s.tasks[i].kind == kind {
        assert r.tasks[i] == s.tasks[i];
      } else {
        var i :| 0 <= i < |s.frames| && HoldsTask(s.frames[i], id, kind);
        if i < |r.frames| { assert r.frames[i] == s.frames[i]; }
      }
    }
  }

  lemma FireKeeps(s: State, r: State, kind: Kind, ok: bool)
    requires WatchesOk(s, None) && s.read == r.read && s.closed == r.closed && s.nextId == r.nextId
    requires s.tasks == r.tasks && s.frames == r.frames
    requires Signalled(r, Other(kind)) ==> Signalled(s, Other(kind))
    ensures WatchesOk(Fire(r, kind, ok), None)
  {
    hide Expected;
    var f := Fire(r, kind, ok);
    assert WatchOk(s, kind, None) && WatchOk(s, Other(kind), None);
    WatchKept(s, f, Other(kind), None);
    FireOwn(s, r, kind, ok);
  }

  lemma FireOwn(s: State, r: State, kind: Kind, ok: bool)
    requires WatchOk(s, kind, None) && WatchOf(s, kind) == WatchOf(r, kind) && s.nextId == r.nextId
    requires s.tasks == r.tasks && s.frames == r.frames
    ensures WatchOk(Fire(r, kind, ok), kind, None)
  {
    hide Expected;
    if WatchOf(r, kind).Some? {
      var w := WatchOf(r, kind).value;
      if w.active && w.armed && Signalled(r, kind) {
        PostExpects(WithWatch(r, kind, Some(w.(armed := false))), Task(w.id, kind, ok), w.id, kind);
      } else if w.active && !w.armed {
        MoreExpected(s, r, w.id, kind);
      }
    }
  }

  lemma ReceiverReturnsKeeps(s: State, accepted: bool)
    requires Inv(s) && s.frames != [] && s.frames[|s.frames| - 1].Dispatch?
    ensures var r := Step(s, ReceiverReturns(accepted));
            Inv(r) && s.delivered <= r.delivered && (s.error ==> r.delivered == s.delivered)
  {
    hide Expected, AfterAccept;
    var f := s.frames[|s.frames| - 1];
    assert IsClosing(f) ==> s.peerClosed;
    PopFrameKeeps(s, Read, Some(f.task));
    PopFrameKeeps(s, Closed, Some(f.task));
    AfterAcceptKeeps(s.(frames := s.frames[..|s.frames| - 1]), f.task, accepted);
  }

  lemma HandlerReturnsKeeps(s: State)
    requires Inv(s) && s.frames != [] && s.frames[|s.frames| - 1].Handler?
    ensures Inv(Step(s, HandlerReturns)) && Step(s, HandlerReturns).delivered == s.delivered
  {
    hide Expected;
    var f := s.frames[|s.frames| - 1];
    assert IsClosing(f) ==> s.peerClosed;
    PopFrameKeeps(s, Read, f.after);
    PopFrameKeeps(s, Closed, f.after);
    FinishKeeps(s.(frames := s.frames[..|s.frames| - 1]), f.after);
  }

  lemma PeerWritesKeeps(s: State, m: Msg, ok: bool)
    requires Inv(s)
    ensures Inv(Step(s, PeerWrites(m, ok))) && Step(s, PeerWrites(m, ok)).delivered == s.delivered
  {
    hide Expected;
    if !s.peerClosed && s.open {
      var r := s.(sent := s.sent + [m], inbox := s.inbox + [m]);
      assert s.taken + (s.inbox + [m]) == s.taken + s.inbox + [m];
      FireKeeps(s, r, Read, ok);
    }
  }

  lemma PeerClosesKeeps(s: State, ok: bool)
    requires Inv(s)
    ensures Inv(Step(s, PeerCloses(ok))) && Step(s, PeerCloses(ok)).delivered == s.delivered
  {
    hide Expected;
    FireKeeps(s, s.(peerClosed := true), Closed, ok);
  }

  lemma ResumeKeeps(s: State)
    requires Inv(s)
    ensures Inv(Resume(s)) && Resume(s).delivered == s.delivered
  {
    hide Expected, StartReceiving;
    if s.paused {
      var r := s.(paused := false);
      WatchKept(s, r, Read, None);
      WatchKept(s, r, Closed, None);
      StartKeeps(r);
    }
  }

  lemma DropKeeps(s: State)
    requires Inv(s)
    ensures Inv(Pause(s)) && Inv(CloseMessagePipe(s))
  {
    hide Expected;
  }

  lemma SetHandlerKeeps(s: State)
    requires Inv(s)
    ensures Inv(s.(handler := true))
  {
    hide Expected;
    WatchKept(s, s.(handler := true), Read, None);
    WatchKept(s, s.(handler := true), Closed, None);
  }

  lemma AcceptOutgoingKeeps(s: State, written: bool)
    requires Inv(s)
    ensures Inv(AcceptOutgoing(s, written)) && AcceptOutgoing(s, written).delivered == s.delivered
  {
    hide Expected, RaiseError;
    if s.open && !s.error && !written { RaiseKeeps(s, WriteFailed, None); }
  }

  lemma RaiseAnyway(s: State)
    requires Inv(s)
    ensures Inv(RaiseError(s, Raised, None)) && RaiseError(s, Raised, None).delivered == s.delivered
  {
    hide Expected, RaiseError;
    RaiseKeeps(s, Raised, None);
  }

  /** Arming only posts a task or marks the watcher. */
  lemma ArmFrame(s: State, kind: Kind)
    ensures Arm(s, kind).error == s.error && Arm(s, kind).nextId == s.nextId
  {
  }

  lemma FireFrame(s: State, kind: Kind, ok: bool)
    ensures Fire(s, kind, ok).error == s.error
  {
  }

  lemma FinishFrame(s: State, t: Option<Task>)
    ensures Finish(s, t).error == s.error
  {
    hide Arm;
    if t.Some? { ArmFrame(s, t.value.kind); }
  }

  lemma StartFrame(s: State)
    ensures StartReceiving(s).error == s.error
  {
    hide Arm;
    var r := s.(read := Some(Watch(s.nextId, true, false)));
    ArmFrame(r, Read);
    ArmFrame(Arm(r, Read).(closed := Some(Watch(s.nextId + 1, true, false)), nextId := s.nextId + 2), Closed);
  }

  lemma RaiseFrame(s: State, cause: Cause, t: Option<Task>)
    ensures RaiseError(s, cause, t).error
  {
    hide Finish;
    FinishFrame(s, t);
    FinishFrame(CloseMessagePipe(s.(error := true, cause := Some(cause))), t);
  }

  lemma TaskFrame(s: State)
    requires s.error && s.tasks != []
    ensures RunTask(s).error
  {
    hide Finish, ReadNext, RaiseError;
    var t := s.tasks[0];
    var r := s.(tasks := s.tasks[1..]);
    FinishFrame(r, Some(t));
    if r.closed.Some? { FinishFrame(r.(closed := Some(r.closed.value.(active := false))), Some(t)); }
  }

  lemma ErrorStays(s: State, e: Event)
    requires s.error
    ensures Step(s, e).error
  {
    hide Finish, ReadNext, RaiseError, StartReceiving, Fire, RunTask;
    match e {
      case PeerWrites(m, ok) => FireFrame(s.(sent := s.sent + [m], inbox := s.inbox + [m]), Read, ok);
      case PeerCloses(ok) => FireFrame(s.(peerClosed := true), Closed, ok);
      case TaskRuns => if s.tasks != [] { TaskFrame(s); }
      case ReceiverReturns(accepted) =>
        if s.frames != [] && s.frames[|s.frames| - 1].Dispatch? {
          var r, t := s.(frames := s.frames[..|s.frames| - 1]), s.frames[|s.frames| - 1].task;
          RaiseFrame(r, Rejected, Some(t));
          RaiseFrame(r, StoppedEarly, Some(t));
          FinishFrame(r, Some(t));
        }
      case HandlerReturns =>
        if s.frames != [] && s.frames[|s.frames| - 1].Handler? {
          FinishFrame(s.(frames := s.frames[..|s.frames| - 1]), s.frames[|s.frames| - 1].after);
        }
      case AppStarts => StartFrame(s);
      case AppResumes => StartFrame(s.(paused := false));
      case AppRaises => RaiseFrame(s, Raised, None);
      case _ =>
    }
  }

  /** Every event keeps the invariant; deliveries only grow, and not after an error. */
  lemma StepKeeps(s: State, e: Event)
    requires Inv(s)
    ensures Inv(Step(s, e)) && s.delivered <= Step(s, e).delivered
    ensures s.error ==> Step(s, e).delivered == s.delivered
  {
    hide Inv, RunTask, AfterAccept, Finish, Fire, StartReceiving, RaiseError, Resume, AcceptOutgoing;
    match e {
      case PeerWrites(m, ok) => PeerWritesKeeps(s, m, ok);
      case PeerCloses(ok) => PeerClosesKeeps(s, ok);
      case TaskRuns => if s.tasks != [] { RunTaskKeeps(s); }
      case ReceiverReturns(accepted) =>
        if s.frames != [] && s.frames[|s.frames| - 1].Dispatch? { ReceiverReturnsKeeps(s, accepted); }
      case HandlerReturns => if s.frames != [] && s.frames[|s.frames| - 1].Handler? { HandlerReturnsKeeps(s); }
      case AppStarts => StartKeeps(s);
      case AppPauses => DropKeeps(s);
      case AppResumes => ResumeKeeps(s);
      case AppRaises => RaiseAnyway(s);
      case AppCloses => DropKeeps(s);
      case AppSetsHandler => SetHandlerKeeps(s);
      case AppWrites(written) => AcceptOutgoingKeeps(s, written);
    }
  }
}
