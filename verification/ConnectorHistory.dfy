/**
  What the state of a connector tells about the events so far: which of them can have caused its
  error, and that it still watches for what it has to report.
 */
module ConnectorHistory {
  import opened Connecting
  import opened ConnectorInvariant
  import opened Wrappers

  /** The events without which an error of this cause is impossible. */
  predicate Brings(e: Event, cause: Cause) {
    match cause
    case PeerGone => e.PeerCloses?
    case StoppedEarly => e.AppPauses?
    case Malformed => e.PeerWrites? && !e.m.parses
    case Rejected => e.ReceiverReturns? && !e.accepted
    case PipeMissing => e.AppCloses?
    case BadEvent => e.PeerWrites? && !e.ok
    case WriteFailed => e.AppWrites? && !e.written
    case Raised => e.AppRaises?
  }

  predicate Happened(es: seq<Event>, cause: Cause) {
    exists i :: 0 <= i < |es| && Brings(es[i], cause)
  }

  lemma HappenedGrows(es: seq<Event>, e: Event, cause: Cause)
    ensures Happened(es + [e], cause) <==> Happened(es, cause) || Brings(e, cause)
  {
    var all := es + [e];
    if i :| 0 <= i < |es| && Brings(es[i], cause) { assert Brings(all[i], cause); }
    if Brings(e, cause) { assert Brings(all[|es|], cause); }
  }

  // ----- blame -----

  /** Whatever can lead to an error, and the error itself, goes back to an event. */
  predicate Blamed(s: State, es: seq<Event>) {
    && (s.paused ==> Happened(es, StoppedEarly))
    && (!s.open && !s.error ==> Happened(es, PipeMissing))
    && (s.peerClosed ==> Happened(es, PeerGone))
    && (forall i :: 0 <= i < |s.inbox| && !s.inbox[i].parses ==> Happened(es, Malformed))
    && (forall i :: 0 <= i < |s.tasks| && !s.tasks[i].ok && s.tasks[i].kind == Read ==> Happened(es, BadEvent))
    && (s.cause.Some? ==> Happened(es, s.cause.value))
  }

  lemma ArmBlamed(s: State, kind: Kind, es: seq<Event>)
    requires Blamed(s, es)
    ensures Blamed(Arm(s, kind), es)
  {
    hide Happened;
  }

  lemma FinishBlamed(s: State, t: Option<Task>, es: seq<Event>)
    requires Blamed(s, es)
    ensures Blamed(Finish(s, t), es)
  {
    hide Blamed, Arm;
    if t.Some? { ArmBlamed(s, t.value.kind, es); }
  }

  lemma StartBlamed(s: State, es: seq<Event>)
    requires Blamed(s, es)
    ensures Blamed(StartReceiving(s), es)
  {
    hide Arm, Happened;
    var r := s.(read := Some(Watch(s.nextId, true, false)));
    ArmBlamed(r, Read, es);
    var a := Arm(r, Read).(closed := Some(Watch(s.nextId + 1, true, false)), nextId := s.nextId + 2);
    ArmBlamed(a, Closed, es);
  }

  lemma FireBlamed(s: State, kind: Kind, ok: bool, es: seq<Event>)
    requires Blamed(s, es) && (kind == Read && !ok ==> Happened(es, BadEvent))
    ensures Blamed(Fire(s, kind, ok), es)
  {
    hide Happened;
  }

  lemma RaiseBlamed(s: State, cause: Cause, t: Option<Task>, es: seq<Event>)
    requires Blamed(s, es) && (s.error || Happened(es, cause))
    ensures Blamed(RaiseError(s, cause, t), es)
  {
    hide Happened, Finish;
    var r := CloseMessagePipe(s.(error := true, cause := Some(cause)));
    FinishBlamed(s, t, es);
    if !s.error {
      FinishBlamed(r, t, es);
    }
  }

  lemma EndDrainBlamed(s: State, t: Task, es: seq<Event>)
    requires Blamed(s, es) && (t.kind == Closed ==> s.error || s.paused)
    ensures Blamed(EndDrain(s, t), es)
  {
    hide Happened, RaiseError, Finish;
    if t.kind == Closed { RaiseBlamed(s, StoppedEarly, Some(t), es); } else { FinishBlamed(s, Some(t), es); }
  }

  lemma ReadNextBlamed(s: State, t: Task, es: seq<Event>)
    requires Blamed(s, es) && !s.error && (t.kind == Closed ==> s.peerClosed)
    ensures Blamed(ReadNext(s, t), es)
  {
    hide Happened, RaiseError, EndDrain;
    if !s.open {
      RaiseBlamed(s, PipeMissing, Some(t), es);
    } else if s.inbox == [] {
      if s.peerClosed { RaiseBlamed(s, PeerGone, Some(t), es); } else { EndDrainBlamed(s, t, es); }
    } else {
      var r := s.(inbox := s.inbox[1..], taken := s.taken + [s.inbox[0]]);
      assert Blamed(r, es);
      if !s.inbox[0].parses { RaiseBlamed(r, Malformed, Some(t), es); }
    }
  }

  lemma TaskBlamed(s: State, es: seq<Event>)
    requires Inv(s) && Blamed(s, es) && s.tasks != []
    ensures Blamed(RunTask(s), es)
  {
    hide Happened, RaiseError, Finish, ReadNext, InOrder, AllDelivered, WatchesOk;
    var t := s.tasks[0];
    var r := s.(tasks := s.tasks[1..]);
    assert Blamed(r, es);
    FinishBlamed(r, Some(t), es);
    if t.kind == Read {
      if !t.ok { RaiseBlamed(r, BadEvent, Some(t), es); }
      if !r.error { ReadNextBlamed(r, t, es); }
    } else if r.closed.Some? {
      var q := r.(closed := Some(r.closed.value.(active := false)));
      assert Blamed(q, es);
      FinishBlamed(q, Some(t), es);
      if !q.error { ReadNextBlamed(q, t, es); }
    }
  }

  lemma ReturnBlamed(s: State, accepted: bool, es: seq<Event>)
    requires Inv(s) && Blamed(s, es) && s.frames != [] && s.frames[|s.frames| - 1].Dispatch?
    requires !accepted ==> Happened(es, Rejected)
    ensures Blamed(Step(s, ReceiverReturns(accepted)), es)
  {
    hide Happened, RaiseError, EndDrain, ReadNext, InOrder, AllDelivered, WatchesOk;
    var f := s.frames[|s.frames| - 1];
    var r := s.(frames := s.frames[..|s.frames| - 1]);
    assert IsClosing(f) ==> s.peerClosed;
    assert Blamed(r, es);
    if !accepted {
      RaiseBlamed(r, Rejected, Some(f.task), es);
    } else if r.error || r.paused {
      EndDrainBlamed(r, f.task, es);
    } else {
      ReadNextBlamed(r, f.task, es);
    }
  }

  /** One event more leaves everything accounted for. */
  lemma BlamedGrows(s: State, e: Event, es: seq<Event>)
    requires Blamed(s, es)
    ensures Blamed(s, es + [e]) && forall c: Cause :: Brings(e, c) ==> Happened(es + [e], c)
  {
    hide Happened;
    forall c: Cause ensures Happened(es + [e], c) <==> Happened(es, c) || Brings(e, c) { HappenedGrows(es, e, c); }
  }

  lemma PeerBlamed(s: State, e: Event, es: seq<Event>)
    requires (e.PeerWrites? || e.PeerCloses?) && Blamed(s, es) && forall c: Cause :: Brings(e, c) ==> Happened(es, c)
    ensures Blamed(Step(s, e), es)
  {
    hide Happened, Fire;
    match e {
      case PeerWrites(m, ok) =>
        assert Brings(e, Malformed) <==> !m.parses;
        assert Brings(e, BadEvent) <==> !ok;
        FireBlamed(s.(sent := s.sent + [m], inbox := s.inbox + [m]), Read, ok, es);
      case PeerCloses(ok) =>
        assert Brings(e, PeerGone);
        FireBlamed(s.(peerClosed := true), Closed, ok, es);
    }
  }

  lemma AppBlamed(s: State, e: Event, es: seq<Event>)
    requires Blamed(s, es) && forall c: Cause :: Brings(e, c) ==> Happened(es, c)
    requires !e.PeerWrites? && !e.PeerCloses? && !e.TaskRuns? && !e.ReceiverReturns? && !e.HandlerReturns?
    ensures Blamed(Step(s, e), es)
  {
    hide Happened, StartReceiving, RaiseError;
    match e {
      case AppStarts => StartBlamed(s, es);
      case AppPauses => assert Brings(e, StoppedEarly);
      case AppResumes => StartBlamed(s.(paused := false), es);
      case AppRaises =>
        assert Brings(e, Raised);
        RaiseBlamed(s, Raised, None, es);
      case AppCloses => assert Brings(e, PipeMissing);
      case AppSetsHandler =>
      case AppWrites(written) =>
        assert Brings(e, WriteFailed) <==> !written;
        if !written { RaiseBlamed(s, WriteFailed, None, es); }
    }
  }

  lemma PopFrameBlamed(s: State, es: seq<Event>)
    requires Blamed(s, es) && s.frames != []
    ensures Blamed(s.(frames := s.frames[..|s.frames| - 1]), es)
  {
    hide Happened;
  }

  lemma StepBlamed(s: State, e: Event, es: seq<Event>)
    requires Inv(s) && Blamed(s, es)
    ensures Blamed(Step(s, e), es + [e])
  {
    hide Happened, Inv, Blamed, RunTask, Finish, Fire, StartReceiving, RaiseError, AfterAccept;
    var all := es + [e];
    BlamedGrows(s, e, es);
    match e {
      case PeerWrites(m, ok) => PeerBlamed(s, e, all);
      case PeerCloses(ok) => PeerBlamed(s, e, all);
      case TaskRuns => if s.tasks != [] { TaskBlamed(s, all); }
      case ReceiverReturns(accepted) =>
        assert !accepted ==> Brings(e, Rejected);
        if s.frames != [] && s.frames[|s.frames| - 1].Dispatch? { ReturnBlamed(s, accepted, all); }
      case HandlerReturns =>
        if s.frames != [] && s.frames[|s.frames| - 1].Handler? {
          PopFrameBlamed(s, all);
          FinishBlamed(s.(frames := s.frames[..|s.frames| - 1]), s.frames[|s.frames| - 1].after, all);
        }
      case _ => AppBlamed(s, e, all);
    }
  }

  // ----- the closing watcher -----

  /** The drain that the peer's closing began is at a delivery. */
  predicate Draining(s: State) {
    exists i :: 0 <= i < |s.frames| && s.frames[i].Dispatch? && s.frames[i].task.kind == Closed
  }

  /** A paused connector watches nothing, and a spent closing watcher has its drain going. */
  predicate Attentive(s: State) {
    && (s.paused ==> s.read.None?)
    && (s.closed.Some? && !s.closed.value.active ==> Draining(s))
  }

  lemma DrainingKept(s: State, r: State)
    requires Draining(s) && s.frames <= r.frames
    ensures Draining(r)
  {
    var i :| 0 <= i < |s.frames| && s.frames[i].Dispatch? && s.frames[i].task.kind == Closed;
    assert r.frames[i] == s.frames[i];
  }

  lemma ArmAttentive(s: State, kind: Kind)
    requires Attentive(s)
    ensures Attentive(Arm(s, kind))
  {
    if Draining(s) { DrainingKept(s, Arm(s, kind)); }
  }

  lemma FinishAttentive(s: State, t: Option<Task>)
    requires Attentive(s)
    ensures Attentive(Finish(s, t))
  {
    hide Attentive, Arm;
    if t.Some? { ArmAttentive(s, t.value.kind); }
  }

  lemma StartAttentive(s: State)
    requires Attentive(s) && ErrorOk(s) && !s.paused
    ensures Attentive(StartReceiving(s))
  {
    hide Arm, Draining;
    if s.open && s.read.None? {
      var r := s.(read := Some(Watch(s.nextId, true, false)));
      ArmAttentive(r, Read);
      ArmUnpaused(r, Read);
      ArmAttentive(Arm(r, Read).(closed := Some(Watch(s.nextId + 1, true, false)), nextId := s.nextId + 2), Closed);
    }
  }

  lemma ArmUnpaused(s: State, kind: Kind)
    ensures Arm(s, kind).paused == s.paused
  {
  }

  lemma FireAttentive(s: State, kind: Kind, ok: bool)
    requires Attentive(s)
    ensures Attentive(Fire(s, kind, ok))
  {
    if Draining(s) { DrainingKept(s, Fire(s, kind, ok)); }
  }

  /** An error leaves no watcher. */
  lemma RaiseDrops(s: State, cause: Cause, t: Option<Task>)
    requires ErrorOk(s)
    ensures RaiseError(s, cause, t).read.None? && RaiseError(s, cause, t).closed.None?
  {
  }

  lemma ReadNextAttentive(s: State, t: Task)
    requires ErrorOk(s) && !s.error
    requires Attentive(if t.kind == Closed then s.(closed := None) else s)
    ensures Attentive(ReadNext(s, t))
  {
    hide RaiseError, Finish;
    RaiseDrops(s, PipeMissing, Some(t));
    RaiseDrops(s, PeerGone, Some(t));
    RaiseDrops(s, StoppedEarly, Some(t));
    if s.open && s.inbox != [] {
      var r := s.(inbox := s.inbox[1..], taken := s.taken + [s.inbox[0]]);
      RaiseDrops(r, Malformed, Some(t));
      var d := ReadNext(s, t);
      if s.inbox[0].parses {
        if t.kind == Closed {
          assert d.frames[|s.frames|] == Dispatch(t);
        } else if Draining(s) {
          DrainingKept(s, d);
        }
      }
    } else if t.kind == Read {
      FinishAttentive(s, Some(t));
    }
  }

  lemma TaskAttentive(s: State)
    requires Inv(s) && Attentive(s) && s.tasks != []
    ensures Attentive(RunTask(s))
  {
    hide RaiseError, Finish, ReadNext, InOrder, AllDelivered, WatchesOk, Draining;
    var t := s.tasks[0];
    var r := s.(tasks := s.tasks[1..]);
    if Draining(s) { DrainingKept(s, r); }
    if Live(r, t) {
      if t.kind == Read {
        RaiseDrops(r, BadEvent, Some(t));
        ReadNextAttentive(r, t);
      } else {
        var q := r.(closed := Some(r.closed.value.(active := false)));
        ReadNextAttentive(q, t);
      }
    }
  }

  lemma ReturnAttentive(s: State, accepted: bool)
    requires Inv(s) && Attentive(s) && s.frames != [] && s.frames[|s.frames| - 1].Dispatch?
    ensures Attentive(Step(s, ReceiverReturns(accepted)))
  {
    hide RaiseError, Finish, ReadNext, InOrder, AllDelivered, WatchesOk, Draining;
    var t := s.frames[|s.frames| - 1].task;
    var r := s.(frames := s.frames[..|s.frames| - 1]);
    RaiseDrops(r, Rejected, Some(t));
    RaiseDrops(r, StoppedEarly, Some(t));
    if t.kind == Read && Draining(s) { DrainingBelow(s); }
    if t.kind == Read { FinishAttentive(r, Some(t)); }
    if !r.error && !r.paused { ReadNextAttentive(r, t); }
  }

  /** A frame of another kind can go. */
  lemma DrainingBelow(s: State)
    requires Draining(s)
    requires var f := s.frames[|s.frames| - 1]; f.Handler? || f.task.kind == Read
    ensures Draining(s.(frames := s.frames[..|s.frames| - 1]))
  {
    var i :| 0 <= i < |s.frames| && s.frames[i].Dispatch? && s.frames[i].task.kind == Closed;
    assert s.frames[..|s.frames| - 1][i] == s.frames[i];
  }

  lemma PeerAttentive(s: State, e: Event)
    requires Attentive(s) && (e.PeerWrites? || e.PeerCloses?)
    ensures Attentive(Step(s, e))
  {
    hide Fire, Draining;
    match e {
      case PeerWrites(m, ok) =>
        var r := s.(sent := s.sent + [m], inbox := s.inbox + [m]);
        if Draining(s) { DrainingKept(s, r); }
        FireAttentive(r, Read, ok);
      case PeerCloses(ok) =>
        if Draining(s) { DrainingKept(s, s.(peerClosed := true)); }
        FireAttentive(s.(peerClosed := true), Closed, ok);
    }
  }

  lemma AppAttentive(s: State, e: Event)
    requires ErrorOk(s) && Attentive(s) && (e.AppStarts? ==> !s.paused)
    requires !e.PeerWrites? && !e.PeerCloses? && !e.TaskRuns? && !e.ReceiverReturns? && !e.HandlerReturns?
    ensures Attentive(Step(s, e))
  {
    hide StartReceiving, RaiseError, Draining;
    match e {
      case AppStarts => StartAttentive(s);
      case AppPauses =>
      case AppResumes =>
        var r := s.(paused := false);
        if Draining(s) { DrainingKept(s, r); }
        StartAttentive(r);
      case AppRaises => RaiseDrops(s, Raised, None);
      case AppCloses =>
      case AppSetsHandler => if Draining(s) { DrainingKept(s, s.(handler := true)); }
      case AppWrites(written) => RaiseDrops(s, WriteFailed, None);
    }
  }

  lemma HandlerAttentive(s: State)
    requires Attentive(s) && s.frames != [] && s.frames[|s.frames| - 1].Handler?
    ensures Attentive(s.(frames := s.frames[..|s.frames| - 1]))
  {
    hide Draining;
    if Draining(s) { DrainingBelow(s); }
  }

  lemma StepAttentive(s: State, e: Event)
    requires Inv(s) && Attentive(s) && (e.AppStarts? ==> !s.paused)
    ensures Attentive(Step(s, e))
  {
    hide InOrder, AllDelivered, WatchesOk, ErrorOk, RunTask, Finish, Fire, StartReceiving, RaiseError, AfterAccept, Attentive;
    match e {
      case PeerWrites(m, ok) => PeerAttentive(s, e);
      case PeerCloses(ok) => PeerAttentive(s, e);
      case TaskRuns => if s.tasks != [] { TaskAttentive(s); }
      case ReceiverReturns(accepted) =>
        if s.frames != [] && s.frames[|s.frames| - 1].Dispatch? { ReturnAttentive(s, accepted); }
      case HandlerReturns =>
        if s.frames != [] && s.frames[|s.frames| - 1].Handler? {
          HandlerAttentive(s);
          FinishAttentive(s.(frames := s.frames[..|s.frames| - 1]), s.frames[|s.frames| - 1].after);
        }
      case _ => AppAttentive(s, e);
    }
  }

  // ----- still receiving -----

  predicate Receiving(s: State) { s.read.Some? || s.error }

  lemma ArmReceiving(s: State, kind: Kind, ok: bool)
    ensures (Arm(s, kind).read.Some? <==> s.read.Some?) && (Fire(s, kind, ok).read.Some? <==> s.read.Some?)
  {
  }

  lemma FinishReceiving(s: State, t: Option<Task>)
    requires Receiving(s)
    ensures Receiving(Finish(s, t))
  {
    hide Arm;
    if t.Some? {
      ArmReceiving(s, t.value.kind, true);
      ArmFrame(s, t.value.kind);
    }
  }

  lemma StartIsReceiving(s: State)
    requires s.open || Receiving(s)
    ensures Receiving(StartReceiving(s))
  {
    hide Arm;
    if s.open && s.read.None? {
      var r := s.(read := Some(Watch(s.nextId, true, false)));
      ArmReceiving(r, Read, true);
      ArmReceiving(Arm(r, Read).(closed := Some(Watch(s.nextId + 1, true, false)), nextId := s.nextId + 2), Closed, true);
    } else {
      StartFrame(s);
    }
  }

  lemma ReadNextReceiving(s: State, t: Task)
    requires Receiving(s)
    ensures Receiving(ReadNext(s, t))
  {
    hide RaiseError, Finish;
    var r := s.(inbox := if s.inbox == [] then [] else s.inbox[1..], taken := if s.inbox == [] then s.taken else s.taken + [s.inbox[0]]);
    RaiseFrame(s, PipeMissing, Some(t));
    RaiseFrame(s, PeerGone, Some(t));
    RaiseFrame(s, StoppedEarly, Some(t));
    RaiseFrame(r, Malformed, Some(t));
    FinishReceiving(s, Some(t));
  }

  lemma TaskReceiving(s: State)
    requires Receiving(s) && s.tasks != []
    ensures Receiving(RunTask(s))
  {
    hide RaiseError, Finish, ReadNext;
    var t := s.tasks[0];
    var r := s.(tasks := s.tasks[1..]);
    if Live(r, t) {
      if t.kind == Read {
        FinishReceiving(r, Some(t));
        RaiseFrame(r, BadEvent, Some(t));
        ReadNextReceiving(r, t);
      } else {
        var q := r.(closed := Some(r.closed.value.(active := false)));
        FinishReceiving(q, Some(t));
        ReadNextReceiving(q, t);
      }
    }
  }

  lemma ReturnReceiving(s: State, t: Task, accepted: bool)
    requires Receiving(s)
    ensures Receiving(AfterAccept(s, t, accepted))
  {
    hide RaiseError, Finish, ReadNext;
    RaiseFrame(s, Rejected, Some(t));
    RaiseFrame(s, StoppedEarly, Some(t));
    FinishReceiving(s, Some(t));
    ReadNextReceiving(s, t);
  }

  /** Only pausing, closing and an error end the receiving. */
  lemma StepReceiving(s: State, e: Event)
    requires Receiving(s) && !e.AppPauses? && !e.AppCloses?
    ensures Receiving(Step(s, e))
  {
    hide RaiseError, Finish, RunTask, AfterAccept, Fire, StartReceiving;
    match e {
      case PeerWrites(m, ok) =>
        var r := s.(sent := s.sent + [m], inbox := s.inbox + [m]);
        ArmReceiving(r, Read, ok);
        FireFrame(r, Read, ok);
      case PeerCloses(ok) =>
        ArmReceiving(s.(peerClosed := true), Closed, ok);
        FireFrame(s.(peerClosed := true), Closed, ok);
      case TaskRuns => if s.tasks != [] { TaskReceiving(s); }
      case ReceiverReturns(accepted) =>
        if s.frames != [] && s.frames[|s.frames| - 1].Dispatch? {
          ReturnReceiving(s.(frames := s.frames[..|s.frames| - 1]), s.frames[|s.frames| - 1].task, accepted);
        }
      case HandlerReturns =>
        if s.frames != [] && s.frames[|s.frames| - 1].Handler? {
          FinishReceiving(s.(frames := s.frames[..|s.frames| - 1]), s.frames[|s.frames| - 1].after);
        }
      case AppStarts => StartIsReceiving(s);
      case AppResumes => StartIsReceiving(s.(paused := false));
      case AppRaises => RaiseFrame(s, Raised, None);
      case AppSetsHandler =>
      case AppWrites(written) => RaiseFrame(s, WriteFailed, None);
    }
  }

  // ----- paused, open, handled -----

  /** The handler runs when the error is raised, if there is one, and is used up by it. */
  predicate CallsHandler(s: State, r: State) {
    if s.error || !r.error then r.handler == s.handler && r.handlerRuns == s.handlerRuns
    else !r.handler && r.handlerRuns == s.handlerRuns + if s.handler then 1 else 0
  }

  /** Nothing here pauses or resumes, a pipe that is gone stays gone, and only an error calls the handler. */
  predicate SameMode(s: State, r: State) {
    r.paused == s.paused && (!s.open ==> !r.open) && CallsHandler(s, r) && (s.error ==> r.error)
  }

  lemma ArmMode(s: State, kind: Kind)
    ensures SameMode(s, Arm(s, kind))
  {
    hide Signalled;
  }

  lemma FireMode(s: State, kind: Kind, ok: bool)
    ensures SameMode(s, Fire(s, kind, ok))
  {
    hide Signalled;
  }

  lemma FinishMode(s: State, t: Option<Task>)
    ensures SameMode(s, Finish(s, t))
  {
    hide Arm;
    if t.Some? { ArmMode(s, t.value.kind); }
  }

  lemma StartMode(s: State)
    ensures SameMode(s, StartReceiving(s))
  {
    hide Arm;
    var r := s.(read := Some(Watch(s.nextId, true, false)));
    ArmMode(r, Read);
    ArmMode(Arm(r, Read).(closed := Some(Watch(s.nextId + 1, true, false)), nextId := s.nextId + 2), Closed);
  }

  lemma RaiseMode(s: State, cause: Cause, t: Option<Task>)
    ensures SameMode(s, RaiseError(s, cause, t))
  {
    hide Finish;
    FinishMode(s, t);
    FinishMode(CloseMessagePipe(s.(error := true, cause := Some(cause))), t);
  }

  lemma ReadNextMode(s: State, t: Task)
    ensures SameMode(s, ReadNext(s, t))
  {
    hide RaiseError, Finish;
    FinishMode(s, Some(t));
    RaiseMode(s, PipeMissing, Some(t));
    RaiseMode(s, PeerGone, Some(t));
    RaiseMode(s, StoppedEarly, Some(t));
    if s.inbox != [] { RaiseMode(s.(inbox := s.inbox[1..], taken := s.taken + [s.inbox[0]]), Malformed, Some(t)); }
  }

  lemma TaskMode(s: State)
    requires s.tasks != []
    ensures SameMode(s, RunTask(s))
  {
    hide RaiseError, Finish, ReadNext;
    var t := s.tasks[0];
    var r := s.(tasks := s.tasks[1..]);
    var q := if r.closed.Some? then r.(closed := Some(r.closed.value.(active := false))) else r;
    FinishMode(r, Some(t));
    FinishMode(q, Some(t));
    RaiseMode(r, BadEvent, Some(t));
    ReadNextMode(r, t);
    ReadNextMode(q, t);
  }

  lemma ReturnMode(s: State, t: Task, accepted: bool)
    ensures SameMode(s, AfterAccept(s, t, accepted))
  {
    hide RaiseError, Finish, ReadNext;
    RaiseMode(s, Rejected, Some(t));
    RaiseMode(s, StoppedEarly, Some(t));
    FinishMode(s, Some(t));
    ReadNextMode(s, t);
  }

  /** What an event does to the mode: only two calls change whether the connector is paused, and only one sets the handler. */
  predicate KeepsMode(s: State, e: Event, r: State) {
    && (if e.AppSetsHandler? then r == s.(handler := true) else CallsHandler(s, r))
    && r.paused == (if e.AppPauses? then true else if e.AppResumes? then false else s.paused)
    && (!s.open ==> !r.open)
  }

  lemma StepMode(s: State, e: Event)
    ensures KeepsMode(s, e, Step(s, e))
  {
    if e.PeerWrites? || e.PeerCloses? || e.TaskRuns? || e.ReceiverReturns? || e.HandlerReturns? {
      PipeMode(s, e);
    } else {
      AppMode(s, e);
    }
  }

  lemma PipeMode(s: State, e: Event)
    requires e.PeerWrites? || e.PeerCloses? || e.TaskRuns? || e.ReceiverReturns? || e.HandlerReturns?
    ensures KeepsMode(s, e, Step(s, e))
  {
    hide RaiseError, Finish, ReadNext, RunTask, AfterAccept, Fire, StartReceiving;
    match e {
      case PeerWrites(m, ok) => FireMode(s.(sent := s.sent + [m], inbox := s.inbox + [m]), Read, ok);
      case PeerCloses(ok) => FireMode(s.(peerClosed := true), Closed, ok);
      case TaskRuns => if s.tasks != [] { TaskMode(s); }
      case ReceiverReturns(accepted) =>
        if s.frames != [] && s.frames[|s.frames| - 1].Dispatch? {
          ReturnMode(s.(frames := s.frames[..|s.frames| - 1]), s.frames[|s.frames| - 1].task, accepted);
        }
      case HandlerReturns =>
        if s.frames != [] && s.frames[|s.frames| - 1].Handler? {
          FinishMode(s.(frames := s.frames[..|s.frames| - 1]), s.frames[|s.frames| - 1].after);
        }
    }
  }

  lemma AppMode(s: State, e: Event)
    requires !e.PeerWrites? && !e.PeerCloses? && !e.TaskRuns? && !e.ReceiverReturns? && !e.HandlerReturns?
    ensures KeepsMode(s, e, Step(s, e))
  {
    hide RaiseError, Finish, ReadNext, RunTask, AfterAccept, Fire, StartReceiving;
    match e {
      case AppStarts => StartMode(s);
      case AppResumes => StartMode(s.(paused := false));
      case AppRaises => RaiseMode(s, Raised, None);
      case AppWrites(written) => RaiseMode(s, WriteFailed, None);
      case _ =>
    }
  }

  /** Receiving again after a pause: a connector that was started or resumed watches, unless it is paused, gone or failed. */
  predicate Serving(s: State) { s.paused || !s.open || Receiving(s) }

  lemma StepServing(s: State, e: Event)
    requires Serving(s)
    ensures Serving(Step(s, e))
  {
    hide Step, Receiving;
    StepMode(s, e);
    if s.open && !s.paused {
      if e.AppCloses? {
        ClosingCloses(s);
      } else if !e.AppPauses? {
        StepReceiving(s, e);
      }
    } else if s.open && e.AppResumes? {
      ResumeServes(s);
    }
  }

  lemma ClosingCloses(s: State)
    ensures !Step(s, AppCloses).open
  {
  }

  lemma ResumeServes(s: State)
    requires s.paused
    ensures Serving(Step(s, AppResumes))
  {
    hide StartReceiving;
    var r := s.(paused := false);
    StartMode(r);
    if s.open { StartIsReceiving(r); }
  }

  lemma StartServes(s: State)
    ensures Serving(Step(s, AppStarts)) && (s.paused ==> Step(s, AppStarts).paused)
  {
    hide StartReceiving;
    StartMode(s);
    if s.open { StartIsReceiving(s); }
  }
}
