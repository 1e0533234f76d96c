/**
  Which messages a connector delivers: the ones that can be read.
 */
module ConnectorMessages {
  import opened Connecting
  import opened ConnectorInvariant
  import opened Wrappers

  /** Only messages that can be read are delivered; one that was taken but cannot be read is an error. */
  predicate Readable(s: State) {
    && (forall i :: 0 <= i < |s.delivered| ==> s.delivered[i].parses)
    && s.delivered <= s.taken && |s.taken| <= |s.delivered| + 1
    && (|s.taken| > |s.delivered| ==> s.error && !s.taken[|s.delivered|].parses)
  }

  lemma ReadNextReadable(s: State, t: Task)
    requires Readable(s) && !s.error
    ensures Readable(ReadNext(s, t))
  {
    hide RaiseError, Finish;
    RaiseMessages(s, PipeMissing, Some(t));
    RaiseMessages(s, PeerGone, Some(t));
    RaiseMessages(s, StoppedEarly, Some(t));
    FinishMessages(s, Some(t));
    if s.inbox != [] {
      var r := s.(inbox := s.inbox[1..], taken := s.taken + [s.inbox[0]]);
      RaiseMessages(r, Malformed, Some(t));
      RaiseFrame(r, Malformed, Some(t));
    }
  }

  lemma FinishMessages(s: State, t: Option<Task>)
    ensures Finish(s, t).delivered == s.delivered && Finish(s, t).taken == s.taken && Finish(s, t).error == s.error
  {
  }

  lemma RaiseMessages(s: State, cause: Cause, t: Option<Task>)
    ensures var r := RaiseError(s, cause, t); r.delivered == s.delivered && r.taken == s.taken
  {
    hide Finish;
    FinishMessages(s, t);
    FinishMessages(CloseMessagePipe(s.(error := true, cause := Some(cause))), t);
  }

  lemma TaskReadable(s: State)
    requires Readable(s) && s.tasks != []
    ensures Readable(RunTask(s))
  {
    hide RaiseError, Finish, ReadNext;
    var t := s.tasks[0];
    var r := s.(tasks := s.tasks[1..]);
    if Live(r, t) {
      FinishMessages(r, Some(t));
      if t.kind == Read {
        RaiseMessages(r, BadEvent, Some(t));
        if !s.error { ReadNextReadable(r, t); }
      } else {
        var q := r.(closed := Some(r.closed.value.(active := false)));
        FinishMessages(q, Some(t));
        if !s.error { ReadNextReadable(q, t); }
      }
    }
  }

  lemma StepReadable(s: State, e: Event)
    requires Readable(s)
    ensures Readable(Step(s, e))
  {
    hide RaiseError, Finish, ReadNext, Fire, StartReceiving, RunTask;
    if s.error { ErrorStays(s, e); }
    match e {
      case PeerWrites(m, ok) => FireMessages(s.(sent := s.sent + [m], inbox := s.inbox + [m]), Read, ok);
      case PeerCloses(ok) => FireMessages(s.(peerClosed := true), Closed, ok);
      case TaskRuns => if s.tasks != [] { TaskReadable(s); }
      case ReceiverReturns(accepted) =>
        if s.frames != [] && s.frames[|s.frames| - 1].Dispatch? {
          var r, t := s.(frames := s.frames[..|s.frames| - 1]), s.frames[|s.frames| - 1].task;
          FinishMessages(r, Some(t));
          RaiseMessages(r, Rejected, Some(t));
          RaiseMessages(r, StoppedEarly, Some(t));
          if !s.error { ReadNextReadable(r, t); }
        }
      case HandlerReturns =>
        if s.frames != [] && s.frames[|s.frames| - 1].Handler? {
          FinishMessages(s.(frames := s.frames[..|s.frames| - 1]), s.frames[|s.frames| - 1].after);
        }
      case AppStarts => StartMessages(s);
      case AppResumes => StartMessages(s.(paused := false));
      case AppRaises => RaiseMessages(s, Raised, None);
      case AppWrites(written) => RaiseMessages(s, WriteFailed, None);
      case _ =>
    }
  }

  lemma FireMessages(s: State, kind: Kind, ok: bool)
    ensures var r := Fire(s, kind, ok); r.delivered == s.delivered && r.taken == s.taken && r.error == s.error
  {
  }

  lemma StartMessages(s: State)
    ensures var r := StartReceiving(s); r.delivered == s.delivered && r.taken == s.taken && r.error == s.error
  {
  }
}
