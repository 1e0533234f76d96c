/**
  A connector on one end of a message pipe: what it delivers and when it reports an error, over
  every order of writes by the peer, posted tasks, and calls by the application, which may come
  from inside a delivery or the error handler.
 */
module Connecting {
  import opened Wrappers

  /** A message as the peer wrote it; the connector only asks whether its header can be read. */
  datatype Msg = Msg(id: nat, parses: bool)

  /** A watcher object on the pipe: cancelled or not, its trap armed or not. */
  datatype Watch = Watch(id: nat, active: bool, armed: bool)

  datatype Kind = Read | Closed

  /** A task a watcher posted, with the trap event's result. */
  datatype Task = Task(watch: nat, kind: Kind, ok: bool)

  /** Where a callback has called out: a delivery, or the error handler. */
  datatype Frame =
    | Dispatch(task: Task)
    | Handler(after: Option<Task>)

  /** Why the connector raised its error. */
  datatype Cause =
    | PeerGone
    | StoppedEarly
    | Malformed
    | Rejected
    | PipeMissing
    | BadEvent
    | WriteFailed
    | Raised

  datatype State = State(
    error: bool, paused: bool, open: bool, read: Option<Watch>, closed: Option<Watch>, nextId: nat,
    handler: bool, handlerRuns: nat, cause: Option<Cause>,
    tasks: seq<Task>, frames: seq<Frame>,
    inbox: seq<Msg>, sent: seq<Msg>, taken: seq<Msg>, delivered: seq<Msg>, peerClosed: bool)

  function Init(): State {
    State(false, false, true, None, None, 0, false, 0, None, [], [], [], [], [], [], false)
  }

  // ----- watchers -----

  predicate Signalled(s: State, kind: Kind) {
    match kind case Read => s.inbox != [] case Closed => s.peerClosed
  }

  function WatchOf(s: State, kind: Kind): Option<Watch> {
    match kind case Read => s.read case Closed => s.closed
  }

  function WithWatch(s: State, kind: Kind, w: Option<Watch>): State {
    match kind case Read => s.(read := w) case Closed => s.(closed := w)
  }

  function Post(s: State, t: Task): State { s.(tasks := s.tasks + [t]) }

  /** Arms a watcher's trap, or posts its task when the signal is there already. */
  function Arm(s: State, kind: Kind): State {
    match WatchOf(s, kind)
    case None => s
    case Some(w) =>
      if !w.active then s
      else if Signalled(s, kind) then Post(s, Task(w.id, kind, true))
      else WithWatch(s, kind, Some(w.(armed := true)))
  }

  /** A change of the pipe sets off a trap that was armed for it. */
  function Fire(s: State, kind: Kind, ok: bool): State {
    match WatchOf(s, kind)
    case None => s
    case Some(w) =>
      if w.active && w.armed && Signalled(s, kind)
      then Post(WithWatch(s, kind, Some(w.(armed := false))), Task(w.id, kind, ok))
      else s
  }

  /** The watcher that posted the task is still there and watching. */
  predicate Live(s: State, t: Task) {
    match WatchOf(s, t.kind) case None => false case Some(w) => w.id == t.watch && w.active
  }

  // ----- the connector's calls, cut where they call out -----

  function CancelWatchers(s: State): State { s.(read := None, closed := None) }

  function StartReceiving(s: State): State {
    if !s.open || s.read.Some? then s
    else
      var r := Arm(s.(read := Some(Watch(s.nextId, true, false))), Read);
      Arm(r.(closed := Some(Watch(s.nextId + 1, true, false)), nextId := s.nextId + 2), Closed)
  }

  function Pause(s: State): State { CancelWatchers(s.(paused := true)) }

  function Resume(s: State): State { if !s.paused then s else StartReceiving(s.(paused := false)) }

  function CloseMessagePipe(s: State): State { CancelWatchers(s).(open := false, inbox := []) }

  /** When a task's callback is over, its watcher arms again. */
  function Finish(s: State, t: Option<Task>): State {
    match t
    case None => s
    case Some(task) => if Live(s, task) then Arm(s, task.kind) else s
  }

  /** The error handler is called if there is one, and the end of the callback comes after it. */
  function CallHandler(s: State, t: Option<Task>): State {
    if s.handler then s.(handler := false, handlerRuns := s.handlerRuns + 1, frames := s.frames + [Handler(t)])
    else Finish(s, t)
  }

  /** RaiseError, and then the end of the callback that led to it. */
  function RaiseError(s: State, cause: Cause, t: Option<Task>): State {
    if s.error then Finish(s, t)
    else CallHandler(CloseMessagePipe(s.(error := true, cause := Some(cause))), t)
  }

  /** The end of a drain: one that the closing of the peer began raises the error. */
  function EndDrain(s: State, t: Task): State {
    if t.kind == Closed then RaiseError(s, StoppedEarly, Some(t)) else Finish(s, Some(t))
  }

  /** One turn of ReadAllAvailableMessages, up to the call of the receiver. */
  function ReadNext(s: State, t: Task): State {
    if !s.open then RaiseError(s, PipeMissing, Some(t))
    else if s.inbox == [] then
      if s.peerClosed then RaiseError(s, PeerGone, Some(t)) else EndDrain(s, t)
    else
      var m := s.inbox[0];
      var r := s.(inbox := s.inbox[1..], taken := s.taken + [m]);
      if !m.parses then RaiseError(r, Malformed, Some(t))
      else r.(delivered := r.delivered + [m], frames := r.frames + [Dispatch(t)])
  }

  /** The rest of the turn, when the receiver is back. */
  function AfterAccept(s: State, t: Task, accepted: bool): State {
    if !accepted then RaiseError(s, Rejected, Some(t))
    else if s.error || s.paused then EndDrain(s, t)
    else ReadNext(s, t)
  }

  function OnReadable(s: State, t: Task): State {
    if s.paused || s.error then Finish(s, Some(t))
    else if !t.ok then RaiseError(s, BadEvent, Some(t))
    else ReadNext(s, t)
  }

  function OnPeerClosed(s: State, t: Task): State {
    var r := if s.closed.Some? then s.(closed := Some(s.closed.value.(active := false))) else s;
    if r.paused || r.error then Finish(r, Some(t)) else ReadNext(r, t)
  }

  function RunTask(s: State): State
    requires s.tasks != []
  {
    var t := s.tasks[0];
    var r := s.(tasks := s.tasks[1..]);
    if !Live(r, t) then r
    else match t.kind case Read => OnReadable(r, t) case Closed => OnPeerClosed(r, t)
  }

  /** Accept, for an outgoing message: a failed write raises the error. */
  function AcceptOutgoing(s: State, written: bool): State {
    if !s.open || s.error || written then s else RaiseError(s, WriteFailed, None)
  }

  // ----- runs -----

  datatype Event =
    | PeerWrites(m: Msg, ok: bool)
    | PeerCloses(ok: bool)
    | TaskRuns
    | ReceiverReturns(accepted: bool)
    | HandlerReturns
    | AppStarts
    | AppPauses
    | AppResumes
    | AppRaises
    | AppCloses
    | AppSetsHandler
    | AppWrites(written: bool)

  /** Everything but a return can happen at any time, inside a call-out as well. */
  function Step(s: State, e: Event): State {
    match e
    case PeerWrites(m, ok) =>
      if s.peerClosed || !s.open then s else Fire(s.(sent := s.sent + [m], inbox := s.inbox + [m]), Read, ok)
    case PeerCloses(ok) => Fire(s.(peerClosed := true), Closed, ok)
    case TaskRuns => if s.tasks == [] then s else RunTask(s)
    case ReceiverReturns(accepted) =>
      if s.frames == [] || !s.frames[|s.frames| - 1].Dispatch? then s
      else AfterAccept(s.(frames := s.frames[..|s.frames| - 1]), s.frames[|s.frames| - 1].task, accepted)
    case HandlerReturns =>
      if s.frames == [] || !s.frames[|s.frames| - 1].Handler? then s
      else Finish(s.(frames := s.frames[..|s.frames| - 1]), s.frames[|s.frames| - 1].after)
    case AppStarts => StartReceiving(s)
    case AppPauses => Pause(s)
    case AppResumes => Resume(s)
    case AppRaises => RaiseError(s, Raised, None)
    case AppCloses => CloseMessagePipe(s)
    case AppSetsHandler => s.(handler := true)
    case AppWrites(written) => AcceptOutgoing(s, written)
  }

  function Run(s: State, es: seq<Event>): State {
    if es == [] then s else Step(Run(s, es[..|es| - 1]), es[|es| - 1])
  }
}
