/**
  A trap watcher and the tasks it posts: which callbacks run, over every order of trap events,
  task runs and calls, re-entrant ones included.
 */
module Watching {
  import opened Wrappers

  /** A trap handle; zero is the invalid one. */
  type Handle = nat

  /** A callback, named by a number. */
  type Callback = nat

  /** A posted task: the trap and the callback at that time, and the call it belongs to. */
  datatype Task = Task(trapAtPost: Handle, callback: Option<Callback>, epoch: nat)

  /** A callback that was run, with the call it was posted under and the one in force when it ran. */
  datatype Ran = Ran(callback: Callback, posted: nat, now: nat)

  /**
    A watcher with its posted tasks. The epoch counts the calls of Watch, Cancel and the
    destructor; frames are the tasks whose callback is running, innermost last. An armed trap fires
    once.
   */
  datatype State = State(auto: bool, trap: Handle, armed: bool, callback: Option<Callback>, alive: bool, queue: seq<Task>,
                         frames: seq<Handle>, epoch: nat, ran: seq<Ran>)

  /** How creating the trap and adding the trigger went; blocked says that arming finds the signal there already. */
  datatype Setup = NoTrap | NoTrigger(trap: Handle) | Ready(trap: Handle, blocked: bool)

  datatype Event =
    | Watch(callback: Option<Callback>, setup: Setup)
    | Cancel
    | Destroy
    | Arm(blocked: bool)
    | TrapFires
    | RunTask(blocked: bool)
    | CallbackReturns(blocked: bool)

  function Init(auto: bool): State { State(auto, 0, false, None, true, [], [], 0, []) }

  function Cancelled(s: State): State { s.(trap := 0, armed := false, callback := None, epoch := s.epoch + 1) }

  function Notified(s: State): State { s.(queue := s.queue + [Task(s.trap, s.callback, s.epoch)]) }

  function Armed(s: State, blocked: bool): State {
    if s.trap == 0 then s else if blocked then Notified(s) else s.(armed := true)
  }

  function Watched(s: State, callback: Option<Callback>, setup: Setup): State {
    var c := Cancelled(s).(callback := callback);
    match setup
    case NoTrap => c
    case NoTrigger(_) => c
    case Ready(trap, blocked) =>
      var w := c.(trap := trap);
      if s.auto then Armed(w, blocked) else w
  }

  /** After a task's callback: automatic watchers arm again, unless they were changed meanwhile. */
  function Rearmed(s: State, trapAtPost: Handle, blocked: bool): State {
    if s.alive && s.auto && s.trap == trapAtPost then Armed(s, blocked) else s
  }

  function TaskRun(s: State, blocked: bool): State
    requires s.queue != []
  {
    var t := s.queue[0];
    var r := s.(queue := s.queue[1..]);
    if !s.alive || s.trap != t.trapAtPost then r
    else if t.callback.None? then Rearmed(r, t.trapAtPost, blocked)
    else r.(frames := r.frames + [t.trapAtPost], ran := r.ran + [Ran(t.callback.value, t.epoch, r.epoch)])
  }

  /** A destroyed watcher takes no calls; its posted tasks are still there. */
  function Step(s: State, e: Event): State {
    match e
    case Watch(callback, setup) => if s.alive then Watched(s, callback, setup) else s
    case Cancel => if s.alive then Cancelled(s) else s
    case Destroy => if s.alive then Cancelled(s).(alive := false) else s
    case Arm(blocked) => if s.alive then Armed(s, blocked) else s
    case TrapFires => if s.trap != 0 && s.armed then Notified(s.(armed := false)) else s
    case RunTask(blocked) => if s.queue == [] then s else TaskRun(s, blocked)
    case CallbackReturns(blocked) =>
      if s.frames == [] then s
      else Rearmed(s.(frames := s.frames[..|s.frames| - 1]), s.frames[|s.frames| - 1], blocked)
  }

  function Run(s: State, es: seq<Event>): State {
    if es == [] then s else Step(Run(s, es[..|es| - 1]), es[|es| - 1])
  }

  /** Handles are never zero. */
  predicate RealHandle(e: Event) { e.Watch? && e.setup.Ready? ==> e.setup.trap != 0 }

  predicate RealHandles(es: seq<Event>) { forall i :: 0 <= i < |es| ==> RealHandle(es[i]) }

  /** The event gives the watcher the trap handle of a task of its own that is still posted, and has a callback. */
  predicate Reuses(s: State, e: Event) {
    && s.alive && e.Watch? && e.setup.Ready?
    && exists i :: 0 <= i < |s.queue| && s.queue[i].trapAtPost == e.setup.trap && s.queue[i].callback.Some?
  }

  predicate NeverReuses(s: State, es: seq<Event>) {
    es == [] || (NeverReuses(s, es[..|es| - 1]) && !Reuses(Run(s, es[..|es| - 1]), es[|es| - 1]))
  }

  // ----- the methods -----

  class SimpleWatcher {
    const auto: bool
    var trap: Handle
    /** The trap's own flag. */
    var armed: bool
    var callback: Option<Callback>
    var alive: bool
    /** The executor's queue, as far as this watcher posted to it. */
    var queue: seq<Task>
    var frames: seq<Handle>
    var epoch: nat
    ghost var ran: seq<Ran>

    ghost function Now(): State
      reads this
    {
      State(auto, trap, armed, callback, alive, queue, frames, epoch, ran)
    }

    constructor (auto: bool)
      ensures Now() == Init(auto)
    {
      this.auto := auto;
      trap, armed, callback, alive, queue, frames, epoch, ran := 0, false, None, true, [], [], 0, [];
    }

    method CancelWatch()
      modifies this
      ensures Now() == Cancelled(old(Now()))
    {
      if trap != 0 { trap := 0; }
      armed := false;
      callback := None;
      epoch := epoch + 1;
    }

    method Destroy()
      modifies this
      ensures Now() == Cancelled(old(Now())).(alive := false)
    {
      alive := false;
      CancelWatch();
    }

    method Watch(ready: Option<Callback>, setup: Setup) returns (ok: bool)
      modifies this
      ensures Now() == Watched(old(Now()), ready, setup) && ok == setup.Ready?
    {
      CancelWatch();
      callback := ready;
      if setup.NoTrap? { return false; }
      trap := setup.trap;
      if setup.NoTrigger? {
        trap := 0;
        return false;
      }
      if auto { var done := Arm(setup.blocked); }
      ok := true;
    }

    /** Arms the trap; a signal that is there already posts the callback instead. */
    method Arm(blocked: bool) returns (ok: bool)
      modifies this
      ensures Now() == Armed(old(Now()), blocked) && ok == (trap != 0 && !blocked)
    {
      if trap == 0 { return false; }
      if blocked { Notify(); } else { armed := true; }
      ok := !blocked;
    }

    method Notify()
      modifies this
      ensures Now() == Notified(old(Now()))
    {
      queue := queue + [Task(trap, callback, epoch)];
    }

    /** The watcher handle is freed with the trap, so an event for a cancelled watcher finds nobody. */
    method OnTrapEvent()
      modifies this
      ensures Now() == Step(old(Now()), TrapFires)
    {
      if trap == 0 || !armed { return; }
      armed := false;
      Notify();
    }

    /** The posted task up to its callback; a callback to run is left on the frames. */
    method BeginTask(blocked: bool) returns (run: Option<Callback>)
      requires queue != []
      modifies this
      ensures Now() == TaskRun(old(Now()), blocked)
      ensures run.Some? <==> |ran| > |old(ran)|
    {
      var t := queue[0];
      queue := queue[1..];
      if !alive || trap != t.trapAtPost { return None; }
      if t.callback.None? {
        Rearm(t.trapAtPost, blocked);
        return None;
      }
      frames := frames + [t.trapAtPost];
      ran := ran + [Ran(t.callback.value, t.epoch, epoch)];
      run := t.callback;
    }

    /** The rest of the task, after its callback. */
    method EndTask(blocked: bool)
      requires frames != []
      modifies this
      ensures Now() == Step(old(Now()), CallbackReturns(blocked))
    {
      var trapAtPost := frames[|frames| - 1];
      frames := frames[..|frames| - 1];
      Rearm(trapAtPost, blocked);
    }

    method Rearm(trapAtPost: Handle, blocked: bool)
      modifies this
      ensures Now() == Rearmed(old(Now()), trapAtPost, blocked)
    {
      if alive && auto && trap == trapAtPost { var done := Arm(blocked); }
    }
  }

  // ----- the callback -----

  /** Event i gives the watcher its callback, and no later one takes it away. */
  predicate GivesCallback(es: seq<Event>, i: nat)
    requires i < |es|
  {
    es[i].Watch? && forall j :: i < j < |es| ==> !es[j].Watch? && es[j] != Cancel && es[j] != Destroy
  }

  /** In every run a watcher that is not destroyed holds the callback of the last Watch, if nothing was cancelled since. */
  lemma {:induction false} HoldsLastCallback(auto: bool, es: seq<Event>)
    requires Destroy !in es
    ensures var s := Run(Init(auto), es);
            && s.alive
            && (forall i :: 0 <= i < |es| && GivesCallback(es, i) ==> s.callback == es[i].callback)
            && (s.callback.Some? ==> exists i :: 0 <= i < |es| && GivesCallback(es, i))
  {
    if es != [] {
      var last, before := |es| - 1, es[..|es| - 1];
      HoldsLastCallback(auto, before);
      HoldsOn(Run(Init(auto), before), es[last]);
      forall i | 0 <= i < last ensures GivesCallback(es, i) ==> GivesCallback(before, i) {
        assert forall j :: i < j < last ==> before[j] == es[j];
      }
      if es[last].Watch? {
        assert GivesCallback(es, last);
      } else if es[last] != Cancel && Run(Init(auto), before).callback.Some? {
        var i :| 0 <= i < last && GivesCallback(before, i);
        assert forall j :: i < j < last ==> es[j] == before[j];
        assert GivesCallback(es, i);
      }
    }
  }

  lemma HoldsOn(s: State, e: Event)
    requires s.alive && e != Destroy
    ensures Step(s, e).alive
    ensures Step(s, e).callback == if e.Watch? then e.callback else if e == Cancel then None else s.callback
  {
  }

  // ----- what every run keeps -----

  /** What is true of a posted task, whatever handles were given out. */
  predicate TaskOk(s: State, t: Task) {
    && t.trapAtPost != 0 && t.epoch <= s.epoch
    && (t.epoch == s.epoch ==> s.alive && s.trap == t.trapAtPost && s.callback == t.callback)
  }

  predicate Inv(s: State) {
    && (s.trap != 0 ==> s.alive)
    && forall i :: 0 <= i < |s.queue| ==> TaskOk(s, s.queue[i])
  }

  /** Every callback that ran was posted under the call that was in force then. */
  predicate NoneStale(s: State) {
    forall i :: 0 <= i < |s.ran| ==> s.ran[i].posted == s.ran[i].now
  }

  /** And so will those be that are posted: one whose trap is in place belongs to the call in force. */
  predicate Current(s: State) {
    && NoneStale(s)
    && forall i :: 0 <= i < |s.queue| && s.queue[i].trapAtPost == s.trap && s.queue[i].callback.Some? ==>
         s.queue[i].epoch == s.epoch
  }

  lemma StepKeepsInv(s: State, e: Event)
    requires Inv(s) && RealHandle(e)
    ensures Inv(Step(s, e))
  {
  }

  lemma StepKeepsCurrent(s: State, e: Event)
    requires Inv(s) && Current(s) && RealHandle(e) && !Reuses(s, e)
    ensures Current(Step(s, e))
  {
  }

  lemma {:induction false} RunKeepsInv(auto: bool, es: seq<Event>)
    requires RealHandles(es)
    ensures Inv(Run(Init(auto), es))
  {
    hide Step;
    if es != [] {
      RunKeepsInv(auto, es[..|es| - 1]);
      assert RealHandle(es[|es| - 1]);
      StepKeepsInv(Run(Init(auto), es[..|es| - 1]), es[|es| - 1]);
    }
  }

  /**
    Every callback that ever runs was posted under the call still in force, in every run in which
    no Watch is given the trap handle of a task still posted with a callback.
   */
  lemma {:induction false} NoStaleCallbacks(auto: bool, es: seq<Event>)
    requires RealHandles(es) && NeverReuses(Init(auto), es)
    ensures Current(Run(Init(auto), es))
  {
    hide Step;
    if es != [] {
      var before := es[..|es| - 1];
      NoStaleCallbacks(auto, before);
      RunKeepsInv(auto, before);
      assert RealHandle(es[|es| - 1]);
      StepKeepsCurrent(Run(Init(auto), before), es[|es| - 1]);
    }
  }

  /** n posted tasks run, one after the other. */
  function Tasks(n: nat): seq<Event> { seq(n, _ => RunTask(false)) }

  function AfterTasks(s: State, n: nat): State {
    if n == 0 then s else Step(AfterTasks(s, n - 1), RunTask(false))
  }

  lemma {:induction false} RunTasks(s: State, es: seq<Event>, n: nat)
    ensures Run(s, es + Tasks(n)) == AfterTasks(Run(s, es), n)
  {
    hide Step;
    if n == 0 {
      assert es + Tasks(0) == es;
    } else {
      RunTasks(s, es, n - 1);
      assert es + Tasks(n) == es + Tasks(n - 1) + [RunTask(false)];
      RunSnoc(s, es + Tasks(n - 1), RunTask(false));
    }
  }

  /** Running tasks changes nothing but the queue, the frames and what ran, and gets to task k. */
  lemma {:induction false} TasksAhead(s: State, k: nat, n: nat)
    requires n <= k < |s.queue|
    ensures var r := AfterTasks(s, n);
            && r.alive == s.alive && r.trap == s.trap && r.epoch == s.epoch
            && k - n < |r.queue| && r.queue[k - n] == s.queue[k]
  {
    hide Step;
    if n > 0 {
      TasksAhead(s, k, n - 1);
      OneTaskAhead(AfterTasks(s, n - 1), k - (n - 1));
    }
  }

  lemma OneTaskAhead(s: State, k: nat)
    requires 0 < k < |s.queue|
    ensures var r := Step(s, RunTask(false));
            && r.alive == s.alive && r.trap == s.trap && r.epoch == s.epoch
            && k - 1 < |r.queue| && r.queue[k - 1] == s.queue[k]
  {
  }

  /** The condition is needed after every run: the reused handle lets the old callback run. */
  lemma ReuseRunsStale(auto: bool, es: seq<Event>, e: Event, k: nat)
    requires RealHandles(es) && RealHandle(e) && Run(Init(auto), es).alive && e.Watch? && e.setup.Ready?
    requires k < |Run(Init(auto), es).queue|
    requires var t := Run(Init(auto), es).queue[k]; t.trapAtPost == e.setup.trap && t.callback.Some?
    ensures var s, r := Run(Init(auto), es), Run(Init(auto), es + [e] + Tasks(k + 1));
            var t := s.queue[k];
            r.ran != [] && r.ran[|r.ran| - 1] == Ran(t.callback.value, t.epoch, s.epoch + 1) && t.epoch <= s.epoch
  {
    hide Run;
    var s, w := Run(Init(auto), es), Run(Init(auto), es + [e]);
    var t := s.queue[k];
    RunKeepsInv(auto, es);
    RunSnoc(Init(auto), es, e);
    assert w.alive && w.trap == t.trapAtPost && w.epoch == s.epoch + 1 && s.queue <= w.queue;
    assert w.queue[k] == t;
    RunTasks(Init(auto), es + [e], k + 1);
    TasksAhead(w, k, k);
  }

  /** So, after any run without a reuse, the next call leads to a stale callback exactly when it is one. */
  lemma ReuseDecides(auto: bool, es: seq<Event>, e: Event)
    requires RealHandles(es) && RealHandle(e) && NeverReuses(Init(auto), es)
    ensures Reuses(Run(Init(auto), es), e) <==> exists n: nat :: !NoneStale(Run(Init(auto), es + [e] + Tasks(n)))
  {
    hide Step;
    var s := Run(Init(auto), es);
    if Reuses(s, e) {
      var k :| 0 <= k < |s.queue| && s.queue[k].trapAtPost == e.setup.trap && s.queue[k].callback.Some?;
      ReuseRunsStale(auto, es, e, k);
      var r := Run(Init(auto), es + [e] + Tasks(k + 1));
      assert r.ran[|r.ran| - 1].posted != r.ran[|r.ran| - 1].now;
    } else {
      forall n: nat ensures NoneStale(Run(Init(auto), es + [e] + Tasks(n))) {
        TasksReuseNothing(auto, es, e, n);
        NoStaleCallbacks(auto, es + [e] + Tasks(n));
      }
    }
  }

  lemma {:induction false} TasksReuseNothing(auto: bool, es: seq<Event>, e: Event, n: nat)
    requires RealHandles(es) && RealHandle(e) && NeverReuses(Init(auto), es) && !Reuses(Run(Init(auto), es), e)
    ensures RealHandles(es + [e] + Tasks(n)) && NeverReuses(Init(auto), es + [e] + Tasks(n))
  {
    hide Step, Run;
    var all := es + [e] + Tasks(n);
    if n == 0 {
      assert all == es + [e] && all[..|all| - 1] == es;
    } else {
      TasksReuseNothing(auto, es, e, n - 1);
      assert all[..|all| - 1] == es + [e] + Tasks(n - 1);
    }
  }

  /** After Cancel or destruction, and until another Watch succeeds, no task runs a callback, whatever the handles. */
  lemma {:induction false} QuietAfterCancel(auto: bool, es: seq<Event>, more: seq<Event>)
    requires RealHandles(es) && RealHandles(more) && es != [] && (es[|es| - 1].Cancel? || es[|es| - 1].Destroy?)
    requires es[|es| - 1].Destroy? || forall i :: 0 <= i < |more| ==> !(more[i].Watch? && more[i].setup.Ready?)
    ensures Run(Init(auto), es + more).ran == Run(Init(auto), es).ran
    ensures Run(Init(auto), es + more).trap == 0
    ensures es[|es| - 1].Destroy? ==> !Run(Init(auto), es + more).alive
    decreases |more|
  {
    hide Step, Inv;
    if more == [] {
      assert es + more == es;
      RunKeepsInv(auto, es[..|es| - 1]);
      QuietStart(Run(Init(auto), es[..|es| - 1]), es[|es| - 1]);
    } else {
      var front, last := more[..|more| - 1], more[|more| - 1];
      QuietAfterCancel(auto, es, front);
      assert (es + more)[..|es + more| - 1] == es + front;
      RunKeepsInv(auto, es + front);
      QuietStep(Run(Init(auto), es + front), last);
    }
  }

  lemma QuietStart(s: State, e: Event)
    requires Inv(s) && (e.Cancel? || e.Destroy?)
    ensures Step(s, e).trap == 0 && (e.Destroy? ==> !Step(s, e).alive)
  {
  }

  lemma QuietStep(s: State, e: Event)
    requires Inv(s) && s.trap == 0 && (s.alive ==> !(e.Watch? && e.setup.Ready?))
    ensures Step(s, e).ran == s.ran && Step(s, e).trap == 0 && (!s.alive ==> !Step(s, e).alive)
  {
  }

  /**
    What decides it is the handle: a task left over from an earlier call runs its old callback
    exactly when the trap in place has the handle of the task's own.
   */
  lemma StaleRunsIffReused(s: State, blocked: bool)
    requires Inv(s) && s.queue != [] && s.queue[0].epoch != s.epoch && s.queue[0].callback.Some?
    ensures (|Step(s, RunTask(blocked)).ran| > |s.ran|) <==> s.trap == s.queue[0].trapAtPost
  {
  }

  /** A handle that is given out again brings the old callback back. */
  lemma ReusedHandleRunsOldCallback()
    ensures var es := [Watch(Some(1), Ready(5, true)), Watch(Some(2), Ready(5, false)), RunTask(false)];
            RealHandles(es) && Run(Init(true), es).ran == [Ran(1, 1, 2)] && Run(Init(true), es).callback == Some(2)
  {
    var e0, e1, e2 := Watch(Some(1), Ready(5, true)), Watch(Some(2), Ready(5, false)), RunTask(false);
    RunSnoc(Init(true), [], e0);
    RunSnoc(Init(true), [e0], e1);
    RunSnoc(Init(true), [e0, e1], e2);
    assert [] + [e0] == [e0] && [e0] + [e1] == [e0, e1] && [e0, e1] + [e2] == [e0, e1, e2];
  }

  lemma RunSnoc(s: State, es: seq<Event>, e: Event)
    ensures Run(s, es + [e]) == Step(Run(s, es), e)
  {
    assert (es + [e])[..|es|] == es;
  }

  // ----- nothing is missed -----

  /** A task of the trap in place is posted, or its callback is running. */
  predicate OnItsWay(s: State) {
    || (exists i :: 0 <= i < |s.queue| && s.queue[i].trapAtPost == s.trap)
    || (exists i :: 0 <= i < |s.frames| && s.frames[i] == s.trap)
  }

  predicate Listens(s: State) { s.trap != 0 ==> s.armed || OnItsWay(s) }

  lemma PostedOnItsWay(s: State)
    ensures OnItsWay(Notified(s))
  {
    assert Notified(s).queue[|s.queue|].trapAtPost == s.trap;
  }

  lemma StillOnItsWay(s: State, r: State)
    requires OnItsWay(s) && s.trap == r.trap && s.queue <= r.queue && s.frames <= r.frames
    ensures OnItsWay(r)
  {
    if i :| 0 <= i < |s.queue| && s.queue[i].trapAtPost == s.trap { assert r.queue[i] == s.queue[i]; }
    if i :| 0 <= i < |s.frames| && s.frames[i] == s.trap { assert r.frames[i] == s.frames[i]; }
  }

  lemma ArmListens(s: State, blocked: bool)
    ensures Listens(Armed(s, blocked))
  {
    hide OnItsWay;
    PostedOnItsWay(s);
  }

  lemma TaskListens(s: State, blocked: bool)
    requires Listens(s) && s.auto && s.queue != [] && (s.trap != 0 ==> s.alive)
    ensures Listens(TaskRun(s, blocked))
  {
    var t := s.queue[0];
    var r := s.(queue := s.queue[1..]);
    ArmListens(r, blocked);
    if s.trap != t.trapAtPost && OnItsWay(s) {
      if i :| 0 <= i < |s.queue| && s.queue[i].trapAtPost == s.trap { assert r.queue[i - 1] == s.queue[i]; }
    } else if s.trap == t.trapAtPost && s.alive && t.callback.Some? {
      var q := TaskRun(s, blocked);
      assert q.frames[|s.frames|] == s.trap;
    }
  }

  lemma ReturnListens(s: State, blocked: bool)
    requires Listens(s) && s.auto && s.frames != [] && (s.trap != 0 ==> s.alive)
    ensures Listens(Step(s, CallbackReturns(blocked)))
  {
    var r := s.(frames := s.frames[..|s.frames| - 1]);
    ArmListens(r, blocked);
    if s.trap != s.frames[|s.frames| - 1] && OnItsWay(s) {
      if i :| 0 <= i < |s.frames| && s.frames[i] == s.trap { assert r.frames[i] == s.frames[i]; }
    }
  }

  lemma StepListens(s: State, e: Event)
    requires Inv(s) && Listens(s) && s.auto
    ensures Listens(Step(s, e)) && Step(s, e).auto
  {
    hide OnItsWay;
    match e {
      case Watch(callback, setup) =>
        if setup.Ready? { ArmListens(Cancelled(s).(callback := callback, trap := setup.trap), setup.blocked); }
      case Arm(blocked) => ArmListens(s, blocked);
      case TrapFires => PostedOnItsWay(s.(armed := false));
      case RunTask(blocked) => if s.queue != [] { TaskListens(s, blocked); }
      case CallbackReturns(blocked) => if s.frames != [] { ReturnListens(s, blocked); }
      case _ =>
    }
  }

  /**
    No wake-up is lost: in every run an automatic watcher with a trap has it armed, or a task of the
    trap is posted or running; at rest it is armed.
   */
  lemma {:induction false} AlwaysListens(es: seq<Event>)
    requires RealHandles(es)
    ensures Listens(Run(Init(true), es)) && Run(Init(true), es).auto
    ensures Run(Init(true), es).queue == [] && Run(Init(true), es).frames == [] && Run(Init(true), es).trap != 0 ==>
              Run(Init(true), es).armed
  {
    hide Step;
    if es != [] {
      AlwaysListens(es[..|es| - 1]);
      RunKeepsInv(true, es[..|es| - 1]);
      StepListens(Run(Init(true), es[..|es| - 1]), es[|es| - 1]);
    }
  }

  /** A manual watcher is armed by Arm alone. */
  lemma ManualArms(s: State, e: Event)
    requires !s.auto && !s.armed && Step(s, e).armed
    ensures e == Arm(false) && s.alive && s.trap != 0
  {
  }

  /** What is posted under the call in force runs when its turn comes. */
  lemma PostedRuns(auto: bool, es: seq<Event>, k: nat)
    requires RealHandles(es) && k < |Run(Init(auto), es).queue|
    requires var s := Run(Init(auto), es); s.queue[k].epoch == s.epoch && s.queue[k].callback.Some?
    ensures var s, r := Run(Init(auto), es), Run(Init(auto), es + Tasks(k + 1));
            s.callback.Some? && r.ran != [] && r.ran[|r.ran| - 1] == Ran(s.callback.value, s.epoch, s.epoch)
  {
    hide Run, Step, TaskOk;
    var s := Run(Init(auto), es);
    RunKeepsInv(auto, es);
    assert TaskOk(s, s.queue[k]);
    RunTasks(Init(auto), es, k + 1);
    TasksAhead(s, k, k);
    InForceRuns(s, s.queue[k], AfterTasks(s, k));
  }

  lemma InForceRuns(s: State, t: Task, r: State)
    requires TaskOk(s, t) && t.epoch == s.epoch && t.callback.Some?
    requires r.alive == s.alive && r.trap == s.trap && r.epoch == s.epoch && r.queue != [] && r.queue[0] == t
    ensures Step(r, RunTask(false)).ran == r.ran + [Ran(s.callback.value, s.epoch, s.epoch)] && s.callback == t.callback
  {
  }

  /** A blocked arming, and an armed trap that fires, post the callback of the call in force. */
  lemma Posts(s: State, e: Event)
    requires s.alive && s.trap != 0 && (e == Arm(true) || (e == TrapFires && s.armed))
    ensures Step(s, e).queue == s.queue + [Task(s.trap, s.callback, s.epoch)]
  {
  }
}
