/**
  What follows for every run of the connector.
 */
module ConnectorRuns {
  import opened Connecting
  import opened ConnectorInvariant
  import opened ConnectorHistory
  import opened ConnectorMessages
  import opened Wrappers

  lemma {:induction false} RunKeeps(es: seq<Event>)
    ensures Inv(Run(Init(), es))
  {
    hide Inv, Step;
    if es == [] {
      InitOk();
    } else {
      RunKeeps(es[..|es| - 1]);
      StepKeeps(Run(Init(), es[..|es| - 1]), es[|es| - 1]);
    }
  }

  lemma InitOk()
    ensures Inv(Init())
  {
  }

  /**
    In every run what was delivered is a prefix of what the peer wrote, the error handler ran at
    most once, and only after an error.
   */
  lemma DeliversInOrder(es: seq<Event>)
    ensures Run(Init(), es).delivered <= Run(Init(), es).sent
    ensures Run(Init(), es).handlerRuns <= (if Run(Init(), es).error then 1 else 0)
  {
    hide Run;
    RunKeeps(es);
  }

  /** Deliveries are never taken back, and none starts after an error. */
  lemma {:induction false} NoDeliveryAfterError(es: seq<Event>, more: seq<Event>)
    ensures Run(Init(), es).delivered <= Run(Init(), es + more).delivered
    ensures Run(Init(), es).error ==>
      Run(Init(), es + more).error && Run(Init(), es + more).delivered == Run(Init(), es).delivered
    decreases |more|
  {
    hide Inv, Step;
    if more == [] {
      assert es + more == es;
    } else {
      var front, last := more[..|more| - 1], more[|more| - 1];
      var all := es + front;
      NoDeliveryAfterError(es, front);
      assert (es + more)[..|es + more| - 1] == all && (es + more)[|es + more| - 1] == last;
      RunKeeps(all);
      StepKeeps(Run(Init(), all), last);
      if Run(Init(), all).error { ErrorStays(Run(Init(), all), last); }
    }
  }

  /**
    When nothing is posted or running any more, a receiving connector has delivered everything the
    peer wrote, and one that still watches for the peer's closing has not missed it.
   */
  lemma NothingIsMissed(es: seq<Event>)
    requires Run(Init(), es).tasks == [] && Run(Init(), es).frames == []
    ensures Run(Init(), es).read.Some? ==> Run(Init(), es).delivered == Run(Init(), es).sent
    ensures Run(Init(), es).closed.Some? && Run(Init(), es).closed.value.active ==> !Run(Init(), es).peerClosed
  {
    hide Run;
    RunKeeps(es);
    var s := Run(Init(), es);
    assert s.inbox == [] ==> s.taken + s.inbox == s.taken;
  }

  /** An error for the peer's being gone comes after everything it wrote was delivered. */
  lemma PeerGoneAfterAll(es: seq<Event>)
    requires Run(Init(), es).cause == Some(PeerGone)
    ensures Run(Init(), es).delivered == Run(Init(), es).sent && Run(Init(), es).peerClosed
  {
    hide Run;
    RunKeeps(es);
  }

  // ----- where an error comes from -----

  lemma {:induction false} RunBlamed(es: seq<Event>)
    ensures Blamed(Run(Init(), es), es)
  {
    hide Inv, Step, Blamed;
    if es == [] {
      InitBlamed();
    } else {
      var front, last := es[..|es| - 1], es[|es| - 1];
      RunBlamed(front);
      RunKeeps(front);
      StepBlamed(Run(Init(), front), last, front);
      assert es == front + [last];
    }
  }

  lemma InitBlamed()
    ensures Blamed(Init(), [])
  {
  }

  /**
    In any run an error has the event its cause names behind it: a connector that stopped early
    was paused, one whose pipe was missing was closed by the application, one with a malformed
    message was sent a message that cannot be read, one that was rejected had a message refused.
   */
  lemma CauseHappened(es: seq<Event>)
    ensures Run(Init(), es).error <==> Run(Init(), es).cause.Some?
    ensures Run(Init(), es).error ==> Happened(es, Run(Init(), es).cause.value)
  {
    hide Run, Happened;
    RunKeeps(es);
    RunBlamed(es);
  }

  /** Nothing happened that could raise an error but the peer's closing. */
  ghost predicate OnlyClosing(es: seq<Event>) {
    forall cause :: Happened(es, cause) ==> cause == PeerGone
  }

  /**
    When closing delivers everything: an error comes after the last message in every run without
    a pause, a close, a raise, a refused or unreadable message, a bad event or a failed write.
   */
  lemma ClosingDeliversAll(es: seq<Event>)
    requires OnlyClosing(es)
    ensures Run(Init(), es).error ==> Run(Init(), es).delivered == Run(Init(), es).sent && Run(Init(), es).peerClosed
  {
    hide Run, Happened;
    CauseHappened(es);
    if Run(Init(), es).error { PeerGoneAfterAll(es); }
  }

  /**
    How a drain that the peer's closing began goes on in any run when a delivery returns: with the
    next message, or with the error. The error comes before the rest is delivered exactly when the
    message was refused, the next one cannot be read, or the connector was paused or closed.
   */
  lemma ClosingDrain(es: seq<Event>, accepted: bool)
    requires var s := Run(Init(), es);
             !s.error && s.frames != [] && s.frames[|s.frames| - 1].Dispatch? && s.frames[|s.frames| - 1].task.kind == Closed
    ensures var s, r := Run(Init(), es), Run(Init(), es + [ReceiverReturns(accepted)]);
            && (r.error <==> !accepted || s.paused || !s.open || s.inbox == [] || !s.inbox[0].parses)
            && (!r.error ==> r.delivered == s.delivered + [s.inbox[0]])
            && (r.error ==> (r.cause == Some(PeerGone) <==> accepted && !s.paused && s.open && s.inbox == []))
            && (r.cause == Some(StoppedEarly) <==> accepted && s.paused)
  {
    hide InOrder, AllDelivered, WatchesOk;
    var s := Run(Init(), es);
    RunKeeps(es);
    assert IsClosing(s.frames[|s.frames| - 1]);
    var more := es + [ReceiverReturns(accepted)];
    assert more[..|more| - 1] == es;
    assert Run(Init(), more) ==
      AfterAccept(s.(frames := s.frames[..|s.frames| - 1]), s.frames[|s.frames| - 1].task, accepted);
  }

  // ----- whether the closing is noticed -----

  /** StartReceiving is never called on a paused connector. */
  ghost predicate StartsUnpaused(es: seq<Event>) {
    forall i :: 0 <= i < |es| && es[i].AppStarts? ==> !Run(Init(), es[..i]).paused
  }

  lemma {:induction false} RunAttentive(es: seq<Event>)
    requires StartsUnpaused(es)
    ensures Attentive(Run(Init(), es))
  {
    hide Inv, Step, Attentive;
    if es == [] {
      InitAttentive();
    } else {
      var front := es[..|es| - 1];
      forall i | 0 <= i < |front| && front[i].AppStarts? ensures !Run(Init(), front[..i]).paused {
        assert front[..i] == es[..i] && front[i] == es[i];
      }
      RunAttentive(front);
      RunKeeps(front);
      StepAttentive(Run(Init(), front), es[|es| - 1]);
    }
  }

  lemma InitAttentive()
    ensures Attentive(Init())
  {
  }

  /**
    At rest a receiving connector has delivered everything and has not missed the peer's closing,
    in every run that never starts it while it is paused.
   */
  lemma ClosingIsNoticed(es: seq<Event>)
    requires StartsUnpaused(es)
    requires Run(Init(), es).tasks == [] && Run(Init(), es).frames == [] && Run(Init(), es).read.Some?
    ensures !Run(Init(), es).peerClosed && Run(Init(), es).delivered == Run(Init(), es).sent
  {
    hide Run;
    RunKeeps(es);
    RunAttentive(es);
    NothingIsMissed(es);
  }

  function MissingRun(): seq<Event> { [AppStarts, PeerCloses(true), TaskRuns, AppResumes] }

  /**
    The condition is needed after every run: whenever a paused connector at rest, with an empty
    open pipe, is started, the peer's closing and the resuming that follow leave it receiving, at
    rest, and without an error on a pipe whose peer is gone.
   */
  lemma StartedPausedMisses(es: seq<Event>)
    requires var s := Run(Init(), es);
             s.paused && s.open && s.read.None? && s.inbox == [] && s.tasks == [] && s.frames == []
    ensures var r := Run(Init(), es + MissingRun());
            r.peerClosed && r.read.Some? && r.tasks == [] && r.frames == [] && !r.paused && !r.error
  {
    hide Step;
    var s, all := Run(Init(), es), es + MissingRun();
    RunTo(all, |es|);
    RunTo(all, |es| + 1);
    RunTo(all, |es| + 2);
    RunTo(all, |es| + 3);
    assert all[..|es|] == es && all[..|all|] == all;
    RunKeeps(es);
    MissingSteps(s);
  }

  lemma MissingSteps(s: State)
    requires Inv(s) && s.paused && s.open && s.read.None? && s.inbox == [] && s.tasks == [] && s.frames == []
    ensures var es := MissingRun();
            var r := Step(Step(Step(Step(s, es[0]), es[1]), es[2]), es[3]);
            r.peerClosed && r.read.Some? && r.tasks == [] && r.frames == [] && !r.paused && !r.error
  {
    hide Inv, Step;
    var es := MissingRun();
    MissingStart(s);
    MissingClose(s, Step(s, es[0]));
    MissingTask(Step(Step(s, es[0]), es[1]), s.nextId + 1);
    MissingResume(Step(Step(Step(s, es[0]), es[1]), es[2]));
  }

  /** The closing is posted, or still to be waited for. */
  predicate StartedOver(s: State, r: State) {
    && r.paused && r.open && !r.error && r.frames == [] && r.read.Some?
    && r.peerClosed == s.peerClosed
    && r.closed == Some(Watch(s.nextId + 1, true, !s.peerClosed))
    && r.tasks == (if s.peerClosed then [Task(s.nextId + 1, Closed, true)] else [])
  }

  lemma MissingStart(s: State)
    requires Inv(s) && s.paused && s.open && s.read.None? && s.inbox == [] && s.tasks == [] && s.frames == []
    ensures StartedOver(s, Step(s, AppStarts))
  {
    hide InOrder, AllDelivered, WatchesOk;
    var r := Arm(s.(read := Some(Watch(s.nextId, true, false))), Read);
    assert r == s.(read := Some(Watch(s.nextId, true, true)));
  }

  lemma MissingClose(s: State, r: State)
    requires StartedOver(s, r)
    ensures var q := Step(r, PeerCloses(true));
            && q.paused && q.open && !q.error && q.frames == [] && q.read.Some? && q.peerClosed
            && q.closed == Some(Watch(s.nextId + 1, true, false)) && q.tasks == [Task(s.nextId + 1, Closed, true)]
  {
  }

  lemma MissingTask(s: State, id: nat)
    requires s.paused && s.open && !s.error && s.frames == [] && s.read.Some? && s.peerClosed
    requires s.closed == Some(Watch(id, true, false)) && s.tasks == [Task(id, Closed, true)]
    ensures var r := Step(s, TaskRuns);
            r.paused && r.open && !r.error && r.frames == [] && r.read.Some? && r.peerClosed && r.tasks == []
  {
  }

  lemma MissingResume(s: State)
    requires s.paused && s.read.Some?
    ensures Step(s, AppResumes) == s.(paused := false)
  {
  }

  /** At rest, receiving, without an error, and the peer is gone. */
  predicate Missed(s: State) {
    s.tasks == [] && s.frames == [] && s.read.Some? && !s.error && s.peerClosed
  }

  /** From event n on, StartReceiving is not called on a paused connector. */
  ghost predicate UnpausedFrom(es: seq<Event>, n: nat) {
    forall i :: n <= i < |es| && es[i].AppStarts? ==> !Run(Init(), es[..i]).paused
  }

  /**
    So the paused start decides: after any run without one that rests on an open and empty pipe,
    the next event can be followed, without another paused start, by a missed closing exactly when
    it is a paused start.
   */
  lemma StartDecides(es: seq<Event>, e: Event)
    requires StartsUnpaused(es)
    requires var s := Run(Init(), es); s.open && s.inbox == [] && s.tasks == [] && s.frames == []
    ensures e.AppStarts? && Run(Init(), es).paused <==>
            exists more :: UnpausedFrom(es + [e] + more, |es| + 1) && Missed(Run(Init(), es + [e] + more))
  {
    hide Run, Missed, StartsUnpaused, UnpausedFrom;
    if e.AppStarts? && Run(Init(), es).paused {
      PausedStartMisses(es);
      var more := [PeerCloses(true), TaskRuns, AppResumes];
      assert UnpausedFrom(es + [e] + more, |es| + 1);
    } else {
      forall more | UnpausedFrom(es + [e] + more, |es| + 1) ensures !Missed(Run(Init(), es + [e] + more)) {
        StillUnpaused(es, e, more);
        NeverMissed(es + [e] + more);
      }
    }
  }

  lemma PausedStartMisses(es: seq<Event>)
    requires StartsUnpaused(es)
    requires var s := Run(Init(), es); s.paused && s.open && s.inbox == [] && s.tasks == [] && s.frames == []
    ensures var all := es + [AppStarts] + [PeerCloses(true), TaskRuns, AppResumes];
            UnpausedFrom(all, |es| + 1) && Missed(Run(Init(), all))
  {
    hide Run, StartsUnpaused;
    var all := es + [AppStarts] + [PeerCloses(true), TaskRuns, AppResumes];
    RunAttentive(es);
    StartedPausedMisses(es);
    assert all == es + MissingRun();
    assert forall i :: |es| + 1 <= i < |all| ==> all[i] == [PeerCloses(true), TaskRuns, AppResumes][i - |es| - 1];
  }

  lemma Prefixes(es: seq<Event>, e: Event, more: seq<Event>, i: nat)
    requires i <= |es|
    ensures (es + [e] + more)[..i] == es[..i] && (es + [e] + more)[i] == if i < |es| then es[i] else e
    ensures es[..|es|] == es
  {
  }

  lemma StillUnpaused(es: seq<Event>, e: Event, more: seq<Event>)
    requires StartsUnpaused(es) && UnpausedFrom(es + [e] + more, |es| + 1)
    requires e.AppStarts? ==> !Run(Init(), es).paused
    ensures StartsUnpaused(es + [e] + more)
  {
    hide Run;
    var all := es + [e] + more;
    forall i | 0 <= i < |all| && all[i].AppStarts? ensures !Run(Init(), all[..i]).paused {
      if i <= |es| { Prefixes(es, e, more, i); }
    }
  }

  lemma NeverMissed(es: seq<Event>)
    requires StartsUnpaused(es)
    ensures !Missed(Run(Init(), es))
  {
    hide Run, StartsUnpaused;
    if Missed(Run(Init(), es)) { ClosingIsNoticed(es); }
  }

  /** For example, when nothing else ever happened to it. */
  lemma PausedBeforeStarting()
    ensures var s := Run(Init(), [AppPauses, AppStarts, PeerCloses(true), TaskRuns, AppResumes]);
            s.peerClosed && s.read.Some? && s.tasks == [] && s.frames == [] && !s.paused && !s.error
  {
    hide Step;
    var es := [AppPauses];
    assert [AppPauses, AppStarts, PeerCloses(true), TaskRuns, AppResumes] == es + MissingRun();
    RunTo(es, 0);
    assert es[..1] == es;
    JustPaused();
    StartedPausedMisses(es);
  }

  lemma JustPaused()
    ensures Step(Init(), AppPauses) == Init().(paused := true)
  {
  }

  // ----- a run without trouble -----

  lemma {:induction false} RunReceiving(es: seq<Event>)
    requires OnlyClosing(es) && AppStarts in es
    ensures Receiving(Run(Init(), es))
  {
    hide Inv, Step, Happened, Receiving;
    var front, last := es[..|es| - 1], es[|es| - 1];
    assert es == front + [last];
    forall cause ensures Happened(es, cause) <==> Happened(front, cause) || Brings(last, cause) {
      HappenedGrows(front, last, cause);
    }
    assert !Brings(last, StoppedEarly) && !Brings(last, PipeMissing);
    if AppStarts in front {
      RunReceiving(front);
      StepReceiving(Run(Init(), front), last);
    } else {
      RunBlamed(front);
      StartedReceiving(Run(Init(), front));
    }
  }

  lemma StartedReceiving(s: State)
    requires s.open || s.error
    ensures Receiving(Step(s, AppStarts))
  {
    hide StartReceiving;
    StartIsReceiving(s);
  }

  lemma {:induction false} NeverPaused(es: seq<Event>)
    requires OnlyClosing(es)
    ensures StartsUnpaused(es)
  {
    hide Run;
    forall i | 0 <= i < |es| ensures !Run(Init(), es[..i]).paused {
      RunBlamed(es[..i]);
      if Happened(es[..i], StoppedEarly) {
        var k :| 0 <= k < i && Brings(es[..i][k], StoppedEarly);
        assert Brings(es[k], StoppedEarly);
        assert Happened(es, StoppedEarly);
      }
    }
  }

  /**
    A started connector to which nothing else happens comes to rest with everything delivered,
    and with an error exactly when the peer is gone.
   */
  lemma CleanRunSettles(es: seq<Event>)
    requires OnlyClosing(es) && AppStarts in es
    requires Run(Init(), es).tasks == [] && Run(Init(), es).frames == []
    ensures Run(Init(), es).delivered == Run(Init(), es).sent
    ensures Run(Init(), es).error <==> Run(Init(), es).peerClosed
  {
    hide Run, OnlyClosing, StartsUnpaused;
    RunReceiving(es);
    if Run(Init(), es).error {
      ClosingDeliversAll(es);
    } else {
      NeverPaused(es);
      ClosingIsNoticed(es);
    }
  }

  // ----- pausing and resuming -----

  /** A connector is paused exactly when some pause has no resuming behind it. */
  lemma {:induction false} PausedIff(es: seq<Event>)
    ensures Run(Init(), es).paused <==> exists i :: 0 <= i < |es| && es[i].AppPauses? && AppResumes !in es[i..]
  {
    hide Step;
    if es != [] {
      var front, last := es[..|es| - 1], es[|es| - 1];
      PausedIff(front);
      StepMode(Run(Init(), front), last);
      assert es == front + [last];
      forall i | 0 <= i < |es| ensures AppResumes in es[i..] <==> last == AppResumes || (i < |front| && AppResumes in front[i..]) {
        assert es[i..] == (if i < |front| then front[i..] else []) + [last];
      }
      if last == AppPauses { assert AppResumes !in es[|es| - 1..] && es[|es| - 1].AppPauses?; }
      if i :| 0 <= i < |front| && front[i].AppPauses? && AppResumes !in front[i..] && last != AppResumes {
        assert es[i].AppPauses? && AppResumes !in es[i..];
      }
    }
  }

  lemma {:induction false} RunServing(es: seq<Event>)
    requires AppStarts in es || AppPauses in es
    ensures Serving(Run(Init(), es))
  {
    hide Step, Serving;
    var front, last := es[..|es| - 1], es[|es| - 1];
    assert es == front + [last];
    if AppStarts in front || AppPauses in front {
      RunServing(front);
      StepServing(Run(Init(), front), last);
    } else if last == AppStarts {
      StartServes(Run(Init(), front));
    } else {
      PauseServes(Run(Init(), front));
    }
  }

  /** No watcher, no task, no delivery; nothing is running but an error handler. */
  predicate Unstarted(s: State) {
    && s.read == None && s.closed == None && s.tasks == [] && s.delivered == [] && !s.paused
    && forall i :: 0 <= i < |s.frames| ==> s.frames[i] == Handler(None)
  }

  lemma UnstartedInit()
    ensures Unstarted(Init())
  {
  }

  /** Nothing is received before the connector was started, or paused and resumed. */
  lemma {:induction false} NothingStarted(es: seq<Event>)
    requires AppStarts !in es && AppPauses !in es
    ensures Unstarted(Run(Init(), es))
  {
    hide Step, Unstarted;
    if es == [] {
      UnstartedInit();
    } else {
      var front, last := es[..|es| - 1], es[|es| - 1];
      assert last in es && forall e :: e in front ==> e in es;
      NothingStarted(front);
      StaysUnstarted(Run(Init(), front), last);
    }
  }

  lemma StaysUnstarted(s: State, e: Event)
    requires Unstarted(s) && e != AppStarts && e != AppPauses
    ensures Unstarted(Step(s, e))
  {
    RaiseStaysUnstarted(s, Raised);
    RaiseStaysUnstarted(s, WriteFailed);
    hide RaiseError;
  }

  lemma RaiseStaysUnstarted(s: State, cause: Cause)
    requires Unstarted(s)
    ensures Unstarted(RaiseError(s, cause, None))
  {
  }

  lemma PauseServes(s: State)
    ensures Serving(Step(s, AppPauses))
  {
  }

  /**
    A connector that was ever started or paused is receiving whenever it is not paused, its pipe is
    open and there is no error; above all after it is resumed.
   */
  lemma ResumedReceives(es: seq<Event>)
    requires AppStarts in es || AppPauses in es
    requires forall i :: 0 <= i < |es| && es[i].AppPauses? ==> AppResumes in es[i..]
    requires Run(Init(), es).open && !Run(Init(), es).error
    ensures Run(Init(), es).read.Some? && !Run(Init(), es).paused
  {
    hide Run;
    RunServing(es);
    PausedIff(es);
  }

  /** So when it comes to rest then, everything the peer wrote was delivered, pauses or not. */
  lemma ResumedRunSettles(es: seq<Event>)
    requires AppStarts in es || AppPauses in es
    requires forall i :: 0 <= i < |es| && es[i].AppPauses? ==> AppResumes in es[i..]
    requires Run(Init(), es).open && !Run(Init(), es).error
    requires Run(Init(), es).tasks == [] && Run(Init(), es).frames == []
    ensures Run(Init(), es).delivered == Run(Init(), es).sent
    ensures StartsUnpaused(es) ==> !Run(Init(), es).peerClosed
  {
    hide Run, StartsUnpaused;
    ResumedReceives(es);
    NothingIsMissed(es);
    if StartsUnpaused(es) { ClosingIsNoticed(es); }
  }

  // ----- what an error does -----

  /** A handler was set while there was no error. */
  ghost predicate SetInTime(es: seq<Event>) {
    exists i :: 0 <= i < |es| && es[i].AppSetsHandler? && !Run(Init(), es[..i]).error
  }

  lemma SetInTimeGrows(es: seq<Event>, e: Event)
    ensures SetInTime(es + [e]) <==> SetInTime(es) || (e.AppSetsHandler? && !Run(Init(), es).error)
  {
    hide Run;
    var all := es + [e];
    assert forall i :: 0 <= i < |es| ==> all[..i] == es[..i] && all[i] == es[i];
    assert all[..|es|] == es && all[|es|] == e;
  }

  /** The error handler runs exactly once if it was set before the error, and else never; without an error it waits. */
  lemma {:induction false} HandlerRunsOnce(es: seq<Event>)
    ensures Run(Init(), es).handlerRuns == if Run(Init(), es).error && SetInTime(es) then 1 else 0
    ensures !Run(Init(), es).error ==> (Run(Init(), es).handler <==> SetInTime(es))
  {
    hide Step, SetInTime;
    if es == [] {
      NothingSet();
    } else {
      var front, last := es[..|es| - 1], es[|es| - 1];
      HandlerRunsOnce(front);
      assert es == front + [last];
      SetInTimeGrows(front, last);
      StepMode(Run(Init(), front), last);
      if Run(Init(), front).error { ErrorStays(Run(Init(), front), last); }
    }
  }

  lemma NothingSet()
    ensures !SetInTime([]) && Init().handlerRuns == 0 && !Init().handler && !Init().error
  {
  }

  /** What is an error: a raise, a failed write on an open pipe, a refusal, a bad event that is looked at. */
  predicate IsTrouble(s: State, e: Event) {
    match e
    case AppRaises => true
    case AppWrites(written) => s.open && !written
    case ReceiverReturns(accepted) => s.frames != [] && s.frames[|s.frames| - 1].Dispatch? && !accepted
    case TaskRuns => s.tasks != [] && Live(s, s.tasks[0]) && s.tasks[0].kind == Read && !s.tasks[0].ok && !s.paused
    case _ => false
  }

  lemma TroubleRaises(s: State, e: Event)
    requires IsTrouble(s, e)
    ensures Step(s, e).error
  {
    hide RaiseError, ReadNext, Finish;
    RaiseFrame(s, Raised, None);
    RaiseFrame(s, WriteFailed, None);
    if e.ReceiverReturns? {
      RaiseFrame(s.(frames := s.frames[..|s.frames| - 1]), Rejected, Some(s.frames[|s.frames| - 1].task));
    }
    if e.TaskRuns? {
      var r := s.(tasks := s.tasks[1..]);
      RaiseFrame(r, BadEvent, Some(s.tasks[0]));
      FinishFrame(r, Some(s.tasks[0]));
    }
  }

  /** After any of these, in any run, the connector has its error for good. */
  lemma {:induction false} TroubleIsAnError(es: seq<Event>, i: nat)
    requires i < |es| && IsTrouble(Run(Init(), es[..i]), es[i])
    ensures Run(Init(), es).error
    decreases |es|
  {
    hide Step, IsTrouble;
    var front, last := es[..|es| - 1], es[|es| - 1];
    if i == |es| - 1 {
      TroubleRaises(Run(Init(), front), last);
    } else {
      assert front[..i] == es[..i] && front[i] == es[i];
      TroubleIsAnError(front, i);
      ErrorStays(Run(Init(), front), last);
    }
  }

  /** In every run: what is delivered can be read, and a message that cannot is behind an error once it is taken. */
  lemma {:induction false} DeliveredCanBeRead(es: seq<Event>)
    ensures Readable(Run(Init(), es))
  {
    hide Step, Readable;
    if es == [] {
      NothingRead();
    } else {
      DeliveredCanBeRead(es[..|es| - 1]);
      StepReadable(Run(Init(), es[..|es| - 1]), es[|es| - 1]);
    }
  }

  lemma NothingRead()
    ensures Readable(Init())
  {
  }

  // ----- the cost of a pause -----

  /**
    Pausing during that drain loses what is still buffered: the peer writes three messages and
    closes during the first delivery, the second one is delivered by the closing drain from a
    nested task, and pausing there leaves the third behind an error.
   */
  function PausedRun(): seq<Event> {
    [PeerWrites(Msg(1, true), true), PeerWrites(Msg(2, true), true), PeerWrites(Msg(3, true), true), AppStarts,
     TaskRuns, PeerCloses(true), TaskRuns, AppPauses, ReceiverReturns(true)]
  }

  lemma PausingLosesTheRest()
    ensures var s := Run(Init(), PausedRun());
            s.cause == Some(StoppedEarly) && s.sent == [Msg(1, true), Msg(2, true), Msg(3, true)] &&
            s.delivered == [Msg(1, true), Msg(2, true)]
  {
    hide Step;
    var es := PausedRun();
    RunTo(es, 0);
    RunTo(es, 1);
    RunTo(es, 2);
    RunTo(es, 3);
    RunTo(es, 4);
    RunTo(es, 5);
    RunTo(es, 6);
    RunTo(es, 7);
    RunTo(es, 8);
    assert es[..9] == es;
    PausedFirst();
    PausedLast();
  }

  lemma RunTo(es: seq<Event>, i: nat)
    requires i < |es|
    ensures Run(Init(), es[..i + 1]) == Step(Run(Init(), es[..i]), es[i])
    ensures i == 0 ==> Run(Init(), es[..i]) == Init()
  {
    assert es[..i + 1][..i] == es[..i];
  }

  /** The state at the first delivery. */
  function FirstDelivery(): State {
    var ms := [Msg(1, true), Msg(2, true), Msg(3, true)];
    State(false, false, true, Some(Watch(0, true, false)), Some(Watch(1, true, true)), 2, false, 0, None,
          [], [Dispatch(Task(0, Read, true))], ms[1..], ms, ms[..1], ms[..1], false)
  }

  lemma PausedFirst()
    ensures Step(Step(Step(Step(Step(Init(), PausedRun()[0]), PausedRun()[1]), PausedRun()[2]), PausedRun()[3]), PausedRun()[4]) ==
            FirstDelivery()
  {
    var es := PausedRun();
    var s3 := Step(Step(Step(Init(), es[0]), es[1]), es[2]);
    assert s3 == Init().(sent := [Msg(1, true), Msg(2, true), Msg(3, true)], inbox := [Msg(1, true), Msg(2, true), Msg(3, true)]);
    var s4 := Step(s3, es[3]);
    assert s4.tasks == [Task(0, Read, true)];
  }

  /** The state at the second one, below which the first is still going on. */
  function SecondDelivery(): State {
    FirstDelivery().(peerClosed := true, closed := Some(Watch(1, false, false)),
                     frames := [Dispatch(Task(0, Read, true)), Dispatch(Task(1, Closed, true))],
                     inbox := [Msg(3, true)], taken := [Msg(1, true), Msg(2, true)], delivered := [Msg(1, true), Msg(2, true)])
  }

  lemma PausedSecond()
    ensures Step(Step(FirstDelivery(), PausedRun()[5]), PausedRun()[6]) == SecondDelivery()
  {
    var s := Step(FirstDelivery(), PausedRun()[5]);
    assert s == FirstDelivery().(peerClosed := true, closed := Some(Watch(1, true, false)), tasks := [Task(1, Closed, true)]);
  }

  lemma PausedLast()
    ensures var s := Step(Step(Step(Step(FirstDelivery(), PausedRun()[5]), PausedRun()[6]), PausedRun()[7]), PausedRun()[8]);
            s.cause == Some(StoppedEarly) && s.sent == [Msg(1, true), Msg(2, true), Msg(3, true)] &&
            s.delivered == [Msg(1, true), Msg(2, true)]
  {
    hide Step;
    PausedSecond();
    PausedThird();
  }

  lemma PausedThird()
    ensures var s := Step(Step(SecondDelivery(), AppPauses), ReceiverReturns(true));
            s.cause == Some(StoppedEarly) && s.sent == [Msg(1, true), Msg(2, true), Msg(3, true)] &&
            s.delivered == [Msg(1, true), Msg(2, true)]
  {
    var s := Step(SecondDelivery(), AppPauses);
    assert s.paused && s.frames[1] == Dispatch(Task(1, Closed, true));
  }
}
