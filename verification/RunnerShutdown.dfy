/** How a run ends: draining, abandonment, and which error it returns. */
module RunnerShutdown {
  import opened Wrappers
  import opened Messaging
  import opened Runner
  import opened RunnerConservation

  ghost predicate SomeWorker(s: State, worker: Worker) {
    exists i :: 0 <= i < |s.workers| && s.workers[i] == worker
  }

  ghost predicate SomeFailing(s: State) {
    exists i :: 0 <= i < |s.workers| && s.workers[i].Failing?
  }

  predicate Trouble(s: State) {
    s.undecided != [] || exists i :: 0 <= i < |s.completions| && !s.completions[i].ok
  }

  /** Deliveries are abandoned only once the run is cancelled. */
  ghost predicate AbandonedAfterCancel(s: State) {
    s.abandoned != [] ==> s.cancelled
  }

  /** The error slot keeps the first error reported. */
  ghost predicate FirstReportKept(s: State) {
    s.slot == if s.reported == [] then None else Some(s.reported[0])
  }

  /** Whoever filled the slot has cancelled the run or is about to. */
  ghost predicate ReportCancels(s: State) {
    s.slot.Some? ==> s.cancelled || SomeWorker(s, Cancelling)
  }

  /** A worker leaves only on cancellation, after a report, or when the closed queue is empty. */
  ghost predicate ExitsJustified(s: State) {
    forall i :: 0 <= i < |s.workers| && s.workers[i].Exited? ==>
      s.cancelled || s.slot.Some? || (Closed(s) && s.buffer == [])
  }

  /** Any failed or missing completion has been reported or is about to be. */
  ghost predicate TroubleReported(s: State) {
    Trouble(s) ==> s.slot.Some? || SomeFailing(s)
  }

  ghost predicate ResultFits(s: State) {
    s.result.Some? ==>
      && Closed(s)
      && AllExited(s.workers)
      && s.buffer == []
      && s.result.value.error == if s.slot.Some? then s.slot.value else s.receiver.error
  }

  ghost predicate ReceiveErrorFits(s: State) {
    s.receiver.Stopped? ==> s.receiver.error in [ContextDone, ReceiveFailed, NilDelivery]
                            && (s.receiver.error == ContextDone ==> s.cancelled)
  }

  lemma StepKeepsFirstReport(cfg: Config, s: State, a: Action)
    requires FirstReportKept(s)
    ensures FirstReportKept(Step(cfg, s, a))
  {
  }

  lemma StepKeepsReportCancels(cfg: Config, s: State, a: Action)
    requires ReportCancels(s)
    ensures ReportCancels(Step(cfg, s, a))
  {
    var t := Step(cfg, s, a);
    if s.slot.Some? && !s.cancelled && !t.cancelled {
      var i :| 0 <= i < |s.workers| && s.workers[i] == Cancelling;
      assert t.workers[i] == Cancelling;
    } else if t.slot.Some? && s.slot.None? {
      assert t.workers[a.w] == Cancelling;
    }
  }

  lemma StepKeepsTroubleReported(cfg: Config, s: State, a: Action)
    requires TroubleReported(s)
    ensures TroubleReported(Step(cfg, s, a))
  {
    var t := Step(cfg, s, a);
    if t.slot.None? && Trouble(t) {
      if Trouble(s) {
        var i :| 0 <= i < |s.workers| && s.workers[i].Failing?;
        assert t.workers[i].Failing?;
      } else {
        assert t.workers[a.w].Failing?;
      }
    }
  }

  lemma StepKeepsExitsJustified(cfg: Config, s: State, a: Action)
    requires ExitsJustified(s)
    ensures ExitsJustified(Step(cfg, s, a))
  {
    var t := Step(cfg, s, a);
    forall i | 0 <= i < |t.workers| && t.workers[i].Exited?
      ensures t.cancelled || t.slot.Some? || (Closed(t) && t.buffer == [])
    {
      if s.workers[i].Exited? {
        assert s.cancelled || s.slot.Some? || (Closed(s) && s.buffer == []);
      }
    }
  }

  lemma FinishedRunIsStill(cfg: Config, s: State, a: Action)
    requires ResultFits(s) && s.result.Some?
    ensures Step(cfg, s, a).(cancelled := s.cancelled) == s
  {
  }

  lemma StepKeepsResultFits(cfg: Config, s: State, a: Action)
    requires ResultFits(s)
    ensures ResultFits(Step(cfg, s, a))
  {
    if s.result.Some? {
      FinishedRunIsStill(cfg, s, a);
    }
  }

  lemma StepKeepsReceiveError(cfg: Config, s: State, a: Action)
    requires ReceiveErrorFits(s)
    ensures ReceiveErrorFits(Step(cfg, s, a))
  {
  }

  /** With everyone gone and neither cancellation nor report, the closed queue is empty. */
  lemma AllGone(s: State)
    requires AllExited(s.workers) && ExitsJustified(s) && ReportCancels(s) && s.workers != []
    ensures s.cancelled || (s.slot.None? && Closed(s) && s.buffer == [])
  {
    assert s.workers[0].Exited?;
  }

  lemma StepKeepsAbandonment(cfg: Config, s: State, a: Action)
    requires AbandonedAfterCancel(s) && ExitsJustified(s) && ReportCancels(s) && s.workers != []
    ensures AbandonedAfterCancel(Step(cfg, s, a))
  {
    if a.Finish? && AllExited(s.workers) {
      AllGone(s);
    }
  }

  ghost predicate Inv(s: State) {
    && AbandonedAfterCancel(s)
    && FirstReportKept(s)
    && ReportCancels(s)
    && ExitsJustified(s)
    && TroubleReported(s)
    && ResultFits(s)
    && ReceiveErrorFits(s)
  }

  lemma StepKeepsInv(cfg: Config, s: State, a: Action)
    requires Inv(s) && s.workers != []
    ensures Inv(Step(cfg, s, a)) && |Step(cfg, s, a).workers| == |s.workers|
  {
    StepKeepsAbandonment(cfg, s, a);
    StepKeepsFirstReport(cfg, s, a);
    StepKeepsReportCancels(cfg, s, a);
    StepKeepsExitsJustified(cfg, s, a);
    StepKeepsTroubleReported(cfg, s, a);
    StepKeepsResultFits(cfg, s, a);
    StepKeepsReceiveError(cfg, s, a);
    StepKeepsWorkers(cfg, s, a);
  }

  lemma StepKeepsWorkers(cfg: Config, s: State, a: Action)
    ensures |Step(cfg, s, a).workers| == |s.workers|
  {
  }

  lemma StartFits(cfg: Config)
    ensures Inv(Start(cfg)) && |Start(cfg).workers| == cfg.workers
  {
  }

  lemma {:induction false} RunKeepsInv(cfg: Config, acts: seq<Action>)
    requires cfg.workers > 0
    ensures Inv(Exec(cfg, Start(cfg), acts))
    ensures |Exec(cfg, Start(cfg), acts).workers| == cfg.workers
  {
    if acts == [] {
      StartFits(cfg);
    } else {
      var before, a := acts[..|acts| - 1], acts[|acts| - 1];
      RunKeepsInv(cfg, before);
      StepKeepsInv(cfg, Exec(cfg, Start(cfg), before), a);
    }
  }

  /** A delivery is abandoned only after cancellation, in every reachable state. */
  lemma AbandonmentNeedsCancellation(cfg: Config, acts: seq<Action>)
    requires cfg.workers > 0
    ensures
      var s := Exec(cfg, Start(cfg), acts);
      s.abandoned != [] ==> s.cancelled
  {
    RunKeepsInv(cfg, acts);
  }

  /** A run returns the first worker error reported, and the receive error only when no worker reported one. */
  lemma FirstWorkerErrorWins(cfg: Config, acts: seq<Action>)
    requires cfg.workers > 0
    ensures
      var s := Exec(cfg, Start(cfg), acts);
      s.result.Some? ==>
        s.receiver.Stopped? &&
        s.result.value.error == if s.reported != [] then s.reported[0] else s.receiver.error
  {
    RunKeepsInv(cfg, acts);
  }

  // ----- what an error means -----

  /** What happened for a worker to fail with this error; the errors of the receive loop are not among them. */
  ghost predicate WorkerCause(s: State, error: Error) {
    match error
    case ContextDone => s.cancelled
    case CompletionFailed(id, decision) =>
      exists i :: 0 <= i < |s.completions| && FailedCompletion(s.completions[i], id, decision)
    case NoDecision(id) => id in s.undecided
    case _ => false
  }

  predicate FailedCompletion(c: Completion, id: nat, decision: Decision) {
    c.id == id && !c.ok && c.answers != [] && Last(c.answers) == decision
  }

  ghost predicate WorkersHaveCauses(s: State) {
    && (forall i :: 0 <= i < |s.workers| && s.workers[i].Failing? ==> WorkerCause(s, s.workers[i].error))
    && (forall i :: 0 <= i < |s.reported| ==> WorkerCause(s, s.reported[i]))
  }

  lemma CausesLast(cfg: Config, s: State, a: Action, error: Error)
    requires WorkerCause(s, error)
    ensures WorkerCause(Step(cfg, s, a), error)
  {
    var t := Step(cfg, s, a);
    if error.CompletionFailed? {
      var i :| 0 <= i < |s.completions| && FailedCompletion(s.completions[i], error.id, error.decision);
      assert s.completions <= t.completions && t.completions[i] == s.completions[i];
    }
  }

  /** A worker that starts to fail has just met the cause. */
  lemma NewFailureHasCause(cfg: Config, s: State, a: Action, w: nat)
    requires w < |s.workers| && !s.workers[w].Failing? && Step(cfg, s, a).workers[w].Failing?
    ensures WorkerCause(Step(cfg, s, a), Step(cfg, s, a).workers[w].error)
  {
    var t := Step(cfg, s, a);
    if a.Complete? {
      var c := t.completions[|s.completions|];
      assert FailedCompletion(c, c.id, Last(c.answers));
    }
  }

  lemma FailingLasts(cfg: Config, s: State, a: Action, w: nat)
    requires w < |s.workers| && s.workers[w].Failing? && Step(cfg, s, a).workers[w].Failing?
    ensures Step(cfg, s, a).workers[w] == s.workers[w]
  {
  }

  lemma NewReportHasCause(cfg: Config, s: State, a: Action, i: nat)
    requires WorkersHaveCauses(s) && i < |Step(cfg, s, a).reported|
    ensures WorkerCause(s, Step(cfg, s, a).reported[i])
  {
  }

  lemma StepKeepsCauses(cfg: Config, s: State, a: Action)
    requires WorkersHaveCauses(s)
    ensures WorkersHaveCauses(Step(cfg, s, a))
  {
    var t := Step(cfg, s, a);
    StepKeepsWorkers(cfg, s, a);
    forall i | 0 <= i < |t.workers| && t.workers[i].Failing?
      ensures WorkerCause(t, t.workers[i].error)
    {
      if s.workers[i].Failing? {
        FailingLasts(cfg, s, a, i);
        CausesLast(cfg, s, a, s.workers[i].error);
      } else {
        NewFailureHasCause(cfg, s, a, i);
      }
    }
    forall i | 0 <= i < |t.reported|
      ensures WorkerCause(t, t.reported[i])
    {
      NewReportHasCause(cfg, s, a, i);
      CausesLast(cfg, s, a, t.reported[i]);
    }
  }

  lemma {:induction false} RunKeepsCauses(cfg: Config, acts: seq<Action>)
    ensures WorkersHaveCauses(Exec(cfg, Start(cfg), acts))
  {
    if acts != [] {
      var before, a := acts[..|acts| - 1], acts[|acts| - 1];
      RunKeepsCauses(cfg, before);
      StepKeepsCauses(cfg, Exec(cfg, Start(cfg), before), a);
    }
  }

  /** The action that stopped the receive loop with this error, and what it found. */
  ghost predicate StopsWith(cfg: Config, acts: seq<Action>, k: nat, error: Error)
    requires k < |acts|
  {
    var s := Exec(cfg, Start(cfg), acts[..k]);
    && !s.receiver.Stopped?
    && match error
       case ReceiveFailed => acts[k] == Receive(Failed) && !s.cancelled
       case NilDelivery => acts[k] == Receive(Nil)
       case ContextDone => s.cancelled && (acts[k] == Receive(Failed) || acts[k] == GiveUp)
       case _ => false
  }

  ghost predicate ReceiveCause(cfg: Config, acts: seq<Action>, error: Error) {
    exists k :: 0 <= k < |acts| && StopsWith(cfg, acts, k, error)
  }

  lemma StoppedStays(cfg: Config, s: State, a: Action)
    requires s.receiver.Stopped?
    ensures Step(cfg, s, a).receiver.Stopped? && Step(cfg, s, a).receiver.error == s.receiver.error
  {
  }

  /** The loop stops with the error of the step that stops it, and keeps it. */
  lemma {:induction false} ReceiveErrorHasCause(cfg: Config, acts: seq<Action>)
    ensures
      var s := Exec(cfg, Start(cfg), acts);
      s.receiver.Stopped? ==> ReceiveCause(cfg, acts, s.receiver.error)
  {
    if acts != [] {
      var n := |acts| - 1;
      var before, s := acts[..n], Exec(cfg, Start(cfg), acts[..n]);
      var t := Step(cfg, s, acts[n]);
      if s.receiver.Stopped? {
        ReceiveErrorHasCause(cfg, before);
        StoppedStays(cfg, s, acts[n]);
        var k :| 0 <= k < n && StopsWith(cfg, before, k, s.receiver.error);
        assert before[..k] == acts[..k];
        assert StopsWith(cfg, acts, k, t.receiver.error);
      } else if t.receiver.Stopped? {
        assert StopsWith(cfg, acts, n, t.receiver.error);
      }
    }
  }

  /** A returned run says whether closing the source failed. */
  lemma {:induction false} CloseFailureIsReported(cfg: Config, acts: seq<Action>)
    ensures
      var s := Exec(cfg, Start(cfg), acts);
      s.result.Some? ==> Finish(!s.result.value.closeFailed) in acts
  {
    if acts != [] {
      var before, a := acts[..|acts| - 1], acts[|acts| - 1];
      CloseFailureIsReported(cfg, before);
      assert acts == before + [a];
    }
  }

  /** The queue is closed by an action of its own, once the receive loop has stopped. */
  lemma ClosedExactly(cfg: Config, s: State, a: Action)
    ensures Closed(Step(cfg, s, a)) <==> Closed(s) || (a == CloseQueue && s.receiver.Stopped?)
  {
  }

  /** A worker about to cancel the run has reported an error. */
  ghost predicate CancellersReported(s: State) {
    forall i :: 0 <= i < |s.workers| && s.workers[i].Cancelling? ==> s.reported != []
  }

  /** A run is cancelled from outside or by a worker that has reported an error, and by nothing else. */
  lemma {:induction false} CancellationHasCause(cfg: Config, acts: seq<Action>)
    ensures
      var s := Exec(cfg, Start(cfg), acts);
      CancellersReported(s) && (s.cancelled ==> CancelParent in acts || s.reported != [])
  {
    if acts != [] {
      var before, a := acts[..|acts| - 1], acts[|acts| - 1];
      CancellationHasCause(cfg, before);
      CancelStep(cfg, Exec(cfg, Start(cfg), before), a);
      assert acts == before + [a];
    }
  }

  lemma CancelStep(cfg: Config, s: State, a: Action)
    requires CancellersReported(s)
    ensures CancellersReported(Step(cfg, s, a))
    ensures s.reported != [] ==> Step(cfg, s, a).reported != []
    ensures Step(cfg, s, a).cancelled ==> s.cancelled || a == CancelParent || s.reported != []
  {
    StepKeepsWorkers(cfg, s, a);
  }

  /** Whatever error a run returns with, it happened: on the worker's side if one reported, else on the source's. */
  lemma ErrorsHaveCauses(cfg: Config, acts: seq<Action>)
    requires cfg.workers > 0
    ensures
      var s := Exec(cfg, Start(cfg), acts);
      s.result.Some? ==>
        if s.reported != [] then WorkerCause(s, s.result.value.error)
        else ReceiveCause(cfg, acts, s.result.value.error)
  {
    FirstWorkerErrorWins(cfg, acts);
    RunKeepsCauses(cfg, acts);
    ReceiveErrorHasCause(cfg, acts);
  }

  lemma {:induction false} CompletedSomewhere(completions: seq<Completion>, id: nat) returns (i: nat)
    requires Completed(completions, id) >= 1
    ensures i < |completions| && completions[i].id == id
  {
    if completions[|completions| - 1].id == id {
      i := |completions| - 1;
    } else {
      i := CompletedSomewhere(completions[..|completions| - 1], id);
    }
  }

  lemma NobodyInHand(s: State, id: nat)
    requires AllExited(s.workers)
    ensures InHands(s.workers, id) == 0
  {
    NobodyHolds(s.workers, id);
  }

  /**
   * When a run ends without cancellation, no worker ever reported an error, and every delivery received
   * has been handled and successfully completed; the error returned is the source's.
   */
  lemma SourceFailureDrains(cfg: Config, acts: seq<Action>, id: nat)
    requires cfg.workers > 0
    requires
      var s := Exec(cfg, Start(cfg), acts);
      s.result.Some? && !s.cancelled && id < s.received
    ensures
      var s := Exec(cfg, Start(cfg), acts);
      && s.reported == [] && s.abandoned == [] && s.undecided == []
      && s.result.value.error in [ReceiveFailed, NilDelivery] && ReceiveCause(cfg, acts, s.result.value.error)
      && exists i :: 0 <= i < |s.completions| && s.completions[i].id == id && s.completions[i].ok
                     && Handled(cfg, s.completions[i].answers)
  {
    var s := Exec(cfg, Start(cfg), acts);
    RunKeepsInv(cfg, acts);
    AllGone(s);
    assert !Trouble(s);
    PlacesOverRun(cfg, acts, id);
    NobodyInHand(s, id);
    var i := CompletedSomewhere(s.completions, id);
    assert s.completions[i].ok;
    RunKeepsHistories(cfg, acts);
    ErrorsHaveCauses(cfg, acts);
  }
}
