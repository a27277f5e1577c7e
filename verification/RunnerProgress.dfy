/** A run is never stranded: from every reachable state it can still end, without help from outside. */
module RunnerProgress {
  import opened Wrappers
  import opened Messaging
  import opened Runner
  import opened RunnerConservation
  import opened RunnerShutdown

  // ----- how far a state is from its end -----

  function Work(worker: Worker): nat {
    match worker
    case Exited => 0
    case Idle => 1
    case Cancelling => 1
    case Failing(_) => 2
    case Completing(_, _) => 2
    case Calling(_, _) => 3
    case Sleeping(_, _) => 4
  }

  function TotalWork(workers: seq<Worker>): nat {
    if workers == [] then 0 else TotalWork(workers[1..]) + Work(workers[0])
  }

  function ReceiverWork(receiver: Receiver): nat {
    match receiver
    case Holding(_) => 6
    case Receiving => 2
    case Stopped(_, closed) => if closed then 0 else 1
  }

  function Remaining(s: State): nat {
    ReceiverWork(s.receiver) + 3 * |s.buffer| + TotalWork(s.workers) + if s.result.None? then 1 else 0
  }

  lemma {:induction false} WorkAfter(workers: seq<Worker>, i: nat, worker: Worker)
    requires i < |workers|
    ensures TotalWork(workers[i := worker]) + Work(workers[i]) == TotalWork(workers) + Work(worker)
  {
    if i == 0 {
      assert workers[i := worker][1..] == workers[1..];
    } else {
      WorkAfter(workers[1..], i - 1, worker);
      assert workers[i := worker][1..] == workers[1..][i - 1 := worker];
    }
  }

  // ----- one step closer -----

  /** Nobody asked to stop, no worker has failed. */
  predicate Calm(s: State) {
    !s.cancelled && s.slot.None? && forall i :: 0 <= i < |s.workers| ==>
        !s.workers[i].Failing? && !s.workers[i].Cancelling?
  }

  /** The action brings the run closer to its end, is not an order from outside to stop, and troubles nobody. */
  ghost predicate Advances(cfg: Config, s: State, a: Action) {
    !a.CancelParent? && Remaining(Step(cfg, s, a)) < Remaining(s) && (Calm(s) ==> Calm(Step(cfg, s, a)))
  }

  /** What the world can do for a worker that is busy. */
  function NextFor(worker: Worker, w: nat): Action {
    match worker
    case Calling(_, _) => Answer(w, Ack)
    case Sleeping(_, _) => Wake(w)
    case Completing(_, _) => Complete(w, true)
    case Failing(_) => Report(w)
    case _ => CancelRun(w)
  }

  lemma NextLightens(cfg: Config, s: State, w: nat)
    requires w < |s.workers| && !s.workers[w].Exited? && !s.workers[w].Idle?
    requires WorkerFits(cfg, s.workers[w])
    ensures
      var t := Step(cfg, s, NextFor(s.workers[w], w));
      && t.workers == s.workers[w := t.workers[w]] && Work(t.workers[w]) < Work(s.workers[w])
      && t.receiver == s.receiver && t.buffer == s.buffer && t.result == s.result
      && (Calm(s) ==> !t.cancelled && t.slot.None? && !t.workers[w].Failing? && !t.workers[w].Cancelling?)
  {
    assert Last([Ack]) == Ack;
  }

  lemma BusyWorkerAdvances(cfg: Config, s: State, w: nat) returns (a: Action)
    requires w < |s.workers| && !s.workers[w].Exited? && !s.workers[w].Idle?
    requires WorkerFits(cfg, s.workers[w])
    ensures Advances(cfg, s, a)
  {
    a := NextFor(s.workers[w], w);
    NextLightens(cfg, s, w);
    WorkAfter(s.workers, w, Step(cfg, s, a).workers[w]);
  }

  lemma IdleWorkerAdvances(cfg: Config, s: State, w: nat) returns (a: Action)
    requires w < |s.workers| && s.workers[w].Idle? && cfg.buffer > 0
    requires s.receiver.Holding? || Closed(s)
    ensures Advances(cfg, s, a)
  {
    if s.buffer != [] {
      a := Take(w);
      WorkAfter(s.workers, w, Calling(s.buffer[0], []));
    } else if Closed(s) {
      a := ExitOnClose(w);
      WorkAfter(s.workers, w, Exited);
    } else {
      a := Enqueue;
    }
  }

  /** With all workers gone, only the receive loop and the end of the run remain. */
  lemma LoopAdvances(cfg: Config, s: State) returns (a: Action)
    requires RunnerShutdown.Inv(s) && s.workers != [] && AllExited(s.workers) && s.result.None?
    requires s.receiver.Holding? || Closed(s)
    ensures Advances(cfg, s, a)
  {
    AllGone(s);
    a := if s.receiver.Holding? then GiveUp else Finish(true);
  }

  /** What every reachable state satisfies. */
  ghost predicate Reached(cfg: Config, s: State) {
    RunnerShutdown.Inv(s) && HistoriesFit(cfg, s) && |s.workers| == cfg.workers
  }

  lemma RunsReach(cfg: Config, acts: seq<Action>)
    requires cfg.workers > 0
    ensures Reached(cfg, Exec(cfg, Start(cfg), acts))
  {
    RunKeepsInv(cfg, acts);
    RunKeepsHistories(cfg, acts);
  }

  lemma StepReaches(cfg: Config, s: State, a: Action)
    requires cfg.workers > 0 && Reached(cfg, s)
    ensures Reached(cfg, Step(cfg, s, a))
  {
    StepKeepsInv(cfg, s, a);
    StepKeepsHistories(cfg, s, a);
  }

  /** Until the run has returned, some step other than a cancellation from outside brings it closer to its end. */
  lemma NoDeadlock(cfg: Config, acts: seq<Action>) returns (a: Action)
    requires cfg.workers > 0 && cfg.buffer > 0 && Exec(cfg, Start(cfg), acts).result.None?
    ensures Advances(cfg, Exec(cfg, Start(cfg), acts), a)
  {
    RunsReach(cfg, acts);
    a := SomeStepAdvances(cfg, Exec(cfg, Start(cfg), acts));
  }

  lemma SomeStepAdvances(cfg: Config, s: State) returns (a: Action)
    requires cfg.workers > 0 && cfg.buffer > 0 && Reached(cfg, s) && s.result.None?
    ensures Advances(cfg, s, a)
  {
    if s.receiver.Receiving? {
      a := Receive(Nil);
    } else if s.receiver.Stopped? && !s.receiver.closed {
      a := CloseQueue;
    } else if w :| 0 <= w < |s.workers| && !s.workers[w].Exited? && !s.workers[w].Idle? {
      a := BusyWorkerAdvances(cfg, s, w);
    } else if w :| 0 <= w < |s.workers| && s.workers[w].Idle? {
      a := IdleWorkerAdvances(cfg, s, w);
    } else {
      a := LoopAdvances(cfg, s);
    }
  }

  predicate Uncancelled(acts: seq<Action>) {
    forall i :: 0 <= i < |acts| ==> !acts[i].CancelParent?
  }

  /** Step by step to the end. */
  lemma CanReturnFrom(cfg: Config, s: State) returns (more: seq<Action>)
    requires cfg.workers > 0 && cfg.buffer > 0 && Reached(cfg, s)
    ensures Uncancelled(more) && Exec(cfg, s, more).result.Some?
    ensures Calm(s) ==> Calm(Exec(cfg, s, more))
  {
    var t := s;
    more := [];
    while t.result.None?
      invariant t == Exec(cfg, s, more) && Reached(cfg, t) && Uncancelled(more)
      invariant Calm(s) ==> Calm(t)
      decreases Remaining(t)
    {
      var a := SomeStepAdvances(cfg, t);
      StepReaches(cfg, t, a);
      ExecAppend(cfg, s, more, a);
      more := more + [a];
      t := Step(cfg, t, a);
    }
  }

  /**
   * From every reachable state the run can still return without being cancelled from outside; and while
   * nobody has cancelled and no worker has failed, it can return with every delivery received completed.
   */
  lemma RunCanReturn(cfg: Config, acts: seq<Action>) returns (more: seq<Action>)
    requires cfg.workers > 0 && cfg.buffer > 0
    ensures Uncancelled(more) && Exec(cfg, Start(cfg), acts + more).result.Some?
    ensures Calm(Exec(cfg, Start(cfg), acts)) ==> Calm(Exec(cfg, Start(cfg), acts + more))
  {
    RunsReach(cfg, acts);
    more := CanReturnFrom(cfg, Exec(cfg, Start(cfg), acts));
    ExecSplit(cfg, Start(cfg), acts, more);
  }

  /** So a delivery received is never beyond completion before something fails. */
  lemma EveryDeliveryCanComplete(cfg: Config, acts: seq<Action>, id: nat) returns (more: seq<Action>)
    requires cfg.workers > 0 && cfg.buffer > 0
    requires Calm(Exec(cfg, Start(cfg), acts)) && id < Exec(cfg, Start(cfg), acts).received
    ensures Uncancelled(more)
    ensures
      var t := Exec(cfg, Start(cfg), acts + more);
      t.result.Some? && exists i :: 0 <= i < |t.completions| && t.completions[i].id == id && t.completions[i].ok
  {
    more := RunCanReturn(cfg, acts);
    ExecSplit(cfg, Start(cfg), acts, more);
    ReceivedOnlyGrows(cfg, Exec(cfg, Start(cfg), acts), more);
    SourceFailureDrains(cfg, acts + more, id);
  }

  // ----- stopping on cancellation -----

  /** Cancelled, and no worker has anything in hand. */
  predicate Resting(s: State) {
    s.cancelled && forall i :: 0 <= i < |s.workers| ==> s.workers[i].Idle? || s.workers[i].Exited?
  }

  /** The next step of the way out: nothing is taken from the queue. */
  lemma RestingAdvances(cfg: Config, s: State) returns (a: Action)
    requires Resting(s) && s.result.None?
    ensures
      var t := Step(cfg, s, a);
      && !a.Take? && Remaining(t) < Remaining(s) && Resting(t)
      && t.completions == s.completions && t.undecided == s.undecided && t.received <= s.received
  {
    if s.receiver.Receiving? {
      a := Receive(Failed);
    } else if s.receiver.Holding? {
      a := GiveUp;
    } else if !s.receiver.closed {
      a := CloseQueue;
    } else if w :| 0 <= w < |s.workers| && s.workers[w].Idle? {
      a := ExitOnCancel(w);
      WorkAfter(s.workers, w, Exited);
    } else {
      a := Finish(true);
    }
  }

  /** Once cancelled and at rest a run can return without handling any further delivery. */
  lemma CancelledRunCanReturn(cfg: Config, s: State) returns (more: seq<Action>)
    requires Resting(s)
    ensures
      var t := Exec(cfg, s, more);
      t.result.Some? && t.completions == s.completions && t.undecided == s.undecided && t.received <= s.received
  {
    var t := s;
    more := [];
    while t.result.None?
      invariant t == Exec(cfg, s, more) && Resting(t)
      invariant t.completions == s.completions && t.undecided == s.undecided && t.received <= s.received
      decreases Remaining(t)
    {
      var a := RestingAdvances(cfg, t);
      ExecAppend(cfg, s, more, a);
      more := more + [a];
      t := Step(cfg, t, a);
    }
  }

  lemma {:induction false} ReceivedOnlyGrows(cfg: Config, s: State, more: seq<Action>)
    ensures s.received <= Exec(cfg, s, more).received
  {
    if more != [] {
      var init := more[..|more| - 1];
      ReceivedOnlyGrows(cfg, s, init);
      StepReceives(cfg, Exec(cfg, s, init), more[|more| - 1]);
    }
  }

  lemma StepReceives(cfg: Config, s: State, a: Action)
    ensures s.received <= Step(cfg, s, a).received
  {
  }
}
