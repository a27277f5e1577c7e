/** Every delivery is in exactly one place, and is completed at most once, as the handler decided. */
module RunnerConservation {
  import opened Wrappers
  import opened Messaging
  import opened Runner

  // ----- where deliveries are -----

  function One(yes: bool): nat {
    if yes then 1 else 0
  }

  function Count(ids: seq<nat>, id: nat): nat {
    if ids == [] then 0 else Count(ids[..|ids| - 1], id) + One(ids[|ids| - 1] == id)
  }

  predicate HasInHand(worker: Worker, id: nat) {
    (worker.Calling? || worker.Sleeping? || worker.Completing?) && worker.id == id
  }

  function InHands(workers: seq<Worker>, id: nat): nat {
    if workers == [] then 0 else InHands(workers[1..], id) + One(HasInHand(workers[0], id))
  }

  function Held(receiver: Receiver, id: nat): nat {
    One(receiver.Holding? && receiver.id == id)
  }

  function Completed(completions: seq<Completion>, id: nat): nat {
    if completions == [] then 0
    else Completed(completions[..|completions| - 1], id) + One(completions[|completions| - 1].id == id)
  }

  /** Completed, or refused by the worker because the handler gave no decision. */
  function Finished(s: State, id: nat): nat {
    Completed(s.completions, id) + Count(s.undecided, id)
  }

  /** In how many places a delivery is. */
  function Places(s: State, id: nat): nat {
    Held(s.receiver, id) + Count(s.buffer, id) + InHands(s.workers, id) + Finished(s, id) + Count(s.abandoned, id)
  }

  /** Every delivery received is in exactly one place, and nothing else is anywhere. */
  ghost predicate Conserved(s: State) {
    forall id: nat :: Places(s, id) == One(id < s.received)
  }

  lemma CountOneMore(ids: seq<nat>, x: nat, id: nat)
    ensures Count(ids + [x], id) == Count(ids, id) + One(x == id)
  {
    assert (ids + [x])[..|ids|] == ids;
  }

  lemma {:induction false} CountConcat(ids: seq<nat>, more: seq<nat>, id: nat)
    ensures Count(ids + more, id) == Count(ids, id) + Count(more, id)
    decreases |more|
  {
    if more == [] {
      assert ids + more == ids;
    } else {
      var init, x := more[..|more| - 1], more[|more| - 1];
      CountConcat(ids, init, id);
      CountOneMore(ids + init, x, id);
      assert ids + more == (ids + init) + [x];
    }
  }

  lemma CountFirst(ids: seq<nat>, id: nat)
    requires ids != []
    ensures Count(ids, id) == One(ids[0] == id) + Count(ids[1..], id)
  {
    assert ids == [ids[0]] + ids[1..];
    CountConcat([ids[0]], ids[1..], id);
    CountOneMore([], ids[0], id);
    assert [] + [ids[0]] == [ids[0]];
  }

  lemma CompletedOneMore(completions: seq<Completion>, c: Completion, id: nat)
    ensures Completed(completions + [c], id) == Completed(completions, id) + One(c.id == id)
  {
    assert (completions + [c])[..|completions|] == completions;
  }

  lemma {:induction false} HandsAfter(workers: seq<Worker>, i: nat, worker: Worker, id: nat)
    requires i < |workers|
    ensures InHands(workers[i := worker], id) + One(HasInHand(workers[i], id)) ==
            InHands(workers, id) + One(HasInHand(worker, id))
  {
    if i == 0 {
      assert workers[i := worker][1..] == workers[1..];
    } else {
      HandsAfter(workers[1..], i - 1, worker, id);
      assert workers[i := worker][1..] == workers[1..][i - 1 := worker];
    }
  }

  lemma TakeConserves(s: State, w: nat, id: nat)
    requires w < |s.workers| && s.workers[w].Idle? && s.buffer != []
    ensures Places(Set(s, w, Calling(s.buffer[0], [])).(buffer := s.buffer[1..]), id) == Places(s, id)
  {
    HandsAfter(s.workers, w, Calling(s.buffer[0], []), id);
    CountFirst(s.buffer, id);
  }

  lemma AnswerConserves(cfg: Config, s: State, w: nat, decision: Decision, id: nat)
    requires w < |s.workers| && s.workers[w].Calling?
    ensures Places(WorkerStep(cfg, s, Answer(w, decision)), id) == Places(s, id)
  {
    var x := s.workers[w].id;
    var next := AfterAnswer(cfg, x, s.workers[w].answers + [decision]);
    var t := WorkerStep(cfg, s, Answer(w, decision));
    assert InHands(t.workers, id) + One(x == id) == InHands(s.workers, id) + One(HasInHand(next, id)) by {
      HandsAfter(s.workers, w, next, id);
    }
    assert Finished(t, id) == Finished(s, id) + One(next.Failing? && x == id) by {
      CountOneMore(s.undecided, x, id);
    }
    assert HasInHand(next, id) <==> !next.Failing? && x == id;
  }

  lemma InterruptConserves(s: State, w: nat, id: nat)
    requires w < |s.workers| && s.workers[w].Sleeping?
    ensures
      Places(Set(s, w, Failing(ContextDone)).(abandoned := s.abandoned + [s.workers[w].id]), id) == Places(s, id)
  {
    var x := s.workers[w].id;
    var t := Set(s, w, Failing(ContextDone)).(abandoned := s.abandoned + [x]);
    assert InHands(t.workers, id) + One(x == id) == InHands(s.workers, id) by {
      HandsAfter(s.workers, w, Failing(ContextDone), id);
    }
    assert Count(t.abandoned, id) == Count(s.abandoned, id) + One(x == id) by {
      CountOneMore(s.abandoned, x, id);
    }
    assert Finished(t, id) == Finished(s, id);
  }

  lemma CompleteConserves(s: State, w: nat, next: Worker, ok: bool, id: nat)
    requires w < |s.workers| && s.workers[w].Completing? && (next.Idle? || next.Failing?)
    ensures
      var worker := s.workers[w];
      Places(Set(s, w, next).(completions := s.completions + [Completion(worker.id, worker.answers, ok)]), id) ==
      Places(s, id)
  {
    var x := s.workers[w].id;
    var c := Completion(x, s.workers[w].answers, ok);
    var t := Set(s, w, next).(completions := s.completions + [c]);
    assert InHands(t.workers, id) + One(x == id) == InHands(s.workers, id) by {
      HandsAfter(s.workers, w, next, id);
    }
    assert Completed(t.completions, id) == Completed(s.completions, id) + One(x == id) by {
      CompletedOneMore(s.completions, c, id);
    }
    assert Count(t.undecided, id) == Count(s.undecided, id);
  }

  /** A worker that keeps what it holds, or holds nothing before and after. */
  lemma SetConserves(s: State, w: nat, next: Worker, id: nat)
    requires w < |s.workers| && (HasInHand(next, id) <==> HasInHand(s.workers[w], id))
    ensures InHands(Set(s, w, next).workers, id) == InHands(s.workers, id)
  {
    HandsAfter(s.workers, w, next, id);
  }

  lemma WorkerStepConserves(cfg: Config, s: State, a: Action, id: nat)
    requires !OfLoop(a) && a.w < |s.workers|
    ensures Places(WorkerStep(cfg, s, a), id) == Places(s, id)
  {
    var w := a.w;
    var worker := s.workers[w];
    match a
    case Take(_) => if worker.Idle? && s.buffer != [] { TakeConserves(s, w, id); }
    case Answer(_, decision) => if worker.Calling? { AnswerConserves(cfg, s, w, decision, id); }
    case Interrupt(_) => if worker.Sleeping? { InterruptConserves(s, w, id); }
    case Complete(_, ok) =>
      if worker.Completing? && worker.answers != [] {
        var next := if ok then Idle else Failing(CompletionFailed(worker.id, Last(worker.answers)));
        CompleteConserves(s, w, next, ok, id);
      }
    case Wake(_) => if worker.Sleeping? { SetConserves(s, w, Calling(worker.id, worker.answers), id); }
    case Report(_) =>
      if worker.Failing? {
        SetConserves(s, w, Cancelling, id);
        SetConserves(s, w, Exited, id);
      }
    case _ => if worker.Idle? || worker.Cancelling? { SetConserves(s, w, Exited, id); }
  }

  /** Nothing but the receive loop, the queue and the abandoned deliveries differs. */
  predicate LoopOnly(s: State, t: State) {
    t.workers == s.workers && t.completions == s.completions && t.undecided == s.undecided
  }

  lemma LoopOnlyPlaces(s: State, t: State, id: nat)
    requires LoopOnly(s, t)
    ensures Places(t, id) + Held(s.receiver, id) + Count(s.buffer, id) + Count(s.abandoned, id) ==
            Places(s, id) + Held(t.receiver, id) + Count(t.buffer, id) + Count(t.abandoned, id)
  {
    assert Finished(t, id) == Finished(s, id);
    assert InHands(t.workers, id) == InHands(s.workers, id);
  }

  lemma EnqueueConserves(s: State, t: State, id: nat)
    requires LoopOnly(s, t) && s.receiver.Holding? && t.receiver.Receiving?
    requires t.buffer == s.buffer + [s.receiver.id] && t.abandoned == s.abandoned
    ensures Places(t, id) == Places(s, id)
  {
    LoopOnlyPlaces(s, t, id);
    CountOneMore(s.buffer, s.receiver.id, id);
  }

  lemma GiveUpConserves(s: State, t: State, id: nat)
    requires LoopOnly(s, t) && s.receiver.Holding? && t.receiver.Stopped?
    requires t.buffer == s.buffer && t.abandoned == s.abandoned + [s.receiver.id]
    ensures Places(t, id) == Places(s, id)
  {
    LoopOnlyPlaces(s, t, id);
    CountOneMore(s.abandoned, s.receiver.id, id);
  }

  lemma FinishConserves(s: State, t: State, id: nat)
    requires LoopOnly(s, t) && t.receiver == s.receiver
    requires t.buffer == [] && t.abandoned == s.abandoned + s.buffer
    ensures Places(t, id) == Places(s, id)
  {
    LoopOnlyPlaces(s, t, id);
    CountConcat(s.abandoned, s.buffer, id);
  }

  /** Steps that only move the receive loop, count a delivery or cancel. */
  lemma ReceiverConserves(s: State, t: State, id: nat)
    requires LoopOnly(s, t) && t.buffer == s.buffer && t.abandoned == s.abandoned
    ensures Places(t, id) + Held(s.receiver, id) == Places(s, id) + Held(t.receiver, id)
  {
    LoopOnlyPlaces(s, t, id);
  }

  lemma LoopStepIsLoopOnly(cfg: Config, s: State, a: Action)
    requires OfLoop(a)
    ensures LoopOnly(s, LoopStep(cfg, s, a))
  {
  }

  lemma ReceiveConserves(cfg: Config, s: State, outcome: Received, id: nat)
    requires Places(s, id) == One(id < s.received)
    ensures Places(LoopStep(cfg, s, Receive(outcome)), id) == One(id < LoopStep(cfg, s, Receive(outcome)).received)
  {
    var t := LoopStep(cfg, s, Receive(outcome));
    ReceiverConserves(s, t, id);
    if s.receiver.Receiving? && outcome.Delivered? {
      assert Held(t.receiver, id) == One(id == s.received) && t.received == s.received + 1;
    } else {
      assert Held(t.receiver, id) == Held(s.receiver, id) && t.received == s.received;
    }
  }

  lemma LoopStepConserves(cfg: Config, s: State, a: Action, id: nat)
    requires OfLoop(a) && Places(s, id) == One(id < s.received)
    ensures Places(LoopStep(cfg, s, a), id) == One(id < LoopStep(cfg, s, a).received)
  {
    if a.Receive? {
      ReceiveConserves(cfg, s, a.outcome, id);
    } else {
      OtherLoopStepConserves(cfg, s, a, id);
    }
  }

  lemma OtherLoopStepConserves(cfg: Config, s: State, a: Action, id: nat)
    requires OfLoop(a) && !a.Receive?
    ensures Places(LoopStep(cfg, s, a), id) == Places(s, id) && LoopStep(cfg, s, a).received == s.received
  {
    var t := LoopStep(cfg, s, a);
    LoopStepIsLoopOnly(cfg, s, a);
    if a.Enqueue? && s.receiver.Holding? && |s.buffer| < cfg.buffer {
      EnqueueConserves(s, t, id);
    } else if a.GiveUp? && s.receiver.Holding? && s.cancelled {
      GiveUpConserves(s, t, id);
    } else if a.Finish? && Closed(s) && AllExited(s.workers) && s.result.None? {
      FinishConserves(s, t, id);
    } else {
      ReceiverConserves(s, t, id);
      assert Held(t.receiver, id) == Held(s.receiver, id);
    }
  }

  lemma {:induction false} NobodyHolds(workers: seq<Worker>, id: nat)
    requires forall i :: 0 <= i < |workers| ==> !HasInHand(workers[i], id)
    ensures InHands(workers, id) == 0
  {
    if workers != [] {
      NobodyHolds(workers[1..], id);
    }
  }

  // ----- what answers and completions look like -----

  predicate AllRetry(answers: seq<Decision>) {
    forall i :: 0 <= i < |answers| ==> answers[i] == Retry
  }

  /** At most `1 + maxRetries` calls, every one but the last asking for a retry; a retry only when exhausted. */
  predicate Handled(cfg: Config, answers: seq<Decision>) {
    && 1 <= |answers| <= 1 + cfg.maxRetries
    && AllRetry(answers[..|answers| - 1])
    && !Last(answers).Undecided?
    && (Last(answers) == Retry ==> |answers| == 1 + cfg.maxRetries)
  }

  predicate WorkerFits(cfg: Config, worker: Worker) {
    match worker
    case Calling(_, answers) => |answers| <= cfg.maxRetries && AllRetry(answers)
    case Sleeping(_, answers) => 1 <= |answers| <= cfg.maxRetries && AllRetry(answers)
    case Completing(_, answers) => Handled(cfg, answers)
    case _ => true
  }

  ghost predicate HistoriesFit(cfg: Config, s: State) {
    && (forall i :: 0 <= i < |s.workers| ==> WorkerFits(cfg, s.workers[i]))
    && (forall i :: 0 <= i < |s.completions| ==> Handled(cfg, s.completions[i].answers))
  }

  lemma AnswerFits(cfg: Config, id: nat, answers: seq<Decision>, decision: Decision)
    requires WorkerFits(cfg, Calling(id, answers))
    ensures WorkerFits(cfg, AfterAnswer(cfg, id, answers + [decision]))
  {
    assert (answers + [decision])[..|answers|] == answers;
  }

  lemma WorkerStepKeepsHistories(cfg: Config, s: State, a: Action)
    requires HistoriesFit(cfg, s) && !OfLoop(a) && a.w < |s.workers|
    ensures HistoriesFit(cfg, WorkerStep(cfg, s, a))
  {
    if a.Answer? && s.workers[a.w].Calling? {
      AnswerFits(cfg, s.workers[a.w].id, s.workers[a.w].answers, a.decision);
    }
  }

  lemma StepKeepsHistories(cfg: Config, s: State, a: Action)
    requires HistoriesFit(cfg, s)
    ensures HistoriesFit(cfg, Step(cfg, s, a))
  {
    if OfLoop(a) {
      var t := LoopStep(cfg, s, a);
      assert t.workers == s.workers && t.completions == s.completions;
    } else if a.w < |s.workers| {
      WorkerStepKeepsHistories(cfg, s, a);
    }
  }

  /** Over every run: at most `1 + maxRetries` handler calls a delivery, completed as the last one decided. */
  lemma {:induction false} RunKeepsHistories(cfg: Config, acts: seq<Action>)
    ensures HistoriesFit(cfg, Exec(cfg, Start(cfg), acts))
  {
    if acts != [] {
      var before, a := acts[..|acts| - 1], acts[|acts| - 1];
      RunKeepsHistories(cfg, before);
      StepKeepsHistories(cfg, Exec(cfg, Start(cfg), before), a);
    }
  }

  // ----- over every run -----

  /** The queue and the pool never exceed their configured sizes. */
  predicate Bounded(cfg: Config, s: State) {
    |s.buffer| <= cfg.buffer && |s.workers| == cfg.workers
  }

  lemma {:induction false} RunStaysBounded(cfg: Config, acts: seq<Action>)
    ensures Bounded(cfg, Exec(cfg, Start(cfg), acts))
  {
    if acts != [] {
      RunStaysBounded(cfg, acts[..|acts| - 1]);
    }
  }

  lemma {:induction false} PlacesOverRun(cfg: Config, acts: seq<Action>, id: nat)
    ensures Places(Exec(cfg, Start(cfg), acts), id) == One(id < Exec(cfg, Start(cfg), acts).received)
  {
    if acts == [] {
      NobodyHolds(Start(cfg).workers, id);
    } else {
      var before, a := acts[..|acts| - 1], acts[|acts| - 1];
      PlacesOverRun(cfg, before, id);
      var s := Exec(cfg, Start(cfg), before);
      if OfLoop(a) {
        LoopStepConserves(cfg, s, a, id);
      } else if a.w < |s.workers| {
        WorkerStepConserves(cfg, s, a, id);
      }
    }
  }

  // ----- first in, first out -----

  /** Received and not yet taken by a worker, in the order received. */
  function Waiting(s: State): seq<nat> {
    s.buffer + if s.receiver.Holding? then [s.receiver.id] else []
  }

  ghost predicate Started(s: State, id: nat) {
    || (exists w :: 0 <= w < |s.workers| && HasInHand(s.workers[w], id))
    || (exists i :: 0 <= i < |s.completions| && s.completions[i].id == id)
    || id in s.undecided
  }

  predicate Increasing(ids: seq<nat>, received: nat) {
    && (forall i, j :: 0 <= i < j < |ids| ==> ids[i] < ids[j])
    && (forall i :: 0 <= i < |ids| ==> ids[i] < received)
  }

  predicate Before(id: nat, ids: seq<nat>) {
    forall i :: 0 <= i < |ids| ==> id < ids[i]
  }

  /** What waits is in the order received, and whatever has been started was received before it. */
  ghost predicate InOrder(s: State) {
    && Increasing(Waiting(s), s.received)
    && forall id: nat :: Started(s, id) ==> id < s.received && Before(id, Waiting(s))
  }

  /** Only taking the first of the queue puts a delivery into a worker's hands. */
  lemma InHandByTaking(cfg: Config, s: State, a: Action, w: nat, id: nat)
    requires w < |s.workers| && !OfLoop(a) && a.w < |s.workers|
    requires HasInHand(WorkerStep(cfg, s, a).workers[w], id)
    ensures HasInHand(s.workers[w], id) || (a.Take? && s.buffer != [] && id == s.buffer[0])
  {
  }

  lemma TakingTakesFirst(cfg: Config, s: State, a: Action)
    requires !OfLoop(a) && a.w < |s.workers|
    ensures
      var t := WorkerStep(cfg, s, a);
      Waiting(t) == if a.Take? && s.workers[a.w].Idle? && s.buffer != [] then Waiting(s)[1..] else Waiting(s)
  {
  }

  /** What is completed or refused was in hand. */
  lemma FinishedByHand(cfg: Config, s: State, a: Action, id: nat)
    requires !OfLoop(a) && a.w < |s.workers|
    ensures
      var t := WorkerStep(cfg, s, a);
      && (id in t.undecided ==> id in s.undecided || HasInHand(s.workers[a.w], id))
      && (forall i :: 0 <= i < |t.completions| && t.completions[i].id == id ==>
           (i < |s.completions| && s.completions[i].id == id) || HasInHand(s.workers[a.w], id))
  {
  }

  lemma StartedByTaking(cfg: Config, s: State, a: Action, id: nat)
    requires !OfLoop(a) && a.w < |s.workers| && Started(WorkerStep(cfg, s, a), id) && !Started(s, id)
    ensures s.buffer != [] && id == s.buffer[0] && Waiting(WorkerStep(cfg, s, a)) == Waiting(s)[1..]
  {
    var t := WorkerStep(cfg, s, a);
    FinishedByHand(cfg, s, a, id);
    var w :| 0 <= w < |t.workers| && HasInHand(t.workers[w], id);
    InHandByTaking(cfg, s, a, w, id);
    TakingTakesFirst(cfg, s, a);
  }

  lemma WorkerStepKeepsOrder(cfg: Config, s: State, a: Action)
    requires InOrder(s) && !OfLoop(a) && a.w < |s.workers|
    ensures InOrder(WorkerStep(cfg, s, a))
  {
    var t := WorkerStep(cfg, s, a);
    TakingTakesFirst(cfg, s, a);
    assert t.received == s.received;
    forall id: nat | Started(t, id)
      ensures id < t.received && Before(id, Waiting(t))
    {
      if !Started(s, id) {
        StartedByTaking(cfg, s, a, id);
        assert id == Waiting(s)[0];
      }
    }
  }

  /** The loop only lets go of what waits last, gives up the queue, or adds the delivery just received. */
  lemma WaitingAfterLoop(cfg: Config, s: State, a: Action)
    requires OfLoop(a)
    ensures
      var t := LoopStep(cfg, s, a);
      || (t.received == s.received && Waiting(t) <= Waiting(s))
      || (t.received == s.received + 1 && Waiting(t) == Waiting(s) + [s.received])
  {
  }

  lemma LoopStepKeepsOrder(cfg: Config, s: State, a: Action)
    requires InOrder(s) && OfLoop(a)
    ensures InOrder(LoopStep(cfg, s, a))
  {
    var t := LoopStep(cfg, s, a);
    LoopStepIsLoopOnly(cfg, s, a);
    WaitingAfterLoop(cfg, s, a);
    forall id: nat | Started(t, id)
      ensures id < t.received && Before(id, Waiting(t))
    {
      assert Started(s, id);
    }
  }

  /** Over every run, workers take deliveries in the order received. */
  lemma {:induction false} TakenInOrder(cfg: Config, acts: seq<Action>)
    ensures InOrder(Exec(cfg, Start(cfg), acts))
  {
    if acts != [] {
      var before, a := acts[..|acts| - 1], acts[|acts| - 1];
      TakenInOrder(cfg, before);
      var s := Exec(cfg, Start(cfg), before);
      if OfLoop(a) {
        LoopStepKeepsOrder(cfg, s, a);
      } else if a.w < |s.workers| {
        WorkerStepKeepsOrder(cfg, s, a);
      }
    }
  }

  // ----- one place -----

  /**
   * In every reachable state each delivery received is in exactly one place: held by the receive loop,
   * queued, in a worker's hands, finished or abandoned.
   */
  lemma RunConserves(cfg: Config, acts: seq<Action>)
    ensures Conserved(Exec(cfg, Start(cfg), acts))
  {
    forall id: nat ensures Places(Exec(cfg, Start(cfg), acts), id) == One(id < Exec(cfg, Start(cfg), acts).received) {
      PlacesOverRun(cfg, acts, id);
    }
  }

  lemma {:induction false} CompletedAtLeastOnce(completions: seq<Completion>, i: nat)
    requires i < |completions|
    ensures Completed(completions, completions[i].id) >= 1
  {
    if i < |completions| - 1 {
      CompletedAtLeastOnce(completions[..|completions| - 1], i);
    }
  }

  lemma {:induction false} CompletedTwice(completions: seq<Completion>, i: nat, j: nat)
    requires i < j < |completions| && completions[i].id == completions[j].id
    ensures Completed(completions, completions[i].id) >= 2
  {
    var init := completions[..|completions| - 1];
    if j < |completions| - 1 {
      CompletedTwice(init, i, j);
    } else {
      CompletedAtLeastOnce(init, i);
    }
  }

  /** Each delivery gets at most one completion call, and then is nowhere else. */
  lemma CompletedAtMostOnce(cfg: Config, acts: seq<Action>, i: nat)
    requires i < |Exec(cfg, Start(cfg), acts).completions|
    ensures
      var s := Exec(cfg, Start(cfg), acts);
      var id := s.completions[i].id;
      && id < s.received
      && (forall j :: 0 <= j < |s.completions| && j != i ==> s.completions[j].id != id)
      && Held(s.receiver, id) + Count(s.buffer, id) + InHands(s.workers, id) == 0
      && Count(s.undecided, id) + Count(s.abandoned, id) == 0
  {
    var s := Exec(cfg, Start(cfg), acts);
    PlacesOverRun(cfg, acts, s.completions[i].id);
    CompletedAtLeastOnce(s.completions, i);
    forall j | 0 <= j < |s.completions| && j != i
      ensures s.completions[j].id != s.completions[i].id
    {
      if s.completions[j].id == s.completions[i].id {
        CompletedTwice(s.completions, if i < j then i else j, if i < j then j else i);
      }
    }
  }
}
