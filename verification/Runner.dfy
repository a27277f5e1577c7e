/**
 * The delivery runtime: a receive loop, a bounded queue and a pool of workers, as a machine that
 * interleaves loop, workers and cancellation.
 */
module Runner {
  import opened Wrappers
  import opened Messaging

  datatype Error =
    | ContextDone
    | ReceiveFailed
    | NilDelivery
    | CompletionFailed(id: nat, decision: Decision)
    | NoDecision(id: nat)

  datatype Config = Config(workers: nat, buffer: nat, maxRetries: nat)

  const DEFAULT_WORKERS := 4
  const DEFAULT_BUFFER := 128
  const DEFAULT_MAX_RETRIES := 3

  /** The configuration a runner is built with, after defaults; negative retries are refused. */
  function Configured(workers: int, buffer: int, maxRetries: int): (r: Option<Config>)
    ensures r.Some? <==> maxRetries >= 0
    ensures r.Some? ==> r.value.workers == (if workers > 0 then workers else 4)
    ensures r.Some? ==> r.value.buffer == (if buffer > 0 then buffer else 128)
    ensures r.Some? ==> r.value.maxRetries == (if maxRetries > 0 then maxRetries else 3)
  {
    if maxRetries < 0 then None
    else
      Some(Config(
        if workers <= 0 then DEFAULT_WORKERS else workers,
        if buffer <= 0 then DEFAULT_BUFFER else buffer,
        if maxRetries == 0 then DEFAULT_MAX_RETRIES else maxRetries))
  }

  // ----- state -----

  /** `answers` are the handler's decisions on the delivery so far. */
  datatype Worker =
    | Idle
    | Calling(id: nat, answers: seq<Decision>)
    | Sleeping(id: nat, answers: seq<Decision>)
    | Completing(id: nat, answers: seq<Decision>)
    | Failing(error: Error)  // about to report
    | Cancelling             // reported first, about to cancel the run
    | Exited

  datatype Receiver =
    | Receiving
    | Holding(id: nat)
    | Stopped(error: Error, closed: bool)

  /** One completion call; its decision is the last answer. */
  datatype Completion = Completion(id: nat, answers: seq<Decision>, ok: bool)

  datatype RunResult = RunResult(error: Error, closeFailed: bool)

  /** Deliveries are numbered in the order received; `reported` lists the worker errors in the order reported. */
  datatype State = State(
    received: nat,
    receiver: Receiver,
    buffer: seq<nat>,
    workers: seq<Worker>,
    completions: seq<Completion>,
    undecided: seq<nat>,
    abandoned: seq<nat>,
    cancelled: bool,
    slot: Option<Error>,
    reported: seq<Error>,
    result: Option<RunResult>)

  datatype Received = Delivered | Nil | Failed

  datatype Action =
    | Receive(outcome: Received)
    | Enqueue
    | GiveUp
    | CloseQueue
    | Take(w: nat)
    | ExitOnCancel(w: nat)
    | ExitOnClose(w: nat)
    | Answer(w: nat, decision: Decision)
    | Wake(w: nat)
    | Interrupt(w: nat)
    | Complete(w: nat, ok: bool)
    | Report(w: nat)
    | CancelRun(w: nat)
    | CancelParent
    | Finish(closeOk: bool)

  predicate Closed(s: State) {
    s.receiver.Stopped? && s.receiver.closed
  }

  predicate AllExited(workers: seq<Worker>) {
    forall i :: 0 <= i < |workers| ==> workers[i].Exited?
  }

  function Set(s: State, w: nat, worker: Worker): State
    requires w < |s.workers|
  {
    s.(workers := s.workers[w := worker])
  }

  function Last(answers: seq<Decision>): Decision
    requires answers != []
  {
    answers[|answers| - 1]
  }

  /** Where a worker goes once the handler has answered. */
  function AfterAnswer(cfg: Config, id: nat, answers: seq<Decision>): Worker
    requires answers != []
  {
    match Last(answers)
    case Retry => if |answers| <= cfg.maxRetries then Sleeping(id, answers) else Completing(id, answers)
    case Undecided(_) => Failing(NoDecision(id))
    case _ => Completing(id, answers)
  }

  function WorkerStep(cfg: Config, s: State, a: Action): State
    requires !a.Receive? && !a.Enqueue? && !a.GiveUp? && !a.CloseQueue? && !a.CancelParent? && !a.Finish?
    requires a.w < |s.workers|
  {
    var w := a.w;
    var worker := s.workers[w];
    match a
    case Take(_) =>
      if worker.Idle? && s.buffer != [] then Set(s, w, Calling(s.buffer[0], [])).(buffer := s.buffer[1..]) else s
    case ExitOnCancel(_) => if worker.Idle? && s.cancelled then Set(s, w, Exited) else s
    case ExitOnClose(_) => if worker.Idle? && Closed(s) && s.buffer == [] then Set(s, w, Exited) else s
    case Answer(_, decision) =>
      if !worker.Calling? then s
      else
        var next := AfterAnswer(cfg, worker.id, worker.answers + [decision]);
        Set(s, w, next).(undecided := if next.Failing? then s.undecided + [worker.id] else s.undecided)
    case Wake(_) => if worker.Sleeping? then Set(s, w, Calling(worker.id, worker.answers)) else s
    case Interrupt(_) =>
      if worker.Sleeping? && s.cancelled then Set(s, w, Failing(ContextDone)).(abandoned := s.abandoned + [worker.id])
      else s
    case Complete(_, ok) =>
      if !worker.Completing? || worker.answers == [] then s
      else
        var next := if ok then Idle else Failing(CompletionFailed(worker.id, Last(worker.answers)));
        Set(s, w, next).(completions := s.completions + [Completion(worker.id, worker.answers, ok)])
    case Report(_) =>
      if !worker.Failing? then s
      else
        var t := s.(reported := s.reported + [worker.error]);
        if s.slot.None? then Set(t, w, Cancelling).(slot := Some(worker.error)) else Set(t, w, Exited)
    case CancelRun(_) => if worker.Cancelling? then Set(s, w, Exited).(cancelled := true) else s
  }

  function LoopStep(cfg: Config, s: State, a: Action): State
    requires a.Receive? || a.Enqueue? || a.GiveUp? || a.CloseQueue? || a.CancelParent? || a.Finish?
  {
    match a
    case Receive(outcome) =>
      if !s.receiver.Receiving? then s
      else (
        match outcome
        case Delivered => s.(received := s.received + 1, receiver := Holding(s.received))
        case Nil => s.(receiver := Stopped(NilDelivery, false))
        case Failed => s.(receiver := Stopped(if s.cancelled then ContextDone else ReceiveFailed, false)))
    case Enqueue =>
      if s.receiver.Holding? && |s.buffer| < cfg.buffer then
        s.(buffer := s.buffer + [s.receiver.id], receiver := Receiving)
      else s
    case GiveUp =>
      if s.receiver.Holding? && s.cancelled then
        s.(abandoned := s.abandoned + [s.receiver.id], receiver := Stopped(ContextDone, false))
      else s
    case CloseQueue =>
      if s.receiver.Stopped? then s.(receiver := Stopped(s.receiver.error, true)) else s
    case CancelParent => s.(cancelled := true)
    case Finish(closeOk) =>
      if Closed(s) && AllExited(s.workers) && s.result.None? then
        var error := if s.slot.Some? then s.slot.value else s.receiver.error;
        s.(result := Some(RunResult(error, !closeOk)), abandoned := s.abandoned + s.buffer, buffer := [])
      else s
  }

  predicate OfLoop(a: Action) {
    a.Receive? || a.Enqueue? || a.GiveUp? || a.CloseQueue? || a.CancelParent? || a.Finish?
  }

  /** One atomic step; an impossible action changes nothing. */
  function Step(cfg: Config, s: State, a: Action): State {
    if OfLoop(a) then LoopStep(cfg, s, a)
    else if a.w < |s.workers| then WorkerStep(cfg, s, a)
    else s
  }

  function Exec(cfg: Config, s: State, acts: seq<Action>): State {
    if acts == [] then s else Step(cfg, Exec(cfg, s, acts[..|acts| - 1]), acts[|acts| - 1])
  }

  function Start(cfg: Config): State {
    State(0, Receiving, [], seq(cfg.workers, i => Idle), [], [], [], false, None, [], None)
  }

  lemma ExecAppend(cfg: Config, s: State, acts: seq<Action>, a: Action)
    ensures Exec(cfg, s, acts + [a]) == Step(cfg, Exec(cfg, s, acts), a)
  {
    assert (acts + [a])[..|acts|] == acts;
  }

  lemma ExecOne(cfg: Config, s: State, a: Action)
    ensures Exec(cfg, s, [a]) == Step(cfg, s, a)
  {
    assert [a][..0] == [];
  }

  lemma SetTwice(s: State, w: nat, first: Worker, second: Worker)
    requires w < |s.workers|
    ensures Set(Set(s, w, first), w, second) == Set(s, w, second)
  {
    assert s.workers[w := first][w := second] == s.workers[w := second];
  }

  lemma {:induction false} ExecSplit(cfg: Config, s: State, first: seq<Action>, second: seq<Action>)
    ensures Exec(cfg, s, first + second) == Exec(cfg, Exec(cfg, s, first), second)
    decreases |second|
  {
    if second == [] {
      assert first + second == first;
    } else {
      var init, a := second[..|second| - 1], second[|second| - 1];
      ExecSplit(cfg, s, first, init);
      LastApart(first, init, a);
      assert second == init + [a];
      ExecAppend(cfg, s, first + init, a);
    }
  }

  lemma LastApart(first: seq<Action>, init: seq<Action>, a: Action)
    ensures first + (init + [a]) == (first + init) + [a]
  {
  }
}
