/** One delivery through the retry loop, and its place in the runner's machine. */
module RunnerHandle {
  import opened Wrappers
  import opened Messaging
  import opened Runner
  import opened RunnerConservation

  /**
   * What the outside will answer: the handler's decision at each call (a panic counts as a retry),
   * whether a pause is interrupted, and whether the completion call succeeds.
   */
  datatype Script = Script(decisions: nat -> Decision, interrupted: nat -> bool, completes: bool)

  /** The first `n` decisions of the handler. */
  function Answers(script: Script, n: nat): (answers: seq<Decision>)
    ensures |answers| == n
  {
    seq(n, (i: nat) => script.decisions(i))
  }

  datatype Handling = Handling(answers: seq<Decision>, error: Option<Error>, completed: bool)

  /** The completion action, if any, asked of the delivery. */
  class DeliveryLog {
    var completions: seq<Decision>

    constructor ()
      ensures completions == []
    {
      completions := [];
    }
  }

  /** The loop stops at call `n`: every earlier call asked for a retry, was granted one and the pause held. */
  predicate StopsAt(cfg: Config, script: Script, n: nat) {
    && 1 <= n <= 1 + cfg.maxRetries
    && (forall i: nat :: i < n - 1 ==> script.decisions(i) == Retry && !script.interrupted(i))
    && (script.decisions(n - 1) != Retry || n == 1 + cfg.maxRetries || script.interrupted(n - 1))
  }

  /** The pause after call `n` was entered and interrupted. */
  predicate InterruptedAt(cfg: Config, script: Script, n: nat)
    requires n >= 1
  {
    script.decisions(n - 1) == Retry && n <= cfg.maxRetries && script.interrupted(n - 1)
  }

  /** How the loop ends that stops at call `n`. */
  function EndingAt(cfg: Config, id: nat, script: Script, n: nat): Handling
    requires n >= 1
  {
    var answers := Answers(script, n);
    if InterruptedAt(cfg, script, n) then Handling(answers, Some(ContextDone), false)
    else if Last(answers).Undecided? then Handling(answers, Some(NoDecision(id)), false)
    else if script.completes then Handling(answers, None, true)
    else Handling(answers, Some(CompletionFailed(id, Last(answers))), true)
  }

  /** One delivery: call, retry while asked to and allowed, then complete as last decided. */
  method Handle(cfg: Config, id: nat, script: Script, log: DeliveryLog) returns (h: Handling)
    modifies log
    ensures StopsAt(cfg, script, |h.answers|) && h == EndingAt(cfg, id, script, |h.answers|)
    ensures log.completions == if h.completed then old(log.completions) + [Last(h.answers)] else old(log.completions)
  {
    var result := script.decisions(0);
    var attempt := 0;
    while result == Retry && attempt < cfg.maxRetries
      invariant 0 <= attempt <= cfg.maxRetries
      invariant result == script.decisions(attempt)
      invariant forall i: nat :: i < attempt ==> script.decisions(i) == Retry && !script.interrupted(i)
      invariant log.completions == old(log.completions)
    {
      if script.interrupted(attempt) {
        return Handling(Answers(script, attempt + 1), Some(ContextDone), false);
      }
      attempt := attempt + 1;
      result := script.decisions(attempt);
    }
    var answers := Answers(script, attempt + 1);
    if result.Undecided? {
      return Handling(answers, Some(NoDecision(id)), false);
    }
    log.completions := log.completions + [result];
    return Handling(answers, if script.completes then None else Some(CompletionFailed(id, result)), true);
  }

  // ----- the same in the machine -----

  /** The steps a worker takes from its `n`-th call on, up to call `last`. */
  function Steps(w: nat, script: Script, n: nat, last: nat): seq<Action>
    requires n < last
    decreases last - n
  {
    if n + 1 == last then [Answer(w, script.decisions(n))]
    else [Answer(w, script.decisions(n)), Wake(w)] + Steps(w, script, n + 1, last)
  }

  lemma AnswersOneMore(script: Script, n: nat)
    ensures Answers(script, n) + [script.decisions(n)] == Answers(script, n + 1)
  {
  }

  lemma RetryAndWake(cfg: Config, s: State, w: nat, id: nat, answers: seq<Decision>)
    requires w < |s.workers| && s.workers[w] == Calling(id, answers) && |answers| < cfg.maxRetries
    ensures
      Exec(cfg, s, [Answer(w, Retry), Wake(w)]) == Set(s, w, Calling(id, answers + [Retry]))
  {
    var t := Set(s, w, Sleeping(id, answers + [Retry]));
    assert Last(answers + [Retry]) == Retry;
    ExecAppend(cfg, s, [], Answer(w, Retry));
    assert [] + [Answer(w, Retry)] == [Answer(w, Retry)];
    assert Exec(cfg, s, [Answer(w, Retry)]) == t;
    ExecAppend(cfg, s, [Answer(w, Retry)], Wake(w));
    assert [Answer(w, Retry)] + [Wake(w)] == [Answer(w, Retry), Wake(w)];
  }

  /** Where the loop stops the machine's worker stands before the same ending. */
  lemma StopDecidesEnding(cfg: Config, id: nat, script: Script, last: nat)
    requires StopsAt(cfg, script, last)
    ensures
      var answers := Answers(script, last);
      AfterAnswer(cfg, id, answers) ==
      if InterruptedAt(cfg, script, last) then Sleeping(id, answers)
      else if Last(answers).Undecided? then Failing(NoDecision(id))
      else Completing(id, answers)
  {
  }

  /** The worker's step after its last call: the pause is interrupted, or the delivery completed. */
  function EndingSteps(cfg: Config, w: nat, script: Script, last: nat): seq<Action>
    requires last >= 1
  {
    if InterruptedAt(cfg, script, last) then [Interrupt(w)]
    else if Last(Answers(script, last)).Undecided? then []
    else [Complete(w, script.completes)]
  }

  /** What a handling leaves of the machine: the worker idle or failing, and the delivery in its new place. */
  function AfterHandling(s: State, w: nat, id: nat, script: Script, h: Handling): State
    requires w < |s.workers| && h.answers != []
  {
    var next := if h.error.Some? then Failing(h.error.value) else Idle;
    Set(s, w, next).(
      completions := if h.completed then s.completions + [Completion(id, h.answers, script.completes)]
          else s.completions,
      undecided := if Last(h.answers).Undecided? then s.undecided + [id] else s.undecided,
      abandoned := if h.error == Some(ContextDone) then s.abandoned + [id] else s.abandoned)
  }

  /** The state after the last call. */
  function AfterCalls(cfg: Config, s: State, w: nat, id: nat, answers: seq<Decision>): State
    requires w < |s.workers| && answers != []
  {
    var next := AfterAnswer(cfg, id, answers);
    Set(s, w, next).(undecided := if next.Failing? then s.undecided + [id] else s.undecided)
  }

  lemma LastCallIsARun(cfg: Config, s: State, w: nat, id: nat, script: Script, n: nat)
    requires w < |s.workers| && s.workers[w] == Calling(id, Answers(script, n))
    ensures Exec(cfg, s, [Answer(w, script.decisions(n))]) == AfterCalls(cfg, s, w, id, Answers(script, n + 1))
  {
    AnswersOneMore(script, n);
    ExecOne(cfg, s, Answer(w, script.decisions(n)));
  }

  lemma SameCalls(cfg: Config, s: State, w: nat, id: nat, worker: Worker, answers: seq<Decision>)
    requires w < |s.workers| && answers != []
    ensures AfterCalls(cfg, Set(s, w, worker), w, id, answers) == AfterCalls(cfg, s, w, id, answers)
  {
    SetTwice(s, w, worker, AfterAnswer(cfg, id, answers));
  }

  /** The calls up to the one the loop stops at. */
  lemma {:induction false} CallsAreARun(cfg: Config, s: State, w: nat, id: nat, script: Script, n: nat, last: nat)
    requires w < |s.workers| && s.workers[w] == Calling(id, Answers(script, n))
    requires n < last && StopsAt(cfg, script, last)
    ensures Exec(cfg, s, Steps(w, script, n, last)) == AfterCalls(cfg, s, w, id, Answers(script, last))
    decreases last - n
  {
    if n + 1 == last {
      LastCallIsARun(cfg, s, w, id, script, n);
    } else {
      var first, rest := [Answer(w, Retry), Wake(w)], Steps(w, script, n + 1, last);
      var worker := Calling(id, Answers(script, n + 1));
      AnswersOneMore(script, n);
      RetryAndWake(cfg, s, w, id, Answers(script, n));
      CallsAreARun(cfg, Set(s, w, worker), w, id, script, n + 1, last);
      ExecSplit(cfg, s, first, rest);
      SameCalls(cfg, s, w, id, worker, Answers(script, last));
    }
  }

  lemma InterruptionIsAStep(cfg: Config, s: State, w: nat, id: nat, answers: seq<Decision>)
    requires w < |s.workers| && s.cancelled
    ensures Step(cfg, Set(s, w, Sleeping(id, answers)), Interrupt(w)) ==
            Set(s, w, Failing(ContextDone)).(abandoned := s.abandoned + [id])
  {
    SetTwice(s, w, Sleeping(id, answers), Failing(ContextDone));
  }

  lemma CompletionIsAStep(cfg: Config, s: State, w: nat, id: nat, answers: seq<Decision>, ok: bool)
    requires w < |s.workers| && answers != []
    ensures Step(cfg, Set(s, w, Completing(id, answers)), Complete(w, ok)) ==
            Set(s, w, if ok then Idle else Failing(CompletionFailed(id, Last(answers)))).(
              completions := s.completions + [Completion(id, answers, ok)])
  {
    SetTwice(s, w, Completing(id, answers), if ok then Idle else Failing(CompletionFailed(id, Last(answers))));
  }

  lemma EndingIsARun(cfg: Config, s: State, w: nat, id: nat, script: Script, last: nat)
    requires w < |s.workers| && StopsAt(cfg, script, last) && (InterruptedAt(cfg, script, last) ==> s.cancelled)
    ensures Exec(cfg, AfterCalls(cfg, s, w, id, Answers(script, last)), EndingSteps(cfg, w, script, last)) ==
            AfterHandling(s, w, id, script, EndingAt(cfg, id, script, last))
  {
    var answers := Answers(script, last);
    var called := AfterCalls(cfg, s, w, id, answers);
    StopDecidesEnding(cfg, id, script, last);
    if InterruptedAt(cfg, script, last) {
      ExecOne(cfg, called, Interrupt(w));
      InterruptionIsAStep(cfg, s, w, id, answers);
    } else if !Last(answers).Undecided? {
      ExecOne(cfg, called, Complete(w, script.completes));
      CompletionIsAStep(cfg, s, w, id, answers, script.completes);
    }
  }

  /**
   * From the first call on, a worker of the machine that meets the same outside as the retry loop leaves
   * the machine as the loop's result says: worker, completions, refusals and abandonment alike.
   */
  lemma LoopIsARun(cfg: Config, s: State, w: nat, id: nat, script: Script, last: nat)
    requires w < |s.workers| && s.workers[w] == Calling(id, [])
    requires StopsAt(cfg, script, last) && (InterruptedAt(cfg, script, last) ==> s.cancelled)
    ensures Exec(cfg, s, Steps(w, script, 0, last) + EndingSteps(cfg, w, script, last)) ==
            AfterHandling(s, w, id, script, EndingAt(cfg, id, script, last))
  {
    assert Answers(script, 0) == [];
    CallsAreARun(cfg, s, w, id, script, 0, last);
    ExecSplit(cfg, s, Steps(w, script, 0, last), EndingSteps(cfg, w, script, last));
    EndingIsARun(cfg, s, w, id, script, last);
  }
}
