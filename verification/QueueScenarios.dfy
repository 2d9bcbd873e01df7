/** Runs in which the queue does its work: an enqueued task is claimed, executed, and recorded. */
module QueueScenarios {
  import opened Prelude
  import opened QueueModel
  import opened QueueRuns

  /** A run under construction. */
  datatype Run = Run(states: seq<State>, steps: seq<Step>) {
    ghost predicate Valid(cfg: Config) { IsRun(cfg, states, steps) }
    function Last(): State
      requires |states| > 0
    { states[|states| - 1] }
  }

  lemma Then(cfg: Config, run: Run, step: Step) returns (next: Run)
    requires run.Valid(cfg) && Enabled(cfg, run.Last(), step)
    ensures next.Valid(cfg) && next.Last() == Apply(cfg, run.Last(), step)
  {
    next := Run(run.states + [Apply(cfg, run.Last(), step)], run.steps + [step]);
    forall i: nat | i < |next.steps| ensures IsStep(cfg, next.states, next.steps, i) {
      if i < |run.steps| {
        assert IsStep(cfg, run.states, run.steps, i);
      }
    }
  }

  const NOTHING: State := State(map[], map[], {}, map[], map[])

  /** One row, which attempt 0 is working on. */
  ghost predicate Works(s: State, id: RowId, row: Row, c: Candidate, phase: Phase, tally: Tally) {
    && s.table == map[id := row] && s.attempts == map[0 := Attempt(c, phase)] && s.tally == map[id := tally]
    && c in s.seen && c.taskId == row.request.taskId && c.id == id
  }

  /** A request, enqueued at time 0 and selected at once. */
  lemma Selected(cfg: Config, id: RowId, request: RequestKey) returns (run: Run)
    requires request.taskId in cfg.registry && cfg.maxAttempts > 0 && cfg.batchSize > 0
    ensures run.Valid(cfg)
    ensures var s := run.Last();
            && s.table == map[id := NewRow(request, 0)] && s.attempts == map[] && s.gate == map[]
            && s.tally == map[id := Tally(0, 0, 0, 0)] && Candidate(id, request.taskId, 0, 1) in s.seen
  {
    run := Run([NOTHING], []);
    run := Then(cfg, run, Enqueue(id, request, 0));
    assert run.Last().table == map[id := NewRow(request, 0)];
    NewRowIsDue(cfg, request, 0, 0);
    assert IsSelection(cfg, run.Last().table, 0, {id});
    run := Then(cfg, run, Poll({id}, 0));
    assert CandidateOf(id, NewRow(request, 0)) == Candidate(id, request.taskId, 0, 1);
  }

  /** Its claim, up to the execution. */
  lemma Executes(cfg: Config, id: RowId, request: RequestKey) returns (run: Run)
    requires request.taskId in cfg.registry && cfg.registry[request.taskId] > 0 && cfg.maxAttempts > 0 && cfg.batchSize > 0
    ensures run.Valid(cfg)
    ensures Works(run.Last(), id, Row(request, Processing, 0, 2, 0, 1, None), Candidate(id, request.taskId, 0, 1),
                  Executing(false), Tally(1, 0, 0, 0))
  {
    var c := Candidate(id, request.taskId, 0, 1);
    run := Selected(cfg, id, request);
    run := Then(cfg, run, Begin(0, c));
    assert Works(run.Last(), id, NewRow(request, 0), c, Begun, Tally(0, 0, 0, 0));
    run := Then(cfg, run, TakeGate(0));
    assert Works(run.Last(), id, NewRow(request, 0), c, GateHeld, Tally(0, 0, 0, 0));
    run := Counts(cfg, run, id, request, c);
    run := Claims(cfg, run, id, request, c);
  }

  lemma Counts(cfg: Config, run: Run, id: RowId, request: RequestKey, c: Candidate) returns (next: Run)
    requires request.taskId in cfg.registry && cfg.registry[request.taskId] > 0
    requires run.Valid(cfg) && c == Candidate(id, request.taskId, 0, 1)
    requires Works(run.Last(), id, NewRow(request, 0), c, GateHeld, Tally(0, 0, 0, 0))
    ensures next.Valid(cfg) && Works(next.Last(), id, NewRow(request, 0), c, Counted(0), Tally(0, 0, 0, 0))
  {
    assert ProcessingIds(run.Last().table, request.taskId) == {};
    next := Then(cfg, run, Count(0));
  }

  lemma Claims(cfg: Config, run: Run, id: RowId, request: RequestKey, c: Candidate) returns (next: Run)
    requires run.Valid(cfg) && c == Candidate(id, request.taskId, 0, 1)
    requires Works(run.Last(), id, NewRow(request, 0), c, Counted(0), Tally(0, 0, 0, 0))
    ensures next.Valid(cfg)
    ensures Works(next.Last(), id, Row(request, Processing, 0, 2, 0, 1, None), c, Executing(false), Tally(1, 0, 0, 0))
  {
    next := Then(cfg, run, Update(0, 1));
    assert Works(next.Last(), id, NewRow(request, 0), c, Updated(1), Tally(0, 0, 0, 0));
    next := Then(cfg, next, Commit(0));
  }

  lemma Returns(cfg: Config, run: Run, id: RowId, row: Row, c: Candidate, ok: bool) returns (next: Run)
    requires run.Valid(cfg) && Works(run.Last(), id, row, c, Executing(false), Tally(1, 0, 0, 0))
    ensures next.Valid(cfg) && Works(next.Last(), id, row, c, Marking(ok), Tally(1, 0, 0, 0))
  {
    next := Then(cfg, run, Return(0, ok));
  }

  /** A task that returns is recorded as succeeded, whatever its configuration, as long as it may run at all. */
  lemma Succeeds(cfg: Config, id: RowId, request: RequestKey) returns (run: Run)
    requires request.taskId in cfg.registry && cfg.registry[request.taskId] > 0 && cfg.maxAttempts > 0 && cfg.batchSize > 0
    ensures run.Valid(cfg)
    ensures run.Last().table == map[id := Row(request, Succeeded, 0, 3, 0, 2, None)]
    ensures run.Last().tally == map[id := Tally(1, 1, 0, 0)] && IsEmpty(cfg, run.Last().table)
  {
    run := Executes(cfg, id, request);
    run := Returns(cfg, run, id, Row(request, Processing, 0, 2, 0, 1, None), Candidate(id, request.taskId, 0, 1), true);
    run := Then(cfg, run, MarkSucceeded(0, 2));
    assert OutstandingIds(cfg, run.Last().table) == {};
  }

  /** A task that throws is recorded as failed, and can be selected again once its backoff is over, if it has
    * attempts left. */
  lemma FailsAndIsRetried(cfg: Config, id: RowId, request: RequestKey) returns (run: Run)
    requires request.taskId in cfg.registry && cfg.registry[request.taskId] > 0 && cfg.maxAttempts > 1 && cfg.batchSize > 0
    ensures run.Valid(cfg)
    ensures var delay := Backoff(1, cfg.baseBackoffMs, cfg.maxBackoffMs);
            && run.Last().table == map[id := Row(request, Failed, 1, 3, 0, 2, Some(2 + delay))]
            && Candidate(id, request.taskId, 1, 3) in run.Last().seen
  {
    var delay := Backoff(1, cfg.baseBackoffMs, cfg.maxBackoffMs);
    run := Executes(cfg, id, request);
    run := Returns(cfg, run, id, Row(request, Processing, 0, 2, 0, 1, None), Candidate(id, request.taskId, 0, 1), false);
    run := Then(cfg, run, MarkFailed(0, 2, 2));
    run := SelectedAgain(cfg, run, id, Row(request, Failed, 1, 3, 0, 2, Some(2 + delay)), 2 + delay);
  }

  lemma SelectedAgain(cfg: Config, run: Run, id: RowId, row: Row, now: int) returns (next: Run)
    requires run.Valid(cfg) && run.Last().table == map[id := row] && IsEligible(cfg, row, now) && cfg.batchSize > 0
    ensures next.Valid(cfg) && next.Last().table == map[id := row] && CandidateOf(id, row) in next.Last().seen
  {
    assert IsSelection(cfg, run.Last().table, now, {id});
    next := Then(cfg, run, Poll({id}, now));
  }
}
