/** What holds in every run of the task queue: any number of workers, any interleaving of statements,
  * crashes and driver errors anywhere. */
module QueueRuns {
  import opened Prelude
  import opened QueueModel
  import opened QueueSafety

  lemma {:induction false} RunInv(cfg: Config, states: seq<State>, steps: seq<Step>, i: nat)
    requires IsRun(cfg, states, steps) && i < |states|
    ensures Inv(cfg, states[i])
  {
    if i == 0 {
      forall t ensures ProcessingCount(states[0].table, t) <= Limit(cfg, t) {
        assert ProcessingIds(states[0].table, t) == {};
      }
    } else {
      RunInv(cfg, states, steps, i - 1);
      assert IsStep(cfg, states, steps, i - 1);
      StepKeepsInv(cfg, states[i - 1], steps[i - 1]);
    }
  }

  lemma EvolvesTransitive(a: Table, b: Table, c: Table)
    requires Evolves(a, b) && Evolves(b, c)
    ensures Evolves(a, c)
  {
  }

  lemma {:induction false} RunEvolves(cfg: Config, states: seq<State>, steps: seq<Step>, i: nat, j: nat)
    requires IsRun(cfg, states, steps) && i <= j < |states|
    ensures Evolves(states[i].table, states[j].table)
    decreases j - i
  {
    if i < j {
      RunEvolves(cfg, states, steps, i, j - 1);
      RunInv(cfg, states, steps, j - 1);
      assert IsStep(cfg, states, steps, j - 1);
      StepKeepsInv(cfg, states[j - 1], steps[j - 1]);
      EvolvesTransitive(states[i].table, states[j - 1].table, states[j].table);
    }
  }

  // ---------- the concurrency gate ----------

  /** The committed `processing` rows of a task never exceed its concurrency limit. */
  lemma GateSafety(cfg: Config, states: seq<State>, steps: seq<Step>, i: nat, t: TaskId)
    requires IsRun(cfg, states, steps) && i < |states|
    ensures ProcessingCount(states[i].table, t) <= Limit(cfg, t)
  {
    RunInv(cfg, states, steps, i);
  }

  /** From the COUNT to the end of its transaction, what a claim has counted can only be too high. */
  lemma CountIsOverestimate(cfg: Config, states: seq<State>, steps: seq<Step>, i: nat, k: AttemptId)
    requires IsRun(cfg, states, steps) && i < |states|
    requires k in states[i].attempts && states[i].attempts[k].phase.Counted?
    ensures ProcessingCount(states[i].table, states[i].attempts[k].c.taskId) <= states[i].attempts[k].phase.count
    ensures states[i].attempts[k].phase.count < Limit(cfg, states[i].attempts[k].c.taskId)
  {
    RunInv(cfg, states, steps, i);
  }

  /** At most one attempt is between its gate statement and its commit, per task. */
  lemma GateExcludes(cfg: Config, states: seq<State>, steps: seq<Step>, i: nat, j: AttemptId, k: AttemptId)
    requires IsRun(cfg, states, steps) && i < |states|
    requires j in states[i].attempts && k in states[i].attempts
    requires states[i].attempts[j].phase.HoldsGate() && states[i].attempts[k].phase.HoldsGate()
    requires states[i].attempts[j].c.taskId == states[i].attempts[k].c.taskId
    ensures j == k
  {
    RunInv(cfg, states, steps, i);
  }

  // ---------- fencing ----------

  /** Whenever in a run the version of a row is the same, so are its status, attempts and retry time. */
  lemma Fencing(cfg: Config, states: seq<State>, steps: seq<Step>, i: nat, j: nat, id: RowId)
    requires IsRun(cfg, states, steps) && i < |states| && j < |states|
    requires id in states[i].table && id in states[j].table
    requires states[i].table[id].version == states[j].table[id].version
    ensures SameCore(states[i].table[id], states[j].table[id])
  {
    if i <= j {
      RunEvolves(cfg, states, steps, i, j);
    } else {
      RunEvolves(cfg, states, steps, j, i);
    }
  }

  predicate LiveClaim(s: State, k: AttemptId, id: RowId) {
    && k in s.attempts && s.attempts[k].phase.IsClaimed() && s.attempts[k].c.id == id
    && Matches(s.table, id, s.attempts[k].c.version + 1)
  }

  /** A row has at most one live claim, and only while it is `processing`. */
  lemma OneLiveClaim(cfg: Config, states: seq<State>, steps: seq<Step>, i: nat, j: AttemptId, k: AttemptId, id: RowId)
    requires IsRun(cfg, states, steps) && i < |states|
    requires LiveClaim(states[i], j, id) && LiveClaim(states[i], k, id)
    ensures j == k && states[i].table[id].status == Processing
  {
    RunInv(cfg, states, steps, i);
    assert ClaimOk(states[i].table, states[i].attempts[j].c);
  }

  /** Once a worker's claim has been recovered, every later write of that worker affects zero rows. */
  lemma LostClaimWritesNothing(cfg: Config, states: seq<State>, steps: seq<Step>, i: nat, j: nat, k: AttemptId)
    requires IsRun(cfg, states, steps) && i <= j < |steps|
    requires k in states[j].attempts && states[j].attempts[k].phase.IsClaimed()
    requires states[j].attempts[k].c.id in states[i].table
    requires states[i].table[states[j].attempts[k].c.id].version > states[j].attempts[k].c.version + 1
    requires Actor(steps[j]) == Some(k)
    ensures states[j + 1].table == states[j].table
    ensures steps[j].Heartbeat? ==> k in states[j + 1].attempts && states[j + 1].attempts[k].phase == Executing(true)
  {
    RunEvolves(cfg, states, steps, i, j);
    assert IsStep(cfg, states, steps, j);
  }

  /** A succeeded row never changes again. */
  lemma {:induction false} SucceededIsFinal(cfg: Config, states: seq<State>, steps: seq<Step>, i: nat, j: nat, id: RowId)
    requires IsRun(cfg, states, steps) && i <= j < |states|
    requires id in states[i].table && states[i].table[id].status == Succeeded
    ensures id in states[j].table && states[j].table[id] == states[i].table[id]
    decreases j - i
  {
    if i < j {
      SucceededIsFinal(cfg, states, steps, i, j - 1, id);
      RunInv(cfg, states, steps, j - 1);
      assert IsStep(cfg, states, steps, j - 1);
      SucceededRowIsUntouched(cfg, states[j - 1], steps[j - 1], id);
    }
  }

  lemma SucceededRowIsUntouched(cfg: Config, s: State, step: Step, id: RowId)
    requires SeenOk(cfg, s) && AttemptsOk(cfg, s) && Enabled(cfg, s, step)
    requires id in s.table && s.table[id].status == Succeeded
    ensures id in TableAfter(cfg, s, step) && TableAfter(cfg, s, step)[id] == s.table[id]
  {
  }

  // ---------- conservation and retries ----------

  /** Every committed claim of a row ended in a success, a recorded failure or a stale recovery, or is
    * the one the row is processing; `attempts` is the number of recorded failures; success is recorded
    * at most once; and the retry budget bounds the claims up to the recoveries. */
  lemma Conservation(cfg: Config, states: seq<State>, steps: seq<Step>, i: nat, id: RowId)
    requires IsRun(cfg, states, steps) && i < |states| && id in states[i].table
    ensures id in states[i].tally
    ensures var t, row := states[i].tally[id], states[i].table[id];
            && t.claims == t.successes + t.failures + t.recoveries + (if row.status == Processing then 1 else 0)
            && row.attempts == t.failures <= cfg.maxAttempts
            && t.successes <= 1 && (t.successes == 1 <==> row.status == Succeeded)
            && t.claims <= cfg.maxAttempts + t.recoveries
  {
    RunInv(cfg, states, steps, i);
    assert RowOk(cfg, states[i].table[id], states[i].tally[id]);
  }

  /** The number of state-changing writes a row can still see without recoveries and push-backs. */
  function WritesLeft(cfg: Config, row: Row): int {
    match row.status
    case Succeeded => 0
    case Processing => 2 * (cfg.maxAttempts - row.attempts) - 1
    case _ => 2 * (cfg.maxAttempts - row.attempts)
  }

  predicate IsProgressStep(step: Step) {
    !step.Recover? && !step.PushBack?
  }

  lemma StepSpendsBudget(cfg: Config, s: State, step: Step, id: RowId)
    requires SeenOk(cfg, s) && AttemptsOk(cfg, s) && Enabled(cfg, s, step) && IsProgressStep(step)
    requires id in s.table
    ensures id in TableAfter(cfg, s, step)
    ensures TableAfter(cfg, s, step)[id].version + WritesLeft(cfg, TableAfter(cfg, s, step)[id])
            <= s.table[id].version + WritesLeft(cfg, s.table[id])
  {
    if Actor(step).Some? && !step.Begin? {
      assert CandidateOk(cfg, s.table, s.attempts[step.k].c);
    }
  }

  /** Without recoveries and push-backs every write spends the row's budget: a row changes state at most
    * `WritesLeft` more times, however the other workers behave. */
  lemma {:induction false} ProgressBound(cfg: Config, states: seq<State>, steps: seq<Step>, i: nat, j: nat, id: RowId)
    requires IsRun(cfg, states, steps) && i <= j < |states| && id in states[i].table
    requires forall n | i <= n < j :: IsProgressStep(steps[n])
    ensures id in states[j].table
    ensures states[j].table[id].version - states[i].table[id].version
            <= WritesLeft(cfg, states[i].table[id]) - WritesLeft(cfg, states[j].table[id])
    ensures WritesLeft(cfg, states[j].table[id]) >= 0
    decreases j - i
  {
    if i < j {
      ProgressBound(cfg, states, steps, i, j - 1, id);
      RunStepSpendsBudget(cfg, states, steps, j - 1, id);
    }
    BudgetNotOverdrawn(cfg, states, steps, j, id);
  }

  lemma RunStepSpendsBudget(cfg: Config, states: seq<State>, steps: seq<Step>, n: nat, id: RowId)
    requires IsRun(cfg, states, steps) && n < |steps| && IsProgressStep(steps[n]) && id in states[n].table
    ensures id in states[n + 1].table
    ensures states[n + 1].table[id].version + WritesLeft(cfg, states[n + 1].table[id])
            <= states[n].table[id].version + WritesLeft(cfg, states[n].table[id])
  {
    assert IsStep(cfg, states, steps, n);
    RunInv(cfg, states, steps, n);
    StepSpendsBudget(cfg, states[n], steps[n], id);
  }

  lemma BudgetNotOverdrawn(cfg: Config, states: seq<State>, steps: seq<Step>, n: nat, id: RowId)
    requires IsRun(cfg, states, steps) && n < |states| && id in states[n].table
    ensures WritesLeft(cfg, states[n].table[id]) >= 0
  {
    RunInv(cfg, states, steps, n);
    assert RowOk(cfg, states[n].table[id], states[n].tally[id]);
  }

  // ---------- quiescence ----------

  /** The drained test is true exactly when no row is processing and none has attempts left. */
  lemma EmptyExactly(cfg: Config, table: Table)
    ensures IsEmpty(cfg, table) <==>
            forall id <- table :: table[id].status != Processing
                                  && (table[id].status == Succeeded || table[id].attempts >= cfg.maxAttempts)
  {
    if IsEmpty(cfg, table) {
      forall id | id in table
        ensures table[id].status != Processing && (table[id].status == Succeeded || table[id].attempts >= cfg.maxAttempts)
      {
        assert id !in OutstandingIds(cfg, table);
      }
    } else {
      var id :| id in OutstandingIds(cfg, table);
    }
  }

  lemma QuietWorkerStep(cfg: Config, s: State, step: Step)
    requires SeenOk(cfg, s) && AttemptsOk(cfg, s) && InsideGateOk(cfg, s) && Enabled(cfg, s, step)
    requires Actor(step).Some? && !step.Begin?
    requires s.attempts[step.k].c.id in s.table
             && (var row := s.table[s.attempts[step.k].c.id]; row.status != Processing && !HasAttemptsLeft(cfg, row))
    ensures TableAfter(cfg, s, step) == s.table && !CommitsClaim(s, step)
  {
    assert CandidateOk(cfg, s.table, s.attempts[step.k].c);
    assert InsideOk(cfg, s.table, s.attempts[step.k]);
  }

  predicate AddsNoRequest(table: Table, step: Step) {
    step.Enqueue? ==> RequestTaken(table, step.request)
  }

  lemma QuietStep(cfg: Config, s: State, step: Step)
    requires SeenOk(cfg, s) && AttemptsOk(cfg, s) && InsideGateOk(cfg, s) && Enabled(cfg, s, step)
    requires IsEmpty(cfg, s.table)
    requires AddsNoRequest(s.table, step)
    ensures TableAfter(cfg, s, step) == s.table && !CommitsClaim(s, step)
  {
    EmptyExactly(cfg, s.table);
    if Actor(step).Some? && !step.Begin? {
      assert CandidateOk(cfg, s.table, s.attempts[step.k].c);
      QuietWorkerStep(cfg, s, step);
    } else if step.Recover? {
      assert step.ids == {};
    } else if step.PushBack? {
      assert CandidateOk(cfg, s.table, step.c);
    }
  }

  ghost predicate NoNewRequests(states: seq<State>, steps: seq<Step>, i: nat, j: nat)
    requires i <= j <= |steps| < |states|
  {
    forall n | i <= n < j :: AddsNoRequest(states[n].table, steps[n])
  }

  lemma LastAddsNoRequest(states: seq<State>, steps: seq<Step>, i: nat, n: nat)
    requires i <= n < |steps| < |states| && NoNewRequests(states, steps, i, n + 1)
    ensures AddsNoRequest(states[n].table, steps[n])
  {
  }

  lemma RunQuietStep(cfg: Config, states: seq<State>, steps: seq<Step>, i: nat, n: nat)
    requires IsRun(cfg, states, steps) && i <= n < |steps|
    requires IsEmpty(cfg, states[n].table) && NoNewRequests(states, steps, i, n + 1)
    ensures states[n + 1].table == states[n].table
  {
    assert IsStep(cfg, states, steps, n);
    LastAddsNoRequest(states, steps, i, n);
    RunInv(cfg, states, steps, n);
    QuietStep(cfg, states[n], steps[n]);
  }

  /** Once drained, the queue stays as it is, to the last column, until a new request is enqueued: no
    * claim commits and no late worker write takes effect. */
  lemma {:induction false} QuiescenceIsStable(cfg: Config, states: seq<State>, steps: seq<Step>, i: nat, j: nat)
    requires IsRun(cfg, states, steps) && i <= j < |states|
    requires IsEmpty(cfg, states[i].table)
    requires NoNewRequests(states, steps, i, j)
    ensures states[j].table == states[i].table
    decreases j - i
  {
    if i < j {
      QuiescenceIsStable(cfg, states, steps, i, j - 1);
      RunQuietStep(cfg, states, steps, i, j - 1);
    }
  }

  /** Requests are deduplicated: no two rows of a reachable table carry the same request, so the row an
    * enqueue reads back after a conflict is the only one it can be. */
  lemma RequestsAreUnique(cfg: Config, states: seq<State>, steps: seq<Step>, i: nat, a: RowId, b: RowId)
    requires IsRun(cfg, states, steps) && i < |states|
    requires a in states[i].table && b in states[i].table
    requires states[i].table[a].request == states[i].table[b].request
    ensures a == b
  {
    RunInv(cfg, states, steps, i);
  }

  // ---------- when a row is due ----------

  /** A new request is due at once. */
  lemma NewRowIsDue(cfg: Config, request: RequestKey, now: int, t: int)
    ensures IsEligible(cfg, NewRow(request, now), t) <==> cfg.maxAttempts > 0
  {
  }

  /** A row whose failure is recorded is due again, if it has attempts left, exactly from its backoff after the
    * worker's clock reading on. */
  lemma FailureWaits(cfg: Config, states: seq<State>, steps: seq<Step>, n: nat, t: int)
    requires IsRun(cfg, states, steps) && n < |steps| && steps[n].MarkFailed?
    requires steps[n].k in states[n].attempts
    requires Matches(states[n].table, states[n].attempts[steps[n].k].c.id, states[n].attempts[steps[n].k].c.version + 1)
    ensures var c := states[n].attempts[steps[n].k].c;
            && c.id in states[n + 1].table
            && var row := states[n + 1].table[c.id];
               && row.status == Failed && row.attempts == c.attempts + 1
               && (IsEligible(cfg, row, t) <==>
                     c.attempts + 1 < cfg.maxAttempts
                     && steps[n].readAt + Backoff(c.attempts + 1, cfg.baseBackoffMs, cfg.maxBackoffMs) <= t)
  {
    assert IsStep(cfg, states, steps, n);
  }

  /** A row that is pushed back keeps its status and attempts, and is due again from the maximal backoff on. */
  lemma PushBackWaits(cfg: Config, states: seq<State>, steps: seq<Step>, n: nat, t: int)
    requires IsRun(cfg, states, steps) && n < |steps| && steps[n].PushBack?
    requires Matches(states[n].table, steps[n].c.id, steps[n].c.version)
    ensures var id := steps[n].c.id;
            && id in states[n + 1].table
            && var row, row' := states[n].table[id], states[n + 1].table[id];
               && row'.status == row.status && row'.attempts == row.attempts && row'.version == row.version + 1
               && (IsEligible(cfg, row', t) <==>
                     row.status != Processing && row.status != Succeeded && row.attempts < cfg.maxAttempts
                     && steps[n].readAt + cfg.maxBackoffMs <= t)
  {
    assert IsStep(cfg, states, steps, n);
  }
}
