/** What every step of the task queue keeps. */
module QueueSafety {
  import opened Prelude
  import opened QueueModel

  /** Fencing between two tables: no row disappears or changes its request, versions only grow, and a
    * row whose version is unchanged has the same status, attempts and retry time. */
  ghost predicate Evolves(a: Table, b: Table) {
    forall id <- a :: id in b && RowEvolves(a[id], b[id])
  }

  predicate RowEvolves(r: Row, r': Row) {
    r.request == r'.request && r.version <= r'.version && (r.version == r'.version ==> SameCore(r, r'))
  }

  predicate SameCore(r: Row, r': Row) {
    r.status == r'.status && r.attempts == r'.attempts && r.nextRetryAt == r'.nextRetryAt
  }

  /** No task gains a `processing` row. */
  ghost predicate NoNewProcessing(a: Table, b: Table) {
    forall t, id :: IsProcessing(b, t, id) ==> IsProcessing(a, t, id)
  }

  /** A candidate's snapshot still describes its row, unless the row has moved to a later version. */
  ghost predicate CandidateOk(cfg: Config, table: Table, c: Candidate) {
    && c.id in table
    && c.taskId == table[c.id].request.taskId
    && c.attempts < cfg.maxAttempts
    && c.version <= table[c.id].version
    && (c.version == table[c.id].version ==>
          (table[c.id].status == Pending || table[c.id].status == Failed) && table[c.id].attempts == c.attempts)
  }

  /** The row a worker claimed at `c.version` is still its own, or has moved past the claimed version. */
  ghost predicate ClaimOk(table: Table, c: Candidate) {
    && c.id in table
    && c.version + 1 <= table[c.id].version
    && (c.version + 1 == table[c.id].version ==>
          table[c.id].status == Processing && table[c.id].attempts == c.attempts)
  }

  ghost predicate SeenOk(cfg: Config, s: State) {
    forall c <- s.seen :: CandidateOk(cfg, s.table, c)
  }

  ghost predicate AttemptsOk(cfg: Config, s: State) {
    forall k <- s.attempts ::
      && s.attempts[k].c in s.seen
      && s.attempts[k].c.taskId in cfg.registry
      && (s.attempts[k].phase.IsClaimed() ==> ClaimOk(s.table, s.attempts[k].c))
  }

  /** Each claimed version of a row belongs to one attempt. */
  ghost predicate ClaimsUnique(s: State) {
    forall j <- s.attempts, k <- s.attempts ::
      s.attempts[j].phase.IsClaimed() && s.attempts[k].phase.IsClaimed()
      && s.attempts[j].c.id == s.attempts[k].c.id && s.attempts[j].c.version == s.attempts[k].c.version
      ==> j == k
  }

  /** The gate row of a task is held by exactly the attempt recorded as its holder. */
  ghost predicate GateOk(s: State) {
    GateAndAttempts(s.gate, s.attempts)
  }

  /** Inside the claim transaction the count read stays an over-estimate below the limit, and the row
    * of an uncommitted claim has not been touched by anybody else. */
  ghost predicate InsideGateOk(cfg: Config, s: State) {
    forall k <- s.attempts :: InsideOk(cfg, s.table, s.attempts[k])
  }

  ghost predicate InsideOk(cfg: Config, table: Table, a: Attempt) {
    && (a.phase.Counted? ==> ProcessingCount(table, a.c.taskId) <= a.phase.count < Limit(cfg, a.c.taskId))
    && (a.phase.Updated? ==> ProcessingCount(table, a.c.taskId) < Limit(cfg, a.c.taskId) && Claimable(table, a.c))
  }

  ghost predicate LimitOk(cfg: Config, table: Table) {
    forall t :: ProcessingCount(table, t) <= Limit(cfg, t)
  }

  ghost predicate RowsOk(cfg: Config, s: State) {
    && s.tally.Keys == s.table.Keys
    && (forall id <- s.table :: RowOk(cfg, s.table[id], s.tally[id]))
    && RequestsUnique(s.table)
  }

  ghost predicate RequestsUnique(table: Table) {
    forall i <- table, j <- table :: table[i].request == table[j].request ==> i == j
  }

  /** Conservation of the claims of one row, and the bound on its retries. */
  ghost predicate RowOk(cfg: Config, row: Row, t: Tally) {
    && t.claims == t.successes + t.failures + t.recoveries + (if row.status == Processing then 1 else 0)
    && t.successes == (if row.status == Succeeded then 1 else 0)
    && row.attempts == t.failures
    && row.attempts <= cfg.maxAttempts
    && (row.status == Processing || row.status == Succeeded ==> row.attempts < cfg.maxAttempts)
    && row.version >= 1
  }

  ghost predicate Inv(cfg: Config, s: State) {
    && SeenOk(cfg, s)
    && AttemptsOk(cfg, s)
    && ClaimsUnique(s)
    && GateOk(s)
    && InsideGateOk(cfg, s)
    && LimitOk(cfg, s.table)
    && RowsOk(cfg, s)
  }

  // ---------- counting ----------

  lemma SubsetCount(a: set<RowId>, b: set<RowId>)
    requires a <= b
    ensures |a| <= |b|
  {
    assert b == a + (b - a);
  }

  lemma NoNewProcessingCount(a: Table, b: Table, t: TaskId)
    requires NoNewProcessing(a, b)
    ensures ProcessingCount(b, t) <= ProcessingCount(a, t)
  {
    assert forall id :: IsProcessing(b, t, id) ==> IsProcessing(a, t, id);
    SubsetCount(ProcessingIds(b, t), ProcessingIds(a, t));
  }

  lemma ClaimCount(table: Table, c: Candidate, stamp: int, t: TaskId)
    requires c.id in table && c.taskId == table[c.id].request.taskId
    ensures ProcessingCount(Claimed(table, c, stamp), t)
            <= ProcessingCount(table, t) + (if t == c.taskId then 1 else 0)
  {
    var now, was := ProcessingIds(Claimed(table, c, stamp), t), ProcessingIds(table, t);
    if t == c.taskId {
      assert now <= was + {c.id};
      SubsetCount(now, was + {c.id});
    } else {
      assert now <= was;
      SubsetCount(now, was);
    }
  }

  // ---------- what one step does to the table ----------

  predicate CommitsClaim(s: State, step: Step) {
    step.Commit? && step.k in s.attempts && s.attempts[step.k].phase.Updated?
  }

  lemma StepEvolves(cfg: Config, s: State, step: Step)
    requires SeenOk(cfg, s) && AttemptsOk(cfg, s) && Enabled(cfg, s, step)
    ensures Evolves(s.table, TableAfter(cfg, s, step))
  {
    forall id | id in s.table ensures id in TableAfter(cfg, s, step) && RowEvolves(s.table[id], TableAfter(cfg, s, step)[id]) {
      StepEvolvesRow(cfg, s, step, id);
    }
  }

  lemma StepEvolvesRow(cfg: Config, s: State, step: Step, id: RowId)
    requires SeenOk(cfg, s) && AttemptsOk(cfg, s) && Enabled(cfg, s, step) && id in s.table
    ensures id in TableAfter(cfg, s, step) && RowEvolves(s.table[id], TableAfter(cfg, s, step)[id])
  {
    if step.PushBack? {
      assert CandidateOk(cfg, s.table, step.c);
    } else if Actor(step).Some? && !step.Begin? {
      WorkerEvolvesRow(cfg, s, step, id);
    }
  }

  lemma WorkerEvolvesRow(cfg: Config, s: State, step: Step, id: RowId)
    requires SeenOk(cfg, s) && AttemptsOk(cfg, s) && Enabled(cfg, s, step) && id in s.table
    requires Actor(step).Some? && !step.Begin?
    ensures id in TableAfter(cfg, s, step) && RowEvolves(s.table[id], TableAfter(cfg, s, step)[id])
  {
    assert CandidateOk(cfg, s.table, s.attempts[step.k].c);
  }

  lemma StepAddsNoProcessing(cfg: Config, s: State, step: Step)
    requires SeenOk(cfg, s) && AttemptsOk(cfg, s) && Enabled(cfg, s, step)
    requires !CommitsClaim(s, step)
    ensures NoNewProcessing(s.table, TableAfter(cfg, s, step))
  {
  }

  /** While a claim is uncommitted its row is claimable and no other statement writes it: the holder of
    * the task's gate never has to wait for, or lose, the row itself. */
  lemma UncommittedRowIsUntouched(cfg: Config, s: State, step: Step, k: AttemptId)
    requires SeenOk(cfg, s) && AttemptsOk(cfg, s) && GateOk(s) && Enabled(cfg, s, step)
    requires k in s.attempts && s.attempts[k].phase.Updated? && Claimable(s.table, s.attempts[k].c)
    requires !(step.Commit? && step.k == k)
    ensures s.attempts[k].c.id in TableAfter(cfg, s, step)
    ensures TableAfter(cfg, s, step)[s.attempts[k].c.id] == s.table[s.attempts[k].c.id]
  {
    var c := s.attempts[k].c;
    assert CandidateOk(cfg, s.table, c);
    if step.PushBack? {
      assert CandidateOk(cfg, s.table, step.c);
    } else if Actor(step).Some? && !step.Begin? {
      if s.attempts[step.k].phase.HoldsGate() {
        if step.k != k {
          HoldersDiffer(cfg, s, step.k, k);
        }
        GateStepWritesOwnRow(cfg, s, step, c.id);
      } else {
        ClaimedStepWritesProcessingRow(cfg, s, step, c.id);
      }
    }
  }

  /** A statement inside the claim transaction writes at most the row of its claim. */
  lemma GateStepWritesOwnRow(cfg: Config, s: State, step: Step, id: RowId)
    requires Enabled(cfg, s, step) && Actor(step).Some? && !step.Begin? && s.attempts[step.k].phase.HoldsGate()
    requires id in s.table && (s.attempts[step.k].c.id != id || !step.Commit?)
    ensures id in TableAfter(cfg, s, step) && TableAfter(cfg, s, step)[id] == s.table[id]
  {
  }

  /** An executing worker writes only a row that is `processing`. */
  lemma ClaimedStepWritesProcessingRow(cfg: Config, s: State, step: Step, id: RowId)
    requires AttemptsOk(cfg, s) && Enabled(cfg, s, step) && Actor(step).Some? && !step.Begin?
    requires !s.attempts[step.k].phase.HoldsGate() && id in s.table && s.table[id].status != Processing
    ensures id in TableAfter(cfg, s, step) && TableAfter(cfg, s, step)[id] == s.table[id]
  {
    assert s.attempts[step.k].phase.IsClaimed() ==> ClaimOk(s.table, s.attempts[step.k].c);
  }

  /** Two holders of a gate are working on different rows. */
  lemma HoldersDiffer(cfg: Config, s: State, j: AttemptId, k: AttemptId)
    requires SeenOk(cfg, s) && AttemptsOk(cfg, s) && GateOk(s) && j in s.attempts && k in s.attempts && j != k
    requires s.attempts[j].phase.HoldsGate() && s.attempts[k].phase.HoldsGate()
    ensures s.attempts[j].c.id != s.attempts[k].c.id
  {
    assert CandidateOk(cfg, s.table, s.attempts[j].c) && CandidateOk(cfg, s.table, s.attempts[k].c);
  }

  // ---------- each part of the invariant ----------

  lemma StepKeepsSeen(cfg: Config, s: State, step: Step)
    requires SeenOk(cfg, s) && AttemptsOk(cfg, s) && RowsOk(cfg, s) && Enabled(cfg, s, step)
    ensures SeenOk(cfg, Apply(cfg, s, step))
  {
    StepEvolves(cfg, s, step);
    forall c | c in Apply(cfg, s, step).seen
      ensures CandidateOk(cfg, TableAfter(cfg, s, step), c)
    {
      assert c in s.seen ==> CandidateOk(cfg, s.table, c);
    }
  }

  lemma ClaimPersists(a: Table, b: Table, c: Candidate)
    requires Evolves(a, b) && ClaimOk(a, c)
    ensures ClaimOk(b, c)
  {
  }

  /** A step either leaves an attempt alone or moves its phase; it never changes its candidate. */
  lemma AttemptMoves(cfg: Config, s: State, step: Step, k: AttemptId)
    requires Enabled(cfg, s, step) && k in AttemptsAfter(cfg, s, step)
    ensures k !in s.attempts ==> step.Begin? && step.k == k && AttemptsAfter(cfg, s, step)[k] == Attempt(step.c, Begun)
    ensures k in s.attempts ==> AttemptsAfter(cfg, s, step)[k].c == s.attempts[k].c
    ensures k in s.attempts && Actor(step) != Some(k) ==> AttemptsAfter(cfg, s, step)[k] == s.attempts[k]
    ensures k in s.attempts && Actor(step) == Some(k) ==>
              !step.Begin? && PhaseAfter(cfg, s, step) == Some(AttemptsAfter(cfg, s, step)[k].phase)
  {
  }

  /** An attempt becomes claimed only by committing its claim. */
  lemma ClaimedByCommit(cfg: Config, s: State, step: Step)
    requires Enabled(cfg, s, step) && Actor(step).Some? && !step.Begin?
    requires PhaseAfter(cfg, s, step).Some? && PhaseAfter(cfg, s, step).value.IsClaimed()
    ensures s.attempts[step.k].phase.IsClaimed() || CommitsClaim(s, step)
  {
  }

  lemma StepKeepsAttempts(cfg: Config, s: State, step: Step)
    requires SeenOk(cfg, s) && AttemptsOk(cfg, s) && InsideGateOk(cfg, s) && Enabled(cfg, s, step)
    ensures AttemptsOk(cfg, Apply(cfg, s, step))
  {
    StepEvolves(cfg, s, step);
    var s' := Apply(cfg, s, step);
    forall k | k in s'.attempts
      ensures s'.attempts[k].c in s'.seen && s'.attempts[k].c.taskId in cfg.registry
      ensures s'.attempts[k].phase.IsClaimed() ==> ClaimOk(s'.table, s'.attempts[k].c)
    {
      AttemptMoves(cfg, s, step, k);
      if s'.attempts[k].phase.IsClaimed() {
        if Actor(step) == Some(k) {
          ClaimedByCommit(cfg, s, step);
        }
        if s.attempts[k].phase.IsClaimed() {
          ClaimPersists(s.table, s'.table, s.attempts[k].c);
        }
      }
    }
  }

  lemma StepKeepsClaimsUnique(cfg: Config, s: State, step: Step)
    requires AttemptsOk(cfg, s) && ClaimsUnique(s) && InsideGateOk(cfg, s) && Enabled(cfg, s, step)
    ensures ClaimsUnique(Apply(cfg, s, step))
  {
    var after := Apply(cfg, s, step).attempts;
    forall j, k | j in after && k in after && j != k && after[j].phase.IsClaimed() && after[k].phase.IsClaimed()
      ensures after[j].c.id != after[k].c.id || after[j].c.version != after[k].c.version
    {
      WasClaimed(cfg, s, step, j);
      WasClaimed(cfg, s, step, k);
      if CommitsClaim(s, step) {
        assert InsideOk(cfg, s.table, s.attempts[step.k]);
      }
    }
  }

  /** An attempt that is claimed after a step was claimed before, or the step commits its claim. */
  lemma WasClaimed(cfg: Config, s: State, step: Step, k: AttemptId)
    requires AttemptsOk(cfg, s) && Enabled(cfg, s, step)
    requires k in AttemptsAfter(cfg, s, step) && AttemptsAfter(cfg, s, step)[k].phase.IsClaimed()
    ensures k in s.attempts && AttemptsAfter(cfg, s, step)[k].c == s.attempts[k].c
    ensures (s.attempts[k].phase.IsClaimed() && ClaimOk(s.table, s.attempts[k].c)) || (CommitsClaim(s, step) && step.k == k)
  {
  }

  /** Only `TakeGate`, `Commit` and `Abort` take or give up a gate. */
  lemma GateUnmoved(cfg: Config, s: State, step: Step, k: AttemptId)
    requires Enabled(cfg, s, step) && !step.TakeGate? && !step.Commit? && !step.Abort?
    ensures var after := AttemptsAfter(cfg, s, step);
            (k in after && after[k].phase.HoldsGate()) <==> (k in s.attempts && s.attempts[k].phase.HoldsGate())
    ensures k in s.attempts && s.attempts[k].phase.HoldsGate() ==> AttemptsAfter(cfg, s, step)[k].c == s.attempts[k].c
  {
  }

  lemma GateKept(cfg: Config, s: State, step: Step)
    requires GateOk(s) && Enabled(cfg, s, step) && !step.TakeGate? && !step.Commit? && !step.Abort?
    ensures GateAndAttempts(s.gate, AttemptsAfter(cfg, s, step))
  {
    var after := AttemptsAfter(cfg, s, step);
    forall k ensures (k in after && after[k].phase.HoldsGate()) <==> (k in s.attempts && s.attempts[k].phase.HoldsGate())
             ensures k in s.attempts && s.attempts[k].phase.HoldsGate() ==> after[k].c == s.attempts[k].c
    {
      GateUnmoved(cfg, s, step, k);
    }
  }

  ghost predicate GateAndAttempts(gate: map<TaskId, AttemptId>, attempts: map<AttemptId, Attempt>) {
    && (forall k <- attempts :: attempts[k].phase.HoldsGate() ==>
          attempts[k].c.taskId in gate && gate[attempts[k].c.taskId] == k)
    && (forall t <- gate :: gate[t] in attempts && attempts[gate[t]].phase.HoldsGate()
                            && attempts[gate[t]].c.taskId == t)
  }

  lemma GateTaken(gate: map<TaskId, AttemptId>, attempts: map<AttemptId, Attempt>, k: AttemptId)
    requires GateAndAttempts(gate, attempts) && k in attempts && attempts[k].c.taskId !in gate
    ensures GateAndAttempts(gate[attempts[k].c.taskId := k], attempts[k := Attempt(attempts[k].c, GateHeld)])
  {
  }

  /** The holder's attempt ends, or goes on without the gate. */
  lemma GateGivenUp(gate: map<TaskId, AttemptId>, attempts: map<AttemptId, Attempt>, k: AttemptId,
                    after: map<AttemptId, Attempt>)
    requires GateAndAttempts(gate, attempts) && k in attempts && attempts[k].phase.HoldsGate()
    requires forall j | j != k :: (j in after <==> j in attempts) && (j in after ==> after[j] == attempts[j])
    requires k in after ==> !after[k].phase.HoldsGate()
    ensures GateAndAttempts(gate - {attempts[k].c.taskId}, after)
  {
  }

  lemma StepKeepsGate(cfg: Config, s: State, step: Step)
    requires GateOk(s) && Enabled(cfg, s, step)
    ensures GateOk(Apply(cfg, s, step))
  {
    var after := AttemptsAfter(cfg, s, step);
    if step.TakeGate? {
      GateTaken(s.gate, s.attempts, step.k);
    } else if step.Commit? || step.Abort? {
      if s.attempts[step.k].phase.HoldsGate() {
        GateGivenUp(s.gate, s.attempts, step.k, after);
      }
    } else {
      GateKept(cfg, s, step);
    }
  }

  /** Whoever holds the gate of a task sees its count only fall. */
  lemma CountInsideGate(cfg: Config, s: State, step: Step, k: AttemptId)
    requires SeenOk(cfg, s) && AttemptsOk(cfg, s) && GateOk(s) && Enabled(cfg, s, step)
    requires k in s.attempts && s.attempts[k].phase.HoldsGate() && !(step.Commit? && step.k == k)
    ensures ProcessingCount(TableAfter(cfg, s, step), s.attempts[k].c.taskId)
            <= ProcessingCount(s.table, s.attempts[k].c.taskId)
  {
    var t := s.attempts[k].c.taskId;
    if CommitsClaim(s, step) {
      assert s.gate[t] == k;
      var c := s.attempts[step.k].c;
      assert CandidateOk(cfg, s.table, c);
      ClaimCount(s.table, c, s.attempts[step.k].phase.stamp, t);
    } else {
      StepAddsNoProcessing(cfg, s, step);
      NoNewProcessingCount(s.table, TableAfter(cfg, s, step), t);
    }
  }

  /** The attempt that takes the step. */
  lemma ActorInsideGate(cfg: Config, s: State, step: Step)
    requires InsideGateOk(cfg, s) && Enabled(cfg, s, step)
    requires Actor(step).Some? && !step.Begin? && PhaseAfter(cfg, s, step).Some?
    ensures InsideOk(cfg, TableAfter(cfg, s, step), Attempt(s.attempts[step.k].c, PhaseAfter(cfg, s, step).value))
  {
    assert InsideOk(cfg, s.table, s.attempts[step.k]);
  }

  /** Any other attempt. */
  lemma OthersInsideGate(cfg: Config, s: State, step: Step, k: AttemptId)
    requires SeenOk(cfg, s) && AttemptsOk(cfg, s) && GateOk(s) && InsideGateOk(cfg, s) && Enabled(cfg, s, step)
    requires k in s.attempts && Actor(step) != Some(k)
    ensures InsideOk(cfg, TableAfter(cfg, s, step), s.attempts[k])
  {
    var a := s.attempts[k];
    assert InsideOk(cfg, s.table, a);
    if a.phase.Counted? || a.phase.Updated? {
      CountInsideGate(cfg, s, step, k);
    }
    if a.phase.Updated? {
      UncommittedRowIsUntouched(cfg, s, step, k);
    }
  }

  lemma StepKeepsInsideGate(cfg: Config, s: State, step: Step)
    requires SeenOk(cfg, s) && AttemptsOk(cfg, s) && GateOk(s) && InsideGateOk(cfg, s) && Enabled(cfg, s, step)
    ensures InsideGateOk(cfg, Apply(cfg, s, step))
  {
    var after := AttemptsAfter(cfg, s, step);
    forall k | k in after ensures InsideOk(cfg, TableAfter(cfg, s, step), after[k]) {
      AttemptMoves(cfg, s, step, k);
      if k in s.attempts {
        if Actor(step) == Some(k) {
          ActorInsideGate(cfg, s, step);
        } else {
          OthersInsideGate(cfg, s, step, k);
        }
      }
    }
  }

  lemma StepKeepsLimit(cfg: Config, s: State, step: Step)
    requires SeenOk(cfg, s) && AttemptsOk(cfg, s) && InsideGateOk(cfg, s) && LimitOk(cfg, s.table)
    requires Enabled(cfg, s, step)
    ensures LimitOk(cfg, TableAfter(cfg, s, step))
  {
    forall t ensures ProcessingCount(TableAfter(cfg, s, step), t) <= Limit(cfg, t) {
      assert ProcessingCount(s.table, t) <= Limit(cfg, t);
      if CommitsClaim(s, step) {
        var c := s.attempts[step.k].c;
        assert CandidateOk(cfg, s.table, c);
        ClaimCount(s.table, c, s.attempts[step.k].phase.stamp, t);
      } else {
        StepAddsNoProcessing(cfg, s, step);
        NoNewProcessingCount(s.table, TableAfter(cfg, s, step), t);
      }
    }
  }

  /** Rows whose version a step does not change keep their tally. */
  lemma TallyKept(cfg: Config, s: State, step: Step, id: RowId, t: Tally)
    requires SeenOk(cfg, s) && AttemptsOk(cfg, s) && InsideGateOk(cfg, s) && Enabled(cfg, s, step)
    requires id in s.table && TableAfter(cfg, s, step)[id].version == s.table[id].version
    ensures TallyAfter(cfg, s, step, id, t) == t
  {
  }

  /** Rows whose version a worker's step changes. */
  lemma WorkerKeepsRow(cfg: Config, s: State, step: Step, id: RowId)
    requires SeenOk(cfg, s) && AttemptsOk(cfg, s) && InsideGateOk(cfg, s) && Enabled(cfg, s, step)
    requires Actor(step).Some? && !step.Begin?
    requires id in s.table && id in s.tally && RowOk(cfg, s.table[id], s.tally[id])
    requires TableAfter(cfg, s, step)[id].version != s.table[id].version
    ensures RowOk(cfg, TableAfter(cfg, s, step)[id], TallyAfter(cfg, s, step, id, s.tally[id]))
  {
    var c := s.attempts[step.k].c;
    assert CandidateOk(cfg, s.table, c);
    if !step.Commit? {
      assert ClaimOk(s.table, c);
    }
  }

  lemma StepKeepsRow(cfg: Config, s: State, step: Step, id: RowId)
    requires SeenOk(cfg, s) && AttemptsOk(cfg, s) && InsideGateOk(cfg, s) && Enabled(cfg, s, step)
    requires id in s.table && id in s.tally && RowOk(cfg, s.table[id], s.tally[id])
    ensures id in TableAfter(cfg, s, step)
    ensures RowOk(cfg, TableAfter(cfg, s, step)[id], TallyAfter(cfg, s, step, id, s.tally[id]))
  {
    StepEvolves(cfg, s, step);
    if TableAfter(cfg, s, step)[id].version == s.table[id].version {
      TallyKept(cfg, s, step, id, s.tally[id]);
    } else if Actor(step).Some? && !step.Begin? {
      WorkerKeepsRow(cfg, s, step, id);
    } else {
      NonWorkerKeepsRow(cfg, s, step, id);
    }
  }

  lemma NonWorkerKeepsRow(cfg: Config, s: State, step: Step, id: RowId)
    requires SeenOk(cfg, s) && Enabled(cfg, s, step) && (Actor(step).None? || step.Begin?)
    requires id in s.table && id in s.tally && RowOk(cfg, s.table[id], s.tally[id])
    ensures id in TableAfter(cfg, s, step)
    ensures RowOk(cfg, TableAfter(cfg, s, step)[id], TallyAfter(cfg, s, step, id, s.tally[id]))
  {
  }

  /** Only an enqueue adds a row, and only for a request that no row carries. */
  lemma StepKeepsRequestsUnique(cfg: Config, s: State, step: Step)
    requires SeenOk(cfg, s) && AttemptsOk(cfg, s) && RequestsUnique(s.table) && Enabled(cfg, s, step)
    ensures RequestsUnique(TableAfter(cfg, s, step))
    ensures forall id <- TableAfter(cfg, s, step) ::
              id !in s.table ==> step.Enqueue? && id == step.newId && TableAfter(cfg, s, step)[id] == NewRow(step.request, step.now)
  {
    var table := TableAfter(cfg, s, step);
    if step.Enqueue? {
      EnqueueKeepsRequestsUnique(s.table, step.newId, step.request, step.now);
    } else {
      StepEvolves(cfg, s, step);
      assert table.Keys == s.table.Keys;
      forall a, b | a in table && b in table && table[a].request == table[b].request ensures a == b {
        assert RowEvolves(s.table[a], table[a]) && RowEvolves(s.table[b], table[b]);
      }
    }
  }

  lemma EnqueueKeepsRequestsUnique(table: Table, id: RowId, request: RequestKey, now: int)
    requires RequestsUnique(table) && id !in table
    ensures RequestsUnique(Inserted(table, id, request, now))
  {
  }

  lemma StepKeepsRows(cfg: Config, s: State, step: Step)
    requires SeenOk(cfg, s) && AttemptsOk(cfg, s) && InsideGateOk(cfg, s) && RowsOk(cfg, s)
    requires Enabled(cfg, s, step)
    ensures RowsOk(cfg, Apply(cfg, s, step))
  {
    StepKeepsRequestsUnique(cfg, s, step);
    var table, tally := TableAfter(cfg, s, step), Apply(cfg, s, step).tally;
    forall id | id in table ensures RowOk(cfg, table[id], tally[id]) {
      if id in s.table {
        StepKeepsRow(cfg, s, step, id);
      }
    }
  }

  lemma StepKeepsInv(cfg: Config, s: State, step: Step)
    requires Inv(cfg, s) && Enabled(cfg, s, step)
    ensures Inv(cfg, Apply(cfg, s, step))
    ensures Evolves(s.table, Apply(cfg, s, step).table)
  {
    StepKeepsSeen(cfg, s, step);
    StepKeepsAttempts(cfg, s, step);
    StepKeepsClaimsUnique(cfg, s, step);
    StepKeepsGate(cfg, s, step);
    StepKeepsInsideGate(cfg, s, step);
    StepKeepsLimit(cfg, s, step);
    StepKeepsRows(cfg, s, step);
    StepEvolves(cfg, s, step);
  }
}
