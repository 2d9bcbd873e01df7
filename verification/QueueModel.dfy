/** The database-backed task queue as a transition system.
  *
  * A `Step` is one database statement (or one transaction boundary) of one of any number of worker
  * processes. Each statement outside the claim transaction autocommits; the claim transaction is cut
  * into "take the gate", "count", "update" and "commit", so that everything else may happen between
  * two of its statements. Clock readings are parameters of the steps: no process's clock is trusted.
  */
module QueueModel {
  import opened Prelude

  type RowId = string
  type TaskId = string
  type AttemptId = nat

  datatype Status = Pending | Processing | Succeeded | Failed

  /** The columns that identify an enqueued request (unique together). */
  datatype RequestKey = RequestKey(projectId: string, taskId: TaskId, idempotencyKey: string)

  datatype Row = Row(
    request: RequestKey, status: Status, attempts: nat, version: nat,
    createdAt: int, updatedAt: int, nextRetryAt: Option<int>)

  type Table = map<RowId, Row>

  /** What the candidate SELECT returns for one row. */
  datatype Candidate = Candidate(id: RowId, taskId: TaskId, attempts: nat, version: nat)

  /** The life of one claim attempt, from the first statement of its transaction to the end of the
    * execution it started. `Updated` holds the uncommitted UPDATE, `Declined` a transaction that
    * returns `claimed: false` and has still to commit. */
  datatype Phase =
    | Begun
    | GateHeld
    | Counted(count: nat)
    | Updated(stamp: int)
    | Declined
    | Executing(lost: bool)
    | Marking(ok: bool)
  {
    predicate HoldsGate() { GateHeld? || Counted? || Updated? || Declined? }
    predicate IsClaimed() { Executing? || Marking? }
  }

  datatype Attempt = Attempt(c: Candidate, phase: Phase)

  /** What has happened to a row so far; no statement reads it. */
  datatype Tally = Tally(claims: nat, successes: nat, failures: nat, recoveries: nat)

  datatype Config = Config(
    registry: map<TaskId, nat>, maxAttempts: nat, batchSize: nat,
    baseBackoffMs: nat, maxBackoffMs: nat, staleClaimMs: nat)

  datatype State = State(
    table: Table,
    gate: map<TaskId, AttemptId>,
    seen: set<Candidate>,
    attempts: map<AttemptId, Attempt>,
    tally: map<RowId, Tally>)

  function Limit(cfg: Config, t: TaskId): nat {
    if t in cfg.registry then cfg.registry[t] else 0
  }

  // ---------- reads ----------

  predicate IsProcessing(table: Table, t: TaskId, id: RowId) {
    id in table && table[id].request.taskId == t && table[id].status == Processing
  }

  function ProcessingIds(table: Table, t: TaskId): set<RowId> {
    set id | id in table && IsProcessing(table, t, id)
  }

  /** `SELECT COUNT(*) ... WHERE task_id = ? AND status = 'processing'` */
  function ProcessingCount(table: Table, t: TaskId): nat {
    |ProcessingIds(table, t)|
  }

  predicate HasAttemptsLeft(cfg: Config, row: Row) {
    (row.status == Pending || row.status == Failed) && row.attempts < cfg.maxAttempts
  }

  predicate IsEligible(cfg: Config, row: Row, now: int) {
    HasAttemptsLeft(cfg, row) && (row.nextRetryAt == None || row.nextRetryAt.value <= now)
  }

  predicate IsStale(cfg: Config, row: Row, readAt: int) {
    row.status == Processing && row.updatedAt <= readAt - cfg.staleClaimMs
  }

  function CandidateOf(id: RowId, row: Row): Candidate {
    Candidate(id, row.request.taskId, row.attempts, row.version)
  }

  /** `batch` answers the candidate SELECT: eligible rows, oldest first, at most `batchSize`. */
  ghost predicate IsSelection(cfg: Config, table: Table, now: int, batch: set<RowId>) {
    && (forall id <- batch :: id in table && IsEligible(cfg, table[id], now))
    && |batch| <= cfg.batchSize
    && (|batch| < cfg.batchSize ==> forall id <- table :: IsEligible(cfg, table[id], now) ==> id in batch)
    && (forall id <- batch, other <- table ::
          (IsEligible(cfg, table[other], now) && other !in batch ==> table[id].createdAt <= table[other].createdAt))
  }

  predicate RequestTaken(table: Table, request: RequestKey) {
    exists id <- table :: table[id].request == request
  }

  predicate Matches(table: Table, id: RowId, version: nat) {
    id in table && table[id].version == version
  }

  // ---------- single-statement writes ----------

  function Inserted(table: Table, id: RowId, request: RequestKey, now: int): Table {
    if RequestTaken(table, request) then table
    else table[id := NewRow(request, now)]
  }

  function NewRow(request: RequestKey, now: int): Row {
    Row(request, Pending, 0, 1, now, now, None)
  }

  function Recovered(table: Table, ids: set<RowId>, stamp: int): Table {
    map id | id in table ::
      if id in ids then table[id].(status := Pending, version := table[id].version + 1, updatedAt := stamp)
      else table[id]
  }

  function PushedBack(table: Table, c: Candidate, retryAt: int, stamp: int): Table {
    if Matches(table, c.id, c.version)
    then table[c.id := table[c.id].(nextRetryAt := Some(retryAt), version := c.version + 1, updatedAt := stamp)]
    else table
  }

  predicate Claimable(table: Table, c: Candidate) {
    Matches(table, c.id, c.version) && (table[c.id].status == Pending || table[c.id].status == Failed)
  }

  function Claimed(table: Table, c: Candidate, stamp: int): Table {
    if Claimable(table, c)
    then table[c.id := table[c.id].(status := Processing, version := c.version + 1, updatedAt := stamp)]
    else table
  }

  predicate Renews(table: Table, c: Candidate) {
    Matches(table, c.id, c.version + 1) && table[c.id].status == Processing
  }

  function Renewed(table: Table, c: Candidate, stamp: int): Table {
    if Renews(table, c) then table[c.id := table[c.id].(updatedAt := stamp)] else table
  }

  function MarkedSucceeded(table: Table, c: Candidate, stamp: int): Table {
    if Matches(table, c.id, c.version + 1)
    then table[c.id := table[c.id].(status := Succeeded, version := c.version + 2, updatedAt := stamp)]
    else table
  }

  function MarkedFailed(table: Table, c: Candidate, retryAt: int, stamp: int): Table {
    if Matches(table, c.id, c.version + 1)
    then table[c.id := table[c.id].(status := Failed, attempts := c.attempts + 1, nextRetryAt := Some(retryAt),
                                    version := c.version + 2, updatedAt := stamp)]
    else table
  }

  function Pow2(n: nat): (p: nat)
    ensures p >= 1
  {
    if n == 0 then 1 else 2 * Pow2(n - 1)
  }

  /** `deterministicBackoff`: min(base * 2^(attempt-1), max), and 0 for attempt <= 0. */
  function Backoff(attempt: int, baseMs: nat, maxMs: nat): nat {
    if attempt <= 0 then 0
    else var d := baseMs * Pow2(attempt - 1); if d < maxMs then d else maxMs
  }

  /** The delay starts at the base, doubles with every attempt, and stops growing at the maximum. */
  lemma BackoffDoubles(attempt: nat, baseMs: nat, maxMs: nat)
    requires attempt > 0
    ensures Backoff(1, baseMs, maxMs) == if baseMs < maxMs then baseMs else maxMs
    ensures var next := 2 * Backoff(attempt, baseMs, maxMs);
            Backoff(attempt + 1, baseMs, maxMs) == if next < maxMs then next else maxMs
  {
    assert Pow2(attempt) == 2 * Pow2(attempt - 1);
    assert baseMs * Pow2(attempt) == 2 * (baseMs * Pow2(attempt - 1));
  }

  // ---------- steps ----------

  /** Where a driver error is reported, `applied` says whether the statement took effect anyway. */
  datatype Step =
    | Enqueue(newId: RowId, request: RequestKey, now: int)
    | Recover(ids: set<RowId>, readAt: int, stamp: int)
    | Poll(batch: set<RowId>, now: int)
    | PushBack(c: Candidate, readAt: int, stamp: int)
    | Begin(k: AttemptId, c: Candidate)
    | TakeGate(k: AttemptId)
    | Count(k: AttemptId)
    | Update(k: AttemptId, stamp: int)
    | Commit(k: AttemptId)
    | Abort(k: AttemptId)
    | Heartbeat(k: AttemptId, stamp: int)
    | HeartbeatError(k: AttemptId, applied: bool, stamp: int)
    | Return(k: AttemptId, ok: bool)
    | MarkSucceeded(k: AttemptId, stamp: int)
    | MarkSucceededError(k: AttemptId, applied: bool, stamp: int)
    | MarkFailed(k: AttemptId, readAt: int, stamp: int)
    | MarkFailedError(k: AttemptId, applied: bool, readAt: int, stamp: int)
    | Crash(k: AttemptId)

  /** The attempt whose phase a step moves on, if it is a step of one attempt. */
  function Actor(step: Step): Option<AttemptId> {
    match step
    case Enqueue(_, _, _) => None
    case Recover(_, _, _) => None
    case Poll(_, _) => None
    case PushBack(_, _, _) => None
    case _ => Some(step.k)
  }

  /** Whether an attempt in phase `p` may take `step`. */
  predicate PhaseAllows(step: Step, p: Phase) {
    match step
    case TakeGate(_) => p.Begun?
    case Count(_) => p.GateHeld?
    case Update(_, _) => p.Counted?
    case Commit(_) => p.Updated? || p.Declined?
    case Abort(_) => p.Begun? || p.HoldsGate()
    case Heartbeat(_, _) => p == Executing(false)
    case HeartbeatError(_, _, _) => p == Executing(false)
    case Return(_, _) => p.Executing?
    case MarkSucceeded(_, _) => p == Marking(true)
    case MarkSucceededError(_, _, _) => p == Marking(true)
    case MarkFailed(_, _, _) => p == Marking(false)
    case MarkFailedError(_, _, _, _) => p == Marking(false)
    case Crash(_) => p.IsClaimed()
    case _ => false
  }

  ghost predicate Enabled(cfg: Config, s: State, step: Step) {
    match step
    case Enqueue(newId, _, _) => newId !in s.table
    case Recover(ids, readAt, _) => forall id <- ids :: id in s.table && IsStale(cfg, s.table[id], readAt)
    case Poll(batch, now) => IsSelection(cfg, s.table, now, batch)
    case PushBack(c, _, _) => c in s.seen && c.taskId !in cfg.registry
    case Begin(k, c) => c in s.seen && c.taskId in cfg.registry && k !in s.attempts
    case TakeGate(k) => k in s.attempts && PhaseAllows(step, s.attempts[k].phase) && s.attempts[k].c.taskId !in s.gate
    case _ => step.k in s.attempts && PhaseAllows(step, s.attempts[step.k].phase)
  }

  function RetryAt(cfg: Config, c: Candidate, readAt: int): int {
    readAt + Backoff(c.attempts + 1, cfg.baseBackoffMs, cfg.maxBackoffMs)
  }

  /** The committed table after a step. */
  function TableAfter(cfg: Config, s: State, step: Step): Table
    requires Enabled(cfg, s, step)
  {
    match step
    case Enqueue(newId, request, now) => Inserted(s.table, newId, request, now)
    case Recover(ids, _, stamp) => Recovered(s.table, ids, stamp)
    case PushBack(c, readAt, stamp) => PushedBack(s.table, c, readAt + cfg.maxBackoffMs, stamp)
    case Commit(k) =>
      if s.attempts[k].phase.Updated? then Claimed(s.table, s.attempts[k].c, s.attempts[k].phase.stamp) else s.table
    case Heartbeat(k, stamp) => Renewed(s.table, s.attempts[k].c, stamp)
    case HeartbeatError(k, applied, stamp) =>
      if applied then Renewed(s.table, s.attempts[k].c, stamp) else s.table
    case MarkSucceeded(k, stamp) => MarkedSucceeded(s.table, s.attempts[k].c, stamp)
    case MarkSucceededError(k, applied, stamp) =>
      if applied then MarkedSucceeded(s.table, s.attempts[k].c, stamp) else s.table
    case MarkFailed(k, readAt, stamp) =>
      MarkedFailed(s.table, s.attempts[k].c, RetryAt(cfg, s.attempts[k].c, readAt), stamp)
    case MarkFailedError(k, applied, readAt, stamp) =>
      if applied then MarkedFailed(s.table, s.attempts[k].c, RetryAt(cfg, s.attempts[k].c, readAt), stamp) else s.table
    case _ => s.table
  }

  /** The phase its actor reaches by a step, or None when the attempt ends. */
  function PhaseAfter(cfg: Config, s: State, step: Step): Option<Phase>
    requires Enabled(cfg, s, step) && Actor(step).Some? && !step.Begin?
  {
    var a := s.attempts[step.k];
    match step
    case TakeGate(_) => Some(GateHeld)
    case Count(_) =>
      var n := ProcessingCount(s.table, a.c.taskId);
      Some(if n >= Limit(cfg, a.c.taskId) then Declined else Counted(n))
    case Update(_, stamp) => Some(if Claimable(s.table, a.c) then Updated(stamp) else Declined)
    case Commit(_) => if a.phase.Updated? then Some(Executing(false)) else None
    case Heartbeat(_, _) => Some(Executing(!Renews(s.table, a.c)))
    case HeartbeatError(_, _, _) => Some(Executing(true))
    case Return(_, ok) => if a.phase.lost then None else Some(Marking(ok))
    case MarkSucceededError(_, _, _) => Some(Marking(false))
    case _ => None
  }

  function AttemptsAfter(cfg: Config, s: State, step: Step): map<AttemptId, Attempt>
    requires Enabled(cfg, s, step)
  {
    if Actor(step).None? then s.attempts
    else if step.Begin? then s.attempts[step.k := Attempt(step.c, Begun)]
    else match PhaseAfter(cfg, s, step)
         case None => s.attempts - {step.k}
         case Some(p) => s.attempts[step.k := Attempt(s.attempts[step.k].c, p)]
  }

  function GateAfter(cfg: Config, s: State, step: Step): map<TaskId, AttemptId>
    requires Enabled(cfg, s, step)
  {
    match step
    case TakeGate(k) => s.gate[s.attempts[k].c.taskId := k]
    case Commit(k) => s.gate - {s.attempts[k].c.taskId}
    case Abort(k) => if s.attempts[k].phase.HoldsGate() then s.gate - {s.attempts[k].c.taskId} else s.gate
    case _ => s.gate
  }

  /** What a step adds to the tally of row `id`. */
  function TallyAfter(cfg: Config, s: State, step: Step, id: RowId, t: Tally): Tally
    requires Enabled(cfg, s, step)
  {
    match step
    case Recover(ids, _, _) => if id in ids then t.(recoveries := t.recoveries + 1) else t
    case Commit(k) =>
      if s.attempts[k].phase.Updated? && s.attempts[k].c.id == id then t.(claims := t.claims + 1) else t
    case MarkSucceeded(k, _) => SuccessTally(s, s.attempts[k].c, id, t)
    case MarkSucceededError(k, applied, _) => if applied then SuccessTally(s, s.attempts[k].c, id, t) else t
    case MarkFailed(k, _, _) => FailureTally(s, s.attempts[k].c, id, t)
    case MarkFailedError(k, applied, _, _) => if applied then FailureTally(s, s.attempts[k].c, id, t) else t
    case _ => t
  }

  function SuccessTally(s: State, c: Candidate, id: RowId, t: Tally): Tally {
    if c.id == id && Matches(s.table, id, c.version + 1) then t.(successes := t.successes + 1) else t
  }

  function FailureTally(s: State, c: Candidate, id: RowId, t: Tally): Tally {
    if c.id == id && Matches(s.table, id, c.version + 1) then t.(failures := t.failures + 1) else t
  }

  function Apply(cfg: Config, s: State, step: Step): State
    requires Enabled(cfg, s, step)
  {
    var table := TableAfter(cfg, s, step);
    State(
      table,
      GateAfter(cfg, s, step),
      if step.Poll?
      then s.seen + set id | id in step.batch && id in s.table :: CandidateOf(id, s.table[id])
      else s.seen,
      AttemptsAfter(cfg, s, step),
      map id | id in table ::
        if id in s.tally then TallyAfter(cfg, s, step, id, s.tally[id]) else Tally(0, 0, 0, 0))
  }

  /** `isEmpty()`: the count of rows that are processing or have attempts left is zero. */
  function OutstandingIds(cfg: Config, table: Table): set<RowId> {
    set id | id in table && (table[id].status == Processing || HasAttemptsLeft(cfg, table[id]))
  }

  predicate IsEmpty(cfg: Config, table: Table) {
    |OutstandingIds(cfg, table)| == 0
  }

  ghost predicate Init(s: State) {
    s == State(map[], map[], {}, map[], map[])
  }

  /** The `i`-th step leads from the `i`-th state to the next. */
  ghost predicate IsStep(cfg: Config, states: seq<State>, steps: seq<Step>, i: nat)
    requires i < |steps| < |states|
  {
    Enabled(cfg, states[i], steps[i]) && states[i + 1] == Apply(cfg, states[i], steps[i])
  }

  /** A run: the states reached from the empty queue by `steps`, in order. */
  ghost predicate IsRun(cfg: Config, states: seq<State>, steps: seq<Step>) {
    && |states| == |steps| + 1
    && Init(states[0])
    && forall i: nat | i < |steps| :: IsStep(cfg, states, steps, i)
  }
}
