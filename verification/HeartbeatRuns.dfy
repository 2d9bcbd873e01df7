/** The heartbeat's timing inside the runs of the queue: a worker whose renewals keep to the schedule never
  * loses its row while its task is executing. */
module HeartbeatRuns {
  import opened Prelude
  import opened QueueModel
  import opened QueueSafety
  import opened QueueRuns
  import HB = Heartbeat

  /** `at[n]` is the time at which step `n` takes effect, on the one clock that the workers read. A recovery
    * takes its reading before its statement. */
  ghost predicate IsClock(steps: seq<Step>, at: seq<int>) {
    && |at| == |steps|
    && (forall m, n | 0 <= m <= n < |at| :: at[m] <= at[n])
    && (forall n | 0 <= n < |steps| :: steps[n].Recover? ==> steps[n].readAt <= at[n])
  }

  /** Step `p` commits the claim of attempt `k`. */
  predicate Claims(states: seq<State>, steps: seq<Step>, p: nat, k: AttemptId) {
    p < |steps| && p < |states| && steps[p] == Commit(k) && k in states[p].attempts && states[p].attempts[k].phase.Updated?
  }

  /** The writes of `updated_at` by attempt `k`, from its claim to before step `n`. */
  function WritesOf(states: seq<State>, steps: seq<Step>, at: seq<int>, k: AttemptId, p: nat, n: nat): (writes: seq<HB.Write>)
    requires Claims(states, steps, p, k) && p < n <= |steps| == |at|
    ensures |writes| > 0
  {
    if n == p + 1 then [HB.Write(states[p].attempts[k].phase.stamp, at[p])]
    else
      WritesOf(states, steps, at, k, p, n - 1)
      + if steps[n - 1].Heartbeat? && steps[n - 1].k == k then [HB.Write(steps[n - 1].stamp, at[n - 1])] else []
  }

  /** Before step `n`, attempt `k` has written as scheduled, and the step is no later than its next write. */
  ghost predicate InTimeAt(states: seq<State>, steps: seq<Step>, at: seq<int>, k: AttemptId, p: nat, n: nat, schedule: seq<HB.Write>)
    requires Claims(states, steps, p, k) && p < n < |steps| == |at|
  {
    var writes := WritesOf(states, steps, at, k, p, n);
    writes <= schedule && |writes| < |schedule| && at[n] <= schedule[|writes|].effect
  }

  /** A schedule of renewals whose slack is at most `bound`, with the interval plus that slack below the stale
    * threshold. */
  ghost predicate IsSafeSchedule(cfg: Config, first: HB.Write, beats: seq<HB.Beat>, bound: nat) {
    HB.SlackWithin(first, beats, bound) && HB.Interval(cfg.staleClaimMs) + bound < cfg.staleClaimMs
  }

  /** From its claim on, up to state `i`, attempt `k` executes its task, and its heartbeats are in time. */
  ghost predicate ExecutesInTime(states: seq<State>, steps: seq<Step>, at: seq<int>, k: AttemptId, p: nat, i: nat, schedule: seq<HB.Write>)
    requires Claims(states, steps, p, k) && p < i <= |steps| == |at| && |steps| < |states|
  {
    && (forall n | p < n <= i :: IsExecuting(states[n], k))
    && (forall n | p < n < i :: InTimeAt(states, steps, at, k, p, n, schedule))
  }

  /** Attempt `k` has its row, stamped by its last write. */
  ghost predicate HoldsAt(states: seq<State>, steps: seq<Step>, at: seq<int>, k: AttemptId, p: nat, n: nat)
    requires Claims(states, steps, p, k) && p < n <= |steps| == |at| && |steps| < |states|
  {
    var writes := WritesOf(states, steps, at, k, p, n);
    k in states[n].attempts && Holds(states[n], k, writes[|writes| - 1].stamp)
  }

  predicate IsExecuting(s: State, k: AttemptId) {
    k in s.attempts && s.attempts[k].phase == Executing(false)
  }

  /** Attempt `k` still has its row, stamped `stamp`. */
  predicate Holds(s: State, k: AttemptId, stamp: int)
    requires k in s.attempts
  {
    var c := s.attempts[k].c;
    Matches(s.table, c.id, c.version + 1) && s.table[c.id].status == Processing && s.table[c.id].updatedAt == stamp
  }

  /** A step of somebody else that is not a recovery of the row leaves a live claim's row alone. */
  lemma OthersLeaveClaim(cfg: Config, s: State, step: Step, k: AttemptId)
    requires Inv(cfg, s) && Enabled(cfg, s, step) && IsExecuting(s, k) && Actor(step) != Some(k)
    requires Matches(s.table, s.attempts[k].c.id, s.attempts[k].c.version + 1)
    requires s.table[s.attempts[k].c.id].status == Processing
    requires step.Recover? ==> s.attempts[k].c.id !in step.ids
    ensures var id := s.attempts[k].c.id; id in TableAfter(cfg, s, step) && TableAfter(cfg, s, step)[id] == s.table[id]
  {
    var c := s.attempts[k].c;
    assert CandidateOk(cfg, s.table, c);
    if step.PushBack? {
      assert CandidateOk(cfg, s.table, step.c);
    } else if Actor(step).Some? && !step.Begin? {
      OtherWorkerLeavesClaim(cfg, s, step, k);
    }
  }

  lemma OtherWorkerLeavesClaim(cfg: Config, s: State, step: Step, k: AttemptId)
    requires Inv(cfg, s) && Enabled(cfg, s, step) && IsExecuting(s, k)
    requires Actor(step).Some? && !step.Begin? && step.k != k
    requires Matches(s.table, s.attempts[k].c.id, s.attempts[k].c.version + 1)
    requires s.table[s.attempts[k].c.id].status == Processing
    ensures var id := s.attempts[k].c.id; id in TableAfter(cfg, s, step) && TableAfter(cfg, s, step)[id] == s.table[id]
  {
    if s.attempts[step.k].phase.HoldsGate() {
      CommitLeavesProcessing(cfg, s, step, s.attempts[k].c.id);
    } else {
      OtherClaimWritesNothing(cfg, s, step, k);
    }
  }

  /** A statement of a claim transaction leaves a row alone that is `processing`. */
  lemma CommitLeavesProcessing(cfg: Config, s: State, step: Step, id: RowId)
    requires Enabled(cfg, s, step) && Actor(step).Some? && !step.Begin? && s.attempts[step.k].phase.HoldsGate()
    requires id in s.table && s.table[id].status == Processing
    ensures id in TableAfter(cfg, s, step) && TableAfter(cfg, s, step)[id] == s.table[id]
  {
  }

  lemma OtherClaimWritesNothing(cfg: Config, s: State, step: Step, k: AttemptId)
    requires ClaimsUnique(s) && Enabled(cfg, s, step) && IsExecuting(s, k)
    requires Actor(step).Some? && !step.Begin? && step.k != k && !s.attempts[step.k].phase.HoldsGate()
    requires Matches(s.table, s.attempts[k].c.id, s.attempts[k].c.version + 1)
    ensures var id := s.attempts[k].c.id; id in TableAfter(cfg, s, step) && TableAfter(cfg, s, step)[id] == s.table[id]
  {
    var c, other := s.attempts[k].c, s.attempts[step.k];
    assert other.phase.IsClaimed() && other.c.id == c.id ==> other.c.version != c.version;
  }

  /** The claim's own step: an executing attempt that goes on executing has renewed its row. */
  lemma OwnStepRenews(cfg: Config, s: State, step: Step, k: AttemptId, stamp: int)
    requires Enabled(cfg, s, step) && IsExecuting(s, k) && Holds(s, k, stamp) && Actor(step) == Some(k)
    requires IsExecuting(Apply(cfg, s, step), k)
    ensures step.Heartbeat? && Holds(Apply(cfg, s, step), k, step.stamp)
  {
  }

  lemma ClaimHolds(cfg: Config, states: seq<State>, steps: seq<Step>, p: nat, k: AttemptId)
    requires IsRun(cfg, states, steps) && Claims(states, steps, p, k)
    ensures k in states[p + 1].attempts && Holds(states[p + 1], k, states[p].attempts[k].phase.stamp)
  {
    RunInv(cfg, states, steps, p);
    assert IsStep(cfg, states, steps, p);
    assert InsideOk(cfg, states[p].table, states[p].attempts[k]);
  }

  /** The last write so far took effect by now. */
  lemma LastWriteIsPast(states: seq<State>, steps: seq<Step>, at: seq<int>, k: AttemptId, p: nat, n: nat)
    requires Claims(states, steps, p, k) && p < n <= |steps| == |at| && IsClock(steps, at)
    ensures var writes := WritesOf(states, steps, at, k, p, n); writes[|writes| - 1].effect <= at[n - 1]
  {
    if n > p + 1 {
      LastWriteIsPast(states, steps, at, k, p, n - 1);
    }
  }

  /** No recovery that comes before the scheduled next write finds the row stale. */
  lemma NotStale(cfg: Config, states: seq<State>, steps: seq<Step>, at: seq<int>, k: AttemptId, p: nat, n: nat,
                 first: HB.Write, beats: seq<HB.Beat>, bound: nat)
    requires Claims(states, steps, p, k) && p < n < |steps| == |at| && |steps| < |states| && IsClock(steps, at)
    requires IsSafeSchedule(cfg, first, beats, bound) && HoldsAt(states, steps, at, k, p, n)
    requires InTimeAt(states, steps, at, k, p, n, HB.Writes(cfg.staleClaimMs, first, beats))
    requires steps[n].Recover? && Enabled(cfg, states[n], steps[n])
    ensures states[n].attempts[k].c.id !in steps[n].ids
  {
    var writes, schedule := WritesOf(states, steps, at, k, p, n), HB.Writes(cfg.staleClaimMs, first, beats);
    var id := states[n].attempts[k].c.id;
    var row, j := states[n].table[id], |writes| - 1;
    LastWriteIsPast(states, steps, at, k, p, n);
    HB.InTime(cfg, row, first, beats, bound);
    assert !HB.FoundStale(cfg, row, schedule, j, steps[n].readAt, at[n]);
    assert row.(updatedAt := schedule[j].stamp) == row;
  }

  lemma NextStepHolds(cfg: Config, states: seq<State>, steps: seq<Step>, at: seq<int>, k: AttemptId, p: nat, n: nat)
    requires IsRun(cfg, states, steps) && |at| == |steps| && Claims(states, steps, p, k) && p < n < |steps|
    requires IsExecuting(states[n], k) && IsExecuting(states[n + 1], k) && HoldsAt(states, steps, at, k, p, n)
    requires steps[n].Recover? ==> states[n].attempts[k].c.id !in steps[n].ids
    ensures HoldsAt(states, steps, at, k, p, n + 1)
  {
    var writes := WritesOf(states, steps, at, k, p, n);
    RunStepHolds(cfg, states, steps, n, k, writes[|writes| - 1].stamp);
  }

  lemma RunStepHolds(cfg: Config, states: seq<State>, steps: seq<Step>, n: nat, k: AttemptId, stamp: int)
    requires IsRun(cfg, states, steps) && n < |steps| && IsExecuting(states[n], k) && IsExecuting(states[n + 1], k)
    requires Holds(states[n], k, stamp) && (steps[n].Recover? ==> states[n].attempts[k].c.id !in steps[n].ids)
    ensures Actor(steps[n]) == Some(k) ==> steps[n].Heartbeat?
    ensures Holds(states[n + 1], k, if Actor(steps[n]) == Some(k) then steps[n].stamp else stamp)
  {
    RunInv(cfg, states, steps, n);
    assert IsStep(cfg, states, steps, n);
    StepHolds(cfg, states[n], steps[n], k, stamp);
  }

  lemma StepHolds(cfg: Config, s: State, step: Step, k: AttemptId, stamp: int)
    requires Inv(cfg, s) && Enabled(cfg, s, step) && IsExecuting(s, k) && IsExecuting(Apply(cfg, s, step), k)
    requires Holds(s, k, stamp) && (step.Recover? ==> s.attempts[k].c.id !in step.ids)
    ensures Actor(step) == Some(k) ==> step.Heartbeat?
    ensures Holds(Apply(cfg, s, step), k, if Actor(step) == Some(k) then step.stamp else stamp)
  {
    if Actor(step) == Some(k) {
      OwnStepRenews(cfg, s, step, k, stamp);
    } else {
      OthersLeaveClaim(cfg, s, step, k);
    }
  }

  lemma StepRecoversNot(cfg: Config, states: seq<State>, steps: seq<Step>, at: seq<int>, k: AttemptId, p: nat, n: nat,
                        first: HB.Write, beats: seq<HB.Beat>, bound: nat)
    requires IsRun(cfg, states, steps) && IsClock(steps, at) && Claims(states, steps, p, k) && p < n < |steps|
    requires IsSafeSchedule(cfg, first, beats, bound) && HoldsAt(states, steps, at, k, p, n)
    requires InTimeAt(states, steps, at, k, p, n, HB.Writes(cfg.staleClaimMs, first, beats))
    ensures steps[n].Recover? ==> states[n].attempts[k].c.id !in steps[n].ids
  {
    if steps[n].Recover? {
      assert IsStep(cfg, states, steps, n);
      NotStale(cfg, states, steps, at, k, p, n, first, beats, bound);
    }
  }

  lemma {:induction false} HoldsThroughout(
    cfg: Config, states: seq<State>, steps: seq<Step>, at: seq<int>, k: AttemptId, p: nat, i: nat,
    first: HB.Write, beats: seq<HB.Beat>, bound: nat)
    requires IsRun(cfg, states, steps) && IsClock(steps, at) && Claims(states, steps, p, k) && p < i <= |steps|
    requires IsSafeSchedule(cfg, first, beats, bound)
    requires ExecutesInTime(states, steps, at, k, p, i, HB.Writes(cfg.staleClaimMs, first, beats))
    ensures HoldsAt(states, steps, at, k, p, i)
    decreases i
  {
    if i == p + 1 {
      ClaimHolds(cfg, states, steps, p, k);
    } else {
      HoldsThroughout(cfg, states, steps, at, k, p, i - 1, first, beats, bound);
      StepRecoversNot(cfg, states, steps, at, k, p, i - 1, first, beats, bound);
      NextStepHolds(cfg, states, steps, at, k, p, i - 1);
    }
  }

  /** In every run: while an attempt executes its task and its heartbeats keep to a safe schedule, it has its
    * row, and no recovery takes it. */
  lemma ExecutingIsNeverRecovered(
    cfg: Config, states: seq<State>, steps: seq<Step>, at: seq<int>, k: AttemptId, p: nat, i: nat, n: nat,
    first: HB.Write, beats: seq<HB.Beat>, bound: nat)
    requires IsRun(cfg, states, steps) && IsClock(steps, at) && Claims(states, steps, p, k) && p < n < i <= |steps|
    requires IsSafeSchedule(cfg, first, beats, bound)
    requires ExecutesInTime(states, steps, at, k, p, i, HB.Writes(cfg.staleClaimMs, first, beats))
    ensures HoldsAt(states, steps, at, k, p, n)
    ensures steps[n].Recover? ==> states[n].attempts[k].c.id !in steps[n].ids
  {
    HoldsThroughout(cfg, states, steps, at, k, p, n, first, beats, bound);
    StepRecoversNot(cfg, states, steps, at, k, p, n, first, beats, bound);
  }
}
