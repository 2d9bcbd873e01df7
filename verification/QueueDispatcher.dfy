/** `TaskQueueDispatcher` in its own, stepwise form. The database keeps, as ghost state, the run of the
  * protocol that led to its contents. Between any two of its awaits every other worker, and every
  * execution this process has already started, may take any number of steps (`Await`). Each method is
  * proved to extend the run by protocol steps only, so everything proved about runs holds for it. */
module QueueDispatcher {
  import opened Prelude
  import opened QueueModel
  import opened QueueRuns
  import LC = LocalCounter

  predicate Spares(step: Step, mine: AttemptId) {
    Actor(step) != Some(mine)
  }

  ghost predicate SameAttempt(a: State, b: State, k: AttemptId) {
    (k in a.attempts <==> k in b.attempts) && (k in a.attempts ==> b.attempts[k] == a.attempts[k])
  }

  /** `b` is `a` with more steps taken, none of them by an attempt in `mine`. */
  ghost predicate Extends(a: seq<Step>, b: seq<Step>, mine: Option<AttemptId>) {
    a <= b && (mine.Some? ==> forall i | |a| <= i < |b| :: Spares(b[i], mine.value))
  }

  lemma {:induction false} RunExtended(cfg: Config, states: seq<State>, steps: seq<Step>, i: nat, j: nat, mine: Option<AttemptId>)
    requires IsRun(cfg, states, steps) && i <= j < |states|
    requires mine.Some? ==> forall n | i <= n < j :: Spares(steps[n], mine.value)
    ensures states[i].seen <= states[j].seen
    ensures mine.Some? ==> SameAttempt(states[i], states[j], mine.value)
    decreases j - i
  {
    if i < j {
      RunExtended(cfg, states, steps, i, j - 1, mine);
      assert IsStep(cfg, states, steps, j - 1);
    }
  }

  lemma RunSnoc(cfg: Config, states: seq<State>, steps: seq<Step>, step: Step)
    requires IsRun(cfg, states, steps) && Enabled(cfg, states[|steps|], step)
    ensures IsRun(cfg, states + [Apply(cfg, states[|steps|], step)], steps + [step])
  {
    var states', steps' := states + [Apply(cfg, states[|steps|], step)], steps + [step];
    forall i: nat | i < |steps'| ensures IsStep(cfg, states', steps', i) {
      if i < |steps| {
        assert IsStep(cfg, states, steps, i);
      }
    }
  }

  datatype ClaimResult = Claimed(claimedVersion: nat) | NotClaimed | ClaimThrew
  datatype Outcome = Dispatched | Failed | Lost | Threw

  class Database {
    const cfg: Config
    var state: State
    ghost var states: seq<State>
    ghost var steps: seq<Step>
    /** How many statements of this process have failed. */
    ghost var faults: nat

    /** The contents are those reached by the recorded run. */
    ghost predicate Valid()
      reads this
    {
      IsRun(cfg, states, steps) && states[|steps|] == state
    }

    constructor (cfg: Config)
      ensures Valid() && this.cfg == cfg && steps == [] && Init(state) && faults == 0
    {
      this.cfg := cfg;
      state := State(map[], map[], {}, map[], map[]);
      states := [State(map[], map[], {}, map[], map[])];
      steps := [];
      faults := 0;
    }

    /** One statement. */
    method Execute(step: Step)
      requires Valid() && Enabled(cfg, state, step)
      modifies this
      ensures Valid() && steps == old(steps) + [step] && old(states) <= states && faults == old(faults)
      ensures state.table == TableAfter(cfg, old(state), step)
      ensures state.attempts == AttemptsAfter(cfg, old(state), step)
      ensures old(state.seen) <= state.seen
      ensures step.Poll? ==> forall id <- step.batch :: CandidateOf(id, state.table[id]) in state.seen
    {
      RunSnoc(cfg, states, steps, step);
      state := Apply(cfg, state, step);
      states := states + [state];
      steps := steps + [step];
    }

    /** Whether the next statement of this process fails; one that cannot go on does. */
    method Fails(stuck: bool) returns (fails: bool)
      requires Valid()
      modifies this`faults
      ensures Valid() && (stuck ==> fails)
      ensures faults == old(faults) + (if fails then 1 else 0)
    {
      fails := *;
      fails := fails || stuck;
      faults := faults + (if fails then 1 else 0);
    }
  }

  /** How a poll has handled a candidate. The numbers are positions in the run and in the counter's history. */
  datatype Handling =
    | PushedBack(at: nat)
    | AtLimit(read: nat)
    | Won(k: AttemptId, begin: nat, commit: nat, event: nat)
    | NotWon(k: AttemptId, begin: nat, count: nat, update: Option<nat>, event: nat)

  function WonIn(handled: seq<Handling>): seq<AttemptId> {
    if handled == [] then []
    else WonIn(handled[..|handled| - 1]) + if handled[|handled| - 1].Won? then [handled[|handled| - 1].k] else []
  }

  /** A run of the queue and a history of the local counter. */
  datatype Record = Record(states: seq<State>, steps: seq<Step>, counters: seq<LC.Counter>, events: seq<LC.Event>) {
    predicate WellFormed() { |states| == |steps| + 1 && |counters| == |events| + 1 }
    predicate Extends(r: Record) { r.states <= states && r.steps <= steps && r.counters <= counters && r.events <= events }
  }

  /** The row is pending or failed, at the candidate's version. */
  predicate IsOpen(table: Table, c: Candidate) {
    c.id in table && table[c.id].version == c.version && table[c.id].status in {Pending, QueueModel.Failed}
  }

  /** At step `n`, the COUNT of attempt `k`, the task is at its limit or above. */
  predicate FindsFull(cfg: Config, r: Record, k: AttemptId, c: Candidate, n: nat) {
    && n < |r.steps| && n < |r.states| && r.steps[n] == Count(k)
    && c.taskId in cfg.registry && |InProcess(r.states[n].table, c.taskId)| >= cfg.registry[c.taskId]
  }

  function InProcess(table: Table, t: TaskId): set<RowId> {
    set id | id in table && table[id].request.taskId == t && table[id].status == Processing
  }

  lemma CountIsInProcess(table: Table, t: TaskId)
    ensures ProcessingCount(table, t) == |InProcess(table, t)|
  {
    assert ProcessingIds(table, t) == InProcess(table, t);
  }

  /** At step `u`, the UPDATE of attempt `k`, the row is no longer as the candidate describes it. */
  predicate FindsTaken(r: Record, k: AttemptId, c: Candidate, u: nat) {
    && u < |r.steps| && u < |r.states| && r.steps[u].Update? && r.steps[u].k == k
    && !IsOpen(r.states[u].table, c)
  }

  /** Step `n` commits the claim of attempt `k`. */
  predicate CommitsOwn(r: Record, k: AttemptId, n: nat) {
    && n < |r.steps| && n < |r.states| && r.steps[n] == Commit(k)
    && k in r.states[n].attempts && r.states[n].attempts[k].phase.Updated?
  }

  /** What each handling says, of steps from `s` and events from `e` on: an unregistered candidate has been
    * pushed back; of a registered one the task was at its local limit, or its claim was begun and won, or lost
    * because the task was full or the row taken. */
  predicate Handles(cfg: Config, r: Record, s: nat, e: nat, c: Candidate, h: Handling)
    requires r.WellFormed()
  {
    match h
    case PushedBack(at) => c.taskId !in cfg.registry && s <= at < |r.steps| && r.steps[at].PushBack? && r.steps[at].c == c
    case AtLimit(read) =>
      && c.taskId in cfg.registry && e <= read < |r.events| && r.events[read] == LC.Read(c.taskId)
      && LC.Get(r.counters[read].inFlight, c.taskId, 0) >= cfg.registry[c.taskId]
    case Won(k, begin, commit, event) =>
      && c.taskId in cfg.registry && s <= begin < commit < |r.steps| && r.steps[begin] == Begin(k, c)
      && CommitsOwn(r, k, commit) && e <= event < |r.events| && r.events[event] == LC.ClaimWon
    case NotWon(k, begin, count, update, event) =>
      && c.taskId in cfg.registry && s <= begin < count < |r.steps| && r.steps[begin] == Begin(k, c)
      && (FindsFull(cfg, r, k, c, count) || (update.Some? && FindsTaken(r, k, c, update.value)))
      && e <= event < |r.events| && r.events[event] == LC.ClaimLost
  }

  /** The row still belongs to the claim of `c`. */
  predicate IsHeld(table: Table, c: Candidate) {
    c.id in table && table[c.id].version == c.version + 1
  }

  predicate FindsGoneIn(r: Record, n: nat, c: Candidate) {
    n < |r.states| && !(IsHeld(r.states[n].table, c) && r.states[n].table[c.id].status == Processing)
  }

  predicate AreRenewalsIn(r: Record, k: AttemptId, s: nat, renewals: seq<nat>) {
    && (forall n <- renewals :: s <= n < |r.steps| && n < |r.states| && r.steps[n].Heartbeat? && r.steps[n].k == k)
    && (forall i, j | 0 <= i < j < |renewals| :: renewals[i] < renewals[j])
  }

  lemma RenewalsStay(before: Record, after: Record, k: AttemptId, s: nat, renewals: seq<nat>, c: Candidate)
    requires after.Extends(before) && AreRenewalsIn(before, k, s, renewals)
    ensures AreRenewalsIn(after, k, s, renewals)
    ensures forall n <- renewals :: FindsGoneIn(after, n, c) <==> FindsGoneIn(before, n, c)
  {
  }

  lemma RenewalsSnoc(before: Record, after: Record, k: AttemptId, s: nat, renewals: seq<nat>, n: nat)
    requires after.Extends(before) && AreRenewalsIn(before, k, s, renewals) && s <= |before.steps| <= n < |after.steps|
    requires n < |after.states| && after.steps[n].Heartbeat? && after.steps[n].k == k
    ensures AreRenewalsIn(after, k, s, renewals + [n]) && (renewals + [n])[..|renewals|] == renewals
  {
    forall i | 0 <= i < |renewals| ensures renewals[i] < n {
      assert renewals[i] in renewals;
    }
  }

  lemma HandlesStays(cfg: Config, r: Record, r': Record, s: nat, e: nat, c: Candidate, h: Handling)
    requires r.WellFormed() && r'.WellFormed() && r'.Extends(r) && Handles(cfg, r, s, e, c, h)
    ensures Handles(cfg, r', s, e, c, h)
  {
  }

  /** Every candidate has been handled, in order. */
  ghost predicate AllHandled(cfg: Config, r: Record, s: nat, e: nat, candidates: seq<Candidate>, handled: seq<Handling>)
    requires r.WellFormed()
  {
    |handled| == |candidates| && forall i | 0 <= i < |handled| :: Handles(cfg, r, s, e, candidates[i], handled[i])
  }

  lemma AllHandledStays(cfg: Config, r: Record, r': Record, s: nat, e: nat, candidates: seq<Candidate>, handled: seq<Handling>)
    requires r.WellFormed() && r'.WellFormed() && r'.Extends(r) && AllHandled(cfg, r, s, e, candidates, handled)
    ensures AllHandled(cfg, r', s, e, candidates, handled)
  {
    forall i | 0 <= i < |handled| ensures Handles(cfg, r', s, e, candidates[i], handled[i]) {
      HandlesStays(cfg, r, r', s, e, candidates[i], handled[i]);
    }
  }

  lemma OneMoreHandled(cfg: Config, r: Record, s: nat, e: nat, s': nat, e': nat,
                       candidates: seq<Candidate>, i: nat, handled: seq<Handling>, h: Handling)
    requires r.WellFormed() && s <= s' && e <= e' && i < |candidates|
    requires AllHandled(cfg, r, s, e, candidates[..i], handled) && Handles(cfg, r, s', e', candidates[i], h)
    ensures AllHandled(cfg, r, s, e, candidates[..i + 1], handled + [h])
    ensures WonIn(handled + [h]) == WonIn(handled) + if h.Won? then [h.k] else []
  {
    assert (handled + [h])[..i] == handled;
    forall j | 0 <= j < i ensures Handles(cfg, r, s, e, candidates[j], handled[j]) {
      assert candidates[..i][j] == candidates[j];
    }
  }

  class TaskQueueDispatcher {
    const cfg: Config
    const db: Database
    /** `counter.inFlight` is the source's map; the rest of `counter` is bookkeeping. */
    var counter: LC.Counter
    ghost var counters: seq<LC.Counter>
    ghost var events: seq<LC.Event>

    ghost predicate Valid()
      reads this, db
    {
      && db.cfg == cfg && db.Valid() && LC.Valid(cfg.registry, counter)
      && LC.IsHistory(cfg.registry, counters, events) && counters[|events|] == counter
    }

    constructor (db: Database)
      requires db.Valid()
      ensures Valid() && this.db == db && counter == LC.START && events == []
    {
      this.cfg := db.cfg;
      this.db := db;
      this.counter := LC.START;
      this.counters := [LC.START];
      this.events := [];
    }

    ghost function Now(): Record
      reads this, db
    {
      Record(db.states, db.steps, counters, events)
    }

    method IsoNow() returns (now: int) {
      now := *;
    }

    /** Something happens to the local counter. */
    method Observe(e: LC.Event)
      requires Valid() && LC.CanHappen(counter, e)
      modifies this
      ensures Valid() && counter == LC.Next(cfg.registry, old(counter), e)
      ensures events == old(events) + [e] && counters == old(counters) + [counter]
    {
      LC.NextKeepsValid(cfg.registry, counter, e);
      LC.HistorySnoc(cfg.registry, counters, events, e);
      counter := LC.Next(cfg.registry, counter, e);
      counters := counters + [counter];
      events := events + [e];
    }

    /** Whatever happens while this process waits: callers know no more than this contract says. Executions
      * of this process may settle meanwhile, and statements of others may fail. */
    method Await(ghost mine: Option<AttemptId>)
      requires Valid()
      modifies this, db
      ensures Valid() && counter.pending == old(counter.pending) && db.faults == old(db.faults)
      ensures Now().Extends(old(Now())) && Extends(old(db.steps), db.steps, mine)
      ensures forall i | |old(events)| <= i < |events| :: events[i].Settle? || events[i].Reject?
    {
    }

    /** The await before the next statement of attempt `k`. */
    method AwaitAs(ghost k: AttemptId)
      requires Valid()
      modifies this, db
      ensures Valid() && counter.pending == old(counter.pending) && db.faults == old(db.faults)
      ensures Now().Extends(old(Now()))
      ensures old(db.state.seen) <= db.state.seen && SameAttempt(old(db.state), db.state, k)
    {
      ghost var n := |db.steps|;
      Await(Some(k));
      RunExtended(cfg, db.states, db.steps, n, |db.steps|, Some(k));
    }

    /** The same, and whether that statement fails. */
    method AwaitNext(ghost k: AttemptId) returns (fails: bool)
      requires Valid()
      modifies this, db
      ensures Valid() && counter.pending == old(counter.pending) && Now().Extends(old(Now()))
      ensures db.faults == old(db.faults) + (if fails then 1 else 0)
      ensures old(db.state.seen) <= db.state.seen && SameAttempt(old(db.state), db.state, k)
    {
      AwaitAs(k);
      fails := db.Fails(false);
    }

    /** An await of this process that is not one of an attempt. */
    method AwaitIdle()
      requires Valid()
      modifies this, db
      ensures Valid() && counter.pending == old(counter.pending) && db.faults == old(db.faults)
      ensures Now().Extends(old(Now())) && old(db.state.seen) <= db.state.seen
    {
      ghost var n := |db.steps|;
      Await(None);
      RunExtended(cfg, db.states, db.steps, n, |db.steps|, None);
    }

    // ---------- claiming ----------

    /** The claim `k` is won: it has committed, and its execution may start. */
    ghost predicate IsWon(k: AttemptId, c: Candidate, claim: ClaimResult, commit: nat)
      reads this, db
    {
      && claim == Claimed(c.version + 1) && CommitsOwn(Now(), k, commit)
      && k in db.state.attempts && db.state.attempts[k] == Attempt(c, Executing(false))
    }

    /** The claim transaction, statement by statement. Any statement may fail, and a gate that stays locked
      * ends in a lock timeout; then, and only then, the transaction is rolled back and the error passed on.
      * Otherwise the claim is won exactly if the COUNT found room and the UPDATE found the row open. */
    method AttemptClaim(k: AttemptId, c: Candidate) returns (claim: ClaimResult, ghost count: nat, ghost update: Option<nat>, ghost commit: nat)
      requires Valid() && c in db.state.seen && c.taskId in cfg.registry && k !in db.state.attempts
      modifies this, db
      ensures Valid() && Now().Extends(old(Now())) && counter.pending == old(counter.pending)
      ensures old(db.state.seen) <= db.state.seen
      ensures |db.steps| > |old(db.steps)| && db.steps[|old(db.steps)|] == Begin(k, c)
      ensures db.faults >= old(db.faults) && (claim.ClaimThrew? <==> db.faults > old(db.faults))
      ensures claim.Claimed? ==> IsWon(k, c, claim, commit) && |old(db.steps)| < commit
      ensures !claim.Claimed? ==> k !in db.state.attempts
      ensures !claim.ClaimThrew? ==>
                && |old(db.steps)| < count < |db.steps| && db.steps[count] == Count(k)
                && (claim.NotClaimed? <==>
                      FindsFull(cfg, Now(), k, c, count) || (update.Some? && FindsTaken(Now(), k, c, update.value)))
    {
      count, update, commit := 0, None, 0;
      db.Execute(Begin(k, c));
      var fails := EnterGate(k, c);
      if fails {
        return ClaimThrew, count, update, commit;
      }
      claim, count, update, commit := CountUnderGate(k, c);
    }

    /** The lock on the gate row; one that another transaction keeps is not waited for without end. */
    method EnterGate(k: AttemptId, c: Candidate) returns (fails: bool)
      requires Valid() && k in db.state.attempts && db.state.attempts[k] == Attempt(c, Begun)
      modifies this, db
      ensures Valid() && Now().Extends(old(Now())) && counter.pending == old(counter.pending)
      ensures old(db.state.seen) <= db.state.seen
      ensures db.faults == old(db.faults) + (if fails then 1 else 0)
      ensures if fails then k !in db.state.attempts
              else k in db.state.attempts && db.state.attempts[k] == Attempt(c, GateHeld)
    {
      AwaitAs(k);
      fails := db.Fails(c.taskId in db.state.gate);
      if fails {
        RollBack(k);
      } else {
        db.Execute(TakeGate(k));
      }
    }

    /** The COUNT, with the gate held, and what depends on it. */
    method CountUnderGate(k: AttemptId, c: Candidate) returns (claim: ClaimResult, ghost count: nat, ghost update: Option<nat>, ghost commit: nat)
      requires Valid() && k in db.state.attempts && db.state.attempts[k] == Attempt(c, GateHeld)
      requires c.taskId in cfg.registry
      modifies this, db
      ensures Valid() && Now().Extends(old(Now())) && counter.pending == old(counter.pending)
      ensures old(db.state.seen) <= db.state.seen
      ensures db.faults >= old(db.faults) && (claim.ClaimThrew? <==> db.faults > old(db.faults))
      ensures claim.Claimed? ==> IsWon(k, c, claim, commit) && |old(db.steps)| <= commit
      ensures !claim.Claimed? ==> k !in db.state.attempts
      ensures !claim.ClaimThrew? ==>
                && |old(db.steps)| <= count < |db.steps| && db.steps[count] == Count(k)
                && (claim.NotClaimed? <==>
                      FindsFull(cfg, Now(), k, c, count) || (update.Some? && FindsTaken(Now(), k, c, update.value)))
    {
      count, update, commit := 0, None, 0;
      var fails := AwaitNext(k);
      if fails {
        RollBack(k);
        return ClaimThrew, count, update, commit;
      }
      claim, count, update, commit := DecideByCount(k, c);
    }

    method DecideByCount(k: AttemptId, c: Candidate) returns (claim: ClaimResult, ghost count: nat, ghost update: Option<nat>, ghost commit: nat)
      requires Valid() && k in db.state.attempts && db.state.attempts[k] == Attempt(c, GateHeld)
      requires c.taskId in cfg.registry
      modifies this, db
      ensures Valid() && Now().Extends(old(Now())) && counter.pending == old(counter.pending)
      ensures old(db.state.seen) <= db.state.seen
      ensures db.faults >= old(db.faults) && (claim.ClaimThrew? <==> db.faults > old(db.faults))
      ensures claim.Claimed? ==> IsWon(k, c, claim, commit) && |old(db.steps)| <= commit
      ensures !claim.Claimed? ==> k !in db.state.attempts
      ensures count == |old(db.steps)| < |db.steps| && db.steps[count] == Count(k)
      ensures !claim.ClaimThrew? ==>
                (claim.NotClaimed? <==>
                   FindsFull(cfg, Now(), k, c, count) || (update.Some? && FindsTaken(Now(), k, c, update.value)))
    {
      update, commit := None, 0;
      count := |db.steps|;
      var processing := ProcessingCount(db.state.table, c.taskId);
      CountIsInProcess(db.state.table, c.taskId);
      db.Execute(Count(k));
      if processing >= cfg.registry[c.taskId] {
        claim := EndUnclaimed(k);
        return;
      }
      ghost var u;
      claim, u, commit := ClaimUnderGate(k, c);
      update := Some(u);
    }

    /** Commit a transaction that has claimed nothing. */
    method EndUnclaimed(k: AttemptId) returns (claim: ClaimResult)
      requires Valid() && k in db.state.attempts && db.state.attempts[k].phase.Declined?
      modifies this, db
      ensures Valid() && Now().Extends(old(Now())) && counter.pending == old(counter.pending)
      ensures old(db.state.seen) <= db.state.seen && k !in db.state.attempts
      ensures db.faults >= old(db.faults)
      ensures claim == if db.faults > old(db.faults) then ClaimThrew else NotClaimed
    {
      var fails := AwaitNext(k);
      db.Execute(if fails then Abort(k) else Commit(k));
      return if fails then ClaimThrew else NotClaimed;
    }

    /** The claiming UPDATE, step `update` of the run, and the commit. */
    method ClaimUnderGate(k: AttemptId, c: Candidate) returns (claim: ClaimResult, ghost update: nat, ghost commit: nat)
      requires Valid() && k in db.state.attempts && db.state.attempts[k].c == c && db.state.attempts[k].phase.Counted?
      modifies this, db
      ensures Valid() && Now().Extends(old(Now())) && counter.pending == old(counter.pending)
      ensures old(db.state.seen) <= db.state.seen
      ensures db.faults >= old(db.faults) && (claim.ClaimThrew? <==> db.faults > old(db.faults))
      ensures claim.Claimed? ==> IsWon(k, c, claim, commit) && |old(db.steps)| <= commit
      ensures !claim.Claimed? ==> k !in db.state.attempts
      ensures !claim.ClaimThrew? ==>
                && update < |db.steps| < |db.states| && db.steps[update].Update? && db.steps[update].k == k
                && (claim.Claimed? <==> IsOpen(db.states[update].table, c))
    {
      update, commit := 0, 0;
      var fails := AwaitNext(k);
      if fails {
        RollBack(k);
        return ClaimThrew, update, commit;
      }
      var affected;
      affected, update := ClaimingUpdate(k, c);
      if affected == 0 {
        claim := EndUnclaimed(k);
        return;
      }
      claim, commit := CommitClaim(k, c);
    }

    /** The claiming UPDATE itself. */
    method ClaimingUpdate(k: AttemptId, c: Candidate) returns (affected: nat, ghost update: nat)
      requires Valid() && k in db.state.attempts && db.state.attempts[k].c == c && db.state.attempts[k].phase.Counted?
      modifies this, db
      ensures Valid() && Now().Extends(old(Now())) && counter.pending == old(counter.pending) && db.faults == old(db.faults)
      ensures old(db.state.seen) <= db.state.seen
      ensures k in db.state.attempts && db.state.attempts[k].c == c
      ensures if affected == 0 then db.state.attempts[k].phase.Declined? else db.state.attempts[k].phase.Updated?
      ensures update == |old(db.steps)| < |db.steps| < |db.states| && db.steps[update].Update? && db.steps[update].k == k
      ensures affected == 0 <==> !IsOpen(db.states[update].table, c)
    {
      update := |db.steps|;
      affected := if Claimable(db.state.table, c) then 1 else 0;
      var now := IsoNow();
      db.Execute(Update(k, now));
    }

    /** ROLLBACK of the claim transaction, after an error of one of its statements. */
    method RollBack(k: AttemptId)
      requires Valid() && k in db.state.attempts && Enabled(cfg, db.state, Abort(k))
      modifies this, db
      ensures Valid() && Now().Extends(old(Now())) && counter == old(counter) && db.faults == old(db.faults)
      ensures old(db.state.seen) <= db.state.seen && k !in db.state.attempts
      ensures db.steps == old(db.steps) + [Abort(k)]
    {
      db.Execute(Abort(k));
    }

    /** The COMMIT of a claim. One that fails may have committed: the row is then `processing`, and nobody
      * executes it until it is recovered. */
    method CommitClaim(k: AttemptId, c: Candidate) returns (claim: ClaimResult, ghost commit: nat)
      requires Valid() && k in db.state.attempts && db.state.attempts[k].c == c && db.state.attempts[k].phase.Updated?
      modifies this, db
      ensures Valid() && Now().Extends(old(Now())) && counter.pending == old(counter.pending)
      ensures old(db.state.seen) <= db.state.seen
      ensures db.faults >= old(db.faults)
      ensures if db.faults > old(db.faults) then claim.ClaimThrew? && k !in db.state.attempts
              else IsWon(k, c, claim, commit) && |old(db.steps)| <= commit
    {
      commit := 0;
      var fails := AwaitNext(k);
      var applied: bool := *;
      if fails && !applied {
        db.Execute(Abort(k));
        return ClaimThrew, commit;
      }
      commit := |db.steps|;
      db.Execute(Commit(k));
      if fails {
        db.Execute(Crash(k));
        return ClaimThrew, commit;
      }
      claim := Claimed(c.version + 1);
    }

    // ---------- executing ----------

    /** Step `n` is a renewal of attempt `k` without error. */
    ghost predicate IsRenewal(k: AttemptId, n: nat)
      reads this, db
    {
      n < |db.steps| && db.steps[n].Heartbeat? && db.steps[n].k == k
    }

    /** The heartbeat loop: until the task returns, renew the claim; stop at the first renewal that finds
      * the row taken, or fails. The `renewals` are its statements without error, in order: one for each of the
      * `beats`, unless the claim is lost; and it is lost exactly if a renewal failed or the last one found the
      * row taken. */
    method HeartbeatLoop(k: AttemptId, c: Candidate, beats: nat) returns (lostOwnership: bool, ghost renewals: seq<nat>)
      requires Valid() && k in db.state.attempts && db.state.attempts[k] == Attempt(c, Executing(false))
      modifies this, db
      ensures Valid() && Now().Extends(old(Now()))
      ensures k in db.state.attempts && db.state.attempts[k] == Attempt(c, Executing(lostOwnership))
      ensures AreRenewals(k, |old(db.steps)|, renewals) && db.faults >= old(db.faults)
      ensures !lostOwnership ==> |renewals| == beats && db.faults == old(db.faults) && AllFindHeld(renewals, c)
      ensures lostOwnership ==> if db.faults > old(db.faults) then AllFindHeld(renewals, c)
                                else renewals != [] && AllFindHeld(renewals[..|renewals| - 1], c) && FindsGone(renewals[|renewals| - 1], c)
    {
      lostOwnership, renewals := false, [];
      var i := 0;
      while i < beats && !lostOwnership
        invariant Valid() && Now().Extends(old(Now())) && db.faults >= old(db.faults)
        invariant k in db.state.attempts && db.state.attempts[k] == Attempt(c, Executing(lostOwnership))
        invariant AreRenewals(k, |old(db.steps)|, renewals)
        invariant !lostOwnership ==> |renewals| == i <= beats && db.faults == old(db.faults)
        invariant lostOwnership ==> if db.faults > old(db.faults) then AllFindHeld(renewals, c)
                                    else renewals != [] && AllFindHeld(renewals[..|renewals| - 1], c) && FindsGone(renewals[|renewals| - 1], c)
        invariant !lostOwnership ==> AllFindHeld(renewals, c)
      {
        ghost var before := Now();
        ghost var n;
        lostOwnership, n := Renew(k, c);
        RenewalsStay(before, Now(), k, |old(db.steps)|, renewals, c);
        if db.faults == old(db.faults) {
          RenewalsSnoc(before, Now(), k, |old(db.steps)|, renewals, n);
          renewals := renewals + [n];
        }
        i := i + 1;
      }
    }

    /** One renewal, step `n` of the run unless it fails. */
    method Renew(k: AttemptId, c: Candidate) returns (lostOwnership: bool, ghost n: nat)
      requires Valid() && k in db.state.attempts && db.state.attempts[k] == Attempt(c, Executing(false))
      modifies this, db
      ensures Valid() && Now().Extends(old(Now())) && db.faults >= old(db.faults)
      ensures k in db.state.attempts && db.state.attempts[k] == Attempt(c, Executing(lostOwnership))
      ensures db.faults > old(db.faults) ==> lostOwnership
      ensures db.faults == old(db.faults) ==>
                |old(db.steps)| <= n < |db.steps| && IsRenewal(k, n) && (lostOwnership <==> FindsGone(n, c))
    {
      var error := AwaitNext(k);
      var now := IsoNow();
      var applied: bool := *;
      n := |db.steps|;
      if error {
        db.Execute(HeartbeatError(k, applied, now));
        lostOwnership := true;
      } else {
        lostOwnership := !Renews(db.state.table, c);
        db.Execute(Heartbeat(k, now));
      }
    }

    /** Renewals of attempt `k` without error, in order, from step `s` on. */
    ghost predicate AreRenewals(k: AttemptId, s: nat, renewals: seq<nat>)
      reads this, db
    {
      AreRenewalsIn(Now(), k, s, renewals)
    }

    ghost predicate AllFindHeld(renewals: seq<nat>, c: Candidate)
      reads this, db
    {
      forall n <- renewals :: !FindsGone(n, c)
    }

    /** Step `n`, a renewal, finds the row taken: not `processing` at the claimed version. */
    ghost predicate FindsGone(n: nat, c: Candidate)
      reads this, db
    {
      FindsGoneIn(Now(), n, c)
    }

    /** One claimed row, from its first heartbeat to its outcome. `beats` heartbeats fall due before the
      * task returns (`ok`) or throws, at step `ret`; any statement may fail, with or without having taken
      * effect. A task that has returned is recorded as succeeded, at step `write`, unless its claim was lost or
      * that write failed; one that has thrown as failed. */
    method RunOne(k: AttemptId, c: Candidate, beats: nat, ok: bool) returns (outcome: Outcome, ghost ret: nat, ghost write: nat)
      requires Valid() && k in db.state.attempts && db.state.attempts[k] == Attempt(c, Executing(false))
      modifies this, db
      ensures Valid() && Now().Extends(old(Now())) && k !in db.state.attempts
      ensures OutcomeIsTrue(c, outcome)
      ensures |old(db.steps)| <= ret < |db.steps| < |db.states| && db.steps[ret] == Return(k, ok)
      ensures k in db.states[ret].attempts && db.states[ret].attempts[k].phase.Executing?
      ensures if db.states[ret].attempts[k].phase.lost then outcome == Lost
              else ret < write && (if ok then SuccessIsWritten(k, c, outcome, write) else FailureIsWritten(k, c, outcome, write))
      ensures db.faults == old(db.faults) && !db.states[ret].attempts[k].phase.lost ==>
                if ok then db.steps[write].MarkSucceeded? else db.steps[write].MarkFailed?
    {
      var lostOwnership;
      ghost var renewals;
      lostOwnership, renewals := HeartbeatLoop(k, c, beats);
      AwaitAs(k);
      ret := |db.steps|;
      outcome, write := Finish(k, c, lostOwnership, ok);
    }

    /** The task has returned or thrown, and the heartbeat has stopped. */
    method Finish(k: AttemptId, c: Candidate, lostOwnership: bool, ok: bool) returns (outcome: Outcome, ghost write: nat)
      requires Valid() && k in db.state.attempts && db.state.attempts[k] == Attempt(c, Executing(lostOwnership))
      modifies this, db
      ensures Valid() && Now().Extends(old(Now())) && k !in db.state.attempts && db.faults >= old(db.faults)
      ensures OutcomeIsTrue(c, outcome)
      ensures |old(db.steps)| < |db.steps| && db.steps[|old(db.steps)|] == Return(k, ok)
      ensures if lostOwnership then outcome == Lost
              else |old(db.steps)| < write && (if ok then SuccessIsWritten(k, c, outcome, write) else FailureIsWritten(k, c, outcome, write))
      ensures db.faults == old(db.faults) && !lostOwnership ==>
                if ok then db.steps[write].MarkSucceeded? else db.steps[write].MarkFailed?
    {
      write := 0;
      db.Execute(Return(k, ok));
      if lostOwnership {
        return Lost, write;
      }
      if ok {
        outcome, write := RecordSuccess(k, c);
      } else {
        outcome, write := RecordFailure(k, c);
      }
    }

    /** Step `w` writes the success of attempt `k`; without error the outcome is `Dispatched`, or `Lost` if the
      * row is no longer the claim's; behind an error it is whatever the catch block makes of it. */
    ghost predicate SuccessIsWritten(k: AttemptId, c: Candidate, outcome: Outcome, w: nat)
      reads this, db
    {
      && w < |db.steps| < |db.states|
      && ((db.steps[w].MarkSucceeded? && outcome == (if IsHeld(db.states[w].table, c) then Dispatched else Lost))
          || (db.steps[w].MarkSucceededError? && outcome != Dispatched))
      && db.steps[w].k == k
    }

    ghost predicate FailureIsWritten(k: AttemptId, c: Candidate, outcome: Outcome, w: nat)
      reads this, db
    {
      && w < |db.steps| < |db.states|
      && ((db.steps[w].MarkFailed? && outcome == (if IsHeld(db.states[w].table, c) then Outcome.Failed else Lost))
          || (db.steps[w].MarkFailedError? && outcome == Threw))
      && db.steps[w].k == k
    }

    /** The end of the try block of `runOne`; an error of its own statement falls into the catch block. */
    method RecordSuccess(k: AttemptId, c: Candidate) returns (outcome: Outcome, ghost write: nat)
      requires Valid()
      requires k in db.state.attempts && db.state.attempts[k] == Attempt(c, Marking(true))
      modifies this, db
      ensures Valid() && Now().Extends(old(Now())) && k !in db.state.attempts
      ensures OutcomeIsTrue(c, outcome) && |old(db.steps)| <= write && SuccessIsWritten(k, c, outcome, write)
      ensures db.faults >= old(db.faults) && (db.faults > old(db.faults) <==> db.steps[write].MarkSucceededError?)
    {
      var error, affected;
      error, affected, write := WriteSuccess(k, c);
      if error {
        ghost var w;
        outcome, w := RecordFailure(k, c);
      } else {
        outcome := if affected > 0 then Dispatched else Lost;
      }
    }

    /** The UPDATE to `succeeded`. */
    method WriteSuccess(k: AttemptId, c: Candidate) returns (error: bool, affected: nat, ghost write: nat)
      requires Valid() && k in db.state.attempts && db.state.attempts[k] == Attempt(c, Marking(true))
      modifies this, db
      ensures Valid() && Now().Extends(old(Now())) && db.faults == old(db.faults) + (if error then 1 else 0)
      ensures |old(db.steps)| <= write < |db.steps| < |db.states|
      ensures (if error then db.steps[write].MarkSucceededError? else db.steps[write].MarkSucceeded?) && db.steps[write].k == k
      ensures if error then k in db.state.attempts && db.state.attempts[k] == Attempt(c, Marking(false)) else k !in db.state.attempts
      ensures !error ==> (affected > 0 <==> IsHeld(db.states[write].table, c))
      ensures !error && affected > 0 ==> OutcomeIsTrue(c, Dispatched)
    {
      error := AwaitNext(k);
      var now := IsoNow();
      write := |db.steps|;
      affected := if Matches(db.state.table, c.id, c.version + 1) then 1 else 0;
      if error {
        var applied: bool := *;
        db.Execute(MarkSucceededError(k, applied, now));
      } else {
        db.Execute(MarkSucceeded(k, now));
      }
    }

    /** A reported outcome is the row's own: this claim's success or failure is what the row records. */
    ghost predicate OutcomeIsTrue(c: Candidate, outcome: Outcome)
      reads this, db
    {
      && (outcome == Dispatched ==>
            c.id in db.state.table && db.state.table[c.id].status == Succeeded
            && db.state.table[c.id].version == c.version + 2)
      && (outcome == Outcome.Failed ==>
            c.id in db.state.table && db.state.table[c.id].status == QueueModel.Failed
            && db.state.table[c.id].version == c.version + 2 && db.state.table[c.id].attempts == c.attempts + 1)
    }

    /** The catch block of `runOne`. */
    method RecordFailure(k: AttemptId, c: Candidate) returns (outcome: Outcome, ghost write: nat)
      requires Valid()
      requires k in db.state.attempts && db.state.attempts[k] == Attempt(c, Marking(false))
      modifies this, db
      ensures Valid() && Now().Extends(old(Now())) && k !in db.state.attempts
      ensures OutcomeIsTrue(c, outcome) && |old(db.steps)| <= write && FailureIsWritten(k, c, outcome, write)
      ensures db.faults >= old(db.faults) && (db.faults > old(db.faults) <==> db.steps[write].MarkFailedError?)
    {
      var readAt := IsoNow();
      var error := AwaitNext(k);
      var now := IsoNow();
      var applied: bool := *;
      write := |db.steps|;
      if error {
        db.Execute(MarkFailedError(k, applied, readAt, now));
        return Threw, write;
      }
      var affected := if Matches(db.state.table, c.id, c.version + 1) then 1 else 0;
      db.Execute(MarkFailed(k, readAt, now));
      return if affected > 0 then Outcome.Failed else Lost, write;
    }

    // ---------- polling ----------

    method FreshAttempt() returns (k: AttemptId)
      ensures k !in db.state.attempts
    {
      k := 0;
      ghost var rest := db.state.attempts.Keys;
      while k in db.state.attempts
        invariant forall j :: j in db.state.attempts && j >= k ==> j in rest
        decreases rest
      {
        rest := rest - {k};
        k := k + 1;
      }
    }

    /** The local pre-filter: reads the count that a won claim will write back, and passes below the limit. */
    method PassesPreFilter(row: Candidate) returns (passes: bool)
      requires Valid() && counter.pending.None? && row.taskId in cfg.registry
      modifies this
      ensures Valid() && counter.inFlight == old(counter.inFlight)
      ensures events == old(events) + [LC.Read(row.taskId)] && old(counters) <= counters
      ensures passes <==> LC.Get(counter.inFlight, row.taskId, 0) < cfg.registry[row.taskId]
      ensures counter.pending == if passes then Some(LC.Pending(row.taskId, LC.Get(counter.inFlight, row.taskId, 0))) else None
    {
      Observe(LC.Read(row.taskId));
      passes := counter.pending.Some?;
    }

    /** The UPDATE that pushes back a row whose task is not registered; it may fail, after or before it takes
      * effect. */
    method PushBackUnknown(row: Candidate) returns (threw: bool, ghost at: nat)
      requires Valid() && counter.pending.None? && row in db.state.seen && row.taskId !in cfg.registry
      modifies this, db
      ensures Valid() && counter.pending.None? && Now().Extends(old(Now())) && old(db.state.seen) <= db.state.seen
      ensures db.faults >= old(db.faults) && (threw <==> db.faults > old(db.faults))
      ensures !threw ==> |old(db.steps)| <= at < |db.steps| && db.steps[at].PushBack? && db.steps[at].c == row
    {
      var readAt := IsoNow();
      AwaitIdle();
      var now := IsoNow();
      threw := db.Fails(false);
      var applied: bool := *;
      at := |db.steps|;
      if !threw || applied {
        db.Execute(PushBack(row, readAt, now));
      }
    }

    /** One candidate: push it back if its task is unknown, skip it at the local limit, or try to claim it. */
    method DispatchOne(c: Candidate) returns (result: Dispatch, ghost h: Handling)
      requires Valid() && counter.pending.None? && c in db.state.seen
      modifies this, db
      ensures Valid() && counter.pending.None? && Now().Extends(old(Now())) && old(db.state.seen) <= db.state.seen
      ensures db.faults >= old(db.faults) && (result.PollThrew? <==> db.faults > old(db.faults))
      ensures !result.PollThrew? ==> Handles(cfg, Now(), |old(db.steps)|, |old(events)|, c, h)
      ensures if result.Started? then h.Won? && h.k == result.k else !h.Won?
    {
      h := PushedBack(0);
      if c.taskId !in cfg.registry {
        var threw;
        ghost var at;
        threw, at := PushBackUnknown(c);
        h := PushedBack(at);
        return if threw then PollThrew else Skipped, h;
      }
      ghost var read := |events|;
      var passes := PassesPreFilter(c);
      if !passes {
        return Skipped, AtLimit(read);
      }
      result, h := ClaimPassed(c);
    }

    /** A candidate that has passed the pre-filter: claim it, and write the count back if the claim is won. */
    method ClaimPassed(c: Candidate) returns (result: Dispatch, ghost h: Handling)
      requires Valid() && c in db.state.seen && c.taskId in cfg.registry
      requires counter.pending.Some? && counter.pending.value.task == c.taskId
      modifies this, db
      ensures Valid() && counter.pending.None? && Now().Extends(old(Now())) && old(db.state.seen) <= db.state.seen
      ensures db.faults >= old(db.faults) && (result.PollThrew? <==> db.faults > old(db.faults))
      ensures !result.PollThrew? ==> Handles(cfg, Now(), |old(db.steps)|, |old(events)|, c, h)
      ensures if result.Started? then h.Won? && h.k == result.k else !h.Won?
    {
      var k := FreshAttempt();
      ghost var begin, count, update, commit := |db.steps|, 0, None, 0;
      var claim;
      claim, count, update, commit := AttemptClaim(k, c);
      ghost var event := |events|;
      ghost var claimed := Now();
      Observe(if claim.Claimed? then LC.ClaimWon else LC.ClaimLost);
      match claim {
        case Claimed(_) =>
          h := Won(k, begin, commit, event);
          result := Started(k);
        case NotClaimed =>
          h := NotWon(k, begin, count, update, event);
          result := Skipped;
        case ClaimThrew =>
          h := PushedBack(0);
          result := PollThrew;
      }
    }

    /** The candidate loop of `pollAndDispatch`, one candidate at a time while the executions already started
      * run on. A statement that fails ends it; otherwise, and up to then, every candidate is handled, and those
      * whose claims are won are started. */
    method DispatchCandidates(candidates: seq<Candidate>) returns (started: seq<AttemptId>, threw: bool, ghost handled: seq<Handling>)
      requires Valid() && counter.pending.None?
      requires forall c <- candidates :: c in db.state.seen
      modifies this, db
      ensures Valid() && counter.pending.None? && Now().Extends(old(Now()))
      ensures db.faults >= old(db.faults) && (threw <==> db.faults > old(db.faults))
      ensures if threw then |handled| < |candidates| else |handled| == |candidates|
      ensures |handled| <= |candidates| && AllHandled(cfg, Now(), |old(db.steps)|, |old(events)|, candidates[..|handled|], handled)
      ensures started == WonIn(handled)
    {
      started, threw, handled := [], false, [];
      for i := 0 to |candidates|
        invariant Valid() && counter.pending.None? && Now().Extends(old(Now()))
        invariant old(db.state.seen) <= db.state.seen
        invariant db.faults == old(db.faults) && !threw && |handled| == i
        invariant AllHandled(cfg, Now(), |old(db.steps)|, |old(events)|, candidates[..i], handled)
        invariant started == WonIn(handled)
      {
        ghost var before := Now();
        var result;
        ghost var h;
        result, h := DispatchOne(candidates[i]);
        AllHandledStays(cfg, before, Now(), |old(db.steps)|, |old(events)|, candidates[..i], handled);
        match result {
          case PollThrew =>
            threw := true;
            return;
          case Skipped =>
          case Started(k) => started := started + [k];
        }
        OneMoreHandled(cfg, Now(), |old(db.steps)|, |old(events)|, |before.steps|, |before.events|, candidates, i, handled, h);
        handled := handled + [h];
      }
    }

    /** The candidate SELECT. */
    method SelectCandidates() returns (candidates: seq<Candidate>)
      requires Valid()
      modifies db
      ensures Valid() && |db.steps| == |old(db.steps)| + 1 && Now().Extends(old(Now())) && db.faults == old(db.faults)
      ensures forall c <- candidates :: c in db.state.seen
      ensures HasPolled(cfg, Now(), |old(db.steps)|, candidates)
    {
      var now := IsoNow();
      var ids := Select(cfg, db.state.table, now);
      candidates := CandidatesOf(db.state.table, ids);
      CandidateIds(db.state.table, ids, candidates);
      db.Execute(Poll(IdsIn(ids), now));
      forall c | c in candidates ensures c in db.state.seen {
        var i :| 0 <= i < |candidates| && candidates[i] == c;
        assert ids[i] in IdsIn(ids);
      }
    }

    /** One poll: recover, select, and claim the candidates. `recover` and `poll` are the steps of the first two
      * statements, and `e` is where the counter's history stands at the second. What it starts runs on as
      * attempts of its own. */
    method PollAndDispatch() returns (started: seq<AttemptId>, threw: bool, ghost candidates: seq<Candidate>,
                                      ghost handled: seq<Handling>, ghost recover: nat, ghost poll: nat, ghost e: nat)
      requires Valid() && counter.pending.None?
      modifies this, db
      ensures Valid() && counter.pending.None? && Now().Extends(old(Now()))
      ensures db.faults >= old(db.faults) && (threw <==> db.faults > old(db.faults))
      ensures started == WonIn(handled) && |handled| <= |candidates|
      ensures !threw ==>
                && |old(db.steps)| <= recover < poll < |db.steps| && db.steps[recover].Recover? && |old(events)| <= e
                && HasPolled(cfg, Now(), poll, candidates) && AllHandled(cfg, Now(), poll + 1, e, candidates, handled)
    {
      started, candidates, handled, recover, poll, e := [], [], [], |db.steps|, 0, 0;
      threw := RecoverStale();
      if threw {
        return;
      }
      AwaitIdle();
      ghost var before := Now();
      e := |events|;
      started, threw, candidates, handled, poll := SelectAndDispatch();
      assert db.steps[recover] == before.steps[recover];
    }

    /** The SELECT, step `poll`, and the candidate loop. */
    method SelectAndDispatch() returns (started: seq<AttemptId>, threw: bool, ghost candidates: seq<Candidate>,
                                        ghost handled: seq<Handling>, ghost poll: nat)
      requires Valid() && counter.pending.None?
      modifies this, db
      ensures Valid() && counter.pending.None? && Now().Extends(old(Now()))
      ensures db.faults >= old(db.faults) && (threw <==> db.faults > old(db.faults))
      ensures started == WonIn(handled) && |handled| <= |candidates|
      ensures !threw ==>
                && |old(db.steps)| == poll < |db.steps| && HasPolled(cfg, Now(), poll, candidates)
                && AllHandled(cfg, Now(), poll + 1, |old(events)|, candidates, handled)
    {
      started, candidates, handled, poll := [], [], [], |db.steps|;
      threw := db.Fails(false);
      if threw {
        return;
      }
      var selected := SelectCandidates();
      candidates := selected;
      ghost var before := Now();
      started, threw, handled := DispatchCandidates(selected);
      PolledStays(cfg, before, Now(), poll, candidates);
      assert !threw ==> candidates[..|handled|] == candidates;
    }

    /** Stale-claim recovery: every row that is `processing` and has not been stamped for `staleClaimMs` is
      * pending again, with its attempts and retry time, under a new version; no other row changes. */
    method RecoverStale() returns (threw: bool)
      requires Valid()
      modifies db
      ensures Valid() && old(db.steps) <= db.steps && old(db.states) <= db.states && old(db.state.seen) <= db.state.seen
      ensures db.faults >= old(db.faults) && (threw <==> db.faults > old(db.faults))
      ensures !threw ==> |db.steps| == |old(db.steps)| + 1 && db.steps[|old(db.steps)|].Recover?
      ensures !threw ==>
                var readAt, stamp := db.steps[|old(db.steps)|].readAt, db.steps[|old(db.steps)|].stamp;
                && db.state.table.Keys == old(db.state.table.Keys)
                && forall id <- db.state.table ::
                     var row := old(db.state.table)[id];
                     db.state.table[id] ==
                       if row.status == Processing && row.updatedAt <= readAt - cfg.staleClaimMs
                       then row.(status := Pending, version := row.version + 1, updatedAt := stamp) else row
    {
      var readAt := IsoNow();
      var now := IsoNow();
      var ids := set id | id in db.state.table && IsStale(cfg, db.state.table[id], readAt);
      threw := db.Fails(false);
      var applied: bool := *;
      if !threw || applied {
        db.Execute(Recover(ids, readAt, now));
      }
    }

    method Drained() returns (empty: bool)
      ensures empty <==> forall id <- db.state.table ::
                db.state.table[id].status != Processing && !HasAttemptsLeft(cfg, db.state.table[id])
    {
      var count := |OutstandingIds(cfg, db.state.table)|;
      empty := count == 0;
      assert empty ==> forall id <- db.state.table :: id !in OutstandingIds(cfg, db.state.table);
      assert !empty ==> exists id :: id in OutstandingIds(cfg, db.state.table);
    }
  }

  /** What one round of the candidate loop comes to. */
  datatype Dispatch = Skipped | Started(k: AttemptId) | PollThrew

  /** The candidates answer the SELECT: eligible rows, each once, oldest first, at most `batchSize`, and no
    * older one is left out. */
  ghost predicate AreCandidates(cfg: Config, table: Table, now: int, candidates: seq<Candidate>) {
    && (forall c <- candidates :: 
          && c.id in table && c.taskId == table[c.id].request.taskId
          && c.attempts == table[c.id].attempts && c.version == table[c.id].version)
    && IsSelection(cfg, table, now, set c <- candidates :: c.id)
    && |candidates| <= cfg.batchSize
    && forall i, j | 0 <= i < j < |candidates| ::
         candidates[i].id != candidates[j].id && table[candidates[i].id].createdAt <= table[candidates[j].id].createdAt
  }

  lemma CandidateIds(table: Table, ids: seq<RowId>, candidates: seq<Candidate>)
    requires (forall id <- ids :: id in table) && candidates == CandidatesOf(table, ids)
    ensures (set c <- candidates :: c.id) == IdsIn(ids)
  {
    forall id | id in IdsIn(ids) ensures id in (set c <- candidates :: c.id) {
      var i :| 0 <= i < |ids| && ids[i] == id;
      assert candidates[i] in candidates && candidates[i].id == id;
    }
  }

  /** Step `n` is a SELECT, and the candidates answer it. */
  ghost predicate HasPolled(cfg: Config, r: Record, n: nat, candidates: seq<Candidate>) {
    && n < |r.steps| && n < |r.states| && r.steps[n].Poll?
    && r.steps[n].batch == (set c <- candidates :: c.id)
    && AreCandidates(cfg, r.states[n].table, r.steps[n].now, candidates)
  }

  lemma PolledStays(cfg: Config, r: Record, r': Record, n: nat, candidates: seq<Candidate>)
    requires r'.Extends(r) && HasPolled(cfg, r, n, candidates)
    ensures HasPolled(cfg, r', n, candidates)
  {
    assert r'.states[n] == r.states[n] && r'.steps[n] == r.steps[n];
  }

  ghost predicate OldestFirst(table: Table, ids: seq<RowId>) {
    && (forall id <- ids :: id in table)
    && (forall i, j | 0 <= i < j < |ids| :: ids[i] != ids[j] && table[ids[i]].createdAt <= table[ids[j]].createdAt)
  }

  /** `ids` are eligible rows, each once, oldest first, at most `batchSize`, and no older one is left out. */
  ghost predicate AnswersSelect(cfg: Config, table: Table, now: int, ids: seq<RowId>) {
    IsSelection(cfg, table, now, IdsIn(ids)) && |ids| <= cfg.batchSize && OldestFirst(table, ids)
  }

  function IdsIn(ids: seq<RowId>): set<RowId> {
    set id <- ids
  }

  function CandidatesOf(table: Table, ids: seq<RowId>): (cs: seq<Candidate>)
    requires forall id <- ids :: id in table
  {
    seq(|ids|, i requires 0 <= i < |ids| => CandidateOf(ids[i], table[ids[i]]))
  }

  function EligibleIds(cfg: Config, table: Table, now: int): set<RowId> {
    set id | id in table && IsEligible(cfg, table[id], now)
  }

  method Select(cfg: Config, table: Table, now: int) returns (ids: seq<RowId>)
    ensures AnswersSelect(cfg, table, now, ids)
  {
    var rest := EligibleIds(cfg, table, now);
    ids := [];
    while |ids| < cfg.batchSize && rest != {}
      invariant |ids| <= cfg.batchSize && IsSplit(table, EligibleIds(cfg, table, now), ids, rest)
      decreases |rest|
    {
      OldestExists(table, rest);
      var id: RowId :| id in rest && IsOldest(table, rest, id);
      TakeOldest(table, EligibleIds(cfg, table, now), ids, rest, id);
      ids, rest := ids + [id], rest - {id};
    }
    SplitAnswers(cfg, table, now, ids, rest);
  }

  /** `ids` are the oldest of the rows `eligible`, oldest first, and `rest` the others. */
  ghost predicate IsSplit(table: Table, eligible: set<RowId>, ids: seq<RowId>, rest: set<RowId>) {
    && (forall id <- eligible :: id in table)
    && IdsIn(ids) + rest == eligible && IdsIn(ids) !! rest && |IdsIn(ids)| == |ids|
    && (forall id <- ids :: id in eligible)
    && OldestFirst(table, ids)
    && forall id <- ids, other <- rest :: table[id].createdAt <= table[other].createdAt
  }

  lemma TakeOldest(table: Table, eligible: set<RowId>, ids: seq<RowId>, rest: set<RowId>, id: RowId)
    requires IsSplit(table, eligible, ids, rest) && id in rest && IsOldest(table, rest, id)
    ensures IsSplit(table, eligible, ids + [id], rest - {id})
  {
    OneMoreId(ids, id);
    forall other | other in ids ensures other != id && table[other].createdAt <= table[id].createdAt {
      assert other in IdsIn(ids);
    }
    StaysOldestFirst(table, ids, id);
    assert IdsIn(ids + [id]) + (rest - {id}) == IdsIn(ids) + rest;
    assert IdsIn(ids + [id]) !! (rest - {id});
  }

  lemma OneMoreId(ids: seq<RowId>, id: RowId)
    ensures IdsIn(ids + [id]) == IdsIn(ids) + {id}
    ensures forall other :: other in ids + [id] <==> other in ids || other == id
  {
  }

  lemma StaysOldestFirst(table: Table, ids: seq<RowId>, id: RowId)
    requires OldestFirst(table, ids) && id in table
    requires forall other <- ids :: other != id && table[other].createdAt <= table[id].createdAt
    ensures OldestFirst(table, ids + [id])
  {
  }

  lemma SplitAnswers(cfg: Config, table: Table, now: int, ids: seq<RowId>, rest: set<RowId>)
    requires IsSplit(table, EligibleIds(cfg, table, now), ids, rest)
    requires |ids| <= cfg.batchSize && (|ids| == cfg.batchSize || rest == {})
    ensures AnswersSelect(cfg, table, now, ids)
  {
  }

  predicate IsOldest(table: Table, ids: set<RowId>, id: RowId)
    requires id in table && forall other <- ids :: other in table
  {
    forall other <- ids :: table[id].createdAt <= table[other].createdAt
  }

  lemma {:induction false} OldestExists(table: Table, ids: set<RowId>)
    requires ids != {} && forall id <- ids :: id in table
    ensures exists id :: id in ids && IsOldest(table, ids, id)
  {
    var id :| id in ids;
    if ids != {id} {
      OldestExists(table, ids - {id});
      var oldest :| oldest in ids - {id} && IsOldest(table, ids - {id}, oldest);
      if table[id].createdAt < table[oldest].createdAt {
        assert IsOldest(table, ids, id);
      } else {
        assert IsOldest(table, ids, oldest);
      }
    } else {
      assert IsOldest(table, ids, id);
    }
  }

  /** `enqueueTask`: insert, and on a conflict read back the row that holds the request. */
  method EnqueueTask(db: Database, id: RowId, request: RequestKey, now: int) returns (runId: RowId)
    requires db.Valid() && id !in db.state.table
    modifies db
    ensures db.Valid() && db.steps == old(db.steps) + [Enqueue(id, request, now)]
    ensures runId in db.state.table && db.state.table[runId].request == request
    ensures forall other <- db.state.table :: db.state.table[other].request == request ==> other == runId
    ensures old(RequestTaken(db.state.table, request)) ==> db.state.table == old(db.state.table)
    ensures !old(RequestTaken(db.state.table, request)) ==>
              runId == id && db.state.table == old(db.state.table)[id := Row(request, Pending, 0, 1, now, now, None)]
  {
    var inserted := if RequestTaken(db.state.table, request) then 0 else 1;
    db.Execute(Enqueue(id, request, now));
    if inserted == 1 {
      runId := id;
    } else {
      runId :| runId in db.state.table && db.state.table[runId].request == request;
    }
    forall other | other in db.state.table && db.state.table[other].request == request ensures other == runId {
      RequestsAreUnique(db.cfg, db.states, db.steps, |db.steps|, runId, other);
    }
  }
}
