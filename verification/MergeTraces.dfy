/** Where things come from in a run of the merge protocol: which step brought a request to where it is, which
  * step wrote an event, and who merged a pull request. */
module MergeTraces {
  import opened RouteIdempotency
  import opened FeatureExecution
  import opened MergeModel
  import opened MergeSafety

  lemma {:induction false} RunInv(states: seq<State>, steps: seq<Step>, ttlMs: nat, i: nat)
    requires IsRun(states, steps, ttlMs) && i < |states|
    ensures Inv(states[i])
  {
    if i > 0 {
      RunInv(states, steps, ttlMs, i - 1);
      assert IsStep(states, steps, ttlMs, i - 1);
      StepKeepsInv(states[i - 1], steps[i - 1], ttlMs);
    }
  }

  /** A run, taken one step further. */
  lemma RunSnoc(states: seq<State>, steps: seq<Step>, ttlMs: nat, step: Step)
    requires IsRun(states, steps, ttlMs) && Enabled(states[|steps|], step)
    ensures IsRun(states + [Apply(states[|steps|], step, ttlMs)], steps + [step], ttlMs)
  {
    var states', steps' := states + [Apply(states[|steps|], step, ttlMs)], steps + [step];
    forall i: nat | i < |steps'| ensures IsStep(states', steps', ttlMs, i) {
      if i < |steps| {
        assert IsStep(states, steps, ttlMs, i);
      }
    }
  }

  lemma RunStepGrows(states: seq<State>, steps: seq<Step>, ttlMs: nat, n: nat)
    requires IsRun(states, steps, ttlMs) && n < |steps|
    ensures Grows(states[n].ledger, states[n + 1].ledger)
  {
    assert IsStep(states, steps, ttlMs, n);
    RunInv(states, steps, ttlMs, n);
    StepKeepsInv(states[n], steps[n], ttlMs);
  }

  lemma GrowsTransitive(a: Ledger, b: Ledger, c: Ledger)
    requires Grows(a, b) && Grows(b, c)
    ensures Grows(a, c)
  {
  }

  lemma {:induction false} RunGrows(states: seq<State>, steps: seq<Step>, ttlMs: nat, i: nat, j: nat)
    requires IsRun(states, steps, ttlMs) && i <= j < |states|
    ensures Grows(states[i].ledger, states[j].ledger)
    decreases j - i
  {
    if i < j {
      RunGrows(states, steps, ttlMs, i, j - 1);
      RunStepGrows(states, steps, ttlMs, j - 1);
      GrowsTransitive(states[i].ledger, states[j - 1].ledger, states[j].ledger);
    }
  }

  // ---------- the moves of one request ----------

  lemma StepSpares(s: State, step: Step, ttlMs: nat, r: ReqId)
    requires Enabled(s, step) && Spares(step, r)
    ensures var s' := Apply(s, step, ttlMs);
            (r in s.requests <==> r in s'.requests) && (r in s.requests ==> s'.requests[r] == s.requests[r])
  {
  }

  /** A request stays, with its key and run. */
  lemma {:induction false} RequestStays(states: seq<State>, steps: seq<Step>, ttlMs: nat, i: nat, j: nat, r: ReqId)
    requires IsRun(states, steps, ttlMs) && i <= j < |states| && r in states[i].requests
    ensures r in states[j].requests
    ensures states[j].requests[r].key == states[i].requests[r].key && states[j].requests[r].run == states[i].requests[r].run
    decreases j - i
  {
    if i < j {
      RequestStays(states, steps, ttlMs, i, j - 1, r);
      assert IsStep(states, steps, ttlMs, j - 1);
      StepKeepsRequest(states[j - 1], steps[j - 1], ttlMs, r);
    }
  }

  lemma StepKeepsRequest(s: State, step: Step, ttlMs: nat, r: ReqId)
    requires Enabled(s, step) && r in s.requests
    ensures var s' := Apply(s, step, ttlMs);
            r in s'.requests && s'.requests[r].key == s.requests[r].key && s'.requests[r].run == s.requests[r].run
  {
  }

  /** Step `k` is the last one before `i` that moves request `r`. */
  ghost predicate LastMoveIs(states: seq<State>, steps: seq<Step>, i: nat, r: ReqId, k: nat)
    requires i < |states| == |steps| + 1
  {
    && k < i && !Spares(steps[k], r) && (forall n | k < n < i :: Spares(steps[n], r))
    && r in states[k + 1].requests && r in states[i].requests && states[k + 1].requests[r] == states[i].requests[r]
  }

  lemma {:induction false} LastMove(states: seq<State>, steps: seq<Step>, ttlMs: nat, i: nat, r: ReqId) returns (k: nat)
    requires IsRun(states, steps, ttlMs) && i < |states| && r in states[i].requests
    ensures LastMoveIs(states, steps, i, r, k)
  {
    if Spares(steps[i - 1], r) {
      RunStepSpares(states, steps, ttlMs, i - 1, r);
      k := LastMove(states, steps, ttlMs, i - 1, r);
    } else {
      k := i - 1;
      RunStepMoves(states, steps, ttlMs, i - 1, r);
    }
  }

  lemma RunStepSpares(states: seq<State>, steps: seq<Step>, ttlMs: nat, n: nat, r: ReqId)
    requires IsRun(states, steps, ttlMs) && n < |steps| && Spares(steps[n], r)
    ensures r in states[n].requests <==> r in states[n + 1].requests
    ensures r in states[n].requests ==> states[n + 1].requests[r] == states[n].requests[r]
  {
    assert IsStep(states, steps, ttlMs, n);
    StepSpares(states[n], steps[n], ttlMs, r);
  }

  lemma RunStepMoves(states: seq<State>, steps: seq<Step>, ttlMs: nat, n: nat, r: ReqId)
    requires IsRun(states, steps, ttlMs) && n < |steps| && !Spares(steps[n], r)
    ensures r in states[n + 1].requests
  {
    assert IsStep(states, steps, ttlMs, n);
  }

  /** The last move, when it was an await of the handler. */
  lemma LastAdvance(states: seq<State>, steps: seq<Step>, ttlMs: nat, i: nat, r: ReqId) returns (k: nat)
    requires IsRun(states, steps, ttlMs) && i < |states| && r in states[i].requests
    requires !states[i].requests[r].pc.DeleteExpired? && !states[i].requests[r].pc.FinalizeFetch?
             && !states[i].requests[r].pc.Crashed?
    ensures LastMoveIs(states, steps, i, r, k)
    ensures steps[k].Advance? && steps[k].r == r && r in states[k].requests
    ensures Possible(states[k], states[k].requests[r], steps[k].choice)
    ensures states[i].requests[r] == RequestAfter(states[k], r, steps[k].choice)
  {
    k := LastMove(states, steps, ttlMs, i, r);
    AdvanceOf(states, steps, ttlMs, k, r);
  }

  lemma AdvanceOf(states: seq<State>, steps: seq<Step>, ttlMs: nat, k: nat, r: ReqId)
    requires IsRun(states, steps, ttlMs) && k < |steps| && !Spares(steps[k], r) && r in states[k + 1].requests
    requires !states[k + 1].requests[r].pc.DeleteExpired? && !states[k + 1].requests[r].pc.FinalizeFetch?
             && !states[k + 1].requests[r].pc.Crashed?
    ensures steps[k].Advance? && steps[k].r == r && r in states[k].requests
    ensures Possible(states[k], states[k].requests[r], steps[k].choice)
    ensures states[k + 1].requests[r] == RequestAfter(states[k], r, steps[k].choice)
  {
    assert IsStep(states, steps, ttlMs, k);
  }

  /** Step `k` brought request `r` to where it is in state `i`; it had the same key and run before. */
  ghost predicate CameFrom(states: seq<State>, steps: seq<Step>, i: nat, r: ReqId, k: nat)
    requires i < |states| == |steps| + 1
  {
    && LastMoveIs(states, steps, i, r, k) && r in states[k].requests
    && states[k].requests[r].key == states[i].requests[r].key && states[k].requests[r].run == states[i].requests[r].run
  }

  /** Request `r` has the same key and run at `k` and `i`. */
  ghost predicate SameOrder(states: seq<State>, r: ReqId, k: nat, i: nat)
    requires k < |states| && i < |states|
  {
    && r in states[k].requests && r in states[i].requests
    && states[k].requests[r].key == states[i].requests[r].key && states[k].requests[r].run == states[i].requests[r].run
  }

  /** The await that leads to each of these points of the handler. */
  lemma PcOrigin(s: State, r: ReqId, choice: Choice)
    requires r in s.requests && Possible(s, s.requests[r], choice)
    ensures var q, pc := s.requests[r], PcAfter(s, r, choice);
            && (pc.RecordingFailure? ==> q.pc.CallMerge? && choice == Reject(pc.autoClearable))
            && (pc.FetchFailed? ==> q.pc == RecordingFailure(q.pc.version, pc.autoClearable) && choice == Go)
            && (pc.Resolving? ==> q.pc == FetchFailed(pc.autoClearable) && choice == Go)
            && (pc.Responding? && pc.response.Rejected? ==>
                  q.pc == Resolving(q.pc.version, pc.response.autoClearable) && choice == Go)
            && (pc.Responding? && pc.response.MergeRecorded? ==> q.pc.RecordingMerge? && choice == Go)
            && (pc.Responding? ==> !pc.response.AlreadyRecorded?)
            && (pc == Responding(GateBlocked) ==> q.pc.MakeReady? && choice == Block)
  {
  }

  /** The same for the way to the merge call, */
  lemma CallOrigin(s: State, r: ReqId, choice: Choice)
    requires r in s.requests && Possible(s, s.requests[r], choice)
    ensures var q, pc, runs := s.requests[r], PcAfter(s, r, choice), s.ledger.runs;
            && (pc.CallMerge? ==>
                  q.pc.CheckReady? && choice == Go && q.run in runs && runs[q.run] == FeatureRun(MergeReady, pc.version))
            && (pc.CheckReady? ==> q.pc.MakeReady? && choice == Go && !OutcomeOf(s, q).Threw?)
            && (pc.MakeReady? ==> q.pc.FetchRun? && choice == Go && q.run in runs && runs[q.run].version == pc.version)
            && (pc.FetchRun? ==> q.pc.InsertClaim? && choice == Go && !Taken(s.claims, q.key))
  {
  }

  /** and through the finalize handler. */
  lemma FinalizeOrigin(s: State, r: ReqId, choice: Choice)
    requires r in s.requests && Possible(s, s.requests[r], choice)
    ensures var q, pc, runs := s.requests[r], PcAfter(s, r, choice), s.ledger.runs;
            && (pc.FinalizeRecord? ==> q.pc == FinalizeObserve(pc.version) && choice == Observe(pc.sha) && q.run in s.scm)
            && (pc.FinalizeObserve? ==>
                  q.pc.FinalizeFetch? && choice == Go && q.run in runs && runs[q.run] == FeatureRun(MergeReady, pc.version))
  {
  }

  /** The step at which a response was stored. */
  lemma {:induction false} StoredAt(states: seq<State>, steps: seq<Step>, ttlMs: nat, i: nat, r: ReqId) returns (p: nat)
    requires IsRun(states, steps, ttlMs) && i < |states|
    requires r in states[i].requests && states[i].requests[r].stored.Some?
    ensures p < i && steps[p].Advance? && steps[p].r == r && r in states[p].requests
    ensures states[p].requests[r].pc == Responding(states[i].requests[r].stored.value)
    ensures states[p].requests[r].key == states[i].requests[r].key && states[p].requests[r].run == states[i].requests[r].run
    ensures forall n | p < n < i && !Spares(steps[n], r) :: r in states[n].requests && DispatchOf(states[n].requests[r]).None?
  {
    var k := LastMove(states, steps, ttlMs, i, r);
    StoredBefore(states, steps, ttlMs, k, r);
    if states[k].requests[r].stored.Some? {
      p := StoredAt(states, steps, ttlMs, k, r);
    } else {
      p := k;
    }
  }

  lemma StoredBefore(states: seq<State>, steps: seq<Step>, ttlMs: nat, k: nat, r: ReqId)
    requires IsRun(states, steps, ttlMs) && k < |steps| && !Spares(steps[k], r)
    requires r in states[k + 1].requests && states[k + 1].requests[r].stored.Some?
    ensures r in states[k].requests
    ensures states[k].requests[r].key == states[k + 1].requests[r].key
    ensures states[k].requests[r].run == states[k + 1].requests[r].run
    ensures if states[k].requests[r].stored.Some?
            then states[k].requests[r].stored == states[k + 1].requests[r].stored && DispatchOf(states[k].requests[r]).None?
            else steps[k].Advance? && steps[k].r == r && states[k].requests[r].pc == Responding(states[k + 1].requests[r].stored.value)
  {
    RunInv(states, steps, ttlMs, k);
    assert IsStep(states, steps, ttlMs, k);
    assert r in states[k].requests ==> FlagOk(states[k].requests[r]);
  }

  /** What a request reads back, the owner of the live row has stored. */
  lemma ReplayedIsStored(states: seq<State>, steps: seq<Step>, ttlMs: nat, k: nat, r: ReqId) returns (a: ReqId)
    requires IsRun(states, steps, ttlMs) && k < |states| && r in states[k].requests
    requires LiveResult(states[k].claims, states[k].requests[r].key, states[k].requests[r].now).Some?
    ensures a in states[k].requests && states[k].requests[a].key == states[k].requests[r].key
    ensures states[k].requests[a].stored == LiveResult(states[k].claims, states[k].requests[r].key, states[k].requests[r].now)
  {
    var q := states[k].requests[r];
    a :| Live(states[k].claims, a, q.key, q.now);
    RunInv(states, steps, ttlMs, k);
    LiveResultIsOwners(states[k].claims, q.key, q.now, a);
    assert RowOk(states[k], a);
  }

  /** What has been stored stays. */
  lemma {:induction false} StoredStays(states: seq<State>, steps: seq<Step>, ttlMs: nat, i: nat, j: nat, r: ReqId)
    requires IsRun(states, steps, ttlMs) && i <= j < |states|
    requires r in states[i].requests && states[i].requests[r].stored.Some?
    ensures r in states[j].requests && states[j].requests[r].stored == states[i].requests[r].stored
    decreases j - i
  {
    if i < j {
      StoredStays(states, steps, ttlMs, i, j - 1, r);
      RunInv(states, steps, ttlMs, j - 1);
      assert IsStep(states, steps, ttlMs, j - 1);
      StepKeepsStored(states[j - 1], steps[j - 1], ttlMs, r);
    }
  }

  lemma StepKeepsStored(s: State, step: Step, ttlMs: nat, r: ReqId)
    requires ClaimsOk(s) && Enabled(s, step) && r in s.requests && s.requests[r].stored.Some?
    ensures var s' := Apply(s, step, ttlMs); r in s'.requests && s'.requests[r].stored == s.requests[r].stored
  {
    assert FlagOk(s.requests[r]);
  }

  /** The request whose stored response an answer to a keyed request is: its own, or the one it replays. */
  lemma AnswerHasOwner(states: seq<State>, steps: seq<Step>, ttlMs: nat, i: nat, r: ReqId) returns (a: ReqId)
    requires IsRun(states, steps, ttlMs) && i < |states| && r in states[i].requests && states[i].requests[r].key != ""
    requires states[i].requests[r].pc.Done? && states[i].requests[r].pc.answer.Some?
    ensures a in states[i].requests && states[i].requests[a].key == states[i].requests[r].key
    ensures states[i].requests[a].stored == states[i].requests[r].pc.answer
  {
    var k := LastAdvance(states, steps, ttlMs, i, r);
    RunInv(states, steps, ttlMs, k);
    a := r;
    if states[k].requests[r].pc.ReadClaim? {
      a := ReplayedIsStored(states, steps, ttlMs, k, r);
      RequestStays(states, steps, ttlMs, k, i, a);
      StoredStays(states, steps, ttlMs, k, i, a);
    } else {
      KeyedAnswer(states[k], r, steps[k].choice);
    }
  }

  lemma KeyedAnswer(s: State, r: ReqId, choice: Choice)
    requires ClaimsOk(s) && r in s.requests && Possible(s, s.requests[r], choice) && s.requests[r].key != ""
    requires !s.requests[r].pc.ReadClaim? && RequestAfter(s, r, choice).pc.Done? && RequestAfter(s, r, choice).pc.answer.Some?
    ensures RequestAfter(s, r, choice).stored == RequestAfter(s, r, choice).pc.answer
  {
    assert FlagOk(s.requests[r]);
  }

  // ---------- who wrote an event ----------

  /** Step `k` is the dispatch that wrote event number `a`. */
  ghost predicate Writes(states: seq<State>, steps: seq<Step>, k: nat, a: nat, e: Event)
    requires k < |steps| < |states|
  {
    && e.cause.Dispatched? && steps[k].Advance? && steps[k].r == e.cause.req && e.cause.req in states[k].requests
    && |states[k].ledger.events| == a && |states[k + 1].ledger.events| == a + 1
    && var q := states[k].requests[e.cause.req];
       && DispatchOf(q).Some? && DispatchOf(q).value.key == e.cause.key
       && e.run == q.run && e.to == DispatchOf(q).value.to
       && !IsCached(states[k].ledger, e.cause.key, states[k].clock)
  }

  lemma {:induction false} EventHasStep(states: seq<State>, steps: seq<Step>, ttlMs: nat, i: nat, a: nat) returns (k: nat)
    requires IsRun(states, steps, ttlMs) && i < |states|
    requires a < |states[i].ledger.events| && states[i].ledger.events[a].cause.Dispatched?
    ensures k < i && Writes(states, steps, k, a, states[i].ledger.events[a])
  {
    RunStepGrows(states, steps, ttlMs, i - 1);
    if a < |states[i - 1].ledger.events| {
      k := EventHasStep(states, steps, ttlMs, i - 1, a);
    } else {
      k := i - 1;
      NewEvent(states, steps, ttlMs, i - 1, a);
    }
  }

  lemma NewEvent(states: seq<State>, steps: seq<Step>, ttlMs: nat, k: nat, a: nat)
    requires IsRun(states, steps, ttlMs) && k < |steps|
    requires |states[k].ledger.events| <= a < |states[k + 1].ledger.events| && states[k + 1].ledger.events[a].cause.Dispatched?
    ensures Writes(states, steps, k, a, states[k + 1].ledger.events[a])
  {
    assert IsStep(states, steps, ttlMs, k);
  }

  // ---------- stored results of commands ----------

  /** A step leaves the stored result of a key as it is, or a command of that key has just been executed. */
  lemma StepCache(states: seq<State>, steps: seq<Step>, ttlMs: nat, k: nat, key: CommandKey) returns (e: Event)
    requires IsRun(states, steps, ttlMs) && k < |steps|
    ensures var cache, cache' := states[k].ledger.cache, states[k + 1].ledger.cache;
            || (key !in cache && key !in cache')
            || (key in cache && key in cache' && cache'[key] == cache[key])
            || (Writes(states, steps, k, |states[k].ledger.events|, e) && e.cause.key == key
                && key in cache' && cache'[key] == Cached(e.run, states[k].clock + ttlMs))
  {
    assert IsStep(states, steps, ttlMs, k);
    var events := states[k + 1].ledger.events;
    if |events| > |states[k].ledger.events| {
      e := events[|events| - 1];
    } else {
      e := Event("", Failed, Failed, Elsewhere);
    }
  }

  /** The event `e`, written at step `k` by a command of this key. */
  ghost predicate ExecutesAt(states: seq<State>, steps: seq<Step>, k: nat, key: CommandKey, e: Event)
    requires k < |steps| < |states|
  {
    Writes(states, steps, k, |states[k].ledger.events|, e) && e.cause.key == key
  }

  lemma {:induction false} StoredHasStep(states: seq<State>, steps: seq<Step>, ttlMs: nat, i: nat, key: CommandKey)
    returns (d: nat, e: Event)
    requires IsRun(states, steps, ttlMs) && i < |states| && key in states[i].ledger.cache
    ensures d < i && ExecutesAt(states, steps, d, key, e)
    ensures states[i].ledger.cache[key] == Cached(e.run, states[d].clock + ttlMs)
  {
    e := StepCache(states, steps, ttlMs, i - 1, key);
    d := i - 1;
    if key in states[d].ledger.cache && states[d].ledger.cache[key] == states[i].ledger.cache[key] {
      d, e := StoredHasStep(states, steps, ttlMs, d, key);
    }
  }

  lemma {:induction false} ExecutedIsStored(states: seq<State>, steps: seq<Step>, ttlMs: nat, d: nat, i: nat, key: CommandKey, e: Event)
    requires IsRun(states, steps, ttlMs) && d < i < |states| && ExecutesAt(states, steps, d, key, e)
    ensures key in states[i].ledger.cache && states[i].ledger.cache[key].expiresAt >= states[d].clock + ttlMs
    decreases i
  {
    if d < i - 1 {
      ExecutedIsStored(states, steps, ttlMs, d, i - 1, key, e);
      var e' := StepCache(states, steps, ttlMs, i - 1, key);
    } else {
      assert IsStep(states, steps, ttlMs, d);
    }
  }

  /** A command finds a stored result of its key exactly if one of that key has been executed less than the time
    * to live ago, however often it was dispatched since. */
  lemma StoredExactly(states: seq<State>, steps: seq<Step>, ttlMs: nat, i: nat, key: CommandKey)
    requires IsRun(states, steps, ttlMs) && i < |states|
    ensures IsCached(states[i].ledger, key, states[i].clock) <==>
            exists d: nat, e: Event :: d < i && ExecutesAt(states, steps, d, key, e) && states[i].clock < states[d].clock + ttlMs
  {
    if IsCached(states[i].ledger, key, states[i].clock) {
      var d, e := StoredHasStep(states, steps, ttlMs, i, key);
    }
    if d: nat, e: Event :| d < i && ExecutesAt(states, steps, d, key, e) && states[i].clock < states[d].clock + ttlMs {
      ExecutedIsStored(states, steps, ttlMs, d, i, key, e);
    }
  }

  // ---------- which step made a call, or a claim lapse ----------

  /** Step `k` is the merge call number `n`. */
  ghost predicate Makes(states: seq<State>, steps: seq<Step>, k: nat, n: nat, call: Call)
    requires k < |steps| < |states|
  {
    && steps[k] == Advance(call.req, call.reply) && call.req in states[k].requests
    && states[k].requests[call.req].pc.CallMerge?
    && |states[k].calls| == n && states[k + 1].calls == states[k].calls + [call]
  }

  lemma StepCalls(s: State, step: Step, ttlMs: nat)
    requires Enabled(s, step)
    ensures var calls := Apply(s, step, ttlMs).calls;
            calls == s.calls
            || (step.Advance? && step.r in s.requests && s.requests[step.r].pc.CallMerge?
                && calls == s.calls + [Call(step.r, s.requests[step.r].key, s.requests[step.r].run, step.choice)])
  {
  }

  lemma {:induction false} CallHasStep(states: seq<State>, steps: seq<Step>, ttlMs: nat, i: nat, n: nat) returns (k: nat)
    requires IsRun(states, steps, ttlMs) && i < |states| && n < |states[i].calls|
    ensures k < i && Makes(states, steps, k, n, states[i].calls[n]) && states[k + 1].calls <= states[i].calls
  {
    assert IsStep(states, steps, ttlMs, i - 1);
    StepCalls(states[i - 1], steps[i - 1], ttlMs);
    if n < |states[i - 1].calls| {
      k := CallHasStep(states, steps, ttlMs, i - 1, n);
    } else {
      k := i - 1;
    }
  }

  lemma {:induction false} CallsGrow(states: seq<State>, steps: seq<Step>, ttlMs: nat, i: nat, j: nat)
    requires IsRun(states, steps, ttlMs) && i <= j < |states|
    ensures states[i].calls <= states[j].calls
    decreases j - i
  {
    if i < j {
      CallsGrow(states, steps, ttlMs, i, j - 1);
      assert IsStep(states, steps, ttlMs, j - 1);
      StepCalls(states[j - 1], steps[j - 1], ttlMs);
    }
  }

  /** `step` deletes the row of `a` as expired. */
  predicate DeletesExpired(s: State, step: Step, a: ClaimId) {
    && step.Advance? && (step.choice == Go || step.choice == Fail(true))
    && step.r in s.requests && s.requests[step.r].pc.DeleteExpired?
    && a in s.claims && Expired(s.claims[a], s.requests[step.r].key, s.requests[step.r].now)
  }

  lemma StepLapses(s: State, step: Step, ttlMs: nat, a: ClaimId)
    requires Enabled(s, step)
    ensures a in Apply(s, step, ttlMs).lapsed <==> a in s.lapsed || DeletesExpired(s, step, a)
  {
  }

  /** Before step `i`, the claim of `a` has been deleted by a request with its key, after its expiry. */
  ghost predicate ExpiredBefore(states: seq<State>, steps: seq<Step>, i: nat, a: ClaimId)
    requires i <= |steps| < |states|
  {
    exists d: nat | d < i :: DeletesExpired(states[d], steps[d], a)
  }

  /** The claims that have lapsed are those deleted after their expiry. */
  lemma {:induction false} LapsedExactly(states: seq<State>, steps: seq<Step>, ttlMs: nat, i: nat, a: ClaimId)
    requires IsRun(states, steps, ttlMs) && i < |states|
    ensures a in states[i].lapsed <==> ExpiredBefore(states, steps, i, a)
  {
    if i > 0 {
      LapsedExactly(states, steps, ttlMs, i - 1, a);
      assert IsStep(states, steps, ttlMs, i - 1);
      StepLapses(states[i - 1], steps[i - 1], ttlMs, a);
      assert ExpiredBefore(states, steps, i, a) <==>
             ExpiredBefore(states, steps, i - 1, a) || DeletesExpired(states[i - 1], steps[i - 1], a);
    }
  }

  // ---------- who merged a pull request ----------

  ghost predicate MergedElsewhereBefore(steps: seq<Step>, i: nat, run: RunId)
    requires i <= |steps|
  {
    exists n: nat | n < i :: steps[n] == MergedElsewhere(run)
  }

  ghost predicate MergedByCall(s: State, run: RunId) {
    exists call <- s.calls :: call.run == run && call.Merges()
  }

  lemma StepMerges(s: State, step: Step, ttlMs: nat, run: RunId)
    requires Enabled(s, step)
    ensures var s' := Apply(s, step, ttlMs);
            && s.calls <= s'.calls && s.scm <= s'.scm
            && (step == MergedElsewhere(run) ==> run in s'.scm)
            && (run in s'.scm ==> run in s.scm || step == MergedElsewhere(run) || MergedByCall(s', run))
            && (MergedByCall(s', run) ==> MergedByCall(s, run) || run in s'.scm)
  {
    var s' := Apply(s, step, ttlMs);
    if run in s'.scm && run !in s.scm && step != MergedElsewhere(run) {
      assert s'.calls[|s.calls|] in s'.calls;
    }
  }

  /** A pull request is merged exactly when it was from the start, somebody else merged it, or a call of
    * this protocol did. */
  lemma {:induction false} ScmOrigin(states: seq<State>, steps: seq<Step>, ttlMs: nat, i: nat, run: RunId)
    requires IsRun(states, steps, ttlMs) && i < |states|
    ensures run in states[i].scm <==>
              run in states[0].scm || MergedElsewhereBefore(steps, i, run) || MergedByCall(states[i], run)
  {
    if i > 0 {
      ScmOrigin(states, steps, ttlMs, i - 1, run);
      RunStepMerges(states, steps, ttlMs, i - 1, run);
      assert MergedElsewhereBefore(steps, i, run) <==>
             MergedElsewhereBefore(steps, i - 1, run) || steps[i - 1] == MergedElsewhere(run);
    }
  }

  lemma RunStepMerges(states: seq<State>, steps: seq<Step>, ttlMs: nat, n: nat, run: RunId)
    requires IsRun(states, steps, ttlMs) && n < |steps|
    ensures run in states[n + 1].scm ==>
              run in states[n].scm || steps[n] == MergedElsewhere(run) || MergedByCall(states[n + 1], run)
    ensures run in states[n].scm || steps[n] == MergedElsewhere(run) ==> run in states[n + 1].scm
    ensures MergedByCall(states[n], run) ==> MergedByCall(states[n + 1], run)
    ensures MergedByCall(states[n + 1], run) ==> MergedByCall(states[n], run) || run in states[n + 1].scm
  {
    assert IsStep(states, steps, ttlMs, n);
    StepMerges(states[n], steps[n], ttlMs, run);
    if MergedByCall(states[n], run) {
      var call :| call in states[n].calls && call.run == run && call.Merges();
      assert call in states[n + 1].calls;
    }
  }
}
