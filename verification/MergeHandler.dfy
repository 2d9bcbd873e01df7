/** The handlers of `merge-if-ready` and `finalize-if-github-merged` in their own, stepwise form. The system
  * keeps, as ghost state, the run of the merge protocol that led to its contents. At every await any other
  * request, the SCM and the clock may take any number of steps (`Await`), and the awaited operation may fail
  * with or without having taken effect. Each handler is proved to extend the run by protocol steps only, and
  * to take the branch the protocol takes, so everything proved about runs holds for it. */
module MergeHandler {
  import opened Prelude
  import opened RouteIdempotency
  import opened FeatureExecution
  import opened MergeModel
  import opened MergeSafety
  import opened MergeTraces
  import opened MergeRuns
  import opened MergeRejections
  import opened MergeGate

  /** The steps of others leave a request where it is. */
  lemma {:induction false} OthersLeaveRequest(states: seq<State>, steps: seq<Step>, ttlMs: nat, i: nat, j: nat, r: ReqId)
    requires IsRun(states, steps, ttlMs) && i <= j < |states|
    requires forall n | i <= n < j :: Spares(steps[n], r)
    ensures r in states[i].requests <==> r in states[j].requests
    ensures r in states[i].requests ==> states[j].requests[r] == states[i].requests[r]
    decreases j - i
  {
    if i < j {
      OthersLeaveRequest(states, steps, ttlMs, i, j - 1, r);
      RunStepSpares(states, steps, ttlMs, j - 1, r);
    }
  }

  /** `Apply`, when the handler decides where to go on. */
  function StateAfter(s: State, r: ReqId, choice: Choice, next: Pc, ttlMs: nat): State
    requires r in s.requests
  {
    var q, claims := s.requests[r], ClaimsAfter(s, r, choice, ttlMs);
    var q' := q.(pc := next,
                 merged := q.merged || (q.pc.CallMerge? && choice == Accept),
                 stored := if q.pc.Responding? && choice != Fail(false) then Some(q.pc.response) else q.stored,
                 insertErred := q.insertErred || (q.pc.InsertClaim? && choice == Fail(true) && !Taken(s.claims, q.key)),
                 releaseFailed := q.releaseFailed || (q.pc.Releasing? && choice == Fail(false)));
    State(
      s.clock,
      claims,
      LedgerAfter(s, r, choice, ttlMs),
      if q.pc.CallMerge? && (choice == Accept || choice == Fail(true)) then s.scm + {q.run} else s.scm,
      s.requests[r := q'],
      if q.pc.DeleteExpired? then s.lapsed + (s.claims.Keys - claims.Keys) else s.lapsed,
      if q.pc.CallMerge? then s.calls + [Call(r, q.key, q.run, choice)] else s.calls)
  }

  lemma StateAfterIsApply(s: State, r: ReqId, choice: Choice, next: Pc, ttlMs: nat)
    requires r in s.requests && Possible(s, s.requests[r], choice) && next == PcAfter(s, r, choice)
    ensures StateAfter(s, r, choice, next, ttlMs) == Apply(s, Advance(r, choice), ttlMs)
  {
  }

  /** What responding and releasing make of the request's row. */
  lemma RowAfter(s: State, r: ReqId, choice: Choice, ttlMs: nat)
    requires r in s.requests && Possible(s, s.requests[r], choice)
    ensures var q, claims := s.requests[r], ClaimsAfter(s, r, choice, ttlMs);
            && (q.pc.Responding? && choice == Go && r in claims ==> claims[r].result == Some(q.pc.response))
            && (q.pc.Releasing? && choice != Fail(false) ==> r !in claims)
  {
  }

  /** How the try block of `merge-if-ready` ends. */
  datatype Ending = Responded(response: Response) | Threw

  class MergeServer {
    const ttlMs: nat
    var state: State
    ghost var states: seq<State>
    ghost var steps: seq<Step>
    /** How the operation that is being awaited turns out; not for the handlers to choose. */
    ghost var awaited: Option<Choice>

    ghost predicate Valid()
      reads this
    {
      IsRun(states, steps, ttlMs) && states[|steps|] == state
    }

    constructor (ttlMs: nat, ledger: Ledger, scm: set<RunId>)
      requires ledger.cache == map[] && ledger.events == []
      requires forall run <- ledger.runs :: ledger.runs[run].state == Merged ==> run in scm
      ensures Valid() && steps == [] && this.ttlMs == ttlMs
    {
      this.ttlMs := ttlMs;
      state := State(0, map[], ledger, scm, map[], {}, []);
      states := [State(0, map[], ledger, scm, map[], {}, [])];
      steps := [];
      awaited := None;
    }

    /** Request `r` is this request and stands at `pc`. */
    predicate At(r: ReqId, key: Key, run: RunId, pc: Pc, merged: bool)
      reads this
    {
      && r in state.requests
      && state.requests[r].key == key && state.requests[r].run == run
      && state.requests[r].pc == pc && state.requests[r].merged == merged
    }

    /** The response of `r` is stored, and its claim, unless deleted as expired, holds it. */
    predicate HoldsResponse(r: ReqId, response: Response)
      reads this
    {
      && r in state.requests && state.requests[r].stored == Some(response)
      && (r in state.claims ==> state.claims[r].result == Some(response))
    }

    method Start(step: Step)
      requires Valid() && (step.NewMerge? || step.NewFinalize?) && Enabled(state, step)
      modifies this
      ensures Valid() && steps == old(steps) + [step]
      ensures step.NewMerge? ==> At(step.r, step.key, step.run, DeleteExpired, false)
      ensures step.NewFinalize? ==> At(step.r, "", step.run, FinalizeFetch, false)
    {
      RunSnoc(states, steps, ttlMs, step);
      var q := if step.NewMerge? then NewRequest(step.key, step.run, state.clock, DeleteExpired)
               else NewRequest("", step.run, state.clock, FinalizeFetch);
      state := state.(requests := state.requests[step.r := q]);
      states := states + [state];
      steps := steps + [step];
    }

    /** The operation awaited by `r` turns out as it does, and the handler goes on at `next`. */
    method Perform(r: ReqId, choice: Choice, next: Pc)
      requires Valid() && r in state.requests && Possible(state, state.requests[r], choice) && awaited == Some(choice)
      requires next == PcAfter(state, r, choice)
      modifies this
      ensures Valid() && steps == old(steps) + [Advance(r, choice)]
      ensures At(r, old(state.requests[r].key), old(state.requests[r].run), next,
                 old(state.requests[r].merged) || (old(state.requests[r].pc.CallMerge?) && choice == Accept))
      ensures old(state.requests[r].pc.Responding?) && choice == Go ==>
                HoldsResponse(r, old(state.requests[r].pc.response))
      ensures old(state.requests[r].pc.Releasing?) ==> r !in state.claims || state.requests[r].releaseFailed
    {
      RunSnoc(states, steps, ttlMs, Advance(r, choice));
      RowAfter(state, r, choice, ttlMs);
      StateAfterIsApply(state, r, choice, next, ttlMs);
      state := StateAfter(state, r, choice, next, ttlMs);
      states := states + [state];
      steps := steps + [Advance(r, choice)];
    }

    /** Whatever happens meanwhile: callers know no more than this contract says. */
    method Meanwhile(ghost r: ReqId)
      requires Valid()
      modifies this
      ensures Valid() && old(states) <= states && old(steps) <= steps
      ensures forall n | |old(steps)| <= n < |steps| :: Spares(steps[n], r)
    {
    }

    /** An await of request `r`, and how the awaited operation turns out: the gate may block, the SCM accept,
      * reject or confirm, and any operation fail, `Fail(true)` after, `Fail(false)` before taking effect. */
    method Await(r: ReqId) returns (reply: Choice)
      requires Valid() && r in state.requests && !state.requests[r].pc.IsEnded()
      modifies this
      ensures Valid() && old(steps) <= steps
      ensures r in state.requests && state.requests[r] == old(state.requests[r])
      ensures Possible(state, state.requests[r], reply) && awaited == Some(reply)
    {
      ghost var n := |steps|;
      Meanwhile(r);
      OthersLeaveRequest(states, steps, ttlMs, n, |steps|, r);
      var any: Choice := *;
      reply := if Possible(state, state.requests[r], any) then any
               else if state.requests[r].pc.CallMerge? then Fail(false) else Go;
      awaited := Some(reply);
    }

    // ---------- merge-if-ready ----------

    method MergeIfReady(r: ReqId, key: Key, run: RunId) returns (answer: Option<Response>)
      requires Valid() && r !in state.requests && key != ""
      modifies this
      ensures Valid() && old(steps) <= steps
      ensures exists merged :: At(r, key, run, Done(answer), merged)
      ensures answer.Some? && answer.value.MergeRecorded? ==> SuccessStands(key, run, answer.value.run)
      ensures answer.Some? && answer.value.Rejected? ==> RejectionStands(key, answer.value.autoClearable)
      ensures ClaimIsSettled(r) && CallsAreGated(r)
      ensures WasBlocked(r) ==>
                (answer == None || answer == Some(GateBlocked)) && forall call <- state.calls :: call.req != r
    {
      answer := HandleMerge(r, key, run);
      ghost var n := |steps|;
      if answer.Some? && answer.value.MergeRecorded? {
        var a := SuccessIsRecorded(states, steps, ttlMs, n, r);
      }
      if answer.Some? && answer.value.Rejected? {
        var a, c, m, d := AnsweredRejection(states, steps, ttlMs, n, r);
      }
      UnfulfilledExactly(states, steps, ttlMs, n, r);
      GateCalls(r);
      if WasBlocked(r) {
        var b: nat :| b < |steps| && steps[b] == Advance(r, Block);
        BlockedNeverCalls(states, steps, ttlMs, b, n, r);
      }
    }

    /** The gate has blocked request `r`. */
    ghost predicate WasBlocked(r: ReqId)
      reads this
    {
      exists b: nat | b < |steps| :: steps[b] == Advance(r, Block)
    }

    /** Every merge call of `r` is made by the owner of the key, past the gate, for a run at merge_ready. */
    ghost predicate CallsAreGated(r: ReqId)
      reads this
    {
      forall n: nat | n < |state.calls| && state.calls[n].req == r :: IsGatedCall(r, n)
    }

    ghost predicate IsGatedCall(r: ReqId, n: nat)
      requires n < |state.calls|
      reads this
    {
      |states| == |steps| + 1
      && exists w, g, m, k: nat | k < |steps| :: Makes(states, steps, k, n, state.calls[n]) && IsGated(states, steps, r, w, g, m, k)
    }

    lemma GateCalls(r: ReqId)
      requires Valid()
      ensures CallsAreGated(r)
    {
      forall n: nat | n < |state.calls| && state.calls[n].req == r ensures IsGatedCall(r, n) {
        var k := CallHasStep(states, steps, ttlMs, |steps|, n);
        var w, g, m := CallIsGated(states, steps, ttlMs, k, n, state.calls[n]);
      }
    }

    /** What a 200 reports is recorded and true; it is the request's own run if its key is used for one run. */
    ghost predicate SuccessStands(key: Key, run: RunId, reported: RunId)
      reads this
    {
      IsMerged(state.ledger, reported) && reported in state.scm && (Dedicated(state, key) ==> reported == run)
    }

    /** A 409 after a rejection is the stored answer of a request with this key, and that rejection is recorded
      * and resolved if and only if its two commands found nothing cached. */
    ghost predicate RejectionStands(key: Key, autoClearable: bool)
      reads this
    {
      exists a, c, m, n :: a in state.requests && state.requests[a].key == key
        && state.requests[a].stored == Some(Rejected(autoClearable))
        && |states| == |steps| + 1 && states[|steps|] == state
        && IsRecordedExactly(states, steps, |steps|, a, autoClearable, c, m, n)
    }

    /** The handled request `r` has left its claim unfulfilled exactly for one of these causes. */
    ghost predicate ClaimIsSettled(r: ReqId)
      reads this
    {
      && r in state.requests
      && var q, unfulfilled := state.requests[r], r in state.claims && state.claims[r].result.None?;
         var cause := q.stored.None? && (q.merged || q.releaseFailed || q.insertErred);
         |states| == |steps| + 1 && (unfulfilled <==> cause && !ExpiredBefore(states, steps, |steps|, r))
    }

    method HandleMerge(r: ReqId, key: Key, run: RunId) returns (answer: Option<Response>)
      requires Valid() && r !in state.requests && key != ""
      modifies this
      ensures Valid() && old(steps) <= steps
      ensures exists merged :: At(r, key, run, Done(answer), merged)
    {
      Start(NewMerge(r, key, run));
      var settled := ClaimKey(r, key, run);
      if settled.Some? {
        assert At(r, key, run, Done(settled.value), false);
        return settled.value;
      }
      var ending, mergeSucceeded := TryMerge(r, key, run);
      match ending {
        case Responded(response) =>
          assert At(r, key, run, Done(Some(response)), mergeSucceeded);
          return Some(response);
        case Threw =>
          if !mergeSucceeded {
            ReleaseKey(r, key, run);
          }
          assert At(r, key, run, Done(None), mergeSucceeded);
          return None;
      }
    }

    /** Claim the key; `Some` when another request holds it and this one ends here. */
    method ClaimKey(r: ReqId, key: Key, run: RunId) returns (settled: Option<Option<Response>>)
      requires Valid() && At(r, key, run, DeleteExpired, false)
      modifies this
      ensures Valid() && old(steps) <= steps
      ensures At(r, key, run, if settled.Some? then Done(settled.value) else FetchRun, false)
    {
      var reply := Await(r);
      if reply.Fail? {
        Perform(r, reply, Done(None));
        return Some(None);
      }
      Perform(r, Go, InsertClaim);
      reply := Await(r);
      if reply.Fail? {
        Perform(r, reply, Done(None));
        return Some(None);
      }
      var inserted := if Taken(state.claims, key) then 0 else 1;
      Perform(r, Go, if inserted == 1 then FetchRun else ReadClaim);
      if inserted == 1 {
        return None;
      }
      var answer := ReadOutcome(r, key, run);
      return Some(answer);
    }

    method ReadOutcome(r: ReqId, key: Key, run: RunId) returns (answer: Option<Response>)
      requires Valid() && At(r, key, run, ReadClaim, false)
      modifies this
      ensures Valid() && old(steps) <= steps && At(r, key, run, Done(answer), false)
    {
      var reply := Await(r);
      if reply.Fail? {
        Perform(r, reply, Done(None));
        return None;
      }
      answer := ReadLive(key, state.requests[r].now);
      Perform(r, Go, Done(answer));
    }

    /** The SELECT of the live row; a row without a result, or none, reads as a request in progress. */
    method ReadLive(key: Key, now: int) returns (answer: Option<Response>)
      requires Valid()
      ensures answer == LiveResult(state.claims, key, now)
    {
      if exists a <- state.claims :: Live(state.claims, a, key, now) {
        var a :| a in state.claims && Live(state.claims, a, key, now);
        RunInv(states, steps, ttlMs, |steps|);
        LiveResultIsOwners(state.claims, key, now, a);
        return state.claims[a].result;
      }
      return None;
    }

    /** The try block. */
    method TryMerge(r: ReqId, key: Key, run: RunId) returns (ending: Ending, mergeSucceeded: bool)
      requires Valid() && At(r, key, run, FetchRun, false)
      modifies this
      ensures Valid() && old(steps) <= steps && At(r, key, run, EndOf(ending, mergeSucceeded), mergeSucceeded)
    {
      var version := FetchFeatureRun(r, key, run);
      if version.None? {
        return Ending.Threw, false;
      }
      var passed := PassGate(r, key, run, version.value);
      match passed {
        case GateThrew => return Ending.Threw, false;
        case GateBlocks =>
          ending := Respond(r, key, run, GateBlocked, false);
          return ending, false;
        case Passed =>
      }
      version := FetchMergeReady(r, key, run);
      if version.None? {
        return Ending.Threw, false;
      }
      ending, mergeSucceeded := MergePullRequest(r, key, run, version.value);
    }

    method FetchFeatureRun(r: ReqId, key: Key, run: RunId) returns (version: Option<nat>)
      requires Valid() && At(r, key, run, FetchRun, false)
      modifies this
      ensures Valid() && old(steps) <= steps
      ensures At(r, key, run, if version.Some? then MakeReady(version.value) else Releasing, false)
    {
      var reply := Await(r);
      if reply.Fail? || run !in state.ledger.runs {
        Perform(r, reply, Releasing);
        return None;
      }
      version := Some(state.ledger.runs[run].version);
      Perform(r, Go, MakeReady(version.value));
    }

    /** Fetch the run again; it must be merge-ready now. */
    method FetchMergeReady(r: ReqId, key: Key, run: RunId) returns (version: Option<nat>)
      requires Valid() && At(r, key, run, CheckReady, false)
      modifies this
      ensures Valid() && old(steps) <= steps
      ensures At(r, key, run, if version.Some? then CallMerge(version.value) else Releasing, false)
    {
      var reply := Await(r);
      if reply.Fail? || run !in state.ledger.runs || state.ledger.runs[run].state != MergeReady {
        Perform(r, reply, Releasing);
        return None;
      }
      version := Some(state.ledger.runs[run].version);
      Perform(r, Go, CallMerge(version.value));
    }

    /** `MergeIfReadyHandler`; what its gate looks at is not modelled, so it may block at any time. */
    method PassGate(r: ReqId, key: Key, run: RunId, version: nat) returns (passed: GateResult)
      requires Valid() && At(r, key, run, MakeReady(version), false)
      modifies this
      ensures Valid() && old(steps) <= steps
      ensures At(r, key, run,
                 match passed { case Passed => CheckReady case GateBlocks => Responding(GateBlocked) case GateThrew => Releasing }, false)
      ensures passed.GateBlocks? <==> |steps| > 0 && steps[|steps| - 1] == Advance(r, Block)
    {
      var reply := Await(r);
      var commandKey := RouteKey(key, MergeIfReadyCommand);
      var outcome := Outcomes(state.ledger, commandKey, run, version, MergeReady, state.clock);
      if reply.Fail? {
        Perform(r, reply, Releasing);
        return GateThrew;
      } else if reply == Block {
        Perform(r, reply, Responding(GateBlocked));
        return GateBlocks;
      } else if outcome.Threw? {
        Perform(r, Go, Releasing);
        return GateThrew;
      }
      Perform(r, Go, CheckReady);
      return Passed;
    }

    /** The inner try block: call the SCM, and record what it said. */
    method MergePullRequest(r: ReqId, key: Key, run: RunId, version: nat) returns (ending: Ending, mergeSucceeded: bool)
      requires Valid() && At(r, key, run, CallMerge(version), false)
      modifies this
      ensures Valid() && old(steps) <= steps && At(r, key, run, EndOf(ending, mergeSucceeded), mergeSucceeded)
    {
      mergeSucceeded := false;
      var reply := Await(r);
      if reply.Fail? {
        Perform(r, reply, Releasing);
        return Ending.Threw, false;
      }
      if reply.Reject? {
        Perform(r, reply, RecordingFailure(version, reply.autoClearable));
        ending := RecordRejection(r, key, run, version, reply.autoClearable);
        return;
      }
      Perform(r, Accept, RecordingMerge(version));
      mergeSucceeded := true;
      ending := RecordMerge(r, key, run, version);
    }

    method RecordMerge(r: ReqId, key: Key, run: RunId, version: nat) returns (ending: Ending)
      requires Valid() && At(r, key, run, RecordingMerge(version), true)
      modifies this
      ensures Valid() && old(steps) <= steps && At(r, key, run, EndOf(ending, true), true)
    {
      var reply := Await(r);
      var outcome := Outcomes(state.ledger, RouteKey(key, RecordMerged), run, version, Merged, state.clock);
      if reply.Fail? || outcome.Threw? {
        Perform(r, reply, Done(None));
        return Ending.Threw;
      }
      var response := MergeRecorded(if outcome.Replayed? then outcome.run else run);
      Perform(r, Go, Responding(response));
      ending := Respond(r, key, run, response, true);
    }

    /** The inner catch block: record the rejection, then reconcile or escalate. */
    method RecordRejection(r: ReqId, key: Key, run: RunId, version: nat, autoClearable: bool) returns (ending: Ending)
      requires Valid() && At(r, key, run, RecordingFailure(version, autoClearable), false)
      modifies this
      ensures Valid() && old(steps) <= steps && At(r, key, run, EndOf(ending, false), false)
    {
      var reply := Await(r);
      var outcome := Outcomes(state.ledger, RouteKey(key, RecordMergeFailed), run, version, MergeFailed, state.clock);
      if reply.Fail? || outcome.Threw? {
        Perform(r, reply, Releasing);
        return Ending.Threw;
      }
      Perform(r, Go, FetchFailed(autoClearable));
      var failedVersion := FetchFailedRun(r, key, run, autoClearable);
      if failedVersion.None? {
        return Ending.Threw;
      }
      ending := Resolve(r, key, run, failedVersion.value, autoClearable);
    }

    method FetchFailedRun(r: ReqId, key: Key, run: RunId, autoClearable: bool) returns (version: Option<nat>)
      requires Valid() && At(r, key, run, FetchFailed(autoClearable), false)
      modifies this
      ensures Valid() && old(steps) <= steps
      ensures At(r, key, run, if version.Some? then Resolving(version.value, autoClearable) else Releasing, false)
    {
      var reply := Await(r);
      if reply.Fail? || run !in state.ledger.runs {
        Perform(r, reply, Releasing);
        return None;
      }
      version := Some(state.ledger.runs[run].version);
      Perform(r, Go, Resolving(version.value, autoClearable));
    }

    /** A rejection that clears by itself returns the run to review; any other goes to a human. */
    method Resolve(r: ReqId, key: Key, run: RunId, version: nat, autoClearable: bool) returns (ending: Ending)
      requires Valid() && At(r, key, run, Resolving(version, autoClearable), false)
      modifies this
      ensures Valid() && old(steps) <= steps && At(r, key, run, EndOf(ending, false), false)
    {
      var reply := Await(r);
      var outcome := if autoClearable
        then Outcomes(state.ledger, RouteKey(key, ReconcileMergeFailed), run, version, UnderReview, state.clock)
        else Outcomes(state.ledger, RouteKey(key, EscalateToHuman), run, version, HumanRequired, state.clock);
      if reply.Fail? || outcome.Threw? {
        Perform(r, reply, Releasing);
        return Ending.Threw;
      }
      Perform(r, Go, Responding(Rejected(autoClearable)));
      ending := Respond(r, key, run, Rejected(autoClearable), false);
    }

    /** `respond`: store the response in the claim, then send it. */
    method Respond(r: ReqId, key: Key, run: RunId, response: Response, merged: bool) returns (ending: Ending)
      requires Valid() && At(r, key, run, Responding(response), merged)
      modifies this
      ensures Valid() && old(steps) <= steps && At(r, key, run, EndOf(ending, merged), merged)
      ensures if ending.Responded? then ending == Responded(response) && HoldsResponse(r, response) else ending.Threw?
    {
      var reply := Await(r);
      if reply.Fail? {
        Perform(r, reply, EndOf(Ending.Threw, merged));
        return Ending.Threw;
      }
      Perform(r, Go, Done(Some(response)));
      return Responded(response);
    }

    /** The outer catch block before the point of no return. */
    method ReleaseKey(r: ReqId, key: Key, run: RunId)
      requires Valid() && At(r, key, run, Releasing, false)
      modifies this
      ensures Valid() && old(steps) <= steps && At(r, key, run, Done(None), false)
      ensures r !in state.claims || state.requests[r].releaseFailed
    {
      var reply := Await(r);
      Perform(r, reply, Done(None));
    }

    // ---------- finalize-if-github-merged ----------

    method FinalizeIfMerged(r: ReqId, run: RunId) returns (answer: Option<Response>)
      requires Valid() && r !in state.requests
      modifies this
      ensures Valid() && old(steps) <= steps && At(r, "", run, Done(answer), false)
      ensures answer.Some? ==> IsMerged(state.ledger, run) && run in state.scm
    {
      Start(NewFinalize(r, run));
      answer := ObserveAndRecord(r, run);
      if answer == Some(AlreadyRecorded) {
        AlreadyRecordedIsTrue(states, steps, ttlMs, |steps|, r);
        NoPhantomMerge(states, steps, ttlMs, |steps|, run);
      } else if answer.Some? {
        var a := SuccessIsRecorded(states, steps, ttlMs, |steps|, r);
      }
    }

    method ObserveAndRecord(r: ReqId, run: RunId) returns (answer: Option<Response>)
      requires Valid() && At(r, "", run, FinalizeFetch, false)
      modifies this
      ensures Valid() && old(steps) <= steps && At(r, "", run, Done(answer), false)
      ensures answer.Some? ==> answer.value.AlreadyRecorded? || answer.value.MergeRecorded?
    {
      var reply := Await(r);
      if reply.Fail? || run !in state.ledger.runs {
        Perform(r, reply, Done(None));
        return None;
      }
      assert reply == Go;
      var fetched := state.ledger.runs[run];
      if fetched.state == MergeReady {
        Perform(r, reply, FinalizeObserve(fetched.version));
        answer := Observe(r, run, fetched.version);
        return;
      }
      answer := if fetched.state == Merged then Some(AlreadyRecorded) else None;
      Perform(r, reply, Done(answer));
    }

    /** Ask the SCM, and record a merge only if it confirms one. */
    method Observe(r: ReqId, run: RunId, version: nat) returns (answer: Option<Response>)
      requires Valid() && At(r, "", run, FinalizeObserve(version), false)
      modifies this
      ensures Valid() && old(steps) <= steps && At(r, "", run, Done(answer), false)
      ensures answer.Some? ==> answer.value.MergeRecorded?
    {
      var reply := Await(r);
      if !reply.Observe? {
        Perform(r, reply, Done(None));
        return None;
      }
      Perform(r, reply, FinalizeRecord(version, reply.sha));
      answer := RecordObserved(r, run, version, reply.sha);
    }

    method RecordObserved(r: ReqId, run: RunId, version: nat, sha: string) returns (answer: Option<Response>)
      requires Valid() && At(r, "", run, FinalizeRecord(version, sha), false)
      modifies this
      ensures Valid() && old(steps) <= steps && At(r, "", run, Done(answer), false)
      ensures answer.Some? ==> answer.value.MergeRecorded?
    {
      var reply := Await(r);
      var outcome := Outcomes(state.ledger, FinalizeKey(run, sha), run, version, Merged, state.clock);
      if reply.Fail? || outcome.Threw? {
        Perform(r, reply, Done(None));
        return None;
      }
      answer := Some(MergeRecorded(if outcome.Replayed? then outcome.run else run));
      Perform(r, Go, Done(answer));
    }
  }

  datatype GateResult = Passed | GateBlocks | GateThrew

  /** Where a request stands when its try block has ended. */
  function EndOf(ending: Ending, mergeSucceeded: bool): Pc {
    match ending
    case Responded(response) => Done(Some(response))
    case Threw => if mergeSucceeded then Done(None) else Releasing
  }
}
