/** Runs in which the merge routes do not do what their documentation says. */
module MergeScenarios {
  import opened Prelude
  import opened RouteIdempotency
  import opened FeatureExecution
  import opened MergeModel
  import opened MergeTraces
  import opened MergeRejections

  /** A run under construction. */
  datatype Run = Run(states: seq<State>, steps: seq<Step>) {
    ghost predicate Valid(ttlMs: nat) { IsRun(states, steps, ttlMs) }
    function Last(): State
      requires |states| > 0
    { states[|states| - 1] }
  }

  lemma Then(run: Run, step: Step, ttlMs: nat) returns (next: Run)
    requires run.Valid(ttlMs) && Enabled(run.Last(), step)
    ensures next.Valid(ttlMs) && next.Last() == Apply(run.Last(), step, ttlMs)
    ensures next.steps == run.steps + [step] && run.states <= next.states
  {
    RunSnoc(run.states, run.steps, ttlMs, step);
    next := Run(run.states + [Apply(run.Last(), step, ttlMs)], run.steps + [step]);
  }

  /** A new request claims its key and fetches its run. */
  lemma WinClaim(run: Run, r: ReqId, ttlMs: nat) returns (next: Run)
    requires run.Valid(ttlMs) && r in run.Last().requests && run.Last().requests[r].pc.DeleteExpired?
    requires forall a <- run.Last().claims :: run.Last().claims[a].key == run.Last().requests[r].key ==>
               run.Last().claims[a].expiresAt <= run.Last().requests[r].now
    requires run.Last().requests[r].run in run.Last().ledger.runs
    ensures next.Valid(ttlMs)
    ensures var s, q := run.Last(), run.Last().requests[r];
            && next.Last().requests == s.requests[r := q.(pc := MakeReady(s.ledger.runs[q.run].version))]
            && next.Last().ledger == s.ledger && next.Last().scm == s.scm && next.Last().clock == s.clock
            && next.Last().calls == s.calls
            && next.Last().claims == WithoutExpired(s.claims, q.key, q.now)[r := Claim(q.key, None, q.now + ttlMs)]
  {
    next := Then(run, Advance(r, Go), ttlMs);
    assert !Taken(next.Last().claims, next.Last().requests[r].key);
    next := Then(next, Advance(r, Go), ttlMs);
    next := Then(next, Advance(r, Go), ttlMs);
  }

  function Start(runs: map<RunId, FeatureRun>): State {
    StartWith(runs, {})
  }

  function StartWith(runs: map<RunId, FeatureRun>, scm: set<RunId>): State {
    State(0, map[], Ledger(runs, map[], []), scm, map[], {}, [])
  }

  // ---------- the stretches of a request between two points of its handler ----------

  ghost predicate At(s: State, r: ReqId, pc: Pc) {
    r in s.requests && s.requests[r].pc == pc
  }

  ghost predicate OthersSame(s: State, s': State, r: ReqId) {
    forall other <- s.requests :: other != r ==> other in s'.requests && s'.requests[other] == s.requests[other]
  }

  /** What a stretch leaves alone: the identity of `r`, the other requests, and the clock. */
  ghost predicate SameRequest(s: State, s': State, r: ReqId) {
    && r in s.requests && r in s'.requests && s'.clock == s.clock
    && s'.requests[r].key == s.requests[r].key && s'.requests[r].run == s.requests[r].run
    && s'.requests.Keys == s.requests.Keys && OthersSame(s, s', r)
  }

  /** The merge-ready command, executed or replayed, and the check that the run is at merge_ready. */
  lemma GetReady(run: Run, r: ReqId, v: nat, ttlMs: nat) returns (next: Run)
    requires run.Valid(ttlMs) && At(run.Last(), r, MakeReady(v)) && CanGetReady(run.Last(), run.Last().requests[r], v)
    ensures next.Valid(ttlMs)
    ensures var s, q, s' := run.Last(), run.Last().requests[r], next.Last();
            && SameRequest(s, s', r) && s'.scm == s.scm && s'.calls == s.calls && s'.claims == s.claims
            && s'.ledger == AfterCommand(s.ledger, r, RouteKey(q.key, MergeIfReadyCommand), q.run, v, MergeReady, s.clock, ttlMs)
            && q.run in s'.ledger.runs && At(s', r, CallMerge(s'.ledger.runs[q.run].version))
            && s'.requests[r].merged == q.merged
  {
    next := BecomeReady(run, r, v, ttlMs);
    next := Then(next, Advance(r, Go), ttlMs);
  }

  ghost predicate CanGetReady(s: State, q: Request, v: nat) {
    && q.run in s.ledger.runs
    && s.ledger.runs[q.run] ==
       FeatureRun(if IsCached(s.ledger, RouteKey(q.key, MergeIfReadyCommand), s.clock) then MergeReady else ApprovedByPolicy, v)
  }

  lemma BecomeReady(run: Run, r: ReqId, v: nat, ttlMs: nat) returns (next: Run)
    requires run.Valid(ttlMs) && At(run.Last(), r, MakeReady(v)) && CanGetReady(run.Last(), run.Last().requests[r], v)
    ensures next.Valid(ttlMs)
    ensures var s, q, s' := run.Last(), run.Last().requests[r], next.Last();
            && SameRequest(s, s', r) && s'.scm == s.scm && s'.calls == s.calls && s'.claims == s.claims
            && s'.ledger == AfterCommand(s.ledger, r, RouteKey(q.key, MergeIfReadyCommand), q.run, v, MergeReady, s.clock, ttlMs)
            && q.run in s'.ledger.runs && s'.ledger.runs[q.run].state == MergeReady
            && At(s', r, CheckReady) && s'.requests[r].merged == q.merged
  {
    next := Then(run, Advance(r, Go), ttlMs);
  }

  /** The SCM merges, the reply is lost, and the claim is released. */
  lemma LoseReply(run: Run, r: ReqId, v: nat, ttlMs: nat) returns (next: Run)
    requires run.Valid(ttlMs) && At(run.Last(), r, CallMerge(v)) && !run.Last().requests[r].merged
    ensures next.Valid(ttlMs)
    ensures var s, q, s' := run.Last(), run.Last().requests[r], next.Last();
            && SameRequest(s, s', r) && s'.scm == s.scm + {q.run} && s'.calls == s.calls + [Call(r, q.key, q.run, Fail(true))]
            && s'.claims == s.claims - {r} && s'.ledger == s.ledger
  {
    next := Then(run, Advance(r, Fail(true)), ttlMs);
    next := Then(next, Advance(r, Go), ttlMs);
  }

  /** The SCM merges; the recording is executed or replayed; the response is stored and sent. */
  lemma MergeAndRespond(run: Run, r: ReqId, v: nat, reported: RunId, ttlMs: nat) returns (next: Run)
    requires run.Valid(ttlMs) && At(run.Last(), r, CallMerge(v))
    requires var s, q := run.Last(), run.Last().requests[r];
             Outcomes(s.ledger, RouteKey(q.key, RecordMerged), q.run, v, Merged, s.clock)
             == if reported == q.run then Executed else Replayed(reported)
    ensures next.Valid(ttlMs)
    ensures var s, q, s' := run.Last(), run.Last().requests[r], next.Last();
            && SameRequest(s, s', r) && s'.scm == s.scm + {q.run}
            && s'.ledger == AfterCommand(s.ledger, r, RouteKey(q.key, RecordMerged), q.run, v, Merged, s.clock, ttlMs)
            && s'.claims == WithResult(s.claims, r, MergeRecorded(reported))
            && At(s', r, Done(Some(MergeRecorded(reported))))
  {
    next := Then(run, Advance(r, Accept), ttlMs);
    next := Then(next, Advance(r, Go), ttlMs);
    assert At(next.Last(), r, Responding(MergeRecorded(reported)));
    next := Then(next, Advance(r, Go), ttlMs);
  }

  /** The SCM rejects the merge for good, and the recording is executed or replayed. */
  lemma GetRejected(run: Run, r: ReqId, v: nat, ttlMs: nat) returns (next: Run)
    requires run.Valid(ttlMs) && At(run.Last(), r, CallMerge(v))
    requires var s, q := run.Last(), run.Last().requests[r];
             !Outcomes(s.ledger, RouteKey(q.key, RecordMergeFailed), q.run, v, MergeFailed, s.clock).Threw?
    ensures next.Valid(ttlMs) && run.states <= next.states
    ensures |run.steps| < |next.steps| && next.steps[|run.steps|] == Advance(r, Reject(false))
    ensures var s, q, s' := run.Last(), run.Last().requests[r], next.Last();
            && SameRequest(s, s', r) && s'.scm == s.scm && s'.claims == s.claims
            && s'.calls == s.calls + [Call(r, q.key, q.run, Reject(false))]
            && s'.ledger == AfterCommand(s.ledger, r, RouteKey(q.key, RecordMergeFailed), q.run, v, MergeFailed, s.clock, ttlMs)
            && At(s', r, FetchFailed(false)) && s'.requests[r].merged == q.merged
  {
    next := Then(run, Advance(r, Reject(false)), ttlMs);
    assert At(next.Last(), r, RecordingFailure(v, false));
    next := Then(next, Advance(r, Go), ttlMs);
  }

  /** The run is fetched and escalated, and the 409 stored and sent. */
  lemma Escalate(run: Run, r: ReqId, ttlMs: nat) returns (next: Run)
    requires run.Valid(ttlMs) && At(run.Last(), r, FetchFailed(false))
    requires var s, q := run.Last(), run.Last().requests[r];
             && !IsCached(s.ledger, RouteKey(q.key, EscalateToHuman), s.clock)
             && q.run in s.ledger.runs && IsTransition(s.ledger.runs[q.run].state, HumanRequired)
    ensures next.Valid(ttlMs) && run.states <= next.states && run.steps <= next.steps
    ensures var s, q, s' := run.Last(), run.Last().requests[r], next.Last();
            && s'.scm == s.scm && s'.calls == s.calls && At(s', r, Done(Some(Rejected(false))))
            && s'.requests[r].key == q.key && s'.requests[r].run == q.run
            && q.run in s'.ledger.runs && s'.ledger.runs[q.run].state == HumanRequired
            && s'.ledger.events == s.ledger.events
               + [Event(q.run, s.ledger.runs[q.run].state, HumanRequired, Dispatched(r, RouteKey(q.key, EscalateToHuman)))]
  {
    next := ResolveByEscalating(run, r, ttlMs);
    next := Then(next, Advance(r, Go), ttlMs);
  }

  lemma ResolveByEscalating(run: Run, r: ReqId, ttlMs: nat) returns (next: Run)
    requires run.Valid(ttlMs) && At(run.Last(), r, FetchFailed(false))
    requires var s, q := run.Last(), run.Last().requests[r];
             && !IsCached(s.ledger, RouteKey(q.key, EscalateToHuman), s.clock)
             && q.run in s.ledger.runs && IsTransition(s.ledger.runs[q.run].state, HumanRequired)
    ensures next.Valid(ttlMs) && run.states <= next.states && run.steps <= next.steps
    ensures var s, q, s' := run.Last(), run.Last().requests[r], next.Last();
            && s'.scm == s.scm && s'.calls == s.calls && At(s', r, Responding(Rejected(false)))
            && s'.requests[r].key == q.key && s'.requests[r].run == q.run
            && q.run in s'.ledger.runs && s'.ledger.runs[q.run].state == HumanRequired
            && s'.ledger.events == s.ledger.events
               + [Event(q.run, s.ledger.runs[q.run].state, HumanRequired, Dispatched(r, RouteKey(q.key, EscalateToHuman)))]
  {
    next := Then(run, Advance(r, Go), ttlMs);
    assert At(next.Last(), r, Resolving(next.Last().ledger.runs[next.Last().requests[r].run].version, false));
    next := Then(next, Advance(r, Go), ttlMs);
  }

  /** A new request, up to its merge call; `delay` passes between its clock reading and its statements. */
  lemma Attempt(run: Run, r: ReqId, key: Key, f: RunId, v: nat, delay: nat, ttlMs: nat) returns (next: Run)
    requires run.Valid(ttlMs) && r !in run.Last().requests && key != "" && f in run.Last().ledger.runs
    requires forall c <- run.Last().claims :: run.Last().claims[c].key == key ==>
               run.Last().claims[c].expiresAt <= run.Last().clock
    requires run.Last().ledger.runs[f] ==
             FeatureRun(if IsCached(run.Last().ledger, RouteKey(key, MergeIfReadyCommand), run.Last().clock + delay)
                        then MergeReady else ApprovedByPolicy, v)
    ensures next.Valid(ttlMs)
    ensures var s, s' := run.Last(), next.Last();
            && s'.clock == s.clock + delay && s'.scm == s.scm && s'.calls == s.calls
            && s'.requests.Keys == s.requests.Keys + {r} && OthersSame(s, s', r)
            && s'.ledger == AfterCommand(s.ledger, r, RouteKey(key, MergeIfReadyCommand), f, v, MergeReady, s.clock + delay, ttlMs)
            && s'.claims == WithoutExpired(s.claims, key, s.clock)[r := Claim(key, None, s.clock + ttlMs)]
            && f in s'.ledger.runs && At(s', r, CallMerge(s'.ledger.runs[f].version))
            && s'.requests[r].key == key && s'.requests[r].run == f && !s'.requests[r].merged
  {
    next := Enter(run, r, key, f, v, delay, ttlMs);
    next := GetReady(next, r, v, ttlMs);
  }

  lemma Enter(run: Run, r: ReqId, key: Key, f: RunId, v: nat, delay: nat, ttlMs: nat) returns (next: Run)
    requires run.Valid(ttlMs) && r !in run.Last().requests && key != "" && f in run.Last().ledger.runs
    requires forall c <- run.Last().claims :: run.Last().claims[c].key == key ==>
               run.Last().claims[c].expiresAt <= run.Last().clock
    requires run.Last().ledger.runs[f].version == v
    ensures next.Valid(ttlMs)
    ensures var s, s' := run.Last(), next.Last();
            && s'.clock == s.clock + delay && s'.scm == s.scm && s'.calls == s.calls && s'.ledger == s.ledger
            && s'.requests.Keys == s.requests.Keys + {r} && OthersSame(s, s', r)
            && s'.claims == WithoutExpired(s.claims, key, s.clock)[r := Claim(key, None, s.clock + ttlMs)]
            && At(s', r, MakeReady(v))
            && s'.requests[r].key == key && s'.requests[r].run == f && !s'.requests[r].merged
  {
    next := Then(run, NewMerge(r, key, f), ttlMs);
    next := Then(next, Tick(delay), ttlMs);
    next := WinClaim(next, r, ttlMs);
  }

  /** The first request of a run, up to its merge call. */
  lemma FirstCall(run: Run, key: Key, f: RunId, runs: map<RunId, FeatureRun>, scm: set<RunId>) returns (next: Run)
    requires key != "" && run.Valid(10) && run.Last() == StartWith(runs, scm) && f in runs && runs[f] == FeatureRun(ApprovedByPolicy, 0)
    ensures next.Valid(10)
    ensures var s := next.Last();
            && s.clock == 0 && s.scm == scm && s.calls == [] && s.requests.Keys == {0} && At(s, 0, CallMerge(1))
            && s.requests[0].key == key && s.requests[0].run == f && !s.requests[0].merged
            && s.ledger.runs == runs[f := FeatureRun(MergeReady, 1)]
            && s.ledger.cache == map[RouteKey(key, MergeIfReadyCommand) := Cached(f, 10)]
            && s.claims == map[0 := Claim(key, None, 10)]
  {
    next := Attempt(run, 0, key, f, 0, 0, 10);
  }

  // ---------- the scenarios ----------

  /** When the reply to a successful merge is lost, the claim is released, and a retry with the same key
    * calls the SCM again: the merged pull request's run ends up escalated to a human as a failed merge. */
  lemma LostReply(key: Key, f: RunId) returns (run: Run)
    requires key != ""
    ensures run.Valid(10)
    ensures var s := run.Last();
            && |s.calls| == 2 && s.calls[0].key == s.calls[1].key && f in s.scm
            && f in s.ledger.runs && s.ledger.runs[f].state == HumanRequired
            && At(s, 1, Done(Some(Rejected(false))))
  {
    run := Run([Start(map[f := FeatureRun(ApprovedByPolicy, 0)])], []);
    run := FirstTry(run, key, f);
    run := Retry(run, key, f);
  }

  /** When the reply to a successful merge is lost, finalizing records the merge. */
  lemma FinalizeRecovers(key: Key, f: RunId, sha: string) returns (run: Run)
    requires key != ""
    ensures run.Valid(10)
    ensures var s := run.Last();
            && At(s, 1, Done(Some(MergeRecorded(f)))) && f in s.scm
            && f in s.ledger.runs && s.ledger.runs[f] == FeatureRun(Merged, 2)
  {
    run := Run([Start(map[f := FeatureRun(ApprovedByPolicy, 0)])], []);
    run := FirstTry(run, key, f);
    run := Finalize(run, key, f, sha);
  }

  lemma Finalize(run: Run, key: Key, f: RunId, sha: string) returns (next: Run)
    requires run.Valid(10)
    requires var s := run.Last();
             && 1 !in s.requests && f in s.scm && f in s.ledger.runs && s.ledger.runs[f] == FeatureRun(MergeReady, 1)
             && s.ledger.cache == map[RouteKey(key, MergeIfReadyCommand) := Cached(f, 10)]
    ensures next.Valid(10)
    ensures var s' := next.Last();
            && At(s', 1, Done(Some(MergeRecorded(f)))) && f in s'.scm
            && f in s'.ledger.runs && s'.ledger.runs[f] == FeatureRun(Merged, 2)
  {
    next := Confirm(run, key, f, sha);
    next := Then(next, Advance(1, Go), 10);
  }

  lemma Confirm(run: Run, key: Key, f: RunId, sha: string) returns (next: Run)
    requires run.Valid(10) && 1 !in run.Last().requests && f in run.Last().scm
    requires f in run.Last().ledger.runs && run.Last().ledger.runs[f] == FeatureRun(MergeReady, 1)
    ensures next.Valid(10) && next.Last().ledger == run.Last().ledger && next.Last().scm == run.Last().scm
    ensures At(next.Last(), 1, FinalizeRecord(1, sha)) && next.Last().requests[1].run == f
  {
    next := Then(run, NewFinalize(1, f), 10);
    next := Then(next, Advance(1, Go), 10);
    assert At(next.Last(), 1, FinalizeObserve(1));
    next := Then(next, Advance(1, Observe(sha)), 10);
  }

  lemma FirstTry(run: Run, key: Key, f: RunId) returns (next: Run)
    requires key != "" && run.Valid(10) && run.Last() == Start(map[f := FeatureRun(ApprovedByPolicy, 0)])
    ensures next.Valid(10)
    ensures var s := next.Last();
            && 1 !in s.requests && s.claims == map[] && s.clock == 0
            && f in s.ledger.runs && s.ledger.runs[f] == FeatureRun(MergeReady, 1)
            && s.ledger.cache == map[RouteKey(key, MergeIfReadyCommand) := Cached(f, 10)]
            && f in s.scm && |s.calls| == 1 && s.calls[0].key == key
  {
    next := Attempt(run, 0, key, f, 0, 0, 10);
    next := LoseReply(next, 0, 1, 10);
  }

  lemma Retry(run: Run, key: Key, f: RunId) returns (next: Run)
    requires key != "" && run.Valid(10)
    requires var s := run.Last();
             && 1 !in s.requests && s.claims == map[] && s.clock == 0
             && f in s.ledger.runs && s.ledger.runs[f] == FeatureRun(MergeReady, 1)
             && s.ledger.cache == map[RouteKey(key, MergeIfReadyCommand) := Cached(f, 10)]
             && f in s.scm && |s.calls| == 1 && s.calls[0].key == key
    ensures next.Valid(10)
    ensures var s := next.Last();
            && |s.calls| == 2 && s.calls[0].key == s.calls[1].key && f in s.scm
            && f in s.ledger.runs && s.ledger.runs[f].state == HumanRequired
            && At(s, 1, Done(Some(Rejected(false))))
  {
    next := Attempt(run, 1, key, f, 1, 0, 10);
    next := GetRejected(next, 1, 1, 10);
    next := Escalate(next, 1, 10);
  }

  /** No reply needs to be lost: when somebody else merges the pull request before the call, the SCM rejects
    * the call, and the merged run ends up escalated as a failed merge. */
  lemma MergedMeanwhile(key: Key, f: RunId) returns (run: Run)
    requires key != ""
    ensures run.Valid(10)
    ensures var s := run.Last();
            && |s.calls| == 1 && s.calls[0].reply == Reject(false) && f in s.scm
            && f in s.ledger.runs && s.ledger.runs[f].state == HumanRequired
            && At(s, 0, Done(Some(Rejected(false))))
  {
    run := Run([Start(map[f := FeatureRun(ApprovedByPolicy, 0)])], []);
    run := FirstCall(run, key, f, map[f := FeatureRun(ApprovedByPolicy, 0)], {});
    run := Then(run, MergedElsewhere(f), 10);
    run := RejectAndEscalate(run, key, f);
  }

  /** The first request of a run stands at its merge call. */
  ghost predicate AtFirstCall(s: State, key: Key, f: RunId) {
    && s.clock == 0 && s.calls == [] && At(s, 0, CallMerge(1))
    && s.requests[0].key == key && s.requests[0].run == f && !s.requests[0].merged
    && f in s.ledger.runs && s.ledger.runs[f] == FeatureRun(MergeReady, 1)
    && s.ledger.cache == map[RouteKey(key, MergeIfReadyCommand) := Cached(f, 10)]
  }

  lemma RejectFirst(run: Run, key: Key, f: RunId) returns (next: Run)
    requires run.Valid(10) && AtFirstCall(run.Last(), key, f)
    ensures next.Valid(10)
    ensures var s, s' := run.Last(), next.Last();
            && At(s', 0, FetchFailed(false)) && s'.requests[0].key == key && s'.requests[0].run == f && !s'.requests[0].merged
            && s'.scm == s.scm && |s'.calls| == 1 && s'.calls[0].reply == Reject(false) && s'.clock == 0
            && s'.requests.Keys == s.requests.Keys && s'.claims == s.claims
            && f in s'.ledger.runs && s'.ledger.runs[f] == FeatureRun(MergeFailed, 2)
            && s'.ledger.cache == map[RouteKey(key, MergeIfReadyCommand) := Cached(f, 10), RouteKey(key, RecordMergeFailed) := Cached(f, 10)]
  {
    next := GetRejected(run, 0, 1, 10);
  }

  lemma RejectAndEscalate(run: Run, key: Key, f: RunId) returns (next: Run)
    requires run.Valid(10) && AtFirstCall(run.Last(), key, f)
    ensures next.Valid(10)
    ensures var s, s' := run.Last(), next.Last();
            && s'.scm == s.scm && |s'.calls| == 1 && s'.calls[0].reply == Reject(false)
            && f in s'.ledger.runs && s'.ledger.runs[f].state == HumanRequired && At(s', 0, Done(Some(Rejected(false))))
  {
    next := RejectFirst(run, key, f);
    next := Escalate(next, 0, 10);
  }

  /** A second rejection of a key that is not recorded. The first request records its rejection, fails to
    * fetch the run and releases its claim; the run comes back to merge_ready; the retry is rejected again,
    * finds the recording of the first rejection cached, and escalates the run straight from merge_ready.
    * Nothing but the escalation is written after the call `c`. */
  lemma StaleRecording(key: Key, f: RunId) returns (run: Run, c: nat)
    requires key != ""
    ensures run.Valid(10) && c < |run.steps| < |run.states| && run.steps[c] == Advance(1, Reject(false))
    ensures var s := run.Last();
            && At(s, 1, Done(Some(Rejected(false)))) && s.requests[1].key == key && s.requests[1].run == f
            && s.ledger.events == run.states[c].ledger.events
               + [Event(f, MergeReady, HumanRequired, Dispatched(1, RouteKey(key, EscalateToHuman)))]
            && !RecordedAfter(s.ledger.events, |run.states[c].ledger.events|, 1, key, f, false)
  {
    run := Run([Start(map[f := FeatureRun(ApprovedByPolicy, 0)])], []);
    run := RejectedOnce(run, key, f);
    run := ReadyAgain(run, key, f);
    run, c := RejectedAgain(run, key, f);
  }

  lemma ReadyAgain(run: Run, key: Key, f: RunId) returns (next: Run)
    requires run.Valid(10) && RejectedBefore(run.Last(), key, f, FeatureRun(MergeFailed, 2))
    ensures next.Valid(10) && RejectedBefore(next.Last(), key, f, FeatureRun(MergeReady, 5))
  {
    next := Then(run, OtherCommand(f, UnderReview), 10);
    assert RejectedBefore(next.Last(), key, f, FeatureRun(UnderReview, 3));
    next := Then(next, OtherCommand(f, ApprovedByPolicy), 10);
    assert RejectedBefore(next.Last(), key, f, FeatureRun(ApprovedByPolicy, 4));
    next := Then(next, OtherCommand(f, MergeReady), 10);
  }

  /** A first request with the key has recorded a rejection and is gone. */
  predicate RejectedBefore(s: State, key: Key, f: RunId, fr: FeatureRun) {
    && s.requests.Keys == {0} && s.claims == map[] && s.clock == 0
    && f in s.ledger.runs && s.ledger.runs[f] == fr
    && s.ledger.cache == map[RouteKey(key, MergeIfReadyCommand) := Cached(f, 10), RouteKey(key, RecordMergeFailed) := Cached(f, 10)]
  }

  lemma RejectedAgain(run: Run, key: Key, f: RunId) returns (next: Run, c: nat)
    requires key != "" && run.Valid(10) && RejectedBefore(run.Last(), key, f, FeatureRun(MergeReady, 5))
    ensures next.Valid(10) && c < |next.steps| < |next.states| && next.steps[c] == Advance(1, Reject(false))
    ensures var s := next.Last();
            && At(s, 1, Done(Some(Rejected(false)))) && s.requests[1].key == key && s.requests[1].run == f
            && s.ledger.events == next.states[c].ledger.events
               + [Event(f, MergeReady, HumanRequired, Dispatched(1, RouteKey(key, EscalateToHuman)))]
  {
    next := SecondCall(run, key, f);
    c := |next.steps|;
    var before := next.Last();
    next := GetRejected(next, 1, 5, 10);
    assert next.states[c] == before && next.Last().ledger == before.ledger;
    next := Escalate(next, 1, 10);
  }

  lemma SecondCall(run: Run, key: Key, f: RunId) returns (next: Run)
    requires key != "" && run.Valid(10) && RejectedBefore(run.Last(), key, f, FeatureRun(MergeReady, 5))
    ensures next.Valid(10)
    ensures var s := next.Last();
            && At(s, 1, CallMerge(5)) && s.requests[1].key == key && s.requests[1].run == f && s.clock == 0
            && IsCached(s.ledger, RouteKey(key, RecordMergeFailed), 0) && !IsCached(s.ledger, RouteKey(key, EscalateToHuman), 0)
            && f in s.ledger.runs && s.ledger.runs[f].state == MergeReady
  {
    next := Attempt(run, 1, key, f, 5, 0, 10);
  }

  lemma RejectedOnce(run: Run, key: Key, f: RunId) returns (next: Run)
    requires key != "" && run.Valid(10) && run.Last() == Start(map[f := FeatureRun(ApprovedByPolicy, 0)])
    ensures next.Valid(10) && RejectedBefore(next.Last(), key, f, FeatureRun(MergeFailed, 2))
  {
    next := FirstCall(run, key, f, map[f := FeatureRun(ApprovedByPolicy, 0)], {});
    next := RejectFirst(next, key, f);
    next := FailAndRelease(next, 0, 10);
  }

  /** The fetch of the run reports an error, and the claim is released. */
  lemma FailAndRelease(run: Run, r: ReqId, ttlMs: nat) returns (next: Run)
    requires run.Valid(ttlMs) && At(run.Last(), r, FetchFailed(false)) && !run.Last().requests[r].merged
    ensures next.Valid(ttlMs) && next.Last().ledger == run.Last().ledger && next.Last().clock == run.Last().clock
    ensures next.Last().claims == run.Last().claims - {r} && next.Last().requests.Keys == run.Last().requests.Keys
  {
    next := Then(run, Advance(r, Fail(false)), ttlMs);
    assert At(next.Last(), r, Releasing);
    next := Then(next, Advance(r, Go), ttlMs);
  }

  /** A claiming INSERT that takes effect and reports an error: the request ends with its claim in place, no
    * merge, no release, and every retry finds the key in progress until it expires. */
  lemma InsertErred(key: Key, f: RunId) returns (run: Run)
    requires key != ""
    ensures run.Valid(10)
    ensures var s := run.Last();
            && At(s, 0, Done(None)) && !s.requests[0].merged && !s.requests[0].releaseFailed && s.calls == []
            && 0 in s.claims && s.claims[0] == Claim(key, None, 10) && At(s, 1, Done(None))
  {
    run := Run([Start(map[f := FeatureRun(ApprovedByPolicy, 0)])], []);
    run := Then(run, NewMerge(0, key, f), 10);
    run := Then(run, Advance(0, Go), 10);
    assert run.Last().claims == map[];
    run := Then(run, Advance(0, Fail(true)), 10);
    run := FindsTaken(run, 1, key, f, 0, 10);
  }

  /** A new request finds its key taken by the live claim `a`, and answers what that claim holds. */
  lemma FindsTaken(run: Run, r: ReqId, key: Key, f: RunId, a: ClaimId, ttlMs: nat) returns (next: Run)
    requires run.Valid(ttlMs) && r !in run.Last().requests && key != "" && Live(run.Last().claims, a, key, run.Last().clock)
    ensures next.Valid(ttlMs) && Undisturbed(run.Last(), next.Last(), r, key, f, a)
    ensures At(next.Last(), r, Done(run.Last().claims[a].result))
  {
    next := FailsToClaim(run, r, key, f, a, ttlMs);
    RunInv(next.states, next.steps, ttlMs, |next.steps|);
    LiveResultIsOwners(next.Last().claims, key, run.Last().clock, a);
    next := Then(next, Advance(r, Go), ttlMs);
  }

  /** A new request `r` has changed nothing for the others and the claim `a`. */
  ghost predicate Undisturbed(s: State, s': State, r: ReqId, key: Key, f: RunId, a: ClaimId) {
    && r in s'.requests && s'.requests[r].run == f && s'.requests[r].key == key
    && (forall other <- s.requests :: other in s'.requests && s'.requests[other] == s.requests[other])
    && s'.calls == s.calls && s'.scm == s.scm && s'.ledger == s.ledger
    && a in s.claims && a in s'.claims && s'.claims[a] == s.claims[a]
  }

  lemma FailsToClaim(run: Run, r: ReqId, key: Key, f: RunId, a: ClaimId, ttlMs: nat) returns (next: Run)
    requires run.Valid(ttlMs) && r !in run.Last().requests && key != "" && Live(run.Last().claims, a, key, run.Last().clock)
    ensures next.Valid(ttlMs) && Undisturbed(run.Last(), next.Last(), r, key, f, a)
    ensures At(next.Last(), r, ReadClaim) && next.Last().requests[r].now == run.Last().clock
  {
    next := Then(run, NewMerge(r, key, f), ttlMs);
    next := Then(next, Advance(r, Go), ttlMs);
    assert At(next.Last(), r, InsertClaim) && Live(next.Last().claims, a, key, run.Last().clock);
    next := Then(next, Advance(r, Go), ttlMs);
  }

  /** A live key that is used again for another run replays the first run's 200, whatever became of the
    * second: its pull request is not merged at all. */
  lemma ReplayedForAnother(key: Key, f: RunId, g: RunId) returns (run: Run)
    requires key != "" && f != g
    ensures run.Valid(10)
    ensures var s := run.Last();
            && At(s, 1, Done(Some(MergeRecorded(f)))) && s.requests[1].run == g && g !in s.scm
  {
    run := AnsweredFirst(key, f, g, FeatureRun(MergeReady, 0), {});
    run := FindsTaken(run, 1, key, g, 0, 10);
  }

  /** The same answer may be true of the second run, too: it had been merged before. */
  lemma ReplayedForMerged(key: Key, f: RunId, g: RunId) returns (run: Run)
    requires key != "" && f != g
    ensures run.Valid(10)
    ensures var s := run.Last();
            && At(s, 1, Done(Some(MergeRecorded(f)))) && s.requests[1].run == g
            && g in s.scm && g in s.ledger.runs && s.ledger.runs[g].state == Merged
  {
    run := AnsweredFirst(key, f, g, FeatureRun(Merged, 0), {g});
    run := FindsTaken(run, 1, key, g, 0, 10);
  }

  lemma AnsweredFirst(key: Key, f: RunId, g: RunId, other: FeatureRun, scm: set<RunId>) returns (run: Run)
    requires key != "" && f != g && (other.state == Merged ==> g in scm)
    ensures run.Valid(10)
    ensures var s := run.Last();
            && s.clock == 0 && s.scm == scm + {f} && s.requests.Keys == {0} && g in s.ledger.runs && s.ledger.runs[g] == other
            && Live(s.claims, 0, key, 0) && s.claims[0].result == Some(MergeRecorded(f))
  {
    var runs := map[f := FeatureRun(ApprovedByPolicy, 0), g := other];
    run := Run([StartWith(runs, scm)], []);
    run := Answered(run, key, f, runs, scm);
  }

  lemma Answered(run: Run, key: Key, f: RunId, runs: map<RunId, FeatureRun>, scm: set<RunId>) returns (next: Run)
    requires key != "" && run.Valid(10) && run.Last() == StartWith(runs, scm)
    requires f in runs && runs[f] == FeatureRun(ApprovedByPolicy, 0)
    ensures next.Valid(10)
    ensures var s := next.Last();
            && s.clock == 0 && s.scm == scm + {f} && s.requests.Keys == {0}
            && s.ledger.runs == runs[f := FeatureRun(Merged, 2)]
            && s.claims == map[0 := Claim(key, Some(MergeRecorded(f)), 10)]
  {
    next := FirstCall(run, key, f, runs, scm);
    next := MergeAndRespond(next, 0, 1, f, 10);
  }

  // ---------- after the claim has expired ----------

  /** Request 0 has the merge-ready command executed at time 1, and stands at its call until its claim expires
    * at time 10; the command's result is cached until time 11. */
  ghost predicate IsStalled(s: State, key: Key, f: RunId) {
    && s.requests.Keys == {0} && At(s, 0, CallMerge(1)) && !s.requests[0].merged
    && s.requests[0].key == key && s.requests[0].run == f && MayRetry(s, key, f) && s.calls == []
  }

  /** A new request with the key may get as far as its merge call. */
  ghost predicate MayRetry(s: State, key: Key, f: RunId) {
    && s.clock == 10 && s.claims == map[0 := Claim(key, None, 10)]
    && f in s.ledger.runs && s.ledger.runs[f] == FeatureRun(MergeReady, 1)
    && s.ledger.cache == map[RouteKey(key, MergeIfReadyCommand) := Cached(f, 11)]
  }

  lemma Stall(key: Key, f: RunId) returns (run: Run)
    requires key != ""
    ensures run.Valid(10) && IsStalled(run.Last(), key, f)
  {
    run := Run([Start(map[f := FeatureRun(ApprovedByPolicy, 0)])], []);
    run := LateCall(run, key, f);
    run := Then(run, Tick(9), 10);
  }

  lemma LateCall(run: Run, key: Key, f: RunId) returns (next: Run)
    requires key != "" && run.Valid(10) && run.Last() == Start(map[f := FeatureRun(ApprovedByPolicy, 0)])
    ensures next.Valid(10) && next.Last().clock == 1 && IsStalled(next.Last().(clock := 10), key, f)
  {
    next := Attempt(run, 0, key, f, 0, 1, 10);
  }

  lemma RetryCall(run: Run, key: Key, f: RunId) returns (next: Run)
    requires key != "" && run.Valid(10) && run.Last().requests.Keys == {0} && MayRetry(run.Last(), key, f)
    ensures next.Valid(10)
    ensures var s, s' := run.Last(), next.Last();
            && s'.clock == 10 && s'.scm == s.scm && s'.calls == s.calls && OthersSame(s, s', 1)
            && At(s', 1, CallMerge(1)) && s'.requests[1].key == key && s'.requests[1].run == f && !s'.requests[1].merged
            && s'.claims == map[1 := Claim(key, None, 20)] && s'.ledger == s.ledger
  {
    next := Attempt(run, 1, key, f, 1, 0, 10);
  }

  /** A request that stalls past the expiry of its claim: another one deletes the claim, claims the key and
    * merges, and while the second claim is live the first request's call is accepted, too. */
  lemma StalledOwner(key: Key, f: RunId) returns (run: Run)
    requires key != ""
    ensures run.Valid(10)
    ensures var s := run.Last();
            && |s.calls| == 2 && s.calls[0] == Call(1, key, f, Accept) && s.calls[1] == Call(0, key, f, Accept)
            && 1 in s.claims && s.claims[1].key == key && s.claims[1].expiresAt > s.clock
  {
    run := Stall(key, f);
    run := RetryCall(run, key, f);
    run := Then(run, Advance(1, Accept), 10);
    assert At(run.Last(), 0, CallMerge(1));
    run := Then(run, Advance(0, Accept), 10);
  }

  /** A merge whose recording fails leaves its claim in place, but only until it expires: then a retry calls the
    * SCM again, is rejected, and the merged run is escalated as a failed merge. */
  lemma ExpiredMerge(key: Key, f: RunId) returns (run: Run)
    requires key != ""
    ensures run.Valid(10)
    ensures var s := run.Last();
            && |s.calls| == 2 && s.calls[0] == Call(0, key, f, Accept) && s.calls[1] == Call(1, key, f, Reject(false))
            && f in s.scm && f in s.ledger.runs && s.ledger.runs[f].state == HumanRequired
            && At(s, 1, Done(Some(Rejected(false))))
  {
    run := Stall(key, f);
    run := MergeUnrecorded(run, key, f);
    run := RetryCall(run, key, f);
    run := RejectRetry(run, key, f);
  }

  lemma RejectRetry(run: Run, key: Key, f: RunId) returns (next: Run)
    requires run.Valid(10)
    requires var s := run.Last();
             && s.clock == 10 && At(s, 1, CallMerge(1)) && s.requests[1].key == key && s.requests[1].run == f
             && f in s.ledger.runs && s.ledger.runs[f] == FeatureRun(MergeReady, 1)
             && s.ledger.cache == map[RouteKey(key, MergeIfReadyCommand) := Cached(f, 11)]
    ensures next.Valid(10)
    ensures var s, s' := run.Last(), next.Last();
            && s'.scm == s.scm && s'.calls == s.calls + [Call(1, key, f, Reject(false))]
            && f in s'.ledger.runs && s'.ledger.runs[f].state == HumanRequired && At(s', 1, Done(Some(Rejected(false))))
  {
    next := RejectLate(run, key, f);
    next := Escalate(next, 1, 10);
  }

  lemma RejectLate(run: Run, key: Key, f: RunId) returns (next: Run)
    requires run.Valid(10)
    requires var s := run.Last();
             && s.clock == 10 && At(s, 1, CallMerge(1)) && s.requests[1].key == key && s.requests[1].run == f
             && f in s.ledger.runs && s.ledger.runs[f] == FeatureRun(MergeReady, 1)
             && s.ledger.cache == map[RouteKey(key, MergeIfReadyCommand) := Cached(f, 11)]
    ensures next.Valid(10)
    ensures var s, s' := run.Last(), next.Last();
            && s'.scm == s.scm && s'.calls == s.calls + [Call(1, key, f, Reject(false))] && s'.clock == 10
            && At(s', 1, FetchFailed(false)) && s'.requests[1].key == key && s'.requests[1].run == f
            && f in s'.ledger.runs && s'.ledger.runs[f] == FeatureRun(MergeFailed, 2)
            && RouteKey(key, EscalateToHuman) !in s'.ledger.cache
  {
    next := GetRejected(run, 1, 1, 10);
  }

  lemma MergeUnrecorded(run: Run, key: Key, f: RunId) returns (next: Run)
    requires run.Valid(10) && IsStalled(run.Last(), key, f)
    ensures next.Valid(10)
    ensures var s := next.Last();
            && s.requests.Keys == {0} && MayRetry(s, key, f) && s.calls == [Call(0, key, f, Accept)] && f in s.scm
            && At(s, 0, Done(None)) && s.requests[0].merged
  {
    next := Then(run, Advance(0, Accept), 10);
    assert At(next.Last(), 0, RecordingMerge(1));
    next := Then(next, Advance(0, Fail(false)), 10);
  }

  /** When a client uses an expired key again for another run, the stored result of the first run's
    * recording is still live: the second run is merged in the SCM and answered with 200, but not recorded. */
  lemma ReusedKey(key: Key, f: RunId, g: RunId) returns (run: Run)
    requires key != "" && f != g
    ensures run.Valid(10)
    ensures var s := run.Last();
            && At(s, 1, Done(Some(MergeRecorded(f)))) && s.requests[1].run == g
            && g in s.scm && g in s.ledger.runs && s.ledger.runs[g].state == MergeReady
  {
    run := Run([Start(map[f := FeatureRun(ApprovedByPolicy, 0), g := FeatureRun(MergeReady, 0)])], []);
    run := FirstUse(run, key, f, g);
    run := Reuse(run, key, f, g);
  }

  lemma FirstUse(run: Run, key: Key, f: RunId, g: RunId) returns (next: Run)
    requires key != "" && f != g && run.Valid(10)
    requires run.Last() == Start(map[f := FeatureRun(ApprovedByPolicy, 0), g := FeatureRun(MergeReady, 0)])
    ensures next.Valid(10)
    ensures var s := next.Last();
            && s.clock == 1 && s.requests.Keys == {0}
            && (forall c <- s.claims :: s.claims[c].expiresAt <= 10)
            && g in s.ledger.runs && s.ledger.runs[g] == FeatureRun(MergeReady, 0)
            && IsCached(s.ledger, RouteKey(key, MergeIfReadyCommand), 10)
            && IsCached(s.ledger, RouteKey(key, RecordMerged), 10)
            && s.ledger.cache[RouteKey(key, RecordMerged)].run == f
  {
    next := Attempt(run, 0, key, f, 0, 1, 10);
    next := MergeAndRespond(next, 0, 1, f, 10);
  }

  lemma Reuse(run: Run, key: Key, f: RunId, g: RunId) returns (next: Run)
    requires key != "" && f != g && run.Valid(10)
    requires var s := run.Last();
             && s.clock == 1 && 1 !in s.requests
             && (forall c <- s.claims :: s.claims[c].expiresAt <= 10)
             && g in s.ledger.runs && s.ledger.runs[g] == FeatureRun(MergeReady, 0)
             && IsCached(s.ledger, RouteKey(key, MergeIfReadyCommand), 10)
             && IsCached(s.ledger, RouteKey(key, RecordMerged), 10)
             && s.ledger.cache[RouteKey(key, RecordMerged)].run == f
    ensures next.Valid(10)
    ensures var s := next.Last();
            && At(s, 1, Done(Some(MergeRecorded(f)))) && s.requests[1].run == g
            && g in s.scm && g in s.ledger.runs && s.ledger.runs[g].state == MergeReady
  {
    next := Then(run, Tick(9), 10);
    next := Attempt(next, 1, key, g, 0, 0, 10);
    next := MergeAndRespond(next, 1, 0, f, 10);
  }
}
