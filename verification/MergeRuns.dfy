/** What holds in every run of the merge protocol: any number of merge-if-ready and finalize requests, any
  * interleaving, any SCM behaviour, driver errors and crashes anywhere. */
module MergeRuns {
  import opened Prelude
  import opened RouteIdempotency
  import opened FeatureExecution
  import opened MergeModel
  import opened MergeSafety
  import opened MergeTraces

  // ---------- claims ----------

  /** At most one claim exists per key, at every moment. */
  lemma OneClaimPerKey(states: seq<State>, steps: seq<Step>, ttlMs: nat, i: nat, a: ClaimId, b: ClaimId)
    requires IsRun(states, steps, ttlMs) && i < |states|
    requires a in states[i].claims && b in states[i].claims && states[i].claims[a].key == states[i].claims[b].key
    ensures a == b
  {
    RunInv(states, steps, ttlMs, i);
  }

  predicate Releases(s: State, step: Step, a: ClaimId) {
    && a in s.claims && step.Advance? && step.choice != Fail(false) && step.r == a && a in s.requests
    && s.requests[a].pc.Releasing?
  }

  /** `step` ends the claim of `a`: its owner releases it, or somebody deletes it after its expiry. */
  predicate EndsClaim(s: State, step: Step, a: ClaimId) {
    Releases(s, step, a) || DeletesExpired(s, step, a)
  }

  lemma StepLeavesClaim(s: State, step: Step, ttlMs: nat, a: ClaimId)
    requires ClaimsOk(s) && Enabled(s, step) && a in s.claims && !EndsClaim(s, step, a)
    ensures var claims := Apply(s, step, ttlMs).claims;
            a in claims && claims[a].key == s.claims[a].key && claims[a].expiresAt == s.claims[a].expiresAt
  {
    if step.Advance? && step.r != a {
      OthersRowKept(s, step.r, step.choice, ttlMs, a);
    }
    assert RowOk(s, a);
  }

  lemma RunStepLeavesClaim(states: seq<State>, steps: seq<Step>, ttlMs: nat, n: nat, a: ClaimId)
    requires IsRun(states, steps, ttlMs) && n < |steps| && a in states[n].claims && !EndsClaim(states[n], steps[n], a)
    ensures a in states[n + 1].claims && states[n + 1].claims[a].key == states[n].claims[a].key
    ensures states[n + 1].claims[a].expiresAt == states[n].claims[a].expiresAt
  {
    assert IsStep(states, steps, ttlMs, n);
    RunInv(states, steps, ttlMs, n);
    StepLeavesClaim(states[n], steps[n], ttlMs, a);
  }

  /** A claim lasts, with its key and expiry, until it is released or has expired. */
  lemma {:induction false} ClaimLasts(states: seq<State>, steps: seq<Step>, ttlMs: nat, i: nat, j: nat, a: ClaimId)
    requires IsRun(states, steps, ttlMs) && i <= j < |states| && a in states[i].claims
    requires forall n: nat | i <= n < j :: !EndsClaim(states[n], steps[n], a)
    ensures a in states[j].claims && states[j].claims[a].key == states[i].claims[a].key
    ensures states[j].claims[a].expiresAt == states[i].claims[a].expiresAt
    decreases j - i
  {
    if i < j {
      ClaimLasts(states, steps, ttlMs, i, j - 1, a);
      RunStepLeavesClaim(states, steps, ttlMs, j - 1, a);
    }
  }

  predicate WinsClaim(s: State, step: Step, r: ReqId) {
    && step == Advance(r, Go) && r in s.requests && s.requests[r].pc.InsertClaim? && !Taken(s.claims, s.requests[r].key)
  }

  /** A second `owned` outcome for a key means that the first claim was released or had expired. */
  lemma SecondOwner(states: seq<State>, steps: seq<Step>, ttlMs: nat, i: nat, j: nat, a: ReqId, b: ReqId)
    requires IsRun(states, steps, ttlMs) && i < j < |steps|
    requires WinsClaim(states[i], steps[i], a) && WinsClaim(states[j], steps[j], b)
    requires states[i].requests[a].key == states[j].requests[b].key
    ensures exists n: nat | i < n < j :: EndsClaim(states[n], steps[n], a)
  {
    assert IsStep(states, steps, ttlMs, i);
    if forall n: nat | i + 1 <= n < j :: !EndsClaim(states[n], steps[n], a) {
      assert states[i + 1].claims[a].key == states[i].requests[a].key;
      ClaimLasts(states, steps, ttlMs, i + 1, j, a);
    }
  }

  /** What a request does with its claim after losing it changes no row of anybody else. */
  lemma LateOwnerChangesNothing(states: seq<State>, steps: seq<Step>, ttlMs: nat, i: nat)
    requires IsRun(states, steps, ttlMs) && i < |steps| && steps[i].Advance?
    requires steps[i].r in states[i].requests && steps[i].r !in states[i].claims
    requires states[i].requests[steps[i].r].pc.Responding? || states[i].requests[steps[i].r].pc.Releasing?
    ensures states[i + 1].claims == states[i].claims
  {
    assert IsStep(states, steps, ttlMs, i);
  }

  /** A `fulfilled` outcome replays exactly what the owner of the key's live row has stored. */
  lemma ReplayIsOwnersResponse(states: seq<State>, steps: seq<Step>, ttlMs: nat, i: nat, r: ReqId, a: ClaimId)
    requires IsRun(states, steps, ttlMs) && i < |steps| && steps[i] == Advance(r, Go)
    requires r in states[i].requests && states[i].requests[r].pc.ReadClaim?
    requires Live(states[i].claims, a, states[i].requests[r].key, states[i].requests[r].now)
    ensures a in states[i].requests
    ensures r in states[i + 1].requests && states[i + 1].requests[r].pc == Done(states[i].claims[a].result)
    ensures states[i].claims[a].result.Some? ==> states[i].claims[a].result == states[i].requests[a].stored
  {
    assert IsStep(states, steps, ttlMs, i);
    RunInv(states, steps, ttlMs, i);
    LiveResultIsOwners(states[i].claims, states[i].requests[r].key, states[i].requests[r].now, a);
    assert RowOk(states[i], a);
  }

  // ---------- the merge call ----------

  /** A request that is past winning its claim and before giving it up, or has merged, has its claim, exactly
    * if nobody has deleted it after its expiry. In particular a merged request's claim ends in no other way. */
  lemma ClaimHeldExactly(states: seq<State>, steps: seq<Step>, ttlMs: nat, i: nat, r: ReqId)
    requires IsRun(states, steps, ttlMs) && i < |states| && r in states[i].requests
    requires HasRow(states[i].requests[r]) || states[i].requests[r].merged
    ensures r in states[i].claims <==> !ExpiredBefore(states, steps, i, r)
  {
    RunInv(states, steps, ttlMs, i);
    assert HoldsClaim(states[i], r);
    LapsedExactly(states, steps, ttlMs, i, r);
  }

  /** While the claim of a successful merge call is in place, only a request whose own claim has been deleted
    * may make another call for the key. */
  lemma CallBesideMerge(states: seq<State>, steps: seq<Step>, ttlMs: nat, i: nat, m: nat, r: ReqId)
    requires IsRun(states, steps, ttlMs) && i < |states| && m < |states[i].calls| && states[i].calls[m].Returned()
    requires r in states[i].requests && states[i].requests[r].pc.CallMerge?
    requires states[i].requests[r].key == states[i].calls[m].key
    ensures states[i].calls[m].req !in states[i].claims || r !in states[i].claims
    ensures ExpiredBefore(states, steps, i, states[i].calls[m].req) || ExpiredBefore(states, steps, i, r)
  {
    RunInv(states, steps, ttlMs, i);
    CallKeepsOrder(states[i], r, m);
    LapsedExactly(states, steps, ttlMs, i, states[i].calls[m].req);
    LapsedExactly(states, steps, ttlMs, i, r);
    assert CallOk(states[i], states[i].calls[m]);
    assert HoldsClaim(states[i], states[i].calls[m].req) && HoldsClaim(states[i], r);
  }

  /** After a merge call that returned success, another call for its key is made only if, before that call `k`,
    * the claim of one of the two requests had been deleted after its expiry. So while both claims last, no
    * call follows a successful one, and at most one is successful. */
  lemma MergeAtMostOnce(states: seq<State>, steps: seq<Step>, ttlMs: nat, i: nat, m: nat, n: nat) returns (k: nat)
    requires IsRun(states, steps, ttlMs) && i < |states| && m < n < |states[i].calls|
    requires states[i].calls[m].key == states[i].calls[n].key && states[i].calls[m].Returned()
    ensures k < i && Makes(states, steps, k, n, states[i].calls[n])
    ensures ExpiredBefore(states, steps, k, states[i].calls[m].req) || ExpiredBefore(states, steps, k, states[i].calls[n].req)
  {
    k := CallHasStep(states, steps, ttlMs, i, n);
    CallKeys(states, steps, ttlMs, k, i, n);
    CallBesideMerge(states, steps, ttlMs, k, m, states[i].calls[n].req);
  }

  lemma CallKeys(states: seq<State>, steps: seq<Step>, ttlMs: nat, k: nat, i: nat, n: nat)
    requires IsRun(states, steps, ttlMs) && k < i < |states| && n < |states[i].calls|
    requires Makes(states, steps, k, n, states[i].calls[n]) && states[k + 1].calls <= states[i].calls
    ensures states[k].requests[states[i].calls[n].req].key == states[i].calls[n].key
    ensures forall m: nat | m < n :: states[k].calls[m] == states[i].calls[m]
  {
    assert IsStep(states, steps, ttlMs, k);
    StepCalls(states[k], steps[k], ttlMs);
    assert states[k + 1].calls[n] == states[i].calls[n];
  }

  /** A handled request leaves its claim unfulfilled exactly if no response was stored, its claim has not been
    * deleted after its expiry, and the merge had succeeded, the release failed, or the claiming INSERT took
    * effect behind an error. */
  lemma UnfulfilledExactly(states: seq<State>, steps: seq<Step>, ttlMs: nat, i: nat, r: ReqId)
    requires IsRun(states, steps, ttlMs) && i < |states|
    requires r in states[i].requests && states[i].requests[r].pc.Done?
    ensures var s, q := states[i], states[i].requests[r];
            (r in s.claims && s.claims[r].result.None?) <==>
              q.stored.None? && (q.merged || q.releaseFailed || q.insertErred) && !ExpiredBefore(states, steps, i, r)
  {
    RunInv(states, steps, ttlMs, i);
    assert HoldsClaim(states[i], r) && (r in states[i].claims ==> RowOk(states[i], r));
    LapsedExactly(states, steps, ttlMs, i, r);
  }

  // ---------- what is recorded ----------

  /** A feature run is recorded as merged only if its pull request has been merged. */
  lemma NoPhantomMerge(states: seq<State>, steps: seq<Step>, ttlMs: nat, i: nat, run: RunId)
    requires IsRun(states, steps, ttlMs) && i < |states|
    requires run in states[i].ledger.runs && states[i].ledger.runs[run].state == Merged
    ensures run in states[i].scm
  {
    RunInv(states, steps, ttlMs, i);
    assert IsMerged(states[i].ledger, run);
  }

  /** A recorded merge is final: no later step of anybody changes the run again. */
  lemma MergedIsFinal(states: seq<State>, steps: seq<Step>, ttlMs: nat, i: nat, j: nat, run: RunId)
    requires IsRun(states, steps, ttlMs) && i <= j < |states| && IsMerged(states[i].ledger, run)
    ensures run in states[j].ledger.runs && states[j].ledger.runs[run] == states[i].ledger.runs[run]
  {
    RunGrows(states, steps, ttlMs, i, j);
  }

  /** Where the response of a 200 comes from: the stored response of the key's live claim, the command
    * cache, or the request's own recording. The answer is about the request's own run if: */
  ghost predicate ReportsOwnRun(s: State, q: Request) {
    match q.pc
    case ReadClaim => LiveResult(s.claims, q.key, q.now) == Some(MergeRecorded(q.run))
    case RecordingMerge(_) =>
      var key := RouteKey(q.key, RecordMerged);
      IsCached(s.ledger, key, s.clock) ==> s.ledger.cache[key].run == q.run
    case _ => true
  }

  /** The request is about to take over `run` as the run its answer reports. */
  ghost predicate TakesOver(s: State, r: ReqId, run: RunId)
    requires r in s.requests && Possible(s, s.requests[r], Go)
  {
    var q := s.requests[r];
    match q.pc
    case ReadClaim => LiveResult(s.claims, q.key, q.now) == Some(MergeRecorded(run))
    case RecordingMerge(_) => PcAfter(s, r, Go) == Responding(MergeRecorded(run))
    case FinalizeRecord(_, _) => PcAfter(s, r, Go) == Done(Some(MergeRecorded(run)))
    case _ => false
  }

  /** The step that recorded what a stored 200 reports. */
  lemma StoredSuccess(states: seq<State>, steps: seq<Step>, ttlMs: nat, i: nat, r: ReqId) returns (k: nat)
    requires IsRun(states, steps, ttlMs) && i < |states| && r in states[i].requests
    requires states[i].requests[r].stored.Some? && states[i].requests[r].stored.value.MergeRecorded?
    ensures k < i && steps[k] == Advance(r, Go) && r in states[k].requests
    ensures states[k].requests[r].pc.RecordingMerge?
    ensures PcAfter(states[k], r, Go) == Responding(states[i].requests[r].stored.value)
    ensures IsMerged(states[i].ledger, states[i].requests[r].stored.value.run)
  {
    var p := StoredAt(states, steps, ttlMs, i, r);
    k := RespondingSuccess(states, steps, ttlMs, p, r);
    RunGrows(states, steps, ttlMs, p, i);
  }

  lemma RespondingSuccess(states: seq<State>, steps: seq<Step>, ttlMs: nat, p: nat, r: ReqId) returns (k: nat)
    requires IsRun(states, steps, ttlMs) && p < |states| && r in states[p].requests
    requires states[p].requests[r].pc.Responding? && states[p].requests[r].pc.response.MergeRecorded?
    ensures LastMoveIs(states, steps, p, r, k) && steps[k] == Advance(r, Go) && r in states[k].requests
    ensures states[k].requests[r].pc.RecordingMerge? && PcAfter(states[k], r, Go) == states[p].requests[r].pc
    ensures states[k].requests[r].key == states[p].requests[r].key && states[k].requests[r].run == states[p].requests[r].run
    ensures IsMerged(states[k + 1].ledger, states[p].requests[r].pc.response.run)
    ensures IsMerged(states[p].ledger, states[p].requests[r].pc.response.run)
  {
    k := LastAdvance(states, steps, ttlMs, p, r);
    PcOrigin(states[k], r, steps[k].choice);
    RunRecordingReports(states, steps, ttlMs, k, r);
    RunGrows(states, steps, ttlMs, k + 1, p);
  }

  /** What a dispatch of the recording reports is recorded, and the request's own run is exactly if it is
    * what is reported, or was merged before. */
  lemma RecordingReports(s: State, r: ReqId, ttlMs: nat)
    requires Inv(s) && r in s.requests && (s.requests[r].pc.RecordingMerge? || s.requests[r].pc.FinalizeRecord?)
    requires !OutcomeOf(s, s.requests[r]).Threw?
    ensures var q, l', outcome := s.requests[r], Apply(s, Advance(r, Go), ttlMs).ledger, OutcomeOf(s, s.requests[r]);
            && IsMerged(l', if outcome.Replayed? then outcome.run else q.run)
            && (IsMerged(l', q.run) <==> ReportsOwnRun(s, q) || IsMerged(s.ledger, q.run))
            && (ReportsOwnRun(s, q) <==> outcome == Executed || outcome == Replayed(q.run))
  {
    var key := DispatchOf(s.requests[r]).value.key;
    if IsCached(s.ledger, key, s.clock) {
      CachedIsMerged(s.ledger, key);
    }
  }

  lemma RunRecordingReports(states: seq<State>, steps: seq<Step>, ttlMs: nat, k: nat, r: ReqId)
    requires IsRun(states, steps, ttlMs) && k < |steps| && steps[k] == Advance(r, Go) && r in states[k].requests
    requires states[k].requests[r].pc.RecordingMerge? || states[k].requests[r].pc.FinalizeRecord?
    requires !OutcomeOf(states[k], states[k].requests[r]).Threw?
    ensures var s, q, l', outcome := states[k], states[k].requests[r], states[k + 1].ledger, OutcomeOf(states[k], states[k].requests[r]);
            && IsMerged(l', if outcome.Replayed? then outcome.run else q.run)
            && (IsMerged(l', q.run) <==> ReportsOwnRun(s, q) || IsMerged(s.ledger, q.run))
            && (ReportsOwnRun(s, q) <==> outcome == Executed || outcome == Replayed(q.run))
            && (!ReportsOwnRun(s, q) ==> l' == s.ledger)
  {
    assert IsStep(states, steps, ttlMs, k);
    RunInv(states, steps, ttlMs, k);
    RecordingReports(states[k], r, ttlMs);
  }

  lemma CachedIsMerged(l: Ledger, key: CommandKey)
    requires RecordsOk(l) && key in l.cache && TargetOf(key) == Merged
    ensures IsMerged(l, l.cache[key].run) && (key.FinalizeKey? ==> l.cache[key].run == key.run)
  {
    assert CachedOk(l, key);
  }

  /** Every 200 that reports a merge, fresh or replayed, was decided at a step `k`. What it reports is recorded.
    * It reports the request's own run exactly if the result it was taken from belongs to that run; then the
    * own run is recorded, and otherwise nothing has been recorded. So at a fresh answer the own run is
    * recorded exactly if it is reported or was merged before. */
  lemma SuccessExactly(states: seq<State>, steps: seq<Step>, ttlMs: nat, i: nat, r: ReqId) returns (k: nat)
    requires IsRun(states, steps, ttlMs) && i < |states| && r in states[i].requests
    requires states[i].requests[r].pc.Done? && states[i].requests[r].pc.answer.Some?
    requires states[i].requests[r].pc.answer.value.MergeRecorded?
    ensures k < i && steps[k] == Advance(r, Go) && r in states[k].requests && Possible(states[k], states[k].requests[r], Go)
    ensures TakesOver(states[k], r, states[i].requests[r].pc.answer.value.run)
    ensures var q, reported := states[i].requests[r], states[i].requests[r].pc.answer.value.run;
            var own := ReportsOwnRun(states[k], states[k].requests[r]);
            && IsMerged(states[k + 1].ledger, reported) && IsMerged(states[i].ledger, reported) && reported in states[i].scm
            && (reported == q.run <==> own)
            && (own ==> IsMerged(states[k + 1].ledger, q.run))
            && (!own ==> states[k + 1].ledger == states[k].ledger)
            && (!states[k].requests[r].pc.ReadClaim? ==>
                  (IsMerged(states[k + 1].ledger, q.run) <==> own || IsMerged(states[k].ledger, q.run)))
  {
    var p := LastAdvance(states, steps, ttlMs, i, r);
    AnswerOrigin(states[p], r, steps[p].choice);
    if states[p].requests[r].pc.ReadClaim? {
      k := p;
      ReplayedSuccess(states, steps, ttlMs, k, r);
    } else {
      k := p;
      if states[p].requests[r].pc.Responding? {
        k := RespondingSuccess(states, steps, ttlMs, p, r);
      }
      RunRecordingReports(states, steps, ttlMs, k, r);
    }
    RunGrows(states, steps, ttlMs, k + 1, i);
    NoPhantomMerge(states, steps, ttlMs, i, states[i].requests[r].pc.answer.value.run);
  }

  lemma AnswerOrigin(s: State, r: ReqId, choice: Choice)
    requires r in s.requests && Possible(s, s.requests[r], choice)
    requires PcAfter(s, r, choice).Done? && PcAfter(s, r, choice).answer.Some? && PcAfter(s, r, choice).answer.value.MergeRecorded?
    ensures var q, response := s.requests[r], PcAfter(s, r, choice).answer.value;
            && choice == Go
            && (q.pc == Responding(response) || q.pc.ReadClaim? || q.pc.FinalizeRecord?)
  {
  }

  lemma ReplayedSuccess(states: seq<State>, steps: seq<Step>, ttlMs: nat, k: nat, r: ReqId)
    requires IsRun(states, steps, ttlMs) && k < |steps| && steps[k] == Advance(r, Go)
    requires r in states[k].requests && states[k].requests[r].pc.ReadClaim?
    requires var answer := LiveResult(states[k].claims, states[k].requests[r].key, states[k].requests[r].now);
             answer.Some? && answer.value.MergeRecorded?
    ensures states[k + 1].ledger == states[k].ledger
    ensures IsMerged(states[k].ledger, LiveResult(states[k].claims, states[k].requests[r].key, states[k].requests[r].now).value.run)
  {
    assert IsStep(states, steps, ttlMs, k);
    var a := ReplayedIsStored(states, steps, ttlMs, k, r);
    var stored := StoredSuccess(states, steps, ttlMs, k, a);
  }

  /** Idempotency keys are used as intended: one key, one feature run. */
  ghost predicate Dedicated(s: State, key: Key) {
    forall a <- s.requests, b <- s.requests ::
      s.requests[a].key == key && s.requests[b].key == key ==> s.requests[a].run == s.requests[b].run
  }

  /** The run that a replayed recording reports is the run of some request with the same key. */
  lemma ReplayedRunShares(states: seq<State>, steps: seq<Step>, ttlMs: nat, k: nat, r: ReqId) returns (a: ReqId)
    requires IsRun(states, steps, ttlMs) && k < |states| && r in states[k].requests
    requires states[k].requests[r].pc.RecordingMerge? && OutcomeOf(states[k], states[k].requests[r]).Replayed?
    ensures a in states[k].requests && states[k].requests[a].key == states[k].requests[r].key
    ensures states[k].requests[a].run == OutcomeOf(states[k], states[k].requests[r]).run
  {
    var l, key := states[k].ledger, RouteKey(states[k].requests[r].key, RecordMerged);
    RunInv(states, steps, ttlMs, k);
    assert CachedOk(l, key);
    var e :| e in l.events && Records(e, l.cache[key].run, Merged, key);
    var n :| 0 <= n < |l.events| && l.events[n] == e;
    var w := EventHasStep(states, steps, ttlMs, k, n);
    a := e.cause.req;
    RequestStays(states, steps, ttlMs, w, k, a);
  }

  /** The step that decided a stored or own 200, and the run it reports, belong to the key. */
  lemma ReportedShares(states: seq<State>, steps: seq<Step>, ttlMs: nat, k: nat, r: ReqId) returns (a: ReqId)
    requires IsRun(states, steps, ttlMs) && k < |steps| && r in states[k].requests
    requires states[k].requests[r].pc.RecordingMerge? && PcAfter(states[k], r, Go).Responding?
    ensures a in states[k].requests && states[k].requests[a].key == states[k].requests[r].key
    ensures PcAfter(states[k], r, Go) == Responding(MergeRecorded(states[k].requests[a].run))
  {
    a := r;
    if OutcomeOf(states[k], states[k].requests[r]).Replayed? {
      a := ReplayedRunShares(states, steps, ttlMs, k, r);
    }
  }

  /** What a 200 of either route reports is a run `a` has asked for with the same key, recorded as merged, and
    * merged; for a key that is used for one feature run it is the request's own. */
  lemma SuccessIsRecorded(states: seq<State>, steps: seq<Step>, ttlMs: nat, i: nat, r: ReqId) returns (a: ReqId)
    requires IsRun(states, steps, ttlMs) && i < |states| && r in states[i].requests
    requires states[i].requests[r].pc.Done? && states[i].requests[r].pc.answer.Some?
    requires states[i].requests[r].pc.answer.value.MergeRecorded?
    ensures var q, reported := states[i].requests[r], states[i].requests[r].pc.answer.value.run;
            && a in states[i].requests && states[i].requests[a].key == q.key && states[i].requests[a].run == reported
            && IsMerged(states[i].ledger, reported) && reported in states[i].scm
            && (q.key == "" || Dedicated(states[i], q.key) ==> reported == q.run)
  {
    var k := SuccessExactly(states, steps, ttlMs, i, r);
    RequestStays(states, steps, ttlMs, k, i, r);
    RunInv(states, steps, ttlMs, k);
    assert FlagOk(states[k].requests[r]);
    a := r;
    if states[k].requests[r].pc.ReadClaim? {
      var owner := ReplayedIsStored(states, steps, ttlMs, k, r);
      var m := StoredSuccess(states, steps, ttlMs, k, owner);
      RequestStays(states, steps, ttlMs, m, k, owner);
      a := ReportedShares(states, steps, ttlMs, m, owner);
      RequestStays(states, steps, ttlMs, m, i, a);
    } else if states[k].requests[r].pc.RecordingMerge? {
      a := ReportedShares(states, steps, ttlMs, k, r);
      RequestStays(states, steps, ttlMs, k, i, a);
    }
    assert states[i].requests[a].key == states[i].requests[r].key;
  }

  /** A 200 that says the merge was recorded already is true. */
  lemma AlreadyRecordedIsTrue(states: seq<State>, steps: seq<Step>, ttlMs: nat, i: nat, r: ReqId)
    requires IsRun(states, steps, ttlMs) && i < |states| && r in states[i].requests
    requires states[i].requests[r].pc == Done(Some(AlreadyRecorded))
    ensures IsMerged(states[i].ledger, states[i].requests[r].run)
  {
    var k := LastAdvance(states, steps, ttlMs, i, r);
    RunInv(states, steps, ttlMs, k);
    if states[k].requests[r].pc.ReadClaim? {
      var a := ReplayedIsStored(states, steps, ttlMs, k, r);
      NeverStored(states, steps, ttlMs, k, a);
    }
    NeverResponding(states, steps, ttlMs, k, r);
    AlreadyOrigin(states[k], r, steps[k].choice);
    RunGrows(states, steps, ttlMs, k, i);
  }

  lemma AlreadyOrigin(s: State, r: ReqId, choice: Choice)
    requires r in s.requests && Possible(s, s.requests[r], choice)
    requires PcAfter(s, r, choice) == Done(Some(AlreadyRecorded))
    requires s.requests[r].pc != Responding(AlreadyRecorded)
    requires s.requests[r].pc.ReadClaim? ==>
               LiveResult(s.claims, s.requests[r].key, s.requests[r].now) != Some(AlreadyRecorded)
    ensures IsMerged(s.ledger, s.requests[r].run)
  {
  }

  /** The answer "recorded already" is given by finalize only, and never stored. */
  lemma NeverResponding(states: seq<State>, steps: seq<Step>, ttlMs: nat, i: nat, r: ReqId)
    requires IsRun(states, steps, ttlMs) && i < |states| && r in states[i].requests
    ensures states[i].requests[r].pc != Responding(AlreadyRecorded)
  {
    if states[i].requests[r].pc.Responding? {
      var k := LastAdvance(states, steps, ttlMs, i, r);
      PcOrigin(states[k], r, steps[k].choice);
    }
  }

  lemma NeverStored(states: seq<State>, steps: seq<Step>, ttlMs: nat, i: nat, r: ReqId)
    requires IsRun(states, steps, ttlMs) && i < |states| && r in states[i].requests
    ensures states[i].requests[r].stored != Some(AlreadyRecorded)
  {
    if states[i].requests[r].stored.Some? {
      var p := StoredAt(states, steps, ttlMs, i, r);
      NeverResponding(states, steps, ttlMs, p, r);
    }
  }
}
