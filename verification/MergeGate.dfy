/** What has to happen before the irreversible call, and before a merge is finalized. */
module MergeGate {
  import opened Prelude
  import opened RouteIdempotency
  import opened FeatureExecution
  import opened MergeModel
  import opened MergeSafety
  import opened MergeTraces

  /** The way of request `r` to its merge call at step `k`: it wins its claim at `w`; its merge-ready command
    * gets a result at `g`, neither blocked by the gate nor thrown; and at `m` its run is read at merge_ready,
    * at the version the call goes on with. */
  ghost predicate IsGated(states: seq<State>, steps: seq<Step>, r: ReqId, w: nat, g: nat, m: nat, k: nat)
    requires k < |steps| < |states|
  {
    && w < g < m < k && r in states[k].requests && states[k].requests[r].pc.CallMerge?
    && SameOrder(states, r, w, k) && SameOrder(states, r, g, k) && SameOrder(states, r, m, k)
    && var q := states[k].requests[r];
       && steps[w] == Advance(r, Go) && states[w].requests[r].pc.InsertClaim? && !Taken(states[w].claims, q.key)
       && steps[g] == Advance(r, Go) && states[g].requests[r].pc.MakeReady?
       && (FindsReady(states[g], q) || BecomesReady(states[g], states[g + 1], q))
       && steps[m] == Advance(r, Go) && q.run in states[m].ledger.runs
       && states[m].ledger.runs[q.run] == FeatureRun(MergeReady, q.pc.version)
  }

  /** The merge-ready command of the key has been executed before, and its result is still stored. */
  ghost predicate FindsReady(s: State, q: Request) {
    IsCached(s.ledger, RouteKey(q.key, MergeIfReadyCommand), s.clock)
  }

  /** The command takes the run from approved_by_policy to merge_ready. */
  ghost predicate BecomesReady(s: State, s': State, q: Request) {
    && q.run in s.ledger.runs && s.ledger.runs[q.run].state == ApprovedByPolicy
    && q.run in s'.ledger.runs && s'.ledger.runs[q.run].state == MergeReady
  }

  lemma CommandMakesReady(states: seq<State>, steps: seq<Step>, ttlMs: nat, g: nat, r: ReqId)
    requires IsRun(states, steps, ttlMs) && g < |steps| && steps[g] == Advance(r, Go) && r in states[g].requests
    requires states[g].requests[r].pc.MakeReady? && !OutcomeOf(states[g], states[g].requests[r]).Threw?
    ensures FindsReady(states[g], states[g].requests[r]) || BecomesReady(states[g], states[g + 1], states[g].requests[r])
  {
    assert IsStep(states, steps, ttlMs, g);
  }

  lemma CheckedBefore(states: seq<State>, steps: seq<Step>, ttlMs: nat, k: nat, r: ReqId) returns (m: nat)
    requires IsRun(states, steps, ttlMs) && k < |states| && r in states[k].requests && states[k].requests[r].pc.CallMerge?
    ensures CameFrom(states, steps, k, r, m) && steps[m] == Advance(r, Go) && states[m].requests[r].pc.CheckReady?
    ensures var q := states[k].requests[r];
            q.run in states[m].ledger.runs && states[m].ledger.runs[q.run] == FeatureRun(MergeReady, q.pc.version)
  {
    m := LastAdvance(states, steps, ttlMs, k, r);
    CallOrigin(states[m], r, steps[m].choice);
  }

  lemma ReadyBefore(states: seq<State>, steps: seq<Step>, ttlMs: nat, m: nat, r: ReqId) returns (g: nat)
    requires IsRun(states, steps, ttlMs) && m < |states| && r in states[m].requests && states[m].requests[r].pc.CheckReady?
    ensures CameFrom(states, steps, m, r, g) && steps[g] == Advance(r, Go) && states[g].requests[r].pc.MakeReady?
    ensures FindsReady(states[g], states[m].requests[r]) || BecomesReady(states[g], states[g + 1], states[m].requests[r])
  {
    g := LastAdvance(states, steps, ttlMs, m, r);
    CallOrigin(states[g], r, steps[g].choice);
    CommandMakesReady(states, steps, ttlMs, g, r);
  }

  lemma WonBefore(states: seq<State>, steps: seq<Step>, ttlMs: nat, g: nat, r: ReqId) returns (w: nat)
    requires IsRun(states, steps, ttlMs) && g < |states| && r in states[g].requests && states[g].requests[r].pc.MakeReady?
    ensures w < g && SameOrder(states, r, w, g) && steps[w] == Advance(r, Go) && states[w].requests[r].pc.InsertClaim?
    ensures !Taken(states[w].claims, states[g].requests[r].key)
  {
    var f := LastAdvance(states, steps, ttlMs, g, r);
    CallOrigin(states[f], r, steps[f].choice);
    w := LastAdvance(states, steps, ttlMs, f, r);
    CallOrigin(states[w], r, steps[w].choice);
  }

  /** Every merge call, whatever its reply, is made by the owner of the key's claim, past the gate, for a run
    * that has been read at merge_ready. */
  lemma CallIsGated(states: seq<State>, steps: seq<Step>, ttlMs: nat, k: nat, n: nat, call: Call)
    returns (w: nat, g: nat, m: nat)
    requires IsRun(states, steps, ttlMs) && k < |steps| && Makes(states, steps, k, n, call)
    ensures IsGated(states, steps, call.req, w, g, m, k)
  {
    m := CheckedBefore(states, steps, ttlMs, k, call.req);
    g := ReadyBefore(states, steps, ttlMs, m, call.req);
    w := WonBefore(states, steps, ttlMs, g, call.req);
  }

  // ---------- a blocked gate ----------

  /** Where a request may stand once the gate has blocked it. */
  predicate IsBlocked(pc: Pc) {
    pc == Responding(GateBlocked) || pc == Releasing || pc == Done(Some(GateBlocked)) || pc == Done(None) || pc == Crashed
  }

  lemma {:induction false} AfterBlock(states: seq<State>, steps: seq<Step>, ttlMs: nat, b: nat, i: nat, r: ReqId)
    requires IsRun(states, steps, ttlMs) && b < i < |states| && steps[b] == Advance(r, Block)
    ensures r in states[i].requests && IsBlocked(states[i].requests[r].pc)
    decreases i
  {
    assert IsStep(states, steps, ttlMs, i - 1);
    if b < i - 1 {
      AfterBlock(states, steps, ttlMs, b, i - 1, r);
      RunInv(states, steps, ttlMs, i - 1);
      StepKeepsBlocked(states[i - 1], steps[i - 1], ttlMs, r);
    }
  }

  lemma StepKeepsBlocked(s: State, step: Step, ttlMs: nat, r: ReqId)
    requires ClaimsOk(s) && Enabled(s, step) && r in s.requests && IsBlocked(s.requests[r].pc)
    ensures var s' := Apply(s, step, ttlMs); r in s'.requests && IsBlocked(s'.requests[r].pc)
  {
    assert FlagOk(s.requests[r]);
  }

  /** A request that its gate has blocked never calls the SCM, and gives no other answer than that. */
  lemma BlockedNeverCalls(states: seq<State>, steps: seq<Step>, ttlMs: nat, b: nat, i: nat, r: ReqId)
    requires IsRun(states, steps, ttlMs) && b < i < |states| && steps[b] == Advance(r, Block)
    ensures forall call <- states[i].calls :: call.req != r
    ensures r in states[i].requests
    ensures states[i].requests[r].pc.Done? ==>
              states[i].requests[r].pc.answer == None || states[i].requests[r].pc.answer == Some(GateBlocked)
  {
    AfterBlock(states, steps, ttlMs, b, i, r);
    forall call | call in states[i].calls ensures call.req != r {
      var n :| 0 <= n < |states[i].calls| && states[i].calls[n] == call;
      var k := CallHasStep(states, steps, ttlMs, i, n);
      if b < k {
        AfterBlock(states, steps, ttlMs, b, k, r);
      } else if k < b {
        CalledBefore(states, steps, ttlMs, k, b, n, call);
        assert IsStep(states, steps, ttlMs, b);
      }
    }
  }

  /** A request that has made its call is past it. */
  lemma CalledBefore(states: seq<State>, steps: seq<Step>, ttlMs: nat, k: nat, i: nat, n: nat, call: Call)
    requires IsRun(states, steps, ttlMs) && k < i < |states| && k < |steps| && Makes(states, steps, k, n, call)
    ensures call.req in states[i].requests && !BeforeCall(states[i].requests[call.req].pc)
  {
    CallsGrow(states, steps, ttlMs, k + 1, i);
    assert states[k + 1].calls[n] == call && states[i].calls[n] == call;
    RunInv(states, steps, ttlMs, i);
    assert CallOk(states[i], call);
  }

  /** The stored answer "blocked" comes from a blocked gate only. */
  lemma BlockedAnswer(states: seq<State>, steps: seq<Step>, ttlMs: nat, i: nat, r: ReqId) returns (b: nat)
    requires IsRun(states, steps, ttlMs) && i < |states| && r in states[i].requests
    requires states[i].requests[r].stored == Some(GateBlocked)
    ensures b < i && steps[b] == Advance(r, Block)
  {
    var p := StoredAt(states, steps, ttlMs, i, r);
    b := LastAdvance(states, steps, ttlMs, p, r);
    PcOrigin(states[b], r, steps[b].choice);
  }

  // ---------- finalizing ----------

  /** A finalize request records a merge only of a run that it has read at merge_ready, at `f`, and that the
    * SCM has confirmed as merged after that, at `o`; it compares and swaps on the version it has read. */
  lemma FinalizeIsConfirmed(states: seq<State>, steps: seq<Step>, ttlMs: nat, d: nat, r: ReqId) returns (f: nat, o: nat)
    requires IsRun(states, steps, ttlMs) && d < |states| && r in states[d].requests
    requires states[d].requests[r].pc.FinalizeRecord?
    ensures f < o < d && SameOrder(states, r, f, d) && SameOrder(states, r, o, d)
    ensures steps[f] == Advance(r, Go) && states[d].requests[r].run in states[f].ledger.runs
    ensures states[f].ledger.runs[states[d].requests[r].run] == FeatureRun(MergeReady, states[d].requests[r].pc.version)
    ensures steps[o] == Advance(r, Observe(states[d].requests[r].pc.sha)) && states[d].requests[r].run in states[o].scm
  {
    o := LastAdvance(states, steps, ttlMs, d, r);
    FinalizeOrigin(states[o], r, steps[o].choice);
    f := LastAdvance(states, steps, ttlMs, o, r);
    FinalizeOrigin(states[f], r, steps[f].choice);
  }
}
