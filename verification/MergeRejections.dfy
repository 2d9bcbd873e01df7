/** What becomes of a merge that the SCM rejects, and when a merge that happened is treated as failed. */
module MergeRejections {
  import opened RouteIdempotency
  import opened FeatureExecution
  import opened MergeModel
  import opened MergeSafety
  import opened MergeTraces

  function Resolution(autoClearable: bool): Command {
    if autoClearable then ReconcileMergeFailed else EscalateToHuman
  }

  // ---------- the rejection is recorded ----------

  /** The steps of one rejection: the rejecting call `c`, the dispatch `m` of its recording and the dispatch
    * `n` of its resolution. */
  ghost predicate IsRejection(states: seq<State>, steps: seq<Step>, r: ReqId, autoClearable: bool, c: nat, m: nat, n: nat)
    requires |states| == |steps| + 1
  {
    && c < m < n < |steps|
    && steps[c] == Advance(r, Reject(autoClearable)) && r in states[c].requests && states[c].requests[r].pc.CallMerge?
    && Dispatches(states, steps, r, m, RecordMergeFailed) && Dispatches(states, steps, r, n, Resolution(autoClearable))
  }

  function CommandAt(pc: Pc): Command
    requires pc.RecordingFailure? || pc.Resolving?
  {
    if pc.RecordingFailure? then RecordMergeFailed else Resolution(pc.autoClearable)
  }

  /** At step `k` request `r` dispatches `command`, and gets a result. */
  ghost predicate Dispatches(states: seq<State>, steps: seq<Step>, r: ReqId, k: nat, command: Command)
    requires k < |steps| < |states|
  {
    && steps[k] == Advance(r, Go) && r in states[k].requests
    && (states[k].requests[r].pc.RecordingFailure? || states[k].requests[r].pc.Resolving?)
    && command == CommandAt(states[k].requests[r].pc)
    && !OutcomeOf(states[k], states[k].requests[r]).Threw?
  }

  /** From step `c` on, before `i`, request `r` dispatches no commands but those of `m` and `n`. */
  ghost predicate DispatchesOnly(states: seq<State>, steps: seq<Step>, r: ReqId, c: nat, m: nat, n: nat, i: nat)
    requires i <= |steps| < |states|
  {
    forall k | c <= k < i && !Spares(steps[k], r) && k != m && k != n ::
      r in states[k].requests && DispatchOf(states[k].requests[r]).None?
  }

  lemma CallBefore(states: seq<State>, steps: seq<Step>, ttlMs: nat, m: nat, r: ReqId) returns (c: nat)
    requires IsRun(states, steps, ttlMs) && m < |states| && r in states[m].requests && states[m].requests[r].pc.RecordingFailure?
    ensures CameFrom(states, steps, m, r, c) && states[c].requests[r].pc.CallMerge?
    ensures steps[c] == Advance(r, Reject(states[m].requests[r].pc.autoClearable))
  {
    c := LastAdvance(states, steps, ttlMs, m, r);
    PcOrigin(states[c], r, steps[c].choice);
  }

  lemma RecordingBefore(states: seq<State>, steps: seq<Step>, ttlMs: nat, f: nat, r: ReqId) returns (m: nat)
    requires IsRun(states, steps, ttlMs) && f < |states| && r in states[f].requests && states[f].requests[r].pc.FetchFailed?
    ensures CameFrom(states, steps, f, r, m) && steps[m] == Advance(r, Go) && states[m].requests[r].pc.RecordingFailure?
    ensures states[m].requests[r].pc.autoClearable == states[f].requests[r].pc.autoClearable
    ensures !OutcomeOf(states[m], states[m].requests[r]).Threw?
  {
    m := LastAdvance(states, steps, ttlMs, f, r);
    PcOrigin(states[m], r, steps[m].choice);
  }

  lemma FetchBefore(states: seq<State>, steps: seq<Step>, ttlMs: nat, n: nat, r: ReqId) returns (f: nat)
    requires IsRun(states, steps, ttlMs) && n < |states| && r in states[n].requests && states[n].requests[r].pc.Resolving?
    ensures CameFrom(states, steps, n, r, f) && states[f].requests[r].pc == FetchFailed(states[n].requests[r].pc.autoClearable)
  {
    f := LastAdvance(states, steps, ttlMs, n, r);
    PcOrigin(states[f], r, steps[f].choice);
  }

  lemma ResolutionBefore(states: seq<State>, steps: seq<Step>, ttlMs: nat, p: nat, r: ReqId) returns (n: nat)
    requires IsRun(states, steps, ttlMs) && p < |states| && r in states[p].requests
    requires states[p].requests[r].pc.Responding? && states[p].requests[r].pc.response.Rejected?
    ensures CameFrom(states, steps, p, r, n) && steps[n] == Advance(r, Go) && states[n].requests[r].pc.Resolving?
    ensures states[n].requests[r].pc.autoClearable == states[p].requests[r].pc.response.autoClearable
    ensures !OutcomeOf(states[n], states[n].requests[r]).Threw?
  {
    n := LastAdvance(states, steps, ttlMs, p, r);
    PcOrigin(states[n], r, steps[n].choice);
  }

  /** Every stored rejection was preceded by the rejecting call, the recording and the resolution. */
  lemma RejectionSteps(states: seq<State>, steps: seq<Step>, ttlMs: nat, i: nat, r: ReqId) returns (c: nat, m: nat, n: nat)
    requires IsRun(states, steps, ttlMs) && i < |states| && r in states[i].requests
    requires states[i].requests[r].stored.Some? && states[i].requests[r].stored.value.Rejected?
    ensures n < i && IsRejection(states, steps, r, states[i].requests[r].stored.value.autoClearable, c, m, n)
    ensures DispatchesOnly(states, steps, r, c, m, n, i)
    ensures SameOrder(states, r, c, i) && SameOrder(states, r, m, i) && SameOrder(states, r, n, i)
  {
    var p := StoredAt(states, steps, ttlMs, i, r);
    n := ResolutionBefore(states, steps, ttlMs, p, r);
    var f := FetchBefore(states, steps, ttlMs, n, r);
    m := RecordingBefore(states, steps, ttlMs, f, r);
    c := CallBefore(states, steps, ttlMs, m, r);
    OnlyTwoDispatches(states, steps, r, c, m, f, n, p, i);
  }

  lemma OnlyTwoDispatches(states: seq<State>, steps: seq<Step>, r: ReqId, c: nat, m: nat, f: nat, n: nat, p: nat, i: nat)
    requires c < m < f < n < p < i < |states| == |steps| + 1
    requires CameFrom(states, steps, m, r, c) && CameFrom(states, steps, f, r, m)
    requires CameFrom(states, steps, n, r, f) && CameFrom(states, steps, p, r, n)
    requires DispatchOf(states[c].requests[r]).None? && DispatchOf(states[f].requests[r]).None?
    requires DispatchOf(states[p].requests[r]).None?
    requires forall k | p < k < i && !Spares(steps[k], r) :: r in states[k].requests && DispatchOf(states[k].requests[r]).None?
    ensures DispatchesOnly(states, steps, r, c, m, n, i)
  {
  }

  /** After the first `from` events, `events` holds the recording of a rejection of `run` by request `r`, and
    * later its resolution. */
  ghost predicate RecordedAfter(events: seq<Event>, from: nat, r: ReqId, key: Key, run: RunId, autoClearable: bool) {
    exists a: nat, b: nat :: from <= a < b < |events|
      && WrittenBy(events[a], r, RouteKey(key, RecordMergeFailed), run)
      && WrittenBy(events[b], r, RouteKey(key, Resolution(autoClearable)), run)
  }

  predicate WrittenBy(e: Event, r: ReqId, key: CommandKey, run: RunId) {
    e.run == run && e.cause == Dispatched(r, key) && e.to == TargetOf(key)
  }

  /** Whether the dispatch of a command finds its key in the command cache. */
  predicate FindsCached(s: State, r: ReqId, command: Command)
    requires r in s.requests
  {
    IsCached(s.ledger, RouteKey(s.requests[r].key, command), s.clock)
  }

  /** A dispatch that is not replayed and does not throw writes its event at the end. */
  lemma ExecutedWrites(s: State, r: ReqId, ttlMs: nat)
    requires r in s.requests && DispatchOf(s.requests[r]).Some? && Possible(s, s.requests[r], Go)
    requires OutcomeOf(s, s.requests[r]) == Executed
    ensures var q, d, events := s.requests[r], DispatchOf(s.requests[r]).value, Apply(s, Advance(r, Go), ttlMs).ledger.events;
            |events| == |s.ledger.events| + 1 && WrittenBy(events[|s.ledger.events|], r, d.key, q.run)
  {
    DispatchTarget(s.requests[r]);
  }

  /** A dispatch of a rejection that finds nothing cached writes its event, and the event stays. */
  lemma DispatchWrites(states: seq<State>, steps: seq<Step>, ttlMs: nat, from: nat, k: nat, i: nat, r: ReqId, command: Command)
    requires IsRun(states, steps, ttlMs) && from <= k < i < |states| && Dispatches(states, steps, r, k, command)
    requires SameOrder(states, r, k, i) && !FindsCached(states[k], r, command)
    ensures var a, q := |states[k].ledger.events|, states[i].requests[r];
            && |states[from].ledger.events| <= a < |states[i].ledger.events| && |states[k + 1].ledger.events| == a + 1
            && WrittenBy(states[i].ledger.events[a], r, RouteKey(q.key, command), q.run)
  {
    assert IsStep(states, steps, ttlMs, k);
    DispatchOutcome(states[k], r);
    ExecutedWrites(states[k], r, ttlMs);
    RunGrows(states, steps, ttlMs, from, k);
    RunGrows(states, steps, ttlMs, k + 1, i);
  }

  /** The recording and the resolution, unless they are replayed, write their events in this order. */
  lemma ExecutedIsRecorded(states: seq<State>, steps: seq<Step>, ttlMs: nat, i: nat, r: ReqId, autoClearable: bool,
                           c: nat, m: nat, n: nat)
    requires IsRun(states, steps, ttlMs) && c < m < n < i < |states|
    requires Dispatches(states, steps, r, m, RecordMergeFailed) && Dispatches(states, steps, r, n, Resolution(autoClearable))
    requires SameOrder(states, r, m, i) && SameOrder(states, r, n, i)
    requires !FindsCached(states[m], r, RecordMergeFailed) && !FindsCached(states[n], r, Resolution(autoClearable))
    ensures RecordedAfter(states[i].ledger.events, |states[c].ledger.events|, r, states[i].requests[r].key,
                          states[i].requests[r].run, autoClearable)
  {
    DispatchWrites(states, steps, ttlMs, c, m, i, r, RecordMergeFailed);
    var a, b, q := |states[m].ledger.events|, |states[n].ledger.events|, states[i].requests[r];
    assert a < b by {
      RunGrows(states, steps, ttlMs, m + 1, n);
    }
    DispatchWrites(states, steps, ttlMs, c, n, i, r, Resolution(autoClearable));
    AreRecorded(states[i].ledger.events, |states[c].ledger.events|, r, q.key, q.run, autoClearable, a, b);
  }

  lemma AreRecorded(events: seq<Event>, from: nat, r: ReqId, key: Key, run: RunId, autoClearable: bool, a: nat, b: nat)
    requires from <= a < b < |events| && WrittenBy(events[a], r, RouteKey(key, RecordMergeFailed), run)
    requires WrittenBy(events[b], r, RouteKey(key, Resolution(autoClearable)), run)
    ensures RecordedAfter(events, from, r, key, run, autoClearable)
  {
  }

  lemma DispatchOutcome(s: State, r: ReqId)
    requires r in s.requests && (s.requests[r].pc.RecordingFailure? || s.requests[r].pc.Resolving?)
    requires !OutcomeOf(s, s.requests[r]).Threw?
    ensures var command := CommandAt(s.requests[r].pc);
            DispatchOf(s.requests[r]).value.key == RouteKey(s.requests[r].key, command)
            && (OutcomeOf(s, s.requests[r]) == Executed <==> !FindsCached(s, r, command))
  {
  }

  /** An event that request `r` has written after the call was written by one of the two dispatches. */
  lemma OwnEvent(states: seq<State>, steps: seq<Step>, ttlMs: nat, i: nat, r: ReqId, c: nat, m: nat, n: nat, a: nat)
    requires IsRun(states, steps, ttlMs) && c < m < n < i < |states| && DispatchesOnly(states, steps, r, c, m, n, i)
    requires |states[c].ledger.events| <= a < |states[i].ledger.events|
    requires states[i].ledger.events[a].cause.Dispatched? && states[i].ledger.events[a].cause.req == r
    ensures Writes(states, steps, m, a, states[i].ledger.events[a]) || Writes(states, steps, n, a, states[i].ledger.events[a])
  {
    var k := EventHasStep(states, steps, ttlMs, i, a);
    WrittenAfter(states, steps, ttlMs, k, c, a, states[i].ledger.events[a]);
    WrittenByOneOf(states, steps, r, c, m, n, i, k, a, states[i].ledger.events[a]);
  }

  lemma WrittenAfter(states: seq<State>, steps: seq<Step>, ttlMs: nat, k: nat, c: nat, a: nat, e: Event)
    requires IsRun(states, steps, ttlMs) && k < |steps| && c < |states| && Writes(states, steps, k, a, e)
    requires |states[c].ledger.events| <= a
    ensures c <= k
  {
    if k < c {
      RunGrows(states, steps, ttlMs, k + 1, c);
    }
  }

  lemma WrittenByOneOf(states: seq<State>, steps: seq<Step>, r: ReqId, c: nat, m: nat, n: nat, i: nat, k: nat, a: nat, e: Event)
    requires c <= k < i <= |steps| < |states| && m < |steps| && n < |steps|
    requires DispatchesOnly(states, steps, r, c, m, n, i) && Writes(states, steps, k, a, e) && e.cause.req == r
    ensures Writes(states, steps, m, a, e) || Writes(states, steps, n, a, e)
  {
  }

  lemma RecordedIsExecuted(states: seq<State>, steps: seq<Step>, ttlMs: nat, i: nat, r: ReqId, autoClearable: bool,
                           c: nat, m: nat, n: nat)
    requires IsRun(states, steps, ttlMs) && n < i < |states| && IsRejection(states, steps, r, autoClearable, c, m, n)
    requires DispatchesOnly(states, steps, r, c, m, n, i) && SameOrder(states, r, m, i) && SameOrder(states, r, n, i)
    requires RecordedAfter(states[i].ledger.events, |states[c].ledger.events|, r, states[i].requests[r].key,
                           states[i].requests[r].run, autoClearable)
    ensures !FindsCached(states[m], r, RecordMergeFailed) && !FindsCached(states[n], r, Resolution(autoClearable))
  {
    var q, events := states[i].requests[r], states[i].ledger.events;
    var a: nat, b: nat :| |states[c].ledger.events| <= a < b < |events|
      && WrittenBy(events[a], r, RouteKey(q.key, RecordMergeFailed), q.run)
      && WrittenBy(events[b], r, RouteKey(q.key, Resolution(autoClearable)), q.run);
    OwnEvent(states, steps, ttlMs, i, r, c, m, n, a);
    OwnEvent(states, steps, ttlMs, i, r, c, m, n, b);
    WrittenIsUncached(states, steps, r, autoClearable, c, m, n, a, events[a]);
    WrittenIsUncached(states, steps, r, autoClearable, c, m, n, b, events[b]);
  }

  lemma WrittenIsUncached(states: seq<State>, steps: seq<Step>, r: ReqId, autoClearable: bool, c: nat, m: nat, n: nat, a: nat, e: Event)
    requires |states| == |steps| + 1 && IsRejection(states, steps, r, autoClearable, c, m, n)
    requires Writes(states, steps, m, a, e) || Writes(states, steps, n, a, e)
    requires e.cause.key.RouteKey?
    ensures e.cause.key.command == RecordMergeFailed ==> !FindsCached(states[m], r, RecordMergeFailed)
    ensures e.cause.key.command == Resolution(autoClearable) ==> !FindsCached(states[n], r, Resolution(autoClearable))
  {
  }

  /** `i` states into the run, the stored rejection of `r` is recorded if and only if its recording and its
    * resolution found nothing cached. */
  ghost predicate IsRecordedExactly(states: seq<State>, steps: seq<Step>, i: nat, r: ReqId, autoClearable: bool, c: nat, m: nat, n: nat)
    requires i < |states| == |steps| + 1 && r in states[i].requests
  {
    && n < i && IsRejection(states, steps, r, autoClearable, c, m, n)
    && (RecordedAfter(states[i].ledger.events, |states[c].ledger.events|, r, states[i].requests[r].key,
                      states[i].requests[r].run, autoClearable)
        <==> !FindsCached(states[m], r, RecordMergeFailed) && !FindsCached(states[n], r, Resolution(autoClearable)))
  }

  /** A rejection that has been stored is recorded, and resolved after that, by the request that got it, if
    * and only if neither of the two commands found a stored result of its key. */
  lemma RejectionIsRecordedExactly(states: seq<State>, steps: seq<Step>, ttlMs: nat, i: nat, r: ReqId)
    returns (c: nat, m: nat, n: nat)
    requires IsRun(states, steps, ttlMs) && i < |states| && r in states[i].requests
    requires states[i].requests[r].stored.Some? && states[i].requests[r].stored.value.Rejected?
    ensures IsRecordedExactly(states, steps, i, r, states[i].requests[r].stored.value.autoClearable, c, m, n)
  {
    c, m, n := RejectionSteps(states, steps, ttlMs, i, r);
    var q, autoClearable := states[i].requests[r], states[i].requests[r].stored.value.autoClearable;
    if RecordedAfter(states[i].ledger.events, |states[c].ledger.events|, r, q.key, q.run, autoClearable) {
      RecordedIsExecuted(states, steps, ttlMs, i, r, autoClearable, c, m, n);
    } else if !FindsCached(states[m], r, RecordMergeFailed) && !FindsCached(states[n], r, Resolution(autoClearable)) {
      ExecutedIsRecorded(states, steps, ttlMs, i, r, autoClearable, c, m, n);
    }
  }

  /** Every 409 after an SCM rejection, fresh or replayed, is the stored rejection of a request with its key,
    * to which the exact condition applies. */
  lemma AnsweredRejection(states: seq<State>, steps: seq<Step>, ttlMs: nat, i: nat, r: ReqId)
    returns (a: ReqId, c: nat, m: nat, n: nat)
    requires IsRun(states, steps, ttlMs) && i < |states| && r in states[i].requests && states[i].requests[r].key != ""
    requires states[i].requests[r].pc.Done? && states[i].requests[r].pc.answer.Some?
    requires states[i].requests[r].pc.answer.value.Rejected?
    ensures a in states[i].requests && states[i].requests[a].key == states[i].requests[r].key
    ensures states[i].requests[a].stored == states[i].requests[r].pc.answer
    ensures IsRecordedExactly(states, steps, i, a, states[i].requests[r].pc.answer.value.autoClearable, c, m, n)
  {
    a := AnswerHasOwner(states, steps, ttlMs, i, r);
    c, m, n := RejectionIsRecordedExactly(states, steps, ttlMs, i, a);
  }

  // ---------- a merge that happened, treated as failed ----------

  /** An earlier call of the same key merged the run, and its reply was lost. */
  ghost predicate ReplyWasLost(s: State, key: Key, run: RunId) {
    exists call <- s.calls :: call.key == key && call.run == run && call.reply == Fail(true)
  }

  /** The run was merged from the start, outside of this protocol, or under another key. */
  ghost predicate MergedByOthers(states: seq<State>, steps: seq<Step>, i: nat, key: Key, run: RunId)
    requires i < |states| == |steps| + 1
  {
    || run in states[0].scm
    || MergedElsewhereBefore(steps, i, run)
    || exists call <- states[i].calls :: call.key != key && call.run == run && call.Merges()
  }

  /** A call of the same key was accepted, and the claim of its request or of `r` had expired and was deleted. */
  ghost predicate MergedUnderLostClaim(states: seq<State>, steps: seq<Step>, i: nat, r: ReqId)
    requires i < |states| == |steps| + 1 && r in states[i].requests
  {
    var q := states[i].requests[r];
    exists call <- states[i].calls :: call.key == q.key && call.run == q.run && call.Returned()
      && (ExpiredBefore(states, steps, i, call.req) || ExpiredBefore(states, steps, i, r))
  }

  /** What may have merged the pull request of `r` although `r` itself has not. */
  ghost predicate MergedBeside(states: seq<State>, steps: seq<Step>, i: nat, r: ReqId)
    requires i < |states| == |steps| + 1 && r in states[i].requests
  {
    var q := states[i].requests[r];
    || ReplyWasLost(states[i], q.key, q.run)
    || MergedByOthers(states, steps, i, q.key, q.run)
    || MergedUnderLostClaim(states, steps, i, r)
  }

  lemma AcceptedCall(states: seq<State>, steps: seq<Step>, ttlMs: nat, i: nat, r: ReqId, call: Call)
    requires IsRun(states, steps, ttlMs) && i < |states| && r in states[i].requests
    requires states[i].requests[r].pc.IsOwner() && !states[i].requests[r].merged
    requires call in states[i].calls && call.key == states[i].requests[r].key && call.Returned()
    ensures ExpiredBefore(states, steps, i, call.req) || ExpiredBefore(states, steps, i, r)
  {
    RunInv(states, steps, ttlMs, i);
    assert CallOk(states[i], call);
    OneHasLapsed(states[i], call.req, r);
    LapsedExactly(states, steps, ttlMs, i, call.req);
    LapsedExactly(states, steps, ttlMs, i, r);
  }

  /** While a request is handled and has not merged itself, its pull request is merged if and only if an
    * earlier call of the key merged it behind a lost reply, somebody else merged it, or a call of the key was
    * accepted and one of the two claims had expired. */
  lemma AlreadyMergedExactly(states: seq<State>, steps: seq<Step>, ttlMs: nat, i: nat, r: ReqId)
    requires IsRun(states, steps, ttlMs) && i < |states| && r in states[i].requests
    requires states[i].requests[r].pc.IsOwner() && !states[i].requests[r].merged
    ensures states[i].requests[r].run in states[i].scm <==> MergedBeside(states, steps, i, r)
  {
    var q := states[i].requests[r];
    ScmOrigin(states, steps, ttlMs, i, q.run);
    if call :| call in states[i].calls && call.run == q.run && call.Merges() {
      if call.key == q.key && call.Returned() {
        AcceptedCall(states, steps, ttlMs, i, r, call);
      }
    }
  }

  /** Step `i` writes that the merge of the run has failed: its recording, or, when that was replayed, its
    * reconcile or escalation. */
  ghost predicate WritesFailure(states: seq<State>, steps: seq<Step>, i: nat, r: ReqId)
    requires i < |steps| < |states|
  {
    && (steps[i] == Advance(r, Go) || steps[i] == Advance(r, Fail(true)))
    && r in states[i].requests && (states[i].requests[r].pc.RecordingFailure? || states[i].requests[r].pc.Resolving?)
    && OutcomeOf(states[i], states[i].requests[r]) == Executed
  }

  /** A merged run is taken to merge_failed, back to review or to a human, as a failed merge, if and only if,
    * at that step, something else than the request's own call has merged it. */
  lemma MergedTreatedAsFailedExactly(states: seq<State>, steps: seq<Step>, ttlMs: nat, i: nat, r: ReqId)
    requires IsRun(states, steps, ttlMs) && i < |steps| && WritesFailure(states, steps, i, r)
    ensures var q, l' := states[i].requests[r], states[i + 1].ledger;
            && q.run in l'.runs && l'.runs[q.run].state == DispatchOf(q).value.to
            && l'.runs[q.run].state == (if q.pc.RecordingFailure? then MergeFailed
                                        else if q.pc.autoClearable then UnderReview else HumanRequired)
            && (q.run in states[i + 1].scm <==> MergedBeside(states, steps, i, r))
  {
    assert IsStep(states, steps, ttlMs, i);
    RunInv(states, steps, ttlMs, i);
    assert FlagOk(states[i].requests[r]);
    AlreadyMergedExactly(states, steps, ttlMs, i, r);
  }
}
