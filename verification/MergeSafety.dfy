/** What every step of the merge protocol keeps. */
module MergeSafety {
  import opened RouteIdempotency
  import opened FeatureExecution
  import opened MergeModel

  // ---------- claims ----------

  predicate BeforeCall(pc: Pc) {
    pc.DeleteExpired? || pc.InsertClaim? || pc.ReadClaim? || pc.FetchRun? || pc.MakeReady? || pc.CheckReady? || pc.CallMerge?
  }

  predicate IsFinalize(pc: Pc) {
    pc.FinalizeFetch? || pc.FinalizeObserve? || pc.FinalizeRecord?
  }

  /** Whether a request has a row of its own, unless that row has been deleted as expired: from winning the
    * claim to its release, and for good when the release failed, the merge went through, a response was
    * stored and sent, or the INSERT took effect behind an error. */
  predicate HasRow(q: Request) {
    || q.pc.IsOwner()
    || (q.pc.Done? && (q.merged || q.releaseFailed || q.insertErred || (q.pc.answer.Some? && q.stored.Some?)))
  }

  /** A row belongs to a request that has inserted it, and holds what that request has stored. */
  ghost predicate RowOk(s: State, a: ClaimId)
    requires a in s.claims
  {
    && a in s.requests && s.requests[a].key == s.claims[a].key
    && (HasRow(s.requests[a]) || s.requests[a].pc.Crashed?)
    && s.claims[a].result == s.requests[a].stored
  }

  /** `mergeSucceeded` is set only past the merge call, and keeps the request from releasing. */
  predicate FlagOk(q: Request) {
    && (q.merged ==> q.pc.RecordingMerge? || (q.pc.Responding? && q.pc.response.MergeRecorded?) || q.pc.IsEnded())
    && (q.pc.RecordingMerge? ==> q.merged)
    && (q.pc.Responding? && q.pc.response.MergeRecorded? ==> q.merged)
    && (IsFinalize(q.pc) <==> q.key == "" && !q.pc.IsEnded())
    && (q.stored.Some? ==> q.pc.Releasing? || q.pc.IsEnded())
    && (q.insertErred || q.releaseFailed ==> q.pc.IsEnded())
  }

  /** A request that has a row finds it, exactly if the row has not been deleted as expired. */
  ghost predicate HoldsClaim(s: State, r: ReqId)
    requires r in s.requests
  {
    HasRow(s.requests[r]) || s.requests[r].merged ==> (r in s.claims <==> r !in s.lapsed)
  }

  /** A row that has been deleted as expired was its request's own, and does not come back. */
  ghost predicate LapsedOk(s: State, a: ClaimId) {
    && a in s.requests && a !in s.claims
    && !s.requests[a].pc.DeleteExpired? && !s.requests[a].pc.InsertClaim?
  }

  ghost predicate ClaimsOk(s: State) {
    && Unique(s.claims)
    && (forall a <- s.claims :: RowOk(s, a))
    && (forall a <- s.lapsed :: LapsedOk(s, a))
    && (forall r <- s.requests :: FlagOk(s.requests[r]) && HoldsClaim(s, r))
  }

  // ---------- merge calls ----------

  ghost predicate CallOk(s: State, call: Call) {
    && call.req in s.requests && s.requests[call.req].key == call.key && s.requests[call.req].run == call.run
    && !BeforeCall(s.requests[call.req].pc)
    && (call.Returned() ==> s.requests[call.req].merged && call.run in s.scm)
  }

  ghost predicate CallsOk(s: State) {
    && (forall call <- s.calls :: CallOk(s, call))
    && (forall i, j | 0 <= i < j < |s.calls| :: s.calls[i].Returned() && s.calls[i].key == s.calls[j].key ==>
          s.calls[i].req in s.lapsed || s.calls[j].req in s.lapsed)
  }

  lemma PcMovesOn(s: State, r: ReqId, choice: Choice)
    requires r in s.requests && Possible(s, s.requests[r], choice) && FlagOk(s.requests[r])
    ensures FlagOk(RequestAfter(s, r, choice))
    ensures !BeforeCall(s.requests[r].pc) ==> !BeforeCall(PcAfter(s, r, choice))
    ensures s.requests[r].pc.CallMerge? ==> !BeforeCall(PcAfter(s, r, choice))
  {
  }

  /** What one advance does to another request's row: nothing, or it deletes it as expired. */
  lemma OthersRowKept(s: State, r: ReqId, choice: Choice, ttlMs: nat, a: ClaimId)
    requires ClaimsOk(s) && r in s.requests && Possible(s, s.requests[r], choice) && a != r
    ensures a in ClaimsAfter(s, r, choice, ttlMs) ==> a in s.claims && ClaimsAfter(s, r, choice, ttlMs)[a] == s.claims[a]
    ensures a in s.claims && a !in ClaimsAfter(s, r, choice, ttlMs) ==>
              s.requests[r].pc.DeleteExpired? && s.claims[a].key == s.requests[r].key
              && s.claims[a].expiresAt <= s.requests[r].now
  {
  }

  lemma OwnRowKept(s: State, r: ReqId, choice: Choice, ttlMs: nat)
    requires ClaimsOk(s) && r in s.requests && Possible(s, s.requests[r], choice)
    requires r in ClaimsAfter(s, r, choice, ttlMs)
    ensures var q', row := RequestAfter(s, r, choice), ClaimsAfter(s, r, choice, ttlMs)[r];
            row.key == q'.key && HasRow(q') && row.result == q'.stored
  {
    assert r in s.claims ==> RowOk(s, r);
    assert FlagOk(s.requests[r]);
  }

  /** A request that has a row after its own step has inserted it, or had it before. */
  lemma OwnRowStays(s: State, r: ReqId, choice: Choice, ttlMs: nat)
    requires r in s.requests && Possible(s, s.requests[r], choice) && FlagOk(s.requests[r])
    requires HasRow(RequestAfter(s, r, choice)) || RequestAfter(s, r, choice).merged
    ensures s.requests[r].pc.InsertClaim? ==> r in ClaimsAfter(s, r, choice, ttlMs)
    ensures !s.requests[r].pc.InsertClaim? ==>
              (HasRow(s.requests[r]) || s.requests[r].merged) && (r in ClaimsAfter(s, r, choice, ttlMs) <==> r in s.claims)
  {
  }

  /** A request's own step does not make its row lapse. */
  lemma OwnRowLapsesNot(s: State, r: ReqId, choice: Choice, ttlMs: nat)
    requires ClaimsOk(s) && r in s.requests && Possible(s, s.requests[r], choice)
    ensures var s' := Apply(s, Advance(r, choice), ttlMs);
            (r in s'.lapsed <==> r in s.lapsed) && (r in s'.lapsed ==> LapsedOk(s', r))
  {
    assert r in s.claims ==> RowOk(s, r);
    assert r in s.lapsed ==> LapsedOk(s, r);
  }

  lemma OwnClaimHeld(s: State, r: ReqId, choice: Choice, ttlMs: nat)
    requires ClaimsOk(s) && r in s.requests && Possible(s, s.requests[r], choice)
    ensures HoldsClaim(Apply(s, Advance(r, choice), ttlMs), r)
  {
    assert FlagOk(s.requests[r]) && HoldsClaim(s, r);
    assert r in s.lapsed ==> LapsedOk(s, r);
    OwnRowLapsesNot(s, r, choice, ttlMs);
    if HasRow(RequestAfter(s, r, choice)) || RequestAfter(s, r, choice).merged {
      OwnRowStays(s, r, choice, ttlMs);
    }
  }

  /** The row and the hold of any other request. */
  lemma OthersKept(s: State, r: ReqId, choice: Choice, ttlMs: nat, a: ReqId)
    requires ClaimsOk(s) && Enabled(s, Advance(r, choice)) && a != r
    ensures var s' := Apply(s, Advance(r, choice), ttlMs);
            && (a in s'.claims ==> RowOk(s', a)) && (a in s'.lapsed ==> LapsedOk(s', a))
            && (a in s'.requests ==> FlagOk(s'.requests[a]) && HoldsClaim(s', a))
  {
    OthersRowKept(s, r, choice, ttlMs, a);
    assert a in s.claims ==> RowOk(s, a);
    assert a in s.lapsed ==> LapsedOk(s, a);
    assert a in s.requests ==> FlagOk(s.requests[a]) && HoldsClaim(s, a);
  }

  lemma AdvanceKeepsUnique(s: State, r: ReqId, choice: Choice, ttlMs: nat)
    requires ClaimsOk(s) && r in s.requests && Possible(s, s.requests[r], choice)
    ensures Unique(ClaimsAfter(s, r, choice, ttlMs))
  {
    var q := s.requests[r];
    match q.pc
    case DeleteExpired => StatementsKeepUnique(s.claims, r, q.key, q.now, GateBlocked);
    case InsertClaim =>
      assert r in s.claims ==> RowOk(s, r);
      StatementsKeepUnique(s.claims, r, q.key, q.now + ttlMs, GateBlocked);
    case Responding(response) => StatementsKeepUnique(s.claims, r, q.key, q.now, response);
    case _ =>
  }

  lemma AdvanceKeepsClaims(s: State, r: ReqId, choice: Choice, ttlMs: nat)
    requires ClaimsOk(s) && Enabled(s, Advance(r, choice))
    ensures ClaimsOk(Apply(s, Advance(r, choice), ttlMs))
  {
    var s' := Apply(s, Advance(r, choice), ttlMs);
    AdvanceKeepsUnique(s, r, choice, ttlMs);
    assert FlagOk(s.requests[r]) && HoldsClaim(s, r);
    PcMovesOn(s, r, choice);
    if r in s'.claims {
      OwnRowKept(s, r, choice, ttlMs);
    }
    OwnRowLapsesNot(s, r, choice, ttlMs);
    OwnClaimHeld(s, r, choice, ttlMs);
    forall a ensures (a in s'.claims ==> RowOk(s', a)) && (a in s'.lapsed ==> LapsedOk(s', a)) {
      if a != r {
        OthersKept(s, r, choice, ttlMs, a);
      }
    }
    forall a | a in s'.requests ensures FlagOk(s'.requests[a]) && HoldsClaim(s', a) {
      if a != r {
        OthersKept(s, r, choice, ttlMs, a);
      }
    }
  }

  lemma StepKeepsClaims(s: State, step: Step, ttlMs: nat)
    requires ClaimsOk(s) && Enabled(s, step)
    ensures ClaimsOk(Apply(s, step, ttlMs))
  {
    var s' := Apply(s, step, ttlMs);
    if step.Advance? {
      AdvanceKeepsClaims(s, step.r, step.choice, ttlMs);
    } else {
      forall a | a in s'.claims ensures RowOk(s', a) {
        assert RowOk(s, a);
      }
      forall a | a in s'.lapsed ensures LapsedOk(s', a) {
        assert LapsedOk(s, a);
      }
      forall a | a in s'.requests ensures FlagOk(s'.requests[a]) && HoldsClaim(s', a) {
        assert a in s.requests ==> FlagOk(s.requests[a]) && HoldsClaim(s, a);
      }
    }
  }

  /** Of a request that has merged and another one with its key that still may, one has lost its claim. */
  lemma OneHasLapsed(s: State, a: ReqId, r: ReqId)
    requires ClaimsOk(s) && a in s.requests && r in s.requests && s.requests[a].key == s.requests[r].key
    requires s.requests[a].merged && s.requests[r].pc.IsOwner() && !s.requests[r].merged
    ensures a in s.lapsed || r in s.lapsed
  {
    assert HoldsClaim(s, a) && HoldsClaim(s, r);
    assert a in s.claims ==> RowOk(s, a);
    assert r in s.claims ==> RowOk(s, r);
  }

  lemma CallKeepsOrder(s: State, r: ReqId, i: nat)
    requires ClaimsOk(s) && CallsOk(s) && r in s.requests && s.requests[r].pc.CallMerge?
    requires i < |s.calls| && s.calls[i].Returned() && s.calls[i].key == s.requests[r].key
    ensures s.calls[i].req in s.lapsed || r in s.lapsed
  {
    assert CallOk(s, s.calls[i]);
    assert FlagOk(s.requests[r]);
    OneHasLapsed(s, s.calls[i].req, r);
  }

  lemma StepKeepsCalls(s: State, step: Step, ttlMs: nat)
    requires ClaimsOk(s) && CallsOk(s) && Enabled(s, step)
    ensures CallsOk(Apply(s, step, ttlMs))
  {
    var s' := Apply(s, step, ttlMs);
    assert s.lapsed <= s'.lapsed;
    if step.Advance? {
      PcMovesOn(s, step.r, step.choice);
      if s.requests[step.r].pc.CallMerge? {
        forall i | 0 <= i < |s.calls| && s.calls[i].Returned() && s.calls[i].key == s.requests[step.r].key
          ensures s.calls[i].req in s.lapsed || step.r in s.lapsed
        {
          CallKeepsOrder(s, step.r, i);
        }
      }
    }
    forall call | call in s'.calls ensures CallOk(s', call) {
      assert call in s.calls ==> CallOk(s, call);
    }
  }

  // ---------- the ledger of feature runs ----------

  predicate IsMerged(l: Ledger, run: RunId) {
    run in l.runs && l.runs[run].state == Merged
  }

  /** An event by which a dispatch of command `key` took `run` to `to`. */
  predicate Records(e: Event, run: RunId, to: ExecState, key: CommandKey) {
    e.run == run && e.to == to && e.cause.Dispatched? && e.cause.key == key
  }

  /** A stored command result is backed by the transition it reports. */
  ghost predicate CachedOk(l: Ledger, key: CommandKey) {
    && key in l.cache
    && (key.FinalizeKey? ==> l.cache[key].run == key.run)
    && exists e <- l.events :: Records(e, l.cache[key].run, TargetOf(key), key)
  }

  function TargetOf(key: CommandKey): ExecState {
    if key.RouteKey? then Target(key.command) else Merged
  }

  ghost predicate LedgerOk(s: State) {
    && RecordsOk(s.ledger)
    && (forall run :: IsMerged(s.ledger, run) ==> run in s.scm)
    && (forall r <- s.requests :: s.requests[r].pc.RecordingMerge? || s.requests[r].pc.FinalizeRecord? ==> s.requests[r].run in s.scm)
  }

  /** Nothing recorded is taken back: events stay in place, and a merged run stays as it is. */
  ghost predicate Grows(l: Ledger, l': Ledger) {
    && l.events <= l'.events
    && (forall run :: IsMerged(l, run) ==> run in l'.runs && l'.runs[run] == l.runs[run])
  }

  /** A command undoes no merge, marks as merged only its own run, and stores a result only with its event. */
  lemma CommandKeepsLedger(l: Ledger, req: nat, key: CommandKey, run: RunId, version: nat, to: ExecState, now: int, ttlMs: int)
    ensures var l' := AfterCommand(l, req, key, run, version, to, now, ttlMs);
            && Grows(l, l')
            && (forall f :: IsMerged(l', f) ==> IsMerged(l, f) || (f == run && to == Merged))
            && (forall e <- l'.events :: e.to == Merged ==> e in l.events || (e.run == run && IsMerged(l', run)))
            && (forall k <- l'.cache :: (k in l.cache && l'.cache[k] == l.cache[k])
                                        || (k == key && l'.cache[k].run == run
                                            && exists e <- l'.events :: Records(e, run, to, key)))
  {
    var l' := AfterCommand(l, req, key, run, version, to, now, ttlMs);
    if l' != l {
      var e := Event(run, l.runs[run].state, to, Dispatched(req, key));
      assert l'.events[|l.events|] == e;
      assert e in l'.events && Records(e, run, to, key);
    }
  }

  lemma CachedStays(l: Ledger, l': Ledger, key: CommandKey)
    requires l.events <= l'.events && key in l.cache && key in l'.cache && l'.cache[key] == l.cache[key] && CachedOk(l, key)
    ensures CachedOk(l', key)
  {
    var e :| e in l.events && Records(e, l.cache[key].run, TargetOf(key), key);
    assert e in l'.events;
  }

  lemma CommandKeepsCache(l: Ledger, req: nat, key: CommandKey, run: RunId, version: nat, to: ExecState, now: int, ttlMs: int)
    requires forall k <- l.cache :: CachedOk(l, k)
    requires to == TargetOf(key) && (key.FinalizeKey? ==> key.run == run)
    ensures var l' := AfterCommand(l, req, key, run, version, to, now, ttlMs); forall k <- l'.cache :: CachedOk(l', k)
  {
    var l' := AfterCommand(l, req, key, run, version, to, now, ttlMs);
    CommandKeepsLedger(l, req, key, run, version, to, now, ttlMs);
    forall k | k in l'.cache ensures CachedOk(l', k) {
      if k in l.cache && l'.cache[k] == l.cache[k] {
        CachedStays(l, l', k);
      }
    }
  }

  /** Every dispatch has the target its key stands for, and only two of them record a merge. */
  lemma DispatchTarget(q: Request)
    requires DispatchOf(q).Some?
    ensures var d := DispatchOf(q).value;
            && d.to == TargetOf(d.key) && (d.key.FinalizeKey? ==> d.key.run == q.run)
            && (d.to == Merged ==> q.pc.RecordingMerge? || q.pc.FinalizeRecord?)
  {
  }

  ghost predicate RecordsOk(l: Ledger) {
    (forall key <- l.cache :: CachedOk(l, key)) && (forall e <- l.events :: e.to == Merged ==> IsMerged(l, e.run))
  }

  lemma DispatchKeepsLedger(s: State, r: ReqId, choice: Choice, ttlMs: nat)
    requires RecordsOk(s.ledger) && r in s.requests
    ensures var q, l' := s.requests[r], LedgerAfter(s, r, choice, ttlMs);
            && Grows(s.ledger, l') && RecordsOk(l')
            && (forall run :: IsMerged(l', run) ==>
                  IsMerged(s.ledger, run) || (run == q.run && (q.pc.RecordingMerge? || q.pc.FinalizeRecord?)))
  {
    var q := s.requests[r];
    if DispatchOf(q).Some? {
      var d := DispatchOf(q).value;
      DispatchTarget(q);
      CommandKeepsLedger(s.ledger, r, d.key, q.run, d.version, d.to, s.clock, ttlMs);
      CommandKeepsCache(s.ledger, r, d.key, q.run, d.version, d.to, s.clock, ttlMs);
    }
  }

  lemma AdvanceKeepsLedger(s: State, r: ReqId, choice: Choice, ttlMs: nat)
    requires LedgerOk(s) && r in s.requests && Possible(s, s.requests[r], choice)
    ensures LedgerOk(Apply(s, Advance(r, choice), ttlMs))
    ensures Grows(s.ledger, LedgerAfter(s, r, choice, ttlMs))
  {
    DispatchKeepsLedger(s, r, choice, ttlMs);
    RecordingOnlyMerged(s, r, choice);
  }

  /** A request sets out to record a merge only of a run whose pull request has been merged. */
  lemma RecordingOnlyMerged(s: State, r: ReqId, choice: Choice)
    requires r in s.requests && Possible(s, s.requests[r], choice)
    requires s.requests[r].pc.RecordingMerge? || s.requests[r].pc.FinalizeRecord? ==> s.requests[r].run in s.scm
    ensures PcAfter(s, r, choice).RecordingMerge? || PcAfter(s, r, choice).FinalizeRecord? ==>
              s.requests[r].run in s.scm || (s.requests[r].pc.CallMerge? && choice == Accept)
  {
  }

  lemma OtherCommandKeepsLedger(s: State, run: RunId, to: ExecState, ttlMs: nat)
    requires LedgerOk(s) && Enabled(s, OtherCommand(run, to))
    ensures LedgerOk(Apply(s, OtherCommand(run, to), ttlMs))
    ensures Grows(s.ledger, Apply(s, OtherCommand(run, to), ttlMs).ledger)
  {
    var l' := Apply(s, OtherCommand(run, to), ttlMs).ledger;
    OtherCommandMergesNothing(s.ledger, run, to, l');
    forall k | k in l'.cache ensures CachedOk(l', k) {
      CachedStays(s.ledger, l', k);
    }
  }

  lemma OtherCommandMergesNothing(l: Ledger, run: RunId, to: ExecState, l': Ledger)
    requires run in l.runs && IsTransition(l.runs[run].state, to) && to != Merged
    requires l' == l.(runs := l.runs[run := FeatureRun(to, l.runs[run].version + 1)],
                      events := l.events + [Event(run, l.runs[run].state, to, Elsewhere)])
    ensures Grows(l, l') && (forall f :: IsMerged(l', f) <==> IsMerged(l, f))
    ensures forall e <- l'.events :: e.to == Merged ==> e in l.events
  {
  }

  lemma StepKeepsLedger(s: State, step: Step, ttlMs: nat)
    requires LedgerOk(s) && Enabled(s, step)
    ensures LedgerOk(Apply(s, step, ttlMs))
    ensures Grows(s.ledger, Apply(s, step, ttlMs).ledger)
  {
    match step
    case Advance(r, choice) => AdvanceKeepsLedger(s, r, choice, ttlMs);
    case OtherCommand(run, to) => OtherCommandKeepsLedger(s, run, to, ttlMs);
    case _ =>
  }

  ghost predicate Inv(s: State) {
    ClaimsOk(s) && CallsOk(s) && LedgerOk(s)
  }

  lemma StepKeepsInv(s: State, step: Step, ttlMs: nat)
    requires Inv(s) && Enabled(s, step)
    ensures Inv(Apply(s, step, ttlMs))
    ensures Grows(s.ledger, Apply(s, step, ttlMs).ledger)
  {
    StepKeepsClaims(s, step, ttlMs);
    StepKeepsCalls(s, step, ttlMs);
    StepKeepsLedger(s, step, ttlMs);
  }
}
