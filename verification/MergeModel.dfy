/** `POST /commands/merge-if-ready` and `POST /commands/finalize-if-github-merged` as a transition system.
  *
  * A request advances one await at a time; any number of requests, other commands and the SCM itself
  * interleave. The SCM may accept a merge, reject it, or fail with an infrastructure error that leaves
  * open whether it merged. The time-to-live of claims and stored results is the same constant. */
module MergeModel {
  import opened Prelude
  import opened RouteIdempotency
  import opened FeatureExecution

  type ReqId = ClaimId

  datatype Response =
    | MergeRecorded(run: RunId)   // 200 { merged: true }, reporting the transition of `run`
    | GateBlocked                 // 409 { merged: false, reasons }
    | Rejected(autoClearable: bool)   // 409 { merged: false, resolution }
    | AlreadyRecorded             // 200 { alreadyRecorded: true }

  /** Where a request stands: the await it performs next. */
  datatype Pc =
    | DeleteExpired
    | InsertClaim
    | ReadClaim
    | FetchRun
    | MakeReady(version: nat)
    | CheckReady
    | CallMerge(version: nat)
    | RecordingMerge(version: nat)
    | RecordingFailure(version: nat, autoClearable: bool)
    | FetchFailed(autoClearable: bool)
    | Resolving(version: nat, autoClearable: bool)
    | Responding(response: Response)
    | Releasing
    | FinalizeFetch
    | FinalizeObserve(version: nat)
    | FinalizeRecord(version: nat, sha: string)
    | Done(answer: Option<Response>)   // None: the handler threw
    | Crashed
  {
    /** Between winning the claim and the end of the handler. */
    predicate IsOwner() {
      FetchRun? || MakeReady? || CheckReady? || CallMerge? || RecordingMerge? || RecordingFailure? || FetchFailed?
      || Resolving? || Responding? || Releasing?
    }
    predicate IsEnded() { Done? || Crashed? }
  }

  /** `merged` is the handler's `mergeSucceeded`; the rest is bookkeeping: `stored` is the response the
    * request has written to its claim, `insertErred` says that its claiming INSERT took effect and reported
    * an error, `releaseFailed` that its final DELETE failed. */
  datatype Request = Request(
    key: Key, run: RunId, now: int, pc: Pc, merged: bool,
    stored: Option<Response>, insertErred: bool, releaseFailed: bool)

  function NewRequest(key: Key, run: RunId, now: int, pc: Pc): Request {
    Request(key, run, now, pc, false, None, false, false)
  }

  /** One call of the SCM's merge, and how it turned out. */
  datatype Call = Call(req: ReqId, key: Key, run: RunId, reply: Choice) {
    predicate Returned() { reply == Accept }
    predicate Merges() { reply == Accept || reply == Fail(true) }
  }

  /** `lapsed` are the claims that have been deleted as expired; `calls` the merge calls made. */
  datatype State = State(
    clock: int, claims: Claims<Response>, ledger: Ledger, scm: set<RunId>,
    requests: map<ReqId, Request>, lapsed: set<ClaimId>, calls: seq<Call>)

  /** How the awaited operation turns out. A failing one may have been applied. */
  datatype Choice = Go | Fail(applied: bool) | Block | Accept | Reject(autoClearable: bool) | Observe(sha: string)

  datatype Step =
    | Tick(ms: nat)
    | NewMerge(r: ReqId, key: Key, run: RunId)
    | NewFinalize(r: ReqId, run: RunId)
    | OtherCommand(run: RunId, to: ExecState)
    | MergedElsewhere(run: RunId)
    | Advance(r: ReqId, choice: Choice)
    | Crash(r: ReqId)

  /** Whether a step is taken by somebody other than request `r`. */
  predicate Spares(step: Step, r: ReqId) {
    match step
    case Advance(other, _) => other != r
    case NewMerge(other, _, _) => other != r
    case NewFinalize(other, _) => other != r
    case Crash(other) => other != r
    case _ => true
  }

  /** Which outcomes the operation awaited at `pc` has. */
  predicate Possible(s: State, q: Request, choice: Choice) {
    match q.pc
    case MakeReady(_) =>
      choice == Go || choice.Fail? || (choice == Block && !IsCached(s.ledger, RouteKey(q.key, MergeIfReadyCommand), s.clock))
    case CallMerge(_) => choice == Accept || choice.Reject? || choice.Fail?
    case FinalizeObserve(_) => choice == Go || choice.Fail? || (choice.Observe? && q.run in s.scm)
    case Done(_) => false
    case Crashed => false
    case _ => choice == Go || choice.Fail?
  }

  predicate Enabled(s: State, step: Step) {
    match step
    case Tick(_) => true
    case NewMerge(r, key, _) => r !in s.requests && key != ""
    case NewFinalize(r, _) => r !in s.requests
    case OtherCommand(run, to) => run in s.ledger.runs && IsTransition(s.ledger.runs[run].state, to) && to != Merged
    case MergedElsewhere(_) => true
    case Advance(r, choice) => r in s.requests && Possible(s, s.requests[r], choice)
    case Crash(r) => r in s.requests && !s.requests[r].pc.IsEnded()
  }

  /** The command a request dispatches at its `pc`: key, expected version and target state. */
  datatype Dispatch = Dispatch(key: CommandKey, version: nat, to: ExecState)

  function DispatchOf(q: Request): Option<Dispatch> {
    match q.pc
    case MakeReady(v) => Some(Dispatch(RouteKey(q.key, MergeIfReadyCommand), v, MergeReady))
    case RecordingMerge(v) => Some(Dispatch(RouteKey(q.key, RecordMerged), v, Merged))
    case RecordingFailure(v, _) => Some(Dispatch(RouteKey(q.key, RecordMergeFailed), v, MergeFailed))
    case Resolving(v, autoClearable) =>
      if autoClearable then Some(Dispatch(RouteKey(q.key, ReconcileMergeFailed), v, UnderReview))
      else Some(Dispatch(RouteKey(q.key, EscalateToHuman), v, HumanRequired))
    case FinalizeRecord(v, sha) => Some(Dispatch(FinalizeKey(q.run, sha), v, Merged))
    case _ => None
  }

  function OutcomeOf(s: State, q: Request): Outcome
    requires DispatchOf(q).Some?
  {
    var d := DispatchOf(q).value;
    Outcomes(s.ledger, d.key, q.run, d.version, d.to, s.clock)
  }

  /** The outer catch block: past a successful merge the claim is left alone, before it it is released. */
  function Caught(q: Request): Pc {
    if q.merged then Done(None) else Releasing
  }

  ghost function PcAfter(s: State, r: ReqId, choice: Choice): Pc
    requires r in s.requests && Possible(s, s.requests[r], choice)
  {
    var q := s.requests[r];
    match q.pc
    case DeleteExpired => if choice.Fail? then Done(None) else InsertClaim
    case InsertClaim => if choice.Fail? then Done(None) else if Taken(s.claims, q.key) then ReadClaim else FetchRun
    case ReadClaim => if choice.Fail? then Done(None) else Done(LiveResult(s.claims, q.key, q.now))
    case FetchRun =>
      if choice.Fail? || q.run !in s.ledger.runs then Caught(q) else MakeReady(s.ledger.runs[q.run].version)
    case MakeReady(_) =>
      if choice == Block then Responding(GateBlocked)
      else if choice.Fail? || OutcomeOf(s, q).Threw? then Caught(q) else CheckReady
    case CheckReady =>
      if choice.Fail? || q.run !in s.ledger.runs || s.ledger.runs[q.run].state != MergeReady then Caught(q)
      else CallMerge(s.ledger.runs[q.run].version)
    case CallMerge(v) =>
      if choice.Fail? then Caught(q)
      else if choice.Reject? then RecordingFailure(v, choice.autoClearable)
      else RecordingMerge(v)
    case RecordingMerge(_) =>
      if choice.Fail? then Caught(q)
      else (match OutcomeOf(s, q)
            case Threw => Caught(q)
            case Executed => Responding(MergeRecorded(q.run))
            case Replayed(other) => Responding(MergeRecorded(other)))
    case RecordingFailure(_, autoClearable) =>
      if choice.Fail? || OutcomeOf(s, q).Threw? then Caught(q) else FetchFailed(autoClearable)
    case FetchFailed(autoClearable) =>
      if choice.Fail? || q.run !in s.ledger.runs then Caught(q)
      else Resolving(s.ledger.runs[q.run].version, autoClearable)
    case Resolving(_, autoClearable) =>
      if choice.Fail? || OutcomeOf(s, q).Threw? then Caught(q) else Responding(Rejected(autoClearable))
    case Responding(response) => if choice.Fail? then Caught(q) else Done(Some(response))
    case Releasing => Done(None)
    case FinalizeFetch =>
      if choice.Fail? || q.run !in s.ledger.runs then Done(None)
      else if s.ledger.runs[q.run].state == Merged then Done(Some(AlreadyRecorded))
      else if s.ledger.runs[q.run].state != MergeReady then Done(None)
      else FinalizeObserve(s.ledger.runs[q.run].version)
    case FinalizeObserve(v) => if choice.Observe? then FinalizeRecord(v, choice.sha) else Done(None)
    case FinalizeRecord(_, _) =>
      if choice.Fail? then Done(None)
      else (match OutcomeOf(s, q)
            case Threw => Done(None)
            case Executed => Done(Some(MergeRecorded(q.run)))
            case Replayed(other) => Done(Some(MergeRecorded(other))))
    case _ => q.pc
  }

  function ClaimsAfter(s: State, r: ReqId, choice: Choice, ttlMs: nat): Claims<Response>
    requires r in s.requests
  {
    var q, applied := s.requests[r], choice == Go || choice == Fail(true);
    match q.pc
    case DeleteExpired => if applied then WithoutExpired(s.claims, q.key, q.now) else s.claims
    case InsertClaim => if applied then WithClaim(s.claims, r, q.key, q.now + ttlMs) else s.claims
    case Responding(response) => if applied then WithResult(s.claims, r, response) else s.claims
    case Releasing => if applied then Without(s.claims, r) else s.claims
    case _ => s.claims
  }

  function LedgerAfter(s: State, r: ReqId, choice: Choice, ttlMs: nat): Ledger
    requires r in s.requests
  {
    var q, d := s.requests[r], DispatchOf(s.requests[r]);
    if d.Some? && (choice == Go || choice == Fail(true))
    then AfterCommand(s.ledger, r, d.value.key, q.run, d.value.version, d.value.to, s.clock, ttlMs)
    else s.ledger
  }

  ghost function RequestAfter(s: State, r: ReqId, choice: Choice): Request
    requires r in s.requests && Possible(s, s.requests[r], choice)
  {
    var q := s.requests[r];
    q.(pc := PcAfter(s, r, choice),
       merged := q.merged || (q.pc.CallMerge? && choice == Accept),
       stored := if q.pc.Responding? && choice != Fail(false) then Some(q.pc.response) else q.stored,
       insertErred := q.insertErred || (q.pc.InsertClaim? && choice == Fail(true) && !Taken(s.claims, q.key)),
       releaseFailed := q.releaseFailed || (q.pc.Releasing? && choice == Fail(false)))
  }

  ghost function Apply(s: State, step: Step, ttlMs: nat): State
    requires Enabled(s, step)
  {
    match step
    case Tick(ms) => s.(clock := s.clock + ms)
    case NewMerge(r, key, run) =>
      s.(requests := s.requests[r := NewRequest(key, run, s.clock, DeleteExpired)])
    case NewFinalize(r, run) =>
      s.(requests := s.requests[r := NewRequest("", run, s.clock, FinalizeFetch)])
    case OtherCommand(run, to) =>
      var fr := s.ledger.runs[run];
      s.(ledger := s.ledger.(runs := s.ledger.runs[run := FeatureRun(to, fr.version + 1)],
                             events := s.ledger.events + [Event(run, fr.state, to, Elsewhere)]))
    case MergedElsewhere(run) => s.(scm := s.scm + {run})
    case Advance(r, choice) =>
      var q, claims := s.requests[r], ClaimsAfter(s, r, choice, ttlMs);
      State(
        s.clock,
        claims,
        LedgerAfter(s, r, choice, ttlMs),
        if q.pc.CallMerge? && (choice == Accept || choice == Fail(true)) then s.scm + {q.run} else s.scm,
        s.requests[r := RequestAfter(s, r, choice)],
        if q.pc.DeleteExpired? then s.lapsed + (s.claims.Keys - claims.Keys) else s.lapsed,
        if q.pc.CallMerge? then s.calls + [Call(r, q.key, q.run, choice)] else s.calls)
    case Crash(r) => s.(requests := s.requests[r := s.requests[r].(pc := Crashed)])
  }

  ghost predicate Init(s: State) {
    && s.claims == map[] && s.requests == map[] && s.lapsed == {} && s.calls == []
    && s.ledger.cache == map[] && s.ledger.events == []
    && forall run <- s.ledger.runs :: s.ledger.runs[run].state == Merged ==> run in s.scm
  }

  /** The `i`-th step leads from the `i`-th state to the next. */
  ghost predicate IsStep(states: seq<State>, steps: seq<Step>, ttlMs: nat, i: nat)
    requires i < |steps| < |states|
  {
    Enabled(states[i], steps[i]) && states[i + 1] == Apply(states[i], steps[i], ttlMs)
  }

  ghost predicate IsRun(states: seq<State>, steps: seq<Step>, ttlMs: nat) {
    && |states| == |steps| + 1
    && Init(states[0])
    && forall i: nat | i < |steps| :: IsStep(states, steps, ttlMs, i)
  }
}
