/** The feature-execution state machine and the commands that move a feature run through it. */
module FeatureExecution {
  datatype ExecState =
    | ApprovedPendingExecution | Selected | Coding | CodePushed | PrOpened | CiRunning | UnderReview
    | ChangesRequested | Fixing | ApprovedByPolicy | MergeReady | Merged | CiFailed | MergeFailed
    | HumanRequired | Blocked | Failed | SystemFailed | Skipped

  /** The pairs of `FEATURE_EXECUTION_MATRIX`. */
  predicate IsTransition(from: ExecState, to: ExecState) {
    match to
    case Selected => from == ApprovedPendingExecution || from == HumanRequired
    case Coding => from == Selected
    case CodePushed => from == Coding || from == Fixing
    case PrOpened => from == CodePushed
    case CiRunning => from == PrOpened
    case UnderReview => from == CiRunning || from == MergeFailed || from == HumanRequired
    case ChangesRequested => from == CiFailed || from == UnderReview || from == HumanRequired
    case Fixing => from == ChangesRequested
    case ApprovedByPolicy => from == UnderReview
    case MergeReady => from == ApprovedByPolicy
    case Merged => from == MergeReady
    case CiFailed => from == CiRunning
    case MergeFailed => from == MergeReady
    case HumanRequired => from != Merged && from != HumanRequired && from != Blocked && from != Skipped
    case Blocked => from == HumanRequired || from == ApprovedPendingExecution
    case ApprovedPendingExecution => from == Blocked
    case Skipped => from == HumanRequired
    case Failed => false
    case SystemFailed => false
  }

  type RunId = string

  datatype FeatureRun = FeatureRun(state: ExecState, version: nat)

  datatype Command = MergeIfReadyCommand | RecordMerged | RecordMergeFailed | ReconcileMergeFailed | EscalateToHuman

  /** The idempotency key of a command: derived from the client's header, or from the merge observed. */
  datatype CommandKey = RouteKey(header: string, command: Command) | FinalizeKey(run: RunId, sha: string)

  /** Who wrote an event: a command dispatched by one request, or anybody else. No column holds it. */
  datatype Cause = Dispatched(req: nat, key: CommandKey) | Elsewhere

  /** A row of `workflow_events`. */
  datatype Event = Event(run: RunId, from: ExecState, to: ExecState, cause: Cause)

  /** A fulfilled idempotency row: the run whose transition its stored result reports. */
  datatype Cached = Cached(run: RunId, expiresAt: int)

  datatype Ledger = Ledger(runs: map<RunId, FeatureRun>, cache: map<CommandKey, Cached>, events: seq<Event>)

  datatype Outcome = Executed | Replayed(run: RunId) | Threw

  function Target(command: Command): ExecState {
    match command
    case MergeIfReadyCommand => MergeReady
    case RecordMerged => Merged
    case RecordMergeFailed => MergeFailed
    case ReconcileMergeFailed => UnderReview
    case EscalateToHuman => HumanRequired
  }

  predicate IsCached(l: Ledger, key: CommandKey, now: int) {
    key in l.cache && l.cache[key].expiresAt > now
  }

  predicate Accepts(l: Ledger, run: RunId, version: nat, to: ExecState) {
    run in l.runs && l.runs[run].version == version && IsTransition(l.runs[run].state, to)
  }

  /** `executor.execute(handler, envelope)`: replay a live stored result, or compare-and-swap the run,
    * write its workflow event and store the result, in one transaction. */
  function Outcomes(l: Ledger, key: CommandKey, run: RunId, version: nat, to: ExecState, now: int): Outcome {
    if IsCached(l, key, now) then Replayed(l.cache[key].run)
    else if Accepts(l, run, version, to) then Executed
    else Threw
  }

  function AfterCommand(l: Ledger, req: nat, key: CommandKey, run: RunId, version: nat, to: ExecState, now: int, ttlMs: int): Ledger {
    if !IsCached(l, key, now) && Accepts(l, run, version, to)
    then Ledger(
      l.runs[run := FeatureRun(to, version + 1)],
      l.cache[key := Cached(run, now + ttlMs)],
      l.events + [Event(run, l.runs[run].state, to, Dispatched(req, key))])
    else l
  }
}
