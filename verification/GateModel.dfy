/** Data and specification of the capacity gate lifecycle replay.

    Digest keys are ideal: a decision key or wake key is the tuple of fields it
    digests, so two keys are equal exactly when those fields are.  A resource key
    digests the provider, quota, scope and window identifiers and is only compared
    and sorted, so it is a natural number here.  Instants are integers (seconds). */
module GateModel {
  import opened Options

  type Time = int
  type ResourceKey = nat

  // ---------------------------------------------------------------- records

  datatype Action = Defer | Allow | CoveredByGlobal | EvidenceOnly

  datatype DecisionKey = DecisionKey(
    policyRevision: string, mappingRevision: string, resource: ResourceKey,
    observedAt: Time, resetAt: Time, action: Action)

  datatype WakeKey = WakeKey(resource: ResourceKey, resetAt: Time)

  datatype CoverageStatus = NotEvaluated | NotCovered | Covered
  datatype Coverage = Coverage(status: CoverageStatus, globalResetAt: Option<Time>)

  datatype Decision = Decision(
    policyRevision: string, mappingRevision: string, resource: ResourceKey,
    observedAt: Time, resetAt: Time, action: Action,
    coverage: Coverage, supersedes: Option<DecisionKey>)
  {
    function Key(): DecisionKey {
      DecisionKey(policyRevision, mappingRevision, resource, observedAt, resetAt, action)
    }

    function Wake(): WakeKey {
      WakeKey(resource, resetAt)
    }
  }

  /** What the decision schema guarantees of every decision the replay sees. */
  predicate ValidDecision(d: Decision) {
    && d.observedAt < d.resetAt
    && (if d.coverage.status == Covered
        then d.action == CoveredByGlobal && d.coverage.globalResetAt.Some?
             && d.resetAt <= d.coverage.globalResetAt.value
        else d.action != CoveredByGlobal)
    && d.supersedes != Some(d.Key())
  }

  datatype Gate = Gate(resource: ResourceKey, decisionKey: DecisionKey, wakeKey: WakeKey, resetAt: Time)

  function Project(d: Decision): Gate {
    Gate(d.resource, d.Key(), d.Wake(), d.resetAt)
  }

  datatype Unit = Percent | Tokens | Credits | Requests
  datatype EvidenceKind = Threshold | Recovery | ConfirmedExhaustion
  datatype Freshness = Current | Stale | UnknownFreshness | MissingFreshness
  datatype MappingStatus = Exact | Ambiguous | MissingMapping

  datatype Evidence = Evidence(
    kind: EvidenceKind, freshness: Freshness, mappingStatus: MappingStatus,
    currentnessRevision: string,
    remaining: real, remainingUnit: Unit, threshold: real, thresholdUnit: Unit)

  datatype EventKind = DecisionEvent | WakeRevalidation(revalidates: DecisionKey)

  datatype Event = Event(
    id: string, kind: EventKind, predecessor: Option<string>, observedAt: Time,
    observationId: string, decision: Decision, evidence: Evidence)

  datatype GlobalStatus = Allowed | Gated(resetAt: Time) | UnknownStatus
  datatype Observation = Observation(id: string, status: GlobalStatus, observedAt: Time)

  datatype Baseline = Baseline(gates: seq<Gate>, history: seq<Decision>)

  /** `authority` is the verdict of the mapping, policy, currentness and selector
      checks, which read only the request and never the replayed state. */
  datatype Request = Request(
    resource: ResourceKey, unit: Unit, baseline: Baseline,
    policyRevision: string, mappingRevision: string, currentnessRevision: string,
    authority: Option<string>,
    observations: seq<Observation>,
    evaluatedAt: Time, grace: nat, typedEvaluation: bool,
    events: seq<Event>)

  // ---------------------------------------------------------- replayed state

  datatype WakeEntry = WakeEntry(resource: ResourceKey, decisionKey: DecisionKey, wakeKey: WakeKey, resetAt: Time)
  datatype Replacement = Replacement(
    resource: ResourceKey, previousDecisionKey: DecisionKey, previousWakeKey: WakeKey,
    decisionKey: DecisionKey, wakeKey: WakeKey)
  datatype Removal = Removal(resource: ResourceKey, decisionKey: DecisionKey, wakeKey: WakeKey)

  datatype Disposition = Unchanged | Deferred | Released | HardExcluded

  datatype State = State(
    gates: seq<Gate>, history: seq<Decision>,
    register: seq<WakeEntry>, replace: seq<Replacement>, remove: seq<Removal>,
    disposition: Disposition)

  function Initial(b: Baseline): State {
    State(b.gates, b.history, [], [], [], Unchanged)
  }

  datatype Preview =
    | NoChange | WouldDefer | CoveredGlobally | WouldSupersede
    | WouldRevalidate | WouldRelease | WouldExclude | FailClosed

  datatype Reason =
    | NoLifecycleChange | RollbackStopsTypedEvaluation
    // sequence
    | SequenceOutOfOrder | PredecessorBroken | ObservationMissing | EventAfterReplayClock
    // global gate
    | ObservationNotLatest | GlobalGateUnknown | TerminalNoncoveringReset
    | CoveringContractMismatch | CoveredWithoutGlobalGate | CoveringReset
    // authority and event binding
    | Authority(code: string) | BaselineGateRevisionMismatch
    | ResourceScopeMismatch | DecisionRevisionMismatch | TimestampMismatch
    | CurrentnessRevisionMismatch | UnitMismatch
    | EventFreshness(freshness: Freshness) | EventMapping(mapping: MappingStatus)
    | LowEvidenceAboveThreshold | LowEvidenceRequiresDefer | RecoveryNotAboveThreshold
    // lifecycle
    | ConflictingDuplicate | IdempotentDuplicate
    | ExclusionResetNotLater | ExclusionPredecessorMismatch | ExclusionPredecessorWithoutGate
    | SyntheticExhaustion | AboveThreshold | UnsupportedAction
    | NewGatePredecessorWithoutGate | ThresholdWouldDefer
    | WakeGateMismatch | WakeBeforeGrace | RecoveryRequiresAllow | PostGraceRecovery | WakeKindInvalid
    | SupersedingResetNotLater | SupersedingPredecessorMismatch | SupersedingRequiresDefer | LaterResetSupersedes

  datatype EventResult = EventResult(index: nat, id: string, decisionKey: DecisionKey, preview: Preview, reason: Reason)

  // ------------------------------------------------------------ gate table

  function ActiveGate(gates: seq<Gate>, r: ResourceKey): Option<Gate> {
    if gates == [] then None
    else if gates[0].resource == r then Some(gates[0])
    else ActiveGate(gates[1..], r)
  }

  function InsertGate(g: Gate, sorted: seq<Gate>): seq<Gate> {
    if sorted == [] then [g]
    else if g.resource <= sorted[0].resource then [g] + sorted
    else [sorted[0]] + InsertGate(g, sorted[1..])
  }

  /** The stable sort by resource key applied after every change of the table. */
  function SortGates(gates: seq<Gate>): seq<Gate> {
    if gates == [] then [] else InsertGate(gates[0], SortGates(gates[1..]))
  }

  function ReplaceOrAppend(gates: seq<Gate>, g: Gate): seq<Gate> {
    if gates == [] then [g]
    else if gates[0].resource == g.resource then [g] + gates[1..]
    else [gates[0]] + ReplaceOrAppend(gates[1..], g)
  }

  function WithActive(gates: seq<Gate>, d: Decision): seq<Gate> {
    SortGates(ReplaceOrAppend(gates, Project(d)))
  }

  function WithoutGate(gates: seq<Gate>, g: Gate): seq<Gate> {
    if gates == [] then []
    else if gates[0] == g then gates[1..]
    else [gates[0]] + WithoutGate(gates[1..], g)
  }

  // ------------------------------------------------------- history lookups

  function FindDecision(history: seq<Decision>, key: DecisionKey): Option<Decision> {
    if history == [] then None
    else if history[0].Key() == key then Some(history[0])
    else FindDecision(history[1..], key)
  }

  function FindObservation(observations: seq<Observation>, id: string): Option<Observation> {
    if observations == [] then None
    else if observations[0].id == id then Some(observations[0])
    else FindObservation(observations[1..], id)
  }

  /** The last observation at or before `t`. */
  function LatestObservation(observations: seq<Observation>, t: Time): Option<Observation> {
    if observations == [] then None
    else if observations[|observations| - 1].observedAt <= t then Some(observations[|observations| - 1])
    else LatestObservation(observations[..|observations| - 1], t)
  }

  // -------------------------------------------------------- event admission

  function BindingFailure(req: Request, ev: Event): Option<Reason> {
    var d := ev.decision;
    if d.resource != req.resource then Some(ResourceScopeMismatch)
    else if d.policyRevision != req.policyRevision || d.mappingRevision != req.mappingRevision
      then Some(DecisionRevisionMismatch)
    else if d.observedAt != ev.observedAt then Some(TimestampMismatch)
    else if ev.evidence.currentnessRevision != req.currentnessRevision then Some(CurrentnessRevisionMismatch)
    else if ev.evidence.remainingUnit != req.unit || ev.evidence.thresholdUnit != req.unit then Some(UnitMismatch)
    else None
  }

  function EvidenceFailure(ev: Event): Option<Reason> {
    var e := ev.evidence;
    if e.freshness != Current then Some(EventFreshness(e.freshness))
    else if e.mappingStatus != Exact then Some(EventMapping(e.mappingStatus))
    else if e.kind != Recovery then
      if e.remaining > e.threshold then Some(LowEvidenceAboveThreshold)
      else if ev.decision.action != Defer
           && !(e.kind == Threshold && ev.decision.action == CoveredByGlobal)
        then Some(LowEvidenceRequiresDefer)
      else None
    else if e.remaining <= e.threshold then Some(RecoveryNotAboveThreshold)
    else None
  }

  /** The request-wide checks, ending with the revisions of the baseline gate. */
  function AuthorityFailure(req: Request): Option<Reason> {
    if req.authority.Some? then Some(Authority(req.authority.value))
    else match ActiveGate(req.baseline.gates, req.resource)
      case None => None
      case Some(g) =>
        match FindDecision(req.baseline.history, g.decisionKey)
        case None => None
        case Some(d) =>
          if d.mappingRevision != req.mappingRevision || d.policyRevision != req.policyRevision
          then Some(BaselineGateRevisionMismatch) else None
  }

  // ---------------------------------------------------------- what an event does

  /** The effect of one event: nothing, or one committed change. */
  datatype Verdict =
    | Rejected(reason: Reason)
    | Idle(preview: Preview, reason: Reason)
    | RecordAllow
    | Open
    | Exclude(replaced: Option<Gate>)
    | Supersede(previous: Gate)
    | Release(previous: Gate)

  function JudgeSupersede(ev: Event, active: Gate): Verdict {
    if ev.decision.resetAt <= active.resetAt then Rejected(SupersedingResetNotLater)
    else if ev.decision.supersedes != Some(active.decisionKey) then Rejected(SupersedingPredecessorMismatch)
    else if ev.decision.action != Defer then Rejected(SupersedingRequiresDefer)
    else Supersede(active)
  }

  function JudgeWake(req: Request, ev: Event, key: DecisionKey, active: Option<Gate>): Verdict {
    if active.None? || key != active.value.decisionKey then Rejected(WakeGateMismatch)
    else if ev.observedAt < active.value.resetAt + req.grace then Idle(WouldRevalidate, WakeBeforeGrace)
    else match ev.evidence.kind
      case Recovery =>
        if ev.decision.action != Allow then Rejected(RecoveryRequiresAllow) else Release(active.value)
      case Threshold => JudgeSupersede(ev, active.value)
      case ConfirmedExhaustion => Rejected(WakeKindInvalid)
  }

  function JudgeExhaustion(ev: Event, active: Option<Gate>): Verdict {
    match active
    case Some(g) =>
      if ev.decision.resetAt <= g.resetAt then Rejected(ExclusionResetNotLater)
      else if ev.decision.supersedes != Some(g.decisionKey) then Rejected(ExclusionPredecessorMismatch)
      else Exclude(active)
    case None =>
      if ev.decision.supersedes.Some? then Rejected(ExclusionPredecessorWithoutGate) else Exclude(None)
  }

  function JudgeDecision(ev: Event, active: Option<Gate>, history: seq<Decision>): Verdict {
    var existing := FindDecision(history, ev.decision.Key());
    if existing.Some? then
      if existing.value != ev.decision then Rejected(ConflictingDuplicate)
      else Idle(NoChange, IdempotentDuplicate)
    else if ev.evidence.kind == ConfirmedExhaustion then JudgeExhaustion(ev, active)
    else if ev.decision.action == Allow then RecordAllow
    else if ev.decision.action != Defer then Rejected(UnsupportedAction)
    else match active
      case None =>
        if ev.decision.supersedes.Some? then Rejected(NewGatePredecessorWithoutGate) else Open
      case Some(g) => JudgeSupersede(ev, g)
  }

  function JudgeTarget(req: Request, ev: Event, st: State): Verdict {
    if ev.decision.action == CoveredByGlobal then Rejected(CoveredWithoutGlobalGate)
    else if AuthorityFailure(req).Some? then Rejected(AuthorityFailure(req).value)
    else if BindingFailure(req, ev).Some? then Rejected(BindingFailure(req, ev).value)
    else if EvidenceFailure(ev).Some? then Rejected(EvidenceFailure(ev).value)
    else
      var active := ActiveGate(st.gates, ev.decision.resource);
      match ev.kind
      case WakeRevalidation(key) => JudgeWake(req, ev, key, active)
      case DecisionEvent => JudgeDecision(ev, active, st.history)
  }

  function JudgeGated(req: Request, ev: Event, globalReset: Time): Verdict {
    if globalReset < ev.decision.resetAt then Rejected(TerminalNoncoveringReset)
    else if BindingFailure(req, ev).Some? then Rejected(BindingFailure(req, ev).value)
    else if ev.decision.action == CoveredByGlobal && ev.decision.coverage == Coverage(Covered, Some(globalReset))
      then Idle(CoveredGlobally, CoveringReset)
    else Rejected(CoveringContractMismatch)
  }

  function Judge(req: Request, ev: Event, st: State): Verdict {
    var latest := LatestObservation(req.observations, ev.observedAt);
    if latest.None? then Rejected(ObservationMissing)
    else if FindObservation(req.observations, ev.observationId) != latest then Rejected(ObservationNotLatest)
    else match latest.value.status
      case UnknownStatus => Rejected(GlobalGateUnknown)
      case Gated(reset) => JudgeGated(req, ev, reset)
      case Allowed => JudgeTarget(req, ev, st)
  }

  function EntryOf(d: Decision): WakeEntry {
    WakeEntry(d.resource, d.Key(), d.Wake(), d.resetAt)
  }

  function ReplacementOf(g: Gate, d: Decision): Replacement {
    Replacement(d.resource, g.decisionKey, g.wakeKey, d.Key(), d.Wake())
  }

  function RemovalOf(g: Gate): Removal {
    Removal(g.resource, g.decisionKey, g.wakeKey)
  }

  function Commit(st: State, d: Decision, v: Verdict): State {
    match v
    case Rejected(_) => st
    case Idle(_, _) => st
    case RecordAllow => st.(history := st.history + [d])
    case Open =>
      st.(gates := WithActive(st.gates, d), history := st.history + [d],
          register := st.register + [EntryOf(d)], disposition := Deferred)
    case Exclude(previous) =>
      st.(gates := WithActive(st.gates, d), history := st.history + [d],
          replace := if previous.Some? then st.replace + [ReplacementOf(previous.value, d)] else st.replace,
          disposition := HardExcluded)
    case Supersede(g) =>
      st.(gates := WithActive(st.gates, d), history := st.history + [d],
          replace := st.replace + [ReplacementOf(g, d)], disposition := Deferred)
    case Release(g) =>
      st.(gates := WithoutGate(st.gates, g), history := st.history + [d],
          remove := st.remove + [RemovalOf(g)], disposition := Released)
  }

  function PreviewOf(v: Verdict): Preview {
    match v
    case Rejected(_) => FailClosed
    case Idle(p, _) => p
    case RecordAllow => NoChange
    case Open => WouldDefer
    case Exclude(_) => WouldExclude
    case Supersede(_) => WouldSupersede
    case Release(_) => WouldRelease
  }

  function ReasonOf(v: Verdict): Reason {
    match v
    case Rejected(r) => r
    case Idle(_, r) => r
    case RecordAllow => AboveThreshold
    case Open => ThresholdWouldDefer
    case Exclude(_) => SyntheticExhaustion
    case Supersede(_) => LaterResetSupersedes
    case Release(_) => PostGraceRecovery
  }

  function ResultOf(ev: Event, index: nat, v: Verdict): EventResult {
    EventResult(index, ev.id, ev.decision.Key(), PreviewOf(v), ReasonOf(v))
  }

  // ------------------------------------------------------------------ runs

  /** How far a run has come: its state, and whether it failed. */
  datatype Progress = Progress(state: State, failed: bool)

  function ProgressAt(req: Request, k: nat): Progress
    requires k <= |req.events|
    decreases k, 0
  {
    if k == 0 then Progress(Initial(req.baseline), false)
    else
      var p := ProgressAt(req, k - 1);
      var v := VerdictAt(req, k - 1);
      if p.failed then p
      else if v.Rejected? then Progress(Initial(req.baseline), true)
      else Progress(Commit(p.state, req.events[k - 1].decision, v), false)
  }

  /** The verdict on event `k` in the state the run reached before it. */
  function VerdictAt(req: Request, k: nat): Verdict
    requires k < |req.events|
    decreases k, 1
  {
    Judge(req, req.events[k], ProgressAt(req, k).state)
  }

  function ResultAt(req: Request, k: nat): EventResult
    requires k < |req.events|
  {
    ResultOf(req.events[k], k, VerdictAt(req, k))
  }

  /** The results of the first `k` events, up to the first that failed. */
  function ResultsAt(req: Request, k: nat): seq<EventResult>
    requires k <= |req.events|
  {
    if k == 0 then []
    else if ProgressAt(req, k - 1).failed then ResultsAt(req, k - 1)
    else ResultsAt(req, k - 1) + [ResultAt(req, k - 1)]
  }

  /** The first fault in the event order, if any. */
  function SequenceFailure(req: Request, k: nat): Option<Reason>
    requires k <= |req.events|
    decreases |req.events| - k
  {
    if k == |req.events| then None
    else
      var ev := req.events[k];
      if k > 0 && ev.observedAt < req.events[k - 1].observedAt then Some(SequenceOutOfOrder)
      else if ev.predecessor != (if k == 0 then None else Some(req.events[k - 1].id)) then Some(PredecessorBroken)
      else if FindObservation(req.observations, ev.observationId).None? then Some(ObservationMissing)
      else if req.evaluatedAt < ev.observedAt then Some(EventAfterReplayClock)
      else SequenceFailure(req, k + 1)
  }

  datatype Report = Report(preview: Preview, reason: Reason, state: State, results: seq<EventResult>)

  function ReportOf(req: Request): Report {
    if !req.typedEvaluation then Report(NoChange, RollbackStopsTypedEvaluation, Initial(req.baseline), [])
    else if SequenceFailure(req, 0).Some? then
      Report(FailClosed, SequenceFailure(req, 0).value, Initial(req.baseline), [])
    else
      var state := ProgressAt(req, |req.events|).state;
      var results := ResultsAt(req, |req.events|);
      if results == [] then Report(NoChange, NoLifecycleChange, state, [])
      else
        var last := results[|results| - 1];
        Report(last.preview, last.reason, state, results)
  }
}
