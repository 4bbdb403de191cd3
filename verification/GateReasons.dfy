/** What every reason a replay reports says about the request and the event. */
module GateReasons {
  import opened Options
  import opened GateModel
  import opened GateTable
  import opened GateLineage
  import opened GateEvidence
  import opened GateLedger
  import opened GateAdmission

  /** The reasons found before the target itself is judged. */
  ghost predicate GlobalReason(req: Request, ev: Event, reason: Reason) {
    || (reason == ObservationMissing && forall o | o in req.observations :: ev.observedAt < o.observedAt)
    || (reason == ObservationNotLatest && exists o :: Newest(req, ev, o) && o.id != ev.observationId)
    || (reason == GlobalGateUnknown && Under(req, ev, UnknownStatus))
    || (reason == TerminalNoncoveringReset
        && exists reset :: Under(req, ev, Gated(reset)) && reset < ev.decision.resetAt)
    || (reason == CoveringContractMismatch && BoundTo(req, ev)
        && exists reset :: Under(req, ev, Gated(reset)) && ev.decision.resetAt <= reset && !CoveredBy(req, ev, reset))
    || (reason == CoveringReset && exists reset :: CoveredBy(req, ev, reset))
    || (reason == CoveredWithoutGlobalGate && Under(req, ev, Allowed) && ev.decision.action == CoveredByGlobal)
  }

  /** Binding is examined under an open global gate with authority, or under a covering one. */
  ghost predicate BindingExamined(req: Request, ev: Event) {
    || (Under(req, ev, Allowed) && ev.decision.action != CoveredByGlobal && Authorized(req))
    || (exists reset :: Under(req, ev, Gated(reset)) && ev.decision.resetAt <= reset)
  }

  /** The first binding that fails. */
  predicate BindingReason(req: Request, ev: Event, reason: Reason) {
    var d, e := ev.decision, ev.evidence;
    var sameScope := d.resource == req.resource;
    var sameRevisions :=
      sameScope && d.policyRevision == req.policyRevision && d.mappingRevision == req.mappingRevision;
    var sameTime := sameRevisions && d.observedAt == ev.observedAt;
    var sameSource := sameTime && e.currentnessRevision == req.currentnessRevision;
    || (reason == ResourceScopeMismatch && !sameScope)
    || (reason == DecisionRevisionMismatch && sameScope && !sameRevisions)
    || (reason == TimestampMismatch && sameRevisions && !sameTime)
    || (reason == CurrentnessRevisionMismatch && sameTime && !sameSource)
    || (reason == UnitMismatch && sameSource && (e.remainingUnit != req.unit || e.thresholdUnit != req.unit))
  }

  /** The first evidence check that fails. */
  predicate EvidenceReason(ev: Event, reason: Reason) {
    var e, action := ev.evidence, ev.decision.action;
    var usable := e.freshness == Current && e.mappingStatus == Exact;
    || (reason == EventFreshness(e.freshness) && e.freshness != Current)
    || (reason == EventMapping(e.mappingStatus) && e.freshness == Current && e.mappingStatus != Exact)
    || (reason == LowEvidenceAboveThreshold && usable && e.kind != Recovery && e.threshold < e.remaining)
    || (reason == LowEvidenceRequiresDefer && usable && e.kind != Recovery && e.remaining <= e.threshold
        && action != Defer && (action == CoveredByGlobal ==> e.kind == ConfirmedExhaustion))
    || (reason == RecoveryNotAboveThreshold && usable && e.kind == Recovery && e.remaining <= e.threshold)
  }

  /** The reasons of a cleared wake event. */
  predicate WakeReason(req: Request, ev: Event, active: Option<Gate>, reason: Reason) {
    var kind, allows := ev.evidence.kind, ev.decision.action == Allow;
    var due := WakesGate(ev, active) && !BeforeGrace(req, ev, active);
    || (reason == WakeGateMismatch && !WakesGate(ev, active))
    || (reason == WakeBeforeGrace && WakesGate(ev, active) && !due)
    || (reason == RecoveryRequiresAllow && due && kind == Recovery && !allows)
    || (reason == PostGraceRecovery && due && kind == Recovery && allows)
    || (reason == WakeKindInvalid && due && kind == ConfirmedExhaustion)
    || (due && kind == Threshold && MoveReason(ev.decision, active.value, reason))
  }

  predicate MoveReason(d: Decision, active: Gate, reason: Reason) {
    var later, named := active.resetAt < d.resetAt, d.supersedes == Some(active.decisionKey);
    || (reason == SupersedingResetNotLater && !later)
    || (reason == SupersedingPredecessorMismatch && later && !named)
    || (reason == SupersedingRequiresDefer && later && named && d.action != Defer)
    || (reason == LaterResetSupersedes && later && named && d.action == Defer)
  }

  predicate ExclusionReason(d: Decision, active: Option<Gate>, reason: Reason) {
    || (reason == ExclusionResetNotLater && active.Some? && d.resetAt <= active.value.resetAt)
    || (reason == ExclusionPredecessorMismatch && active.Some? && active.value.resetAt < d.resetAt
        && d.supersedes != Some(active.value.decisionKey))
    || (reason == ExclusionPredecessorWithoutGate && active.None? && d.supersedes.Some?)
    || (reason == SyntheticExhaustion && Follows(d, active))
  }

  /** The reasons of a cleared decision event. */
  predicate DecisionReason(ev: Event, active: Option<Gate>, h: seq<Decision>, reason: Reason) {
    var d, exhausted := ev.decision, ev.evidence.kind == ConfirmedExhaustion;
    var unseen := !KeyRecorded(h, d);
    || (reason == ConflictingDuplicate && !unseen && !RecordedAsIs(h, d))
    || (reason == IdempotentDuplicate && RecordedAsIs(h, d))
    || (unseen && exhausted && ExclusionReason(d, active, reason))
    || (reason == AboveThreshold && unseen && !exhausted && d.action == Allow)
    || (reason == UnsupportedAction && unseen && !exhausted && d.action == EvidenceOnly)
    || (reason == NewGatePredecessorWithoutGate
        && unseen && !exhausted && d.action == Defer && active.None? && d.supersedes.Some?)
    || (reason == ThresholdWouldDefer
        && unseen && !exhausted && d.action == Defer && active.None? && d.supersedes.None?)
    || (unseen && !exhausted && d.action == Defer && active.Some? && MoveReason(d, active.value, reason))
  }

  ghost predicate AuthorityReason(req: Request, ev: Event, reason: Reason) {
    && Under(req, ev, Allowed) && ev.decision.action != CoveredByGlobal
    && (|| (req.authority.Some? && reason == Authority(req.authority.value))
        || (reason == BaselineGateRevisionMismatch && req.authority.None? && !Authorized(req)))
  }

  /** What a reason says of an event in a state. */
  ghost predicate Tells(req: Request, ev: Event, st: State, reason: Reason) {
    var active := ActiveGate(st.gates, req.resource);
    || GlobalReason(req, ev, reason)
    || AuthorityReason(req, ev, reason)
    || (BindingExamined(req, ev) && BindingReason(req, ev, reason))
    || (Under(req, ev, Allowed) && ev.decision.action != CoveredByGlobal && Authorized(req) && BoundTo(req, ev)
        && EvidenceReason(ev, reason))
    || (Cleared(req, ev)
        && if ev.kind.DecisionEvent? then DecisionReason(ev, active, st.history, reason)
           else WakeReason(req, ev, active, reason))
  }

  lemma BindingTells(req: Request, ev: Event)
    ensures BindingFailure(req, ev).Some? ==> BindingReason(req, ev, BindingFailure(req, ev).value)
    ensures EvidenceFailure(ev).Some? ==> EvidenceReason(ev, EvidenceFailure(ev).value)
  {
  }

  lemma AuthorityTells(req: Request, ev: Event)
    requires ValidRequest(req) && Under(req, ev, Allowed) && ev.decision.action != CoveredByGlobal
    ensures AuthorityFailure(req).Some? ==> AuthorityReason(req, ev, AuthorityFailure(req).value)
  {
    AuthorizedExact(req);
  }

  lemma WakeTells(req: Request, ev: Event, st: State)
    requires ev.kind.WakeRevalidation?
    ensures var active := ActiveGate(st.gates, req.resource);
            WakeReason(req, ev, active, ReasonOf(JudgeWake(req, ev, ev.kind.revalidates, active)))
  {
  }

  lemma DecisionTells(req: Request, ev: Event, st: State)
    requires EvidenceHolds(ev) && ev.decision.action != CoveredByGlobal
    ensures var active := ActiveGate(st.gates, req.resource);
            DecisionReason(ev, active, st.history, ReasonOf(JudgeDecision(ev, active, st.history)))
  {
    RecordedExact(st.history, ev.decision);
  }

  lemma TargetTells(req: Request, ev: Event, st: State)
    requires ValidRequest(req) && ValidObservations(req) && Under(req, ev, Allowed)
    ensures Tells(req, ev, st, ReasonOf(JudgeTarget(req, ev, st)))
  {
    BindingTells(req, ev);
    BoundExact(req, ev);
    AuthorizedExact(req);
    if ev.decision.action != CoveredByGlobal {
      AuthorityTells(req, ev);
      if Cleared(req, ev) {
        if ev.kind.DecisionEvent? { DecisionTells(req, ev, st); } else { WakeTells(req, ev, st); }
      }
    }
  }

  lemma GatedTells(req: Request, ev: Event, st: State, reset: Time)
    requires ValidObservations(req) && Under(req, ev, Gated(reset))
    ensures Tells(req, ev, st, ReasonOf(JudgeGated(req, ev, reset)))
  {
    BindingTells(req, ev);
    BoundExact(req, ev);
    if ev.decision.resetAt <= reset {
      assert BindingExamined(req, ev);
      assert CoveredBy(req, ev, reset) || BindingFailure(req, ev).Some?
             || GlobalReason(req, ev, CoveringContractMismatch);
    }
  }

  /** The reason reported for any event, accepted or not, says what it says. */
  lemma ReasonTells(req: Request, ev: Event, st: State)
    requires ValidRequest(req) && ValidObservations(req)
    ensures Tells(req, ev, st, ReasonOf(Judge(req, ev, st)))
  {
    NamedIsNewest(req, ev);
    var latest := LatestObservation(req.observations, ev.observedAt);
    if latest.Some? && FindObservation(req.observations, ev.observationId) == latest {
      UnderExact(req, ev, latest.value.status);
      match latest.value.status
      case Allowed => TargetTells(req, ev, st);
      case Gated(reset) => GatedTells(req, ev, st, reset);
      case UnknownStatus =>
    } else if latest.None? {
      forall o | o in req.observations ensures ev.observedAt < o.observedAt {
        if o.observedAt <= ev.observedAt { NewestExists(req, ev, o); }
      }
    }
  }

  lemma NewestExists(req: Request, ev: Event, o: Observation)
    requires ValidObservations(req) && o in req.observations && o.observedAt <= ev.observedAt
    ensures LatestObservation(req.observations, ev.observedAt).Some?
  {
    LatestObservationExact(req.observations, ev.observedAt);
  }

  // ------------------------------------------------------------- sequence

  /** What a sequence failure says of the first event out of sequence. */
  ghost predicate SequenceReason(req: Request, i: nat, reason: Reason)
    requires i < |req.events|
  {
    var ev := req.events[i];
    var predecessor := if i == 0 then None else Some(req.events[i - 1].id);
    var inOrder := i == 0 || req.events[i - 1].observedAt <= ev.observedAt;
    var linked := inOrder && ev.predecessor == predecessor;
    var known := linked && exists o :: o in req.observations && o.id == ev.observationId;
    || (reason == SequenceOutOfOrder && !inOrder)
    || (reason == PredecessorBroken && inOrder && !linked)
    || (reason == ObservationMissing && linked && !known)
    || (reason == EventAfterReplayClock && known && req.evaluatedAt < ev.observedAt)
  }

  /** An event takes its place in the sequence. */
  ghost predicate Placed(req: Request, i: nat)
    requires i < |req.events|
  {
    var ev := req.events[i];
    && (i > 0 ==> req.events[i - 1].observedAt <= ev.observedAt)
    && ev.predecessor == (if i == 0 then None else Some(req.events[i - 1].id))
    && (exists o :: o in req.observations && o.id == ev.observationId)
    && ev.observedAt <= req.evaluatedAt
  }

  /** The check passes exactly when every event is placed, and otherwise names the reason
      of the first that is not. */
  lemma {:induction false} SequenceTells(req: Request, k: nat)
    requires k <= |req.events|
    ensures SequenceFailure(req, k).None? <==> forall i | k <= i < |req.events| :: Placed(req, i)
    ensures SequenceFailure(req, k).Some? ==>
              exists i :: k <= i < |req.events| && SequenceReason(req, i, SequenceFailure(req, k).value)
                          && forall j | k <= j < i :: Placed(req, j)
    decreases |req.events| - k
  {
    if k < |req.events| {
      FoundById(req.observations, req.events[k].observationId);
      SequenceTells(req, k + 1);
      if SequenceFailure(req, k).Some? && Placed(req, k) {
        var i :| k + 1 <= i < |req.events| && SequenceReason(req, i, SequenceFailure(req, k + 1).value)
                 && forall j | k + 1 <= j < i :: Placed(req, j);
        assert SequenceReason(req, i, SequenceFailure(req, k).value);
        assert forall j | k <= j < i :: j == k || Placed(req, j);
      } else if SequenceFailure(req, k).Some? {
        assert SequenceReason(req, k, SequenceFailure(req, k).value);
      }
    }
  }

  // --------------------------------------------------------------- report

  /** What a report says: nothing is judged without typed evaluation or out of sequence;
      otherwise the preview and reason are those of the last event judged, and every event
      is judged unless one failed. */
  lemma ReportTells(req: Request)
    ensures var report := ReportOf(req);
            if !req.typedEvaluation then
              && report.preview == NoChange && report.reason == RollbackStopsTypedEvaluation
              && report.state == Initial(req.baseline) && report.results == []
            else if exists i :: 0 <= i < |req.events| && !Placed(req, i) then
              && report.preview == FailClosed && report.state == Initial(req.baseline) && report.results == []
              && exists i :: 0 <= i < |req.events| && SequenceReason(req, i, report.reason)
            else if req.events == [] then
              && report.preview == NoChange && report.reason == NoLifecycleChange
              && report.state == Initial(req.baseline) && report.results == []
            else
              var n := |report.results|;
              && 0 < n <= |req.events| && report.results == ResultsAt(req, |req.events|)
              && report.preview == report.results[n - 1].preview && report.reason == report.results[n - 1].reason
              && (report.preview != FailClosed ==> n == |req.events|)
              && report.state == ProgressAt(req, |req.events|).state
  {
    SequenceTells(req, 0);
    if req.events != [] {
      FailureRestoresBaseline(req, |req.events|);
      if !ProgressAt(req, |req.events|).failed { EvidenceIsConserved(req, |req.events|); }
      ResultsAreNumbered(req, |req.events|);
    }
  }
}
