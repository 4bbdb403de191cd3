/** Exactly which events a replay accepts, what each accepted event does to the state, and
    what each reported reason means, in terms of the request and the event themselves. */
module GateAdmission {
  import opened Options
  import opened GateModel
  import opened GateTable
  import opened GateLineage
  import opened GateEvidence
  import opened GateClosure

  predicate DistinctObservationIds(observations: seq<Observation>) {
    forall i, j | 0 <= i < j < |observations| :: observations[i].id != observations[j].id
  }

  /** What validation guarantees of the global observations. */
  predicate ValidObservations(req: Request) {
    Chronological(req.observations) && DistinctObservationIds(req.observations)
  }

  /** `o` is the newest observation not after the event. */
  ghost predicate Newest(req: Request, ev: Event, o: Observation) {
    && o in req.observations && o.observedAt <= ev.observedAt
    && forall other | other in req.observations && other.observedAt <= ev.observedAt ::
         other.observedAt <= o.observedAt
  }

  /** The event names the newest observation, of that status. */
  ghost predicate Under(req: Request, ev: Event, status: GlobalStatus) {
    exists o :: Newest(req, ev, o) && o.id == ev.observationId && o.status == status
  }

  predicate BoundTo(req: Request, ev: Event) {
    && ev.decision.resource == req.resource
    && ev.decision.policyRevision == req.policyRevision && ev.decision.mappingRevision == req.mappingRevision
    && ev.decision.observedAt == ev.observedAt
    && ev.evidence.currentnessRevision == req.currentnessRevision
    && ev.evidence.remainingUnit == req.unit && ev.evidence.thresholdUnit == req.unit
  }

  /** The request's authority stands, and its baseline gate was decided under the same revisions. */
  ghost predicate Authorized(req: Request) {
    && req.authority.None?
    && forall g | g in req.baseline.gates && g.resource == req.resource ::
         g.decisionKey.policyRevision == req.policyRevision && g.decisionKey.mappingRevision == req.mappingRevision
  }

  predicate EvidenceHolds(ev: Event) {
    var e, action := ev.evidence, ev.decision.action;
    && e.freshness == Current && e.mappingStatus == Exact
    && match e.kind
       case Recovery => e.threshold < e.remaining
       case Threshold => e.remaining <= e.threshold && (action == Defer || action == CoveredByGlobal)
       case ConfirmedExhaustion => e.remaining <= e.threshold && action == Defer
  }

  /** The target itself may be judged: the global gate is open and all its checks pass. */
  ghost predicate Cleared(req: Request, ev: Event) {
    && Under(req, ev, Allowed) && ev.decision.action != CoveredByGlobal
    && Authorized(req) && BoundTo(req, ev) && EvidenceHolds(ev)
  }

  /** The event is covered by a global reset no earlier than its own. */
  ghost predicate CoveredBy(req: Request, ev: Event, reset: Time) {
    && Under(req, ev, Gated(reset)) && ev.decision.resetAt <= reset
    && BoundTo(req, ev)
    && ev.decision.action == CoveredByGlobal && ev.decision.coverage == Coverage(Covered, Some(reset))
  }

  /** The decision continues from the active gate: it names it and resets later, or it
      names none where none is active. */
  predicate Follows(d: Decision, active: Option<Gate>) {
    match active
    case None => d.supersedes.None?
    case Some(g) => d.supersedes == Some(g.decisionKey) && g.resetAt < d.resetAt
  }

  predicate KeyRecorded(h: seq<Decision>, d: Decision) {
    exists i | 0 <= i < |h| :: h[i].Key() == d.Key()
  }

  /** The first record of its key is the decision itself. */
  predicate RecordedAsIs(h: seq<Decision>, d: Decision) {
    exists i | 0 <= i < |h| :: h[i] == d && forall j | 0 <= j < i :: h[j].Key() != d.Key()
  }

  predicate WakesGate(ev: Event, active: Option<Gate>) {
    active.Some? && ev.kind == WakeRevalidation(active.value.decisionKey)
  }

  predicate BeforeGrace(req: Request, ev: Event, active: Option<Gate>) {
    active.Some? && ev.observedAt < active.value.resetAt + req.grace
  }

  /** A cleared wake event passes. */
  predicate WakePasses(req: Request, ev: Event, active: Option<Gate>) {
    && WakesGate(ev, active)
    && (|| BeforeGrace(req, ev, active)
        || (ev.evidence.kind == Recovery && ev.decision.action == Allow)
        || (ev.evidence.kind == Threshold && ev.decision.action == Defer && Follows(ev.decision, active)))
  }

  /** A cleared decision event passes. */
  predicate DecisionPasses(ev: Event, active: Option<Gate>, h: seq<Decision>) {
    if KeyRecorded(h, ev.decision) then RecordedAsIs(h, ev.decision)
    else ev.decision.action == Allow || (ev.decision.action == Defer && Follows(ev.decision, active))
  }

  /** The replay goes on after the event. */
  ghost predicate Admissible(req: Request, ev: Event, st: State) {
    var active := ActiveGate(st.gates, req.resource);
    || (exists reset :: CoveredBy(req, ev, reset))
    || (Cleared(req, ev)
        && if ev.kind.DecisionEvent? then DecisionPasses(ev, active, st.history) else WakePasses(req, ev, active))
  }

  // ---------------------------------------------------------------- lookups

  lemma {:induction false} FoundById(observations: seq<Observation>, id: string)
    ensures var found := FindObservation(observations, id);
            if found.Some? then found.value in observations && found.value.id == id
            else forall o | o in observations :: o.id != id
  {
    if observations != [] {
      FoundById(observations[1..], id);
      assert forall o | o in observations :: o == observations[0] || o in observations[1..];
    }
  }

  lemma SameTime(observations: seq<Observation>, a: Observation, b: Observation)
    requires Chronological(observations) && a in observations && b in observations
    requires a.observedAt == b.observedAt
    ensures a == b
  {
    var i :| 0 <= i < |observations| && observations[i] == a;
    var j :| 0 <= j < |observations| && observations[j] == b;
  }

  lemma SameId(observations: seq<Observation>, a: Observation, b: Observation)
    requires DistinctObservationIds(observations) && a in observations && b in observations && a.id == b.id
    ensures a == b
  {
    var i :| 0 <= i < |observations| && observations[i] == a;
    var j :| 0 <= j < |observations| && observations[j] == b;
  }

  lemma NewestIsUnique(req: Request, ev: Event, a: Observation, b: Observation)
    requires ValidObservations(req) && Newest(req, ev, a) && Newest(req, ev, b)
    ensures a == b
  {
    SameTime(req.observations, a, b);
  }

  /** The lookups find the newest observation and the named one, so they agree exactly
      when the event names the newest. */
  lemma NamedIsNewest(req: Request, ev: Event)
    requires ValidObservations(req)
    ensures var latest := LatestObservation(req.observations, ev.observedAt);
            && (latest.None? <==> forall o :: !Newest(req, ev, o))
            && (latest.Some? ==>
                  && Newest(req, ev, latest.value)
                  && (FindObservation(req.observations, ev.observationId) == latest
                      <==> latest.value.id == ev.observationId))
  {
    LatestObservationExact(req.observations, ev.observedAt);
    FoundById(req.observations, ev.observationId);
    var latest := LatestObservation(req.observations, ev.observedAt);
    var found := FindObservation(req.observations, ev.observationId);
    assert latest.Some? ==> Newest(req, ev, latest.value);
    if latest.Some? && found.Some? && latest.value.id == ev.observationId {
      SameId(req.observations, latest.value, found.value);
    }
  }

  lemma UnderExact(req: Request, ev: Event, status: GlobalStatus)
    requires ValidObservations(req)
    ensures var latest := LatestObservation(req.observations, ev.observedAt);
            Under(req, ev, status) <==>
              && latest.Some? && FindObservation(req.observations, ev.observationId) == latest
              && latest.value.status == status
  {
    NamedIsNewest(req, ev);
    var latest := LatestObservation(req.observations, ev.observedAt);
    if o :| Newest(req, ev, o) && o.id == ev.observationId && o.status == status {
      NewestIsUnique(req, ev, o, latest.value);
    }
  }

  lemma {:induction false} FirstOfKey(h: seq<Decision>, key: DecisionKey)
    ensures var found := FindDecision(h, key);
            if found.Some? then
              exists i :: 0 <= i < |h| && h[i] == found.value && found.value.Key() == key
                          && forall j | 0 <= j < i :: h[j].Key() != key
            else forall i | 0 <= i < |h| :: h[i].Key() != key
  {
    if h != [] && h[0].Key() != key {
      FirstOfKey(h[1..], key);
      var found := FindDecision(h[1..], key);
      if found.Some? {
        var i :| 0 <= i < |h[1..]| && h[1..][i] == found.value && forall j | 0 <= j < i :: h[1..][j].Key() != key;
        assert h[i + 1] == found.value;
        forall j | 0 <= j < i + 1 ensures h[j].Key() != key { if j > 0 { assert h[j] == h[1..][j - 1]; } }
      } else {
        forall i | 0 <= i < |h| ensures h[i].Key() != key { if i > 0 { assert h[i] == h[1..][i - 1]; } }
      }
    }
  }

  lemma RecordedExact(h: seq<Decision>, d: Decision)
    ensures KeyRecorded(h, d) <==> FindDecision(h, d.Key()).Some?
    ensures RecordedAsIs(h, d) <==> FindDecision(h, d.Key()) == Some(d)
  {
    FirstOfKey(h, d.Key());
    var found := FindDecision(h, d.Key());
    if found.Some? {
      var i :| 0 <= i < |h| && h[i] == found.value && forall j | 0 <= j < i :: h[j].Key() != d.Key();
      if RecordedAsIs(h, d) {
        var k :| 0 <= k < |h| && h[k] == d && forall j | 0 <= j < k :: h[j].Key() != d.Key();
        assert i == k;
      }
    }
  }

  /** Where no two records share a key without being equal, it is enough to be recorded. */
  lemma RecordedWhereConflictFree(h: seq<Decision>, d: Decision)
    requires ConflictFree(h)
    ensures RecordedAsIs(h, d) <==> d in h
  {
    FirstOfKey(h, d.Key());
    var found := FindDecision(h, d.Key());
    if d in h {
      var k :| 0 <= k < |h| && h[k] == d;
      var i :| 0 <= i < |h| && h[i] == found.value && forall j | 0 <= j < i :: h[j].Key() != d.Key();
      assert i < k ==> h[..k][i] == h[i];
      assert !Conflicts(h[..k], h[k]);
      assert h[i] == d;
    }
  }

  lemma AuthorizedExact(req: Request)
    requires ValidRequest(req)
    ensures Authorized(req) <==> AuthorityFailure(req).None?
  {
    var h := req.baseline.history;
    var active := ActiveGate(req.baseline.gates, req.resource);
    ActiveGateCharacterized(req.baseline.gates, req.resource);
    forall g | g in req.baseline.gates && g.resource == req.resource ensures active == Some(g) {
      ActiveGateIsMember(req.baseline.gates, g);
    }
    if active.Some? {
      assert Bound(active.value, h);
      FirstOfKey(h, active.value.decisionKey);
    }
  }

  lemma BoundExact(req: Request, ev: Event)
    ensures BoundTo(req, ev) <==> BindingFailure(req, ev).None?
    ensures EvidenceHolds(ev) <==> EvidenceFailure(ev).None?
  {
  }

  // -------------------------------------------------------------- admission

  lemma TargetAdmission(req: Request, ev: Event, st: State)
    requires ValidRequest(req) && Under(req, ev, Allowed) && ValidObservations(req)
    ensures var active := ActiveGate(st.gates, req.resource);
            !JudgeTarget(req, ev, st).Rejected? <==>
              && Cleared(req, ev)
              && if ev.kind.DecisionEvent? then DecisionPasses(ev, active, st.history) else WakePasses(req, ev, active)
  {
    AuthorizedExact(req);
    BoundExact(req, ev);
    RecordedExact(st.history, ev.decision);
  }

  /** An event is rejected exactly when it is not admissible. */
  lemma AdmissionExact(req: Request, ev: Event, st: State)
    requires ValidRequest(req) && ValidObservations(req)
    ensures !Judge(req, ev, st).Rejected? <==> Admissible(req, ev, st)
  {
    NamedIsNewest(req, ev);
    UnderExact(req, ev, Allowed);
    BoundExact(req, ev);
    if Under(req, ev, Allowed) { TargetAdmission(req, ev, st); }
    var latest := LatestObservation(req.observations, ev.observedAt);
    if latest.Some? && latest.value.status.Gated? {
      var reset := latest.value.status.resetAt;
      UnderExact(req, ev, Gated(reset));
      assert Under(req, ev, Gated(reset)) && !Judge(req, ev, st).Rejected? ==> CoveredBy(req, ev, reset);
    }
    if reset :| CoveredBy(req, ev, reset) { UnderExact(req, ev, Gated(reset)); }
  }

  /** A run fails at an event exactly when the event is not admissible in the state reached. */
  lemma {:induction false} RunFailsExactly(req: Request, k: nat)
    requires ValidRequest(req) && ValidObservations(req)
    requires k < |req.events| && !ProgressAt(req, k).failed
    ensures ProgressAt(req, k + 1).failed <==> !Admissible(req, req.events[k], ProgressAt(req, k).state)
  {
    AdmissionExact(req, req.events[k], ProgressAt(req, k).state);
  }
}
