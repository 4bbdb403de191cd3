/** What a committed event was measured against: the global gate of its time, the bound
    revisions, and its own evidence. */
module GateEvidence {
  import opened Options
  import opened GateModel
  import opened GateLineage

  /** Observations come in strictly increasing time. */
  predicate Chronological(observations: seq<Observation>) {
    forall i, j | 0 <= i < j < |observations| :: observations[i].observedAt < observations[j].observedAt
  }

  /** Of chronological observations the one looked up is the newest not after `t`. */
  lemma {:induction false} LatestObservationExact(observations: seq<Observation>, t: Time)
    requires Chronological(observations)
    ensures var latest := LatestObservation(observations, t);
            if latest.Some? then
              && latest.value in observations && latest.value.observedAt <= t
              && forall o | o in observations && o.observedAt <= t :: o.observedAt <= latest.value.observedAt
            else forall o | o in observations :: t < o.observedAt
  {
    if observations != [] {
      var n := |observations| - 1;
      LatestObservationExact(observations[..n], t);
      assert forall o | o in observations :: o in observations[..n] || o == observations[n];
    }
  }

  /** An event that is not rejected names the newest observation of its time. */
  lemma NamesNewestObservation(req: Request, ev: Event, st: State)
    requires Chronological(req.observations) && !Judge(req, ev, st).Rejected?
    ensures var named := FindObservation(req.observations, ev.observationId);
            && named.Some? && named.value.observedAt <= ev.observedAt
            && (forall o | o in req.observations && o.observedAt <= ev.observedAt ::
                  o.observedAt <= named.value.observedAt)
            && !named.value.status.UnknownStatus?
  {
    LatestObservationExact(req.observations, ev.observedAt);
  }

  /** The global gate comes first: while it is not open nothing is changed, and an event
      passes only as covered, by a global reset no earlier than its own. */
  lemma GlobalGateComesFirst(req: Request, ev: Event, st: State)
    ensures var named := FindObservation(req.observations, ev.observationId);
            var v := Judge(req, ev, st);
            (named.None? || !named.value.status.Allowed?) ==>
              && Commit(st, ev.decision, v) == st
              && (!v.Rejected? ==>
                    && PreviewOf(v) == CoveredGlobally && named.Some? && named.value.status.Gated?
                    && ev.decision.action == CoveredByGlobal
                    && ev.decision.coverage == Coverage(Covered, Some(named.value.status.resetAt))
                    && ev.decision.resetAt <= named.value.status.resetAt)
  {
  }

  /** What a change of state was measured against.  The evidence is above the threshold
      exactly when it is recovery evidence; so a gate that opens, moves or excludes
      without it is at or below the threshold. */
  lemma ChangesRestOnEvidence(req: Request, ev: Event, st: State)
    requires Commit(st, ev.decision, Judge(req, ev, st)) != st
    ensures var e := ev.evidence;
            && req.authority.None?
            && ev.decision.resource == req.resource
            && ev.decision.policyRevision == req.policyRevision
            && ev.decision.mappingRevision == req.mappingRevision
            && ev.decision.observedAt == ev.observedAt
            && e.currentnessRevision == req.currentnessRevision
            && e.remainingUnit == e.thresholdUnit == req.unit
            && e.freshness == Current && e.mappingStatus == Exact
            && (e.kind == Recovery <==> e.remaining > e.threshold)
            && (e.kind == ConfirmedExhaustion ==> ev.decision.action == Defer)
            && (ev.decision.action == Allow ==> e.kind == Recovery)
  {
  }

  /** The same over a run: a resource is hard-excluded only by a defer measured at or
      below its threshold, and an allow is recorded only above it. */
  lemma RecordedEvidence(req: Request, k: nat)
    requires ValidRequest(req) && k < |req.events| && !ProgressAt(req, k + 1).failed
    requires ProgressAt(req, k + 1).state != ProgressAt(req, k).state
    ensures var ev := req.events[k]; var st' := ProgressAt(req, k + 1).state;
            && st'.history == ProgressAt(req, k).state.history + [ev.decision]
            && (st'.disposition == HardExcluded && ProgressAt(req, k).state.disposition != HardExcluded
                ==> ev.decision.action == Defer && ev.evidence.remaining <= ev.evidence.threshold)
            && (ev.decision.action == Allow ==> ev.evidence.threshold < ev.evidence.remaining)
  {
    var v := CommittedStep(req, k);
    ChangesRestOnEvidence(req, req.events[k], ProgressAt(req, k).state);
  }
}
