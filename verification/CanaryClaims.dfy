/** What a canary claim does, read off the policy, the request and the two histories. */
module CanaryClaims {
  import opened Options
  import opened IdOrder
  import opened TargetOrdering
  import opened CanaryCohort
  import opened CanaryModel

  /** Some canary has no outcome, or some outcome is adverse. */
  predicate Stopped(t: Task) {
    || (exists i | 0 <= i < |t.decisions| ::
          t.decisions[i].kind == ApplyCanary
          && forall j | 0 <= j < |t.outcomes| :: t.outcomes[j].decision != t.decisions[i])
    || (exists j | 0 <= j < |t.outcomes| :: t.outcomes[j].adverse)
  }

  predicate Pinned(t: Task) {
    t.status == NeedsResume || t.resumeRequested
  }

  predicate InCohort(word: nat, percent: nat) {
    word % 10_000 < percent * 100
  }

  predicate On(p: Policy) {
    p.enabled && !p.killSwitch
  }

  /** A claim that is not overridden and carries a valid request. */
  predicate Claims(t: Task, routingOverride: bool, req: Option<Request>, order: seq<string>) {
    !routingOverride && req.Some? && ValidRequest(t, req.value, order)
  }

  /** The claim is an error: it reaches the histories, and they are rejected. */
  predicate Raises(p: Policy, t: Task, routingOverride: bool, req: Option<Request>, order: seq<string>) {
    Claims(t, routingOverride, req, order) && On(p) && !Reconstructible(t)
  }

  lemma {:induction false} UnresolvedMeans(decisions: seq<Decision>, outcomes: seq<Outcome>)
    ensures UnresolvedDecisions(decisions, outcomes) != [] <==>
              exists i | 0 <= i < |decisions| ::
                && decisions[i].kind == ApplyCanary
                && forall j | 0 <= j < |outcomes| :: outcomes[j].decision != decisions[i]
  {
    if decisions != [] {
      var n := |decisions| - 1;
      UnresolvedMeans(decisions[..n], outcomes);
      assert forall i | 0 <= i < n :: decisions[..n][i] == decisions[i];
    }
  }

  lemma StopsMeans(t: Task)
    ensures Stops(t) <==> Stopped(t)
  {
    UnresolvedMeans(t.decisions, t.outcomes);
  }

  /** A claim leaves no record exactly when it does not count as one, or raises; then the
      task is untouched, and without an error the baseline is dispatched. */
  lemma UnrecordedExact(p: Policy, t: Task, routingOverride: bool, req: Option<Request>, order: seq<string>)
    requires order != []
    ensures ClaimRecord(p, t, routingOverride, req, order).None? <==>
              !Claims(t, routingOverride, req, order) || Raises(p, t, routingOverride, req, order)
    ensures ClaimRecord(p, t, routingOverride, req, order).None? ==>
              && AfterClaim(p, t, routingOverride, req, order) == t
              && DispatchTarget(p, t, routingOverride, req, order) == order[0]
  {
  }

  /** In no run from empty histories does a claim raise. */
  lemma {:induction false} NoRunRaises(
    t: Task, steps: seq<Step>, p: Policy, routingOverride: bool, req: Option<Request>, order: seq<string>)
    requires t.decisions == [] && t.outcomes == []
    ensures !Raises(p, Run(t, steps), routingOverride, req, order)
  {
    RunKeepsSound(t, steps);
  }

  /** The reason a record gives, guard by guard. */
  predicate GivenFor(p: Policy, t: Task, req: Request, reason: Reason) {
    var report := req.report.decision;
    var asked := On(p) && !Stopped(t) && !Pinned(t);
    || (reason == PolicyDisabled && !p.enabled)
    || (reason == KillSwitchActive && p.enabled && p.killSwitch)
    || (reason == PriorClosureRequiresRollback && On(p) && Stopped(t))
    || (reason == ResumePinned && On(p) && !Stopped(t) && Pinned(t))
    || (reason == ReportFailClosed && asked && report == FailClosed)
    || (reason == OutsideCohort && asked && report != FailClosed && !InCohort(req.word, p.percent))
    || (reason == OrderMatchesBaseline
        && asked && report == OrderingDecision.KeepBaseline && InCohort(req.word, p.percent))
    || (reason == CohortAssignment && asked && report == SelectAlternative && InCohort(req.word, p.percent))
  }

  /** The kind of a record: a canary only with every guard in its favour, a stop for a
      policy that is off, a stop rule in force or a report that fails closed, and the
      baseline otherwise. */
  predicate KindOf(p: Policy, t: Task, req: Request, kind: Kind) {
    var report := req.report.decision;
    if !On(p) || Stopped(t) || (!Pinned(t) && report == FailClosed) then kind == StopNewCanary
    else if !Pinned(t) && report == SelectAlternative && InCohort(req.word, p.percent) then kind == ApplyCanary
    else kind == Kind.KeepBaseline
  }

  /** Everything else a record binds. */
  predicate Binds(p: Policy, t: Task, req: Request, order: seq<string>, d: Decision)
    requires order != []
  {
    && d.recordedAt == req.evaluatedAt && d.taskId == t.id && d.attempt == t.attempts + 1
    && d.context == req.context
    && d.bucket == req.word % 10_000 && d.percent == p.percent && d.ceiling == 10
    && (d.inCohort <==> InCohort(req.word, p.percent))
    && d.baselineOrder == order && d.baselineTarget == order[0]
    && d.canaryOrder == req.report.counterfactualOrder && d.canaryTarget == req.report.counterfactualTarget
    && d.dispatch == if d.kind == ApplyCanary then req.report.counterfactualTarget else order[0]
  }

  /** Every other claim records a decision of that kind, reason and binding, appended
      unless it is already there, and dispatches what the record says. */
  lemma RecordedExact(p: Policy, t: Task, routingOverride: bool, req: Option<Request>, order: seq<string>)
    requires order != [] && Claims(t, routingOverride, req, order) && !Raises(p, t, routingOverride, req, order)
    ensures var record := ClaimRecord(p, t, routingOverride, req, order);
            && record.Some?
            && var d := record.value;
               && KindOf(p, t, req.value, d.kind) && GivenFor(p, t, req.value, d.reason)
               && Binds(p, t, req.value, order, d)
               && AfterClaim(p, t, routingOverride, req, order)
                  == t.(decisions := if d in t.decisions then t.decisions else t.decisions + [d])
               && DispatchTarget(p, t, routingOverride, req, order) == d.dispatch
  {
    StopsMeans(t);
  }

  /** Under a stop a valid claim keeps the baseline and leaves a record of the attempt
      that says so. */
  lemma StopIsRecorded(p: Policy, t: Task, req: Request, order: seq<string>)
    requires order != [] && ValidRequest(t, req, order) && On(p) && Reconstructible(t) && Stopped(t)
    ensures DispatchTarget(p, t, false, Some(req), order) == order[0]
    ensures exists d :: d in AfterClaim(p, t, false, Some(req), order).decisions
              && d.kind == StopNewCanary && d.reason == PriorClosureRequiresRollback && d.attempt == t.attempts + 1
  {
    RecordedExact(p, t, false, Some(req), order);
    assert ClaimRecord(p, t, false, Some(req), order).value in AfterClaim(p, t, false, Some(req), order).decisions;
  }

  // ---------------------------------------------------------- reconstruction

  /** A decision record the validator turns down. */
  predicate BadDecision(d: Decision) {
    || d.attempt < 1
    || d.bucket < 0 || d.bucket > 9_999 || d.ceiling != 10 || d.percent > 10
    || (d.inCohort != (d.bucket < 100 * d.percent))
    || BadOrder(d.baselineOrder) || BadOrder(d.canaryOrder)
    || d.baselineTarget != d.baselineOrder[0] || d.canaryTarget != d.canaryOrder[0]
    || (exists x | x in d.baselineOrder :: x !in d.canaryOrder)
    || (exists x | x in d.canaryOrder :: x !in d.baselineOrder)
    || (d.kind == ApplyCanary
        && (!d.inCohort || d.dispatch != d.canaryOrder[0] || d.canaryOrder == d.baselineOrder))
    || (d.kind != ApplyCanary && d.dispatch != d.baselineOrder[0])
  }

  predicate BadOrder(order: seq<string>) {
    order == [] || exists i, j | 0 <= i < j < |order| :: order[i] == order[j]
  }

  predicate BadOutcome(o: Outcome) {
    || o.attempt < 1
    || (o.adverse && (!o.rollback || o.rollbackReason.None?))
    || (!o.adverse && (o.rollback || o.rollbackReason.Some?))
    || BadOrder(o.baselineOrder) || BadOrder(o.canaryOrder)
    || (exists x | x in o.baselineOrder :: x !in o.canaryOrder)
    || (exists x | x in o.canaryOrder :: x !in o.baselineOrder)
  }

  /** Histories are rejected exactly for a bad record, a repeated decision, an outcome of
      an unknown decision, or a decision closed twice. */
  lemma RejectedExact(t: Task)
    ensures !Reconstructible(t) <==>
              || (exists i | 0 <= i < |t.decisions| :: BadDecision(t.decisions[i]))
              || (exists i | 0 <= i < |t.outcomes| :: BadOutcome(t.outcomes[i]))
              || (exists i, j | 0 <= i < j < |t.decisions| :: t.decisions[i] == t.decisions[j])
              || (exists i | 0 <= i < |t.outcomes| :: t.outcomes[i].decision !in t.decisions)
              || (exists i, j | 0 <= i < j < |t.outcomes| :: t.outcomes[i].decision == t.outcomes[j].decision)
  {
    forall d: Decision ensures ValidDecision(d) <==> !BadDecision(d) { BadDecisionExact(d); }
    forall o: Outcome ensures ValidOutcome(o) <==> !BadOutcome(o) { BadOutcomeExact(o); }
  }

  lemma BadDecisionExact(d: Decision)
    ensures ValidDecision(d) <==> !BadDecision(d)
  {
  }

  lemma BadOutcomeExact(o: Outcome)
    ensures ValidOutcome(o) <==> !BadOutcome(o)
  {
  }

  // ---------------------------------------------------------------- outcomes

  /** What an outcome record says of the task that ended. */
  lemma OutcomeMeans(t: Task, now: Time)
    requires OutcomeRecord(t, now).Some?
    ensures var o := OutcomeRecord(t, now).value;
            && AfterOutcome(t, now) == t.(outcomes := t.outcomes + [o])
            && o.recordedAt == now && o.taskId == o.decision.taskId && o.dispatch == o.decision.dispatch
            && o.baselineOrder == o.decision.baselineOrder && o.canaryOrder == o.decision.canaryOrder
            && (o.result == Success <==> t.status == Completed)
            && (o.result == Failure <==> t.status == FailedStatus)
            && (t.status == FailedStatus ==> o.rollbackReason == Some("execution_failed"))
            && (t.status == NeedsResume || t.status == Blocked ==> o.rollbackReason == Some("execution_incomplete"))
            && (t.status == OtherStatus ==> o.rollbackReason == Some("terminal_status_unknown"))
  {
  }

  /** No outcome is recorded exactly when no decision of the attempt is found, or the last
      one is closed; then the task is untouched. */
  lemma {:induction false} NoOutcomeExact(t: Task, now: Time)
    ensures AfterOutcome(t, now) == t <==> OutcomeRecord(t, now).None?
    ensures OutcomeRecord(t, now).None? <==>
              var own := exists i | 0 <= i < |t.decisions| :: t.decisions[i].attempt == t.attempts;
              var next := exists i | 0 <= i < |t.decisions| :: t.decisions[i].attempt == t.attempts + 1;
              var attempt := if own then t.attempts else t.attempts + 1;
              || (!own && !(next && t.status == FailedStatus))
              || (exists i, j | 0 <= i < |t.decisions| && 0 <= j < |t.outcomes| ::
                    && t.decisions[i].attempt == attempt && t.outcomes[j].decision == t.decisions[i]
                    && forall k | i < k < |t.decisions| :: t.decisions[k].attempt != attempt)
  {
    AttemptFound(t.decisions, t.attempts);
    AttemptFound(t.decisions, t.attempts + 1);
    if Matching(t) != [] {
      var i := OutcomeClosesLast(t, now);
      var last := Matching(t)[|Matching(t)| - 1];
      var attempt := t.decisions[i].attempt;
      LastIsMatching(t, i);
      if Closed(last, t.outcomes) {
        var j :| 0 <= j < |t.outcomes| && t.outcomes[j].decision == last;
        assert t.decisions[i].attempt == attempt && t.outcomes[j].decision == t.decisions[i];
      }
    }
  }

  lemma {:induction false} AttemptFound(decisions: seq<Decision>, attempt: int)
    ensures DecisionsOf(decisions, attempt) != [] <==>
              exists i | 0 <= i < |decisions| :: decisions[i].attempt == attempt
  {
    if decisions != [] {
      var n := |decisions| - 1;
      AttemptFound(decisions[..n], attempt);
      assert forall i | 0 <= i < n :: decisions[..n][i] == decisions[i];
    }
  }

  lemma {:induction false} LastIsMatching(t: Task, i: nat)
    requires Matching(t) != [] && i < |t.decisions|
    requires forall j | i < j < |t.decisions| :: t.decisions[j].attempt != t.decisions[i].attempt
    requires t.decisions[i].attempt == t.attempts
             || (t.decisions[i].attempt == t.attempts + 1
                 && forall j | 0 <= j < |t.decisions| :: t.decisions[j].attempt != t.attempts)
    ensures Matching(t)[|Matching(t)| - 1] == t.decisions[i]
  {
    AttemptFound(t.decisions, t.attempts);
    AttemptFound(t.decisions, t.attempts + 1);
    var attempt := t.decisions[i].attempt;
    var k := LastOfAttempt(t.decisions, attempt);
    assert k == i;
  }
}
