/** The canary steps as they update the task: a claim decides and appends at most one
    record, a terminal task appends at most one outcome. */
module Canary {
  import opened Options
  import opened TargetOrdering
  import opened CanaryCohort
  import opened CanaryModel
  import opened CanaryClaims

  datatype CanaryStatus = NoCanaryStatus | InvalidRequest | Decided(kind: Kind, why: Reason)

  /** The status a claim shows: an untouched baseline shows nothing new. */
  function StatusAfter(p: Policy, t: Task, before: CanaryStatus, routingOverride: bool,
                       req: Option<Request>, order: seq<string>): CanaryStatus {
    if routingOverride || req.None? then before
    else if !ValidRequest(t, req.value, order) then InvalidRequest
    else match Decide(p, t, req.value, order)
      case None => before
      case Some((kind, reason)) => Decided(kind, reason)
  }

  class CanaryTask {
    const id: string
    var attempts: nat
    var status: Status
    var resumeRequested: bool
    var decisions: seq<Decision>
    var outcomes: seq<Outcome>
    var canaryStatus: CanaryStatus

    function Now(): Task
      reads this
    {
      Task(id, attempts, status, resumeRequested, decisions, outcomes)
    }

    constructor (t: Task)
      ensures Now() == t && canaryStatus == NoCanaryStatus
    {
      id, attempts, status, resumeRequested := t.id, t.attempts, t.status, t.resumeRequested;
      decisions, outcomes := t.decisions, t.outcomes;
      canaryStatus := NoCanaryStatus;
    }

    /** Rebuilds the stop rule from the two histories; `None` when they are rejected. */
    method Reconstruct() returns (stop: Option<bool>, unresolved: seq<Decision>)
      ensures stop.Some? <==> Reconstructible(Now())
      ensures stop.Some? ==> stop.value == Stops(Now()) && unresolved == UnresolvedDecisions(decisions, outcomes)
    {
      unresolved := [];
      if !Reconstructible(Now()) { return None, []; }
      for i := 0 to |decisions|
        invariant unresolved == UnresolvedDecisions(decisions[..i], outcomes)
      {
        assert decisions[..i + 1][..i] == decisions[..i];
        if Unresolved(decisions[i], outcomes) { unresolved := unresolved + [decisions[i]]; }
      }
      assert decisions[..|decisions|] == decisions;
      stop := Some(unresolved != [] || SomeAdverse(outcomes));
    }

    method DecideClaim(p: Policy, req: Request, order: seq<string>) returns (decision: Option<(Kind, Reason)>)
      ensures decision == Decide(p, Now(), req, order)
    {
      if !p.enabled { return Some((StopNewCanary, PolicyDisabled)); }
      if p.killSwitch { return Some((StopNewCanary, KillSwitchActive)); }
      var stop, unresolved := Reconstruct();
      if stop.None? { return None; }
      if stop.value { return Some((StopNewCanary, PriorClosureRequiresRollback)); }
      if status == NeedsResume || resumeRequested { return Some((Kind.KeepBaseline, ResumePinned)); }
      if req.report.decision == FailClosed { return Some((StopNewCanary, ReportFailClosed)); }
      if Bucket(req.word) >= p.percent * 100 { return Some((Kind.KeepBaseline, OutsideCohort)); }
      if req.report.decision != SelectAlternative { return Some((Kind.KeepBaseline, OrderMatchesBaseline)); }
      if req.report.counterfactualOrder == order { return Some((Kind.KeepBaseline, OrderMatchesBaseline)); }
      return Some((ApplyCanary, CohortAssignment));
    }

    method AttachDecision(d: Decision)
      modifies `decisions
      ensures Now() == Attach(old(Now()), d)
    {
      if d !in decisions { decisions := decisions + [d]; }
    }

    /** The claim-boundary operation; `None` stands for rejected histories. */
    method ApplyCanaryClaim(p: Policy, routingOverride: bool, req: Option<Request>, order: seq<string>)
      returns (target: Option<string>)
      requires ValidPolicy(p) && order != []
      modifies `decisions, `canaryStatus
      ensures Now() == AfterClaim(p, old(Now()), routingOverride, req, order)
      ensures target.Some? ==> target.value == DispatchTarget(p, old(Now()), routingOverride, req, order)
      ensures target.None? <==> Raises(p, old(Now()), routingOverride, req, order)
      ensures canaryStatus == StatusAfter(p, old(Now()), old(canaryStatus), routingOverride, req, order)
    {
      if routingOverride || req.None? { return Some(order[0]); }
      if !ValidRequest(Now(), req.value, order) {
        canaryStatus := InvalidRequest;
        return Some(order[0]);
      }
      var decision := DecideClaim(p, req.value, order);
      if decision.None? { return None; }
      var (kind, reason) := decision.value;
      var record := RecordOf(p, Now(), req.value, order, kind, reason);
      AttachDecision(record);
      canaryStatus := Decided(kind, reason);
      target := Some(if kind == ApplyCanary then req.value.report.counterfactualOrder[0] else order[0]);
    }

    method RecordOutcome(now: Time) returns (outcome: Option<Outcome>)
      modifies `outcomes
      ensures outcome == OutcomeRecord(old(Now()), now)
      ensures Now() == AfterOutcome(old(Now()), now)
    {
      if decisions == [] { return None; }
      var matching := DecisionsOf(decisions, attempts);
      if matching == [] && status == FailedStatus { matching := DecisionsOf(decisions, attempts + 1); }
      if matching == [] { return None; }
      var decision := matching[|matching| - 1];
      if Closed(decision, outcomes) { return None; }
      var record := OutcomeOf(Now(), decision, now);
      outcomes := outcomes + [record];
      return Some(record);
    }
  }
}
