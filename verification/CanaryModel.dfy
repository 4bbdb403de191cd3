/** The canary's decision and outcome histories, the stop rule read off them, and what
    holds over every run of claims and outcomes.

    A decision or outcome identity is an ideal digest of the whole record, so records
    are identified by their content. */
module CanaryModel {
  import opened Options
  import opened IdOrder
  import opened TargetOrdering
  import opened CanaryCohort

  type Time = int

  const CEILING := 10

  datatype Policy = Policy(enabled: bool, killSwitch: bool, percent: nat)

  /** What the policy parser guarantees. */
  predicate ValidPolicy(p: Policy) {
    p.percent <= CEILING && (p.enabled ==> p.percent == 5)
  }

  /** A canary request as it passed its own checks: `word` is the leading 64 bits of the
      cohort digest, `context` the scope and revisions the record binds. */
  datatype Request = Request(taskId: string, word: nat, context: string, evaluatedAt: Time, report: OrderingReport)

  datatype Kind = KeepBaseline | ApplyCanary | StopNewCanary

  datatype Reason =
    | PolicyDisabled | KillSwitchActive | PriorClosureRequiresRollback | ResumePinned
    | ReportFailClosed | OutsideCohort | OrderMatchesBaseline | CohortAssignment

  datatype Decision = Decision(
    recordedAt: Time, taskId: string, attempt: int, context: string,
    bucket: int, percent: nat, ceiling: nat, inCohort: bool,
    baselineTarget: string, baselineOrder: seq<string>,
    canaryTarget: string, canaryOrder: seq<string>,
    dispatch: string, kind: Kind, reason: Reason)

  datatype Result = Success | Failure | Unknown

  datatype Outcome = Outcome(
    recordedAt: Time, taskId: string, attempt: int, decision: Decision, dispatch: string,
    result: Result, adverse: bool, rollback: bool, rollbackReason: Option<string>,
    baselineOrder: seq<string>, canaryOrder: seq<string>)

  datatype Status = Completed | FailedStatus | NeedsResume | Blocked | OtherStatus

  datatype Task = Task(
    id: string, attempts: nat, status: Status, resumeRequested: bool,
    decisions: seq<Decision>, outcomes: seq<Outcome>)

  // ---------------------------------------------------------- record checks

  predicate ValidOrder(order: seq<string>) {
    order != [] && Distinct(order)
  }

  predicate ValidDecision(d: Decision) {
    && d.attempt >= 1
    && 0 <= d.bucket < 10_000 && d.ceiling == CEILING && d.percent <= d.ceiling
    && (d.inCohort <==> d.bucket < d.percent * 100)
    && ValidOrder(d.baselineOrder) && d.baselineTarget == d.baselineOrder[0]
    && ValidOrder(d.canaryOrder) && d.canaryTarget == d.canaryOrder[0]
    && SameTargets(d.canaryOrder, d.baselineOrder)
    && (if d.kind == ApplyCanary
        then d.inCohort && d.dispatch == d.canaryTarget && d.canaryOrder != d.baselineOrder
        else d.dispatch == d.baselineTarget)
  }

  predicate ValidOutcome(o: Outcome) {
    && o.attempt >= 1
    && (o.adverse ==> o.rollback && o.rollbackReason.Some?)
    && (!o.adverse ==> !o.rollback && o.rollbackReason.None?)
    && ValidOrder(o.baselineOrder) && ValidOrder(o.canaryOrder)
    && SameTargets(o.baselineOrder, o.canaryOrder)
  }

  // --------------------------------------------------------- reconstruction

  predicate Closed(d: Decision, outcomes: seq<Outcome>) {
    exists i | 0 <= i < |outcomes| :: outcomes[i].decision == d
  }

  predicate Unresolved(d: Decision, outcomes: seq<Outcome>) {
    d.kind == ApplyCanary && !Closed(d, outcomes)
  }

  function UnresolvedDecisions(decisions: seq<Decision>, outcomes: seq<Outcome>): seq<Decision> {
    if decisions == [] then []
    else
      var n := |decisions| - 1;
      UnresolvedDecisions(decisions[..n], outcomes)
      + (if Unresolved(decisions[n], outcomes) then [decisions[n]] else [])
  }

  predicate SomeAdverse(outcomes: seq<Outcome>) {
    exists i | 0 <= i < |outcomes| :: outcomes[i].adverse
  }

  predicate DistinctDecisions(decisions: seq<Decision>) {
    forall i, j | 0 <= i < j < |decisions| :: decisions[i] != decisions[j]
  }

  predicate DistinctClosures(outcomes: seq<Outcome>) {
    forall i, j | 0 <= i < j < |outcomes| :: outcomes[i].decision != outcomes[j].decision
  }

  /** The histories the reconstruction accepts. */
  predicate Reconstructible(t: Task) {
    && (forall i | 0 <= i < |t.decisions| :: ValidDecision(t.decisions[i]))
    && (forall i | 0 <= i < |t.outcomes| :: ValidOutcome(t.outcomes[i]))
    && DistinctDecisions(t.decisions)
    && (forall i | 0 <= i < |t.outcomes| :: t.outcomes[i].decision in t.decisions)
    && DistinctClosures(t.outcomes)
  }

  predicate Stops(t: Task) {
    UnresolvedDecisions(t.decisions, t.outcomes) != [] || SomeAdverse(t.outcomes)
  }

  // ------------------------------------------------------------------ claim

  function Decide(p: Policy, t: Task, req: Request, order: seq<string>): Option<(Kind, Reason)> {
    if !p.enabled then Some((StopNewCanary, PolicyDisabled))
    else if p.killSwitch then Some((StopNewCanary, KillSwitchActive))
    else if !Reconstructible(t) then None
    else if Stops(t) then Some((StopNewCanary, PriorClosureRequiresRollback))
    else if t.status == NeedsResume || t.resumeRequested then Some((Kind.KeepBaseline, ResumePinned))
    else if req.report.decision == FailClosed then Some((StopNewCanary, ReportFailClosed))
    else if !Assigned(req.word, p.percent) then Some((Kind.KeepBaseline, OutsideCohort))
    else if req.report.decision != SelectAlternative || req.report.counterfactualOrder == order
      then Some((Kind.KeepBaseline, OrderMatchesBaseline))
    else Some((ApplyCanary, CohortAssignment))
  }

  /** What request validation establishes against the task and the eligible order. */
  predicate ValidRequest(t: Task, req: Request, order: seq<string>) {
    && req.taskId == t.id && ValidOrder(order)
    && OrderingAccepted(req.report) && req.report.baselineOrder == order
  }

  function RecordOf(p: Policy, t: Task, req: Request, order: seq<string>, kind: Kind, reason: Reason): Decision
    requires ValidRequest(t, req, order)
  {
    var canary := req.report.counterfactualOrder;
    Decision(req.evaluatedAt, req.taskId, t.attempts + 1, req.context,
             Bucket(req.word), p.percent, CEILING, Assigned(req.word, p.percent),
             order[0], order, canary[0], canary,
             if kind == ApplyCanary then canary[0] else order[0], kind, reason)
  }

  function Attach(t: Task, d: Decision): Task {
    if d in t.decisions then t else t.(decisions := t.decisions + [d])
  }

  /** The decision a claim records: none when a manual override or a missing or invalid
      request leaves the baseline in place without evidence. */
  function ClaimRecord(p: Policy, t: Task, routingOverride: bool, req: Option<Request>, order: seq<string>)
    : Option<Decision>
  {
    if routingOverride || req.None? || !ValidRequest(t, req.value, order) then None
    else match Decide(p, t, req.value, order)
      case None => None
      case Some((kind, reason)) => Some(RecordOf(p, t, req.value, order, kind, reason))
  }

  function AfterClaim(p: Policy, t: Task, routingOverride: bool, req: Option<Request>, order: seq<string>): Task {
    match ClaimRecord(p, t, routingOverride, req, order)
    case None => t
    case Some(d) => Attach(t, d)
  }

  function DispatchTarget(p: Policy, t: Task, routingOverride: bool, req: Option<Request>, order: seq<string>): string
    requires order != []
  {
    match ClaimRecord(p, t, routingOverride, req, order)
    case None => order[0]
    case Some(d) => d.dispatch
  }

  // ---------------------------------------------------------------- outcome

  function DecisionsOf(decisions: seq<Decision>, attempt: int): seq<Decision> {
    if decisions == [] then []
    else
      var n := |decisions| - 1;
      DecisionsOf(decisions[..n], attempt) + (if decisions[n].attempt == attempt then [decisions[n]] else [])
  }

  function Matching(t: Task): seq<Decision> {
    var own := DecisionsOf(t.decisions, t.attempts);
    if own == [] && t.status == FailedStatus then DecisionsOf(t.decisions, t.attempts + 1) else own
  }

  function OutcomeOf(t: Task, d: Decision, now: Time): Outcome {
    var good := t.status == Completed;
    var result := if good then Success else if t.status == FailedStatus then Failure else Unknown;
    var reason :=
      match t.status
      case Completed => None
      case FailedStatus => Some("execution_failed")
      case NeedsResume => Some("execution_incomplete")
      case Blocked => Some("execution_incomplete")
      case OtherStatus => Some("terminal_status_unknown");
    Outcome(now, d.taskId, d.attempt, d, d.dispatch, result, !good, !good, reason, d.baselineOrder, d.canaryOrder)
  }

  /** The outcome a terminal task records, unless its decision is already closed. */
  function OutcomeRecord(t: Task, now: Time): Option<Outcome> {
    var matching := Matching(t);
    if matching == [] || Closed(matching[|matching| - 1], t.outcomes) then None
    else Some(OutcomeOf(t, matching[|matching| - 1], now))
  }

  function AfterOutcome(t: Task, now: Time): Task {
    match OutcomeRecord(t, now)
    case None => t
    case Some(o) => t.(outcomes := t.outcomes + [o])
  }

  // ------------------------------------------------------------------- runs

  /** `Environment` is everything else that happens to a task between canary steps. */
  datatype Step =
    | Claim(policy: Policy, routingOverride: bool, request: Option<Request>, order: seq<string>)
    | Close(now: Time)
    | Environment(attempts: nat, status: Status, resumeRequested: bool)

  function Next(t: Task, s: Step): Task {
    match s
    case Claim(policy, routingOverride, request, order) =>
      if ValidPolicy(policy) && order != [] then AfterClaim(policy, t, routingOverride, request, order) else t
    case Close(now) => AfterOutcome(t, now)
    case Environment(attempts, status, resume) =>
      t.(attempts := attempts, status := status, resumeRequested := resume)
  }

  function Run(t: Task, steps: seq<Step>): Task {
    if steps == [] then t else Next(Run(t, steps[..|steps| - 1]), steps[|steps| - 1])
  }

  // -------------------------------------------------------------- invariant

  /** An earlier canary is closed, and well, before a later one is decided. */
  ghost predicate ClosedWell(d: Decision, outcomes: seq<Outcome>) {
    exists i | 0 <= i < |outcomes| :: outcomes[i].decision == d && !outcomes[i].adverse
  }

  ghost predicate AllButLastClosedWell(t: Task) {
    forall i, j | 0 <= i < j < |t.decisions|
                  && t.decisions[i].kind == ApplyCanary && t.decisions[j].kind == ApplyCanary ::
      ClosedWell(t.decisions[i], t.outcomes)
  }

  ghost predicate Sound(t: Task) {
    Reconstructible(t) && AllButLastClosedWell(t)
  }

  /** Every decision record a claim builds passes the record check. */
  lemma RecordIsValid(p: Policy, t: Task, req: Request, order: seq<string>)
    requires ValidPolicy(p) && ValidRequest(t, req, order) && Decide(p, t, req, order).Some?
    ensures var (kind, reason) := Decide(p, t, req, order).value;
            ValidDecision(RecordOf(p, t, req, order, kind, reason))
  {
  }

  lemma {:induction false} NoneUnresolved(decisions: seq<Decision>, outcomes: seq<Outcome>, i: nat)
    requires i < |decisions| && UnresolvedDecisions(decisions, outcomes) == []
    ensures !Unresolved(decisions[i], outcomes)
  {
    var n := |decisions| - 1;
    if i < n { NoneUnresolved(decisions[..n], outcomes, i); }
  }

  lemma ClaimKeepsSound(p: Policy, t: Task, routingOverride: bool, req: Option<Request>, order: seq<string>)
    requires Sound(t) && ValidPolicy(p) && order != []
    ensures Sound(AfterClaim(p, t, routingOverride, req, order))
  {
    var record := ClaimRecord(p, t, routingOverride, req, order);
    if record.Some? && record.value !in t.decisions {
      var d := record.value;
      RecordIsValid(p, t, req.value, order);
      var t' := Attach(t, d);
      if d.kind == ApplyCanary {
        forall i | 0 <= i < |t.decisions| && t.decisions[i].kind == ApplyCanary
          ensures ClosedWell(t.decisions[i], t.outcomes)
        {
          NoneUnresolved(t.decisions, t.outcomes, i);
          var k :| 0 <= k < |t.outcomes| && t.outcomes[k].decision == t.decisions[i];
          assert !t.outcomes[k].adverse;
        }
      }
      forall i, j | 0 <= i < j < |t'.decisions|
                    && t'.decisions[i].kind == ApplyCanary && t'.decisions[j].kind == ApplyCanary
        ensures ClosedWell(t'.decisions[i], t'.outcomes)
      {
        if j < |t.decisions| { assert ClosedWell(t.decisions[i], t.outcomes); }
      }
    }
  }

  lemma {:induction false} MatchingAreDecisions(decisions: seq<Decision>, attempt: int)
    ensures forall d | d in DecisionsOf(decisions, attempt) :: d in decisions && d.attempt == attempt
  {
    if decisions != [] { MatchingAreDecisions(decisions[..|decisions| - 1], attempt); }
  }

  lemma OutcomeIsValid(t: Task, now: Time)
    requires Reconstructible(t) && OutcomeRecord(t, now).Some?
    ensures var o := OutcomeRecord(t, now).value;
            ValidOutcome(o) && o.decision in t.decisions && !Closed(o.decision, t.outcomes)
  {
    MatchingAreDecisions(t.decisions, t.attempts);
    MatchingAreDecisions(t.decisions, t.attempts + 1);
    var matching := Matching(t);
    assert matching[|matching| - 1] in matching;
  }

  /** The last decision of an attempt is the one its outcome would close. */
  lemma {:induction false} LastOfAttempt(decisions: seq<Decision>, attempt: int) returns (i: nat)
    requires DecisionsOf(decisions, attempt) != []
    ensures i < |decisions| && decisions[i].attempt == attempt
    ensures decisions[i] == DecisionsOf(decisions, attempt)[|DecisionsOf(decisions, attempt)| - 1]
    ensures forall j | i < j < |decisions| :: decisions[j].attempt != attempt
  {
    i := |decisions| - 1;
    if decisions[i].attempt != attempt { i := LastOfAttempt(decisions[..i], attempt); }
  }

  lemma {:induction false} NoneOfAttempt(decisions: seq<Decision>, attempt: int)
    requires DecisionsOf(decisions, attempt) == []
    ensures forall i | 0 <= i < |decisions| :: decisions[i].attempt != attempt
  {
    if decisions != [] { NoneOfAttempt(decisions[..|decisions| - 1], attempt); }
  }

  /** Recording an outcome closes the last decision of the task's attempt, and of the
      next one only for a failed task whose own attempt has none.  What is recorded is
      adverse, with a rollback and its reason, exactly when the task is not completed. */
  lemma OutcomeClosesLast(t: Task, now: Time) returns (i: nat)
    requires Matching(t) != []
    ensures i < |t.decisions| && Closed(t.decisions[i], AfterOutcome(t, now).outcomes)
    ensures forall j | i < j < |t.decisions| :: t.decisions[j].attempt != t.decisions[i].attempt
    ensures t.decisions[i].attempt == t.attempts
            || (t.status == FailedStatus && t.decisions[i].attempt == t.attempts + 1
                && forall j | 0 <= j < |t.decisions| :: t.decisions[j].attempt != t.attempts)
    ensures OutcomeRecord(t, now).Some? ==>
              var o := OutcomeRecord(t, now).value;
              && o.decision == t.decisions[i] && o.attempt == t.decisions[i].attempt
              && (o.adverse <==> t.status != Completed) && (o.rollback <==> o.adverse)
              && (o.rollbackReason.Some? <==> o.adverse) && (o.result == Success <==> t.status == Completed)
  {
    var own := DecisionsOf(t.decisions, t.attempts);
    if own == [] {
      NoneOfAttempt(t.decisions, t.attempts);
      i := LastOfAttempt(t.decisions, t.attempts + 1);
    } else {
      i := LastOfAttempt(t.decisions, t.attempts);
    }
    var record := OutcomeRecord(t, now);
    if record.Some? {
      var outcomes := AfterOutcome(t, now).outcomes;
      assert outcomes[|t.outcomes|].decision == t.decisions[i];
    }
  }

  lemma MoreOutcomesCloseWell(t: Task, o: Outcome)
    requires AllButLastClosedWell(t)
    ensures AllButLastClosedWell(t.(outcomes := t.outcomes + [o]))
  {
    var t' := t.(outcomes := t.outcomes + [o]);
    forall i, j | 0 <= i < j < |t.decisions| && t.decisions[i].kind == ApplyCanary && t.decisions[j].kind == ApplyCanary
      ensures ClosedWell(t.decisions[i], t'.outcomes)
    {
      var k :| 0 <= k < |t.outcomes| && t.outcomes[k].decision == t.decisions[i] && !t.outcomes[k].adverse;
      assert t'.outcomes[k] == t.outcomes[k];
    }
  }

  lemma OutcomeKeepsSound(t: Task, now: Time)
    requires Sound(t)
    ensures Sound(AfterOutcome(t, now))
  {
    var record := OutcomeRecord(t, now);
    if record.Some? {
      OutcomeIsValid(t, now);
      MoreOutcomesCloseWell(t, record.value);
    }
  }

  /** From empty histories, every run keeps histories the reconstruction accepts, and
      every canary but the last is closed by an outcome that is not adverse. */
  lemma {:induction false} RunKeepsSound(t: Task, steps: seq<Step>)
    requires t.decisions == [] && t.outcomes == []
    ensures Sound(Run(t, steps))
  {
    if steps != [] {
      var before := Run(t, steps[..|steps| - 1]);
      RunKeepsSound(t, steps[..|steps| - 1]);
      match steps[|steps| - 1]
      case Claim(policy, routingOverride, request, order) =>
        if ValidPolicy(policy) && order != [] { ClaimKeepsSound(policy, before, routingOverride, request, order); }
      case Close(now) => OutcomeKeepsSound(before, now);
      case Environment(_, _, _) =>
    }
  }

  lemma {:induction false} NothingUnresolved(decisions: seq<Decision>, outcomes: seq<Outcome>)
    requires forall i | 0 <= i < |decisions| :: !Unresolved(decisions[i], outcomes)
    ensures UnresolvedDecisions(decisions, outcomes) == []
  {
    if decisions != [] { NothingUnresolved(decisions[..|decisions| - 1], outcomes); }
  }

  /** Before a canary, everything earlier is resolved. */
  lemma ResolvedBeforeCanary(t: Task, n: nat)
    requires Sound(t) && n < |t.decisions| && t.decisions[n].kind == ApplyCanary
    ensures UnresolvedDecisions(t.decisions[..n], t.outcomes) == []
  {
    forall i | 0 <= i < n ensures !Unresolved(t.decisions[i], t.outcomes) {
      if t.decisions[i].kind == ApplyCanary { assert ClosedWell(t.decisions[i], t.outcomes); }
    }
    NothingUnresolved(t.decisions[..n], t.outcomes);
  }

  lemma {:induction false} AtMostOneUnresolvedIn(t: Task, n: nat)
    requires Sound(t) && n <= |t.decisions|
    ensures |UnresolvedDecisions(t.decisions[..n], t.outcomes)| <= 1
  {
    if n > 0 {
      AtMostOneUnresolvedIn(t, n - 1);
      assert t.decisions[..n][..n - 1] == t.decisions[..n - 1];
      if t.decisions[n - 1].kind == ApplyCanary { ResolvedBeforeCanary(t, n - 1); }
    }
  }

  /** At most one canary is ever waiting for its outcome. */
  lemma {:induction false} AtMostOneUnresolved(t: Task, steps: seq<Step>)
    requires t.decisions == [] && t.outcomes == []
    ensures |UnresolvedDecisions(Run(t, steps).decisions, Run(t, steps).outcomes)| <= 1
  {
    RunKeepsSound(t, steps);
    var r := Run(t, steps);
    AtMostOneUnresolvedIn(r, |r.decisions|);
    assert r.decisions[..|r.decisions|] == r.decisions;
  }

  // --------------------------------------------------------------- stopping

  function Canaries(decisions: seq<Decision>): seq<Decision> {
    if decisions == [] then []
    else
      var n := |decisions| - 1;
      Canaries(decisions[..n]) + (if decisions[n].kind == ApplyCanary then [decisions[n]] else [])
  }

  lemma CanariesAppend(decisions: seq<Decision>, d: Decision)
    ensures Canaries(decisions + [d]) == Canaries(decisions) + (if d.kind == ApplyCanary then [d] else [])
  {
    assert (decisions + [d])[..|decisions|] == decisions;
  }

  lemma NextAfterAdverse(t: Task, s: Step)
    requires SomeAdverse(t.outcomes)
    ensures Canaries(Next(t, s).decisions) == Canaries(t.decisions)
    ensures SomeAdverse(Next(t, s).outcomes)
  {
    var i :| 0 <= i < |t.outcomes| && t.outcomes[i].adverse;
    assert Next(t, s).outcomes[i].adverse;
    if s.Claim? {
      var record := ClaimRecord(s.policy, t, s.routingOverride, s.request, s.order);
      if record.Some? { CanariesAppend(t.decisions, record.value); }
    }
  }

  /** After one adverse outcome no run, however long, decides another canary. */
  lemma {:induction false} NoCanaryAfterAdverse(t: Task, steps: seq<Step>)
    requires SomeAdverse(t.outcomes)
    ensures Canaries(Run(t, steps).decisions) == Canaries(t.decisions)
    ensures SomeAdverse(Run(t, steps).outcomes)
  {
    if steps != [] {
      NoCanaryAfterAdverse(t, steps[..|steps| - 1]);
      NextAfterAdverse(Run(t, steps[..|steps| - 1]), steps[|steps| - 1]);
    }
  }

  /** The histories only grow. */
  lemma {:induction false} HistoriesGrow(t: Task, steps: seq<Step>)
    ensures t.decisions <= Run(t, steps).decisions && t.outcomes <= Run(t, steps).outcomes
  {
    if steps != [] { HistoriesGrow(t, steps[..|steps| - 1]); }
  }

  // --------------------------------------------------------------- dispatch

  /** A claim dispatches to an eligible target; to one other than the baseline only with
      a recorded, assigned canary decision whose order moves that target to the front,
      with the policy on, nothing unresolved and nothing adverse. */
  lemma DispatchIsEligible(p: Policy, t: Task, routingOverride: bool, req: Option<Request>, order: seq<string>)
    requires ValidPolicy(p) && order != []
    ensures var target := DispatchTarget(p, t, routingOverride, req, order);
            && target in order
            && (target != order[0] ==>
                  && !routingOverride && p.enabled && !p.killSwitch && !Stops(t)
                  && req.Some? && Assigned(req.value.word, 5)
                  && exists d :: d in AfterClaim(p, t, routingOverride, req, order).decisions
                       && ValidDecision(d) && d.kind == ApplyCanary && d.dispatch == target
                       && d.attempt == t.attempts + 1
                       && d.baselineOrder == order && d.canaryOrder == MoveToFront(order, target))
  {
    var record := ClaimRecord(p, t, routingOverride, req, order);
    if record.Some? {
      RecordIsValid(p, t, req.value, order);
      var d := record.value;
      assert d.canaryOrder[0] in d.canaryOrder;
      if d.dispatch != order[0] {
        assert d in AfterClaim(p, t, routingOverride, req, order).decisions;
      }
    }
  }

  /** A claim leaves the baseline target exactly when every guard agrees: the policy is
      on, the histories are accepted and call for no stop, nothing pins the target, the
      report selects an alternative, and the task falls into the cohort. */
  lemma DispatchExact(p: Policy, t: Task, routingOverride: bool, req: Option<Request>, order: seq<string>)
    requires ValidPolicy(p) && order != []
    ensures DispatchTarget(p, t, routingOverride, req, order) != order[0] <==>
              && !routingOverride && req.Some? && ValidRequest(t, req.value, order)
              && p.enabled && !p.killSwitch && Reconstructible(t) && !Stops(t)
              && t.status != NeedsResume && !t.resumeRequested
              && req.value.report.decision == SelectAlternative && Assigned(req.value.word, 5)
  {
  }
}
