/** The replay itself: one object whose gate table, evidence history, wake lists and
    disposition every event updates in place. */
module GateReplay {
  import opened Options
  import opened GateModel

  lemma {:induction false} ReplaceSplits(gates: seq<Gate>, g: Gate, i: nat)
    requires i <= |gates| && forall j | 0 <= j < i :: gates[j].resource != g.resource
    ensures ReplaceOrAppend(gates, g) == gates[..i] + ReplaceOrAppend(gates[i..], g)
  {
    if i > 0 {
      ReplaceSplits(gates[1..], g, i - 1);
      assert gates[1..][..i - 1] == gates[1..i] && gates[1..][i - 1..] == gates[i..];
      assert gates[..i] == [gates[0]] + gates[1..i];
    }
  }

  lemma {:induction false} WithoutSplits(gates: seq<Gate>, g: Gate, i: nat)
    requires i <= |gates| && forall j | 0 <= j < i :: gates[j] != g
    ensures WithoutGate(gates, g) == gates[..i] + WithoutGate(gates[i..], g)
  {
    if i > 0 {
      WithoutSplits(gates[1..], g, i - 1);
      assert gates[1..][..i - 1] == gates[1..i] && gates[1..][i - 1..] == gates[i..];
      assert gates[..i] == [gates[0]] + gates[1..i];
    }
  }

  class Replay {
    var gates: seq<Gate>
    var history: seq<Decision>
    var register: seq<WakeEntry>
    var replace: seq<Replacement>
    var remove: seq<Removal>
    var disposition: Disposition

    ghost function Now(): State
      reads this
    {
      State(gates, history, register, replace, remove, disposition)
    }

    constructor (b: Baseline)
      ensures Now() == Initial(b)
    {
      gates, history := b.gates, b.history;
      register, replace, remove := [], [], [];
      disposition := Unchanged;
    }

    method Reset(b: Baseline)
      modifies this
      ensures Now() == Initial(b)
    {
      gates, history := b.gates, b.history;
      register, replace, remove := [], [], [];
      disposition := Unchanged;
    }

    method SetActiveGate(d: Decision)
      modifies `gates
      ensures gates == WithActive(old(gates), d)
    {
      var i := 0;
      while i < |gates| && gates[i].resource != d.resource
        invariant 0 <= i <= |gates| && gates == old(gates)
        invariant forall j | 0 <= j < i :: gates[j].resource != d.resource
      {
        i := i + 1;
      }
      ReplaceSplits(gates, Project(d), i);
      if i == |gates| {
        assert gates[i..] == [] && gates[..i] == gates;
        gates := gates + [Project(d)];
      } else {
        assert gates[i..][0] == gates[i];
        gates := gates[i := Project(d)];
        assert gates == old(gates)[..i] + ([Project(d)] + old(gates)[i..][1..]);
      }
      assert gates == ReplaceOrAppend(old(gates), Project(d));
      gates := SortGates(gates);
    }

    method RemoveGate(g: Gate)
      requires g in gates
      modifies `gates
      ensures gates == WithoutGate(old(gates), g)
    {
      var i := 0;
      while gates[i] != g
        invariant 0 <= i < |gates| && gates == old(gates)
        invariant g in gates[i..]
        invariant forall j | 0 <= j < i :: gates[j] != g
        decreases |gates| - i
      {
        i := i + 1;
      }
      WithoutSplits(gates, g, i);
      gates := gates[..i] + gates[i + 1..];
      assert old(gates)[i..][1..] == old(gates)[i + 1..];
    }

    method AppendDecision(d: Decision)
      modifies `history
      ensures history == old(history) + [d]
    {
      history := history + [d];
    }

    method SupersedeActiveGate(ev: Event, active: Gate) returns (v: Verdict)
      modifies this
      ensures v == JudgeSupersede(ev, active)
      ensures Now() == Commit(old(Now()), ev.decision, v)
    {
      var d := ev.decision;
      if d.resetAt <= active.resetAt { return Rejected(SupersedingResetNotLater); }
      if d.supersedes != Some(active.decisionKey) { return Rejected(SupersedingPredecessorMismatch); }
      if d.action != Defer { return Rejected(SupersedingRequiresDefer); }
      AppendDecision(d);
      SetActiveGate(d);
      replace := replace + [ReplacementOf(active, d)];
      disposition := Deferred;
      return Supersede(active);
    }

    method ApplyWakeRevalidation(req: Request, ev: Event, active: Option<Gate>) returns (v: Verdict)
      requires ev.kind.WakeRevalidation?
      requires active.Some? ==> active.value in gates
      modifies this
      ensures v == JudgeWake(req, ev, ev.kind.revalidates, active)
      ensures Now() == Commit(old(Now()), ev.decision, v)
    {
      if active.None? || ev.kind.revalidates != active.value.decisionKey { return Rejected(WakeGateMismatch); }
      var g := active.value;
      if ev.observedAt < g.resetAt + req.grace { return Idle(WouldRevalidate, WakeBeforeGrace); }
      if ev.evidence.kind == Recovery {
        if ev.decision.action != Allow { return Rejected(RecoveryRequiresAllow); }
        AppendDecision(ev.decision);
        RemoveGate(g);
        remove := remove + [RemovalOf(g)];
        disposition := Released;
        return Release(g);
      }
      if ev.evidence.kind == Threshold {
        v := SupersedeActiveGate(ev, g);
        return;
      }
      return Rejected(WakeKindInvalid);
    }

    method ApplyExhaustion(ev: Event, active: Option<Gate>) returns (v: Verdict)
      modifies this
      ensures v == JudgeExhaustion(ev, active)
      ensures Now() == Commit(old(Now()), ev.decision, v)
    {
      var d := ev.decision;
      if active.Some? {
        if d.resetAt <= active.value.resetAt { return Rejected(ExclusionResetNotLater); }
        if d.supersedes != Some(active.value.decisionKey) { return Rejected(ExclusionPredecessorMismatch); }
        replace := replace + [ReplacementOf(active.value, d)];
      } else if d.supersedes.Some? {
        return Rejected(ExclusionPredecessorWithoutGate);
      }
      AppendDecision(d);
      SetActiveGate(d);
      disposition := HardExcluded;
      return Exclude(active);
    }

    method ApplyDecision(ev: Event, active: Option<Gate>) returns (v: Verdict)
      modifies this
      ensures v == JudgeDecision(ev, active, old(history))
      ensures Now() == Commit(old(Now()), ev.decision, v)
    {
      var d := ev.decision;
      var existing := FindDecision(history, d.Key());
      if existing.Some? {
        if existing.value != d { return Rejected(ConflictingDuplicate); }
        return Idle(NoChange, IdempotentDuplicate);
      }
      if ev.evidence.kind == ConfirmedExhaustion {
        v := ApplyExhaustion(ev, active);
        return;
      }
      if d.action == Allow {
        AppendDecision(d);
        return RecordAllow;
      }
      if d.action != Defer { return Rejected(UnsupportedAction); }
      if active.Some? {
        v := SupersedeActiveGate(ev, active.value);
        return;
      }
      if d.supersedes.Some? { return Rejected(NewGatePredecessorWithoutGate); }
      AppendDecision(d);
      SetActiveGate(d);
      register := register + [EntryOf(d)];
      disposition := Deferred;
      return Open;
    }

    method ApplyEvent(req: Request, ev: Event, index: nat) returns (result: EventResult, ghost v: Verdict)
      modifies this
      ensures v == Judge(req, ev, old(Now()))
      ensures result == ResultOf(ev, index, v)
      ensures Now() == Commit(old(Now()), ev.decision, v)
    {
      var latest := LatestObservation(req.observations, ev.observedAt);
      var verdict;
      if latest.None? {
        verdict := Rejected(ObservationMissing);
      } else if FindObservation(req.observations, ev.observationId) != latest {
        verdict := Rejected(ObservationNotLatest);
      } else if latest.value.status.UnknownStatus? {
        verdict := Rejected(GlobalGateUnknown);
      } else if latest.value.status.Gated? {
        verdict := JudgeGated(req, ev, latest.value.status.resetAt);
      } else {
        verdict := ApplyTargetEvent(req, ev);
      }
      v := verdict;
      result := ResultOf(ev, index, verdict);
    }

    method ApplyTargetEvent(req: Request, ev: Event) returns (v: Verdict)
      modifies this
      ensures v == JudgeTarget(req, ev, old(Now()))
      ensures Now() == Commit(old(Now()), ev.decision, v)
    {
      if ev.decision.action == CoveredByGlobal { return Rejected(CoveredWithoutGlobalGate); }
      var failure := AuthorityFailure(req);
      if failure.Some? { return Rejected(failure.value); }
      failure := BindingFailure(req, ev);
      if failure.Some? { return Rejected(failure.value); }
      failure := EvidenceFailure(ev);
      if failure.Some? { return Rejected(failure.value); }
      var active := ActiveGate(gates, ev.decision.resource);
      if ev.kind.WakeRevalidation? {
        FoundGateIsMember(gates, ev.decision.resource);
        v := ApplyWakeRevalidation(req, ev, active);
      } else {
        v := ApplyDecision(ev, active);
      }
    }
  }

  lemma {:induction false} FoundGateIsMember(gates: seq<Gate>, r: ResourceKey)
    ensures ActiveGate(gates, r).Some? ==> ActiveGate(gates, r).value in gates
  {
    if gates != [] { FoundGateIsMember(gates[1..], r); }
  }

  /** The sequence check: one pass with the previous event's identity and time. */
  method CheckSequence(req: Request) returns (failure: Option<Reason>)
    ensures failure == SequenceFailure(req, 0)
  {
    var previousId: Option<string> := None;
    var previousAt: Option<Time> := None;
    for k := 0 to |req.events|
      invariant previousId == if k == 0 then None else Some(req.events[k - 1].id)
      invariant previousAt == if k == 0 then None else Some(req.events[k - 1].observedAt)
      invariant SequenceFailure(req, 0) == SequenceFailure(req, k)
    {
      var ev := req.events[k];
      if previousAt.Some? && ev.observedAt < previousAt.value { return Some(SequenceOutOfOrder); }
      if ev.predecessor != previousId { return Some(PredecessorBroken); }
      if FindObservation(req.observations, ev.observationId).None? { return Some(ObservationMissing); }
      if req.evaluatedAt < ev.observedAt { return Some(EventAfterReplayClock); }
      previousId, previousAt := Some(ev.id), Some(ev.observedAt);
    }
    return None;
  }

  /** Replays every event in order; the first failure restores the baseline and stops. */
  method BuildReport(req: Request) returns (report: Report)
    ensures report == ReportOf(req)
  {
    var replay := new Replay(req.baseline);
    if !req.typedEvaluation {
      return Report(NoChange, RollbackStopsTypedEvaluation, Initial(req.baseline), []);
    }
    var failure := CheckSequence(req);
    if failure.Some? {
      return Report(FailClosed, failure.value, Initial(req.baseline), []);
    }
    report := ReplayEvents(req, replay);
  }

  method ReplayEvents(req: Request, replay: Replay) returns (report: Report)
    requires replay.Now() == Initial(req.baseline)
    requires req.typedEvaluation && SequenceFailure(req, 0).None?
    modifies replay
    ensures report == ReportOf(req)
  {
    var preview, reason := NoChange, NoLifecycleChange;
    var results: seq<EventResult> := [];
    var k, failed := 0, false;
    while k < |req.events| && !failed
      invariant 0 <= k <= |req.events|
      invariant ProgressAt(req, k) == Progress(replay.Now(), failed) && ResultsAt(req, k) == results
      invariant Shows(results, preview, reason)
    {
      var result := ReplayOne(req, k, replay);
      results := results + [result];
      preview, reason := result.preview, result.reason;
      failed := preview == FailClosed;
      k := k + 1;
    }
    if failed { FailedRunStays(req, k, |req.events|); }
    report := Report(preview, reason,
                     State(replay.gates, replay.history, replay.register,
                           replay.replace, replay.remove, replay.disposition),
                     results);
  }

  /** The preview and reason shown are those of the last result. */
  ghost predicate Shows(results: seq<EventResult>, preview: Preview, reason: Reason) {
    if results == [] then preview == NoChange && reason == NoLifecycleChange
    else preview == results[|results| - 1].preview && reason == results[|results| - 1].reason
  }

  method ReplayOne(req: Request, k: nat, replay: Replay) returns (result: EventResult)
    requires k < |req.events| && ProgressAt(req, k) == Progress(replay.Now(), false)
    modifies replay
    ensures ProgressAt(req, k + 1) == Progress(replay.Now(), result.preview == FailClosed)
    ensures ResultsAt(req, k + 1) == ResultsAt(req, k) + [result]
  {
    ghost var v;
    result, v := replay.ApplyEvent(req, req.events[k], k);
    ProgressStep(req, k, v);
    if result.preview == FailClosed { replay.Reset(req.baseline); }
  }

  lemma ProgressStep(req: Request, k: nat, v: Verdict)
    requires k < |req.events| && !ProgressAt(req, k).failed
    requires v == VerdictAt(req, k)
    ensures var p := ProgressAt(req, k); var ev := req.events[k];
            && ResultsAt(req, k + 1) == ResultsAt(req, k) + [ResultOf(ev, k, v)]
            && ProgressAt(req, k + 1) ==
                 if PreviewOf(v) == FailClosed then Progress(Initial(req.baseline), true)
                 else Progress(Commit(p.state, ev.decision, v), false)
  {
    VerdictShows(req, req.events[k], ProgressAt(req, k).state);
  }

  /** Only a rejected event previews fail_closed. */
  lemma VerdictShows(req: Request, ev: Event, st: State)
    ensures PreviewOf(Judge(req, ev, st)) == FailClosed <==> Judge(req, ev, st).Rejected?
  {
  }

  lemma {:induction false} FailedRunStays(req: Request, i: nat, k: nat)
    requires i <= k <= |req.events| && ProgressAt(req, i).failed
    ensures ProgressAt(req, k) == ProgressAt(req, i) && ResultsAt(req, k) == ResultsAt(req, i)
    decreases k
  {
    if i < k { FailedRunStays(req, i, k - 1); }
  }
}
