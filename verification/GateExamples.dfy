/** Runs that show the limits of the lifecycle replay.  Every request is valid and no
    event fails. */
module GateExamples {
  import opened Options
  import opened GateModel
  import opened GateLineage
  import opened GateClosure
  import opened GateEvidence

  const UNCOVERED := Coverage(NotCovered, None)

  function DeferAt(observedAt: Time, resetAt: Time, supersedes: Option<DecisionKey>): Decision {
    Decision("p", "m", 1, observedAt, resetAt, Defer, UNCOVERED, supersedes)
  }

  const EARLIER := DeferAt(50, 100, None)
  const FRESH := DeferAt(10, 20, None)
  const AGAIN := DeferAt(50, 100, Some(FRESH.Key()))
  const LOW := Evidence(Threshold, Current, Exact, "c", 0.0, Percent, 1.0, Percent)
  const OPENING := Event("a", DecisionEvent, None, 10, "g", FRESH, LOW)
  const WAKING := Event("b", WakeRevalidation(FRESH.Key()), Some("a"), 50, "g", AGAIN, LOW)
  const OBSERVED := Observation("g", Allowed, 0)

  const RUN := Request(
    1, Percent, Baseline([], [EARLIER]), "p", "m", "c", None,
    [OBSERVED], 60, 0, true, [OPENING, WAKING])

  /** The request passes the checks before the replay, and its observations are in order. */
  ghost predicate Reaches(req: Request) {
    && req.typedEvaluation && SequenceFailure(req, 0).None? && Ordered(req.events)
    && Chronological(req.observations)
  }

  lemma ExampleIsValid()
    ensures ValidRequest(RUN) && Deduplicated(RUN) && Reaches(RUN) && !Timely(RUN)
  {
    assert FindObservation([OBSERVED], "g") == Some(OBSERVED);
    assert SequenceFailure(RUN, 2).None?;
    assert SequenceFailure(RUN, 1).None?;
    assert [EARLIER][..0] == [];
    assert EARLIER in RUN.baseline.history && IsDefer(EARLIER, 1);
  }

  lemma ExampleOpens()
    ensures Judge(RUN, OPENING, Initial(RUN.baseline)) == Open
  {
    assert FindObservation([OBSERVED], "g") == Some(OBSERVED);
    assert FindDecision([EARLIER], FRESH.Key()) == FindDecision([EARLIER][1..], FRESH.Key());
  }

  lemma ExampleProgress()
    ensures ProgressAt(RUN, 1).state.history == [EARLIER, FRESH]
    ensures ProgressAt(RUN, 1).state.gates == [Project(FRESH)]
    ensures !ProgressAt(RUN, 1).failed
  {
    ExampleOpens();
    assert ProgressAt(RUN, 0) == Progress(Initial(RUN.baseline), false);
    assert InsertGate(Project(FRESH), []) == [Project(FRESH)];
  }

  lemma ExampleWakes()
    ensures Judge(RUN, WAKING, ProgressAt(RUN, 1).state) == Supersede(Project(FRESH))
    ensures ProgressAt(RUN, 2).state.history == [EARLIER, FRESH, AGAIN]
    ensures !ProgressAt(RUN, 2).failed
  {
    ExampleProgress();
    assert FindObservation([OBSERVED], "g") == Some(OBSERVED);
  }

  /** The run reopens the resource and resurrects a baseline key, so it is neither
      accepted again nor free of duplicate defers. */
  lemma {:induction false} ReopenedRunIsNotABaseline()
    ensures ValidRequest(RUN) && Deduplicated(RUN) && Reaches(RUN) && !ProgressAt(RUN, 2).failed
    ensures Reopens(RUN, 0) && !AcceptedAgain(ProgressAt(RUN, 2).state)
    ensures ResurrectsBaselineKey(RUN, 1) && !DefersUnique(ProgressAt(RUN, 2).state.history)
  {
    ExampleIsValid();
    ExampleOpens();
    ExampleWakes();
    assert LatestDefer([EARLIER], 1) == Some(0);
    assert RUN.events[0] == OPENING && RUN.events[1] == WAKING;
    assert EARLIER in RUN.baseline.history;
    assert Reopens(RUN, 0);
    ClosureExactlyWithoutReopening(RUN);
    assert SomeReopens(RUN, 2);
    assert RUN.baseline.history[0] == EARLIER;
    assert InBaseline(RUN, AGAIN.Key());
    DefersUniqueUnlessResurrected(RUN, 2);
    assert ResurrectsBaselineKey(RUN, 1);
    assert SomeResurrection(RUN, 2);
  }

  const HIGH := Evidence(Recovery, Current, Exact, "c", 2.0, Percent, 1.0, Percent)
  const RECOVERED := Event("a", DecisionEvent, None, 10, "g", FRESH, HIGH)
  const ABOVE := Request(
    1, Percent, Baseline([], []), "p", "m", "c", None, [OBSERVED], 60, 0, true, [RECOVERED])

  /** A decision event measured above its threshold opens a gate, because its evidence
      is of the recovery kind and its decision a defer. */
  lemma GateOpensAboveThreshold()
    ensures ValidRequest(ABOVE) && Deduplicated(ABOVE) && Reaches(ABOVE)
    ensures RECOVERED.evidence.remaining > RECOVERED.evidence.threshold
    ensures !ProgressAt(ABOVE, 1).failed && ProgressAt(ABOVE, 1).state.gates == [Project(FRESH)]
  {
    assert FindObservation([OBSERVED], "g") == Some(OBSERVED);
    assert ProgressAt(ABOVE, 0) == Progress(Initial(ABOVE.baseline), false);
    assert Judge(ABOVE, RECOVERED, Initial(ABOVE.baseline)) == Open;
    assert InsertGate(Project(FRESH), []) == [Project(FRESH)];
  }

  function AllowAt(coverage: Coverage): Decision {
    Decision("p", "m", 1, 50, 100, Allow, coverage, None)
  }

  const RECORDED := AllowAt(UNCOVERED)
  const REPEATED := AllowAt(Coverage(NotEvaluated, None))
  const RELEASING := Event("a", WakeRevalidation(FRESH.Key()), None, 50, "g", REPEATED, HIGH)
  const RELEASED := Request(
    1, Percent, Baseline([Project(FRESH)], [FRESH, RECORDED]), "p", "m", "c", None,
    [OBSERVED], 60, 0, true, [RELEASING])

  lemma ReleaseIsValid()
    ensures ValidRequest(RELEASED) && Deduplicated(RELEASED) && Reaches(RELEASED)
  {
    var h := RELEASED.baseline.history;
    assert h[..0] == [] && h[..1] == [FRESH];
    assert LatestDefer([FRESH], 1) == Some(0);
    assert LatestDefer(h, 1) == LatestDefer(h[..1], 1);
    assert FirstOrLinked(h, 0) && FirstOrLinked(h, 1);
  }

  lemma ReleaseIsCommitted()
    ensures VerdictAt(RELEASED, 0) == Release(Project(FRESH)) && !ProgressAt(RELEASED, 1).failed
  {
    assert ProgressAt(RELEASED, 0) == Progress(Initial(RELEASED.baseline), false);
    assert FindObservation([OBSERVED], "g") == Some(OBSERVED);
    assert FindDecision(RELEASED.baseline.history, FRESH.Key()) == Some(FRESH);
  }

  /** A release whose allow repeats the key of a baseline allow with other content: nothing
      reopens, the bindings hold again, and yet the outcome is no acceptable baseline. */
  lemma ReleaseConflictsWithBaseline()
    ensures ValidRequest(RELEASED) && Deduplicated(RELEASED) && Reaches(RELEASED) && !ProgressAt(RELEASED, 1).failed
    ensures AcceptedAgain(ProgressAt(RELEASED, 1).state) && !FullyAcceptedAgain(ProgressAt(RELEASED, 1).state)
  {
    ReleaseIsValid();
    ReleaseIsCommitted();
    assert RELEASED.baseline.history[1] == RECORDED && RELEASED.events[0] == RELEASING;
    assert !Reopens(RELEASED, 0) && WakesOverConflict(RELEASED, 0);
    ClosureExactlyWithoutReopening(RELEASED);
    FullClosure(RELEASED);
  }
}
