/** What a report alone tells: the ordered previews and the wake lists rebuild the
    final gate, the appended evidence is accounted for, and failure restores the
    baseline. */
module GateLedger {
  import opened Options
  import opened GateModel
  import opened GateTable
  import opened GateLineage

  /** The gate a decision key stands for. */
  function GateOf(key: DecisionKey): Gate {
    Gate(key.resource, key, WakeKey(key.resource, key.resetAt), key.resetAt)
  }

  function ActiveKey(st: State, r: ResourceKey): Option<DecisionKey> {
    match ActiveGate(st.gates, r)
    case None => None
    case Some(g) => Some(g.decisionKey)
  }

  /** A reader of the report: the gate it believes active, how many entries of each
      wake list it has used, and the task disposition it would show. */
  datatype Reader = Reader(
    active: Option<DecisionKey>, registered: nat, replaced: nat, removed: nat, disposition: Disposition)

  /** The entries a report must show for a gate that opens, moves or goes. */
  function OpenedEntry(key: DecisionKey): WakeEntry {
    WakeEntry(key.resource, key, GateOf(key).wakeKey, key.resetAt)
  }

  function MovedEntry(previous: DecisionKey, key: DecisionKey): Replacement {
    Replacement(key.resource, previous, GateOf(previous).wakeKey, key, GateOf(key).wakeKey)
  }

  function GoneEntry(key: DecisionKey): Removal {
    Removal(key.resource, key, GateOf(key).wakeKey)
  }

  /** Read one event result; `None` when the wake lists do not tell the same story. */
  function ReadResult(
    c: Reader, r: EventResult,
    register: seq<WakeEntry>, replace: seq<Replacement>, remove: seq<Removal>): Option<Reader>
  {
    match r.preview
    case WouldDefer =>
      if c.active.None? && c.registered < |register| && register[c.registered] == OpenedEntry(r.decisionKey)
      then Some(c.(active := Some(r.decisionKey), registered := c.registered + 1, disposition := Deferred))
      else None
    case WouldSupersede =>
      if c.replaced < |replace| && c.active.Some? && replace[c.replaced] == MovedEntry(c.active.value, r.decisionKey)
      then Some(c.(active := Some(r.decisionKey), replaced := c.replaced + 1, disposition := Deferred))
      else None
    case WouldExclude =>
      if c.active.None? then Some(c.(active := Some(r.decisionKey), disposition := HardExcluded))
      else if c.replaced < |replace| && replace[c.replaced] == MovedEntry(c.active.value, r.decisionKey)
      then Some(c.(active := Some(r.decisionKey), replaced := c.replaced + 1, disposition := HardExcluded))
      else None
    case WouldRelease =>
      if c.removed < |remove| && c.active.Some? && remove[c.removed] == GoneEntry(c.active.value)
      then Some(c.(active := None, removed := c.removed + 1, disposition := Released))
      else None
    case FailClosed => None
    case NoChange => Some(c)
    case CoveredGlobally => Some(c)
    case WouldRevalidate => Some(c)
  }

  function ReadResults(start: Option<DecisionKey>, results: seq<EventResult>,
                       register: seq<WakeEntry>, replace: seq<Replacement>, remove: seq<Removal>): Option<Reader>
  {
    if results == [] then Some(Reader(start, 0, 0, 0, Unchanged))
    else
      match ReadResults(start, results[..|results| - 1], register, replace, remove)
      case None => None
      case Some(c) => ReadResult(c, results[|results| - 1], register, replace, remove)
  }

  /** Longer wake lists do not change what was already read. */
  lemma {:induction false} ReadingIsMonotone(
    start: Option<DecisionKey>, results: seq<EventResult>,
    register: seq<WakeEntry>, replace: seq<Replacement>, remove: seq<Removal>,
    register': seq<WakeEntry>, replace': seq<Replacement>, remove': seq<Removal>)
    requires register <= register' && replace <= replace' && remove <= remove'
    requires ReadResults(start, results, register, replace, remove).Some?
    ensures ReadResults(start, results, register', replace', remove')
            == ReadResults(start, results, register, replace, remove)
  {
    if results != [] {
      ReadingIsMonotone(start, results[..|results| - 1], register, replace, remove, register', replace', remove');
    }
  }

  /** An event without effect says so: its result claims no change of the gate. */
  ghost predicate Silent(v: Verdict) {
    v.Idle? ==> v.preview in {NoChange, CoveredGlobally, WouldRevalidate} && v.reason != AboveThreshold
  }

  lemma IdleIsSilent(req: Request, ev: Event, st: State)
    ensures Silent(Judge(req, ev, st))
  {
  }

  /** The active gate is the one its decision key stands for. */
  ghost predicate WholeGate(st: State, r: ResourceKey) {
    var active := ActiveGate(st.gates, r);
    active.Some? ==> active.value == GateOf(active.value.decisionKey)
  }

  lemma BoundGateIsWhole(st: State, r: ResourceKey)
    requires AllBound(st.gates, st.history)
    ensures WholeGate(st, r)
  {
    ActiveGateCharacterized(st.gates, r);
    if ActiveGate(st.gates, r).Some? { assert Bound(ActiveGate(st.gates, r).value, st.history); }
  }

  function ReaderOf(st: State, r: ResourceKey): Reader {
    Reader(ActiveKey(st, r), |st.register|, |st.replace|, |st.remove|, st.disposition)
  }

  ghost predicate ListsGrow(st: State, st': State) {
    st.register <= st'.register && st.replace <= st'.replace && st.remove <= st'.remove
  }

  lemma OpenReads(req: Request, ev: Event, index: nat, st: State, v: Verdict)
    requires GatesUnique(st.gates) && WholeGate(st, req.resource) && Admitted(req, ev, st, v) && v.Open?
    ensures var st' := Commit(st, ev.decision, v);
            && ListsGrow(st, st')
            && ReadResult(ReaderOf(st, req.resource), ResultOf(ev, index, v), st'.register, st'.replace, st'.remove)
               == Some(ReaderOf(st', req.resource))
  {
    SetKey(st.gates, ev.decision);
  }

  lemma SupersedeReads(req: Request, ev: Event, index: nat, st: State, v: Verdict)
    requires GatesUnique(st.gates) && WholeGate(st, req.resource) && Admitted(req, ev, st, v) && v.Supersede?
    ensures var st' := Commit(st, ev.decision, v);
            && ListsGrow(st, st')
            && ReadResult(ReaderOf(st, req.resource), ResultOf(ev, index, v), st'.register, st'.replace, st'.remove)
               == Some(ReaderOf(st', req.resource))
  {
    SetKey(st.gates, ev.decision);
  }

  lemma ExcludeReads(req: Request, ev: Event, index: nat, st: State, v: Verdict)
    requires GatesUnique(st.gates) && WholeGate(st, req.resource) && Admitted(req, ev, st, v) && v.Exclude?
    ensures var st' := Commit(st, ev.decision, v);
            && ListsGrow(st, st')
            && ReadResult(ReaderOf(st, req.resource), ResultOf(ev, index, v), st'.register, st'.replace, st'.remove)
               == Some(ReaderOf(st', req.resource))
  {
    SetKey(st.gates, ev.decision);
  }

  lemma ReleaseReads(req: Request, ev: Event, index: nat, st: State, v: Verdict)
    requires GatesUnique(st.gates) && WholeGate(st, req.resource) && Admitted(req, ev, st, v) && v.Release?
    ensures var st' := Commit(st, ev.decision, v);
            && ListsGrow(st, st')
            && ReadResult(ReaderOf(st, req.resource), ResultOf(ev, index, v), st'.register, st'.replace, st'.remove)
               == Some(ReaderOf(st', req.resource))
  {
    ClearKey(st.gates, req.resource);
  }

  lemma SetKey(gates: seq<Gate>, d: Decision)
    requires GatesUnique(gates)
    ensures ActiveGate(WithActive(gates, d), d.resource) == Some(Project(d))
  {
    SetGateLookup(gates, d);
  }

  lemma ClearKey(gates: seq<Gate>, r: ResourceKey)
    requires GatesUnique(gates) && ActiveGate(gates, r).Some?
    ensures ActiveGate(WithoutGate(gates, ActiveGate(gates, r).value), r) == None
  {
    ActiveGateCharacterized(gates, r);
    RemoveGateLookup(gates, ActiveGate(gates, r).value);
  }

  /** Reading the result of a committed event follows the state. */
  lemma CommitReads(req: Request, ev: Event, index: nat, st: State, v: Verdict)
    requires GatesUnique(st.gates) && WholeGate(st, req.resource)
    requires Admitted(req, ev, st, v) && Silent(v) && !v.Rejected?
    ensures var st' := Commit(st, ev.decision, v);
            && ListsGrow(st, st')
            && ReadResult(ReaderOf(st, req.resource), ResultOf(ev, index, v), st'.register, st'.replace, st'.remove)
               == Some(ReaderOf(st', req.resource))
  {
    match v
    case Open => OpenReads(req, ev, index, st, v);
    case Exclude(_) => ExcludeReads(req, ev, index, st, v);
    case Supersede(_) => SupersedeReads(req, ev, index, st, v);
    case Release(_) => ReleaseReads(req, ev, index, st, v);
    case RecordAllow =>
    case Idle(_, _) =>
  }

  lemma {:induction false} StepReads(req: Request, k: nat)
    requires ValidRequest(req) && k < |req.events| && !ProgressAt(req, k + 1).failed
    ensures var st := ProgressAt(req, k).state; var st' := ProgressAt(req, k + 1).state;
            && ListsGrow(st, st')
            && ResultsAt(req, k + 1) == ResultsAt(req, k) + [ResultAt(req, k)]
            && ReadResult(ReaderOf(st, req.resource), ResultAt(req, k), st'.register, st'.replace, st'.remove)
               == Some(ReaderOf(st', req.resource))
  {
    var st := ProgressAt(req, k).state;
    var ev := req.events[k];
    var v := VerdictAt(req, k);
    RunKeepsInvariant(req, k);
    JudgeAdmits(req, ev, st);
    IdleIsSilent(req, ev, st);
    BoundGateIsWhole(st, req.resource);
    CommitReads(req, ev, k, st, v);
  }

  lemma ReadOneMore(start: Option<DecisionKey>, results: seq<EventResult>, r: EventResult, before: State, after: State)
    requires ListsGrow(before, after)
    requires ReadResults(start, results, before.register, before.replace, before.remove).Some?
    ensures ReadResults(start, results + [r], after.register, after.replace, after.remove)
            == ReadResult(ReadResults(start, results, before.register, before.replace, before.remove).value, r,
                          after.register, after.replace, after.remove)
  {
    assert (results + [r])[..|results|] == results;
    ReadingIsMonotone(start, results, before.register, before.replace, before.remove,
                      after.register, after.replace, after.remove);
  }

  /** Reading the results of a non-failing run against its wake lists succeeds, uses
      every entry, and ends at the run's own active gate and disposition. */
  lemma {:induction false} ReportReplays(req: Request, k: nat)
    requires ValidRequest(req) && k <= |req.events| && !ProgressAt(req, k).failed
    ensures var st := ProgressAt(req, k).state;
            ReadResults(ActiveKey(Initial(req.baseline), req.resource), ResultsAt(req, k),
                        st.register, st.replace, st.remove)
            == Some(ReaderOf(st, req.resource))
  {
    if k > 0 {
      StillRunning(req, k - 1, k);
      ReportReplays(req, k - 1);
      StepReads(req, k - 1);
      ReadOneMore(ActiveKey(Initial(req.baseline), req.resource), ResultsAt(req, k - 1), ResultAt(req, k - 1),
                  ProgressAt(req, k - 1).state, ProgressAt(req, k).state);
    }
  }

  /** The key a reader ends with is the whole active gate. */
  lemma {:induction false} ReadKeyIsWholeGate(req: Request, k: nat)
    requires ValidRequest(req) && k <= |req.events|
    ensures var st := ProgressAt(req, k).state;
            ActiveGate(st.gates, req.resource) ==
              match ActiveKey(st, req.resource) case None => None case Some(key) => Some(GateOf(key))
  {
    RunKeepsInvariant(req, k);
    BoundGateIsWhole(ProgressAt(req, k).state, req.resource);
  }

  // ---------------------------------------------------------- conservation

  /** Does this result say that its event's decision became evidence? */
  predicate Appended(r: EventResult) {
    || r.preview in {WouldDefer, WouldSupersede, WouldExclude, WouldRelease}
    || (r.preview == NoChange && r.reason == AboveThreshold)
  }

  function AppendedDecisions(results: seq<EventResult>, events: seq<Event>): seq<Decision>
    requires |results| <= |events|
  {
    if results == [] then []
    else
      var n := |results| - 1;
      AppendedDecisions(results[..n], events) + (if Appended(results[n]) then [events[n].decision] else [])
  }

  lemma CommitAppends(ev: Event, index: nat, st: State, v: Verdict)
    requires Silent(v) && !v.Rejected?
    ensures Commit(st, ev.decision, v).history
            == st.history + (if Appended(ResultOf(ev, index, v)) then [ev.decision] else [])
    ensures PreviewOf(v) != FailClosed
  {
  }

  lemma AppendedAppend(results: seq<EventResult>, r: EventResult, events: seq<Event>)
    requires |results| < |events|
    ensures AppendedDecisions(results + [r], events)
            == AppendedDecisions(results, events) + (if Appended(r) then [events[|results|].decision] else [])
  {
    assert (results + [r])[..|results|] == results;
  }

  /** One more event adds one result; it fails the run or commits, never both. */
  lemma {:induction false} StepConserves(req: Request, k: nat)
    requires k < |req.events| && !ProgressAt(req, k).failed
    ensures ResultsAt(req, k + 1) == ResultsAt(req, k) + [ResultAt(req, k)]
    ensures ResultAt(req, k).index == k
    ensures ResultAt(req, k).preview == FailClosed <==> ProgressAt(req, k + 1).failed
    ensures ProgressAt(req, k + 1).failed ==> ProgressAt(req, k + 1).state == Initial(req.baseline)
    ensures !ProgressAt(req, k + 1).failed ==>
              ProgressAt(req, k + 1).state.history ==
                ProgressAt(req, k).state.history + (if Appended(ResultAt(req, k)) then [req.events[k].decision] else [])
  {
    var st := ProgressAt(req, k).state;
    var v := VerdictAt(req, k);
    IdleIsSilent(req, req.events[k], st);
    if !v.Rejected? { CommitAppends(req.events[k], k, st, v); }
  }

  /** The final evidence is the baseline's followed by exactly the decisions of the
      events whose result says so, in order. */
  lemma {:induction false} EvidenceIsConserved(req: Request, k: nat)
    requires k <= |req.events| && !ProgressAt(req, k).failed
    ensures |ResultsAt(req, k)| == k
    ensures ProgressAt(req, k).state.history
            == req.baseline.history + AppendedDecisions(ResultsAt(req, k), req.events)
  {
    if k > 0 {
      StillRunning(req, k - 1, k);
      EvidenceIsConserved(req, k - 1);
      StepConserves(req, k - 1);
      AppendedAppend(ResultsAt(req, k - 1), ResultAt(req, k - 1), req.events);
    }
  }

  // -------------------------------------------------------------- rollback

  /** Results are numbered, and fail_closed marks exactly the last one of a failed run. */
  ghost predicate OnlyLastFails(results: seq<EventResult>, failed: bool) {
    forall i | 0 <= i < |results| ::
      results[i].index == i && (results[i].preview == FailClosed <==> failed && i == |results| - 1)
  }

  lemma OneMoreResult(results: seq<EventResult>, r: EventResult)
    requires OnlyLastFails(results, false) && r.index == |results|
    ensures OnlyLastFails(results + [r], r.preview == FailClosed)
  {
  }

  lemma {:induction false} ResultsAreNumbered(req: Request, k: nat)
    requires k <= |req.events|
    ensures |ResultsAt(req, k)| <= k && OnlyLastFails(ResultsAt(req, k), ProgressAt(req, k).failed)
  {
    if k > 0 {
      ResultsAreNumbered(req, k - 1);
      if !ProgressAt(req, k - 1).failed {
        EvidenceIsConserved(req, k - 1);
        StepConserves(req, k - 1);
        OneMoreResult(ResultsAt(req, k - 1), ResultAt(req, k - 1));
      }
    }
  }

  lemma {:induction false} FailedStateIsBaseline(req: Request, k: nat)
    requires k <= |req.events| && ProgressAt(req, k).failed
    ensures ResultsAt(req, k) != [] && ProgressAt(req, k).state == Initial(req.baseline)
  {
    if ProgressAt(req, k - 1).failed { FailedStateIsBaseline(req, k - 1); }
  }

  /** A failing event is the last one reported and leaves the baseline state. */
  lemma {:induction false} FailureRestoresBaseline(req: Request, k: nat)
    requires k <= |req.events|
    ensures OnlyLastFails(ResultsAt(req, k), ProgressAt(req, k).failed)
    ensures ProgressAt(req, k).failed ==> ResultsAt(req, k) != [] && ProgressAt(req, k).state == Initial(req.baseline)
  {
    ResultsAreNumbered(req, k);
    if ProgressAt(req, k).failed { FailedStateIsBaseline(req, k); }
  }

  /** A report that says fail_closed shows the untouched baseline with empty wake
      lists; any other report replays to its own final gate. */
  lemma {:induction false} ReportIsAllOrNothing(req: Request)
    requires ValidRequest(req)
    ensures var rep := ReportOf(req);
            var start := ActiveKey(Initial(req.baseline), req.resource);
            if rep.preview == FailClosed then rep.state == Initial(req.baseline)
            else
              var c := ReadResults(start, rep.results, rep.state.register, rep.state.replace, rep.state.remove);
              && c.Some?
              && c.value.active == ActiveKey(rep.state, req.resource)
              && c.value.registered == |rep.state.register|
              && c.value.replaced == |rep.state.replace|
              && c.value.removed == |rep.state.remove|
              && c.value.disposition == rep.state.disposition
              && |rep.results| <= |req.events|
              && rep.state.history == req.baseline.history + AppendedDecisions(rep.results, req.events)
  {
    var n := |req.events|;
    FailureRestoresBaseline(req, n);
    if req.typedEvaluation && SequenceFailure(req, 0).None? && !ProgressAt(req, n).failed {
      ReportReplays(req, n);
      EvidenceIsConserved(req, n);
    }
  }

  // -------------------------------------------------------- event ordering

  ghost predicate InSequence(req: Request, k: nat)
    requires k < |req.events|
  {
    var ev := req.events[k];
    && (k > 0 ==> req.events[k - 1].observedAt <= ev.observedAt)
    && ev.predecessor == (if k == 0 then None else Some(req.events[k - 1].id))
    && FindObservation(req.observations, ev.observationId).Some?
    && ev.observedAt <= req.evaluatedAt
  }

  /** The sequence check passes exactly when every event is in sequence. */
  lemma {:induction false} SequenceCheckExact(req: Request, k: nat)
    requires k <= |req.events|
    ensures SequenceFailure(req, k).None? <==> forall i | k <= i < |req.events| :: InSequence(req, i)
    decreases |req.events| - k
  {
    if k < |req.events| {
      SequenceCheckExact(req, k + 1);
      assert SequenceFailure(req, k).None? <==> InSequence(req, k) && SequenceFailure(req, k + 1).None?;
    }
  }

  lemma {:induction false} OrderedUpTo(req: Request, i: nat, j: nat)
    requires forall m | 0 <= m < |req.events| :: InSequence(req, m)
    requires i <= j < |req.events|
    ensures req.events[i].observedAt <= req.events[j].observedAt
    decreases j
  {
    if i < j {
      OrderedUpTo(req, i, j - 1);
      assert InSequence(req, j);
    }
  }

  /** A replay only starts on events whose times never decrease. */
  lemma SequenceCheckOrders(req: Request, i: nat, j: nat)
    requires SequenceFailure(req, 0).None? && i <= j < |req.events|
    ensures req.events[i].observedAt <= req.events[j].observedAt <= req.evaluatedAt
  {
    SequenceCheckExact(req, 0);
    OrderedUpTo(req, i, j);
    assert InSequence(req, j);
  }
}
