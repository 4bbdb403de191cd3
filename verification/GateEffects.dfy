/** What an accepted event does to the state, and what every reported reason means. */
module GateEffects {
  import opened Options
  import opened GateModel
  import opened GateTable
  import opened GateLineage
  import opened GateClosure
  import opened GateAdmission

  // ---------------------------------------------------------------- effects

  function GateFor(d: Decision): Gate {
    Gate(d.resource, d.Key(), WakeKey(d.resource, d.resetAt), d.resetAt)
  }

  /** The decision is recorded and its gate takes the resource's slot, the others staying. */
  ghost predicate Installs(st: State, st': State, d: Decision) {
    && st'.history == st.history + [d]
    && GatesUnique(st'.gates) && SortedByResource(st'.gates)
    && forall g :: g in st'.gates <==> g == GateFor(d) || (g in st.gates && g.resource != d.resource)
  }

  ghost predicate ListsStay(st: State, st': State) {
    st'.register == st.register && st'.replace == st.replace && st'.remove == st.remove
  }

  /** The decision takes over from the active gate, which the replace list shows. */
  ghost predicate Moves(st: State, st': State, d: Decision, previous: Gate) {
    && Installs(st, st', d)
    && st'.register == st.register && st'.remove == st.remove
    && st'.replace == st.replace + [Replacement(
         d.resource, previous.decisionKey, previous.wakeKey, d.Key(), WakeKey(d.resource, d.resetAt))]
  }

  ghost predicate Opens(st: State, st': State, d: Decision) {
    && Installs(st, st', d)
    && st'.replace == st.replace && st'.remove == st.remove
    && st'.register == st.register + [WakeEntry(d.resource, d.Key(), WakeKey(d.resource, d.resetAt), d.resetAt)]
  }

  ghost predicate Releases(st: State, st': State, d: Decision, previous: Gate) {
    && st'.history == st.history + [d]
    && (forall g :: g in st'.gates <==> g in st.gates && g.resource != previous.resource)
    && st'.register == st.register && st'.replace == st.replace
    && st'.remove == st.remove + [Removal(previous.resource, previous.decisionKey, previous.wakeKey)]
  }

  /** What an admissible event leaves and previews. */
  ghost predicate Effect(req: Request, ev: Event, st: State, st': State, preview: Preview) {
    var d := ev.decision;
    var active := ActiveGate(st.gates, req.resource);
    if exists reset :: CoveredBy(req, ev, reset) then st' == st && preview == CoveredGlobally
    else if ev.kind.WakeRevalidation? then
      if BeforeGrace(req, ev, active) then st' == st && preview == WouldRevalidate
      else if d.action == Allow then
        active.Some? && Releases(st, st', d, active.value) && st'.disposition == Released && preview == WouldRelease
      else
        active.Some? && Moves(st, st', d, active.value) && st'.disposition == Deferred && preview == WouldSupersede
    else if KeyRecorded(st.history, d) then st' == st && preview == NoChange
    else if d.action == Allow then st' == st.(history := st.history + [d]) && preview == NoChange
    else if ev.evidence.kind == ConfirmedExhaustion then
      && st'.disposition == HardExcluded && preview == WouldExclude
      && (if active.Some? then Moves(st, st', d, active.value)
          else Installs(st, st', d) && ListsStay(st, st'))
    else
      && st'.disposition == Deferred
      && (if active.Some? then Moves(st, st', d, active.value) && preview == WouldSupersede
          else Opens(st, st', d) && preview == WouldDefer)
  }

  lemma SetInstalls(st: State, d: Decision)
    requires GatesUnique(st.gates)
    ensures var gates := WithActive(st.gates, d);
            && GatesUnique(gates) && SortedByResource(gates)
            && forall g :: g in gates <==> g == GateFor(d) || (g in st.gates && g.resource != d.resource)
  {
    SetGateLookup(st.gates, d);
  }

  lemma RemoveReleases(st: State, r: ResourceKey)
    requires GatesUnique(st.gates) && ActiveGate(st.gates, r).Some?
    ensures forall g ::
              g in WithoutGate(st.gates, ActiveGate(st.gates, r).value) <==> g in st.gates && g.resource != r
  {
    ActiveGateCharacterized(st.gates, r);
    var active := ActiveGate(st.gates, r).value;
    RemoveGateLookup(st.gates, active);
    forall g | g in st.gates && g.resource == r ensures g == active { ActiveGateIsMember(st.gates, g); }
  }

  /** The verdict on an admissible event, branch by branch. */
  lemma AdmissibleVerdict(req: Request, ev: Event, st: State)
    requires ValidRequest(req) && ValidObservations(req) && Admissible(req, ev, st)
    ensures var v := Judge(req, ev, st); var d := ev.decision; var active := ActiveGate(st.gates, req.resource);
            if exists reset :: CoveredBy(req, ev, reset) then v == Idle(CoveredGlobally, CoveringReset)
            else
              && d.resource == req.resource
              && (if ev.kind.WakeRevalidation? then
                    if BeforeGrace(req, ev, active) then v == Idle(WouldRevalidate, WakeBeforeGrace)
                    else
                      && active.Some?
                      && v == if d.action == Allow then Release(active.value) else Supersede(active.value)
                  else if KeyRecorded(st.history, d) then v == Idle(NoChange, IdempotentDuplicate)
                  else if d.action == Allow then v == RecordAllow
                  else if ev.evidence.kind == ConfirmedExhaustion then v == Exclude(active)
                  else v == if active.Some? then Supersede(active.value) else Open)
  {
    AdmissionExact(req, ev, st);
    RecordedExact(st.history, ev.decision);
    if reset :| CoveredBy(req, ev, reset) {
      UnderExact(req, ev, Gated(reset));
    } else {
      UnderExact(req, ev, Allowed);
    }
  }

  lemma {:induction false} AdmissibleEffect(req: Request, ev: Event, st: State)
    requires ValidRequest(req) && ValidObservations(req) && Admissible(req, ev, st) && GatesUnique(st.gates)
    ensures var v := Judge(req, ev, st);
            Effect(req, ev, st, Commit(st, ev.decision, v), PreviewOf(v))
  {
    AdmissibleVerdict(req, ev, st);
    SetInstalls(st, ev.decision);
    ActiveGateCharacterized(st.gates, req.resource);
    if ActiveGate(st.gates, req.resource).Some? { RemoveReleases(st, req.resource); }
  }

  /** Every event of a run that goes on is admissible, has exactly that effect, and is
      reported under its own position, id and key. */
  lemma {:induction false} RunStepEffect(req: Request, k: nat)
    requires ValidRequest(req) && ValidObservations(req)
    requires k < |req.events| && !ProgressAt(req, k + 1).failed
    ensures var st := ProgressAt(req, k).state; var ev := req.events[k];
            && Admissible(req, ev, st)
            && Effect(req, ev, st, ProgressAt(req, k + 1).state, ResultAt(req, k).preview)
            && ResultAt(req, k).index == k && ResultAt(req, k).id == ev.id
            && ResultAt(req, k).decisionKey == ev.decision.Key()
  {
    var v := CommittedStep(req, k);
    AdmissionExact(req, req.events[k], ProgressAt(req, k).state);
    AdmissibleEffect(req, req.events[k], ProgressAt(req, k).state);
  }

  /** A decision event whose key is recorded: the very same decision passes and changes
      nothing, a different one fails the run. */
  lemma {:induction false} RepeatedKeyExact(req: Request, k: nat)
    requires ValidRequest(req) && ValidObservations(req)
    requires k < |req.events| && !ProgressAt(req, k).failed
    requires var ev := req.events[k]; var h := ProgressAt(req, k).state.history;
             ev.kind.DecisionEvent? && Cleared(req, ev) && KeyRecorded(h, ev.decision) && ConflictFree(h)
    ensures var p := ProgressAt(req, k); var p' := ProgressAt(req, k + 1);
            if req.events[k].decision in p.state.history
            then p' == p && ResultAt(req, k).preview == NoChange
            else p'.failed && ResultAt(req, k).preview == FailClosed
  {
    var ev := req.events[k];
    var st := ProgressAt(req, k).state;
    RecordedWhereConflictFree(st.history, ev.decision);
    NotCoveredWhenOpen(req, ev);
    RunFailsExactly(req, k);
    if !ProgressAt(req, k + 1).failed { RunStepEffect(req, k); }
  }

  lemma NotCoveredWhenOpen(req: Request, ev: Event)
    requires ValidObservations(req) && Under(req, ev, Allowed)
    ensures forall reset :: !CoveredBy(req, ev, reset)
  {
    UnderExact(req, ev, Allowed);
    forall reset ensures !CoveredBy(req, ev, reset) { UnderExact(req, ev, Gated(reset)); }
  }
}
