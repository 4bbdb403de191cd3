/** When the outcome of a run is again an acceptable baseline, and when the
    defer decisions it holds stay unique. */
module GateClosure {
  import opened Options
  import opened GateModel
  import opened GateTable
  import opened GateLineage

  // --------------------------------------------------------------- closure

  /** Event `k` opens a fresh gate although the history already holds a defer. */
  ghost predicate Reopens(req: Request, k: nat)
    requires k < |req.events|
  {
    var st := ProgressAt(req, k).state;
    var v := VerdictAt(req, k);
    (v == Open || v == Exclude(None)) && LatestDefer(st.history, req.resource).Some?
  }

  ghost predicate SomeReopens(req: Request, k: nat)
    requires k <= |req.events|
  {
    exists i | 0 <= i < k :: Reopens(req, i)
  }

  lemma {:induction false} StepKeepsUnbroken(req: Request, k: nat)
    requires ValidRequest(req) && k < |req.events| && !ProgressAt(req, k + 1).failed
    ensures UnbrokenHistory(ProgressAt(req, k + 1).state.history) <==>
              UnbrokenHistory(ProgressAt(req, k).state.history) && !Reopens(req, k)
  {
    var st := ProgressAt(req, k).state;
    var ev := req.events[k];
    var v := VerdictAt(req, k);
    RunKeepsInvariant(req, k);
    JudgeAdmits(req, ev, st);
    if !v.Idle? {
      LinkedHistoryAppend(st.history, ev.decision);
      LinkedAtEnd(st.history, ev.decision);
      AdmittedLinks(req, ev, st, v);
    }
  }

  lemma UnbrokenPrefix(h: seq<Decision>, longer: seq<Decision>)
    requires h <= longer && UnbrokenHistory(longer)
    ensures UnbrokenHistory(h)
  {
    forall i | 0 <= i < |h| ensures FirstOrLinked(h, i) {
      assert FirstOrLinked(longer, i);
      assert h[..i] == longer[..i];
    }
  }

  lemma {:induction false} UnbrokenWithoutReopening(req: Request, k: nat)
    requires ValidRequest(req) && k <= |req.events| && !ProgressAt(req, k).failed
    requires forall i | 0 <= i < k :: !Reopens(req, i)
    ensures UnbrokenHistory(ProgressAt(req, k).state.history)
  {
    if k > 0 {
      StillRunning(req, k - 1, k);
      UnbrokenWithoutReopening(req, k - 1);
      StepKeepsUnbroken(req, k - 1);
    }
  }

  lemma {:induction false} BrokenStays(req: Request, i: nat, k: nat)
    requires i <= k <= |req.events| && !ProgressAt(req, k).failed
    requires !UnbrokenHistory(ProgressAt(req, i).state.history)
    ensures !UnbrokenHistory(ProgressAt(req, k).state.history)
  {
    HistoryGrows(req, i, k);
    if UnbrokenHistory(ProgressAt(req, k).state.history) {
      UnbrokenPrefix(ProgressAt(req, i).state.history, ProgressAt(req, k).state.history);
    }
  }

  lemma ReopeningBreaks(req: Request, i: nat)
    requires ValidRequest(req) && i < |req.events| && !ProgressAt(req, i + 1).failed && Reopens(req, i)
    ensures !UnbrokenHistory(ProgressAt(req, i + 1).state.history)
  {
    StepKeepsUnbroken(req, i);
  }

  lemma {:induction false} ReopenedStaysBroken(req: Request, i: nat, k: nat)
    requires ValidRequest(req) && i < k <= |req.events| && !ProgressAt(req, k).failed && Reopens(req, i)
    ensures !UnbrokenHistory(ProgressAt(req, k).state.history)
  {
    StillRunning(req, i + 1, k);
    ReopeningBreaks(req, i);
    BrokenStays(req, i + 1, k);
  }

  /** The history stays unbroken exactly while nothing reopens. */
  lemma {:induction false} UnbrokenUnlessReopened(req: Request, k: nat)
    requires ValidRequest(req) && k <= |req.events| && !ProgressAt(req, k).failed
    ensures UnbrokenHistory(ProgressAt(req, k).state.history) <==> !SomeReopens(req, k)
  {
    if SomeReopens(req, k) {
      var i :| 0 <= i < k && Reopens(req, i);
      ReopenedStaysBroken(req, i, k);
    } else {
      UnbrokenWithoutReopening(req, k);
    }
  }

  ghost predicate AcceptedAgain(st: State) {
    BaselineAccepted(Baseline(st.gates, st.history))
  }

  /** The outcome of a non-failing run passes the baseline binding check again
      exactly when no event opened a fresh gate over an earlier defer. */
  lemma {:induction false} ClosureExactlyWithoutReopening(req: Request)
    requires ValidRequest(req) && !ProgressAt(req, |req.events|).failed
    ensures AcceptedAgain(ProgressAt(req, |req.events|).state) <==> !SomeReopens(req, |req.events|)
  {
    RunKeepsInvariant(req, |req.events|);
    UnbrokenUnlessReopened(req, |req.events|);
  }

  // ----------------------------------------------- full baseline acceptance

  /** No two decisions share a key without being the same decision. */
  ghost predicate ConflictFree(h: seq<Decision>) {
    forall i | 0 <= i < |h| :: !Conflicts(h[..i], h[i])
  }

  /** `h` holds another decision with the key of `d`. */
  ghost predicate Conflicts(h: seq<Decision>, d: Decision) {
    exists i | 0 <= i < |h| :: h[i].Key() == d.Key() && h[i] != d
  }

  ghost predicate WakeKeysUnique(gates: seq<Gate>) {
    forall i, j | 0 <= i < j < |gates| :: gates[i].wakeKey != gates[j].wakeKey
  }

  /** Everything checked of a baseline: gate table, deduplicated evidence, bindings. */
  ghost predicate FullyAccepted(b: Baseline) {
    && GatesUnique(b.gates) && WakeKeysUnique(b.gates)
    && ValidHistory(b.history) && ConflictFree(b.history)
    && BaselineAccepted(b)
  }

  ghost predicate FullyAcceptedAgain(st: State) {
    FullyAccepted(Baseline(st.gates, st.history))
  }

  /** Event `k` appends a decision whose key an unequal earlier decision already has. */
  ghost predicate AppendsConflict(req: Request, k: nat)
    requires k < |req.events|
  {
    var st := ProgressAt(req, k).state;
    var d := req.events[k].decision;
    var v := VerdictAt(req, k);
    !v.Rejected? && !v.Idle? && Conflicts(st.history, d)
  }

  ghost predicate SomeConflict(req: Request, k: nat)
    requires k <= |req.events|
  {
    exists i | 0 <= i < k :: AppendsConflict(req, i)
  }

  lemma {:induction false} AbsentKey(h: seq<Decision>, key: DecisionKey)
    ensures FindDecision(h, key).None? <==> forall d | d in h :: d.Key() != key
  {
    if h != [] {
      AbsentKey(h[1..], key);
      assert forall d | d in h :: d == h[0] || d in h[1..];
    }
  }

  lemma ConflictFreeAppend(h: seq<Decision>, d: Decision)
    ensures ConflictFree(h + [d]) <==> ConflictFree(h) && !Conflicts(h, d)
  {
    var e := h + [d];
    assert e[..|h|] == h && e[|h|] == d;
    forall i | 0 <= i < |h| ensures e[..i] == h[..i] && e[i] == h[i] {
    }
    if ConflictFree(e) {
      assert !Conflicts(e[..|h|], e[|h|]);
      forall i | 0 <= i < |h| ensures !Conflicts(h[..i], h[i]) { assert !Conflicts(e[..i], e[i]); }
    }
  }

  lemma {:induction false} ConflictFreeStep(req: Request, k: nat)
    requires k < |req.events| && !ProgressAt(req, k + 1).failed
    ensures ConflictFree(ProgressAt(req, k + 1).state.history) <==>
              ConflictFree(ProgressAt(req, k).state.history) && !AppendsConflict(req, k)
  {
    ConflictFreeAppend(ProgressAt(req, k).state.history, req.events[k].decision);
  }

  lemma ConflictFreePrefix(h: seq<Decision>, longer: seq<Decision>)
    requires h <= longer && ConflictFree(longer)
    ensures ConflictFree(h)
  {
    forall i | 0 <= i < |h| ensures !Conflicts(h[..i], h[i]) {
      assert !Conflicts(longer[..i], longer[i]);
      assert h[..i] == longer[..i];
    }
  }

  lemma {:induction false} ConflictFreeWithoutAppend(req: Request, k: nat)
    requires ConflictFree(req.baseline.history) && k <= |req.events| && !ProgressAt(req, k).failed
    requires forall i | 0 <= i < k :: !AppendsConflict(req, i)
    ensures ConflictFree(ProgressAt(req, k).state.history)
  {
    if k > 0 {
      StillRunning(req, k - 1, k);
      ConflictFreeWithoutAppend(req, k - 1);
      ConflictFreeStep(req, k - 1);
    }
  }

  lemma {:induction false} ConflictStays(req: Request, i: nat, k: nat)
    requires i <= k <= |req.events| && !ProgressAt(req, k).failed
    requires !ConflictFree(ProgressAt(req, i).state.history)
    ensures !ConflictFree(ProgressAt(req, k).state.history)
  {
    HistoryGrows(req, i, k);
    if ConflictFree(ProgressAt(req, k).state.history) {
      ConflictFreePrefix(ProgressAt(req, i).state.history, ProgressAt(req, k).state.history);
    }
  }

  lemma {:induction false} AppendedConflictStays(req: Request, i: nat, k: nat)
    requires i < k <= |req.events| && !ProgressAt(req, k).failed && AppendsConflict(req, i)
    ensures !ConflictFree(ProgressAt(req, k).state.history)
  {
    StillRunning(req, i + 1, k);
    ConflictFreeStep(req, i);
    ConflictStays(req, i + 1, k);
  }

  lemma {:induction false} ConflictFreeUnlessAppended(req: Request, k: nat)
    requires ConflictFree(req.baseline.history) && k <= |req.events| && !ProgressAt(req, k).failed
    ensures ConflictFree(ProgressAt(req, k).state.history) <==> !SomeConflict(req, k)
  {
    if SomeConflict(req, k) {
      var i :| 0 <= i < k && AppendsConflict(req, i);
      AppendedConflictStays(req, i, k);
    } else {
      ConflictFreeWithoutAppend(req, k);
    }
  }

  /** Equal keys of two events carry equal decisions. */
  ghost predicate EventsAgree(events: seq<Event>) {
    forall i, j | 0 <= i < |events| && 0 <= j < |events| && events[i].decision.Key() == events[j].decision.Key() ::
      events[i].decision == events[j].decision
  }

  /** The two duplicate checks of request validation, of the evidence and of the events. */
  ghost predicate Deduplicated(req: Request) {
    ConflictFree(req.baseline.history) && EventsAgree(req.events)
  }

  /** Event `k` is a wake that takes effect although the baseline evidence holds another
      decision with its decision's key. */
  ghost predicate WakesOverConflict(req: Request, k: nat)
    requires k < |req.events|
  {
    var ev := req.events[k];
    var v := VerdictAt(req, k);
    !v.Rejected? && !v.Idle? && ev.kind.WakeRevalidation? && Conflicts(req.baseline.history, ev.decision)
  }

  ghost predicate SomeWakeConflict(req: Request, k: nat)
    requires k <= |req.events|
  {
    exists i | 0 <= i < k :: WakesOverConflict(req, i)
  }

  lemma CommitAppendsDecision(st: State, d: Decision, v: Verdict)
    ensures var after := Commit(st, d, v).history; after == st.history || after == st.history + [d]
  {
  }

  lemma StepAppendsDecision(req: Request, k: nat)
    requires ValidRequest(req) && k < |req.events| && !ProgressAt(req, k + 1).failed
    ensures var before, after := ProgressAt(req, k).state.history, ProgressAt(req, k + 1).state.history;
            after == before || after == before + [req.events[k].decision]
  {
    var v := CommittedStep(req, k);
    CommitAppendsDecision(ProgressAt(req, k).state, req.events[k].decision, v);
  }

  /** Whatever a run appended came with one of its events. */
  lemma {:induction false} AppendsAreEvents(req: Request, k: nat, i: nat) returns (j: nat)
    requires ValidRequest(req) && k <= |req.events| && !ProgressAt(req, k).failed
    requires |req.baseline.history| <= i < |ProgressAt(req, k).state.history|
    ensures j < k && ProgressAt(req, k).state.history[i] == req.events[j].decision
  {
    StillRunning(req, k - 1, k);
    StepAppendsDecision(req, k - 1);
    if i < |ProgressAt(req, k - 1).state.history| {
      j := AppendsAreEvents(req, k - 1, i);
    } else {
      j := k - 1;
    }
  }

  /** A conflict arises only by a wake, and only with the baseline's own evidence. */
  lemma {:induction false} ConflictOnlyByWake(req: Request, k: nat)
    requires ValidRequest(req) && EventsAgree(req.events)
    requires k < |req.events| && !ProgressAt(req, k + 1).failed
    ensures AppendsConflict(req, k) <==> WakesOverConflict(req, k)
  {
    var v := CommittedStep(req, k);
    var h := ProgressAt(req, k).state.history;
    var d := req.events[k].decision;
    if AppendsConflict(req, k) {
      AbsentKey(h, d.Key());
      var i :| 0 <= i < |h| && h[i].Key() == d.Key() && h[i] != d;
      assert h[i] in h;
      if |req.baseline.history| <= i { var j := AppendsAreEvents(req, k, i); }
      assert req.baseline.history[i] == h[i];
    }
    if WakesOverConflict(req, k) {
      var i :| 0 <= i < |req.baseline.history|
               && req.baseline.history[i].Key() == d.Key() && req.baseline.history[i] != d;
      assert h[i] == req.baseline.history[i];
    }
  }

  /** The evidence stays free of conflicts exactly while no wake takes effect over a
      conflict with the baseline. */
  lemma {:induction false} ConflictFreeExact(req: Request, k: nat)
    requires ValidRequest(req) && Deduplicated(req) && k <= |req.events| && !ProgressAt(req, k).failed
    ensures ConflictFree(ProgressAt(req, k).state.history) <==> !SomeWakeConflict(req, k)
  {
    ConflictFreeUnlessAppended(req, k);
    forall i | 0 <= i < k ensures AppendsConflict(req, i) <==> WakesOverConflict(req, i) {
      StillRunning(req, i + 1, k);
      ConflictOnlyByWake(req, i);
    }
  }

  lemma BoundGatesHaveUniqueWakes(gates: seq<Gate>, h: seq<Decision>)
    requires GatesUnique(gates) && AllBound(gates, h)
    ensures WakeKeysUnique(gates)
  {
    forall i, j | 0 <= i < j < |gates| ensures gates[i].wakeKey != gates[j].wakeKey {
      assert Bound(gates[i], h) && Bound(gates[j], h);
      assert gates[i].resource != gates[j].resource;
    }
  }

  /** The outcome passes every baseline check again exactly when, besides, no wake took
      effect over a conflict with the baseline evidence. */
  lemma {:induction false} FullClosure(req: Request)
    requires ValidRequest(req) && Deduplicated(req)
    requires !ProgressAt(req, |req.events|).failed
    ensures FullyAcceptedAgain(ProgressAt(req, |req.events|).state) <==>
              !SomeReopens(req, |req.events|) && !SomeWakeConflict(req, |req.events|)
  {
    var n := |req.events|;
    var st := ProgressAt(req, n).state;
    RunKeepsInvariant(req, n);
    ClosureExactlyWithoutReopening(req);
    ConflictFreeExact(req, n);
    BoundGatesHaveUniqueWakes(st.gates, st.history);
  }

  // ------------------------------------------------------------ uniqueness

  /** No key is carried by two defers. */
  ghost predicate DefersUnique(h: seq<Decision>) {
    forall i | 0 <= i < |h| && h[i].action == Defer :: !HoldsDefer(h[..i], h[i].Key())
  }

  ghost predicate HoldsDefer(h: seq<Decision>, key: DecisionKey) {
    exists i | 0 <= i < |h| :: h[i].action == Defer && h[i].Key() == key
  }

  lemma DefersUniqueAppend(h: seq<Decision>, d: Decision)
    ensures DefersUnique(h + [d]) <==> DefersUnique(h) && (d.action == Defer ==> !HoldsDefer(h, d.Key()))
  {
    var e := h + [d];
    assert e[..|h|] == h && e[|h|] == d;
    forall i | 0 <= i < |h| ensures e[..i] == h[..i] && e[i] == h[i] {
    }
    if DefersUnique(e) {
      assert d.action == Defer ==> !HoldsDefer(e[..|h|], e[|h|].Key());
      forall i | 0 <= i < |h| && h[i].action == Defer ensures !HoldsDefer(h[..i], h[i].Key()) {
        assert !HoldsDefer(e[..i], e[i].Key());
      }
    }
  }

  /** In an unbroken history the resets of a resource's defers grow strictly. */
  lemma {:induction false} UnbrokenResetsGrow(h: seq<Decision>, i: nat, j: nat)
    requires UnbrokenHistory(h) && i < j < |h|
    requires h[i].action == Defer && IsDefer(h[j], h[i].resource)
    ensures h[i].resetAt < h[j].resetAt
    decreases j
  {
    assert FirstOrLinked(h, j);
    var p := LatestDefer(h[..j], h[j].resource);
    assert h[..j][i] == h[i];
    if p.value != i {
      assert h[..j][p.value] == h[p.value];
      UnbrokenResetsGrow(h, i, p.value);
    }
  }

  lemma UnbrokenDefersUnique(h: seq<Decision>)
    requires UnbrokenHistory(h)
    ensures DefersUnique(h)
  {
    forall j | 0 <= j < |h| && h[j].action == Defer ensures !HoldsDefer(h[..j], h[j].Key()) {
      if HoldsDefer(h[..j], h[j].Key()) {
        var i :| 0 <= i < j && h[i].action == Defer && h[i].Key() == h[j].Key();
        UnbrokenResetsGrow(h, i, j);
      }
    }
  }

  /** Event times never decrease; the sequence check establishes it. */
  ghost predicate Ordered(events: seq<Event>) {
    forall i, j | 0 <= i < j < |events| :: events[i].observedAt <= events[j].observedAt
  }

  ghost predicate InBaseline(req: Request, key: DecisionKey) {
    HoldsDefer(req.baseline.history, key)
  }

  /** Event `k` is a wake that supersedes with the key of a baseline defer. */
  ghost predicate ResurrectsBaselineKey(req: Request, k: nat)
    requires k < |req.events|
  {
    var ev := req.events[k];
    && VerdictAt(req, k).Supersede?
    && ev.kind.WakeRevalidation?
    && InBaseline(req, ev.decision.Key())
  }

  ghost predicate SomeResurrection(req: Request, k: nat)
    requires k <= |req.events|
  {
    exists i | 0 <= i < k :: ResurrectsBaselineKey(req, i)
  }

  /** The defer is the scoped resource's, observed by `now` and before the active gate resets. */
  ghost predicate ObservedBefore(d: Decision, r: ResourceKey, active: Option<Gate>, now: Time) {
    IsDefer(d, r) && d.observedAt <= now && (active.Some? ==> d.observedAt < active.value.resetAt)
  }

  /** So is every defer the run itself appended. */
  ghost predicate AppendedBefore(req: Request, st: State, now: Time) {
    forall i | |req.baseline.history| <= i < |st.history| && st.history[i].action == Defer ::
      ObservedBefore(st.history[i], req.resource, ActiveGate(st.gates, req.resource), now)
  }

  lemma StepAppendsBefore(req: Request, ev: Event, st: State, v: Verdict, now: Time)
    requires GatesUnique(st.gates) && req.baseline.history <= st.history
    requires Admitted(req, ev, st, v) && AppendedBefore(req, st, now)
    requires ValidDecision(ev.decision) && now <= ev.observedAt
    ensures AppendedBefore(req, Commit(st, ev.decision, v), ev.observedAt)
  {
    if v.Open? || v.Exclude? || v.Supersede? {
      SetGateLookup(st.gates, ev.decision);
    } else if v.Release? {
      ActiveGateCharacterized(st.gates, req.resource);
      RemoveGateLookup(st.gates, v.previous);
    }
  }

  ghost function Now(req: Request, k: nat): Time
    requires k <= |req.events| && |req.events| > 0
  {
    if k == 0 then req.events[0].observedAt else req.events[k - 1].observedAt
  }

  lemma {:induction false} RunAppendsBefore(req: Request, k: nat)
    requires ValidRequest(req) && Ordered(req.events) && |req.events| > 0
    requires k <= |req.events| && !ProgressAt(req, k).failed
    ensures AppendedBefore(req, ProgressAt(req, k).state, Now(req, k))
  {
    if k > 0 {
      var v := CommittedStep(req, k - 1);
      RunAppendsBefore(req, k - 1);
      StepAppendsBefore(req, req.events[k - 1], ProgressAt(req, k - 1).state, v, Now(req, k - 1));
    }
  }

  /** A committed defer repeats the key of an earlier defer only by resurrection. */
  lemma {:induction false} RepeatOnlyByResurrection(req: Request, k: nat, i: nat)
    requires ValidRequest(req) && Ordered(req.events)
    requires k < |req.events| && !ProgressAt(req, k + 1).failed
    requires var st := ProgressAt(req, k).state; var v := VerdictAt(req, k);
             && !v.Idle? && i < |st.history| && st.history[i].action == Defer
             && st.history[i].Key() == req.events[k].decision.Key()
    ensures ResurrectsBaselineKey(req, k)
  {
    var st := ProgressAt(req, k).state;
    var ev := req.events[k];
    RunKeepsInvariant(req, k);
    RunAppendsBefore(req, k);
    JudgeAdmits(req, ev, st);
    AbsentKey(st.history, ev.decision.Key());
    assert st.history[i] in st.history;
    if i < |req.baseline.history| {
      assert req.baseline.history[i] == st.history[i];
    }
  }

  lemma BaselineKeyStays(req: Request, st: State, key: DecisionKey)
    requires req.baseline.history <= st.history && InBaseline(req, key)
    ensures HoldsDefer(st.history, key)
  {
    var i :| 0 <= i < |req.baseline.history|
             && req.baseline.history[i].action == Defer && req.baseline.history[i].Key() == key;
    assert st.history[i] == req.baseline.history[i];
  }

  lemma {:induction false} StepKeepsDefersUnique(req: Request, k: nat)
    requires ValidRequest(req) && Ordered(req.events)
    requires k < |req.events| && !ProgressAt(req, k + 1).failed
    ensures DefersUnique(ProgressAt(req, k + 1).state.history) <==>
              DefersUnique(ProgressAt(req, k).state.history) && !ResurrectsBaselineKey(req, k)
  {
    var st := ProgressAt(req, k).state;
    var d := req.events[k].decision;
    var v := VerdictAt(req, k);
    if !v.Idle? {
      DefersUniqueAppend(st.history, d);
      RunKeepsInvariant(req, k);
      JudgeAdmits(req, req.events[k], st);
      if ResurrectsBaselineKey(req, k) {
        BaselineKeyStays(req, st, d.Key());
      } else if d.action == Defer && HoldsDefer(st.history, d.Key()) {
        var i :| 0 <= i < |st.history| && st.history[i].action == Defer && st.history[i].Key() == d.Key();
        RepeatOnlyByResurrection(req, k, i);
      }
    }
  }

  lemma DefersUniquePrefix(h: seq<Decision>, longer: seq<Decision>)
    requires h <= longer && DefersUnique(longer)
    ensures DefersUnique(h)
  {
    forall i | 0 <= i < |h| && h[i].action == Defer ensures !HoldsDefer(h[..i], h[i].Key()) {
      assert !HoldsDefer(longer[..i], longer[i].Key());
      assert h[..i] == longer[..i];
    }
  }

  lemma {:induction false} DefersUniqueWithoutResurrection(req: Request, k: nat)
    requires ValidRequest(req) && Ordered(req.events)
    requires k <= |req.events| && !ProgressAt(req, k).failed
    requires forall i | 0 <= i < k :: !ResurrectsBaselineKey(req, i)
    ensures DefersUnique(ProgressAt(req, k).state.history)
  {
    if k == 0 {
      UnbrokenDefersUnique(req.baseline.history);
    } else {
      StillRunning(req, k - 1, k);
      DefersUniqueWithoutResurrection(req, k - 1);
      StepKeepsDefersUnique(req, k - 1);
    }
  }

  lemma {:induction false} RepeatStays(req: Request, i: nat, k: nat)
    requires i <= k <= |req.events| && !ProgressAt(req, k).failed
    requires !DefersUnique(ProgressAt(req, i).state.history)
    ensures !DefersUnique(ProgressAt(req, k).state.history)
  {
    HistoryGrows(req, i, k);
    if DefersUnique(ProgressAt(req, k).state.history) {
      DefersUniquePrefix(ProgressAt(req, i).state.history, ProgressAt(req, k).state.history);
    }
  }

  lemma {:induction false} ResurrectionStays(req: Request, i: nat, k: nat)
    requires ValidRequest(req) && Ordered(req.events)
    requires i < k <= |req.events| && !ProgressAt(req, k).failed && ResurrectsBaselineKey(req, i)
    ensures !DefersUnique(ProgressAt(req, k).state.history)
  {
    StillRunning(req, i + 1, k);
    StepKeepsDefersUnique(req, i);
    RepeatStays(req, i + 1, k);
  }

  /** Defers stay unique exactly while no wake supersedes with a baseline defer's key. */
  lemma {:induction false} DefersUniqueUnlessResurrected(req: Request, k: nat)
    requires ValidRequest(req) && Ordered(req.events)
    requires k <= |req.events| && !ProgressAt(req, k).failed
    ensures DefersUnique(ProgressAt(req, k).state.history) <==> !SomeResurrection(req, k)
  {
    if SomeResurrection(req, k) {
      var i :| 0 <= i < k && ResurrectsBaselineKey(req, i);
      ResurrectionStays(req, i, k);
    } else {
      DefersUniqueWithoutResurrection(req, k);
    }
  }

  /** The baseline holds no scoped defer observed after the first event. */
  ghost predicate Timely(req: Request) {
    |req.events| > 0 ==>
      forall d | d in req.baseline.history && IsDefer(d, req.resource) :: d.observedAt <= req.events[0].observedAt
  }

  /** With a timely baseline, an active gate of the scoped resource resets no earlier
      than any baseline defer of it, or after the first event. */
  ghost predicate GateIsRecent(req: Request, st: State)
    requires |req.events| > 0
  {
    var active := ActiveGate(st.gates, req.resource);
    active.Some? ==>
      || req.events[0].observedAt < active.value.resetAt
      || forall d | d in req.baseline.history && IsDefer(d, req.resource) :: d.resetAt <= active.value.resetAt
  }

  lemma StartGateIsRecent(req: Request)
    requires ValidRequest(req) && |req.events| > 0
    ensures GateIsRecent(req, Initial(req.baseline))
  {
    var h := req.baseline.history;
    ActiveGateCharacterized(req.baseline.gates, req.resource);
    var active := ActiveGate(req.baseline.gates, req.resource);
    if active.Some? {
      assert Bound(active.value, h);
      var p := LatestDefer(h, req.resource).value;
      forall d | d in h && IsDefer(d, req.resource) ensures d.resetAt <= active.value.resetAt {
        var i :| 0 <= i < |h| && h[i] == d;
        if i < p { UnbrokenResetsGrow(h, i, p); }
      }
    }
  }

  lemma StepGateIsRecent(req: Request, ev: Event, st: State, v: Verdict)
    requires |req.events| > 0 && req.events[0].observedAt <= ev.observedAt && ValidDecision(ev.decision)
    requires GatesUnique(st.gates) && Admitted(req, ev, st, v) && GateIsRecent(req, st)
    ensures GateIsRecent(req, Commit(st, ev.decision, v))
  {
    if v.Open? || v.Exclude? || v.Supersede? {
      SetGateLookup(st.gates, ev.decision);
    } else if v.Release? {
      ActiveGateCharacterized(st.gates, req.resource);
      RemoveGateLookup(st.gates, v.previous);
    }
  }

  lemma {:induction false} RunGateIsRecent(req: Request, k: nat)
    requires ValidRequest(req) && Ordered(req.events) && |req.events| > 0
    requires k <= |req.events| && !ProgressAt(req, k).failed
    ensures GateIsRecent(req, ProgressAt(req, k).state)
  {
    if k == 0 {
      StartGateIsRecent(req);
    } else {
      var v := CommittedStep(req, k - 1);
      RunGateIsRecent(req, k - 1);
      StepGateIsRecent(req, req.events[k - 1], ProgressAt(req, k - 1).state, v);
    }
  }

  /** Over a timely baseline every run keeps its defer decisions unique. */
  lemma {:induction false} TimelyBaselineKeepsDefersUnique(req: Request, k: nat)
    requires ValidRequest(req) && Ordered(req.events) && Timely(req)
    requires k <= |req.events| && !ProgressAt(req, k).failed
    ensures DefersUnique(ProgressAt(req, k).state.history)
  {
    forall i | 0 <= i < k ensures !ResurrectsBaselineKey(req, i) {
      StillRunning(req, i, k);
      if ResurrectsBaselineKey(req, i) {
        var st := ProgressAt(req, i).state;
        JudgeAdmits(req, req.events[i], st);
        RunGateIsRecent(req, i);
        var j :| 0 <= j < |req.baseline.history| && req.baseline.history[j].action == Defer
                 && req.baseline.history[j].Key() == req.events[i].decision.Key();
        assert req.baseline.history[j] in req.baseline.history && IsDefer(req.baseline.history[j], req.resource);
      }
    }
    DefersUniqueUnlessResurrected(req, k);
  }
}
