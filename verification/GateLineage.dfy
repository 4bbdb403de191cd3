/** Supersession lineage of a decision history, and the invariant every run keeps. */
module GateLineage {
  import opened Options
  import opened GateModel
  import opened GateTable

  predicate IsDefer(d: Decision, r: ResourceKey) {
    d.action == Defer && d.resource == r
  }

  /** The position of the last defer for `r`. */
  function LatestDefer(h: seq<Decision>, r: ResourceKey): (o: Option<nat>)
    ensures o.Some? ==> o.value < |h| && IsDefer(h[o.value], r)
                        && forall j | o.value < j < |h| :: !IsDefer(h[j], r)
    ensures o.None? ==> forall j | 0 <= j < |h| :: !IsDefer(h[j], r)
  {
    if h == [] then None
    else if IsDefer(h[|h| - 1], r) then Some(|h| - 1)
    else LatestDefer(h[..|h| - 1], r)
  }

  lemma LatestDeferAppend(h: seq<Decision>, d: Decision, r: ResourceKey)
    ensures LatestDefer(h + [d], r) == if IsDefer(d, r) then Some(|h|) else LatestDefer(h, r)
  {
    assert (h + [d])[..|h|] == h;
  }

  /** A defer that names a predecessor names the immediately previous defer of its
      resource, which resets strictly earlier. */
  ghost predicate Linked(h: seq<Decision>, i: nat)
    requires i < |h|
  {
    h[i].action == Defer && h[i].supersedes.Some? ==>
      var p := LatestDefer(h[..i], h[i].resource);
      p.Some? && h[i].supersedes == Some(h[p.value].Key()) && h[p.value].resetAt < h[i].resetAt
  }

  ghost predicate LinkedHistory(h: seq<Decision>) {
    forall i | 0 <= i < |h| :: Linked(h, i)
  }

  /** A defer that names no predecessor is the first defer of its resource. */
  ghost predicate FirstOrLinked(h: seq<Decision>, i: nat)
    requires i < |h|
  {
    && Linked(h, i)
    && (h[i].action == Defer && h[i].supersedes.None? ==> LatestDefer(h[..i], h[i].resource).None?)
  }

  ghost predicate UnbrokenHistory(h: seq<Decision>) {
    forall i | 0 <= i < |h| :: FirstOrLinked(h, i)
  }

  /** The gate is the exact projection of the latest defer of its resource. */
  ghost predicate Bound(g: Gate, h: seq<Decision>) {
    var i := LatestDefer(h, g.resource);
    i.Some? && g == Project(h[i.value])
  }

  ghost predicate AllBound(gates: seq<Gate>, h: seq<Decision>) {
    forall g | g in gates :: Bound(g, h)
  }

  ghost predicate ValidHistory(h: seq<Decision>) {
    forall d | d in h :: ValidDecision(d)
  }

  /** What the baseline validators accept; `BaselineCheck.Validate` computes it. */
  ghost predicate BaselineAccepted(b: Baseline) {
    UnbrokenHistory(b.history) && AllBound(b.gates, b.history)
  }

  /** What request validation guarantees before a replay starts. */
  ghost predicate ValidRequest(req: Request) {
    && GatesUnique(req.baseline.gates)
    && ValidHistory(req.baseline.history)
    && BaselineAccepted(req.baseline)
    && forall ev | ev in req.events :: ValidDecision(ev.decision)
  }

  // -------------------------------------------------------------- lineage

  /** The defers a defer supersedes, itself first, back to one with no predecessor. */
  function Lineage(h: seq<Decision>, i: nat): (chain: seq<nat>)
    requires i < |h| && LinkedHistory(h) && h[i].action == Defer
    ensures |chain| > 0 && chain[0] == i
    ensures forall k | 0 <= k < |chain| :: chain[k] <= i && IsDefer(h[chain[k]], h[i].resource)
  {
    if h[i].supersedes.None? then [i]
    else
      assert Linked(h, i);
      var p := LatestDefer(h[..i], h[i].resource).value;
      [i] + Lineage(h, p)
  }

  /** A lineage walks back through named predecessors with strictly smaller resets
      and ends at a defer that names none. */
  lemma {:induction false} LineageDescends(h: seq<Decision>, i: nat)
    requires i < |h| && LinkedHistory(h) && h[i].action == Defer
    ensures var chain := Lineage(h, i);
            && h[chain[|chain| - 1]].supersedes.None?
            && (forall k | 0 <= k < |chain| - 1 ::
                  && h[chain[k]].supersedes == Some(h[chain[k + 1]].Key())
                  && h[chain[k + 1]].resetAt < h[chain[k]].resetAt)
            && (forall k | 0 <= k < |chain| :: h[chain[k]].resetAt <= h[i].resetAt)
  {
    if h[i].supersedes.Some? {
      assert Linked(h, i);
      var p := LatestDefer(h[..i], h[i].resource).value;
      LineageDescends(h, p);
      var rest := Lineage(h, p);
      var chain := Lineage(h, i);
      assert chain == [i] + rest;
      forall k | 0 <= k < |chain| - 1
        ensures h[chain[k]].supersedes == Some(h[chain[k + 1]].Key())
        ensures h[chain[k + 1]].resetAt < h[chain[k]].resetAt
      {
        if k > 0 {
          assert chain[k] == rest[k - 1] && chain[k + 1] == rest[k];
        }
      }
    }
  }

  lemma LinkedPrefix(h: seq<Decision>, d: Decision, i: nat)
    requires i < |h|
    ensures Linked(h + [d], i) <==> Linked(h, i)
    ensures FirstOrLinked(h + [d], i) <==> FirstOrLinked(h, i)
  {
    assert (h + [d])[..i] == h[..i];
  }

  lemma LinkedHistoryAppend(h: seq<Decision>, d: Decision)
    ensures LinkedHistory(h + [d]) <==> LinkedHistory(h) && Linked(h + [d], |h|)
    ensures UnbrokenHistory(h + [d]) <==> UnbrokenHistory(h) && FirstOrLinked(h + [d], |h|)
  {
    forall i | 0 <= i < |h|
      ensures Linked(h + [d], i) <==> Linked(h, i)
      ensures FirstOrLinked(h + [d], i) <==> FirstOrLinked(h, i)
    {
      LinkedPrefix(h, d, i);
    }
    var e := h + [d];
    assert LinkedHistory(e) ==> Linked(e, |h|);
    assert UnbrokenHistory(e) ==> FirstOrLinked(e, |h|);
    if LinkedHistory(e) {
      forall i | 0 <= i < |h| ensures Linked(h, i) { assert Linked(e, i); }
    }
    if UnbrokenHistory(e) {
      forall i | 0 <= i < |h| ensures FirstOrLinked(h, i) { assert FirstOrLinked(e, i); }
    }
    if LinkedHistory(h) && Linked(e, |h|) {
      forall i | 0 <= i < |e| ensures Linked(e, i) { if i < |h| { assert Linked(h, i); } }
    }
    if UnbrokenHistory(h) && FirstOrLinked(e, |h|) {
      forall i | 0 <= i < |e| ensures FirstOrLinked(e, i) { if i < |h| { assert FirstOrLinked(h, i); } }
    }
  }

  lemma LinkedAtEnd(h: seq<Decision>, d: Decision)
    ensures Linked(h + [d], |h|) <==>
              (d.action == Defer && d.supersedes.Some? ==>
                 var p := LatestDefer(h, d.resource);
                 p.Some? && d.supersedes == Some(h[p.value].Key()) && h[p.value].resetAt < d.resetAt)
    ensures FirstOrLinked(h + [d], |h|) <==>
              Linked(h + [d], |h|)
              && (d.action == Defer && d.supersedes.None? ==> LatestDefer(h, d.resource).None?)
  {
    assert (h + [d])[..|h|] == h;
  }

  // ------------------------------------------------------ what a verdict implies

  /** The facts every committed change rests on. */
  ghost predicate Admitted(req: Request, ev: Event, st: State, v: Verdict) {
    var d := ev.decision;
    var active := ActiveGate(st.gates, req.resource);
    && (!v.Rejected? && !v.Idle? ==> d.resource == req.resource && d.observedAt == ev.observedAt)
    && (ev.kind.DecisionEvent? && !v.Rejected? && !v.Idle? ==> FindDecision(st.history, d.Key()).None?)
    && match v
       case Rejected(_) => true
       case Idle(_, _) => true
       case RecordAllow => d.action == Allow && ev.kind.DecisionEvent?
       case Open => active.None? && d.action == Defer && d.supersedes.None? && ev.kind.DecisionEvent?
       case Exclude(replaced) =>
         && replaced == active && d.action == Defer && ev.kind.DecisionEvent?
         && (match active
             case None => d.supersedes.None?
             case Some(g) => d.supersedes == Some(g.decisionKey) && g.resetAt < d.resetAt)
       case Supersede(g) =>
         && active == Some(g) && d.action == Defer
         && d.supersedes == Some(g.decisionKey) && g.resetAt < d.resetAt
         && (ev.kind.WakeRevalidation? ==> g.resetAt + req.grace <= ev.observedAt)
       case Release(g) =>
         && active == Some(g) && d.action == Allow
         && ev.kind == WakeRevalidation(g.decisionKey)
         && g.resetAt + req.grace <= ev.observedAt
         && ev.evidence.kind == Recovery && ev.evidence.threshold < ev.evidence.remaining
  }

  lemma JudgeAdmits(req: Request, ev: Event, st: State)
    ensures Admitted(req, ev, st, Judge(req, ev, st))
  {
  }

  // ------------------------------------------------------------- invariant

  ghost predicate Invariant(req: Request, st: State) {
    && GatesUnique(st.gates)
    && AllBound(st.gates, st.history)
    && LinkedHistory(st.history)
    && ValidHistory(st.history)
    && req.baseline.history <= st.history
    && forall r | r != req.resource :: ActiveGate(st.gates, r) == ActiveGate(req.baseline.gates, r)
  }

  /** Appending an allow, which no lookup of defers sees. */
  lemma BoundAfterAllow(gates: seq<Gate>, h: seq<Decision>, d: Decision)
    requires AllBound(gates, h) && d.action != Defer
    ensures AllBound(gates, h + [d])
  {
    forall g | g in gates ensures Bound(g, h + [d]) {
      assert Bound(g, h);
      LatestDeferAppend(h, d, g.resource);
    }
  }

  lemma BoundAfterDefer(gates: seq<Gate>, h: seq<Decision>, d: Decision)
    requires GatesUnique(gates) && AllBound(gates, h) && d.action == Defer
    ensures AllBound(WithActive(gates, d), h + [d])
  {
    SetGateLookup(gates, d);
    forall g | g in WithActive(gates, d) ensures Bound(g, h + [d]) {
      LatestDeferAppend(h, d, g.resource);
      if g != Project(d) {
        assert Bound(g, h);
      }
    }
  }

  lemma AdmittedLinks(req: Request, ev: Event, st: State, v: Verdict)
    requires Admitted(req, ev, st, v) && !v.Rejected? && !v.Idle?
    requires AllBound(st.gates, st.history)
    ensures Linked(st.history + [ev.decision], |st.history|)
  {
    LinkedAtEnd(st.history, ev.decision);
    var active := ActiveGate(st.gates, req.resource);
    if active.Some? {
      ActiveGateCharacterized(st.gates, req.resource);
      assert Bound(active.value, st.history);
    }
  }

  lemma CommitKeepsTable(req: Request, ev: Event, st: State, v: Verdict)
    requires GatesUnique(st.gates) && AllBound(st.gates, st.history) && Admitted(req, ev, st, v)
    ensures var st' := Commit(st, ev.decision, v);
            && GatesUnique(st'.gates) && AllBound(st'.gates, st'.history)
            && forall r | r != req.resource :: ActiveGate(st'.gates, r) == ActiveGate(st.gates, r)
  {
    var d := ev.decision;
    if v.Open? || v.Exclude? || v.Supersede? {
      SetGateLookup(st.gates, d);
      BoundAfterDefer(st.gates, st.history, d);
    } else if v.RecordAllow? {
      BoundAfterAllow(st.gates, st.history, d);
    } else if v.Release? {
      ActiveGateCharacterized(st.gates, req.resource);
      RemoveGateLookup(st.gates, v.previous);
      BoundAfterAllow(st.gates, st.history, d);
      var left := WithoutGate(st.gates, v.previous);
      forall g | g in left ensures Bound(g, st.history + [d]) {
        assert g in st.gates;
      }
    }
  }

  lemma {:induction false} CommitKeepsInvariant(req: Request, ev: Event, st: State)
    requires Invariant(req, st) && ValidDecision(ev.decision)
    ensures Invariant(req, Commit(st, ev.decision, Judge(req, ev, st)))
  {
    var v := Judge(req, ev, st);
    JudgeAdmits(req, ev, st);
    CommitKeepsTable(req, ev, st, v);
    if !v.Rejected? && !v.Idle? {
      AdmittedLinks(req, ev, st, v);
      LinkedHistoryAppend(st.history, ev.decision);
      assert forall d | d in st.history + [ev.decision] :: d in st.history || d == ev.decision;
    }
  }

  lemma InitialInvariant(req: Request)
    requires ValidRequest(req)
    ensures Invariant(req, Initial(req.baseline))
  {
    forall i | 0 <= i < |req.baseline.history| ensures Linked(req.baseline.history, i) {
      assert FirstOrLinked(req.baseline.history, i);
    }
  }

  /** After any number of events of any run from a valid request, failed or not:
      every active gate projects the latest defer of its resource, every named
      predecessor is the previous defer with a strictly smaller reset, the history
      extends the baseline, and the other resources' gates are untouched. */
  lemma {:induction false} RunKeepsInvariant(req: Request, k: nat)
    requires ValidRequest(req) && k <= |req.events|
    ensures Invariant(req, ProgressAt(req, k).state)
  {
    InitialInvariant(req);
    if k > 0 {
      RunKeepsInvariant(req, k - 1);
      assert req.events[k - 1] in req.events;
      CommitKeepsInvariant(req, req.events[k - 1], ProgressAt(req, k - 1).state);
    }
  }

  /** One committed event, with the facts it rests on. */
  lemma {:induction false} CommittedStep(req: Request, k: nat) returns (v: Verdict)
    requires ValidRequest(req) && k < |req.events| && !ProgressAt(req, k + 1).failed
    ensures !ProgressAt(req, k).failed && GatesUnique(ProgressAt(req, k).state.gates)
    ensures req.baseline.history <= ProgressAt(req, k).state.history
    ensures !v.Rejected? && Admitted(req, req.events[k], ProgressAt(req, k).state, v)
    ensures ProgressAt(req, k + 1).state == Commit(ProgressAt(req, k).state, req.events[k].decision, v)
    ensures ValidDecision(req.events[k].decision)
  {
    RunKeepsInvariant(req, k);
    assert req.events[k] in req.events;
    v := VerdictAt(req, k);
    JudgeAdmits(req, req.events[k], ProgressAt(req, k).state);
  }

  lemma {:induction false} StillRunning(req: Request, i: nat, k: nat)
    requires i <= k <= |req.events| && !ProgressAt(req, k).failed
    ensures !ProgressAt(req, i).failed
    decreases k - i
  {
    if i < k { StillRunning(req, i, k - 1); }
  }

  lemma CommitGrows(st: State, d: Decision, v: Verdict)
    ensures st.history <= Commit(st, d, v).history
  {
  }

  /** The history only grows while a run goes on. */
  lemma {:induction false} HistoryGrows(req: Request, i: nat, k: nat)
    requires i <= k <= |req.events| && !ProgressAt(req, k).failed
    ensures ProgressAt(req, i).state.history <= ProgressAt(req, k).state.history
    decreases k - i
  {
    if i < k {
      StillRunning(req, k - 1, k);
      HistoryGrows(req, i, k - 1);
      var st := ProgressAt(req, k - 1).state;
      CommitGrows(st, req.events[k - 1].decision, VerdictAt(req, k - 1));
    }
  }

  /** The lineage of every active gate, in every state of every run. */
  lemma {:induction false} ActiveGateLineage(req: Request, k: nat, g: Gate)
    requires ValidRequest(req) && k <= |req.events|
    requires g in ProgressAt(req, k).state.gates
    ensures var h := ProgressAt(req, k).state.history;
            && Bound(g, h) && LinkedHistory(h)
            && var chain := Lineage(h, LatestDefer(h, g.resource).value);
               && h[chain[0]].Key() == g.decisionKey && h[chain[0]].resetAt == g.resetAt
               && h[chain[|chain| - 1]].supersedes.None?
               && (forall i | 0 <= i < |chain| - 1 ::
                     && h[chain[i]].supersedes == Some(h[chain[i + 1]].Key())
                     && h[chain[i + 1]].resetAt < h[chain[i]].resetAt)
  {
    RunKeepsInvariant(req, k);
    var h := ProgressAt(req, k).state.history;
    assert Bound(g, h);
    LineageDescends(h, LatestDefer(h, g.resource).value);
  }

  // --------------------------------------------------------------- release

  ghost predicate Leaves(before: State, after: State, g: Gate) {
    g in before.gates && ActiveGate(after.gates, g.resource).None?
  }

  /** A gate's slot empties only through a release: the event revalidates exactly
      that gate, comes at least the grace period after every reset in its lineage,
      measures more than the threshold, and decides allow. */
  lemma {:induction false} GateLeavesOnlyByRelease(req: Request, k: nat, g: Gate)
    requires ValidRequest(req) && k < |req.events|
    requires !ProgressAt(req, k + 1).failed
    requires Leaves(ProgressAt(req, k).state, ProgressAt(req, k + 1).state, g)
    ensures var ev := req.events[k]; var h := ProgressAt(req, k).state.history;
            && VerdictAt(req, k) == Release(g)
            && ev.kind == WakeRevalidation(g.decisionKey)
            && ev.decision.action == Allow && ev.evidence.threshold < ev.evidence.remaining
            && Bound(g, h) && LinkedHistory(h)
            && var chain := Lineage(h, LatestDefer(h, g.resource).value);
               forall i | 0 <= i < |chain| :: h[chain[i]].resetAt + req.grace <= ev.observedAt
  {
    var st := ProgressAt(req, k).state;
    var ev := req.events[k];
    RunKeepsInvariant(req, k);
    JudgeAdmits(req, ev, st);
    var v := VerdictAt(req, k);
    ActiveGateIsMember(st.gates, g);
    if v.Open? || v.Exclude? || v.Supersede? {
      SetGateLookup(st.gates, ev.decision);
    }
    ActiveGateCharacterized(st.gates, req.resource);
    if v.Release? && v.previous != g {
      ActiveGateIsMember(st.gates, v.previous);
      RemoveGateLookup(st.gates, v.previous);
    }
    assert Bound(g, st.history);
    LineageDescends(st.history, LatestDefer(st.history, g.resource).value);
  }

  /** A gate that is replaced is replaced by one that resets strictly later and
      whose decision names it. */
  lemma {:induction false} GateIsReplacedOnlyByLaterReset(req: Request, k: nat, g: Gate, g': Gate)
    requires ValidRequest(req) && k < |req.events|
    requires !ProgressAt(req, k + 1).failed
    requires g in ProgressAt(req, k).state.gates && g' in ProgressAt(req, k + 1).state.gates
    requires g.resource == g'.resource && g != g'
    ensures g.resource == req.resource && g.resetAt < g'.resetAt
    ensures g' == Project(req.events[k].decision)
    ensures req.events[k].decision.supersedes == Some(g.decisionKey)
  {
    var st := ProgressAt(req, k).state;
    var ev := req.events[k];
    RunKeepsInvariant(req, k);
    JudgeAdmits(req, ev, st);
    var v := VerdictAt(req, k);
    CommitKeepsTable(req, ev, st, v);
    ActiveGateIsMember(st.gates, g);
    ActiveGateIsMember(st.gates, g');
    ActiveGateIsMember(Commit(st, ev.decision, v).gates, g');
    if v.Open? || v.Exclude? || v.Supersede? {
      SetGateLookup(st.gates, ev.decision);
    }
    ActiveGateCharacterized(st.gates, req.resource);
    if v.Release? {
      RemoveGateLookup(st.gates, v.previous);
    }
  }
}
