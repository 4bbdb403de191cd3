/** The baseline binding check, as the single pass over the evidence history that
    the request validator makes, followed by a pass over the active gates. */
module BaselineCheck {
  import opened Options
  import opened GateModel
  import opened GateLineage

  datatype BindingFault =
    | FirstNamesPredecessor(index: nat)
    | NotPreviousDefer(index: nat)
    | ResetNotLater(index: nat)
    | NoEvidence(gate: Gate)
    | NotADefer(gate: Gate)
    | NotLatestDefer(gate: Gate)
    | NotExact(gate: Gate)
  {
    predicate InHistory() {
      FirstNamesPredecessor? || NotPreviousDefer? || ResetNotLater?
    }
  }

  /** The last position of a decision key. */
  ghost predicate LastOfKey(h: seq<Decision>, key: DecisionKey, i: nat) {
    i < |h| && h[i].Key() == key && forall j | i < j < |h| :: h[j].Key() != key
  }

  /** What a fault says of the history. */
  ghost predicate Says(h: seq<Decision>, fault: BindingFault) {
    match fault
    case FirstNamesPredecessor(i) =>
      i < |h| && h[i].action == Defer && h[i].supersedes.Some? && LatestDefer(h[..i], h[i].resource).None?
    case NotPreviousDefer(i) =>
      && i < |h| && h[i].action == Defer
      && var p := LatestDefer(h[..i], h[i].resource); p.Some? && h[i].supersedes != Some(h[p.value].Key())
    case ResetNotLater(i) =>
      && i < |h| && h[i].action == Defer
      && var p := LatestDefer(h[..i], h[i].resource);
         p.Some? && h[i].supersedes == Some(h[p.value].Key()) && h[i].resetAt <= h[p.value].resetAt
    case NoEvidence(g) => forall d | d in h :: d.Key() != g.decisionKey
    case NotADefer(g) => exists i: nat :: LastOfKey(h, g.decisionKey, i) && h[i].action != Defer
    case NotLatestDefer(g) =>
      exists i: nat :: LastOfKey(h, g.decisionKey, i) && h[i].action == Defer
                       && LatestDefer(h, h[i].resource) != Some(i)
    case NotExact(g) =>
      exists i: nat :: LastOfKey(h, g.decisionKey, i) && h[i].action == Defer
                       && LatestDefer(h, h[i].resource) == Some(i) && g != Project(h[i])
  }

  /** `m` records, per resource, the last defer of `h`. */
  ghost predicate RecordsLatest(m: map<ResourceKey, nat>, h: seq<Decision>) {
    forall r :: LatestDefer(h, r) == Lookup(m, r)
  }

  /** `m` records, per decision key, the last position that has it. */
  ghost predicate RecordsKeys(m: map<DecisionKey, nat>, h: seq<Decision>) {
    && (forall i | 0 <= i < |h| :: h[i].Key() in m && i <= m[h[i].Key()])
    && (forall key | key in m :: m[key] < |h| && h[m[key]].Key() == key)
  }

  /** The predecessor check at one position, given where the previous defer is. */
  function PredecessorFault(h: seq<Decision>, i: nat, previous: Option<nat>): Option<BindingFault>
    requires i < |h| && (previous.Some? ==> previous.value < i)
  {
    var d := h[i];
    if d.action != Defer then None
    else match previous
      case None => if d.supersedes.Some? then Some(FirstNamesPredecessor(i)) else None
      case Some(p) =>
        if d.supersedes != Some(h[p].Key()) then Some(NotPreviousDefer(i))
        else if h[p].resetAt >= d.resetAt then Some(ResetNotLater(i))
        else None
  }

  function Lookup(m: map<ResourceKey, nat>, r: ResourceKey): Option<nat> {
    if r in m then Some(m[r]) else None
  }

  lemma PredecessorFaultExact(h: seq<Decision>, i: nat, m: map<ResourceKey, nat>)
    requires i < |h| && RecordsLatest(m, h[..i])
    ensures var previous := Lookup(m, h[i].resource);
            && (previous.Some? ==> previous.value < i)
            && var fault := PredecessorFault(h, i, previous);
               && (fault.None? <==> FirstOrLinked(h, i))
               && (fault.Some? ==> Says(h, fault.value) && fault.value.InHistory() && fault.value.index == i)
  {
    assert LatestDefer(h[..i], h[i].resource) == Lookup(m, h[i].resource);
  }

  /** An index of the history by decision key, later positions winning. */
  method IndexKeys(h: seq<Decision>) returns (m: map<DecisionKey, nat>)
    ensures RecordsKeys(m, h)
  {
    m := map[];
    for i := 0 to |h|
      invariant forall j | 0 <= j < i :: h[j].Key() in m && j <= m[h[j].Key()]
      invariant forall key | key in m :: m[key] < i && h[m[key]].Key() == key
    {
      m := m[h[i].Key() := i];
    }
  }

  lemma RecordNext(m: map<ResourceKey, nat>, h: seq<Decision>, i: nat)
    requires i < |h| && RecordsLatest(m, h[..i])
    ensures RecordsLatest(if h[i].action == Defer then m[h[i].resource := i] else m, h[..i + 1])
  {
    assert h[..i + 1] == h[..i] + [h[i]];
    forall r ensures LatestDefer(h[..i + 1], r) == if IsDefer(h[i], r) then Some(i) else LatestDefer(h[..i], r) {
      LatestDeferAppend(h[..i], h[i], r);
    }
  }

  /** The first position whose defer is not bound to its predecessor, if any. */
  method CheckHistory(h: seq<Decision>) returns (fault: Option<BindingFault>, latest: map<ResourceKey, nat>)
    ensures fault.None? <==> UnbrokenHistory(h)
    ensures fault.None? ==> RecordsLatest(latest, h)
    ensures fault.Some? ==> Says(h, fault.value) && fault.value.InHistory() && fault.value.index < |h|
                            && !FirstOrLinked(h, fault.value.index)
                            && forall j | 0 <= j < fault.value.index :: FirstOrLinked(h, j)
  {
    latest := map[];
    for i := 0 to |h|
      invariant forall j | 0 <= j < i :: FirstOrLinked(h, j)
      invariant RecordsLatest(latest, h[..i])
    {
      PredecessorFaultExact(h, i, latest);
      fault := PredecessorFault(h, i, Lookup(latest, h[i].resource));
      if fault.Some? { return; }
      RecordNext(latest, h, i);
      if h[i].action == Defer { latest := latest[h[i].resource := i]; }
    }
    assert h[..|h|] == h;
    fault := None;
  }

  /** A gate passes its four checks exactly when it projects the latest defer. */
  method CheckGate(g: Gate, h: seq<Decision>, keys: map<DecisionKey, nat>, latest: map<ResourceKey, nat>)
    returns (fault: Option<BindingFault>)
    requires RecordsKeys(keys, h) && RecordsLatest(latest, h)
    ensures fault.None? <==> Bound(g, h)
    ensures fault.Some? ==> Says(h, fault.value) && !fault.value.InHistory() && fault.value.gate == g
  {
    var slot := LatestDefer(h, g.resource);
    if slot.Some? && g == Project(h[slot.value]) {
      assert keys[g.decisionKey] == slot.value by {
        var j := keys[g.decisionKey];
        assert slot.value <= j && IsDefer(h[j], g.resource);
      }
    }
    if g.decisionKey !in keys { return Some(NoEvidence(g)); }
    var index := keys[g.decisionKey];
    assert LastOfKey(h, g.decisionKey, index);
    var d := h[index];
    if d.action != Defer { return Some(NotADefer(g)); }
    assert LatestDefer(h, d.resource) == Lookup(latest, d.resource);
    if d.resource !in latest || latest[d.resource] != index { return Some(NotLatestDefer(g)); }
    if g != Project(d) { return Some(NotExact(g)); }
    return None;
  }

  /** Accepts exactly the baselines whose defers are chained without a break and
      whose gates each project the latest defer; a history fault is reported first. */
  method Validate(b: Baseline) returns (fault: Option<BindingFault>)
    ensures fault.None? <==> BaselineAccepted(b)
    ensures fault.Some? ==> Says(b.history, fault.value) && (fault.value.InHistory() <==> !UnbrokenHistory(b.history))
    ensures fault.Some? && !fault.value.InHistory() ==> fault.value.gate in b.gates
  {
    var keys := IndexKeys(b.history);
    var latest;
    fault, latest := CheckHistory(b.history);
    if fault.Some? { return; }
    for i := 0 to |b.gates|
      invariant forall j | 0 <= j < i :: Bound(b.gates[j], b.history)
    {
      fault := CheckGate(b.gates[i], b.history, keys, latest);
      if fault.Some? {
        assert b.gates[i] in b.gates;
        return;
      }
    }
    return None;
  }
}
