/** Exactly which operations can close a dependency cycle behind an accepting dry run. */
module PlanCycles {
  import opened DependencyGraph
  import opened PlanModel

  function DraftIds(op: Operation): set<string> {
    set i | 0 <= i < |op.creates| :: op.creates[i].id
  }

  /** The ids a field update writes as dependencies of every target. */
  function Written(op: Operation): set<string> {
    if op.fields.Object? && op.fields.source.dependsOn.Many?
    then Names(Stringified(op.fields.source.dependsOn.items)) else {}
  }

  predicate DistinctDrafts(drafts: seq<Draft>) {
    forall i, j | 0 <= i < j < |drafts| :: drafts[i].id != drafts[j].id
  }

  /** Some queue lets the operation pass its checks, its dependencies apart: its drafts
      have new, distinct ids. */
  predicate Passable(op: Operation) {
    && !op.otherFault
    && (op.kind != CreateFollowup ==> op.targets != {})
    && "" !in DraftIds(op) && DistinctDrafts(op.creates)
    && DraftIds(op) !! op.targets + ReferencedIds(op)
  }

  /** The operation writes an id the dry run does not follow and does not create. */
  predicate WritesStray(op: Operation) {
    op.kind != DependencyChanges && op.targets != {} && Written(op) - DraftIds(op) != {}
  }

  /** Some queue accepts the operation in a dry run and has a cycle after applying it. */
  ghost predicate CanCloseCycle(op: Operation) {
    exists tasks: Tasks, after: Tasks ::
      && DryRunOk(tasks, [op]) && AllSupported([op])
      && AppliedPlan([tasks, after], [op]) && !Acyclic(GraphOf(after))
  }

  // ----------------------------------------------------------------- drafts

  predicate DraftsOk(tasks: Tasks, created: set<string>, drafts: seq<Draft>) {
    && DistinctDrafts(drafts)
    && forall i | 0 <= i < |drafts| ::
         var d := drafts[i];
         d.id != "" && d.id !in tasks && d.id !in created && d.id !in Names(d.dependsOn)
  }

  lemma DraftsOkStep(tasks: Tasks, created: set<string>, drafts: seq<Draft>)
    requires drafts != []
    ensures var n := |drafts| - 1; var d := drafts[n];
            DraftsOk(tasks, created, drafts) <==>
              && DraftsOk(tasks, created, drafts[..n])
              && d.id != "" && d.id !in tasks && d.id !in created && d.id !in Names(d.dependsOn)
              && forall i | 0 <= i < n :: drafts[i].id != d.id
  {
  }

  /** Drafts pass exactly when their ids are new and distinct and none depends on itself. */
  lemma {:induction false} DraftsPass(tasks: Tasks, s: Sim, drafts: seq<Draft>)
    ensures var after := SimDrafts(tasks, s, drafts);
            && (after.ok <==> s.ok && DraftsOk(tasks, s.created, drafts))
            && (after.ok ==> forall id :: id in after.created <==>
                  id in s.created || exists i :: 0 <= i < |drafts| && drafts[i].id == id)
  {
    if drafts != [] {
      var n := |drafts| - 1;
      DraftsPass(tasks, s, drafts[..n]);
      DraftsOkStep(tasks, s.created, drafts);
      var before := SimDrafts(tasks, s, drafts[..n]);
      assert before.ok ==> (drafts[n].id in before.created <==>
        drafts[n].id in s.created || exists i :: 0 <= i < n && drafts[i].id == drafts[n].id);
    }
  }

  /** Every node of the graph is as it was, or a draft with its own dependencies. */
  lemma {:induction false} DraftNodes(tasks: Tasks, s: Sim, drafts: seq<Draft>)
    ensures var g := SimDrafts(tasks, s, drafts).graph;
            forall a | a in g ::
              || (a in s.graph && g[a] == s.graph[a])
              || exists i :: 0 <= i < |drafts| && drafts[i].id == a && g[a] == Names(drafts[i].dependsOn)
  {
    if drafts != [] {
      var n := |drafts| - 1;
      DraftNodes(tasks, s, drafts[..n]);
      var before, g := SimDrafts(tasks, s, drafts[..n]).graph, SimDrafts(tasks, s, drafts).graph;
      forall a | a in g
        ensures (a in s.graph && g[a] == s.graph[a])
                || exists i :: 0 <= i < |drafts| && drafts[i].id == a && g[a] == Names(drafts[i].dependsOn)
      {
        if a in before && g[a] == before[a] && !(a in s.graph && before[a] == s.graph[a]) {
          var i :| 0 <= i < n && drafts[..n][i].id == a && before[a] == Names(drafts[..n][i].dependsOn);
          assert drafts[i].id == a;
        }
      }
    }
  }

  // --------------------------------------------------------------- one plan

  function Start(tasks: Tasks, ok: bool): Sim {
    Sim(GraphOf(tasks), {}, ok)
  }

  /** What the dry run of a single operation other than a dependency change does. */
  lemma SingleDryRun(tasks: Tasks, op: Operation)
    requires op.kind != DependencyChanges
    ensures SimPlan(tasks, [op]) == SimDrafts(tasks, Start(tasks, OpAcceptable(tasks, {}, op)), op.creates)
  {
    assert [op][..0] == [];
    assert SimPlan(tasks, []) == Start(tasks, true);
    assert SimTargets(tasks, Start(tasks, OpAcceptable(tasks, {}, op)), op)
        == Start(tasks, OpAcceptable(tasks, {}, op));
  }

  lemma {:induction false} AcceptedIsPassable(tasks: Tasks, op: Operation)
    requires op.kind != DependencyChanges && SimPlan(tasks, [op]).ok
    ensures Passable(op) && OpAcceptable(tasks, {}, op)
    ensures forall id | id in DraftIds(op) :: id !in tasks
  {
    SingleDryRun(tasks, op);
    DraftsPass(tasks, Start(tasks, OpAcceptable(tasks, {}, op)), op.creates);
  }

  lemma TaskEdgeIsSimulated(tasks: Tasks, op: Operation, a: string, b: string)
    requires op.kind != DependencyChanges && Edge(GraphOf(tasks), a, b)
    ensures Edge(SimPlan(tasks, [op]).graph, a, b)
  {
    SingleDryRun(tasks, op);
    SimDraftsKeys(tasks, Start(tasks, OpAcceptable(tasks, {}, op)), op.creates);
  }

  /** Writing only ids of drafts adds no edge between tasks. */
  lemma AppliedEdgeWasThere(tasks: Tasks, after: Tasks, op: Operation, a: string, b: string)
    requires AppliedOp(tasks, after, op) && op.kind != DependencyChanges && !SafeOp(op)
    requires Written(op) <= DraftIds(op) && forall id | id in DraftIds(op) :: id !in tasks
    requires Edge(GraphOf(after), a, b)
    ensures Edge(GraphOf(tasks), a, b)
  {
  }

  lemma WritesOnlyDrafts(op: Operation)
    requires !WritesStray(op) && !SafeOp(op)
    ensures Written(op) <= DraftIds(op)
  {
    forall w | w in Written(op) ensures w in DraftIds(op) {
      assert w !in Written(op) - DraftIds(op);
    }
  }

  lemma DraftsAddNoCycle(tasks: Tasks, after: Tasks, op: Operation)
    requires op.kind != DependencyChanges && !SafeOp(op) && Written(op) <= DraftIds(op)
    requires Acyclic(SimPlan(tasks, [op]).graph) && AppliedOp(tasks, after, op)
    requires forall id | id in DraftIds(op) :: id !in tasks
    ensures Acyclic(GraphOf(after))
  {
    forall a, b | Edge(GraphOf(after), a, b) ensures Edge(SimPlan(tasks, [op]).graph, a, b) {
      AppliedEdgeWasThere(tasks, after, op, a, b);
      TaskEdgeIsSimulated(tasks, op, a, b);
    }
    FewerEdgesAcyclic(GraphOf(after), SimPlan(tasks, [op]).graph);
  }

  /** Without a stray id no cycle is closed. */
  lemma NoStrayNoCycle(tasks: Tasks, after: Tasks, op: Operation)
    requires DryRunOk(tasks, [op]) && AppliedPlan([tasks, after], [op]) && !WritesStray(op)
    ensures Acyclic(GraphOf(after))
  {
    if SafeOp(op) {
      AcceptedPlanStaysAcyclic([tasks, after], [op]);
    } else {
      AcceptedIsPassable(tasks, op);
      WritesOnlyDrafts(op);
      assert AppliedOp([tasks, after][0], [tasks, after][1], [op][0]);
      DraftsAddNoCycle(tasks, after, op);
    }
  }

  // ------------------------------------------------------------ the witness

  /** A queue of just the ids the operation mentions; the stray one depends on a target,
      unless it is a target itself. */
  function Trap(op: Operation, stray: string, target: string): Tasks {
    map id | id in op.targets + ReferencedIds(op) + {stray} ::
      if id == stray && stray !in op.targets then [Text(target)] else []
  }

  function Sprung(op: Operation, stray: string, target: string): Tasks {
    var tasks := Trap(op, stray, target);
    map id | id in tasks :: if id in op.targets then FieldUpdate([], op) else tasks[id]
  }

  lemma TrapPasses(op: Operation, stray: string, target: string)
    requires Passable(op) && WritesStray(op) && stray in Written(op) - DraftIds(op)
    ensures SimPlan(Trap(op, stray, target), [op]).ok
  {
    var tasks := Trap(op, stray, target);
    SingleDryRun(tasks, op);
    forall i | 0 <= i < |op.creates|
      ensures op.creates[i].id in DraftIds(op)
      ensures Names(op.creates[i].dependsOn) <= ReferencedIds(op)
    {
    }
    DraftsPass(tasks, Start(tasks, OpAcceptable(tasks, {}, op)), op.creates);
  }

  lemma TrapIsAcyclic(op: Operation, stray: string, target: string)
    requires Passable(op) && WritesStray(op) && stray in Written(op) - DraftIds(op)
    requires target in op.targets && target != ""
    ensures Acyclic(SimPlan(Trap(op, stray, target), [op]).graph)
  {
    var tasks := Trap(op, stray, target);
    var g := SimPlan(tasks, [op]).graph;
    var rank := (id: string) => if id !in tasks then 2 else if id == stray then 1 else 0;
    forall a, b | Edge(g, a, b) ensures rank(b) < rank(a) { TrapEdge(op, stray, target, a, b); }
    RankedIsAcyclic(g, rank);
  }

  lemma {:induction false} TrapEdge(op: Operation, stray: string, target: string, a: string, b: string)
    requires Passable(op) && stray in Written(op) - DraftIds(op) && target in op.targets && target != ""
    requires op.kind != DependencyChanges && Edge(SimPlan(Trap(op, stray, target), [op]).graph, a, b)
    ensures var tasks := Trap(op, stray, target);
            b in tasks && (a in tasks ==> a == stray && b != stray)
  {
    var tasks := Trap(op, stray, target);
    SingleDryRun(tasks, op);
    var s := Start(tasks, OpAcceptable(tasks, {}, op));
    DraftNodes(tasks, s, op.creates);
    NoNames();
    NamesOfOne(target);
    var g := SimPlan(tasks, [op]).graph;
    if !(a in s.graph && g[a] == s.graph[a]) {
      var i :| 0 <= i < |op.creates| && op.creates[i].id == a && g[a] == Names(op.creates[i].dependsOn);
      assert a in DraftIds(op);
      assert b in ReferencedIds(op);
    }
  }

  lemma TrapIsApplied(op: Operation, stray: string, target: string)
    requires WritesStray(op)
    ensures AppliedPlan([Trap(op, stray, target), Sprung(op, stray, target)], [op])
  {
    assert AppliedOp(Trap(op, stray, target), Sprung(op, stray, target), op);
  }

  lemma TrapSprings(op: Operation, stray: string, target: string)
    requires stray in Written(op) && target in op.targets && target != ""
    ensures !Acyclic(GraphOf(Sprung(op, stray, target)))
  {
    var after := Sprung(op, stray, target);
    var g := GraphOf(after);
    NamesOfOne(target);
    if stray in op.targets {
      assert Edge(g, stray, stray);
      assert ClosedWalk(g, [stray, stray]);
    } else {
      assert Edge(g, target, stray) && Edge(g, stray, target);
      assert ClosedWalk(g, [target, stray, target]);
    }
  }

  /** An operation can close a cycle behind the back of an accepting dry run exactly when
      it is supported, can pass at all, and writes a stray id; its targets are non-empty
      strings. */
  lemma CycleExact(op: Operation)
    requires "" !in op.targets
    ensures CanCloseCycle(op) <==> ApplySupported(op) && Passable(op) && WritesStray(op)
  {
    if CanCloseCycle(op) {
      var tasks: Tasks, after: Tasks :|
        && DryRunOk(tasks, [op]) && AllSupported([op])
        && AppliedPlan([tasks, after], [op]) && !Acyclic(GraphOf(after));
      assert ApplySupported([op][0]);
      if !WritesStray(op) { NoStrayNoCycle(tasks, after, op); }
      AcceptedIsPassable(tasks, op);
    }
    if ApplySupported(op) && Passable(op) && WritesStray(op) {
      var stray :| stray in Written(op) - DraftIds(op);
      var target :| target in op.targets;
      TrapPasses(op, stray, target);
      TrapIsAcyclic(op, stray, target);
      TrapIsApplied(op, stray, target);
      TrapSprings(op, stray, target);
      assert AllSupported([op]);
    }
  }

  // ------------------------------------------------------------ whole plans

  predicate StrayFree(ops: seq<Operation>) {
    forall i | 0 <= i < |ops| :: !WritesStray(ops[i])
  }

  /** Dependencies between tasks are among the simulated ones. */
  ghost predicate CoveredAmong(tasks: Tasks, graph: Graph) {
    forall id | id in tasks :: id in graph && forall d | d in Names(tasks[id]) && d in tasks :: d in graph[id]
  }

  lemma SimOpDraftsAreNew(tasks: Tasks, s: Sim, op: Operation)
    requires tasks.Keys <= s.graph.Keys && SimOp(tasks, s, op).ok
    ensures forall id | id in DraftIds(op) :: id !in tasks
  {
    DraftsPass(tasks, SimTargets(tasks, s.(ok := s.ok && OpAcceptable(tasks, s.created, op)), op), op.creates);
  }

  lemma SimPlanStep(tasks: Tasks, ops: seq<Operation>)
    requires ops != []
    ensures SimPlan(tasks, ops) == SimOp(tasks, SimPlan(tasks, ops[..|ops| - 1]), ops[|ops| - 1])
  {
  }

  lemma SimOpCovers(tasks: Tasks, s: Sim, before: Tasks, after: Tasks, op: Operation)
    requires tasks.Keys <= s.graph.Keys && before.Keys == tasks.Keys
    requires CoveredAmong(before, s.graph) && AppliedOp(before, after, op) && !WritesStray(op)
    requires forall id | id in DraftIds(op) :: id !in tasks
    ensures CoveredAmong(after, SimOp(tasks, s, op).graph)
  {
    var checked := s.(ok := s.ok && OpAcceptable(tasks, s.created, op));
    NoNames();
    if !SafeOp(op) { WritesOnlyDrafts(op); }
    var graph := SimTargets(tasks, checked, op).graph;
    forall id, d | id in after && d in Names(after[id]) && d in after ensures d in graph[id] {
      assert id in before;
      if id in op.targets { TargetCovered(s.graph[id], before, after, op, id, d); }
    }
    SimDraftsKeys(tasks, SimTargets(tasks, checked, op), op.creates);
  }

  /** The dependency of a target on another task was simulated. */
  lemma TargetCovered(simulated: set<string>, before: Tasks, after: Tasks, op: Operation, id: string, d: string)
    requires id in before && id in op.targets && d in before && AppliedOp(before, after, op)
    requires forall x | x in Names(before[id]) && x in before :: x in simulated
    requires SafeOp(op) || (Written(op) <= DraftIds(op) && forall x | x in DraftIds(op) :: x !in before)
    requires d in Names(after[id])
    ensures d in if op.kind == DependencyChanges then Mutate(simulated, op) else simulated
  {
    NoNames();
    if op.kind == DependencyChanges {
      MutatedMembers(simulated, op, d);
      MutatedMembers(Names(FieldUpdate(before[id], op)), op, d);
    }
  }

  /** After any accepted plan without stray ids, the dependencies between tasks are among
      the simulated ones. */
  lemma {:induction false} StrayFreeRefines(stages: seq<Tasks>, ops: seq<Operation>)
    requires AppliedPlan(stages, ops) && StrayFree(ops) && SimPlan(stages[0], ops).ok
    ensures stages[|ops|].Keys == stages[0].Keys
    ensures CoveredAmong(stages[|ops|], SimPlan(stages[0], ops).graph)
  {
    if ops != [] {
      var n := |ops| - 1;
      var s := SimPlan(stages[0], ops[..n]);
      StagesPrefix(stages, ops);
      SimPlanStep(stages[0], ops);
      assert !WritesStray(ops[n]);
      StrayFreeRefines(stages[..n + 1], ops[..n]);
      assert AppliedOp(stages[n], stages[n + 1], ops[n]);
      SimOpDraftsAreNew(stages[0], s, ops[n]);
      SimOpCovers(stages[0], s, stages[n], stages[n + 1], ops[n]);
    }
  }

  /** An accepted plan without stray ids leaves an acyclic queue. */
  lemma StrayFreePlanStaysAcyclic(stages: seq<Tasks>, ops: seq<Operation>)
    requires AppliedPlan(stages, ops) && StrayFree(ops) && DryRunOk(stages[0], ops)
    ensures Acyclic(GraphOf(stages[|ops|]))
  {
    StrayFreeRefines(stages, ops);
    FewerEdgesAcyclic(GraphOf(stages[|ops|]), SimPlan(stages[0], ops).graph);
  }
}
