/** The plan simulation and the queue mutation as the tool performs them: a graph
    updated operation by operation, then the stored tasks updated one by one. */
module ApplyPlan {
  import opened Options
  import opened IdOrder
  import opened DependencyGraph
  import opened PlanModel
  import opened PlanCycles
  import opened PlanDependencies

  /** Replaces, then adds, then removes. */
  method MutatedDependencies(current: set<string>, op: Operation) returns (deps: set<string>)
    ensures deps == Mutate(current, op)
  {
    deps := current;
    var replacement := Replacement(op);
    if replacement.Some? { deps := replacement.value; }
    deps := deps + Added(op);
    deps := deps - Removed(op);
  }

  class PlanSimulation {
    const tasks: Tasks
    var graph: Graph
    var created: set<string>
    var ok: bool

    ghost function Now(): Sim
      reads this
    {
      Sim(graph, created, ok)
    }

    constructor (tasks: Tasks)
      ensures this.tasks == tasks && Now() == SimPlan(tasks, [])
    {
      this.tasks := tasks;
      graph, created, ok := GraphOf(tasks), {}, true;
    }

    method SimulateTarget(id: string, op: Operation)
      requires id in graph
      modifies `graph, `ok
      ensures graph == MutateAt(old(graph), op, {id})
      ensures ok <==> old(ok) && id !in graph[id]
    {
      var deps := MutatedDependencies(graph[id], op);
      graph := graph[id := deps];
      if id in deps { ok := false; }
    }

    /** Mutates the graph entry of every existing target, in any order. */
    method SimulateTargets(op: Operation)
      requires tasks.Keys <= graph.Keys
      modifies this
      ensures Now() == SimTargets(tasks, old(Now()), op)
    {
      var ids := set id | id in op.targets && Simulated(tasks, op, id);
      assert MutateAt(graph, op, {}) == graph;
      var finished: set<string> := {};
      while finished != ids
        invariant finished <= ids && created == old(created)
        invariant graph == MutateAt(old(graph), op, finished)
        invariant ok <==> old(ok) && forall id | id in finished :: id !in graph[id]
        decreases ids - finished
      {
        var rest := ids - finished;
        assert ids == finished + rest;
        var id :| id in rest;
        SimulateTarget(id, op);
        finished := finished + {id};
      }
    }

    method SimulateDrafts(drafts: seq<Draft>)
      modifies this
      ensures Now() == SimDrafts(tasks, old(Now()), drafts)
    {
      for i := 0 to |drafts|
        invariant Now() == SimDrafts(tasks, old(Now()), drafts[..i])
      {
        assert drafts[..i + 1][..i] == drafts[..i];
        var d := drafts[i];
        if d.id == "" || d.id in tasks || d.id in created {
          ok := false;
        } else {
          created := created + {d.id};
          graph := graph[d.id := Names(d.dependsOn)];
          if d.id in graph[d.id] { ok := false; }
        }
      }
      assert drafts[..|drafts|] == drafts;
    }

    method Simulate(op: Operation)
      requires tasks.Keys <= graph.Keys
      modifies this
      ensures Now() == SimOp(tasks, old(Now()), op)
    {
      if !OpAcceptable(tasks, created, op) { ok := false; }
      SimulateTargets(op);
      SimulateDrafts(op.creates);
    }
  }

  /** The dry-run report: accepted exactly when nothing is at fault and the simulated
      graph is acyclic; a reported cycle is a real one. */
  method DryRun(tasks: Tasks, ops: seq<Operation>) returns (ok: bool, cycle: seq<string>)
    ensures ok <==> DryRunOk(tasks, ops)
    ensures cycle != [] ==> ClosedWalk(SimPlan(tasks, ops).graph, cycle)
    ensures cycle == [] ==> Acyclic(SimPlan(tasks, ops).graph)
  {
    var simulation := new PlanSimulation(tasks);
    for i := 0 to |ops|
      invariant simulation.tasks == tasks && simulation.Now() == SimPlan(tasks, ops[..i])
    {
      assert ops[..i + 1][..i] == ops[..i];
      simulation.Simulate(ops[i]);
    }
    assert ops[..|ops|] == ops;
    cycle := FindCycle(simulation.graph);
    ok := simulation.ok && cycle == [];
  }

  /** A dependency set written back as a sorted list. */
  method SortedItems(ids: set<string>) returns (items: seq<Item>)
    requires "" !in ids
    ensures Names(items) == ids
    ensures forall i | 0 <= i < |items| :: items[i].Text? && items[i].s != ""
    ensures forall i, j | 0 <= i < j < |items| :: items[i].s != items[j].s && NotAfter(items[i].s, items[j].s)
  {
    var sorted := SortIds(ids);
    items := seq(|sorted|, i requires 0 <= i < |sorted| => Text(sorted[i]));
    forall i | 0 <= i < |items| ensures items[i].s in ids { assert sorted[i] in sorted; }
    forall x ensures x in Names(items) <==> x in ids {
      if x in ids {
        var i :| 0 <= i < |sorted| && sorted[i] == x;
        assert items[i] == Text(x);
      }
    }
  }

  /** The list an operation leaves on a target, as specified and as its fields ask. */
  method ApplyToTask(current: seq<Item>, op: Operation) returns (after: seq<Item>)
    ensures AppliedList(current, after, op)
    ensures LeftOn(op, current, after)
  {
    after := FieldUpdate(current, op);
    if op.kind == DependencyChanges {
      MutateKeepsNonEmpty(Names(after), op);
      var deps := MutatedDependencies(Names(after), op);
      after := SortedItems(deps);
    }
    AppliedMeans(op, current, after);
  }

  class Queue {
    var tasks: Tasks

    constructor (tasks: Tasks)
      ensures this.tasks == tasks
    {
      this.tasks := tasks;
    }

    method ApplyOperation(op: Operation)
      requires op.targets <= tasks.Keys
      modifies this
      ensures AppliedOp(old(tasks), tasks, op)
    {
      var ids := SortIds(op.targets);
      for i := 0 to |ids|
        invariant tasks.Keys == old(tasks).Keys
        invariant forall id | id in tasks ::
                    if id in ids[..i] then AppliedList(old(tasks)[id], tasks[id], op) else tasks[id] == old(tasks)[id]
      {
        assert ids[i] in ids && ids[i] in op.targets;
        assert ids[i] !in ids[..i];
        assert ids[..i + 1] == ids[..i] + [ids[i]];
        var after := ApplyToTask(tasks[ids[i]], op);
        tasks := tasks[ids[i] := after];
      }
      assert ids[..|ids|] == ids;
    }

    /** Applies a plan only when its dry run accepts it; a plan without stray ids
        then leaves the queue acyclic, and a refused plan leaves it alone. */
    method ApplyPlan(ops: seq<Operation>) returns (applied: bool, ghost stages: seq<Tasks>)
      modifies this
      ensures applied <==> DryRunOk(old(tasks), ops) && AllSupported(ops)
      ensures !applied ==> tasks == old(tasks)
      ensures applied ==> AppliedPlan(stages, ops) && stages[0] == old(tasks) && stages[|ops|] == tasks
      ensures applied && StrayFree(ops) ==> Acyclic(GraphOf(tasks))
    {
      stages := [tasks];
      var ok, cycle := DryRun(tasks, ops);
      if !ok || !AllSupported(ops) { return false, stages; }
      for i := 0 to |ops|
        invariant |stages| == i + 1 && stages[0] == old(tasks) && stages[i] == tasks
        invariant tasks.Keys == old(tasks).Keys
        invariant forall k | 0 <= k < i :: AppliedOp(stages[k], stages[k + 1], ops[k])
      {
        ApplyOperation(ops[i]);
        stages := stages + [tasks];
      }
      if StrayFree(ops) { StrayFreePlanStaysAcyclic(stages, ops); }
      applied := true;
    }
  }
}
