/** Queue mutation plans: the dependency part of an operation, what the dry run does
    with it, what applying it writes, and why the first vouches for the second.

    A task is represented by its `depends_on` list.  Every check of a plan that does
    not concern dependencies is folded into `otherFault`. */
module PlanModel {
  import opened Options
  import opened DependencyGraph
  import opened IdOrder

  /** A list entry: a string, or any other JSON value with its text rendering. */
  datatype Item = Text(s: string) | Other(rendered: string)

  datatype Raw = Missing | Single(item: Item) | Many(items: seq<Item>)

  /** One place an operation can carry dependency fields: `fields` or the top level. */
  datatype Source = Source(dependsOn: Raw, add: seq<Raw>, remove: seq<Raw>)

  datatype Fields = NoFields | NotAnObject | Object(source: Source, otherUnsupported: bool)

  datatype Kind =
    | Pause | Unpause | Replan | SupersedeTask | Split | Merge
    | Retarget | DependencyChanges | AppendNote | CreateFollowup

  datatype Draft = Draft(id: string, dependsOn: seq<Item>)

  datatype Operation = Operation(
    kind: Kind, targets: set<string>, fields: Fields, top: Source,
    references: set<string>, creates: seq<Draft>, otherFault: bool)

  type Tasks = map<string, seq<Item>>

  // --------------------------------------------------- dependency arithmetic

  /** The non-empty strings of a list. */
  function Names(items: seq<Item>): set<string> {
    set i | 0 <= i < |items| && items[i].Text? && items[i].s != "" :: items[i].s
  }

  function Rendered(item: Item): string {
    match item case Text(s) => s case Other(r) => r
  }

  /** Every entry turned into a string, as a field update does. */
  function Stringified(items: seq<Item>): seq<Item> {
    seq(|items|, i requires 0 <= i < |items| => Text(Rendered(items[i])))
  }

  function Values(raw: Raw): set<string> {
    match raw
    case Missing => {}
    case Single(item) => Names([item])
    case Many(items) => Names(items)
  }

  function AllValues(raws: seq<Raw>): set<string> {
    if raws == [] then {} else Values(raws[0]) + AllValues(raws[1..])
  }

  function Added(op: Operation): set<string> {
    (if op.fields.Object? then AllValues(op.fields.source.add) else {}) + AllValues(op.top.add)
  }

  function Removed(op: Operation): set<string> {
    (if op.fields.Object? then AllValues(op.fields.source.remove) else {}) + AllValues(op.top.remove)
  }

  function Replacement(op: Operation): Option<set<string>> {
    if op.fields.Object? && op.fields.source.dependsOn.Many? then Some(Names(op.fields.source.dependsOn.items))
    else if op.top.dependsOn.Many? then Some(Names(op.top.dependsOn.items))
    else None
  }

  /** Replace, then add, then remove. */
  function Mutate(current: set<string>, op: Operation): set<string> {
    (match Replacement(op) case Some(r) => r case None => current) + Added(op) - Removed(op)
  }

  /** A dependency remains unless removed, and comes from the replacement, or else the
      current set, or from what is added; a removal wins over an addition. */
  lemma MutatedMembers(current: set<string>, op: Operation, id: string)
    ensures id in Mutate(current, op) <==>
              && id !in Removed(op)
              && (id in Added(op) || match Replacement(op) case Some(r) => id in r case None => id in current)
  {
  }

  // ------------------------------------------------------------- simulation

  datatype Sim = Sim(graph: Graph, created: set<string>, ok: bool)

  function GraphOf(tasks: Tasks): Graph {
    map id | id in tasks :: Names(tasks[id])
  }

  predicate Simulated(tasks: Tasks, op: Operation, id: string) {
    op.kind == DependencyChanges && id in op.targets && id in tasks
  }

  /** The graph after mutating the given targets. */
  function MutateAt(graph: Graph, op: Operation, ids: set<string>): Graph {
    map id | id in graph :: if id in ids then Mutate(graph[id], op) else graph[id]
  }

  function SimTargets(tasks: Tasks, s: Sim, op: Operation): Sim
    requires tasks.Keys <= s.graph.Keys
  {
    var ids := set id | id in op.targets && Simulated(tasks, op, id);
    var graph := MutateAt(s.graph, op, ids);
    s.(graph := graph, ok := s.ok && forall id | id in ids :: id !in graph[id])
  }

  function SimDraft(tasks: Tasks, s: Sim, d: Draft): Sim {
    if d.id == "" || d.id in tasks || d.id in s.created then s.(ok := false)
    else Sim(s.graph[d.id := Names(d.dependsOn)], s.created + {d.id}, s.ok && d.id !in Names(d.dependsOn))
  }

  function SimDrafts(tasks: Tasks, s: Sim, drafts: seq<Draft>): Sim {
    if drafts == [] then s else SimDraft(tasks, SimDrafts(tasks, s, drafts[..|drafts| - 1]), drafts[|drafts| - 1])
  }

  function ReferencedIds(op: Operation): set<string> {
    (match Replacement(op) case Some(r) => r case None => {})
    + Added(op) + Removed(op) + op.references
    + (set i, x | 0 <= i < |op.creates| && x in Names(op.creates[i].dependsOn) :: x)
  }

  /** The checks of one operation that precede its simulation. */
  predicate OpAcceptable(tasks: Tasks, created: set<string>, op: Operation) {
    && !op.otherFault
    && (op.kind != CreateFollowup ==> op.targets != {})
    && op.targets <= tasks.Keys
    && ReferencedIds(op) <= tasks.Keys + created
  }

  lemma {:induction false} SimDraftsKeys(tasks: Tasks, s: Sim, drafts: seq<Draft>)
    requires tasks.Keys <= s.graph.Keys
    ensures tasks.Keys <= SimDrafts(tasks, s, drafts).graph.Keys
    ensures forall id | id in tasks :: SimDrafts(tasks, s, drafts).graph[id] == s.graph[id]
    ensures SimDrafts(tasks, s, drafts).ok ==> s.ok
  {
    if drafts != [] { SimDraftsKeys(tasks, s, drafts[..|drafts| - 1]); }
  }

  function SimOp(tasks: Tasks, s: Sim, op: Operation): (after: Sim)
    requires tasks.Keys <= s.graph.Keys
    ensures tasks.Keys <= after.graph.Keys
    ensures after.ok ==> s.ok && op.targets <= tasks.Keys
  {
    var checked := SimTargets(tasks, s.(ok := s.ok && OpAcceptable(tasks, s.created, op)), op);
    SimDraftsKeys(tasks, checked, op.creates);
    SimDrafts(tasks, checked, op.creates)
  }

  /** An accepted simulation found every target of every operation. */
  function SimPlan(tasks: Tasks, ops: seq<Operation>): (s: Sim)
    ensures tasks.Keys <= s.graph.Keys
    ensures s.ok ==> forall k | 0 <= k < |ops| :: ops[k].targets <= tasks.Keys
  {
    if ops == [] then Sim(GraphOf(tasks), {}, true)
    else SimOp(tasks, SimPlan(tasks, ops[..|ops| - 1]), ops[|ops| - 1])
  }

  /** The dry run accepts: no operation is at fault and no cycle would result. */
  ghost predicate DryRunOk(tasks: Tasks, ops: seq<Operation>) {
    SimPlan(tasks, ops).ok && Acyclic(SimPlan(tasks, ops).graph)
  }

  // ------------------------------------------------------------------ apply

  predicate HasExtra(src: Source) {
    (exists i | 0 <= i < |src.add| :: src.add[i] != Missing)
    || (exists i | 0 <= i < |src.remove| :: src.remove[i] != Missing)
  }

  predicate ApplySupported(op: Operation) {
    && !op.fields.NotAnObject?
    && (op.fields.Object? ==>
          !op.fields.otherUnsupported && (op.kind != DependencyChanges ==> !HasExtra(op.fields.source)))
    && op.kind !in {Split, Merge, CreateFollowup}
    && (op.kind in {Replan, AppendNote} ==> op.fields.Object?)
  }

  predicate AllSupported(ops: seq<Operation>) {
    forall i | 0 <= i < |ops| :: ApplySupported(ops[i])
  }

  /** The `depends_on` list a field update writes over the current one. */
  function FieldUpdate(current: seq<Item>, op: Operation): seq<Item> {
    if !op.fields.Object? then current
    else match op.fields.source.dependsOn
      case Missing => current
      case Single(_) => []
      case Many(items) => Stringified(items)
  }

  /** The dependency set one application leaves on a targeted task. */
  function AppliedNames(current: seq<Item>, op: Operation): set<string> {
    var updated := Names(FieldUpdate(current, op));
    if op.kind == DependencyChanges then Mutate(updated, op) else updated
  }

  /** The `depends_on` list one application leaves on a targeted task: the mutated
      set in order, or what the field update wrote. */
  ghost predicate AppliedList(before: seq<Item>, after: seq<Item>, op: Operation) {
    if op.kind == DependencyChanges then
      && Names(after) == AppliedNames(before, op)
      && (forall i | 0 <= i < |after| :: after[i].Text? && after[i].s != "")
      && (forall i, j | 0 <= i < j < |after| :: after[i].s != after[j].s && NotAfter(after[i].s, after[j].s))
    else after == FieldUpdate(before, op)
  }

  /** `after` is what applying `op` to each of its targets leaves. */
  ghost predicate AppliedOp(before: Tasks, after: Tasks, op: Operation) {
    && after.Keys == before.Keys
    && forall id | id in before ::
         if id in op.targets then AppliedList(before[id], after[id], op) else after[id] == before[id]
  }

  /** `stages` are the queues before, between and after the operations. */
  ghost predicate AppliedPlan(stages: seq<Tasks>, ops: seq<Operation>) {
    && |stages| == |ops| + 1
    && forall k | 0 <= k < |ops| :: AppliedOp(stages[k], stages[k + 1], ops[k])
  }

  // ------------------------------------------------------------- refinement

  /** The operation writes no dependency the dry run does not follow: a guard on its
      own fields. */
  predicate SafeOp(op: Operation) {
    || op.kind == DependencyChanges
    || op.targets == {}
    || !op.fields.Object? || !op.fields.source.dependsOn.Many?
    || Names(Stringified(op.fields.source.dependsOn.items)) == {}
  }

  predicate SafePlan(ops: seq<Operation>) {
    forall i | 0 <= i < |ops| :: SafeOp(ops[i])
  }

  /** Every task's dependencies are among the simulated ones. */
  ghost predicate Covered(tasks: Tasks, graph: Graph) {
    forall id | id in tasks :: id in graph && Names(tasks[id]) <= graph[id]
  }

  /** An operation whose effect on dependencies is simulated exactly. */
  predicate ExactOp(op: Operation) {
    op.fields.Object? ==>
      if op.kind == DependencyChanges then !op.fields.source.dependsOn.Single?
      else op.fields.source.dependsOn.Missing?
  }

  ghost predicate Mirrored(tasks: Tasks, graph: Graph) {
    forall id | id in tasks :: id in graph && Names(tasks[id]) == graph[id]
  }

  lemma NoNames()
    ensures Names([]) == {}
  {
  }

  lemma OpStaysCovered(tasks: Tasks, s: Sim, before: Tasks, after: Tasks, op: Operation)
    requires tasks.Keys <= s.graph.Keys && before.Keys == tasks.Keys
    requires Covered(before, s.graph) && AppliedOp(before, after, op) && SafeOp(op)
    ensures Covered(after, SimTargets(tasks, s, op).graph)
  {
    NoNames();
    var graph := SimTargets(tasks, s, op).graph;
    forall id | id in after ensures id in graph && Names(after[id]) <= graph[id] {
      assert id in before && Names(before[id]) <= s.graph[id];
    }
  }

  lemma OpStaysMirrored(tasks: Tasks, s: Sim, before: Tasks, after: Tasks, op: Operation)
    requires tasks.Keys <= s.graph.Keys && before.Keys == tasks.Keys
    requires Mirrored(before, s.graph) && AppliedOp(before, after, op) && ExactOp(op)
    ensures Mirrored(after, SimTargets(tasks, s, op).graph)
  {
    var graph := SimTargets(tasks, s, op).graph;
    forall id | id in after ensures id in graph && Names(after[id]) == graph[id] {
      assert id in before && Names(before[id]) == s.graph[id];
    }
  }

  lemma StagesPrefix(stages: seq<Tasks>, ops: seq<Operation>)
    requires ops != [] && AppliedPlan(stages, ops)
    ensures AppliedPlan(stages[..|ops|], ops[..|ops| - 1])
  {
    var n := |ops| - 1;
    forall k | 0 <= k < n ensures AppliedOp(stages[..n + 1][k], stages[..n + 1][k + 1], ops[..n][k]) {
      assert AppliedOp(stages[k], stages[k + 1], ops[k]);
    }
  }

  /** After any safe plan, every task's dependencies are among the simulated ones. */
  lemma {:induction false} ApplyRefinesSimulation(stages: seq<Tasks>, ops: seq<Operation>)
    requires AppliedPlan(stages, ops) && SafePlan(ops)
    ensures stages[|ops|].Keys == stages[0].Keys
    ensures Covered(stages[|ops|], SimPlan(stages[0], ops).graph)
  {
    if ops != [] {
      var n := |ops| - 1;
      StagesPrefix(stages, ops);
      ApplyRefinesSimulation(stages[..n + 1], ops[..n]);
      assert AppliedOp(stages[n], stages[n + 1], ops[n]);
      assert SafeOp(ops[n]);
      var s := SimPlan(stages[0], ops[..n]);
      var checked := s.(ok := s.ok && OpAcceptable(stages[0], s.created, ops[n]));
      OpStaysCovered(stages[0], checked, stages[n], stages[n + 1], ops[n]);
      SimDraftsKeys(stages[0], SimTargets(stages[0], checked, ops[n]), ops[n].creates);
    }
  }

  /** When no operation carries a stray or malformed `depends_on`, the simulation is exact. */
  lemma {:induction false} SimulationIsExact(stages: seq<Tasks>, ops: seq<Operation>)
    requires AppliedPlan(stages, ops) && forall i | 0 <= i < |ops| :: ExactOp(ops[i])
    ensures stages[|ops|].Keys == stages[0].Keys
    ensures Mirrored(stages[|ops|], SimPlan(stages[0], ops).graph)
  {
    if ops != [] {
      var n := |ops| - 1;
      StagesPrefix(stages, ops);
      SimulationIsExact(stages[..n + 1], ops[..n]);
      assert AppliedOp(stages[n], stages[n + 1], ops[n]);
      var s := SimPlan(stages[0], ops[..n]);
      var checked := s.(ok := s.ok && OpAcceptable(stages[0], s.created, ops[n]));
      OpStaysMirrored(stages[0], checked, stages[n], stages[n + 1], ops[n]);
      SimDraftsKeys(stages[0], SimTargets(stages[0], checked, ops[n]), ops[n].creates);
    }
  }

  /** A safe plan the dry run accepts leaves an acyclic queue. */
  lemma AcceptedPlanStaysAcyclic(stages: seq<Tasks>, ops: seq<Operation>)
    requires AppliedPlan(stages, ops) && SafePlan(ops) && DryRunOk(stages[0], ops)
    ensures Acyclic(GraphOf(stages[|ops|]))
  {
    ApplyRefinesSimulation(stages, ops);
    SubgraphIsAcyclic(GraphOf(stages[|ops|]), SimPlan(stages[0], ops).graph);
  }

  // ------------------------------------------------- the condition is exact

  /** Every application of `op` from every covered state is covered again. */
  ghost predicate AlwaysCovered(op: Operation) {
    forall before: Tasks, after: Tasks, graph: Graph ::
      Covered(before, graph) && AppliedOp(before, after, op) ==>
        Covered(after, SimTargets(before, Sim(graph, {}, true), op).graph)
  }

  lemma SafeOpsAreCovered(op: Operation)
    requires SafeOp(op)
    ensures AlwaysCovered(op)
  {
    forall before: Tasks, after: Tasks, graph: Graph |
      Covered(before, graph) && AppliedOp(before, after, op)
      ensures Covered(after, SimTargets(before, Sim(graph, {}, true), op).graph)
    {
      OpStaysCovered(before, Sim(graph, {}, true), before, after, op);
    }
  }

  lemma UnsafeOpsEscape(op: Operation)
    requires !SafeOp(op)
    ensures !AlwaysCovered(op)
  {
    NoNames();
    var id :| id in op.targets;
    var before: Tasks := map[id := []];
    var after: Tasks := map[id := Stringified(op.fields.source.dependsOn.items)];
    var graph: Graph := map[id := {}];
    assert Covered(before, graph) && AppliedOp(before, after, op);
    assert !Covered(after, SimTargets(before, Sim(graph, {}, true), op).graph);
  }

  /** The guard is exact: the simulation covers an operation from every covered state
      if and only if the operation is safe. */
  lemma SafeOpExact(op: Operation)
    ensures SafeOp(op) <==> AlwaysCovered(op)
  {
    if SafeOp(op) { SafeOpsAreCovered(op); } else { UnsafeOpsEscape(op); }
  }

  const NOTHING := Source(Missing, [], [])
  const STRAY := Operation(Replan, {"a"}, Object(Source(Many([Text("b")]), [], []), false), NOTHING, {}, [], false)
  const LINKED: Tasks := map["a" := [], "b" := [Text("a")]]
  const LOOPED: Tasks := map["a" := [Text("b")], "b" := [Text("a")]]

  lemma TwoNodesAcyclic()
    ensures Acyclic(map["a" := {}, "b" := {"a"}])
  {
    var g: Graph := map["a" := {}, "b" := {"a"}];
    assert ["a", "b"][..1] == ["a"];
    OrderedIsAcyclic(g, ["a", "b"]);
  }

  lemma StraySimulated()
    ensures SimPlan(LINKED, [STRAY]) == Sim(map["a" := {}, "b" := {"a"}], {}, true)
  {
    NamesOfOne("a");
    NamesOfOne("b");
    NoNames();
    assert [STRAY][..0] == [];
    assert GraphOf(LINKED) == map["a" := {}, "b" := {"a"}];
    assert SimPlan(LINKED, []) == Sim(GraphOf(LINKED), {}, true);
    assert ReferencedIds(STRAY) == {"b"};
    assert SimTargets(LINKED, SimPlan(LINKED, []), STRAY).graph == GraphOf(LINKED);
  }

  lemma StrayAccepted()
    ensures DryRunOk(LINKED, [STRAY])
  {
    StraySimulated();
    TwoNodesAcyclic();
  }

  /** The dry run accepts, the application is supported, and yet a cycle appears: a
      replan of `a` carries `depends_on: [b]` while `b` depends on `a`. */
  lemma {:induction false} StrayDependencyMakesCycle()
    ensures DryRunOk(LINKED, [STRAY]) && AllSupported([STRAY])
    ensures AppliedPlan([LINKED, LOOPED], [STRAY])
    ensures ClosedWalk(GraphOf(LOOPED), ["a", "b", "a"])
  {
    StrayAccepted();
    NamesOfOne("a");
    NamesOfOne("b");
    assert Stringified([Text("b")]) == [Text("b")];
    assert GraphOf(LOOPED) == map["a" := {"b"}, "b" := {"a"}];
  }

  lemma NamesOfOne(s: string)
    requires s != ""
    ensures Names([Text(s)]) == {s}
  {
    assert [Text(s)][0] == Text(s);
  }
}
