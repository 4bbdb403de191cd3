/** The order in which the dependency graph lists its source tasks, and the edges its
    runs draw. */
module GraphListing {
  import opened IdOrder
  import opened DependencyGraph

  /** A listed task; the empty id stands for a task without one. */
  datatype Node = Node(id: string, dependsOn: seq<string>)

  /** Source tasks by id; a later task with the same id wins. */
  function ById(source: seq<Node>): map<string, Node> {
    if source == [] then map[]
    else
      var t := source[|source| - 1];
      var before := ById(source[..|source| - 1]);
      if t.id == "" then before else before[t.id := t]
  }

  lemma {:induction false} ByIdHoldsSources(source: seq<Node>)
    ensures forall id | id in ById(source) :: ById(source)[id].id == id && id != "" && ById(source)[id] in source
    ensures forall t | t in source && t.id != "" :: t.id in ById(source)
  {
    if source != [] {
      var n := |source| - 1;
      ByIdHoldsSources(source[..n]);
      assert forall x :: x in source <==> x in source[..n] || x == source[n];
    }
  }

  function Needs(t: Node): set<string> {
    set d | d in t.dependsOn
  }

  /** The dependencies between the source tasks. */
  function SourceGraph(source: seq<Node>): Graph {
    var m := ById(source);
    map id | id in m :: Needs(m[id])
  }

  /** Only one task has its id. */
  ghost predicate Sole(byId: map<string, Node>, t: Node) {
    t.id != "" ==> t.id in byId && byId[t.id] == t
  }

  /** Ids are given to at most one source task. */
  ghost predicate UniqueIds(source: seq<Node>) {
    forall t | t in source :: Sole(ById(source), t)
  }

  function Ids(nodes: seq<Node>): seq<string> {
    if nodes == [] then []
    else
      var t := nodes[|nodes| - 1];
      Ids(nodes[..|nodes| - 1]) + (if t.id == "" then [] else [t.id])
  }

  function Anonymous(nodes: seq<Node>): seq<Node> {
    if nodes == [] then []
    else
      var t := nodes[|nodes| - 1];
      Anonymous(nodes[..|nodes| - 1]) + (if t.id == "" then [t] else [])
  }

  lemma ListAppend(nodes: seq<Node>, t: Node)
    ensures t.id == "" ==> Ids(nodes + [t]) == Ids(nodes) && Anonymous(nodes + [t]) == Anonymous(nodes) + [t]
    ensures t.id != "" ==> Ids(nodes + [t]) == Ids(nodes) + [t.id] && Anonymous(nodes + [t]) == Anonymous(nodes)
  {
    assert (nodes + [t])[..|nodes|] == nodes;
  }

  /** The emitted ids: the seen ones, each once, and dependencies first if `acyclic`. */
  ghost predicate EmittedOk(g: Graph, ids: seq<string>, seen: set<string>, acyclic: bool) {
    && Distinct(ids)
    && (forall x :: x in ids <==> x in seen)
    && (acyclic ==> DependenciesFirst(g, ids))
  }

  lemma EmitKeepsOrder(g: Graph, ids: seq<string>, seen: set<string>, id: string, acyclic: bool)
    requires EmittedOk(g, ids, seen, acyclic) && id !in seen
    requires acyclic ==> forall d | Edge(g, id, d) :: d in seen
    ensures EmittedOk(g, ids + [id], seen + {id}, acyclic)
  {
    if acyclic { DependenciesFirstAppend(g, ids, id); }
  }

  class Listing {
    const byId: map<string, Node>
    var ordered: seq<Node>
    var seen: set<string>
    var visiting: set<string>
    ghost const source: seq<Node>
    ghost const graph: Graph
    ghost const unique: bool
    ghost const orderly: bool
    ghost var path: seq<string>
    ghost var named: seq<string>
    ghost var unnamed: seq<Node>

    ghost predicate Fixed() {
      && byId == ById(source) && graph == SourceGraph(source)
      && unique == UniqueIds(source) && orderly == (unique && Acyclic(graph))
    }

    ghost predicate Valid()
      reads this
    {
      && Fixed()
      && (unique ==> PathOk(graph, visiting, path))
      && named == Ids(ordered) && unnamed == Anonymous(ordered)
      && EmittedOk(graph, named, seen, orderly)
      && forall t | t in ordered :: t in source
    }

    constructor (source: seq<Node>)
      ensures Valid() && this.source == source && graph == SourceGraph(source) && unique == UniqueIds(source)
      ensures ordered == [] && path == [] && visiting == {} && seen == {} && unnamed == []
    {
      this.source := source;
      graph := SourceGraph(source);
      unique := UniqueIds(source);
      orderly := UniqueIds(source) && Acyclic(SourceGraph(source));
      byId := ById(source);
      ordered, seen, visiting, path, named, unnamed := [], {}, {}, [], [], [];
    }

    method Emit(task: Node)
      requires Valid() && task in source && task.id != "" && task.id !in seen
      requires orderly ==> forall d | Edge(graph, task.id, d) :: d in seen
      modifies `ordered, `seen, `named
      ensures Valid() && seen == old(seen) + {task.id} && unnamed == old(unnamed)
    {
      EmitKeepsOrder(graph, named, seen, task.id, orderly);
      ListAppend(ordered, task);
      ordered, named := ordered + [task], named + [task.id];
      seen := seen + {task.id};
    }

    method EmitAnonymous(task: Node)
      requires Valid() && task in source && task.id == ""
      modifies `ordered, `unnamed
      ensures Valid() && unnamed == old(unnamed) + [task]
    {
      ListAppend(ordered, task);
      ordered, unnamed := ordered + [task], unnamed + [task];
    }

    lemma IsNode(task: Node)
      requires Fixed() && task in source && task.id != ""
      ensures task.id in byId && task.id in graph
    {
      ByIdHoldsSources(source);
    }

    method Visit(task: Node)
      requires Valid() && task in source
      requires unique && path != [] ==> Edge(graph, path[|path| - 1], task.id)
      modifies `ordered, `seen, `visiting, `path, `named, `unnamed
      ensures Valid() && visiting == old(visiting) && path == old(path)
      ensures old(seen) <= seen && (task.id != "" ==> task.id in seen)
      ensures task.id == "" ==> unnamed == old(unnamed) + [task]
      ensures task.id != "" ==> unnamed == old(unnamed)
      decreases byId.Keys - visiting, 0
    {
      if task.id == "" {
        EmitAnonymous(task);
        return;
      }
      if task.id in seen { return; }
      IsNode(task);
      if task.id in visiting {
        if unique { PathCloses(graph, visiting, path, task.id); }
        Emit(task);
        return;
      }
      if unique { PathExtends(graph, visiting, path, task.id); }
      visiting := visiting + {task.id};
      path := path + [task.id];
      VisitDependencies(task);
      if unique { assert Sole(byId, task); }
      visiting := visiting - {task.id};
      path := path[..|path| - 1];
      if task.id !in seen { Emit(task); }
    }

    method VisitAll(tasks: seq<Node>)
      requires Valid() && tasks == source && path == [] && unnamed == []
      modifies `ordered, `seen, `visiting, `path, `named, `unnamed
      ensures Valid() && Anonymous(ordered) == Anonymous(tasks)
      ensures forall t | t in tasks && t.id != "" :: t.id in seen
    {
      for i := 0 to |tasks|
        invariant Valid() && path == []
        invariant forall t | t in tasks[..i] && t.id != "" :: t.id in seen
        invariant unnamed == Anonymous(tasks[..i])
      {
        AnonymousStep(tasks, i);
        assert forall t | t in tasks[..i + 1] :: t in tasks[..i] || t == tasks[i];
        Visit(tasks[i]);
      }
      assert tasks[..|tasks|] == tasks;
    }

    ghost predicate Followed(d: string)
      reads this
    {
      d in byId ==> d in seen
    }

    lemma FollowsEdge(task: Node, d: string)
      requires Fixed() && task in source && task.id != "" && d in task.dependsOn && d in byId
      ensures d != "" && byId[d] in source && byId[d].id == d && (unique ==> Edge(graph, task.id, d))
    {
      ByIdHoldsSources(source);
      assert unique ==> Sole(byId, task);
    }

    method VisitDependency(task: Node, d: string)
      requires Valid() && task in source && task.id != "" && d in task.dependsOn
      requires path != [] && path[|path| - 1] == task.id
      modifies `ordered, `seen, `visiting, `path, `named, `unnamed
      ensures Valid() && visiting == old(visiting) && path == old(path)
      ensures old(seen) <= seen && Followed(d)
      ensures unnamed == old(unnamed)
      decreases byId.Keys - visiting, 1
    {
      if d in byId {
        FollowsEdge(task, d);
        Visit(byId[d]);
      }
    }

    lemma EdgesFollowed(task: Node)
      requires Fixed() && task in source && task.id != ""
      requires forall j | 0 <= j < |task.dependsOn| :: Followed(task.dependsOn[j])
      ensures unique ==> forall d | Edge(graph, task.id, d) :: d in seen
    {
      if unique {
        ByIdHoldsSources(source);
        assert Sole(byId, task);
        forall d | Edge(graph, task.id, d) ensures d in seen {
          assert d in task.dependsOn && Followed(d);
        }
      }
    }

    method VisitDependencies(task: Node)
      requires Valid() && task in source && task.id != ""
      requires path != [] && path[|path| - 1] == task.id
      modifies `ordered, `seen, `visiting, `path, `named, `unnamed
      ensures Valid() && visiting == old(visiting) && path == old(path)
      ensures old(seen) <= seen && (unique ==> forall d | Edge(graph, task.id, d) :: d in seen)
      ensures unnamed == old(unnamed)
      decreases byId.Keys - visiting, 2
    {
      for i := 0 to |task.dependsOn|
        invariant Valid() && visiting == old(visiting) && path == old(path) && old(seen) <= seen
        invariant forall j | 0 <= j < i :: Followed(task.dependsOn[j])
        invariant unnamed == old(unnamed)
      {
        VisitDependency(task, task.dependsOn[i]);
      }
      EdgesFollowed(task);
    }
  }

  lemma AnonymousStep(nodes: seq<Node>, i: nat)
    requires i < |nodes|
    ensures nodes[i].id == "" ==> Anonymous(nodes[..i + 1]) == Anonymous(nodes[..i]) + [nodes[i]]
    ensures nodes[i].id != "" ==> Anonymous(nodes[..i + 1]) == Anonymous(nodes[..i])
  {
    assert nodes[..i + 1] == nodes[..i] + [nodes[i]];
    ListAppend(nodes[..i], nodes[i]);
  }

  /** Lists every source task: each id exactly once, cycles or not, the tasks without id
      in their own order, and, when no two tasks share an id and there is no cycle, every
      dependency before its dependents. */
  method ListSources(source: seq<Node>) returns (ordered: seq<Node>)
    ensures forall t | t in ordered :: t in source
    ensures Distinct(Ids(ordered)) && forall t | t in source && t.id != "" :: t.id in Ids(ordered)
    ensures Anonymous(ordered) == Anonymous(source)
    ensures UniqueIds(source) && Acyclic(SourceGraph(source)) ==> DependenciesFirst(SourceGraph(source), Ids(ordered))
  {
    var listing := new Listing(source);
    listing.VisitAll(source);
    ordered := listing.ordered;
  }

  // ------------------------------------------------------------------ runs

  /** The positions a task's run connects to: its dependencies listed above it. */
  function RunOf(ids: seq<string>, t: Node, target: nat): set<nat> {
    set d, i | d in t.dependsOn && 0 <= i < |ids| && ids[i] == d && i < target :: i
  }

  /** The positions of all its dependencies. */
  function DependencyPositions(ids: seq<string>, t: Node): set<nat> {
    set d, i | d in t.dependsOn && 0 <= i < |ids| && ids[i] == d :: i
  }

  /** In an acyclic listing the filter to positions above drops no edge. */
  lemma NoEdgeIsDropped(source: seq<Node>, ids: seq<string>, target: nat)
    requires DependenciesFirst(SourceGraph(source), ids) && Distinct(ids)
    requires forall i | 0 <= i < |ids| :: ids[i] in ById(source)
    requires target < |ids|
    ensures var t := ById(source)[ids[target]];
            RunOf(ids, t, target) == DependencyPositions(ids, t)
  {
    var t := ById(source)[ids[target]];
    forall d, i | d in t.dependsOn && 0 <= i < |ids| && ids[i] == d ensures i < target {
      assert Edge(SourceGraph(source), ids[target], d);
      var j :| 0 <= j < target && ids[j] == d;
    }
  }

  /** Every run points upwards, to exactly the dependencies listed above its task. */
  lemma RunsPointUp(ids: seq<string>, t: Node, target: nat)
    ensures forall i: nat :: i in RunOf(ids, t, target) <==> i < target && i < |ids| && ids[i] in t.dependsOn
  {
  }

  /** The positions of a set, lowest first. */
  method SortPositions(positions: set<nat>) returns (r: seq<nat>)
    ensures forall i, j | 0 <= i < j < |r| :: r[i] < r[j]
    ensures forall x :: x in r <==> x in positions
  {
    r := [];
    var rest := positions;
    while rest != {}
      invariant rest <= positions && forall x :: x in r <==> x in positions && x !in rest
      invariant forall i, j | 0 <= i < j < |r| :: r[i] < r[j]
      invariant forall x, y | x in r && y in rest :: x < y
      decreases rest
    {
      var least := LowestPosition(rest);
      assert forall i | 0 <= i < |r| :: r[i] in r;
      r := r + [least];
      rest := rest - {least};
    }
  }

  method LowestPosition(positions: set<nat>) returns (least: nat)
    requires positions != {}
    ensures least in positions && forall x | x in positions :: least <= x
  {
    least :| least in positions;
    var rest := positions - {least};
    while rest != {}
      invariant rest <= positions && least in positions
      invariant forall x | x in positions && x !in rest :: least <= x
    {
      var x :| x in rest;
      if x < least { least := x; }
      rest := rest - {x};
    }
  }

  /** The runs of a listing: for every task with a dependency listed above it, and for no
      other, the positions of exactly those, lowest first. */
  method DependencyRuns(nodes: seq<Node>, index: map<string, nat>) returns (runs: map<nat, seq<nat>>)
    ensures forall target: nat :: target in runs <==>
              && target < |nodes|
              && exists d :: d in nodes[target].dependsOn && d in index && index[d] < target
    ensures forall target | target in runs ::
              && (forall i, j | 0 <= i < j < |runs[target]| :: runs[target][i] < runs[target][j])
              && forall p :: p in runs[target] <==>
                   p < target && exists d :: d in nodes[target].dependsOn && d in index && index[d] == p
  {
    runs := map[];
    for target := 0 to |nodes|
      invariant forall t: nat :: t in runs <==>
                  t < target && exists d :: d in nodes[t].dependsOn && d in index && index[d] < t
      invariant forall t | t in runs ::
                  && (forall i, j | 0 <= i < j < |runs[t]| :: runs[t][i] < runs[t][j])
                  && forall p :: p in runs[t] <==>
                       p < t && exists d :: d in nodes[t].dependsOn && d in index && index[d] == p
    {
      var positions := set d | d in nodes[target].dependsOn && d in index && index[d] < target :: index[d];
      var sorted := SortPositions(positions);
      assert sorted == [] || sorted[0] in positions;
      if d :| d in nodes[target].dependsOn && d in index && index[d] < target { assert index[d] in positions; }
      if sorted != [] { runs := runs[target := sorted]; }
    }
  }
}
