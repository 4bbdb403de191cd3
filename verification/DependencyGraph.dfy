/** Dependency graphs and the depth-first cycle search the dry run uses. */
module DependencyGraph {
  import opened IdOrder

  /** Task id to the ids it depends on; ids that are not keys are dangling. */
  type Graph = map<string, set<string>>

  predicate Edge(g: Graph, a: string, b: string) {
    a in g && b in g[a] && b in g
  }

  /** A walk along edges between keys that returns to where it started. */
  ghost predicate ClosedWalk(g: Graph, w: seq<string>) {
    |w| >= 2 && w[0] == w[|w| - 1] && forall i | 0 <= i < |w| - 1 :: Edge(g, w[i], w[i + 1])
  }

  ghost predicate Acyclic(g: Graph) {
    forall w :: !ClosedWalk(g, w)
  }

  /** Every dependency of an entry that is a key comes earlier. */
  ghost predicate DependenciesFirst(g: Graph, order: seq<string>) {
    forall i, d | 0 <= i < |order| && Edge(g, order[i], d) :: d in order[..i]
  }

  function FirstIndex(s: seq<string>, x: string): (i: nat)
    requires x in s
    ensures i < |s| && s[i] == x && forall j | 0 <= j < i :: s[j] != x
  {
    if s[0] == x then 0 else 1 + FirstIndex(s[1..], x)
  }

  lemma {:induction false} WalkDescends(g: Graph, order: seq<string>, w: seq<string>, i: nat)
    requires DependenciesFirst(g, order) && forall k | k in g :: k in order
    requires ClosedWalk(g, w) && i < |w|
    ensures w[i] in order && w[0] in order
    ensures FirstIndex(order, w[i]) + i <= FirstIndex(order, w[0])
  {
    assert Edge(g, w[0], w[1]);
    if i > 0 {
      WalkDescends(g, order, w, i - 1);
      assert Edge(g, w[i - 1], w[i]);
      var k := FirstIndex(order, w[i - 1]);
      assert w[i] in order[..k];
      var j :| 0 <= j < k && order[j] == w[i];
    }
  }

  /** A listing of all keys with dependencies first leaves no room for a cycle. */
  lemma OrderedIsAcyclic(g: Graph, order: seq<string>)
    requires DependenciesFirst(g, order) && forall k | k in g :: k in order
    ensures Acyclic(g)
  {
    forall w ensures !ClosedWalk(g, w) {
      if ClosedWalk(g, w) { WalkDescends(g, order, w, |w| - 1); }
    }
  }

  /** A rank that falls along every edge leaves no room for a cycle either. */
  lemma RankedIsAcyclic(g: Graph, rank: string -> nat)
    requires forall a, b | Edge(g, a, b) :: rank(b) < rank(a)
    ensures Acyclic(g)
  {
    forall w ensures !ClosedWalk(g, w) {
      if ClosedWalk(g, w) { WalkSinks(g, rank, w, |w| - 1); }
    }
  }

  lemma {:induction false} WalkSinks(g: Graph, rank: string -> nat, w: seq<string>, i: nat)
    requires forall a, b | Edge(g, a, b) :: rank(b) < rank(a)
    requires ClosedWalk(g, w) && i < |w|
    ensures rank(w[i]) + i <= rank(w[0])
  {
    if i > 0 {
      WalkSinks(g, rank, w, i - 1);
      assert Edge(g, w[i - 1], w[i]);
    }
  }

  lemma WalkLifts(sub: Graph, g: Graph, w: seq<string>)
    requires forall a, b | Edge(sub, a, b) :: Edge(g, a, b)
    requires ClosedWalk(sub, w)
    ensures ClosedWalk(g, w)
  {
    forall i | 0 <= i < |w| - 1 ensures Edge(g, w[i], w[i + 1]) {
      assert Edge(sub, w[i], w[i + 1]);
    }
  }

  /** Removing edges keeps a graph acyclic. */
  lemma FewerEdgesAcyclic(sub: Graph, g: Graph)
    requires Acyclic(g)
    requires forall a, b | Edge(sub, a, b) :: Edge(g, a, b)
    ensures Acyclic(sub)
  {
    forall w ensures !ClosedWalk(sub, w) {
      if ClosedWalk(sub, w) { WalkLifts(sub, g, w); }
    }
  }

  /** Removing edges and keys keeps a graph acyclic. */
  lemma SubgraphIsAcyclic(sub: Graph, g: Graph)
    requires Acyclic(g)
    requires forall k | k in sub :: k in g && sub[k] <= g[k]
    ensures Acyclic(sub)
  {
    FewerEdgesAcyclic(sub, g);
  }

  lemma DependenciesFirstAppend(g: Graph, order: seq<string>, x: string)
    requires DependenciesFirst(g, order)
    requires forall d | Edge(g, x, d) :: d in order
    ensures DependenciesFirst(g, order + [x])
  {
    var longer := order + [x];
    forall i, d | 0 <= i < |longer| && Edge(g, longer[i], d) ensures d in longer[..i] {
      assert longer[..i] == order[..i];
    }
  }

  /** The stack is a path through exactly the nodes being visited. */
  ghost predicate PathOk(g: Graph, visiting: set<string>, stack: seq<string>) {
    && (forall x :: x in visiting <==> x in stack) && Distinct(stack)
    && (forall i | 0 <= i < |stack| :: stack[i] in g)
    && (forall i | 0 <= i < |stack| - 1 :: Edge(g, stack[i], stack[i + 1]))
  }

  /** The finished nodes are the visited ones, dependencies first. */
  ghost predicate FinishedOk(g: Graph, visited: set<string>, finished: seq<string>) {
    (forall x :: x in visited <==> x in finished) && DependenciesFirst(g, finished)
  }

  lemma PathExtends(g: Graph, visiting: set<string>, stack: seq<string>, x: string)
    requires PathOk(g, visiting, stack) && x in g && x !in visiting
    requires stack != [] ==> Edge(g, stack[|stack| - 1], x)
    ensures PathOk(g, visiting + {x}, stack + [x])
  {
  }

  lemma PathCloses(g: Graph, visiting: set<string>, stack: seq<string>, x: string)
    requires PathOk(g, visiting, stack) && x in visiting && Edge(g, stack[|stack| - 1], x)
    ensures x in stack && ClosedWalk(g, stack[FirstIndex(stack, x)..] + [x])
  {
    var start := FirstIndex(stack, x);
    var w := stack[start..] + [x];
    forall i | 0 <= i < |w| - 1 ensures Edge(g, w[i], w[i + 1]) {
      if i < |w| - 2 { assert w[i] == stack[start + i] && w[i + 1] == stack[start + i + 1]; }
    }
  }

  lemma FinishedExtends(g: Graph, visited: set<string>, finished: seq<string>, x: string)
    requires FinishedOk(g, visited, finished)
    requires forall d | Edge(g, x, d) :: d in visited
    ensures FinishedOk(g, visited + {x}, finished + [x])
  {
    DependenciesFirstAppend(g, finished, x);
  }

  class CycleSearch {
    const graph: Graph
    var visiting: set<string>
    var visited: set<string>
    var stack: seq<string>
    ghost var finished: seq<string>

    ghost predicate Valid()
      reads this
    {
      PathOk(graph, visiting, stack) && FinishedOk(graph, visited, finished)
    }

    constructor (g: Graph)
      ensures Valid() && graph == g && stack == [] && visited == {}
    {
      graph := g;
      visiting, visited, stack, finished := {}, {}, [], [];
    }

    method Visit(node: string) returns (cycle: seq<string>)
      requires Valid() && node in graph
      requires stack != [] ==> Edge(graph, stack[|stack| - 1], node)
      modifies this
      ensures cycle != [] ==> ClosedWalk(graph, cycle)
      ensures cycle == [] ==> Valid() && stack == old(stack) && visiting == old(visiting)
                              && old(visited) <= visited && node in visited
      decreases graph.Keys - visiting, 0
    {
      if node in visiting {
        PathCloses(graph, visiting, stack, node);
        var start := FirstIndex(stack, node);
        return stack[start..] + [node];
      }
      if node in visited { return []; }
      PathExtends(graph, visiting, stack, node);
      visiting := visiting + {node};
      stack := stack + [node];
      cycle := VisitDependencies(node);
      if cycle != [] { return; }
      stack := stack[..|stack| - 1];
      visiting := visiting - {node};
      FinishedExtends(graph, visited, finished, node);
      visited := visited + {node};
      finished := finished + [node];
    }

    method VisitDependencies(node: string) returns (cycle: seq<string>)
      requires Valid() && node in graph && stack != [] && stack[|stack| - 1] == node
      modifies this
      ensures cycle != [] ==> ClosedWalk(graph, cycle)
      ensures cycle == [] ==> Valid() && stack == old(stack) && visiting == old(visiting)
                              && old(visited) <= visited && forall d | Edge(graph, node, d) :: d in visited
      decreases graph.Keys - visiting, 1
    {
      var deps := SortIds(graph[node]);
      for i := 0 to |deps|
        invariant Valid() && stack == old(stack) && visiting == old(visiting)
        invariant old(visited) <= visited
        invariant forall j | 0 <= j < i && deps[j] in graph :: deps[j] in visited
      {
        if deps[i] in graph {
          cycle := Visit(deps[i]);
          if cycle != [] { return; }
        }
      }
      cycle := [];
    }
  }

  /** Empty exactly when the graph has no cycle between its keys; otherwise a real one. */
  method FindCycle(g: Graph) returns (cycle: seq<string>)
    ensures cycle == [] <==> Acyclic(g)
    ensures cycle != [] ==> ClosedWalk(g, cycle)
  {
    var search := new CycleSearch(g);
    var nodes := SortIds(g.Keys);
    for i := 0 to |nodes|
      invariant search.Valid() && search.stack == []
      invariant forall j | 0 <= j < i :: nodes[j] in search.visited
    {
      cycle := search.Visit(nodes[i]);
      if cycle != [] { return; }
    }
    OrderedIsAcyclic(g, search.finished);
    cycle := [];
  }
}
