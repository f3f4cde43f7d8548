/**
 The depth-first cycle check that execution graphs, plans and merge orders share: mutable sets of
 nodes being visited and nodes already visited.
 */
module Acyclicity {
  import opened Lists

  /** Successor lists; a node without an entry has no successors. */
  type Graph = map<string, seq<string>>

  function Successors(g: Graph, node: string): seq<string> {
    if node in g then g[node] else []
  }

  function Universe(g: Graph): set<string> {
    g.Keys + set k, s | k in g && s in g[k] :: s
  }

  predicate StepAt(g: Graph, p: seq<string>, i: int) {
    0 <= i < |p| - 1 ==> p[i + 1] in Successors(g, p[i])
  }

  ghost predicate IsPath(g: Graph, p: seq<string>) {
    forall i {:trigger StepAt(g, p, i)} :: StepAt(g, p, i)
  }

  ghost predicate IsCycle(g: Graph, p: seq<string>) {
    |p| >= 2 && p[0] == p[|p| - 1] && IsPath(g, p)
  }

  ghost predicate HasCycle(g: Graph) {
    exists p :: IsCycle(g, p)
  }

  predicate AfterSuccessorsAt(g: Graph, order: seq<string>, i: int) {
    0 <= i < |order| ==> forall s :: s in Successors(g, order[i]) ==> s in order[..i]
  }

  ghost predicate AfterSuccessors(g: Graph, order: seq<string>) {
    forall i {:trigger AfterSuccessorsAt(g, order, i)} :: AfterSuccessorsAt(g, order, i)
  }

  predicate DifferAt(s: seq<string>, i: int, j: int) {
    0 <= i < j < |s| ==> s[i] != s[j]
  }

  ghost predicate Distinct(s: seq<string>) {
    forall i, j {:trigger DifferAt(s, i, j)} :: DifferAt(s, i, j)
  }

  lemma DistinctExtends(s: seq<string>, x: string)
    requires Distinct(s) && x !in s
    ensures Distinct(s + [x])
  {
    forall i, j {:trigger DifferAt(s + [x], i, j)} ensures DifferAt(s + [x], i, j) {
      assert DifferAt(s, i, j);
    }
  }

  lemma DistinctPrefix(s: seq<string>, n: nat)
    requires Distinct(s) && n <= |s|
    ensures Distinct(s[..n])
    ensures n < |s| ==> s[n] !in s[..n]
  {
    forall i, j {:trigger DifferAt(s[..n], i, j)} ensures DifferAt(s[..n], i, j) {
      assert DifferAt(s, i, j);
    }
    forall i | 0 <= i < n < |s| ensures s[i] != s[n] {
      assert DifferAt(s, i, n);
    }
  }

  /** Every node once, each after all its successors. */
  ghost predicate IsTopological(g: Graph, order: seq<string>) {
    Distinct(order) && (forall k :: k in g ==> k in order) && AfterSuccessors(g, order)
  }

  lemma PositionIsUnique(order: seq<string>, j: nat)
    requires Distinct(order) && j < |order|
    ensures IndexOf(order, order[j]) == j
  {
    var k := IndexOf(order, order[j]);
    assert DifferAt(order, j, k) && DifferAt(order, k, j);
  }

  /** Along a path, positions in a topological order go down. */
  lemma {:induction false} PathDescends(g: Graph, order: seq<string>, p: seq<string>, n: nat)
    requires IsTopological(g, order) && IsPath(g, p) && 0 < n < |p| && p[0] in g
    ensures p[0] in order && p[n] in order && IndexOf(order, p[n]) < IndexOf(order, p[0])
    decreases n
  {
    var before := n - 1;
    if n > 1 {
      PathDescends(g, order, p, before);
    }
    assert StepAt(g, p, before);
    var i := IndexOf(order, p[before]);
    assert AfterSuccessorsAt(g, order, i) && order[i] == p[before];
    var j :| 0 <= j < i && order[j] == p[n];
    PositionIsUnique(order, j);
  }

  /** A graph with a topological order has no cycle. */
  lemma OrderExcludesCycle(g: Graph, order: seq<string>)
    requires IsTopological(g, order)
    ensures !HasCycle(g)
  {
    if p :| IsCycle(g, p) {
      assert StepAt(g, p, 0);
      PathDescends(g, order, p, |p| - 1);
    }
  }

  /** A path that comes back to one of its own nodes contains a cycle. */
  lemma ClosingPath(g: Graph, p: seq<string>, node: string)
    requires IsPath(g, p) && node in p && node in Successors(g, p[|p| - 1])
    ensures HasCycle(g)
  {
    var i :| 0 <= i < |p| && p[i] == node;
    var cycle := p[i..] + [node];
    forall k {:trigger StepAt(g, cycle, k)} ensures StepAt(g, cycle, k) {
      assert StepAt(g, p, i + k);
    }
    assert IsCycle(g, cycle);
  }

  class CycleCheck {
    const graph: Graph
    var visiting: set<string>
    var visited: set<string>
    ghost var path: seq<string>
    ghost var order: seq<string>

    constructor (graph: Graph)
      ensures this.graph == graph && Inv() && path == [] && order == []
    {
      this.graph := graph;
      visiting, visited, path, order := {}, {}, [], [];
    }

    /** `visiting` is the path being explored; `visited` are finished nodes, in the order they finished. */
    ghost predicate Inv()
      reads this
    {
      && IsPath(graph, path) && Distinct(path) && (forall x :: x in visiting <==> x in path)
      && AfterSuccessors(graph, order) && Distinct(order) && (forall x :: x in visited <==> x in order)
      && visiting !! visited && visiting <= Universe(graph)
    }

    method Visit(node: string) returns (ok: bool)
      requires Inv() && node in Universe(graph)
      requires path == [] || node in Successors(graph, path[|path| - 1])
      modifies this
      ensures ok ==> Inv() && path == old(path) && visiting == old(visiting) && old(order) <= order && node in visited
      ensures !ok ==> HasCycle(graph)
      decreases Universe(graph) - visiting
    {
      if node in visiting {
        ClosingPath(graph, path, node);
        return false;
      }
      if node in visited {
        return true;
      }
      Enter(node);
      var next := Successors(graph, node);
      for i := 0 to |next|
        invariant Inv() && path == old(path) + [node] && visiting == old(visiting) + {node} && old(order) <= order
        invariant forall j :: 0 <= j < i ==> next[j] in visited
      {
        assert next[i] in Successors(graph, path[|path| - 1]);
        ok := Visit(next[i]);
        if !ok {
          return false;
        }
      }
      Finish(node);
      ok := true;
    }

    method Enter(node: string)
      requires Inv() && node in Universe(graph) && node !in visiting && node !in visited
      requires path == [] || node in Successors(graph, path[|path| - 1])
      modifies this
      ensures Inv() && path == old(path) + [node] && visiting == old(visiting) + {node}
      ensures order == old(order) && visited == old(visited)
    {
      DistinctExtends(path, node);
      visiting := visiting + {node};
      path := path + [node];
      forall i {:trigger StepAt(graph, path, i)} ensures StepAt(graph, path, i) {
        assert StepAt(graph, old(path), i);
      }
    }

    method Finish(node: string)
      requires Inv() && path != [] && path[|path| - 1] == node && forall s :: s in Successors(graph, node) ==> s in visited
      modifies this
      ensures Inv() && path == old(path)[..|old(path)| - 1] && visiting == old(visiting) - {node}
      ensures order == old(order) + [node] && visited == old(visited) + {node}
    {
      DistinctPrefix(path, |path| - 1);
      DistinctExtends(order, node);
      assert path == path[..|path| - 1] + [node];
      visiting := visiting - {node};
      visited := visited + {node};
      path := path[..|path| - 1];
      order := order + [node];
      forall i {:trigger StepAt(graph, path, i)} ensures StepAt(graph, path, i) {
        assert StepAt(graph, old(path), i);
      }
      forall i {:trigger AfterSuccessorsAt(graph, order, i)} ensures AfterSuccessorsAt(graph, order, i) {
        assert AfterSuccessorsAt(graph, old(order), i);
        assert order[..|order| - 1] == old(order);
      }
    }
  }

  /** The check accepts exactly the graphs that have a topological order, which are those without a cycle. */
  method IsAcyclic(g: Graph, nodes: seq<string>) returns (ok: bool, ghost order: seq<string>)
    requires forall k :: k in g <==> k in nodes
    ensures ok ==> IsTopological(g, order)
    ensures ok <==> !HasCycle(g)
    ensures ok <==> exists o :: IsTopological(g, o)
  {
    var check := new CycleCheck(g);
    order := [];
    for i := 0 to |nodes|
      invariant fresh(check) && check.graph == g && check.Inv() && check.path == []
      invariant forall j :: 0 <= j < i ==> nodes[j] in check.visited
    {
      assert nodes[i] in g;
      ok := check.Visit(nodes[i]);
      if !ok {
        if o :| IsTopological(g, o) {
          OrderExcludesCycle(g, o);
        }
        return false, [];
      }
    }
    order := check.order;
    assert IsTopological(g, order);
    OrderExcludesCycle(g, order);
    ok := true;
  }
}
