/** The three places that rely on the cycle check: execution plans, task graphs and merge orders. */
module GraphValidation {
  import opened Common
  import opened Acyclicity

  // ---------------------------------------------------------------- execution plans

  datatype Step = Step(id: string, dependsOn: seq<string>)

  datatype PlanError = DuplicateStep | BadDependency | Cycle | NoTerminal | UnknownTerminal | NotTerminal

  ghost predicate UniqueSteps(steps: seq<Step>) {
    forall i, j :: 0 <= i < j < |steps| ==> steps[i].id != steps[j].id
  }

  predicate IsStep(steps: seq<Step>, id: string) {
    exists i :: 0 <= i < |steps| && steps[i].id == id
  }

  predicate DependedUpon(steps: seq<Step>, id: string) {
    exists i :: 0 <= i < |steps| && id in steps[i].dependsOn
  }

  predicate KnownDependencies(steps: seq<Step>, i: nat)
    requires i < |steps|
  {
    forall d :: d in steps[i].dependsOn ==> d != steps[i].id && IsStep(steps, d)
  }

  /** The dependency graph of a plan, with an edge from a step to each of its dependencies. */
  ghost predicate IsPlanGraph(steps: seq<Step>, n: nat, g: Graph)
    requires n <= |steps|
  {
    && (forall k :: k in g <==> exists i :: 0 <= i < n && steps[i].id == k)
    && (forall i :: 0 <= i < n ==> steps[i].id in g && g[steps[i].id] == steps[i].dependsOn)
  }

  /** An order that runs every step after the steps it depends on. */
  ghost predicate Schedules(steps: seq<Step>, order: seq<string>) {
    && Distinct(order)
    && (forall i :: 0 <= i < |steps| ==> steps[i].id in order)
    && forall i, k :: 0 <= i < |steps| && 0 <= k < |order| && order[k] == steps[i].id ==>
         forall d :: d in steps[i].dependsOn ==> d in order[..k]
  }

  ghost predicate Schedulable(steps: seq<Step>) {
    exists order :: Schedules(steps, order)
  }

  /** The first problem in the order in which the source looks for them. */
  ghost function Problem(steps: seq<Step>, terminals: seq<string>): Option<PlanError> {
    if !UniqueSteps(steps) then Some(DuplicateStep)
    else if exists i :: 0 <= i < |steps| && !KnownDependencies(steps, i) then Some(BadDependency)
    else if !Schedulable(steps) then Some(Cycle)
    else if terminals == [] then Some(NoTerminal)
    else if exists t :: t in terminals && !IsStep(steps, t) then Some(UnknownTerminal)
    else if exists t :: t in terminals && DependedUpon(steps, t) then Some(NotTerminal)
    else None
  }

  lemma TopologicalIsSchedule(steps: seq<Step>, g: Graph, order: seq<string>)
    requires IsPlanGraph(steps, |steps|, g)
    requires forall i :: 0 <= i < |steps| ==> KnownDependencies(steps, i)
    ensures IsTopological(g, order) ==> Schedules(steps, order)
    ensures Schedules(steps, order) ==> exists o :: IsTopological(g, o)
  {
    if IsTopological(g, order) {
      forall i, k | 0 <= i < |steps| && 0 <= k < |order| && order[k] == steps[i].id
        ensures forall d :: d in steps[i].dependsOn ==> d in order[..k]
      {
        assert AfterSuccessorsAt(g, order, k);
      }
    }
    if Schedules(steps, order) {
      forall i {:trigger AfterSuccessorsAt(g, order, i)} ensures AfterSuccessorsAt(g, order, i) {
      }
      assert IsTopological(g, order);
    }
  }

  method IndexSteps(steps: seq<Step>) returns (unique: bool, stepById: Graph, ids: seq<string>)
    ensures unique <==> UniqueSteps(steps)
    ensures unique ==> IsPlanGraph(steps, |steps|, stepById) && forall k :: k in stepById <==> k in ids
  {
    stepById, ids := map[], [];
    for i := 0 to |steps|
      invariant IsPlanGraph(steps, i, stepById) && forall k :: k in stepById <==> k in ids
      invariant forall j, k :: 0 <= j < k < i ==> steps[j].id != steps[k].id
    {
      if steps[i].id in stepById {
        return false, stepById, ids;
      }
      stepById := stepById[steps[i].id := steps[i].dependsOn];
      ids := ids + [steps[i].id];
    }
    unique := true;
  }

  /** The plan's steps can be scheduled exactly when its dependency graph passes the cycle check. */
  method CanSchedule(steps: seq<Step>, stepById: Graph, ids: seq<string>) returns (ok: bool, ghost order: seq<string>)
    requires IsPlanGraph(steps, |steps|, stepById) && forall k :: k in stepById <==> k in ids
    requires forall i :: 0 <= i < |steps| ==> KnownDependencies(steps, i)
    ensures ok <==> Schedulable(steps)
    ensures ok ==> Schedules(steps, order)
  {
    ok, order := IsAcyclic(stepById, ids);
    if ok {
      TopologicalIsSchedule(steps, stepById, order);
    } else if o :| Schedules(steps, o) {
      TopologicalIsSchedule(steps, stepById, o);
    }
  }

  /** A plan passes validation exactly when it has no problem; the cycle error means no schedule exists. */
  method ValidateExecutionPlan(steps: seq<Step>, terminals: seq<string>) returns (r: Option<PlanError>, ghost order: seq<string>)
    ensures r == Problem(steps, terminals)
    ensures r.None? ==> Schedules(steps, order)
  {
    var unique, stepById, ids := IndexSteps(steps);
    order := [];
    if !unique {
      return Some(DuplicateStep), [];
    }
    for i := 0 to |steps|
      invariant forall j :: 0 <= j < i ==> KnownDependencies(steps, j)
    {
      if exists d :: d in steps[i].dependsOn && (d == steps[i].id || d !in stepById) {
        assert !KnownDependencies(steps, i);
        return Some(BadDependency), [];
      }
    }
    var schedulable;
    schedulable, order := CanSchedule(steps, stepById, ids);
    if !schedulable {
      return Some(Cycle), [];
    }
    if terminals == [] {
      return Some(NoTerminal), [];
    }
    if exists t :: t in terminals && t !in stepById {
      return Some(UnknownTerminal), [];
    }
    if exists t :: t in terminals && DependedUpon(steps, t) {
      return Some(NotTerminal), [];
    }
    r := None;
  }

  // ---------------------------------------------------------------- edge lists

  datatype Edge = Edge(before: string, after: string)

  ghost predicate AlongEdges(edges: seq<Edge>, p: seq<string>) {
    forall i {:trigger p[i + 1]} :: 0 <= i < |p| - 1 ==> Edge(p[i], p[i + 1]) in edges
  }

  ghost predicate EdgeCycle(edges: seq<Edge>, p: seq<string>) {
    |p| >= 2 && p[0] == p[|p| - 1] && AlongEdges(edges, p)
  }

  ghost predicate HasEdgeCycle(edges: seq<Edge>) {
    exists p :: EdgeCycle(edges, p)
  }

  ghost predicate Linked(g: Graph, edges: seq<Edge>, a: string, b: string) {
    b in Successors(g, a) <==> Edge(a, b) in edges
  }

  ghost predicate Represents(g: Graph, edges: seq<Edge>) {
    forall a, b {:trigger Linked(g, edges, a, b)} :: Linked(g, edges, a, b)
  }

  lemma SameCycles(g: Graph, edges: seq<Edge>)
    requires Represents(g, edges)
    ensures HasCycle(g) <==> HasEdgeCycle(edges)
  {
    if p :| IsCycle(g, p) {
      forall i {:trigger p[i + 1]} | 0 <= i < |p| - 1 ensures Edge(p[i], p[i + 1]) in edges {
        assert StepAt(g, p, i) && Linked(g, edges, p[i], p[i + 1]);
      }
      assert EdgeCycle(edges, p);
    }
    if p :| EdgeCycle(edges, p) {
      forall i {:trigger StepAt(g, p, i)} ensures StepAt(g, p, i) {
        if 0 <= i < |p| - 1 {
          assert Linked(g, edges, p[i], p[i + 1]);
        }
      }
      assert IsCycle(g, p);
    }
  }

  datatype Constraint = Constraint(predecessor: string, successor: string, active: bool)

  function ActiveEdges(constraints: seq<Constraint>, n: nat): seq<Edge>
    requires n <= |constraints|
  {
    if n == 0 then []
    else ActiveEdges(constraints, n - 1)
         + if constraints[n - 1].active then [Edge(constraints[n - 1].predecessor, constraints[n - 1].successor)] else []
  }

  lemma RepresentsMore(g: Graph, edges: seq<Edge>, a: string, b: string)
    requires Represents(g, edges)
    ensures Represents(g[a := Successors(g, a) + [b]], edges + [Edge(a, b)])
  {
    var more := g[a := Successors(g, a) + [b]];
    forall x, y ensures Linked(more, edges + [Edge(a, b)], x, y) {
      assert Linked(g, edges, x, y);
    }
  }

  /** A set of merge-order constraints is accepted exactly when its active ones contain no cycle. */
  method AssertMergeOrderAcyclic(constraints: seq<Constraint>) returns (ok: bool)
    ensures ok <==> !HasEdgeCycle(ActiveEdges(constraints, |constraints|))
  {
    var graph: Graph := map[];
    var nodes: seq<string> := [];
    for i := 0 to |constraints|
      invariant Represents(graph, ActiveEdges(constraints, i))
      invariant forall k :: k in graph <==> k in nodes
    {
      var c := constraints[i];
      if c.active {
        if c.predecessor !in graph {
          nodes := nodes + [c.predecessor];
        }
        RepresentsMore(graph, ActiveEdges(constraints, i), c.predecessor, c.successor);
        graph := graph[c.predecessor := Successors(graph, c.predecessor) + [c.successor]];
      } else {
        assert ActiveEdges(constraints, i) + [] == ActiveEdges(constraints, i);
      }
    }
    SameCycles(graph, ActiveEdges(constraints, |constraints|));
    ghost var order;
    ok, order := IsAcyclic(graph, nodes);
  }

  datatype GraphError = DuplicateTask | BadEdge | GraphCycle

  ghost function GraphProblem(tasks: seq<string>, edges: seq<Edge>): Option<GraphError> {
    if exists i, j :: 0 <= i < j < |tasks| && tasks[i] == tasks[j] then Some(DuplicateTask)
    else if exists e :: e in edges && (e.before == e.after || e.before !in tasks || e.after !in tasks) then Some(BadEdge)
    else if HasEdgeCycle(edges) then Some(GraphCycle)
    else None
  }

  method EmptyAdjacency(tasks: seq<string>) returns (unique: bool, adjacency: Graph)
    ensures unique <==> forall i, j :: 0 <= i < j < |tasks| ==> tasks[i] != tasks[j]
    ensures unique ==> (forall k :: k in adjacency <==> k in tasks) && forall k :: k in adjacency ==> adjacency[k] == []
  {
    adjacency := map[];
    for i := 0 to |tasks|
      invariant forall k :: k in adjacency <==> k in tasks[..i]
      invariant forall k :: k in adjacency ==> adjacency[k] == []
      invariant forall j, k :: 0 <= j < k < i ==> tasks[j] != tasks[k]
    {
      if tasks[i] in adjacency {
        return false, adjacency;
      }
      adjacency := adjacency[tasks[i] := []];
    }
    unique := true;
  }

  /** A task graph is accepted exactly when ids are unique, edges join different known tasks, and no cycle exists. */
  method ValidateExecutionGraph(tasks: seq<string>, edges: seq<Edge>) returns (r: Option<GraphError>)
    ensures r == GraphProblem(tasks, edges)
  {
    var unique, adjacency := EmptyAdjacency(tasks);
    if !unique {
      return Some(DuplicateTask);
    }
    for i := 0 to |edges|
      invariant forall k :: k in adjacency <==> k in tasks
      invariant Represents(adjacency, edges[..i])
      invariant forall e :: e in edges[..i] ==> e.before != e.after && e.before in tasks && e.after in tasks
    {
      var e := edges[i];
      if e.before == e.after || e.before !in adjacency || e.after !in adjacency {
        return Some(BadEdge);
      }
      RepresentsMore(adjacency, edges[..i], e.before, e.after);
      adjacency := adjacency[e.before := adjacency[e.before] + [e.after]];
      assert edges[..i + 1] == edges[..i] + [e];
    }
    assert edges[..|edges|] == edges;
    SameCycles(adjacency, edges);
    var acyclic;
    ghost var order;
    acyclic, order := IsAcyclic(adjacency, tasks);
    r := if acyclic then None else Some(GraphCycle);
  }

  // ---------------------------------------------------------------- what each error means

  /** Every error names a fault that is there, and none of those that are looked for before it. */
  lemma ProblemMeans(steps: seq<Step>, terminals: seq<string>)
    ensures Problem(steps, terminals) == Some(DuplicateStep) <==>
      exists i, j :: 0 <= i < j < |steps| && steps[i].id == steps[j].id
    ensures Problem(steps, terminals) == Some(BadDependency) ==>
      exists i, d :: 0 <= i < |steps| && d in steps[i].dependsOn && (d == steps[i].id || forall j :: 0 <= j < |steps| ==> steps[j].id != d)
    ensures Problem(steps, terminals) == Some(Cycle) ==> forall order :: !Schedules(steps, order)
    ensures Problem(steps, terminals) == Some(NoTerminal) ==> terminals == []
    ensures Problem(steps, terminals) == Some(UnknownTerminal) ==>
      exists t :: t in terminals && forall j :: 0 <= j < |steps| ==> steps[j].id != t
    ensures Problem(steps, terminals) == Some(NotTerminal) ==>
      exists t, i :: t in terminals && 0 <= i < |steps| && t in steps[i].dependsOn
    ensures Problem(steps, terminals) == None ==> terminals != [] && exists order :: Schedules(steps, order)
  {
    if Problem(steps, terminals) == Some(BadDependency) {
      var i :| 0 <= i < |steps| && !KnownDependencies(steps, i);
      var d :| d in steps[i].dependsOn && !(d != steps[i].id && IsStep(steps, d));
      assert 0 <= i < |steps| && d in steps[i].dependsOn && (d == steps[i].id || forall j :: 0 <= j < |steps| ==> steps[j].id != d);
    }
    if Problem(steps, terminals) == Some(NotTerminal) {
      var t :| t in terminals && DependedUpon(steps, t);
      var i :| 0 <= i < |steps| && t in steps[i].dependsOn;
      assert t in terminals && 0 <= i < |steps| && t in steps[i].dependsOn;
    }
  }

  lemma GraphProblemMeans(tasks: seq<string>, edges: seq<Edge>)
    ensures GraphProblem(tasks, edges) == Some(DuplicateTask) <==> exists i, j :: 0 <= i < j < |tasks| && tasks[i] == tasks[j]
    ensures GraphProblem(tasks, edges) == Some(BadEdge) ==>
      exists e :: e in edges && (e.before == e.after || e.before !in tasks || e.after !in tasks)
    ensures GraphProblem(tasks, edges) == Some(GraphCycle) ==> exists p :: EdgeCycle(edges, p)
    ensures GraphProblem(tasks, edges) == None ==>
      && (forall e :: e in edges ==> e.before != e.after && e.before in tasks && e.after in tasks)
      && forall p :: !EdgeCycle(edges, p)
  {
  }
}
