/** Dependency graphs of tasks, their cycles and their topological orders.

    A graph is the map the evaluator builds from the dependency table
    (`listTaskDependencies`), read relative to a set of nodes: an edge leads
    from a task to a task it depends on, and counts only between two nodes. */
module TaskGraphs {
  import opened Sequences

  type TaskId = string

  type Dependencies = map<TaskId, seq<TaskId>>

  /** The lookup `dependencies.get(id) ?? []`. */
  function DependenciesOf(deps: Dependencies, id: TaskId): seq<TaskId> {
    if id in deps then deps[id] else []
  }

  predicate Edge(deps: Dependencies, nodes: set<TaskId>, from: TaskId, to: TaskId) {
    from in nodes && to in nodes && to in DependenciesOf(deps, from)
  }

  predicate IsWalk(deps: Dependencies, nodes: set<TaskId>, p: seq<TaskId>) {
    forall i :: 0 <= i < |p| - 1 ==> Edge(deps, nodes, p[i], p[i + 1])
  }

  predicate IsCycle(deps: Dependencies, nodes: set<TaskId>, p: seq<TaskId>) {
    |p| >= 2 && p[0] == p[|p| - 1] && IsWalk(deps, nodes, p)
  }

  /** A cycle that repeats nothing but its end point. */
  predicate IsSimpleCycle(deps: Dependencies, nodes: set<TaskId>, p: seq<TaskId>) {
    IsCycle(deps, nodes, p) && Distinct(p[..|p| - 1])
  }

  ghost predicate Acyclic(deps: Dependencies, nodes: set<TaskId>) {
    forall p :: !IsCycle(deps, nodes, p)
  }

  /** Every dependency of every node is itself a node. */
  predicate Closed(deps: Dependencies, nodes: set<TaskId>) {
    forall id <- nodes, d <- DependenciesOf(deps, id) :: d in nodes
  }

  predicate DependsOnEarlier(deps: Dependencies, nodes: set<TaskId>, order: seq<TaskId>, i: nat)
    requires i < |order|
  {
    forall d :: d in DependenciesOf(deps, order[i]) && d in nodes ==> d in order[..i]
  }

  predicate EachDependsOnEarlier(deps: Dependencies, nodes: set<TaskId>, order: seq<TaskId>) {
    forall i {:trigger DependsOnEarlier(deps, nodes, order, i)} :: 0 <= i < |order| ==>
        DependsOnEarlier(deps, nodes, order, i)
  }

  /** `order` lists the nodes once each, every node after the nodes it depends on. */
  predicate IsTopological(deps: Dependencies, nodes: set<TaskId>, order: seq<TaskId>) {
    && Distinct(order)
    && Elements(order) == nodes
    && EachDependsOnEarlier(deps, nodes, order)
  }

  lemma EarlierExtends(deps: Dependencies, nodes: set<TaskId>, order: seq<TaskId>, id: TaskId)
    requires EachDependsOnEarlier(deps, nodes, order)
    requires forall d :: d in DependenciesOf(deps, id) && d in nodes ==> d in order
    ensures EachDependsOnEarlier(deps, nodes, order + [id])
  {
    var longer := order + [id];
    forall i | 0 <= i < |longer| ensures DependsOnEarlier(deps, nodes, longer, i) {
      if i < |order| {
        assert DependsOnEarlier(deps, nodes, order, i) && longer[..i] == order[..i];
      } else {
        assert longer[..i] == order;
      }
    }
  }

  lemma NoSelfDependency(deps: Dependencies, nodes: set<TaskId>, order: seq<TaskId>, at: nat)
    requires IsTopological(deps, nodes, order) && at < |order|
    ensures order[at] !in DependenciesOf(deps, order[at])
  {
    assert order[at] in Elements(order);
    assert DependsOnEarlier(deps, nodes, order, at);
  }

  /** Along a walk, positions in a topological order strictly fall. */
  lemma {:induction false} WalkFalls(deps: Dependencies, nodes: set<TaskId>, order: seq<TaskId>, p: seq<TaskId>,
      at: nat)
    requires IsTopological(deps, nodes, order) && IsWalk(deps, nodes, p) && |p| >= 2
    requires at < |order| && order[at] == p[0]
    ensures p[|p| - 1] in order[..at]
  {
    assert Edge(deps, nodes, p[0], p[1]) && DependsOnEarlier(deps, nodes, order, at);
    var next :| 0 <= next < at && order[next] == p[1];
    if |p| > 2 {
      WalkSuffix(deps, nodes, p, 1);
      WalkFalls(deps, nodes, order, p[1..], next);
    }
  }

  lemma TopologicalIsAcyclic(deps: Dependencies, nodes: set<TaskId>, order: seq<TaskId>)
    requires IsTopological(deps, nodes, order)
    ensures Acyclic(deps, nodes)
  {
    forall p ensures !IsCycle(deps, nodes, p) {
      if IsCycle(deps, nodes, p) {
        assert Edge(deps, nodes, p[0], p[1]);
        assert p[0] in Elements(order);
        var at :| 0 <= at < |order| && order[at] == p[0];
        WalkFalls(deps, nodes, order, p, at);
        assert false;
      }
    }
  }

  ghost predicate HasDependency(deps: Dependencies, nodes: set<TaskId>, id: TaskId) {
    exists d :: Edge(deps, nodes, id, d)
  }

  ghost predicate EveryNodeDepends(deps: Dependencies, nodes: set<TaskId>) {
    forall id {:trigger HasDependency(deps, nodes, id)} :: id in nodes ==> HasDependency(deps, nodes, id)
  }

  lemma ExtendWalk(deps: Dependencies, nodes: set<TaskId>, p: seq<TaskId>, d: TaskId)
    requires p != [] && IsWalk(deps, nodes, p) && Edge(deps, nodes, p[|p| - 1], d)
    ensures IsWalk(deps, nodes, p + [d])
  {
    forall i | 0 <= i < |p| ensures Edge(deps, nodes, (p + [d])[i], (p + [d])[i + 1]) {
    }
  }

  lemma WalkSuffix(deps: Dependencies, nodes: set<TaskId>, p: seq<TaskId>, start: nat)
    requires start <= |p| && IsWalk(deps, nodes, p)
    ensures IsWalk(deps, nodes, p[start..])
  {
    forall i | 0 <= i < |p| - start - 1 ensures Edge(deps, nodes, p[start..][i], p[start..][i + 1]) {
      assert Edge(deps, nodes, p[start + i], p[start + i + 1]);
    }
  }

  /** A walk without repetition that steps back onto itself closes a simple cycle. */
  lemma CloseCycle(deps: Dependencies, nodes: set<TaskId>, p: seq<TaskId>, start: nat)
    requires start < |p| && Distinct(p) && IsWalk(deps, nodes, p) && Edge(deps, nodes, p[|p| - 1], p[start])
    ensures IsSimpleCycle(deps, nodes, p[start..] + [p[start]])
  {
    var cycle := p[start..] + [p[start]];
    WalkSuffix(deps, nodes, p, start);
    ExtendWalk(deps, nodes, p[start..], p[start]);
    assert cycle[..|cycle| - 1] == p[start..];
  }

  /** When no node is free of dependencies, following them long enough closes a cycle. */
  lemma {:induction false} ChaseCycle(deps: Dependencies, nodes: set<TaskId>, p: seq<TaskId>)
      returns (cycle: seq<TaskId>)
    requires EveryNodeDepends(deps, nodes)
    requires p != [] && Distinct(p) && IsWalk(deps, nodes, p) && Elements(p) <= nodes
    ensures IsSimpleCycle(deps, nodes, cycle)
    decreases |nodes| - |p|
  {
    var last := p[|p| - 1];
    assert last in Elements(p);
    assert HasDependency(deps, nodes, last);
    var d :| Edge(deps, nodes, last, d);
    if d in p {
      var start :| 0 <= start < |p| && p[start] == d;
      CloseCycle(deps, nodes, p, start);
      cycle := p[start..] + [p[start]];
    } else {
      var longer := p + [d];
      ExtendWalk(deps, nodes, p, d);
      assert Elements(longer) == Elements(p) + {d};
      DistinctCount(longer);
      SubsetCount(Elements(longer), nodes);
      cycle := ChaseCycle(deps, nodes, longer);
    }
  }

  /** Without a cycle some node depends on no other node. */
  lemma SomeSource(deps: Dependencies, nodes: set<TaskId>) returns (source: TaskId)
    requires nodes != {} && Acyclic(deps, nodes)
    ensures source in nodes && forall d :: !Edge(deps, nodes, source, d)
  {
    if EveryNodeDepends(deps, nodes) {
      source :| source in nodes;
      var cycle := ChaseCycle(deps, nodes, [source]);
    } else {
      source :| source in nodes && !HasDependency(deps, nodes, source);
    }
  }

  lemma CycleInMore(deps: Dependencies, fewer: set<TaskId>, nodes: set<TaskId>, p: seq<TaskId>)
    requires fewer <= nodes && IsCycle(deps, fewer, p)
    ensures IsCycle(deps, nodes, p)
  {
    forall i | 0 <= i < |p| - 1 ensures Edge(deps, nodes, p[i], p[i + 1]) {
      assert Edge(deps, fewer, p[i], p[i + 1]);
    }
  }

  lemma AcyclicInLess(deps: Dependencies, fewer: set<TaskId>, nodes: set<TaskId>)
    requires fewer <= nodes
    ensures Acyclic(deps, nodes) ==> Acyclic(deps, fewer)
  {
    forall p | IsCycle(deps, fewer, p) ensures IsCycle(deps, nodes, p) {
      CycleInMore(deps, fewer, nodes, p);
    }
  }

  /** An acyclic finite graph can be sorted: repeatedly take a node that depends on none of the rest. */
  lemma {:induction false} AcyclicIsSortable(deps: Dependencies, nodes: set<TaskId>) returns (order: seq<TaskId>)
    requires Acyclic(deps, nodes)
    ensures IsTopological(deps, nodes, order)
    decreases nodes
  {
    if nodes == {} {
      order := [];
    } else {
      var source := SomeSource(deps, nodes);
      var rest := nodes - {source};
      AcyclicInLess(deps, rest, nodes);
      var tail := AcyclicIsSortable(deps, rest);
      order := [source] + tail;
      assert Elements(order) == {source} + Elements(tail);
      assert source !in Elements(tail);
      forall i | 0 <= i < |order| ensures DependsOnEarlier(deps, nodes, order, i) {
        forall d | d in DependenciesOf(deps, order[i]) && d in nodes ensures d in order[..i] {
          if i == 0 {
            assert Edge(deps, nodes, source, d);
          } else {
            assert order[i] == tail[i - 1] && order[..i] == [source] + tail[..i - 1];
            assert DependsOnEarlier(deps, rest, tail, i - 1);
            assert d == source || d in tail[..i - 1];
          }
        }
      }
    }
  }
}
