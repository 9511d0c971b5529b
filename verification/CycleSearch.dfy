/** `findTaskCycle`: a depth-first search that shares its visited set, its stack
    and its path between the recursive calls. */
module CycleSearch {
  import opened Options
  import opened Sequences
  import opened TaskGraphs

  /** The search's shared state between two statements: the path is a walk without
      repetition and is what is on the stack; a finished task depends, within the
      nodes, only on tasks finished before it; visited means one or the other. */
  ghost predicate Searching(deps: Dependencies, nodes: set<TaskId>, visited: set<TaskId>, stack: set<TaskId>,
                            path: seq<TaskId>, finished: seq<TaskId>) {
    && Distinct(path) && stack == Elements(path) && stack <= nodes && IsWalk(deps, nodes, path)
    && Distinct(finished) && Elements(finished) <= nodes && EachDependsOnEarlier(deps, nodes, finished)
    && visited == stack + Elements(finished) && stack !! Elements(finished)
  }

  lemma Enter(deps: Dependencies, nodes: set<TaskId>, visited: set<TaskId>, stack: set<TaskId>,
              path: seq<TaskId>, finished: seq<TaskId>, id: TaskId)
    requires Searching(deps, nodes, visited, stack, path, finished) && id in nodes && id !in visited
    requires path != [] ==> Edge(deps, nodes, path[|path| - 1], id)
    ensures Searching(deps, nodes, visited + {id}, stack + {id}, path + [id], finished)
  {
    if path != [] {
      ExtendWalk(deps, nodes, path, id);
    }
    DistinctExtends(path, id);
    ElementsExtend(path, id);
  }

  lemma Leave(deps: Dependencies, nodes: set<TaskId>, visited: set<TaskId>, stack: set<TaskId>,
              path: seq<TaskId>, finished: seq<TaskId>, id: TaskId)
    requires Searching(deps, nodes, visited, stack, path + [id], finished)
    requires forall d :: d in DependenciesOf(deps, id) && d in nodes ==> d in finished
    ensures Searching(deps, nodes, visited, stack - {id}, path, finished + [id])
  {
    DropLastOfWalk(deps, nodes, path, id);
    ElementsExtend(path, id);
    EarlierExtends(deps, nodes, finished, id);
    DistinctExtends(finished, id);
    ElementsExtend(finished, id);
  }

  /** What the search knows of a dependency of the task on top of the path. */
  lemma StepDown(deps: Dependencies, nodes: set<TaskId>, visited: set<TaskId>, stack: set<TaskId>,
                 path: seq<TaskId>, finished: seq<TaskId>, id: TaskId, d: TaskId)
    requires Searching(deps, nodes, visited, stack, path, finished)
    requires path != [] && path[|path| - 1] == id && d in nodes && d in DependenciesOf(deps, id)
    ensures Edge(deps, nodes, path[|path| - 1], d)
    ensures Distinct(path) && IsWalk(deps, nodes, path) && (d in stack <==> d in path)
    ensures d in visited && d !in stack ==> d in finished
  {
    assert id in Elements(path);
  }

  class CycleFinder {
    const deps: Dependencies
    const nodes: set<TaskId>

    var visited: set<TaskId>
    var stack: set<TaskId>
    var path: seq<TaskId>
    /** The tasks whose walk has returned without a cycle, in the order it returned. */
    ghost var finished: seq<TaskId>

    constructor (deps: Dependencies, nodes: set<TaskId>)
      ensures this.deps == deps && this.nodes == nodes
      ensures Valid() && path == [] && finished == []
    {
      this.deps, this.nodes := deps, nodes;
      visited, stack, path, finished := {}, {}, [], [];
    }

    ghost predicate Valid()
      reads this
    {
      Searching(deps, nodes, visited, stack, path, finished)
    }

    /** Finds a simple cycle, or finishes the task and everything it reaches. */
    method Walk(taskId: TaskId) returns (cycle: Option<seq<TaskId>>)
      requires Valid() && taskId in nodes && taskId !in visited
      requires path != [] ==> Edge(deps, nodes, path[|path| - 1], taskId)
      modifies this
      ensures cycle.Some? ==> IsSimpleCycle(deps, nodes, cycle.value)
      ensures cycle.None? ==> Valid() && path == old(path) && old(finished) <= finished && taskId in finished
      ensures cycle.None? ==> old(visited) <= visited
      decreases nodes - visited
    {
      hide Searching, IsWalk, Distinct, Edge;
      ghost var visited0 := visited;
      Enter(deps, nodes, visited, stack, path, finished, taskId);
      visited := visited + {taskId};
      stack := stack + {taskId};
      path := path + [taskId];

      var ds := DependenciesOf(deps, taskId);
      for i := 0 to |ds|
        invariant Valid() && path == old(path) + [taskId] && old(finished) <= finished
        invariant old(visited) + {taskId} <= visited
        invariant forall j :: 0 <= j < i && ds[j] in nodes ==> ds[j] in finished
      {
        var d := ds[i];
        if d in nodes {
          StepDown(deps, nodes, visited, stack, path, finished, taskId, d);
          if d !in visited {
            cycle := Walk(d);
            if cycle.Some? {
              return;
            }
          } else if d in stack {
            var start := IndexOf(path, d);
            CloseCycle(deps, nodes, path, start);
            return Some(path[start..] + [d]);
          }
        }
      }

      Leave(deps, nodes, visited, stack, old(path), finished, taskId);
      assert path[..|path| - 1] == old(path);
      assert visited0 <= visited;
      path := path[..|path| - 1];
      stack := stack - {taskId};
      finished := finished + [taskId];
      cycle := None;
    }
  }

  method IndexOf(path: seq<TaskId>, id: TaskId) returns (at: nat)
    requires id in path
    ensures at < |path| && path[at] == id && id !in path[..at]
  {
    at := 0;
    while path[at] != id
      invariant at < |path| && id !in path[..at]
      decreases |path| - at
    {
      at := at + 1;
    }
  }

  lemma DropLastOfWalk(deps: Dependencies, nodes: set<TaskId>, p: seq<TaskId>, id: TaskId)
    requires IsWalk(deps, nodes, p + [id]) && Distinct(p + [id])
    ensures IsWalk(deps, nodes, p) && Distinct(p) && id !in p
  {
    var q := p + [id];
    assert q[|p|] == id;
    forall i | 0 <= i < |p| - 1 ensures Edge(deps, nodes, p[i], p[i + 1]) {
      assert Edge(deps, nodes, q[i], q[i + 1]);
    }
    forall i, j | 0 <= i < j < |p| ensures p[i] != p[j] {
      assert q[i] == p[i] && q[j] == p[j];
    }
    forall i | 0 <= i < |p| ensures p[i] != id {
      assert q[i] == p[i];
    }
  }

  /** Returns a simple cycle whenever the graph restricted to `remaining` has a
      cycle, and falls back to `remaining` itself exactly when it has none. */
  method FindTaskCycle(deps: Dependencies, remaining: seq<TaskId>) returns (r: seq<TaskId>)
    ensures Acyclic(deps, Elements(remaining)) ==> r == remaining
    ensures !Acyclic(deps, Elements(remaining)) ==> IsSimpleCycle(deps, Elements(remaining), r)
  {
    hide IsWalk, Distinct;
    ghost var nodes := Elements(remaining);
    var finder := new CycleFinder(deps, set id | id in remaining);
    for i := 0 to |remaining|
      invariant fresh(finder) && finder.deps == deps && finder.nodes == nodes
      invariant finder.Valid() && finder.path == []
      invariant forall j :: 0 <= j < i ==> remaining[j] in finder.visited
    {
      var taskId := remaining[i];
      if taskId !in finder.visited {
        var cycle := finder.Walk(taskId);
        if cycle.Some? {
          assert IsCycle(deps, nodes, cycle.value);
          return cycle.value;
        }
      }
    }
    assert IsTopological(deps, nodes, finder.finished);
    TopologicalIsAcyclic(deps, nodes, finder.finished);
    return remaining;
  }
}
