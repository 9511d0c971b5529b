/** `validateDAG`: Kahn's algorithm by indegree, with the depth-first search of
    CycleSearch for the diagnostic. */
module DagValidation {
  import opened Sequences
  import opened TaskGraphs
  import opened CycleSearch

  datatype DAGValidationResult = Valid | Invalid(cycle: seq<TaskId>)

  /** How many entries of a dependency list are not yet visited, repeats included. */
  ghost function Unmet(ds: seq<TaskId>, visited: set<TaskId>): nat {
    if ds == [] then 0 else Unmet(ds[..|ds| - 1], visited) + if ds[|ds| - 1] in visited then 0 else 1
  }

  lemma {:induction false} UnmetOfNone(ds: seq<TaskId>)
    ensures Unmet(ds, {}) == |ds|
  {
    if ds != [] {
      UnmetOfNone(ds[..|ds| - 1]);
    }
  }

  lemma {:induction false} UnmetZero(ds: seq<TaskId>, visited: set<TaskId>)
    ensures Unmet(ds, visited) == 0 <==> forall d <- ds :: d in visited
  {
    if ds != [] {
      var front, last := ds[..|ds| - 1], ds[|ds| - 1];
      UnmetZero(front, visited);
      assert ds == front + [last];
    }
  }

  /** Visiting one more task meets exactly its occurrences in the list. */
  lemma {:induction false} UnmetVisit(ds: seq<TaskId>, visited: set<TaskId>, u: TaskId)
    requires u !in visited
    ensures Unmet(ds, visited + {u}) == Unmet(ds, visited) - multiset(ds)[u]
  {
    if ds != [] {
      UnmetVisit(ds[..|ds| - 1], visited, u);
      assert ds == ds[..|ds| - 1] + [ds[|ds| - 1]];
    }
  }

  lemma PrefixCount(xs: seq<TaskId>, i: nat, x: TaskId)
    requires i < |xs|
    ensures multiset(xs[..i + 1])[x] == multiset(xs[..i])[x] + if xs[i] == x then 1 else 0
    ensures multiset(xs[..i + 1])[x] <= multiset(xs)[x]
  {
    assert xs[..i + 1] == xs[..i] + [xs[i]];
    assert xs == xs[..i + 1] + xs[i + 1..];
  }

  /** `outgoing` is the transpose of the dependency lists, repeats included. */
  ghost predicate Transposes(deps: Dependencies, nodes: set<TaskId>, outgoing: Dependencies) {
    && outgoing.Keys == nodes
    && forall u, t :: u in nodes ==> multiset(outgoing[u])[t] == if t in nodes then multiset(DependenciesOf(deps, t))[u]
        else 0
  }

  /** How often `t` is collected under `u` once the first `i` tasks, and the first
      `j` dependencies of the next one, have been read. */
  ghost function Collected(order: seq<TaskId>, deps: Dependencies, i: nat, j: nat, u: TaskId, t: TaskId): nat
    requires i <= |order| && (i < |order| ==> j <= |DependenciesOf(deps, order[i])|)
  {
    if t in order[..i] then multiset(DependenciesOf(deps, t))[u]
    else if i < |order| && order[i] == t then multiset(DependenciesOf(deps, t)[..j])[u]
    else 0
  }

  ghost predicate Collects(order: seq<TaskId>, deps: Dependencies, i: nat, j: nat, outgoing: Dependencies)
    requires i <= |order| && (i < |order| ==> j <= |DependenciesOf(deps, order[i])|)
  {
    && outgoing.Keys == Elements(order)
    && forall u, t :: u in outgoing ==> multiset(outgoing[u])[t] == Collected(order, deps, i, j, u, t)
  }

  /** `outgoing.get(d)?.push(t)`. */
  function Push(outgoing: Dependencies, d: TaskId, t: TaskId): Dependencies {
    if d in outgoing then outgoing[d := outgoing[d] + [t]] else outgoing
  }

  lemma CollectOne(order: seq<TaskId>, deps: Dependencies, i: nat, j: nat, outgoing: Dependencies)
    requires Distinct(order) && i < |order| && j < |DependenciesOf(deps, order[i])|
    requires Collects(order, deps, i, j, outgoing)
    ensures Collects(order, deps, i, j + 1, Push(outgoing, DependenciesOf(deps, order[i])[j], order[i]))
  {
    var ds := DependenciesOf(deps, order[i]);
    var after := Push(outgoing, ds[j], order[i]);
    forall u, t | u in after ensures multiset(after[u])[t] == Collected(order, deps, i, j + 1, u, t) {
      PrefixCount(ds, j, u);
      assert multiset(outgoing[u])[t] == Collected(order, deps, i, j, u, t);
      assert order[i] !in order[..i];
    }
  }

  lemma CollectTask(order: seq<TaskId>, deps: Dependencies, i: nat, outgoing: Dependencies)
    requires Distinct(order) && i < |order| && Collects(order, deps, i, |DependenciesOf(deps, order[i])|, outgoing)
    ensures Collects(order, deps, i + 1, 0, outgoing)
  {
    var ds := DependenciesOf(deps, order[i]);
    assert ds[..|ds|] == ds && order[..i + 1] == order[..i] + [order[i]];
    forall u, t | u in outgoing ensures multiset(outgoing[u])[t] == Collected(order, deps, i + 1, 0, u, t) {
      assert multiset(outgoing[u])[t] == Collected(order, deps, i, |ds|, u, t);
      assert i + 1 < |order| && order[i + 1] == t ==> DependenciesOf(deps, t)[..0] == [];
    }
  }

  lemma CollectedAll(order: seq<TaskId>, deps: Dependencies, outgoing: Dependencies)
    requires Collects(order, deps, |order|, 0, outgoing)
    ensures Transposes(deps, Elements(order), outgoing)
  {
    assert order[..|order|] == order;
    forall u, t | u in outgoing
      ensures multiset(outgoing[u])[t] == if t in Elements(order) then multiset(DependenciesOf(deps, t))[u] else 0
    {
      assert multiset(outgoing[u])[t] == Collected(order, deps, |order|, 0, u, t);
    }
  }

  lemma CollectNone(order: seq<TaskId>, deps: Dependencies, outgoing: Dependencies)
    requires outgoing == map t | t in order :: []
    ensures Collects(order, deps, 0, 0, outgoing)
  {
    forall u, t | u in outgoing ensures multiset(outgoing[u])[t] == Collected(order, deps, 0, 0, u, t) {
      assert |order| > 0 && order[0] == t ==> DependenciesOf(deps, t)[..0] == [];
    }
  }

  // ----- Counting down -----

  /** Every indegree counts the unvisited dependencies, plus the decrements still owed. */
  ghost predicate Counting(deps: Dependencies, nodes: set<TaskId>, visited: set<TaskId>, owed: multiset<TaskId>,
                           indegree: map<TaskId, int>) {
    && indegree.Keys == nodes
    && forall t :: t in nodes ==> indegree[t] == Unmet(DependenciesOf(deps, t), visited) + owed[t]
  }

  ghost function Zeros(indegree: map<TaskId, int>): set<TaskId> {
    set t | t in indegree && indegree[t] == 0
  }

  lemma StartCounting(order: seq<TaskId>, deps: Dependencies, indegree: map<TaskId, int>)
    requires Indegrees(order, deps, |order|, indegree)
    ensures Counting(deps, Elements(order), {}, multiset{}, indegree) && indegree.Keys == Elements(order)
  {
    forall t | t in Elements(order) ensures indegree[t] == Unmet(DependenciesOf(deps, t), {}) {
      UnmetOfNone(DependenciesOf(deps, t));
    }
  }

  lemma VisitOne(deps: Dependencies, nodes: set<TaskId>, visited: set<TaskId>, u: TaskId,
                 outgoing: Dependencies, indegree: map<TaskId, int>)
    requires Transposes(deps, nodes, outgoing) && u in nodes && u !in visited
    requires Counting(deps, nodes, visited, multiset{}, indegree)
    ensures Counting(deps, nodes, visited + {u}, multiset(outgoing[u]), indegree)
  {
    forall t | t in nodes
      ensures indegree[t] == Unmet(DependenciesOf(deps, t), visited + {u}) + multiset(outgoing[u])[t]
    {
      UnmetVisit(DependenciesOf(deps, t), visited, u);
    }
  }

  lemma PayOne(deps: Dependencies, nodes: set<TaskId>, visited: set<TaskId>, out: seq<TaskId>, j: nat,
      indegree: map<TaskId, int>)
    requires j < |out| && out[j] in nodes && Counting(deps, nodes, visited, multiset(out[j..]), indegree)
    ensures indegree[out[j]] > 0
    ensures Counting(deps, nodes, visited, multiset(out[j + 1..]), indegree[out[j] := indegree[out[j]] - 1])
  {
    assert out[j..] == [out[j]] + out[j + 1..];
  }

  lemma ZerosAfter(indegree: map<TaskId, int>, found: seq<TaskId>, x: TaskId)
    requires x in indegree && indegree[x] > 0 && Distinct(found) && Elements(found) == Zeros(indegree)
    ensures var next := indegree[x := indegree[x] - 1];
            var found' := if indegree[x] == 1 then found + [x] else found;
            Distinct(found') && Elements(found') == Zeros(next)
  {
    var next := indegree[x := indegree[x] - 1];
    assert x !in Elements(found);
    ElementsExtend(found, x);
    assert Zeros(next) == if indegree[x] == 1 then Zeros(indegree) + {x} else Zeros(indegree);
  }

  /** A task without unmet dependencies can be appended to the order. */
  lemma AppendVisited(deps: Dependencies, nodes: set<TaskId>, visited: seq<TaskId>, u: TaskId, indegree: map<TaskId,
      int>)
    requires Counting(deps, nodes, Elements(visited), multiset{}, indegree) && u in nodes && indegree[u] == 0
    requires EachDependsOnEarlier(deps, nodes, visited)
    ensures EachDependsOnEarlier(deps, nodes, visited + [u])
    ensures forall d <- DependenciesOf(deps, u) :: d in visited
  {
    UnmetZero(DependenciesOf(deps, u), Elements(visited));
    EarlierExtends(deps, nodes, visited, u);
  }

  method TasksWithout(order: seq<TaskId>, indegree: map<TaskId, int>) returns (queue: seq<TaskId>)
    requires Distinct(order) && indegree.Keys == Elements(order)
    ensures Distinct(queue) && Elements(queue) == Zeros(indegree)
  {
    queue := [];
    for i := 0 to |order|
      invariant forall id :: id in queue <==> id in order[..i] && id in indegree && indegree[id] == 0
      invariant Distinct(queue)
    {
      assert order[i] in Elements(order) && order[..i + 1] == order[..i] + [order[i]];
      if indegree[order[i]] == 0 {
        queue := queue + [order[i]];
      }
    }
    assert order[..|order|] == order;
  }

  /** `taskIds.filter(id => indegree.get(id) > 0)`. */
  function Unfinished(order: seq<TaskId>, indegree: map<TaskId, int>): (r: seq<TaskId>)
    requires forall id <- order :: id in indegree
    ensures forall id :: id in r <==> id in order && indegree[id] > 0
  {
    if order == [] then [] else
      var rest := Unfinished(order[1..], indegree);
      if indegree[order[0]] > 0 then [order[0]] + rest else rest
  }

  /** Everything visited: the order proves the graph closed and acyclic. */
  lemma AllVisited(deps: Dependencies, nodes: set<TaskId>, visited: seq<TaskId>, indegree: map<TaskId, int>)
    requires Counting(deps, nodes, Elements(visited), multiset{}, indegree)
    requires Distinct(visited) && Elements(visited) == Zeros(indegree) && |visited| == |nodes|
    requires EachDependsOnEarlier(deps, nodes, visited)
    ensures IsTopological(deps, nodes, visited) && Closed(deps, nodes) && Acyclic(deps, nodes)
  {
    DistinctCount(visited);
    FullSubset(Elements(visited), nodes);
    TopologicalIsAcyclic(deps, nodes, visited);
    forall id, d | id in nodes && d in DependenciesOf(deps, id) ensures d in nodes {
      UnmetZero(DependenciesOf(deps, id), Elements(visited));
    }
  }

  lemma LeftoverDepends(deps: Dependencies, nodes: set<TaskId>, visited: set<TaskId>, indegree: map<TaskId, int>,
      id: TaskId)
    requires Counting(deps, nodes, visited, multiset{}, indegree) && visited == Zeros(indegree)
    requires Closed(deps, nodes) && id in nodes - visited
    ensures HasDependency(deps, nodes - visited, id)
  {
    UnmetZero(DependenciesOf(deps, id), visited);
    var d :| d in DependenciesOf(deps, id) && d !in visited;
    assert Edge(deps, nodes - visited, id, d);
  }

  /** Something left over in a closed graph: what is left over contains a cycle. */
  lemma LeftoverHasCycle(deps: Dependencies, nodes: set<TaskId>, visited: set<TaskId>, indegree: map<TaskId, int>)
    requires Counting(deps, nodes, visited, multiset{}, indegree) && visited == Zeros(indegree)
    requires Closed(deps, nodes) && nodes - visited != {}
    ensures !Acyclic(deps, nodes - visited)
  {
    hide Counting, Closed, HasDependency, Zeros;
    forall id | id in nodes - visited ensures HasDependency(deps, nodes - visited, id) {
      LeftoverDepends(deps, nodes, visited, indegree, id);
    }
    var start :| start in nodes - visited;
    var cycle := ChaseCycle(deps, nodes - visited, [start]);
  }

  /** Following dependencies never leaves the visited tasks. */
  lemma {:induction false} WalkStaysVisited(deps: Dependencies, nodes: set<TaskId>, visited: seq<TaskId>,
      p: seq<TaskId>, from: nat, to: nat)
    requires EachDependsOnEarlier(deps, nodes, visited) && IsWalk(deps, nodes, p)
    requires from <= to < |p| && p[from] in visited
    ensures p[to] in visited
  {
    if from < to {
      WalkStaysVisited(deps, nodes, visited, p, from, to - 1);
      var i :| 0 <= i < |visited| && visited[i] == p[to - 1];
      assert Edge(deps, nodes, p[to - 1], p[to]) && DependsOnEarlier(deps, nodes, visited, i);
    }
  }

  lemma VisitedIsAcyclic(deps: Dependencies, nodes: set<TaskId>, visited: seq<TaskId>)
    requires Distinct(visited) && Elements(visited) <= nodes && EachDependsOnEarlier(deps, nodes, visited)
    ensures Acyclic(deps, Elements(visited))
  {
    forall i | 0 <= i < |visited| ensures DependsOnEarlier(deps, Elements(visited), visited, i) {
      assert DependsOnEarlier(deps, nodes, visited, i);
    }
    TopologicalIsAcyclic(deps, Elements(visited), visited);
  }

  /** A cycle never meets the visited tasks, so the tasks left over contain all of it. */
  lemma CyclesAreLeftOver(deps: Dependencies, nodes: set<TaskId>, visited: seq<TaskId>, left: set<TaskId>)
    requires Distinct(visited) && Elements(visited) <= nodes && EachDependsOnEarlier(deps, nodes, visited)
    requires left == nodes - Elements(visited) && Acyclic(deps, left)
    ensures Acyclic(deps, nodes)
  {
    VisitedIsAcyclic(deps, nodes, visited);
    forall p ensures !IsCycle(deps, nodes, p) {
      if IsCycle(deps, nodes, p) {
        var last := |p| - 1;
        if at :| 0 <= at < |p| && p[at] in visited {
          WalkStaysVisited(deps, nodes, visited, p, at, last);
          forall i | 0 <= i < last ensures Edge(deps, Elements(visited), p[i], p[i + 1]) {
            WalkStaysVisited(deps, nodes, visited, p, 0, i);
            WalkStaysVisited(deps, nodes, visited, p, 0, i + 1);
            assert Edge(deps, nodes, p[i], p[i + 1]);
          }
          assert IsCycle(deps, Elements(visited), p);
        } else {
          forall i | 0 <= i < last ensures Edge(deps, left, p[i], p[i + 1]) {
            assert Edge(deps, nodes, p[i], p[i + 1]);
          }
          assert IsCycle(deps, left, p);
        }
      }
    }
  }

  // ----- The algorithm -----

  /** The first `i` tasks have their indegree. */
  ghost predicate Indegrees(order: seq<TaskId>, deps: Dependencies, i: nat, indegree: map<TaskId, int>)
    requires i <= |order|
  {
    indegree.Keys == Elements(order) && forall k :: 0 <= k < i ==>
        order[k] in indegree && indegree[order[k]] == |DependenciesOf(deps, order[k])|
  }

  lemma NoIndegrees(order: seq<TaskId>, deps: Dependencies, indegree: map<TaskId, int>)
    requires indegree.Keys == Elements(order)
    ensures Indegrees(order, deps, 0, indegree)
  {
  }

  lemma IndegreeNext(order: seq<TaskId>, deps: Dependencies, i: nat, indegree: map<TaskId, int>)
    requires i < |order| && Distinct(order) && Indegrees(order, deps, i, indegree)
    ensures Indegrees(order, deps, i + 1, indegree[order[i] := |DependenciesOf(deps, order[i])|])
  {
    assert order[i] in Elements(order);
  }

  method Transpose(order: seq<TaskId>, deps: Dependencies) returns (outgoing: Dependencies, indegree: map<TaskId, int>)
    requires Distinct(order)
    ensures Transposes(deps, Elements(order), outgoing)
    ensures Indegrees(order, deps, |order|, indegree)
  {
    hide Distinct, Collects, Transposes, Indegrees;
    outgoing := map t | t in order :: [];
    indegree := map t | t in order :: 0;
    CollectNone(order, deps, outgoing);
    NoIndegrees(order, deps, indegree);
    for i := 0 to |order|
      invariant Collects(order, deps, i, 0, outgoing)
      invariant Indegrees(order, deps, i, indegree)
    {
      var taskId := order[i];
      var ds := DependenciesOf(deps, taskId);
      IndegreeNext(order, deps, i, indegree);
      indegree := indegree[taskId := |ds|];
      for j := 0 to |ds|
        invariant Collects(order, deps, i, j, outgoing)
      {
        CollectOne(order, deps, i, j, outgoing);
        outgoing := Push(outgoing, ds[j], taskId);
      }
      CollectTask(order, deps, i, outgoing);
    }
    CollectedAll(order, deps, outgoing);
  }

  /** One visit: every dependent is decremented, and queued at the moment it reaches zero. */
  method Release(deps: Dependencies, ghost nodes: set<TaskId>, ghost visited: set<TaskId>, ghost done: seq<TaskId>,
      out: seq<TaskId>,
                 indegree0: map<TaskId, int>, queue0: seq<TaskId>)
    returns (indegree: map<TaskId, int>, queue: seq<TaskId>)
    requires Counting(deps, nodes, visited, multiset(out), indegree0) && Elements(out) <= nodes
    requires Distinct(done + queue0) && Elements(done + queue0) == Zeros(indegree0)
    ensures Counting(deps, nodes, visited, multiset{}, indegree)
    ensures Distinct(done + queue) && Elements(done + queue) == Zeros(indegree)
  {
    hide Distinct, Counting, Elements;
    indegree, queue := indegree0, queue0;
    assert out[0..] == out;
    for j := 0 to |out|
      invariant Counting(deps, nodes, visited, multiset(out[j..]), indegree)
      invariant Distinct(done + queue) && Elements(done + queue) == Zeros(indegree)
    {
      var dependent := out[j];
      InNodes(deps, nodes, visited, out, j, indegree);
      PayOne(deps, nodes, visited, out, j, indegree);
      ZerosAfter(indegree, done + queue, dependent);
      var nextIndegree := indegree[dependent] - 1;
      indegree := indegree[dependent := nextIndegree];
      if nextIndegree == 0 {
        assert done + queue + [dependent] == done + (queue + [dependent]);
        queue := queue + [dependent];
      }
    }
    assert out[|out|..] == [];
  }

  lemma InNodes(deps: Dependencies, nodes: set<TaskId>, visited: set<TaskId>, out: seq<TaskId>, j: nat,
      indegree: map<TaskId, int>)
    requires j < |out| && Elements(out) <= nodes && Counting(deps, nodes, visited, multiset(out[j..]), indegree)
    ensures out[j] in nodes && indegree.Keys == nodes
  {
    assert out[j] in Elements(out);
  }

  lemma DependentsAreNodes(deps: Dependencies, nodes: set<TaskId>, outgoing: Dependencies, u: TaskId)
    requires Transposes(deps, nodes, outgoing) && u in nodes
    ensures u in outgoing && Elements(outgoing[u]) <= nodes
  {
    forall t | t in outgoing[u] ensures t in nodes {
      assert multiset(outgoing[u])[t] > 0;
    }
  }

  /** The head of the queue moves to the visited list. */
  lemma Shift(deps: Dependencies, nodes: set<TaskId>, done: seq<TaskId>, queue: seq<TaskId>, indegree: map<TaskId, int>)
    requires queue != [] && Counting(deps, nodes, Elements(done), multiset{}, indegree)
    requires Distinct(done + queue) && Elements(done + queue) == Zeros(indegree)
    requires EachDependsOnEarlier(deps, nodes, done)
    ensures queue[0] in nodes && queue[0] !in Elements(done)
    ensures Distinct(done + [queue[0]] + queue[1..]) && Elements(done + [queue[0]] + queue[1..]) == Zeros(indegree)
    ensures EachDependsOnEarlier(deps, nodes, done + [queue[0]])
    ensures Elements(done + [queue[0]]) == Elements(done) + {queue[0]} && |done| < |nodes|
  {
    var u := queue[0];
    assert (done + queue)[|done|] == u && u in Elements(done + queue);
    assert forall i :: 0 <= i < |done| ==> (done + queue)[i] == done[i];
    assert done + [u] + queue[1..] == done + queue;
    AppendVisited(deps, nodes, done, u, indegree);
    DistinctCount(done + queue);
    SubsetCount(Zeros(indegree), nodes);
  }

  /** Valid exactly for a closed acyclic graph, and then `visited` is a topological
      order. Otherwise the report is a genuine simple cycle if there is one, and
      else lists the tasks no order could reach. */
  method ValidateDAG(order: seq<TaskId>, deps: Dependencies)
      returns (r: DAGValidationResult, ghost visited: seq<TaskId>)
    requires Distinct(order)
    ensures r.Valid? <==> Closed(deps, Elements(order)) && Acyclic(deps, Elements(order))
    ensures r.Valid? ==> IsTopological(deps, Elements(order), visited)
    ensures r.Invalid? && !Acyclic(deps, Elements(order)) ==> IsSimpleCycle(deps, Elements(order), r.cycle)
    ensures r.Invalid? && Acyclic(deps, Elements(order)) ==> Elements(r.cycle) == Elements(order) - Elements(visited)
  {
    hide Distinct, Transposes, Counting, EachDependsOnEarlier, Closed, Acyclic, Indegrees;
    ghost var nodes := Elements(order);
    var outgoing, indegree := Transpose(order, deps);
    StartCounting(order, deps, indegree);
    var queue := TasksWithout(order, indegree);
    var done: seq<TaskId> := [];
    assert done + queue == queue && Elements(done) == {};
    NothingVisited(deps, nodes);
    while queue != []
      invariant Counting(deps, nodes, Elements(done), multiset{}, indegree)
      invariant Distinct(done + queue) && Elements(done + queue) == Zeros(indegree)
      invariant EachDependsOnEarlier(deps, nodes, done) && |done| <= |nodes|
      decreases |nodes| - |done|
    {
      Shift(deps, nodes, done, queue, indegree);
      var taskId := queue[0];
      VisitOne(deps, nodes, Elements(done), taskId, outgoing, indegree);
      DependentsAreNodes(deps, nodes, outgoing, taskId);
      queue := queue[1..];
      done := done + [taskId];
      indegree, queue := Release(deps, nodes, Elements(done), done, outgoing[taskId], indegree, queue);
    }
    assert done + queue == done;
    DistinctCount(order);
    visited := done;
    if |done| == |order| {
      AllVisited(deps, nodes, done, indegree);
      return Valid, done;
    }
    CountingFacts(deps, nodes, Elements(done), indegree);
    var remaining := Unfinished(order, indegree);
    ghost var left := nodes - Elements(done);
    assert Elements(remaining) == left;
    NotAllVisited(deps, nodes, done, indegree, left);
    var cycle := FindTaskCycle(deps, remaining);
    if !Acyclic(deps, left) {
      CycleInMore(deps, left, nodes, cycle);
      assert IsSimpleCycle(deps, nodes, cycle);
    }
    r := Invalid(cycle);
  }

  lemma NothingVisited(deps: Dependencies, nodes: set<TaskId>)
    ensures EachDependsOnEarlier(deps, nodes, [])
  {
  }

  lemma CountingFacts(deps: Dependencies, nodes: set<TaskId>, visited: set<TaskId>, indegree: map<TaskId, int>)
    requires Counting(deps, nodes, visited, multiset{}, indegree)
    ensures indegree.Keys == nodes && forall t <- nodes :: indegree[t] >= 0
  {
  }

  lemma NotAllVisited(deps: Dependencies, nodes: set<TaskId>, done: seq<TaskId>, indegree: map<TaskId, int>,
      left: set<TaskId>)
    requires Counting(deps, nodes, Elements(done), multiset{}, indegree)
    requires Distinct(done) && Elements(done) == Zeros(indegree) && |done| != |nodes|
    requires EachDependsOnEarlier(deps, nodes, done) && left == nodes - Elements(done)
    ensures Closed(deps, nodes) ==> !Acyclic(deps, left)
    ensures Acyclic(deps, left) <==> Acyclic(deps, nodes)
  {
    DistinctCount(done);
    assert nodes == Elements(done) + left;
    if Closed(deps, nodes) {
      LeftoverHasCycle(deps, nodes, Elements(done), indegree);
    }
    if Acyclic(deps, left) {
      CyclesAreLeftOver(deps, nodes, done, left);
    }
    AcyclicInLess(deps, left, nodes);
  }
}
