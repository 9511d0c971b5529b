/** The in-place fixpoint iteration that derives task statuses from the
    dependency graph: `evaluateTaskDAG` and the two decisions it applies. */
module TaskDag {
  import opened Sequences
  import opened TaskGraphs

  datatype TaskStatus = Pending | Ready | Active | Done | Failed | Blocked

  /** The status column of one spec's tasks: `taskById`, reduced to what the evaluator reads. */
  type Statuses = map<TaskId, TaskStatus>

  /** What one evaluation reads and never writes: the scan order of the tasks,
      their dependencies, the blind-review tasks of a best-of-n spec, and the
      tasks that have at least one run on record. */
  datatype Plan = Plan(order: seq<TaskId>, deps: Dependencies, blind: set<TaskId>, ran: set<TaskId>)
  {
    function Nodes(): set<TaskId> {
      Elements(order)
    }

    function DependenciesFor(id: TaskId): seq<TaskId> {
      DependenciesOf(deps, id)
    }

    ghost predicate Fits(st: Statuses) {
      Distinct(order) && st.Keys == Nodes()
    }
  }

  /** `taskById.get(id)?.status === status`; false for a task outside the spec. */
  predicate Has(st: Statuses, id: TaskId, status: TaskStatus) {
    id in st && st[id] == status
  }

  predicate CanResolve(p: Plan, st: Statuses, id: TaskId)
    requires id in st
  {
    st[id] == Pending || st[id] == Blocked ||
    (st[id] == Failed && id !in p.ran && p.DependenciesFor(id) != [] &&
     forall d <- p.DependenciesFor(id) :: !Has(st, d, Failed))
  }

  function Resolve(p: Plan, st: Statuses, id: TaskId): TaskStatus
    requires id in st
  {
    var ds := p.DependenciesFor(id);
    if st[id] == Blocked && ds == [] then Blocked
    else if id in p.blind && ds != [] then
      if forall d <- ds :: Has(st, d, Done) || Has(st, d, Failed) then Ready else Blocked
    else if exists d <- ds :: Has(st, d, Failed) then Failed
    else if forall d <- ds :: Has(st, d, Done) then Ready
    else Blocked
  }

  /** The loop body for one task. */
  function Step(p: Plan, st: Statuses, id: TaskId): (st': Statuses)
    requires id in st
    ensures st'.Keys == st.Keys
  {
    if CanResolve(p, st, id) then st[id := Resolve(p, st, id)] else st
  }

  /** The first `i` loop bodies of one pass. */
  ghost function Sweep(p: Plan, st: Statuses, i: nat): (st': Statuses)
    requires p.Fits(st) && i <= |p.order|
    ensures st'.Keys == st.Keys
  {
    if i == 0 then st else
      assert p.order[i - 1] in p.Nodes();
      Step(p, Sweep(p, st, i - 1), p.order[i - 1])
  }

  /** `k` whole passes. */
  ghost function Passes(p: Plan, st: Statuses, k: nat): (st': Statuses)
    requires p.Fits(st)
    ensures st'.Keys == st.Keys
  {
    if k == 0 then st else Sweep(p, Passes(p, st, k - 1), |p.order|)
  }

  ghost predicate Stable(p: Plan, st: Statuses, id: TaskId) {
    id in st && (CanResolve(p, st, id) ==> Resolve(p, st, id) == st[id])
  }

  /** No task would change: another evaluation does nothing. */
  ghost predicate Settled(p: Plan, st: Statuses) {
    forall id <- p.Nodes() :: Stable(p, st, id)
  }

  /** The loop ends: some pass is the last that changes anything. */
  ghost predicate Settles(p: Plan, st: Statuses)
    requires p.Fits(st)
  {
    exists k: nat :: Settled(p, Passes(p, st, k))
  }

  // ----- Locality and idempotence of one step -----

  /** Two tables agree on a task and on all its dependencies. */
  ghost predicate AgreeAround(p: Plan, st: Statuses, st': Statuses, id: TaskId) {
    && id in st && id in st' && st[id] == st'[id]
    && forall d :: d in p.DependenciesFor(id) ==> (d in st <==> d in st') && (d in st ==> st[d] == st'[d])
  }

  lemma StableIsLocal(p: Plan, st: Statuses, st': Statuses, id: TaskId)
    requires AgreeAround(p, st, st', id)
    ensures Stable(p, st, id) == Stable(p, st', id)
  {
    assert CanResolve(p, st, id) == CanResolve(p, st', id);
    assert CanResolve(p, st, id) ==> Resolve(p, st, id) == Resolve(p, st', id);
  }

  /** A task that does not depend on itself is stable right after its own step,
      although the rules are not monotone: a revived task can fail again later. */
  lemma StepStabilizes(p: Plan, st: Statuses, id: TaskId)
    requires id in st && id !in p.DependenciesFor(id)
    ensures Stable(p, Step(p, st, id), id)
  {
    var st' := Step(p, st, id);
    assert forall d, s :: d in p.DependenciesFor(id) ==> Has(st', d, s) == Has(st, d, s);
  }

  // ----- Termination: dependencies settle in topological order, one per pass -----

  ghost predicate PrefixStable(p: Plan, topo: seq<TaskId>, k: nat, st: Statuses) {
    k <= |topo| && forall i :: 0 <= i < k ==> Stable(p, st, topo[i])
  }

  ghost predicate SamePrefix(topo: seq<TaskId>, k: nat, st: Statuses, st': Statuses)
    requires k <= |topo|
  {
    forall i :: 0 <= i < k ==> topo[i] in st && topo[i] in st' && st[topo[i]] == st'[topo[i]]
  }

  lemma PrefixAgrees(p: Plan, topo: seq<TaskId>, k: nat, at: nat, st: Statuses, st': Statuses)
    requires IsTopological(p.deps, p.Nodes(), topo) && st.Keys == st'.Keys == p.Nodes()
    requires at <= k <= |topo| && at < |topo| && SamePrefix(topo, k, st, st')
    requires st[topo[at]] == st'[topo[at]]
    ensures AgreeAround(p, st, st', topo[at])
  {
    assert topo[at] in Elements(topo);
    assert DependsOnEarlier(p.deps, p.Nodes(), topo, at);
    forall d | d in p.DependenciesFor(topo[at])
      ensures (d in st <==> d in st') && (d in st ==> st[d] == st'[d])
    {
      if d in p.Nodes() {
        assert d in topo[..at];
      }
    }
  }

  lemma {:induction false} SweepKeepsPrefix(p: Plan, topo: seq<TaskId>, k: nat, st: Statuses, j: nat)
    requires p.Fits(st) && IsTopological(p.deps, p.Nodes(), topo)
    requires PrefixStable(p, topo, k, st) && j <= |p.order|
    ensures SamePrefix(topo, k, st, Sweep(p, st, j))
    ensures k < |topo| && topo[k] in p.order[..j] ==> Stable(p, Sweep(p, st, j), topo[k])
  {
    hide Distinct;
    if j > 0 {
      SweepKeepsPrefix(p, topo, k, st, j - 1);
      var before, x := Sweep(p, st, j - 1), p.order[j - 1];
      assert x in p.Nodes();
      var after := Step(p, before, x);
      if i :| 0 <= i < k && topo[i] == x {
        PrefixAgrees(p, topo, k, i, st, before);
        StableIsLocal(p, st, before, x);
        assert after == before;
      }
      assert SamePrefix(topo, k, before, after);
      if k < |topo| && topo[k] in p.order[..j] {
        if topo[k] == x {
          NoSelfDependency(p.deps, p.Nodes(), topo, k);
          StepStabilizes(p, before, x);
        } else {
          assert p.order[..j] == p.order[..j - 1] + [x];
          assert topo[k] in Elements(topo);
          PrefixAgrees(p, topo, k, k, before, after);
          StableIsLocal(p, before, after, topo[k]);
        }
      }
    }
  }

  lemma SweepExtendsPrefix(p: Plan, topo: seq<TaskId>, k: nat, st: Statuses)
    requires p.Fits(st) && IsTopological(p.deps, p.Nodes(), topo)
    requires PrefixStable(p, topo, k, st) && k < |topo|
    ensures PrefixStable(p, topo, k + 1, Sweep(p, st, |p.order|))
  {
    var after := Sweep(p, st, |p.order|);
    SweepKeepsPrefix(p, topo, k, st, |p.order|);
    forall i | 0 <= i < k + 1 ensures Stable(p, after, topo[i]) {
      if i < k {
        PrefixAgrees(p, topo, k, i, st, after);
        StableIsLocal(p, st, after, topo[i]);
      } else {
        assert topo[k] in Elements(topo) && p.order[..|p.order|] == p.order;
      }
    }
  }

  lemma {:induction false} PassesStabilizePrefix(p: Plan, topo: seq<TaskId>, st: Statuses, k: nat)
    requires p.Fits(st) && IsTopological(p.deps, p.Nodes(), topo) && k <= |topo|
    ensures PrefixStable(p, topo, k, Passes(p, st, k))
  {
    hide IsTopological, Distinct;
    if k > 0 {
      PassesStabilizePrefix(p, topo, st, k - 1);
      SweepExtendsPrefix(p, topo, k - 1, Passes(p, st, k - 1));
    }
  }

  /** On an acyclic graph of n tasks, n passes settle every task, whatever the
      scan order, the starting statuses, the blind reviews and the run records. */
  lemma PassesSettle(p: Plan, st: Statuses)
    requires p.Fits(st) && Acyclic(p.deps, p.Nodes())
    ensures Settled(p, Passes(p, st, |p.order|))
  {
    var topo := AcyclicIsSortable(p.deps, p.Nodes());
    DistinctCount(topo);
    DistinctCount(p.order);
    PassesStabilizePrefix(p, topo, st, |topo|);
    forall id | id in p.Nodes() ensures Stable(p, Passes(p, st, |p.order|), id) {
      assert id in Elements(topo);
    }
  }

  /** The table one evaluation leaves behind. */
  ghost function Evaluate(p: Plan, st: Statuses): (st': Statuses)
    requires p.Fits(st)
    ensures st'.Keys == st.Keys
  {
    Passes(p, st, |p.order|)
  }

  lemma {:induction false} SettledSweep(p: Plan, st: Statuses, i: nat)
    requires p.Fits(st) && Settled(p, st) && i <= |p.order|
    ensures Sweep(p, st, i) == st
  {
    if i > 0 {
      SettledSweep(p, st, i - 1);
      assert p.order[i - 1] in p.Nodes() && Stable(p, st, p.order[i - 1]);
    }
  }

  lemma {:induction false} SettledPasses(p: Plan, st: Statuses, j: nat, k: nat)
    requires p.Fits(st) && j <= k && Settled(p, Passes(p, st, j))
    ensures Passes(p, st, k) == Passes(p, st, j)
    decreases k
  {
    hide Settled, Sweep, Distinct;
    if j < k {
      SettledPasses(p, st, j, k - 1);
      SettledSweep(p, Passes(p, st, k - 1), |p.order|);
    }
  }

  /** Wherever the passes first settle, that table is the evaluation's result. */
  lemma SettledIsEvaluate(p: Plan, st: Statuses, k: nat)
    requires p.Fits(st) && Acyclic(p.deps, p.Nodes()) && Settled(p, Passes(p, st, k))
    ensures Passes(p, st, k) == Evaluate(p, st)
  {
    PassesSettle(p, st);
    if k <= |p.order| {
      SettledPasses(p, st, k, |p.order|);
    } else {
      SettledPasses(p, st, |p.order|, k);
    }
  }

  lemma NothingListed<T>(xs: seq<T>)
    ensures xs == [] <==> Elements(xs) == {}
  {
    if xs != [] {
      assert xs[0] in Elements(xs);
    }
  }

  /** A second evaluation changes nothing and reports nothing. */
  lemma EvaluateIsIdempotent(p: Plan, st: Statuses)
    requires p.Fits(st) && Acyclic(p.deps, p.Nodes())
    ensures Settled(p, Evaluate(p, st))
    ensures Evaluate(p, Evaluate(p, st)) == Evaluate(p, st)
    ensures forall newly :: ListsNewlyReady(Evaluate(p, st), Evaluate(p, Evaluate(p, st)), newly) ==> newly == []
  {
    PassesSettle(p, st);
    SettledPasses(p, Evaluate(p, st), 0, |p.order|);
    forall newly | ListsNewlyReady(Evaluate(p, st), Evaluate(p, Evaluate(p, st)), newly) ensures newly == [] {
      NothingListed(newly);
    }
  }

  // ----- The loop -----

  datatype StatusChange = StatusChange(task: TaskId, from: TaskStatus, to: TaskStatus)

  /** The changes, each a real change made from its recorded `from`, lead from one table to the other. */
  ghost predicate Replays(st: Statuses, changes: seq<StatusChange>, st': Statuses)
    decreases |changes|
  {
    if changes == [] then st == st' else
      var last := changes[|changes| - 1];
      && Has(st', last.task, last.to) && last.from != last.to
      && Replays(st, changes[..|changes| - 1], st'[last.task := last.from])
  }

  /** `newlyReady` lists, once each, exactly the tasks that became ready. */
  ghost predicate ListsNewlyReady(st0: Statuses, st: Statuses, newlyReady: seq<TaskId>) {
    Distinct(newlyReady) && Elements(newlyReady) == BecameReady(st0, st)
  }

  lemma NothingYet(p: Plan, st0: Statuses)
    requires p.Fits(st0)
    ensures ListsNewlyReady(st0, st0, []) && Replays(st0, [], st0) && Passes(p, st0, 0) == st0
  {
  }

  lemma SweepNext(p: Plan, st: Statuses, i: nat)
    requires p.Fits(st) && i < |p.order|
    ensures Sweep(p, st, 0) == st
    ensures p.order[i] in st && Sweep(p, st, i + 1) == Step(p, Sweep(p, st, i), p.order[i])
  {
    assert p.order[i] in p.Nodes();
  }

  lemma PassesNext(p: Plan, st: Statuses, k: nat)
    requires p.Fits(st)
    ensures Sweep(p, Passes(p, st, k), 0) == Passes(p, st, k)
    ensures Passes(p, st, k + 1) == Sweep(p, Passes(p, st, k), |p.order|)
  {
  }

  lemma ResolvableIsNotReady(p: Plan, st: Statuses, id: TaskId)
    requires id in st && CanResolve(p, st, id)
    ensures st[id] != Ready
  {
  }

  lemma OneMoreChange(st0: Statuses, st: Statuses, newlyReady: seq<TaskId>, id: TaskId, next: TaskStatus)
    requires ListsNewlyReady(st0, st, newlyReady) && id in st && id in st0
    requires st[id] != next && st[id] != Ready
    requires Has(st0, id, Ready) ==> Has(st, id, Ready)
    ensures ListsNewlyReady(st0, st[id := next], if next == Ready then newlyReady + [id] else newlyReady)
  {
    assert id !in BecameReady(st0, st);
    assert id !in Elements(newlyReady);
    if next == Ready {
      assert BecameReady(st0, st[id := next]) == BecameReady(st0, st) + {id};
      assert Elements(newlyReady + [id]) == Elements(newlyReady) + {id};
    } else {
      assert BecameReady(st0, st[id := next]) == BecameReady(st0, st);
    }
  }

  lemma ReplaysOneMore(st: Statuses, changes: seq<StatusChange>, mid: Statuses, last: StatusChange)
    requires Replays(st, changes, mid) && Has(mid, last.task, last.from) && last.from != last.to
    ensures Replays(st, changes + [last], mid[last.task := last.to])
  {
    assert (changes + [last])[..|changes|] == changes;
    assert mid[last.task := last.to][last.task := last.from] == mid;
  }

  /** The tasks ready now that were not ready before. */
  ghost function BecameReady(st: Statuses, st': Statuses): set<TaskId> {
    set id | id in st' && st'[id] == Ready && !Has(st, id, Ready)
  }

  lemma AcyclicSettles(p: Plan, st: Statuses)
    requires p.Fits(st) && Acyclic(p.deps, p.Nodes())
    ensures Settles(p, st)
  {
    PassesSettle(p, st);
  }

  lemma EnoughPasses(p: Plan, st: Statuses) returns (k: nat)
    requires p.Fits(st) && Settles(p, st)
    ensures Settled(p, Passes(p, st, k))
    ensures Acyclic(p.deps, p.Nodes()) ==> k == |p.order|
  {
    if Acyclic(p.deps, p.Nodes()) {
      PassesSettle(p, st);
      k := |p.order|;
    } else {
      k :| Settled(p, Passes(p, st, k));
    }
  }

  class DAGEvaluator {
    const plan: Plan
    /** The task table's status column. */
    var statuses: Statuses
    /** The `task.status_changed` events emitted so far. */
    var events: seq<StatusChange>

    constructor (plan: Plan, statuses: Statuses)
      ensures this.plan == plan && this.statuses == statuses && events == []
    {
      this.plan := plan;
      this.statuses := statuses;
      events := [];
    }

    method UpdateTaskStatus(id: TaskId, from: TaskStatus, next: TaskStatus)
      modifies this
      ensures statuses == old(statuses)[id := next]
      ensures events == old(events) + [StatusChange(id, from, next)]
    {
      statuses := statuses[id := next];
      events := events + [StatusChange(id, from, next)];
    }

    /** Terminates whenever some pass settles the table, at the first settled table, and on an acyclic
        graph of n tasks within n + 1 passes; the last pass is the one that finds no change. */
    method EvaluateTaskDAG() returns (newlyReady: seq<TaskId>, ghost passes: nat)
      requires plan.Fits(statuses) && Settles(plan, statuses)
      modifies this
      ensures statuses == Passes(plan, old(statuses), passes) && Settled(plan, statuses)
      ensures Acyclic(plan.deps, plan.Nodes()) ==>
              passes <= |plan.order| + 1 && statuses == Evaluate(plan, old(statuses))
      ensures ListsNewlyReady(old(statuses), statuses, newlyReady)
      ensures exists log :: events == old(events) + log && Replays(old(statuses), log, statuses)
    {
      hide Distinct, Replays, ListsNewlyReady, Acyclic, BecameReady, Sweep, Passes, Resolve, CanResolve, Evaluate,
          Settles;
      ghost var st0, log: seq<StatusChange> := statuses, [];
      var taskById := statuses;
      newlyReady, passes := [], 0;
      NothingYet(plan, st0);
      ghost var enough := EnoughPasses(plan, st0);
      var changed := true;
      while changed
        invariant taskById == statuses && plan.Fits(statuses)
        invariant passes <= enough + 1 && (changed ==> passes <= enough)
        invariant statuses == Passes(plan, st0, passes)
        invariant !changed ==> Settled(plan, statuses)
        invariant ListsNewlyReady(st0, statuses, newlyReady)
        invariant forall id :: Has(st0, id, Ready) ==> Has(statuses, id, Ready)
        invariant events == old(events) + log && Replays(st0, log, statuses)
        decreases enough + 1 - passes
      {
        changed := false;
        ghost var start := statuses;
        PassesNext(plan, st0, passes);
        for i := 0 to |plan.order|
          invariant taskById == statuses && plan.Fits(statuses)
          invariant statuses == Sweep(plan, start, i)
          invariant if changed then !Settled(plan, start) else
                      statuses == start && forall j :: 0 <= j < i ==> Stable(plan, start, plan.order[j])
          invariant ListsNewlyReady(st0, statuses, newlyReady)
          invariant forall id :: Has(st0, id, Ready) ==> Has(statuses, id, Ready)
          invariant events == old(events) + log && Replays(st0, log, statuses)
        {
          var id := plan.order[i];
          SweepNext(plan, start, i);
          if CanResolve(plan, taskById, id) {
            var current, nextStatus := taskById[id], Resolve(plan, taskById, id);
            if nextStatus != current {
              ResolvableIsNotReady(plan, taskById, id);
              ghost var mid := statuses;
              OneMoreChange(st0, mid, newlyReady, id, nextStatus);
              UpdateTaskStatus(id, current, nextStatus);
              taskById := taskById[id := nextStatus];
              changed := true;
              ReplaysOneMore(st0, log, mid, StatusChange(id, current, nextStatus));
              log := log + [StatusChange(id, current, nextStatus)];
              if nextStatus == Ready {
                newlyReady := newlyReady + [id];
              }
            }
          }
        }
        passes := passes + 1;
      }
      if Acyclic(plan.deps, plan.Nodes()) {
        SettledIsEvaluate(plan, st0, passes);
      }
    }
  }
}
