/** When the result of `evaluateTaskDAG` depends on the order of the task list:
    exactly when a failure or a release that may pass is caught by a task that
    keeps it. All graphs here are acyclic. */
module TaskDagOrder {
  import opened Sequences
  import opened TaskGraphs
  import opened TaskDag
  import opened TaskDagSolution

  /** A blind review that waits on something. */
  predicate Waiting(p: Plan, id: TaskId) {
    id in p.blind && p.DependenciesFor(id) != []
  }

  ghost predicate SomeFailed(p: Plan, st: Statuses, id: TaskId) {
    exists d <- p.DependenciesFor(id) :: Has(st, d, Failed)
  }

  ghost predicate AllOver(p: Plan, st: Statuses, id: TaskId) {
    forall d <- p.DependenciesFor(id) :: Has(st, d, Done) || Has(st, d, Failed)
  }

  // ----- What may spread -----

  /** Each task of the path after the first is one of `through` and depends on the one before. */
  ghost predicate IsSpread(p: Plan, from: set<TaskId>, through: set<TaskId>, path: seq<TaskId>) {
    && path != [] && path[0] in from
    && forall i :: 0 < i < |path| ==> path[i] in through && path[i - 1] in p.DependenciesFor(path[i])
  }

  ghost predicate Reaches(p: Plan, from: set<TaskId>, through: set<TaskId>, id: TaskId) {
    exists path :: IsSpread(p, from, through, path) && path[|path| - 1] == id
  }

  lemma ReachesItself(p: Plan, from: set<TaskId>, through: set<TaskId>, id: TaskId)
    requires id in from
    ensures Reaches(p, from, through, id)
  {
    assert IsSpread(p, from, through, [id]);
  }

  lemma ReachesOn(p: Plan, from: set<TaskId>, through: set<TaskId>, d: TaskId, id: TaskId)
    requires Reaches(p, from, through, d) && id in through && d in p.DependenciesFor(id)
    ensures Reaches(p, from, through, id)
  {
    var path :| IsSpread(p, from, through, path) && path[|path| - 1] == d;
    assert IsSpread(p, from, through, path + [id]);
  }

  lemma ReachedFrom(p: Plan, from: set<TaskId>, through: set<TaskId>, id: TaskId)
    requires Reaches(p, from, through, id)
    ensures id in from || id in through
    ensures id !in from ==> exists d <- p.DependenciesFor(id) :: Reaches(p, from, through, d)
  {
    var path :| IsSpread(p, from, through, path) && path[|path| - 1] == id;
    if id !in from {
      var front := path[..|path| - 1];
      var d := front[|front| - 1];
      assert IsSpread(p, from, through, front);
      assert d in p.DependenciesFor(id) && Reaches(p, from, through, d);
    }
  }

  ghost function Failures(st0: Statuses): set<TaskId> {
    set id | id in st0 && st0[id] == Failed
  }

  /** The failures no evaluation can undo. */
  ghost function FrozenFailures(p: Plan, st0: Statuses): set<TaskId> {
    set id | id in st0 && st0[id] == Failed && Frozen(p, st0, id)
  }

  /** The pending and blocked tasks that fail when a dependency does. */
  ghost function Fallible(p: Plan, st0: Statuses): set<TaskId> {
    set id | id in st0 && st0[id] in {Pending, Blocked} && !Waiting(p, id)
  }

  /** Some scan order may make the task fail, if only for a while: a failed task, or
      one that failure can spread to. */
  ghost predicate Tainted(p: Plan, st0: Statuses, id: TaskId) {
    Reaches(p, Failures(st0), Fallible(p, st0), id)
  }

  /** No scan order can revive the task: it is failed for good, or is failed and depends on such a task. */
  ghost predicate Doomed(p: Plan, st0: Statuses, id: TaskId) {
    Reaches(p, FrozenFailures(p, st0), Failures(st0), id)
  }

  /** The tasks that can be failed and unfailed: they fail with a dependency, and no failure of theirs is there to
      stay. */
  ghost function Wavering(p: Plan, st0: Statuses): set<TaskId> {
    Fallible(p, st0) + (set id | id in Failures(st0) && !Waiting(p, id) && !Doomed(p, st0, id))
  }

  /** The pending and blocked tasks that fail if their turn comes before a failed dependency is revived. */
  ghost function FirstToFail(p: Plan, st0: Statuses): set<TaskId> {
    set id | id in Fallible(p, st0) && SomeFailed(p, st0, id)
  }

  /** Some scan order may make the task fail after it was not failed. */
  ghost predicate CanFailAgain(p: Plan, st0: Statuses, id: TaskId) {
    Reaches(p, FirstToFail(p, st0), Wavering(p, st0), id)
  }

  // ----- The table computed in topological order -----

  /** The status of a task, given the final statuses of its dependencies. */
  ghost function Intended(p: Plan, st0: Statuses, st: Statuses, id: TaskId): TaskStatus
    requires id in st0
  {
    if Frozen(p, st0, id) then st0[id]
    else if !Waiting(p, id) then Derived(p, st0, st, id)
    else if st0[id] == Failed && SomeFailed(p, st, id) then Failed
    else if AllOver(p, st, id) then Ready
    else Blocked
  }

  ghost predicate IntendedAt(p: Plan, st0: Statuses, st: Statuses, id: TaskId) {
    id in st0 && id in st && st[id] == Intended(p, st0, st, id)
  }

  ghost predicate IsIntended(p: Plan, st0: Statuses, st: Statuses) {
    st.Keys == st0.Keys && forall id {:trigger IntendedAt(p, st0, st, id)} :: id in st0 ==> IntendedAt(p, st0, st, id)
  }

  ghost predicate SameAround(p: Plan, a: Statuses, b: Statuses, id: TaskId) {
    forall d <- p.DependenciesFor(id) :: Has(a, d, Done) == Has(b, d, Done) && Has(a, d, Failed) == Has(b, d, Failed)
  }

  lemma IntendedIsLocal(p: Plan, st0: Statuses, a: Statuses, b: Statuses, id: TaskId)
    requires id in st0 && SameAround(p, a, b, id)
    ensures Intended(p, st0, a, id) == Intended(p, st0, b, id)
    ensures SomeFailed(p, a, id) == SomeFailed(p, b, id) && AllOver(p, a, id) == AllOver(p, b, id)
  {
  }

  /** A task's own turn, from its starting status, gives it the intended one. */
  lemma OwnTurn(p: Plan, st0: Statuses, st: Statuses, id: TaskId)
    requires id in st && id in st0 && st[id] == st0[id]
    ensures Step(p, st, id) == st[id := Intended(p, st0, st, id)]
  {
    assert st[id := st[id]] == st;
  }

  /** The dependencies of a task in topological order come earlier, so another table that agrees with it there
      agrees around it. */
  lemma SameAroundInOrder(p: Plan, topo: seq<TaskId>, k: nat, a: Statuses, b: Statuses)
    requires IsTopological(p.deps, p.Nodes(), topo) && k < |topo|
    requires a.Keys == b.Keys == p.Nodes() && SamePrefix(topo, k, a, b)
    ensures SameAround(p, a, b, topo[k])
  {
    assert DependsOnEarlier(p.deps, p.Nodes(), topo, k);
    forall d | d in p.DependenciesFor(topo[k])
      ensures Has(a, d, Done) == Has(b, d, Done) && Has(a, d, Failed) == Has(b, d, Failed)
    {
      if d in p.Nodes() {
        var i :| 0 <= i < k && topo[i] == d;
      }
    }
  }

  /** One topological pass: the tasks seen so far have their intended status, the others stand. */
  ghost predicate Seen(p: Plan, st0: Statuses, topo: seq<TaskId>, k: nat, st: Statuses) {
    && st.Keys == st0.Keys && k <= |topo|
    && (forall i :: 0 <= i < k ==> IntendedAt(p, st0, st, topo[i]))
    && (forall i :: k <= i < |topo| ==> topo[i] in st && topo[i] in st0 && st[topo[i]] == st0[topo[i]])
  }

  lemma SeeOne(p: Plan, st0: Statuses, topo: seq<TaskId>, k: nat, st: Statuses)
    requires IsTopological(p.deps, p.Nodes(), topo) && st0.Keys == p.Nodes()
    requires k < |topo| && Seen(p, st0, topo, k, st)
    ensures Seen(p, st0, topo, k + 1, Step(p, st, topo[k]))
  {
    var id := topo[k];
    OwnTurn(p, st0, st, id);
    var st' := Step(p, st, id);
    hide Intended, Step, Frozen;
    assert SamePrefix(topo, k, st, st');
    forall i | 0 <= i <= k ensures IntendedAt(p, st0, st', topo[i]) {
      assert topo[i] in st0 by {
        assert topo[i] in Elements(topo);
      }
      assert SamePrefix(topo, i, st, st');
      SameAroundInOrder(p, topo, i, st, st');
      IntendedIsLocal(p, st0, st, st', topo[i]);
      assert i < k ==> IntendedAt(p, st0, st, topo[i]);
    }
  }

  lemma {:induction false} TopologicalSweep(p: Plan, st0: Statuses, q: Plan, k: nat)
    requires q.Fits(st0) && q == p.(order := q.order) && IsTopological(p.deps, p.Nodes(), q.order) && k <= |q.order|
    requires p.Nodes() == q.Nodes()
    ensures Seen(p, st0, q.order, k, Sweep(q, st0, k))
  {
    hide IsTopological, Distinct, Step, Sweep, Seen;
    SweepStart(q, st0);
    TopologicalElements(p, q.order);
    if k == 0 {
      NothingSeen(p, st0, q.order);
    } else {
      TopologicalSweep(p, st0, q, k - 1);
      SweepNext(q, st0, k - 1);
      SeeOne(p, st0, q.order, k - 1, Sweep(q, st0, k - 1));
      SameStep(p, q, Sweep(q, st0, k - 1), q.order[k - 1]);
    }
  }

  lemma TopologicalElements(p: Plan, topo: seq<TaskId>)
    requires IsTopological(p.deps, p.Nodes(), topo)
    ensures Elements(topo) == p.Nodes()
  {
  }

  lemma SweepStart(q: Plan, st: Statuses)
    requires q.Fits(st)
    ensures Sweep(q, st, 0) == st
  {
  }

  /** The scan order plays no part in a single step. */
  lemma SameStep(p: Plan, q: Plan, st: Statuses, id: TaskId)
    requires q == p.(order := q.order) && id in st
    ensures Step(p, st, id) == Step(q, st, id)
  {
  }

  lemma NothingSeen(p: Plan, st0: Statuses, topo: seq<TaskId>)
    requires Elements(topo) == st0.Keys
    ensures Seen(p, st0, topo, 0, st0)
  {
    forall i | 0 <= i < |topo| ensures topo[i] in st0 {
      assert topo[i] in Elements(topo);
    }
  }

  lemma IntendedIsStable(p: Plan, st0: Statuses, s: Statuses, id: TaskId)
    requires IntendedAt(p, st0, s, id)
    ensures Stable(p, s, id)
  {
  }

  /** The intended table: what one pass in topological order computes, and the evaluation with that order. */
  lemma IntendedTable(p: Plan, st0: Statuses) returns (s: Statuses, topo: seq<TaskId>)
    requires p.Fits(st0) && Acyclic(p.deps, p.Nodes())
    ensures IsIntended(p, st0, s) && IsTopological(p.deps, p.Nodes(), topo)
    ensures var q := p.(order := topo); q.Fits(st0) && Evaluate(q, st0) == s
  {
    topo := AcyclicIsSortable(p.deps, p.Nodes());
    var q := p.(order := topo);
    s := Sweep(q, st0, |topo|);
    TopologicalSweep(p, st0, q, |topo|);
    hide Intended, Sweep;
    forall id | id in st0 ensures IntendedAt(p, st0, s, id) && Stable(q, s, id) {
      assert id in Elements(topo);
      IntendedIsStable(p, st0, s, id);
      SameStable(p, q, s, id);
    }
    PassesNext(q, st0, 0);
    PassesNothing(q, st0);
    SettledIsEvaluate(q, st0, 1);
  }

  lemma PassesNothing(q: Plan, st: Statuses)
    requires q.Fits(st)
    ensures Passes(q, st, 0) == st
  {
  }

  lemma SameStable(p: Plan, q: Plan, st: Statuses, id: TaskId)
    requires q == p.(order := q.order)
    ensures Stable(p, st, id) == Stable(q, st, id)
  {
  }

  lemma {:induction false} IntendedTablesAgree(p: Plan, st0: Statuses, a: Statuses, b: Statuses, topo: seq<TaskId>,
      k: nat)
    requires p.Fits(st0) && IsIntended(p, st0, a) && IsIntended(p, st0, b)
    requires IsTopological(p.deps, p.Nodes(), topo) && k <= |topo|
    ensures SamePrefix(topo, k, a, b)
  {
    hide Distinct, Intended;
    if k > 0 {
      IntendedTablesAgree(p, st0, a, b, topo, k - 1);
      var id := topo[k - 1];
      assert id in Elements(topo);
      SameAroundInOrder(p, topo, k - 1, a, b);
      IntendedIsLocal(p, st0, a, b, id);
      assert IntendedAt(p, st0, a, id) && IntendedAt(p, st0, b, id);
    }
  }

  /** There is only one intended table. */
  lemma IntendedIsUnique(p: Plan, st0: Statuses, a: Statuses, b: Statuses)
    requires p.Fits(st0) && Acyclic(p.deps, p.Nodes()) && IsIntended(p, st0, a) && IsIntended(p, st0, b)
    ensures a == b
  {
    var topo := AcyclicIsSortable(p.deps, p.Nodes());
    IntendedTablesAgree(p, st0, a, b, topo, |topo|);
    forall id | id in a ensures a[id] == b[id] {
      assert id in Elements(topo);
    }
  }

  // ----- The conditions -----

  /** A pending or blocked task that has a run keeps a failure: it must not be able to catch one that passes. */
  ghost predicate RunsKeepOnlyRealFailures(p: Plan, st0: Statuses, s: Statuses) {
    forall id :: id in Fallible(p, st0) && id in p.ran && Tainted(p, st0, id) ==> Has(s, id, Failed)
  }

  ghost predicate MayBeReleased(p: Plan, st0: Statuses, id: TaskId) {
    forall d <- p.DependenciesFor(id) :: Has(st0, d, Done) || Tainted(p, st0, d)
  }

  /** A waiting blind review, once released, stays ready: no failure that passes must be able to release it. */
  ghost predicate ReviewsWaitForRealEnds(p: Plan, st0: Statuses, s: Statuses) {
    forall id :: id in st0 && Waiting(p, id) && st0[id] in {Pending, Blocked} && MayBeReleased(p, st0, id) ==>
        Has(s, id, Ready)
  }

  /** A failed blind review without a run, once revived, never fails again. */
  ghost predicate ReviewsReviveForGood(p: Plan, st0: Statuses, s: Statuses) {
    forall id :: id in st0 && Waiting(p, id) && st0[id] == Failed && !Doomed(p, st0, id) ==> !Has(s, id, Failed)
  }

  ghost predicate MayBeReleasedAgain(p: Plan, st0: Statuses, id: TaskId) {
    forall d <- p.DependenciesFor(id) :: Has(st0, d, Done) || CanFailAgain(p, st0, d)
  }

  /** A failed blind review that can be revived is not released by failures that come after its revival. */
  ghost predicate RevivedReviewsWait(p: Plan, st0: Statuses, s: Statuses) {
    forall id ::
      id in st0 && Waiting(p, id) && st0[id] == Failed && !Doomed(p, st0, id) && MayBeReleasedAgain(p, st0, id) ==>
        Has(s, id, Ready)
  }

  ghost predicate Conditions(p: Plan, st0: Statuses, s: Statuses) {
    RunsKeepOnlyRealFailures(p, st0, s) && ReviewsWaitForRealEnds(p, st0, s) && ReviewsReviveForGood(p, st0, s)
  }

  // ----- Under the conditions every order computes the intended table -----

  /** What every step of every order keeps at one task. */
  ghost predicate BoundAt(p: Plan, st0: Statuses, s: Statuses, st: Statuses, id: TaskId) {
    && id in st0 && id in st && id in s
    && (Frozen(p, st0, id) ==> st[id] == st0[id])
    && (st[id] == Failed ==> Tainted(p, st0, id))
    && (Doomed(p, st0, id) ==> st[id] == Failed)
    && (!Frozen(p, st0, id) ==>
          && st[id] in {Pending, Blocked, Failed, Ready}
          && (p.DependenciesFor(id) == [] ==> st[id] != Failed && (st0[id] == Blocked <==> st[id] == Blocked))
          && (st[id] == Ready ==> s[id] == Ready)
          && (st[id] == Failed && id in p.ran ==> s[id] == Failed)
          && (Waiting(p, id) && st0[id] != Failed ==> st[id] != Failed)
          && (Waiting(p, id) && st0[id] == Failed && st[id] != Failed ==> s[id] != Failed))
  }

  ghost predicate Bound(p: Plan, st0: Statuses, s: Statuses, st: Statuses) {
    && st.Keys == st0.Keys && Again(p, st0, st)
    && forall id {:trigger BoundAt(p, st0, s, st, id)} :: id in st0 ==> BoundAt(p, st0, s, st, id)
  }

  /** A task that did not start failed is failed only if it can fail again, and so is every
      failed dependency of a task that was revived. */
  ghost predicate AgainAt(p: Plan, st0: Statuses, st: Statuses, id: TaskId) {
    && id in st0 && id in st
    && (st[id] == Failed && st0[id] != Failed ==> CanFailAgain(p, st0, id))
    && (st[id] != Failed && st0[id] == Failed ==>
          forall d <- p.DependenciesFor(id) :: Has(st, d, Failed) ==> CanFailAgain(p, st0, d))
  }

  ghost predicate Again(p: Plan, st0: Statuses, st: Statuses) {
    forall id {:trigger AgainAt(p, st0, st, id)} :: id in st0 ==> AgainAt(p, st0, st, id)
  }

  /** What the current table says about a dependency holds of the starting table. */
  lemma BoundDependency(p: Plan, st0: Statuses, s: Statuses, st: Statuses, d: TaskId)
    requires Bound(p, st0, s, st)
    ensures Has(st, d, Done) ==> Has(st0, d, Done) && Frozen(p, st0, d)
    ensures Has(st, d, Failed) ==> Tainted(p, st0, d)
    ensures Doomed(p, st0, d) ==> Has(st, d, Failed)
  {
    hide Tainted, Frozen;
    if d in st0 {
      assert BoundAt(p, st0, s, st, d);
    } else if Doomed(p, st0, d) {
      ReachedFrom(p, FrozenFailures(p, st0), Failures(st0), d);
    }
  }

  /** A task whose dependencies are not failed now is not doomed. */
  lemma NotDoomed(p: Plan, st0: Statuses, s: Statuses, st: Statuses, id: TaskId)
    requires Bound(p, st0, s, st) && id in st0 && !Frozen(p, st0, id) && !SomeFailed(p, st, id)
    ensures !Doomed(p, st0, id)
  {
    if Doomed(p, st0, id) {
      ReachedFrom(p, FrozenFailures(p, st0), Failures(st0), id);
      var d :| d in p.DependenciesFor(id) && Doomed(p, st0, d);
      BoundDependency(p, st0, s, st, d);
    }
  }

  lemma DoomedHasFailed(p: Plan, st0: Statuses, id: TaskId)
    ensures Doomed(p, st0, id) ==> Has(st0, id, Failed)
  {
    if Doomed(p, st0, id) {
      ReachedFrom(p, FrozenFailures(p, st0), Failures(st0), id);
    }
  }

  /** A task that fails now can fail again. */
  lemma FailureReturns(p: Plan, st0: Statuses, s: Statuses, st: Statuses, id: TaskId)
    requires Bound(p, st0, s, st) && id in st0 && st[id] in {Pending, Blocked} && !Frozen(p, st0, id)
    requires !Waiting(p, id) && SomeFailed(p, st, id)
    ensures CanFailAgain(p, st0, id)
  {
    assert BoundAt(p, st0, s, st, id) && AgainAt(p, st0, st, id);
    var d :| d in p.DependenciesFor(id) && Has(st, d, Failed);
    hide Frozen, Bound, Tainted, Doomed;
    FailedDependency(p, st0, s, st, d);
    if st0[id] != Failed && Has(st0, d, Failed) {
      assert id in FirstToFail(p, st0);
      ReachesItself(p, FirstToFail(p, st0), Wavering(p, st0), id);
    } else {
      ReachesOn(p, FirstToFail(p, st0), Wavering(p, st0), d, id);
    }
  }

  lemma FailedDependency(p: Plan, st0: Statuses, s: Statuses, st: Statuses, d: TaskId)
    requires Bound(p, st0, s, st) && Has(st, d, Failed)
    ensures Has(st0, d, Failed) || CanFailAgain(p, st0, d)
  {
    hide CanFailAgain;
    assert AgainAt(p, st0, st, d);
  }

  /** What a turn tells about failing and recovering. */
  lemma TurnFails(p: Plan, st: Statuses, id: TaskId)
    requires id in st
    ensures var was, now := st[id], Step(p, st, id)[id];
            && (now == Failed && was != Failed ==>
                  was in {Pending, Blocked} && !Waiting(p, id) && SomeFailed(p, st, id))
            && (now != Failed && was == Failed ==> !SomeFailed(p, st, id))
    ensures Step(p, st, id) == st[id := Step(p, st, id)[id]]
  {
    assert st[id := st[id]] == st;
  }

  lemma StepKeepsAgain(p: Plan, st0: Statuses, s: Statuses, st: Statuses, id: TaskId)
    requires Bound(p, st0, s, st) && id in st0
    ensures Again(p, st0, Step(p, st, id))
  {
    assert BoundAt(p, st0, s, st, id);
    var st' := Step(p, st, id);
    TurnFails(p, st, id);
    if st'[id] == Failed && st[id] != Failed {
      if Frozen(p, st0, id) {
        FrozenTurn(p, st0, s, st, id);
      }
      FailureReturns(p, st0, s, st, id);
    }
    hide Step, CanFailAgain, BoundAt, Tainted, Doomed;
    forall other | other in st0 ensures AgainAt(p, st0, st', other) {
      assert AgainAt(p, st0, st, other);
    }
  }

  lemma StartsAgain(p: Plan, st0: Statuses)
    ensures Again(p, st0, st0)
  {
    forall id | id in st0 ensures AgainAt(p, st0, st0, id) {
    }
  }

  lemma FrozenTurn(p: Plan, st0: Statuses, s: Statuses, st: Statuses, id: TaskId)
    requires BoundAt(p, st0, s, st, id) && Frozen(p, st0, id)
    ensures Step(p, st, id) == st
  {
  }

  lemma SourceTurn(p: Plan, st0: Statuses, s: Statuses, st: Statuses, id: TaskId)
    requires BoundAt(p, st0, s, st, id) && IntendedAt(p, st0, s, id) && !Frozen(p, st0, id)
            && p.DependenciesFor(id) == []
    ensures BoundAt(p, st0, s, Step(p, st, id), id)
  {
    hide Tainted;
    DoomedHasFailed(p, st0, id);
    hide Doomed;
  }

  /** If all dependencies are over now, each was done from the start or is tainted. */
  lemma OverMeansMayBeReleased(p: Plan, st0: Statuses, s: Statuses, st: Statuses, id: TaskId)
    requires Bound(p, st0, s, st) && AllOver(p, st, id)
    ensures MayBeReleased(p, st0, id)
  {
    hide Bound, Tainted, Frozen;
    forall d | d in p.DependenciesFor(id) ensures Has(st0, d, Done) || Tainted(p, st0, d) {
      BoundDependency(p, st0, s, st, d);
    }
  }

  /** If all dependencies of a revived review are over now, each was done from the start or can fail again. */
  lemma OverMeansMayBeReleasedAgain(p: Plan, st0: Statuses, s: Statuses, st: Statuses, id: TaskId)
    requires Bound(p, st0, s, st) && AllOver(p, st, id) && id in st0 && st0[id] == Failed
    requires st[id] != Failed || !SomeFailed(p, st, id)
    ensures MayBeReleasedAgain(p, st0, id)
  {
    assert AgainAt(p, st0, st, id);
    hide Bound, CanFailAgain, Frozen;
    forall d | d in p.DependenciesFor(id) ensures Has(st0, d, Done) || CanFailAgain(p, st0, d) {
      BoundDependency(p, st0, s, st, d);
    }
  }

  /** What a turn does to a waiting blind review. */
  lemma WaitingStep(p: Plan, st: Statuses, id: TaskId)
    requires id in st && Waiting(p, id)
    ensures CanResolve(p, st, id) <==>
            st[id] in {Pending, Blocked}
            || (st[id] == Failed && id !in p.ran && !SomeFailed(p, st, id))
    ensures Resolve(p, st, id) == if AllOver(p, st, id) then Ready else Blocked
  {
  }

  lemma WaitingTurn(p: Plan, st0: Statuses, s: Statuses, st: Statuses, id: TaskId)
    requires Bound(p, st0, s, st) && id in st0 && IntendedAt(p, st0, s, id)
    requires Conditions(p, st0, s) && RevivedReviewsWait(p, st0, s) && !Frozen(p, st0, id) && Waiting(p, id)
    ensures BoundAt(p, st0, s, Step(p, st, id), id)
  {
    assert BoundAt(p, st0, s, st, id);
    WaitingStep(p, st, id);
    DoomedHasFailed(p, st0, id);
    if CanResolve(p, st, id) {
      if !SomeFailed(p, st, id) {
        NotDoomed(p, st0, s, st, id);
      }
      if AllOver(p, st, id) {
        if st0[id] == Failed {
          OverMeansMayBeReleasedAgain(p, st0, s, st, id);
        } else {
          OverMeansMayBeReleased(p, st0, s, st, id);
        }
      }
      hide Tainted, Doomed, MayBeReleased, MayBeReleasedAgain, Intended, Resolve, CanResolve, AllOver, SomeFailed,
        Bound;
    }
  }

  /** What a turn does to any other task that depends on something. */
  lemma NormalStep(p: Plan, st: Statuses, id: TaskId)
    requires id in st && !Waiting(p, id) && p.DependenciesFor(id) != []
    ensures CanResolve(p, st, id) <==>
            st[id] in {Pending, Blocked}
            || (st[id] == Failed && id !in p.ran && !SomeFailed(p, st, id))
    ensures SomeFailed(p, st, id) ==> Resolve(p, st, id) == Failed
    ensures !SomeFailed(p, st, id) ==> Resolve(p, st, id) in {Ready, Blocked}
    ensures Resolve(p, st, id) == Ready ==> forall d <- p.DependenciesFor(id) :: Has(st, d, Done)
  {
  }

  lemma FailureTaints(p: Plan, st0: Statuses, s: Statuses, st: Statuses, id: TaskId)
    requires Bound(p, st0, s, st) && id in Fallible(p, st0) && SomeFailed(p, st, id)
    ensures Tainted(p, st0, id)
  {
    hide Bound, Frozen;
    var d :| d in p.DependenciesFor(id) && Has(st, d, Failed);
    BoundDependency(p, st0, s, st, d);
    ReachesOn(p, Failures(st0), Fallible(p, st0), d, id);
  }

  /** Dependencies that are done now were done from the start. */
  lemma DoneFromTheStart(p: Plan, st0: Statuses, s: Statuses, st: Statuses, id: TaskId)
    requires Bound(p, st0, s, st) && IsIntended(p, st0, s) && IntendedAt(p, st0, s, id)
    requires !Frozen(p, st0, id) && !Waiting(p, id) && p.DependenciesFor(id) != []
    requires forall d <- p.DependenciesFor(id) :: Has(st, d, Done)
    ensures s[id] == Ready
  {
    forall d | d in p.DependenciesFor(id) ensures Has(s, d, Done) {
      BoundDependency(p, st0, s, st, d);
      assert IntendedAt(p, st0, s, d);
    }
    var d := p.DependenciesFor(id)[0];
    assert d in p.DependenciesFor(id);
  }

  lemma NormalTurn(p: Plan, st0: Statuses, s: Statuses, st: Statuses, id: TaskId)
    requires Bound(p, st0, s, st) && id in st0 && IsIntended(p, st0, s) && IntendedAt(p, st0, s, id)
    requires Conditions(p, st0, s) && !Frozen(p, st0, id) && !Waiting(p, id) && p.DependenciesFor(id) != []
    ensures BoundAt(p, st0, s, Step(p, st, id), id)
  {
    assert BoundAt(p, st0, s, st, id);
    NormalStep(p, st, id);
    DoomedHasFailed(p, st0, id);
    if CanResolve(p, st, id) {
      if SomeFailed(p, st, id) {
        if st0[id] == Failed {
          ReachesItself(p, Failures(st0), Fallible(p, st0), id);
        } else {
          FailureTaints(p, st0, s, st, id);
        }
      } else {
        NotDoomed(p, st0, s, st, id);
      }
      if Resolve(p, st, id) == Ready {
        DoneFromTheStart(p, st0, s, st, id);
      }
      hide Tainted, Doomed, Intended, Resolve, CanResolve, SomeFailed, Bound, IsIntended;
    }
  }

  lemma StepKeepsBound(p: Plan, st0: Statuses, s: Statuses, st: Statuses, id: TaskId)
    requires Bound(p, st0, s, st) && IsIntended(p, st0, s) && id in st0
    requires Conditions(p, st0, s) && RevivedReviewsWait(p, st0, s)
    ensures Bound(p, st0, s, Step(p, st, id))
  {
    assert BoundAt(p, st0, s, st, id) && IntendedAt(p, st0, s, id);
    var st' := Step(p, st, id);
    assert BoundAt(p, st0, s, st', id) by {
      hide Step, Conditions, RevivedReviewsWait, Intended;
      if Frozen(p, st0, id) {
        FrozenTurn(p, st0, s, st, id);
      } else if p.DependenciesFor(id) == [] {
        SourceTurn(p, st0, s, st, id);
      } else if Waiting(p, id) {
        WaitingTurn(p, st0, s, st, id);
      } else {
        NormalTurn(p, st0, s, st, id);
      }
    }
    StepKeepsAgain(p, st0, s, st, id);
    OthersStayBound(p, st0, s, st, st', id);
  }

  lemma OthersStayBound(p: Plan, st0: Statuses, s: Statuses, st: Statuses, st': Statuses, id: TaskId)
    requires Bound(p, st0, s, st) && id in st0 && BoundAt(p, st0, s, st', id) && st' == st[id := st'[id]]
    requires Again(p, st0, st')
    ensures Bound(p, st0, s, st')
  {
    hide Tainted, Doomed, Frozen, Waiting, Again;
    forall other | other in st0 ensures BoundAt(p, st0, s, st', other) {
      assert BoundAt(p, st0, s, st, other);
    }
  }

  lemma StartIsBound(p: Plan, st0: Statuses, s: Statuses)
    requires IsIntended(p, st0, s)
    ensures Bound(p, st0, s, st0)
  {
    StartsAgain(p, st0);
    hide Again;
    forall id | id in st0 ensures BoundAt(p, st0, s, st0, id) {
      DoomedHasFailed(p, st0, id);
      assert IntendedAt(p, st0, s, id);
      if st0[id] == Failed {
        ReachesItself(p, Failures(st0), Fallible(p, st0), id);
      }
      hide Doomed, Tainted;
    }
  }

  lemma {:induction false} SweepKeepsBound(p: Plan, q: Plan, st0: Statuses, s: Statuses, st: Statuses, i: nat)
    requires q.Fits(st) && q == p.(order := q.order) && i <= |q.order| && st.Keys == st0.Keys
    requires Bound(p, st0, s, st) && IsIntended(p, st0, s) && Conditions(p, st0, s) && RevivedReviewsWait(p, st0, s)
    ensures Bound(p, st0, s, Sweep(q, st, i))
  {
    hide Bound, IsIntended, Conditions, RevivedReviewsWait, Step, Distinct;
    SweepStart(q, st);
    if i > 0 {
      SweepKeepsBound(p, q, st0, s, st, i - 1);
      SweepNext(q, st, i - 1);
      SameStep(p, q, Sweep(q, st, i - 1), q.order[i - 1]);
      StepKeepsBound(p, st0, s, Sweep(q, st, i - 1), q.order[i - 1]);
    }
  }

  lemma {:induction false} PassesKeepBound(p: Plan, q: Plan, st0: Statuses, s: Statuses, k: nat)
    requires q.Fits(st0) && q == p.(order := q.order)
    requires IsIntended(p, st0, s) && Conditions(p, st0, s) && RevivedReviewsWait(p, st0, s)
    ensures Bound(p, st0, s, Passes(q, st0, k))
  {
    hide Bound, IsIntended, Conditions, RevivedReviewsWait, Sweep, Distinct;
    if k == 0 {
      StartIsBound(p, st0, s);
      PassesNothing(q, st0);
    } else {
      PassesKeepBound(p, q, st0, s, k - 1);
      PassesNext(q, st0, k - 1);
      SweepKeepsBound(p, q, st0, s, Passes(q, st0, k - 1), |q.order|);
    }
  }

  /** A settled table that agrees with the intended one around a task agrees on the task. */
  lemma SettledAgrees(p: Plan, st0: Statuses, s: Statuses, st: Statuses, id: TaskId)
    requires BoundAt(p, st0, s, st, id) && IntendedAt(p, st0, s, id) && Stable(p, st, id) && SameAround(p, st, s, id)
    ensures st[id] == s[id]
  {
    IntendedIsLocal(p, st0, st, s, id);
    hide Tainted, Doomed, SameAround;
    if !Frozen(p, st0, id) && p.DependenciesFor(id) != [] {
      if Waiting(p, id) {
        WaitingStep(p, st, id);
        hide Resolve, CanResolve, Derived;
      } else {
        NormalStep(p, st, id);
      }
    }
  }

  lemma {:induction false} SettledPrefix(p: Plan, st0: Statuses, s: Statuses, st: Statuses, topo: seq<TaskId>, k: nat)
    requires p.Fits(st0) && IsIntended(p, st0, s) && Bound(p, st0, s, st) && Settled(p, st)
    requires IsTopological(p.deps, p.Nodes(), topo) && k <= |topo|
    ensures SamePrefix(topo, k, st, s)
  {
    hide Distinct, Intended, Stable, BoundAt, IsTopological;
    if k > 0 {
      SettledPrefix(p, st0, s, st, topo, k - 1);
      var id := topo[k - 1];
      InTopo(p, topo, k - 1);
      SameAroundInOrder(p, topo, k - 1, st, s);
      assert BoundAt(p, st0, s, st, id) && IntendedAt(p, st0, s, id) && Stable(p, st, id);
      SettledAgrees(p, st0, s, st, id);
    }
  }

  lemma InTopo(p: Plan, topo: seq<TaskId>, i: nat)
    requires IsTopological(p.deps, p.Nodes(), topo) && i < |topo|
    ensures topo[i] in p.Nodes()
  {
    assert topo[i] in Elements(topo);
  }

  /** Any order computes the intended table. */
  lemma EveryOrderIsIntended(p: Plan, q: Plan, st0: Statuses, s: Statuses)
    requires p.Fits(st0) && q.Fits(st0) && q == p.(order := q.order) && Acyclic(p.deps, p.Nodes())
    requires IsIntended(p, st0, s) && Conditions(p, st0, s) && RevivedReviewsWait(p, st0, s)
    ensures Evaluate(q, st0) == s
  {
    var st := Evaluate(q, st0);
    PassesSettle(q, st0);
    PassesKeepBound(p, q, st0, s, |q.order|);
    forall id | id in p.Nodes() ensures Stable(p, st, id) {
      SameStable(p, q, st, id);
    }
    var topo := AcyclicIsSortable(p.deps, p.Nodes());
    hide IsIntended, Bound, Conditions, RevivedReviewsWait, Evaluate, Acyclic;
    SettledPrefix(p, st0, s, st, topo, |topo|);
    IntendedKeys(p, st0, s);
    forall id | id in st0 ensures st[id] == s[id] {
      assert id in Elements(topo);
    }
  }

  lemma IntendedKeys(p: Plan, st0: Statuses, s: Statuses)
    requires IsIntended(p, st0, s)
    ensures s.Keys == st0.Keys
  {
  }

  // ----- Without them two orders disagree -----

  /** The members of `keep`, in the order of `xs`. */
  ghost function Pick(xs: seq<TaskId>, keep: set<TaskId>): (r: seq<TaskId>)
    ensures forall x :: x in r <==> x in xs && x in keep
  {
    if xs == [] then [] else
      var front, last := xs[..|xs| - 1], xs[|xs| - 1];
      assert xs == front + [last];
      Pick(front, keep) + if last in keep then [last] else []
  }

  /** Each picked task comes after the picked tasks that it depends on. */
  ghost predicate InOrder(p: Plan, xs: seq<TaskId>, keep: set<TaskId>) {
    forall i, d :: 0 <= i < |xs| && d in p.DependenciesFor(xs[i]) && d in keep ==> d in xs[..i]
  }

  lemma {:induction false} PickInOrder(p: Plan, topo: seq<TaskId>, keep: set<TaskId>, k: nat)
    requires IsTopological(p.deps, p.Nodes(), topo) && keep <= p.Nodes() && k <= |topo|
    ensures Distinct(Pick(topo[..k], keep)) && InOrder(p, Pick(topo[..k], keep), keep)
  {
    if k > 0 {
      PickInOrder(p, topo, keep, k - 1);
      var front, last, xs := topo[..k - 1], topo[k - 1], Pick(topo[..k], keep);
      assert topo[..k][..k - 1] == front && topo[..k][k - 1] == last;
      var before := Pick(front, keep);
      assert last !in front && DependsOnEarlier(p.deps, p.Nodes(), topo, k - 1);
      assert last in p.Nodes() by {
        assert last in Elements(topo);
      }
      hide IsTopological;
      if last in keep {
        DistinctExtends(before, last);
        assert xs == before + [last];
        forall i, d | 0 <= i < |xs| && d in p.DependenciesFor(xs[i]) && d in keep ensures d in xs[..i] {
          if i < |before| {
            assert xs[..i] == before[..i];
          } else {
            assert xs[..i] == before;
          }
        }
      } else {
        assert xs == before;
      }
    }
  }

  /** The order that scans `xs` first. */
  lemma OrderStarting(p: Plan, xs: seq<TaskId>) returns (q: Plan)
    requires Distinct(p.order) && Distinct(xs) && Elements(xs) <= p.Nodes()
    ensures q == p.(order := q.order) && Distinct(q.order) && q.Nodes() == p.Nodes() && xs <= q.order
  {
    var rest := Pick(p.order, p.Nodes() - Elements(xs));
    PickDistinct(p.order, p.Nodes() - Elements(xs));
    q := p.(order := xs + rest);
    forall y | y in rest ensures y !in xs {
      assert y in xs ==> y in Elements(xs);
    }
    DistinctAppend(xs, rest);
    assert forall x :: x in q.order <==> x in xs || x in rest;
    assert forall x :: x in p.order <==> x in p.Nodes();
    assert forall x :: x in xs <==> x in Elements(xs);
    assert q.Nodes() == p.Nodes();
  }

  lemma {:induction false} PickDistinct(xs: seq<TaskId>, keep: set<TaskId>)
    requires Distinct(xs)
    ensures Distinct(Pick(xs, keep))
  {
    if xs != [] {
      var front, last := xs[..|xs| - 1], xs[|xs| - 1];
      PickDistinct(front, keep);
      assert last !in front;
      if last in keep {
        DistinctExtends(Pick(front, keep), last);
      }
    }
  }

  // ----- Statuses that no later turn changes -----

  ghost predicate Kept(p: Plan, st: Statuses, id: TaskId) {
    id in st && (st[id] in {Ready, Active, Done} || (st[id] == Failed && id in p.ran))
  }

  /** A revived blind review. */
  ghost predicate Revived(p: Plan, st: Statuses, id: TaskId) {
    id in st && Waiting(p, id) && st[id] != Failed
  }

  lemma StepKeeps(p: Plan, st: Statuses, x: TaskId, id: TaskId)
    requires x in st
    ensures Kept(p, st, id) ==> Kept(p, Step(p, st, x), id) && Step(p, st, x)[id] == st[id]
    ensures Revived(p, st, id) ==> Revived(p, Step(p, st, x), id)
  {
  }

  lemma {:induction false} SweepKeeps(p: Plan, st: Statuses, from: nat, to: nat, id: TaskId)
    requires p.Fits(st) && from <= to <= |p.order|
    ensures var a, b := Sweep(p, st, from), Sweep(p, st, to);
            && (Kept(p, a, id) ==> Kept(p, b, id) && b[id] == a[id])
            && (Revived(p, a, id) ==> Revived(p, b, id))
  {
    hide Kept, Revived, Step, Distinct, Sweep;
    if from < to {
      SweepKeeps(p, st, from, to - 1, id);
      SweepNext(p, st, to - 1);
      StepKeeps(p, Sweep(p, st, to - 1), p.order[to - 1], id);
      KeptIsIn(p, Sweep(p, st, from), id);
      KeptIsIn(p, Sweep(p, st, to - 1), id);
    }
  }

  lemma KeptIsIn(p: Plan, st: Statuses, id: TaskId)
    ensures Kept(p, st, id) || Revived(p, st, id) ==> id in st
  {
  }

  lemma {:induction false} PassesKeep(p: Plan, st: Statuses, j: nat, k: nat, id: TaskId)
    requires p.Fits(st) && j <= k
    ensures var a, b := Passes(p, st, j), Passes(p, st, k);
            && (Kept(p, a, id) ==> Kept(p, b, id) && b[id] == a[id])
            && (Revived(p, a, id) ==> Revived(p, b, id))
  {
    hide Kept, Revived, Distinct, Sweep, Passes;
    KeptIsIn(p, Passes(p, st, j), id);
    KeptIsIn(p, Passes(p, st, k), id);
    if j < k {
      PassesKeep(p, st, j, k - 1, id);
      PassesNext(p, st, k - 1);
      SweepKeeps(p, Passes(p, st, k - 1), 0, |p.order|, id);
    }
  }

  /** What the first `i` turns of a pass fix, the evaluation fixes. */
  lemma EvaluationKeeps(p: Plan, st: Statuses, k: nat, i: nat, id: TaskId)
    requires p.Fits(st) && i <= |p.order| && k < |p.order|
    ensures var a, b := Sweep(p, Passes(p, st, k), i), Evaluate(p, st);
            && (Kept(p, a, id) ==> Kept(p, b, id) && b[id] == a[id])
            && (Revived(p, a, id) ==> Revived(p, b, id))
  {
    hide Kept, Revived, Distinct, Sweep, Plan.Nodes, Passes;
    var now := Passes(p, st, k);
    KeptIsIn(p, Sweep(p, now, i), id);
    KeptIsIn(p, Passes(p, st, k + 1), id);
    KeptIsIn(p, Passes(p, st, |p.order|), id);
    SweepKeeps(p, now, i, |p.order|, id);
    PassesNext(p, st, k);
    PassesKeep(p, st, k + 1, |p.order|, id);
  }

  lemma FirstPassKeeps(p: Plan, st: Statuses, i: nat, id: TaskId)
    requires p.Fits(st) && i <= |p.order| && id in st
    ensures var a, b := Sweep(p, st, i), Evaluate(p, st);
            && (Kept(p, a, id) ==> Kept(p, b, id) && b[id] == a[id])
            && (Revived(p, a, id) ==> Revived(p, b, id))
  {
    InSomeOrder(p, st, id);
    hide Kept, Revived, Distinct, Sweep, Evaluate;
    PassesNothing(p, st);
    EvaluationKeeps(p, st, 0, i, id);
  }

  lemma InSomeOrder(p: Plan, st: Statuses, id: TaskId)
    requires p.Fits(st) && id in st
    ensures |p.order| > 0
  {
    assert id in Elements(p.order);
  }

  // ----- Failing everything that can fail, at once -----

  ghost function TaintedTasks(p: Plan, st0: Statuses): set<TaskId> {
    set id | id in Fallible(p, st0) && Tainted(p, st0, id)
  }

  /** The first `i` of the tainted tasks have failed; the others stand. */
  ghost predicate FailedSoFar(p: Plan, st0: Statuses, xs: seq<TaskId>, i: nat, st: Statuses) {
    && st.Keys == st0.Keys && i <= |xs|
    && (forall id :: id in st0 ==> st[id] == if id in xs[..i] then Failed else st0[id])
  }

  lemma FailOne(p: Plan, st0: Statuses, xs: seq<TaskId>, i: nat, st: Statuses)
    requires FailedSoFar(p, st0, xs, i, st) && i < |xs| && Distinct(xs) && xs[i] in st
    requires InOrder(p, xs, TaintedTasks(p, st0)) && forall x :: x in xs <==> x in TaintedTasks(p, st0)
    ensures FailedSoFar(p, st0, xs, i + 1, Step(p, st, xs[i]))
  {
    var id := xs[i];
    assert id in TaintedTasks(p, st0) && id !in xs[..i];
    ReachedFrom(p, Failures(st0), Fallible(p, st0), id);
    var d :| d in p.DependenciesFor(id) && Reaches(p, Failures(st0), Fallible(p, st0), d);
    ReachedFrom(p, Failures(st0), Fallible(p, st0), d);
    assert Has(st, d, Failed) by {
      if d in Failures(st0) {
        assert d !in xs;
      } else {
        assert d in TaintedTasks(p, st0);
        assert d in xs[..i];
      }
    }
    hide Tainted, InOrder, Distinct;
    assert SomeFailed(p, st, id);
    NormalStep(p, st, id);
    assert xs[..i + 1] == xs[..i] + [id];
    hide CanResolve, Resolve;
    assert Step(p, st, id) == st[id := Failed];
  }

  lemma NoneFailed(p: Plan, st0: Statuses, xs: seq<TaskId>)
    ensures FailedSoFar(p, st0, xs, 0, st0)
  {
  }

  /** The turns of an order that starts with `xs`. */
  lemma FirstTurns(p: Plan, st0: Statuses, xs: seq<TaskId>, i: nat)
    requires p.Fits(st0) && xs <= p.order && i < |xs|
    ensures xs[i] in Sweep(p, st0, i) && Sweep(p, st0, i + 1) == Step(p, Sweep(p, st0, i), xs[i])
  {
    assert p.order[i] == xs[i];
    SweepNext(p, st0, i);
  }

  /** The turns that follow `before` in the first pass, when `before` has led from `st0` to `st1`. */
  lemma {:induction false} FailAll(p: Plan, st0: Statuses, before: seq<TaskId>, st1: Statuses, xs: seq<TaskId>, i: nat)
    requires p.Fits(st0) && before + xs <= p.order && Distinct(xs) && i <= |xs| && Sweep(p, st0, |before|) == st1
    requires InOrder(p, xs, TaintedTasks(p, st1)) && forall x :: x in xs <==> x in TaintedTasks(p, st1)
    ensures FailedSoFar(p, st1, xs, i, Sweep(p, st0, |before| + i))
  {
    hide Distinct, InOrder, Step, TaintedTasks, FailedSoFar, Sweep;
    if i == 0 {
      NoneFailed(p, st1, xs);
    } else {
      FailAll(p, st0, before, st1, xs, i - 1);
      FirstTurns(p, st0, before + xs, |before| + i - 1);
      FailOne(p, st1, xs, i - 1, Sweep(p, st0, |before| + i - 1));
    }
  }

  lemma FailFirst(p: Plan, st0: Statuses, xs: seq<TaskId>)
    requires p.Fits(st0) && xs <= p.order && Distinct(xs)
    requires InOrder(p, xs, TaintedTasks(p, st0)) && forall x :: x in xs <==> x in TaintedTasks(p, st0)
    ensures FailedSoFar(p, st0, xs, |xs|, Sweep(p, st0, |xs|))
  {
    hide Distinct, InOrder, TaintedTasks, FailedSoFar, Sweep;
    SweepStart(p, st0);
    assert [] + xs == xs;
    FailAll(p, st0, [], st0, xs, |xs|);
  }

  // ----- Reviving everything that can be revived, at once -----

  ghost function RevivableTasks(p: Plan, st0: Statuses): set<TaskId> {
    set id | id in Failures(st0) && !Doomed(p, st0, id)
  }

  /** The first `i` of the revivable tasks are no longer failed; the others stand. */
  ghost predicate RevivedSoFar(p: Plan, st0: Statuses, xs: seq<TaskId>, i: nat, st: Statuses) {
    && st.Keys == st0.Keys && i <= |xs|
    && (forall id :: id in st0 ==> if id in xs[..i] then st[id] != Failed else st[id] == st0[id])
  }

  lemma NoneRevived(p: Plan, st0: Statuses, xs: seq<TaskId>)
    ensures RevivedSoFar(p, st0, xs, 0, st0)
  {
  }

  /** A failed task without failed dependencies that is not failed for good is revived by its turn. */
  lemma RevivingStep(p: Plan, st: Statuses, id: TaskId) returns (next: TaskStatus)
    requires id in st && st[id] == Failed && id !in p.ran && p.DependenciesFor(id) != [] && !SomeFailed(p, st, id)
    ensures next != Failed && Step(p, st, id) == st[id := next]
  {
    if Waiting(p, id) {
      WaitingStep(p, st, id);
    } else {
      NormalStep(p, st, id);
    }
    next := Resolve(p, st, id);
    hide CanResolve, Resolve;
  }

  lemma ComesEarlier(p: Plan, xs: seq<TaskId>, keep: set<TaskId>, i: nat, d: TaskId)
    requires InOrder(p, xs, keep) && i < |xs| && d in p.DependenciesFor(xs[i])
    ensures d in keep ==> d in xs[..i]
  {
  }

  lemma ReviveOne(p: Plan, st0: Statuses, xs: seq<TaskId>, i: nat, st: Statuses)
    requires RevivedSoFar(p, st0, xs, i, st) && i < |xs| && Distinct(xs) && xs[i] in st
    requires InOrder(p, xs, RevivableTasks(p, st0)) && forall x :: x in xs <==> x in RevivableTasks(p, st0)
    ensures RevivedSoFar(p, st0, xs, i + 1, Step(p, st, xs[i]))
  {
    var id := xs[i];
    assert id in RevivableTasks(p, st0) && id !in xs[..i];
    if Frozen(p, st0, id) {
      ReachesItself(p, FrozenFailures(p, st0), Failures(st0), id);
    }
    forall d | d in p.DependenciesFor(id) ensures !Has(st, d, Failed) {
      ComesEarlier(p, xs, RevivableTasks(p, st0), i, d);
      if d in Failures(st0) && Doomed(p, st0, d) {
        ReachesOn(p, FrozenFailures(p, st0), Failures(st0), d, id);
      }
    }
    hide Doomed, InOrder, Distinct, Step;
    var next := RevivingStep(p, st, id);
    assert xs[..i + 1] == xs[..i] + [id];
  }

  lemma {:induction false} ReviveAll(p: Plan, st0: Statuses, xs: seq<TaskId>, i: nat)
    requires p.Fits(st0) && xs <= p.order && Distinct(xs) && i <= |xs|
    requires InOrder(p, xs, RevivableTasks(p, st0)) && forall x :: x in xs <==> x in RevivableTasks(p, st0)
    ensures RevivedSoFar(p, st0, xs, i, Sweep(p, st0, i))
  {
    hide Distinct, InOrder, Step, RevivableTasks, RevivedSoFar, Sweep;
    if i == 0 {
      SweepStart(p, st0);
      NoneRevived(p, st0, xs);
    } else {
      ReviveAll(p, st0, xs, i - 1);
      FirstTurns(p, st0, xs, i - 1);
      ReviveOne(p, st0, xs, i - 1, Sweep(p, st0, i - 1));
    }
  }

  // ----- The disagreeing orders -----

  /** Scanning the tainted tasks first, dependencies before dependents, makes one with a run fail for good. */
  lemma RunKeepsPassingFailure(p: Plan, st0: Statuses, id: TaskId) returns (q: Plan)
    requires p.Fits(st0) && Acyclic(p.deps, p.Nodes()) && id in Fallible(p, st0) && id in p.ran && Tainted(p, st0, id)
    ensures q == p.(order := q.order) && q.Fits(st0) && Has(Evaluate(q, st0), id, Failed)
  {
    var xs;
    q, xs := TaintedFirst(p, st0, []);
    SameTainted(p, q, st0);
    FailFirst(q, st0, xs);
    assert id in xs[..|xs|] by {
      assert id in TaintedTasks(p, st0) && xs[..|xs|] == xs;
    }
    hide Evaluate, Sweep, Tainted, InOrder;
    FirstPassKeeps(q, st0, |xs|, id);
  }

  /** Scanning it right after them releases a blind review for good. */
  lemma ReviewKeepsPassingRelease(p: Plan, st0: Statuses, id: TaskId) returns (q: Plan)
    requires p.Fits(st0) && Acyclic(p.deps, p.Nodes())
    requires id in st0 && Waiting(p, id) && st0[id] in {Pending, Blocked} && MayBeReleased(p, st0, id)
    ensures q == p.(order := q.order) && q.Fits(st0) && Has(Evaluate(q, st0), id, Ready)
  {
    var xs;
    q, xs := TaintedFirst(p, st0, [id]);
    SameTainted(p, q, st0);
    FailFirst(q, st0, xs);
    var st := Sweep(q, st0, |xs|);
    assert xs[..|xs|] == xs;
    forall d | d in p.DependenciesFor(id) ensures Has(st, d, Done) || Has(st, d, Failed) {
      if Tainted(p, st0, d) {
        ReachedFrom(p, Failures(st0), Fallible(p, st0), d);
        assert d !in Failures(st0) ==> d in TaintedTasks(p, st0);
      } else {
        assert d !in TaintedTasks(p, st0);
      }
    }
    assert st[id] == st0[id];
    FirstTurns(q, st0, xs + [id], |xs|);
    hide Sweep, Tainted, InOrder, Evaluate;
    WaitingStep(q, st, id);
    FirstPassKeeps(q, st0, |xs| + 1, id);
  }

  /** An order that starts with the revivable tasks, dependencies before dependents. */
  lemma RevivableFirst(p: Plan, st0: Statuses) returns (q: Plan, xs: seq<TaskId>)
    requires p.Fits(st0) && Acyclic(p.deps, p.Nodes())
    ensures q == p.(order := q.order) && q.Fits(st0) && xs <= q.order && Distinct(xs)
    ensures InOrder(q, xs, RevivableTasks(q, st0)) && forall x :: x in xs <==> x in RevivableTasks(q, st0)
    ensures RevivableTasks(q, st0) == RevivableTasks(p, st0)
  {
    var topo := AcyclicIsSortable(p.deps, p.Nodes());
    xs := Pick(topo[..|topo|], RevivableTasks(p, st0));
    PickInOrder(p, topo, RevivableTasks(p, st0), |topo|);
    InTopological(p, topo, RevivableTasks(p, st0));
    q := OrderStarting(p, xs);
    hide Doomed, IsTopological;
    SameRevivable(p, q, st0);
  }

  lemma SameRevivable(p: Plan, q: Plan, st0: Statuses)
    requires q == p.(order := q.order)
    ensures RevivableTasks(q, st0) == RevivableTasks(p, st0)
    ensures forall xs :: InOrder(p, xs, RevivableTasks(p, st0)) ==> InOrder(q, xs, RevivableTasks(q, st0))
  {
    assert forall path ::
        IsSpread(p, FrozenFailures(p, st0), Failures(st0), path)
        == IsSpread(q, FrozenFailures(q, st0), Failures(st0), path);
  }

  /** Scanning the revivable tasks first, dependencies before dependents, revives a blind review for good. */
  lemma ReviewKeepsRevival(p: Plan, st0: Statuses, id: TaskId) returns (q: Plan)
    requires p.Fits(st0) && Acyclic(p.deps, p.Nodes())
    requires id in st0 && Waiting(p, id) && st0[id] == Failed && !Doomed(p, st0, id)
    ensures q == p.(order := q.order) && q.Fits(st0) && id in Evaluate(q, st0) && !Has(Evaluate(q, st0), id, Failed)
  {
    var xs;
    q, xs := RevivableFirst(p, st0);
    ReviveAll(q, st0, xs, |xs|);
    assert id in xs[..|xs|] by {
      assert id in RevivableTasks(p, st0) && xs[..|xs|] == xs;
    }
    hide Evaluate, Sweep, Doomed, InOrder;
    FirstPassKeeps(q, st0, |xs|, id);
  }

  lemma InTopological(p: Plan, topo: seq<TaskId>, keep: set<TaskId>)
    requires Elements(topo) == p.Nodes() && keep <= p.Nodes()
    ensures var xs := Pick(topo[..|topo|], keep); Elements(xs) == keep && forall x :: x in xs <==> x in keep
  {
    assert topo[..|topo|] == topo;
    assert forall x :: x in topo <==> x in Elements(topo);
  }

  /** The tainted tasks, dependencies before dependents. */
  lemma TaintedInOrder(p: Plan, st0: Statuses) returns (xs: seq<TaskId>)
    requires p.Fits(st0) && Acyclic(p.deps, p.Nodes())
    ensures Distinct(xs) && Elements(xs) <= p.Nodes()
    ensures InOrder(p, xs, TaintedTasks(p, st0)) && forall x :: x in xs <==> x in TaintedTasks(p, st0)
  {
    var topo := AcyclicIsSortable(p.deps, p.Nodes());
    var keep := TaintedTasks(p, st0);
    xs := Pick(topo[..|topo|], keep);
    PickInOrder(p, topo, keep, |topo|);
    InTopological(p, topo, keep);
  }

  /** An order that starts with the tainted tasks, dependencies before dependents, and goes on with `next`. */
  lemma TaintedFirst(p: Plan, st0: Statuses, next: seq<TaskId>) returns (q: Plan, xs: seq<TaskId>)
    requires p.Fits(st0) && Acyclic(p.deps, p.Nodes()) && |next| <= 1
    requires forall id <- next :: id in st0 && Waiting(p, id)
    ensures q == p.(order := q.order) && q.Fits(st0) && xs + next <= q.order && Distinct(xs)
    ensures InOrder(p, xs, TaintedTasks(p, st0)) && forall x :: x in xs <==> x in TaintedTasks(p, st0)
  {
    xs := TaintedInOrder(p, st0);
    hide InOrder, Tainted;
    assert Distinct(xs + next) by {
      if next != [] {
        assert next[0] in next && next[0] !in TaintedTasks(p, st0);
        DistinctExtends(xs, next[0]);
        assert xs + next == xs + [next[0]];
      } else {
        assert xs + next == xs;
      }
    }
    assert Elements(xs + next) <= p.Nodes();
    q := OrderStarting(p, xs + next);
  }

  lemma SameTainted(p: Plan, q: Plan, st0: Statuses)
    requires q == p.(order := q.order)
    ensures TaintedTasks(q, st0) == TaintedTasks(p, st0)
    ensures forall xs :: InOrder(p, xs, TaintedTasks(p, st0)) ==> InOrder(q, xs, TaintedTasks(q, st0))
  {
    assert forall path ::
        IsSpread(p, Failures(st0), Fallible(p, st0), path)
        == IsSpread(q, Failures(st0), Fallible(q, st0), path);
  }

  // ----- A revived review that is released late -----

  /** What can fail again is tainted. */
  lemma {:induction false} FailsAgainIsTainted(p: Plan, st0: Statuses, path: seq<TaskId>)
    requires IsSpread(p, FirstToFail(p, st0), Wavering(p, st0), path)
    ensures Tainted(p, st0, path[|path| - 1])
  {
    var front, id := path[..|path| - 1], path[|path| - 1];
    if id in Failures(st0) {
      ReachesItself(p, Failures(st0), Fallible(p, st0), id);
    } else if front == [] {
      var d :| d in p.DependenciesFor(id) && Has(st0, d, Failed);
      ReachesItself(p, Failures(st0), Fallible(p, st0), d);
      ReachesOn(p, Failures(st0), Fallible(p, st0), d, id);
    } else {
      FailsAgainIsTainted(p, st0, front);
      ReachesOn(p, Failures(st0), Fallible(p, st0), front[|front| - 1], id);
    }
  }

  /** A failure that spreads to a dependency of a task does not come from that task. */
  lemma SpreadsFromElsewhere(p: Plan, st0: Statuses, path: seq<TaskId>, id: TaskId)
    requires p.Fits(st0) && Acyclic(p.deps, p.Nodes()) && id in st0
    requires IsSpread(p, Failures(st0), Fallible(p, st0), path) && path[|path| - 1] in p.DependenciesFor(id)
    ensures path[0] != id
  {
    var n := |path|;
    var back := seq(n + 1, i requires 0 <= i <= n => if i == 0 then id else path[n - i]);
    forall i | 0 <= i < n ensures Edge(p.deps, p.Nodes(), back[i], back[i + 1]) {
    }
    assert IsWalk(p.deps, p.Nodes(), back) && back[n] == path[0];
    assert !IsCycle(p.deps, p.Nodes(), back);
  }

  /** Reviving a review takes no taint from its dependencies. */
  lemma StaysTainted(p: Plan, st0: Statuses, id: TaskId, d: TaskId)
    requires p.Fits(st0) && Acyclic(p.deps, p.Nodes())
    requires id in st0 && Waiting(p, id) && d in p.DependenciesFor(id) && Tainted(p, st0, d)
    ensures Tainted(p, st0[id := Blocked], d)
  {
    var st1 := st0[id := Blocked];
    assert Fallible(p, st1) == Fallible(p, st0);
    var path :| IsSpread(p, Failures(st0), Fallible(p, st0), path) && path[|path| - 1] == d;
    SpreadsFromElsewhere(p, st0, path, id);
    assert IsSpread(p, Failures(st1), Fallible(p, st1), path);
  }

  /** A task whose turn is over keeps its status until the pass ends. */
  lemma {:induction false} TurnIsOver(p: Plan, st: Statuses, from: nat, to: nat, id: TaskId)
    requires p.Fits(st) && from <= to <= |p.order| && id in p.order[..from]
    ensures id in Sweep(p, st, from) && id in Sweep(p, st, to)
    ensures Sweep(p, st, to)[id] == Sweep(p, st, from)[id]
  {
    assert id in p.Nodes();
    hide Sweep, CanResolve, Resolve;
    if from < to {
      TurnIsOver(p, st, from, to - 1, id);
      SweepNext(p, st, to - 1);
      assert p.order[to - 1] != id;
    }
  }

  /** A dependency that has failed before its turn ends, or that started done, is over when the pass ends. */
  lemma OverAfterPass(q: Plan, st0: Statuses, m: nat, d: TaskId)
    requires q.Fits(st0) && d in st0 && m <= |q.order|
    requires st0[d] == Done || (d in q.order[..m] && Has(Sweep(q, st0, m), d, Failed))
    ensures var st := Sweep(q, st0, |q.order|); Has(st, d, Done) || Has(st, d, Failed)
  {
    hide Distinct, Sweep;
    if st0[d] == Done {
      SweepStart(q, st0);
      SweepKeeps(q, st0, 0, |q.order|, d);
    } else {
      TurnIsOver(q, st0, m, |q.order|, d);
    }
  }

  lemma AllFailed(p: Plan, st1: Statuses, xs: seq<TaskId>, st: Statuses, d: TaskId)
    requires FailedSoFar(p, st1, xs, |xs|, st) && d in xs && d in st1
    ensures Has(st, d, Failed)
  {
    assert xs[..|xs|] == xs;
  }

  /** Scanning it first, and then the tainted tasks, revives a blind review and releases it for good. */
  lemma ReviewKeepsLateRelease(p: Plan, st0: Statuses, id: TaskId) returns (q: Plan)
    requires p.Fits(st0) && Acyclic(p.deps, p.Nodes())
    requires id in st0 && Waiting(p, id) && st0[id] == Failed && !Doomed(p, st0, id)
    requires !SomeFailed(p, st0, id) && MayBeReleasedAgain(p, st0, id)
    ensures q == p.(order := q.order) && q.Fits(st0) && Has(Evaluate(q, st0), id, Ready)
  {
    if id in p.ran {
      ReachesItself(p, FrozenFailures(p, st0), Failures(st0), id);
    }
    WaitingStep(p, st0, id);
    if AllOver(p, st0, id) {
      assert Elements([id]) <= p.Nodes();
      q := OrderStarting(p, [id]);
      SweepStart(q, st0);
      FirstTurns(q, st0, [id], 0);
      FirstPassKeeps(q, st0, 1, id);
    } else {
      var xs := TaintedInOrder(p, st0[id := Blocked]);
      hide InOrder, Tainted, Doomed, Evaluate, MayBeReleasedAgain, Distinct;
      DependenciesFail(p, st0, id, xs);
      q := StartingWith(p, st0[id := Blocked], id, xs);
      LateRelease(q, st0, id, xs);
    }
  }

  /** Each dependency of the review started done or is tainted once the review is revived. */
  ghost predicate DoneOrAmong(p: Plan, st0: Statuses, id: TaskId, xs: seq<TaskId>) {
    forall d <- p.DependenciesFor(id) :: d in st0 && (st0[d] == Done || d in xs)
  }

  lemma DependenciesFail(p: Plan, st0: Statuses, id: TaskId, xs: seq<TaskId>)
    requires p.Fits(st0) && Acyclic(p.deps, p.Nodes()) && id in st0 && Waiting(p, id) && st0[id] == Failed
    requires !SomeFailed(p, st0, id) && MayBeReleasedAgain(p, st0, id)
    requires forall x :: x in xs <==> x in TaintedTasks(p, st0[id := Blocked])
    ensures DoneOrAmong(p, st0, id, xs) && (xs == [] ==> AllOver(p, st0, id))
  {
    hide TaintedTasks, CanFailAgain;
    forall d | d in p.DependenciesFor(id) ensures d in st0 && (st0[d] == Done || d in xs) {
      DependencyFails(p, st0, id, d);
    }
  }

  lemma AllOverAfterPass(q: Plan, st0: Statuses, id: TaskId, xs: seq<TaskId>)
    requires q.Fits(st0) && id in st0 && [id] + xs <= q.order && DoneOrAmong(q, st0, id, xs)
    requires FailedSoFar(q, st0[id := Blocked], xs, |xs|, Sweep(q, st0, 1 + |xs|))
    ensures AllOver(q, Sweep(q, st0, |q.order|), id)
  {
    hide FailedSoFar, Distinct, Sweep;
    forall d | d in q.DependenciesFor(id)
      ensures var st := Sweep(q, st0, |q.order|); Has(st, d, Done) || Has(st, d, Failed)
    {
      if st0[d] != Done {
        AllFailed(q, st0[id := Blocked], xs, Sweep(q, st0, 1 + |xs|), d);
        assert q.order[..1 + |xs|] == [id] + xs;
      }
      OverAfterPass(q, st0, 1 + |xs|, d);
    }
  }

  /** The review is released at its second turn. */
  lemma LateRelease(q: Plan, st0: Statuses, id: TaskId, xs: seq<TaskId>)
    requires q.Fits(st0) && id in st0 && [id] + xs <= q.order && Distinct(xs) && xs != []
    requires Waiting(q, id) && st0[id] == Failed && id !in q.ran && !SomeFailed(q, st0, id) && !AllOver(q, st0, id)
    requires InOrder(q, xs, TaintedTasks(q, st0[id := Blocked]))
    requires forall x :: x in xs <==> x in TaintedTasks(q, st0[id := Blocked])
    requires DoneOrAmong(q, st0, id, xs)
    ensures Has(Evaluate(q, st0), id, Ready)
  {
    hide TaintedTasks, InOrder, Sweep, Evaluate, DoneOrAmong, FailedSoFar, Distinct, SomeFailed, AllOver;
    FirstTurn(q, st0, id, xs);
    FailAll(q, st0, [id], st0[id := Blocked], xs, |xs|);
    AllOverAfterPass(q, st0, id, xs);
    SecondTurn(q, st0, id);
  }

  lemma StartingWith(p: Plan, st1: Statuses, id: TaskId, xs: seq<TaskId>) returns (q: Plan)
    requires p.Fits(st1) && id in st1 && Waiting(p, id) && Distinct(xs) && Elements(xs) <= p.Nodes()
    requires InOrder(p, xs, TaintedTasks(p, st1)) && forall x :: x in xs <==> x in TaintedTasks(p, st1)
    ensures q == p.(order := q.order) && q.Fits(st1) && [id] + xs <= q.order && q.order[..1 + |xs|] == [id] + xs
    ensures InOrder(q, xs, TaintedTasks(q, st1)) && forall x :: x in xs <==> x in TaintedTasks(q, st1)
  {
    assert id !in xs;
    DistinctAppend([id], xs);
    hide InOrder, TaintedTasks;
    assert Elements([id] + xs) == {id} + Elements(xs);
    q := OrderStarting(p, [id] + xs);
    SameTainted(p, q, st1);
  }

  lemma FirstTurn(q: Plan, st0: Statuses, id: TaskId, xs: seq<TaskId>)
    requires q.Fits(st0) && [id] + xs <= q.order && id in st0 && Waiting(q, id)
    requires st0[id] == Failed && id !in q.ran && !SomeFailed(q, st0, id) && !AllOver(q, st0, id)
    ensures Sweep(q, st0, 1) == st0[id := Blocked]
  {
    SweepStart(q, st0);
    FirstTurns(q, st0, [id] + xs, 0);
    WaitingStep(q, st0, id);
  }

  lemma SecondTurn(q: Plan, st0: Statuses, id: TaskId)
    requires q.Fits(st0) && |q.order| > 1 && q.order[0] == id && Waiting(q, id)
    requires Has(Sweep(q, st0, 1), id, Blocked) && AllOver(q, Sweep(q, st0, |q.order|), id)
    ensures Has(Evaluate(q, st0), id, Ready)
  {
    hide Sweep, Distinct;
    TurnIsOver(q, st0, 1, |q.order|, id);
    PassesNothing(q, st0);
    PassesNext(q, st0, 0);
    PassesNext(q, st0, 1);
    var st2 := Sweep(q, st0, |q.order|);
    SweepNext(q, st2, 0);
    WaitingStep(q, st2, id);
    hide Evaluate, AllOver, Resolve, CanResolve;
    EvaluationKeeps(q, st0, 1, 1, id);
  }

  /** A dependency that can fail again does so after the review's first turn. */
  lemma DependencyFails(p: Plan, st0: Statuses, id: TaskId, d: TaskId)
    requires p.Fits(st0) && Acyclic(p.deps, p.Nodes()) && id in st0 && Waiting(p, id) && st0[id] == Failed
    requires d in p.DependenciesFor(id) && !Has(st0, d, Failed) && (Has(st0, d, Done) || CanFailAgain(p, st0, d))
    ensures d in st0 && d != id && (st0[d] == Done || d in TaintedTasks(p, st0[id := Blocked]))
  {
    if !Has(st0, d, Done) {
      var path :| IsSpread(p, FirstToFail(p, st0), Wavering(p, st0), path) && path[|path| - 1] == d;
      FailsAgainIsTainted(p, st0, path);
      ReachedFrom(p, FirstToFail(p, st0), Wavering(p, st0), d);
      StaysTainted(p, st0, id, d);
    }
  }

  // ----- The theorem -----

  /** Every permutation of the task list gives the same result. */
  ghost predicate OrderIrrelevant(p: Plan, st0: Statuses)
    requires p.Fits(st0)
  {
    forall q: Plan {:trigger Evaluate(q, st0)} :: q == p.(order := q.order) && q.Fits(st0) ==>
        Evaluate(q, st0) == Evaluate(p, st0)
  }

  /** The reviews the theorem does not decide: failed ones that may be released by failures after their
      revival, while a dependency of theirs started failed. */
  ghost predicate Undecided(p: Plan, st0: Statuses, s: Statuses, id: TaskId) {
    && id in st0 && Waiting(p, id) && st0[id] == Failed && !Doomed(p, st0, id)
    && MayBeReleasedAgain(p, st0, id) && SomeFailed(p, st0, id) && !Has(s, id, Ready)
  }

  /** Order independence needs the conditions: otherwise one of the disagreeing orders differs from the topological
      one. */
  lemma ConditionsAreNeeded(p: Plan, st0: Statuses, s: Statuses)
    requires p.Fits(st0) && Acyclic(p.deps, p.Nodes()) && IsIntended(p, st0, s) && OrderIrrelevant(p, st0)
    ensures Conditions(p, st0, s)
    ensures (forall id :: !Undecided(p, st0, s, id)) ==> RevivedReviewsWait(p, st0, s)
  {
    var s', topo := IntendedTable(p, st0);
    IntendedIsUnique(p, st0, s, s');
    assert Evaluate(p.(order := topo), st0) == s;
    hide IsIntended, Evaluate, Tainted, Acyclic, IsTopological;
    forall id | id in Fallible(p, st0) && id in p.ran && Tainted(p, st0, id) ensures Has(s, id, Failed) {
      var q := RunKeepsPassingFailure(p, st0, id);
    }
    forall id | id in st0 && Waiting(p, id) && st0[id] in {Pending, Blocked} && MayBeReleased(p, st0, id)
        ensures Has(s, id, Ready) {
      var q := ReviewKeepsPassingRelease(p, st0, id);
    }
    forall id | id in st0 && Waiting(p, id) && st0[id] == Failed && !Doomed(p, st0, id) ensures !Has(s, id, Failed) {
      var q := ReviewKeepsRevival(p, st0, id);
    }
    if forall id :: !Undecided(p, st0, s, id) {
      ReleasesAreNeeded(p, st0, s);
    }
  }

  lemma ReleasesAreNeeded(p: Plan, st0: Statuses, s: Statuses)
    requires p.Fits(st0) && Acyclic(p.deps, p.Nodes()) && OrderIrrelevant(p, st0) && Evaluate(p, st0) == s
    requires forall id :: !Undecided(p, st0, s, id)
    ensures RevivedReviewsWait(p, st0, s)
  {
    hide Evaluate, Acyclic, Doomed, MayBeReleasedAgain;
    forall id |
      id in st0 && Waiting(p, id) && st0[id] == Failed && !Doomed(p, st0, id) && MayBeReleasedAgain(p, st0, id)
      ensures Has(s, id, Ready)
    {
      assert !Undecided(p, st0, s, id);
      if !Has(s, id, Ready) {
        var q := ReviewKeepsLateRelease(p, st0, id);
      }
    }
  }

  /** Every order gives the same result exactly under the conditions, `s` being the table
      computed in topological order, unless a review is left undecided. */
  lemma ScanOrderIsIrrelevantExactly(p: Plan, st0: Statuses, s: Statuses)
    requires p.Fits(st0) && Acyclic(p.deps, p.Nodes()) && IsIntended(p, st0, s)
    requires forall id :: !Undecided(p, st0, s, id)
    ensures OrderIrrelevant(p, st0) <==> Conditions(p, st0, s) && RevivedReviewsWait(p, st0, s)
    ensures OrderIrrelevant(p, st0) ==> Evaluate(p, st0) == s
  {
    hide Conditions, RevivedReviewsWait, IsIntended, Undecided, Acyclic;
    if Conditions(p, st0, s) && RevivedReviewsWait(p, st0, s) {
      forall q: Plan | q == p.(order := q.order) && q.Fits(st0) ensures Evaluate(q, st0) == s {
        EveryOrderIsIntended(p, q, st0, s);
      }
    }
    if OrderIrrelevant(p, st0) {
      ConditionsAreNeeded(p, st0, s);
      EveryOrderIsIntended(p, p, st0, s);
    }
  }

  /** Where no blind review waits, only runs matter: every order gives the same result exactly when every
      pending or blocked task with a run that a failure can reach fails in topological order, too. */
  lemma OnlyRunsMatter(p: Plan, st0: Statuses, s: Statuses)
    requires p.Fits(st0) && Acyclic(p.deps, p.Nodes()) && IsIntended(p, st0, s) && forall id :: !Waiting(p, id)
    ensures OrderIrrelevant(p, st0) <==> RunsKeepOnlyRealFailures(p, st0, s)
  {
    ScanOrderIsIrrelevantExactly(p, st0, s);
  }

  // ----- An undecided review that no order releases -----

  /** The review `b` waits on `d`, which depends on the failed `g` and on `f`, which depends on `g`. */
  function Tangle(order: seq<TaskId>, e: TaskId, g: TaskId, f: TaskId, d: TaskId, b: TaskId): Plan {
    Plan(order, map[e := [], g := [e], f := [g], d := [g, f], b := [d]], {b}, {})
  }

  function TangleTable(e: TaskId, g: TaskId, f: TaskId, d: TaskId, b: TaskId): Statuses {
    map[e := Done, g := Failed, f := Blocked, d := Failed, b := Failed]
  }

  /** Once `d` is revived, nothing is left that could fail it. */
  ghost predicate Untangles(e: TaskId, g: TaskId, f: TaskId, d: TaskId, b: TaskId, st: Statuses) {
    && st.Keys == {e, g, f, d, b} && st[e] == Done && st[g] in {Failed, Ready}
    && st[f] in {Failed, Blocked} && st[d] in {Failed, Blocked} && st[b] in {Failed, Blocked}
    && (st[d] == Blocked ==> st[g] == Ready && st[f] == Blocked)
    && (st[b] == Blocked ==> st[d] == Blocked)
  }

  lemma StepUntangles(order: seq<TaskId>, e: TaskId, g: TaskId, f: TaskId, d: TaskId, b: TaskId, st: Statuses,
      id: TaskId)
    requires Distinct([e, g, f, d, b]) && Untangles(e, g, f, d, b, st) && id in st
    ensures var p := Tangle(order, e, g, f, d, b);
            Untangles(e, g, f, d, b, Step(p, st, id))
  {
    var xs := [e, g, f, d, b];
    assert xs[0] == e && xs[1] == g && xs[2] == f && xs[3] == d && xs[4] == b;
    var p := Tangle(order, e, g, f, d, b);
    if id == e {
      DoneIsNotResolved(p, st, e);
    } else if id == d {
      StepOnTwoDependencies(p, st, d, g, f);
    } else {
      StepOnOneDependency(p, st, id, if id == g then e else if id == f then g else d);
    }
    hide CanResolve, Resolve;
  }

  lemma StepOnTwoDependencies(p: Plan, st: Statuses, id: TaskId, c: TaskId, d: TaskId)
    requires id in st && p.DependenciesFor(id) == [c, d] && id !in p.blind && id !in p.ran
    ensures CanResolve(p, st, id) <==>
            st[id] in {Pending, Blocked} || (st[id] == Failed && !Has(st, c, Failed) && !Has(st, d, Failed))
    ensures Resolve(p, st, id) ==
            if Has(st, c, Failed) || Has(st, d, Failed) then Failed
            else if Has(st, c, Done) && Has(st, d, Done) then Ready else Blocked
  {
    var ds := p.DependenciesFor(id);
    assert c in ds && d in ds && forall e :: e in ds ==> e == c || e == d;
  }

  lemma {:induction false} SweepUntangles(q: Plan, e: TaskId, g: TaskId, f: TaskId, d: TaskId, b: TaskId, st: Statuses,
      i: nat)
    requires q == Tangle(q.order, e, g, f, d, b) && q.Fits(st) && i <= |q.order|
    requires Distinct([e, g, f, d, b]) && Untangles(e, g, f, d, b, st)
    ensures Untangles(e, g, f, d, b, Sweep(q, st, i))
  {
    hide Untangles, Step, Distinct;
    if i > 0 {
      SweepUntangles(q, e, g, f, d, b, st, i - 1);
      SweepNext(q, st, i - 1);
      StepUntangles(q.order, e, g, f, d, b, Sweep(q, st, i - 1), q.order[i - 1]);
    }
  }

  lemma {:induction false} PassesUntangle(q: Plan, e: TaskId, g: TaskId, f: TaskId, d: TaskId, b: TaskId, k: nat)
    requires var st0 := TangleTable(e, g, f, d, b);
             q == Tangle(q.order, e, g, f, d, b) && q.Fits(st0) && Distinct([e, g, f, d, b])
    ensures Untangles(e, g, f, d, b, Passes(q, TangleTable(e, g, f, d, b), k))
  {
    var st0, xs := TangleTable(e, g, f, d, b), [e, g, f, d, b];
    if k == 0 {
      assert xs[0] == e && xs[1] == g && xs[2] == f && xs[3] == d && xs[4] == b;
    } else {
      PassesUntangle(q, e, g, f, d, b, k - 1);
      hide Untangles, Sweep, Distinct;
      SweepUntangles(q, e, g, f, d, b, Passes(q, st0, k - 1), |q.order|);
    }
  }

  function TangleEnd(e: TaskId, g: TaskId, f: TaskId, d: TaskId, b: TaskId): Statuses {
    map[e := Done, g := Ready, f := Blocked, d := Blocked, b := Blocked]
  }

  lemma TangleSettles(order: seq<TaskId>, e: TaskId, g: TaskId, f: TaskId, d: TaskId, b: TaskId, st: Statuses)
    requires Distinct([e, g, f, d, b]) && Untangles(e, g, f, d, b, st)
    requires var p := Tangle(order, e, g, f, d, b);
             forall id <- st :: Stable(p, st, id)
    ensures st == TangleEnd(e, g, f, d, b)
  {
    var p := Tangle(order, e, g, f, d, b);
    var xs := [e, g, f, d, b];
    assert xs[0] == e && xs[1] == g && xs[2] == f && xs[3] == d && xs[4] == b;
    StepOnOneDependency(p, st, g, e);
    StepOnOneDependency(p, st, f, g);
    StepOnTwoDependencies(p, st, d, g, f);
    StepOnOneDependency(p, st, b, d);
    assert Stable(p, st, g) && Stable(p, st, f) && Stable(p, st, d) && Stable(p, st, b);
    hide CanResolve, Resolve;
  }

  lemma TangleIsAcyclic(p: Plan, e: TaskId, g: TaskId, f: TaskId, d: TaskId, b: TaskId)
    requires p == Tangle(p.order, e, g, f, d, b) && p.Nodes() == {e, g, f, d, b} && Distinct([e, g, f, d, b])
    ensures Acyclic(p.deps, p.Nodes())
  {
    var topo := [e, g, f, d, b];
    assert topo[0] == e && topo[1] == g && topo[2] == f && topo[3] == d && topo[4] == b;
    assert topo[..1] == [e] && topo[..2] == [e, g] && topo[..3] == [e, g, f] && topo[..4] == [e, g, f, d];
    assert e in topo[..1] && g in topo[..2] && g in topo[..3] && f in topo[..3] && d in topo[..4];
    forall i | 0 <= i < 5 ensures DependsOnEarlier(p.deps, p.Nodes(), topo, i) {
    }
    TopologicalIsAcyclic(p.deps, p.Nodes(), topo);
  }

  lemma TangleEvaluates(q: Plan, e: TaskId, g: TaskId, f: TaskId, d: TaskId, b: TaskId)
    requires q == Tangle(q.order, e, g, f, d, b) && Distinct([e, g, f, d, b])
    requires q.Fits(TangleTable(e, g, f, d, b))
    ensures Evaluate(q, TangleTable(e, g, f, d, b)) == TangleEnd(e, g, f, d, b)
  {
    hide Untangles, Acyclic, Stable, Distinct;
    TangleIsAcyclic(q, e, g, f, d, b);
    PassesSettle(q, TangleTable(e, g, f, d, b));
    PassesUntangle(q, e, g, f, d, b, |q.order|);
    TangleSettles(q.order, e, g, f, d, b, Evaluate(q, TangleTable(e, g, f, d, b)));
  }

  lemma TangledReviewIsUndecided(p: Plan, e: TaskId, g: TaskId, f: TaskId, d: TaskId, b: TaskId)
    requires p == Tangle(p.order, e, g, f, d, b) && Distinct([e, g, f, d, b])
    ensures Undecided(p, TangleTable(e, g, f, d, b), TangleEnd(e, g, f, d, b), b)
  {
    var st0, xs := TangleTable(e, g, f, d, b), [e, g, f, d, b];
    assert xs[0] == e && xs[1] == g && xs[2] == f && xs[3] == d && xs[4] == b;
    assert p.DependenciesFor(b) == [d] && p.DependenciesFor(d) == [g, f] && p.DependenciesFor(f) == [g];
    assert FrozenFailures(p, st0) == {};
    assert forall id :: !Doomed(p, st0, id);
    assert g in [g] && f in [g, f] && d in [d];
    assert f in FirstToFail(p, st0) && d in Wavering(p, st0);
    ReachesItself(p, FirstToFail(p, st0), Wavering(p, st0), f);
    ReachesOn(p, FirstToFail(p, st0), Wavering(p, st0), f, d);
    hide CanFailAgain, Doomed;
  }

  /** For an undecided review the last condition is not needed: here every order blocks it, although `d`
      depends on a task that may fail. */
  lemma UndecidedCanBeIrrelevant(p: Plan, e: TaskId, g: TaskId, f: TaskId, d: TaskId, b: TaskId)
    requires p == Tangle(p.order, e, g, f, d, b) && Distinct([e, g, f, d, b])
    requires p.Fits(TangleTable(e, g, f, d, b))
    ensures var st0, s := TangleTable(e, g, f, d, b), TangleEnd(e, g, f, d, b);
            && Acyclic(p.deps, p.Nodes()) && IsIntended(p, st0, s) && OrderIrrelevant(p, st0)
            && Undecided(p, st0, s, b) && !RevivedReviewsWait(p, st0, s)
  {
    var st0, s := TangleTable(e, g, f, d, b), TangleEnd(e, g, f, d, b);
    TangleIsAcyclic(p, e, g, f, d, b);
    TangledReviewIsUndecided(p, e, g, f, d, b);
    hide Acyclic, Evaluate, Distinct, MayBeReleasedAgain, Doomed, IsIntended, IsTopological;
    forall q: Plan | q == p.(order := q.order) && q.Fits(st0) ensures Evaluate(q, st0) == s {
      TangleEvaluates(q, e, g, f, d, b);
    }
    TangleEvaluates(p, e, g, f, d, b);
    var s', topo := IntendedTable(p, st0);
    assert Evaluate(p.(order := topo), st0) == s;
  }
}
