/** What an evaluation computes: the unique solution of a recursive definition
    over the task graph, hence a result that no scan order can change; and the
    three hypotheses without which that, or termination itself, is lost. */
module TaskDagSolution {
  import opened Sequences
  import opened TaskGraphs
  import opened TaskDag

  /** A task no evaluation touches. */
  predicate Frozen(p: Plan, st0: Statuses, id: TaskId)
    requires id in st0
  {
    st0[id] in {Ready, Active, Done} || (st0[id] == Failed && (id in p.ran || p.DependenciesFor(id) == []))
  }

  /** The status a task that is not frozen must have, given its dependencies' final statuses. */
  function Derived(p: Plan, st0: Statuses, st: Statuses, id: TaskId): TaskStatus
    requires id in st0
  {
    var ds := p.DependenciesFor(id);
    if ds == [] then (if st0[id] == Blocked then Blocked else Ready)
    else if exists d <- ds :: Has(st, d, Failed) then Failed
    else if forall d <- ds :: Has(st, d, Done) then Ready
    else Blocked
  }

  ghost predicate SolvedAt(p: Plan, st0: Statuses, st: Statuses, id: TaskId) {
    id in st0 && id in st && st[id] == if Frozen(p, st0, id) then st0[id] else Derived(p, st0, st, id)
  }

  ghost predicate Solves(p: Plan, st0: Statuses, st: Statuses) {
    st.Keys == st0.Keys && forall id {:trigger SolvedAt(p, st0, st, id)} :: id in st0 ==> SolvedAt(p, st0, st, id)
  }

  /** No blind review waits on anything, and no pending or blocked task has a run. */
  ghost predicate Regular(p: Plan, st0: Statuses) {
    forall id :: id in st0 ==>
      (id in p.blind ==> p.DependenciesFor(id) == []) && (st0[id] in {Pending, Blocked} ==> id !in p.ran)
  }

  // ----- Uniqueness -----

  lemma {:induction false} SolutionsAgree(p: Plan, st0: Statuses, a: Statuses, b: Statuses, topo: seq<TaskId>, k: nat)
    requires p.Fits(st0) && Solves(p, st0, a) && Solves(p, st0, b)
    requires IsTopological(p.deps, p.Nodes(), topo) && k <= |topo|
    ensures SamePrefix(topo, k, a, b)
  {
    hide Distinct;
    if k > 0 {
      SolutionsAgree(p, st0, a, b, topo, k - 1);
      var id := topo[k - 1];
      assert id in Elements(topo);
      assert DependsOnEarlier(p.deps, p.Nodes(), topo, k - 1);
      assert forall d, s :: d in p.DependenciesFor(id) ==> Has(a, d, s) == Has(b, d, s);
      assert SolvedAt(p, st0, a, id) && SolvedAt(p, st0, b, id);
    }
  }

  lemma SolutionIsUnique(p: Plan, st0: Statuses, a: Statuses, b: Statuses)
    requires p.Fits(st0) && Acyclic(p.deps, p.Nodes())
    requires Solves(p, st0, a) && Solves(p, st0, b)
    ensures a == b
  {
    var topo := AcyclicIsSortable(p.deps, p.Nodes());
    SolutionsAgree(p, st0, a, b, topo, |topo|);
    forall id | id in a ensures a[id] == b[id] {
      assert id in Elements(topo);
    }
  }

  // ----- The evaluation solves it -----

  /** What every step keeps at one task: frozen tasks stand still, and a task is
      made ready only by dependencies that are done for good. */
  ghost predicate SoundAt(p: Plan, st0: Statuses, st: Statuses, id: TaskId) {
    && id in st0 && id in st
    && (Frozen(p, st0, id) ==> st[id] == st0[id])
    && (!Frozen(p, st0, id) ==>
          && id !in p.ran && st[id] in {Pending, Blocked, Failed, Ready}
          && (st[id] == Failed ==> p.DependenciesFor(id) != [])
          && (st[id] == Ready ==> forall d <- p.DependenciesFor(id) :: Has(st0, d, Done))
          && (p.DependenciesFor(id) == [] ==> (st0[id] == Blocked <==> st[id] == Blocked)))
  }

  ghost predicate Sound(p: Plan, st0: Statuses, st: Statuses) {
    st.Keys == st0.Keys && forall id {:trigger SoundAt(p, st0, st, id)} :: id in st0 ==> SoundAt(p, st0, st, id)
  }

  lemma DoneStands(p: Plan, st0: Statuses, st: Statuses, d: TaskId)
    requires Sound(p, st0, st)
    ensures Has(st, d, Done) == Has(st0, d, Done)
  {
    assert d in st0 ==> SoundAt(p, st0, st, d);
  }

  lemma StepKeepsSound(p: Plan, st0: Statuses, st: Statuses, id: TaskId)
    requires Regular(p, st0) && Sound(p, st0, st) && id in st
    ensures Sound(p, st0, Step(p, st, id))
  {
    var st' := Step(p, st, id);
    assert SoundAt(p, st0, st, id);
    forall other | other in st0 ensures SoundAt(p, st0, st', other) {
      assert SoundAt(p, st0, st, other);
      if other == id {
        forall d ensures Has(st, d, Done) == Has(st0, d, Done) {
          DoneStands(p, st0, st, d);
        }
      }
    }
  }

  lemma {:induction false} SweepKeepsSound(p: Plan, st0: Statuses, st: Statuses, i: nat)
    requires p.Fits(st) && Regular(p, st0) && Sound(p, st0, st) && i <= |p.order|
    ensures Sound(p, st0, Sweep(p, st, i))
  {
    hide Sound, Regular, Distinct;
    if i > 0 {
      SweepKeepsSound(p, st0, st, i - 1);
      assert p.order[i - 1] in p.Nodes();
      StepKeepsSound(p, st0, Sweep(p, st, i - 1), p.order[i - 1]);
    }
  }

  lemma {:induction false} PassesKeepSound(p: Plan, st0: Statuses, k: nat)
    requires p.Fits(st0) && Regular(p, st0)
    ensures Sound(p, st0, Passes(p, st0, k))
  {
    if k == 0 {
      forall id | id in st0 ensures SoundAt(p, st0, st0, id) {
      }
    } else {
      PassesKeepSound(p, st0, k - 1);
      SweepKeepsSound(p, st0, Passes(p, st0, k - 1), |p.order|);
    }
  }

  lemma SoundAndSettledSolves(p: Plan, st0: Statuses, st: Statuses)
    requires p.Fits(st0) && Regular(p, st0) && Sound(p, st0, st) && Settled(p, st)
    ensures Solves(p, st0, st)
  {
    forall id | id in st0 ensures SolvedAt(p, st0, st, id) {
      assert SoundAt(p, st0, st, id) && Stable(p, st, id);
      forall d ensures Has(st, d, Done) == Has(st0, d, Done) {
        DoneStands(p, st0, st, d);
      }
    }
  }

  /** The evaluation's result is the one and only solution. */
  lemma EvaluateIsTheSolution(p: Plan, st0: Statuses)
    requires p.Fits(st0) && Acyclic(p.deps, p.Nodes()) && Regular(p, st0)
    ensures Solves(p, st0, Evaluate(p, st0))
    ensures forall st :: Solves(p, st0, st) ==> st == Evaluate(p, st0)
  {
    PassesSettle(p, st0);
    PassesKeepSound(p, st0, |p.order|);
    SoundAndSettledSolves(p, st0, Evaluate(p, st0));
    forall st | Solves(p, st0, st) ensures st == Evaluate(p, st0) {
      SolutionIsUnique(p, st0, st, Evaluate(p, st0));
    }
  }

  /** Every permutation of the task list gives the same result. */
  lemma ScanOrderIsIrrelevant(p: Plan, q: Plan, st0: Statuses)
    requires p.Fits(st0) && q.Fits(st0) && q == p.(order := q.order)
    requires Acyclic(p.deps, p.Nodes()) && Regular(p, st0)
    ensures Evaluate(p, st0) == Evaluate(q, st0)
  {
    EvaluateIsTheSolution(p, st0);
    EvaluateIsTheSolution(q, st0);
    var st := Evaluate(q, st0);
    forall id | id in st0 ensures SolvedAt(p, st0, st, id) {
      assert SolvedAt(q, st0, st, id);
    }
    assert Solves(p, st0, st);
  }

  // ----- Progress -----

  /** A blocked task without dependencies waits for the operator, not for another task. */
  ghost predicate NoOperatorBlock(p: Plan, st: Statuses) {
    forall id :: Has(st, id, Blocked) ==> p.DependenciesFor(id) != []
  }

  lemma {:induction false} SweepKeepsNoOperatorBlock(p: Plan, st: Statuses, i: nat)
    requires p.Fits(st) && NoOperatorBlock(p, st) && i <= |p.order|
    ensures NoOperatorBlock(p, Sweep(p, st, i))
  {
    hide Distinct;
    if i > 0 {
      SweepKeepsNoOperatorBlock(p, st, i - 1);
      assert p.order[i - 1] in p.Nodes();
      forall id | Has(Sweep(p, st, i), id, Blocked) ensures p.DependenciesFor(id) != [] {
        assert Has(Sweep(p, st, i - 1), id, Blocked) || id == p.order[i - 1];
      }
    }
  }

  lemma {:induction false} PassesKeepNoOperatorBlock(p: Plan, st: Statuses, k: nat)
    requires p.Fits(st) && NoOperatorBlock(p, st)
    ensures NoOperatorBlock(p, Passes(p, st, k))
  {
    if k > 0 {
      PassesKeepNoOperatorBlock(p, st, k - 1);
      SweepKeepsNoOperatorBlock(p, Passes(p, st, k - 1), |p.order|);
    }
  }

  lemma {:induction false} FirstUndone(p: Plan, st: Statuses, topo: seq<TaskId>, k: nat) returns (at: nat)
    requires IsTopological(p.deps, p.Nodes(), topo) && st.Keys == p.Nodes()
    requires k < |topo| && !Has(st, topo[k], Done)
    ensures at < |topo| && !Has(st, topo[at], Done) && forall i :: 0 <= i < at ==> Has(st, topo[i], Done)
  {
    if i :| 0 <= i < k && !Has(st, topo[i], Done) {
      at := FirstUndone(p, st, topo, i);
    } else {
      at := k;
    }
  }

  /** Unless everything is done, an evaluation leaves something to run, something
      running, or a failure to look at: tasks never all wait on one another. */
  lemma EvaluateNeverDeadlocks(p: Plan, st0: Statuses)
    requires p.Fits(st0) && Closed(p.deps, p.Nodes()) && Acyclic(p.deps, p.Nodes()) && NoOperatorBlock(p, st0)
    ensures var st := Evaluate(p, st0);
            (exists id <- st :: st[id] != Done) ==> exists id <- st :: st[id] in {Ready, Active, Failed}
  {
    var st := Evaluate(p, st0);
    if id :| id in st && st[id] != Done {
      PassesSettle(p, st0);
      PassesKeepNoOperatorBlock(p, st0, |p.order|);
      var topo := AcyclicIsSortable(p.deps, p.Nodes());
      assert id in Elements(topo);
      var k :| 0 <= k < |topo| && topo[k] == id;
      var at := FirstUndone(p, st, topo, k);
      var waiting := topo[at];
      assert waiting in Elements(topo);
      assert Stable(p, st, waiting) && DependsOnEarlier(p.deps, p.Nodes(), topo, at);
      forall d | d in p.DependenciesFor(waiting) ensures Has(st, d, Done) {
        assert d in p.Nodes() && d in topo[..at];
      }
      assert Has(st, waiting, Blocked) ==> p.DependenciesFor(waiting) != [];
      assert st[waiting] in {Ready, Active, Failed};
    }
  }

  // ----- The hypotheses are needed -----

  lemma SweepOfThree(p: Plan, st: Statuses, a: TaskId, b: TaskId, c: TaskId)
    requires p.Fits(st) && p.order == [a, b, c]
    ensures a in st && b in st && c in st
    ensures Passes(p, st, 1) == Sweep(p, st, 3) == Step(p, Step(p, Step(p, st, a), b), c)
  {
    hide Step;
    assert a in p.Nodes() && b in p.Nodes() && c in p.Nodes();
    SweepNext(p, st, 0);
    SweepNext(p, st, 1);
    SweepNext(p, st, 2);
    PassesNext(p, st, 0);
    assert Passes(p, st, 0) == st;
  }

  /** One step of a task with a single dependency. */
  lemma StepOnOneDependency(p: Plan, st: Statuses, id: TaskId, d: TaskId)
    requires id in st && p.DependenciesFor(id) == [d]
    ensures CanResolve(p, st, id) <==>
            st[id] in {Pending, Blocked}
            || (st[id] == Failed && id !in p.ran && !Has(st, d, Failed))
    ensures Resolve(p, st, id) ==
            if id in p.blind then (if Has(st, d, Done) || Has(st, d, Failed) then Ready else Blocked)
            else if Has(st, d, Failed) then Failed else if Has(st, d, Done) then Ready else Blocked
  {
    var ds := p.DependenciesFor(id);
    assert d in ds && forall e :: e in ds ==> e == d;
  }

  /** Three tasks, each depending on the next, scanned in that order. */
  function Ring(a: TaskId, b: TaskId, c: TaskId): Plan {
    Plan([a, b, c], map[a := [b], b := [c], c := [a]], {}, {})
  }

  function RingTable(a: TaskId, b: TaskId, c: TaskId, outer: TaskStatus, inner: TaskStatus): Statuses {
    map[a := outer, b := inner, c := outer]
  }

  lemma RingSwaps(a: TaskId, b: TaskId, c: TaskId, outer: TaskStatus, inner: TaskStatus)
    requires a != b && b != c && c != a
    requires (outer == Blocked && inner == Failed) || (outer == Failed && inner == Blocked)
    ensures var p, st := Ring(a, b, c), RingTable(a, b, c, outer, inner);
            p.Fits(st) && !Settled(p, st) && Passes(p, st, 1) == Sweep(p, st, 3) == RingTable(a, b, c, inner, outer)
  {
    hide CanResolve, Resolve;
    var p, st := Ring(a, b, c), RingTable(a, b, c, outer, inner);
    assert p.Nodes() == {a, b, c};
    SweepOfThree(p, st, a, b, c);
    var st1 := st[a := inner];
    var st2 := st1[b := outer];
    StepOnOneDependency(p, st, a, b);
    StepOnOneDependency(p, st1, b, c);
    StepOnOneDependency(p, st2, c, a);
    assert !Stable(p, st, a);
    assert Step(p, st2, c) == RingTable(a, b, c, inner, outer);
  }

  lemma RingIsCyclic(a: TaskId, b: TaskId, c: TaskId)
    requires a != b && b != c && c != a
    ensures var p := Ring(a, b, c); !Acyclic(p.deps, p.Nodes())
  {
    var p := Ring(a, b, c);
    assert p.Nodes() == {a, b, c};
    assert Edge(p.deps, p.Nodes(), a, b) && Edge(p.deps, p.Nodes(), b, c) && Edge(p.deps, p.Nodes(), c, a);
    assert IsCycle(p.deps, p.Nodes(), [a, b, c, a]);
  }

  /** Without acyclicity the loop can run for ever: three tasks in a ring return to
      their start every second pass, so every pass finds a change. */
  lemma {:induction false} RingNeverSettles(a: TaskId, b: TaskId, c: TaskId, k: nat)
    requires a != b && b != c && c != a
    ensures var p, st := Ring(a, b, c), RingTable(a, b, c, Blocked, Failed);
            && p.Fits(st)
            && Passes(p, st, k) == (if k % 2 == 0 then st else RingTable(a, b, c, Failed, Blocked))
            && !Settled(p, Passes(p, st, k))
  {
    hide Settled, Sweep, Plan.Fits;
    var p, st := Ring(a, b, c), RingTable(a, b, c, Blocked, Failed);
    RingSwaps(a, b, c, Blocked, Failed);
    RingSwaps(a, b, c, Failed, Blocked);
    if k > 0 {
      RingNeverSettles(a, b, c, k - 1);
      PassesNext(p, st, k - 1);
    }
  }

  /** `t` depends on a failed `x` that the done `e` is about to revive. */
  function Chain(order: seq<TaskId>, e: TaskId, t: TaskId, x: TaskId, blind: set<TaskId>, ran: set<TaskId>): Plan {
    Plan(order, map[e := [], x := [e], t := [x]], blind, ran)
  }

  lemma ChainIsAcyclic(p: Plan, e: TaskId, t: TaskId, x: TaskId)
    requires e != t && t != x && x != e && p.Nodes() == {e, t, x}
    requires p.deps == map[e := [], x := [e], t := [x]]
    ensures Acyclic(p.deps, p.Nodes())
  {
    var topo := [e, x, t];
    assert DependsOnEarlier(p.deps, p.Nodes(), topo, 0);
    assert x in [e, x] && e in [e] && topo[..1] == [e] && topo[..2] == [e, x];
    assert DependsOnEarlier(p.deps, p.Nodes(), topo, 1) && DependsOnEarlier(p.deps, p.Nodes(), topo, 2);
    TopologicalIsAcyclic(p.deps, p.Nodes(), topo);
  }

  function ChainTable(e: TaskId, t: TaskId, x: TaskId): Statuses {
    map[e := Done, x := Failed, t := Blocked]
  }

  /** Scanned before `x`, task `t` still sees the failure. */
  lemma ChainScannedEarly(e: TaskId, t: TaskId, x: TaskId, blind: set<TaskId>, ran: set<TaskId>, caught: TaskStatus)
    requires e != t && t != x && x != e
    requires (blind == {} && ran == {t} && caught == Failed) || (blind == {t} && ran == {} && caught == Ready)
    ensures var p, st := Chain([e, t, x], e, t, x, blind, ran), ChainTable(e, t, x);
            p.Fits(st) && Acyclic(p.deps, p.Nodes()) && Evaluate(p, st) == st[t := caught][x := Ready]
  {
    hide CanResolve, Resolve, Evaluate, Acyclic;
    var p, st := Chain([e, t, x], e, t, x, blind, ran), ChainTable(e, t, x);
    assert p.Nodes() == {e, t, x};
    ChainIsAcyclic(p, e, t, x);
    DoneIsNotResolved(p, st, e);
    SweepOfThree(p, st, e, t, x);
    StepOnOneDependency(p, st, t, x);
    StepOnOneDependency(p, st[t := caught], x, e);
    ChainSettles(p, e, t, x, st[t := caught][x := Ready]);
    SettledIsEvaluate(p, st, 1);
  }

  /** Scanned after `x`, task `t` sees it revived. */
  lemma ChainScannedLate(e: TaskId, t: TaskId, x: TaskId, blind: set<TaskId>, ran: set<TaskId>)
    requires e != t && t != x && x != e && x !in ran && x !in blind
    ensures var q, st := Chain([e, x, t], e, t, x, blind, ran), ChainTable(e, t, x);
            q.Fits(st) && Acyclic(q.deps, q.Nodes()) && Evaluate(q, st) == st[x := Ready]
  {
    hide CanResolve, Resolve, Evaluate, Acyclic;
    var q, st := Chain([e, x, t], e, t, x, blind, ran), ChainTable(e, t, x);
    assert q.Nodes() == {e, t, x};
    ChainIsAcyclic(q, e, t, x);
    DoneIsNotResolved(q, st, e);
    SweepOfThree(q, st, e, x, t);
    StepOnOneDependency(q, st, x, e);
    StepOnOneDependency(q, st[x := Ready], t, x);
    assert st[x := Ready][t := Blocked] == st[x := Ready];
    ChainSettles(q, e, t, x, st[x := Ready]);
    SettledIsEvaluate(q, st, 1);
  }

  lemma DoneIsNotResolved(p: Plan, st: Statuses, id: TaskId)
    requires id in st && st[id] in {Done, Ready}
    ensures !CanResolve(p, st, id)
  {
  }

  lemma ChainSettles(p: Plan, e: TaskId, t: TaskId, x: TaskId, st: Statuses)
    requires e != t && t != x && x != e && p.Nodes() == {e, t, x} == st.Keys && p.DependenciesFor(t) == [x]
    requires st[e] == Done && st[x] == Ready && (st[t] == Ready || st[t] == Blocked || (st[t] == Failed && t in p.ran))
    ensures Settled(p, st)
  {
    hide CanResolve, Resolve;
    StepOnOneDependency(p, st, t, x);
    DoneIsNotResolved(p, st, e);
    DoneIsNotResolved(p, st, x);
    assert Stable(p, st, e) && Stable(p, st, t) && Stable(p, st, x);
  }

  /** A blocked task that already has a run keeps a failure it caught from a
      dependency revived later in the same pass: the scan order shows. */
  lemma RunsMakeScanOrderMatter(e: TaskId, t: TaskId, x: TaskId)
    requires e != t && t != x && x != e
    ensures var p, q, st := Chain([e, t, x], e, t, x, {}, {t}), Chain([e, x, t], e, t, x, {}, {t}), ChainTable(e, t, x);
            && p.Fits(st) && q.Fits(st) && Acyclic(p.deps, p.Nodes()) && q == p.(order := q.order)
            && Has(Evaluate(p, st), t, Failed) && Has(Evaluate(q, st), t, Blocked)
  {
    ChainScannedEarly(e, t, x, {}, {t}, Failed);
    ChainScannedLate(e, t, x, {}, {t});
  }

  /** A blind review released by a failed dependency stays ready when that
      dependency is revived later in the same pass: the scan order shows. */
  lemma BlindReviewMakesScanOrderMatter(e: TaskId, t: TaskId, x: TaskId)
    requires e != t && t != x && x != e
    ensures var p, q, st := Chain([e, t, x], e, t, x, {t}, {}), Chain([e, x, t], e, t, x, {t}, {}), ChainTable(e, t, x);
            && p.Fits(st) && q.Fits(st) && Acyclic(p.deps, p.Nodes()) && q == p.(order := q.order)
            && Has(Evaluate(p, st), t, Ready) && Has(Evaluate(q, st), t, Blocked)
  {
    ChainScannedEarly(e, t, x, {t}, {}, Ready);
    ChainScannedLate(e, t, x, {t}, {});
  }
}
