/** The lineage search behind approval eligibility: a stack loop without a
    visited set, over runs that each name at most one parent. */
module ApprovalLineage {
  import opened Options
  import opened Sequences

  type RunId = string

  datatype Stage = Understand | Implement | Ship | Done

  datatype LineageRun = LineageRun(id: RunId, parent: Option<RunId>, stage: Stage, terminal: bool,
      pendingApproval: bool)

  predicate IsOpenLineageRun(run: LineageRun) {
    !run.terminal && run.stage != Done
  }

  /** Run ids are the table's primary key. */
  predicate UniqueIds(runs: seq<LineageRun>) {
    forall i, j :: 0 <= i < j < |runs| ==> runs[i].id != runs[j].id
  }

  /** The `n`-th parent of `run` is the run named `top`. */
  ghost predicate Descends(runs: seq<LineageRun>, run: LineageRun, top: RunId, n: nat)
    decreases n
  {
    n > 0 &&
    if n == 1 then run.parent == Some(top)
    else exists p :: p in runs && run.parent == Some(p.id) && Descends(runs, p, top, n - 1)
  }

  ghost predicate Descendant(runs: seq<LineageRun>, run: LineageRun, top: RunId) {
    exists n: nat :: Descends(runs, run, top, n)
  }

  /** Following parents from the run named `id` leads back to it. */
  ghost predicate OnParentCycle(runs: seq<LineageRun>, id: RunId) {
    exists r :: r in runs && r.id == id && Descendant(runs, r, id)
  }

  function ChildrenOf(runs: seq<LineageRun>, id: RunId): (r: seq<LineageRun>)
    ensures forall x :: x in r <==> x in runs && x.parent == Some(id)
  {
    if runs == [] then [] else
      var front, last := runs[..|runs| - 1], runs[|runs| - 1];
      assert runs == front + [last];
      ChildrenOf(front, id) + if last.parent == Some(id) then [last] else []
  }

  lemma {:induction false} ChildrenAreDistinct(runs: seq<LineageRun>, id: RunId)
    requires UniqueIds(runs)
    ensures Distinct(ChildrenOf(runs, id))
  {
    if runs != [] {
      var front, last := runs[..|runs| - 1], runs[|runs| - 1];
      ChildrenAreDistinct(front, id);
      assert forall i :: 0 <= i < |front| ==> front[i] == runs[i];
      assert last !in front;
    }
  }

  method GroupByParent(runs: seq<LineageRun>) returns (childrenByParent: map<RunId, seq<LineageRun>>)
    ensures forall id :: (if id in childrenByParent then childrenByParent[id] else []) == ChildrenOf(runs, id)
  {
    childrenByParent := map[];
    for i := 0 to |runs|
      invariant forall id :: (if id in childrenByParent then childrenByParent[id] else []) == ChildrenOf(runs[..i], id)
    {
      var run := runs[i];
      assert runs[..i + 1][..i] == runs[..i] && runs[..i + 1][i] == run;
      if run.parent.Some? {
        var children := if run.parent.value in childrenByParent then childrenByParent[run.parent.value] else [];
        childrenByParent := childrenByParent[run.parent.value := children + [run]];
      }
    }
    assert runs[..|runs|] == runs;
  }

  // ----- The search -----

  ghost predicate Fed(popped: seq<LineageRun>, runId: RunId, r: LineageRun) {
    r.parent.Some? && (r.parent.value == runId || exists p :: p in popped && p.id == r.parent.value)
  }

  /** Popped and waiting runs together are, once each, the children of the queried run and of the popped runs. */
  ghost predicate Searching(runs: seq<LineageRun>, runId: RunId, popped: seq<LineageRun>, stack: seq<LineageRun>) {
    && Distinct(popped + stack)
    && (forall r :: r in popped + stack <==> r in runs && Fed(popped, runId, r))
    && (forall r :: r in popped + stack ==> Descendant(runs, r, runId))
  }

  lemma StartSearch(runs: seq<LineageRun>, runId: RunId)
    requires UniqueIds(runs)
    ensures Searching(runs, runId, [], ChildrenOf(runs, runId))
  {
    var stack := ChildrenOf(runs, runId);
    ChildrenAreDistinct(runs, runId);
    assert [] + stack == stack;
    forall r | r in stack ensures Descendant(runs, r, runId) {
      assert Descends(runs, r, runId, 1);
    }
  }

  lemma DifferentIds(runs: seq<LineageRun>, a: LineageRun, b: LineageRun)
    requires UniqueIds(runs) && a in runs && b in runs && a != b
    ensures a.id != b.id
  {
  }

  lemma ChildDescends(runs: seq<LineageRun>, p: LineageRun, c: LineageRun, top: RunId)
    requires p in runs && Descendant(runs, p, top) && c.parent == Some(p.id)
    ensures Descendant(runs, c, top)
  {
    var n: nat :| Descends(runs, p, top, n);
    assert Descends(runs, c, top, n + 1);
  }

  lemma TopIsNew(runs: seq<LineageRun>, runId: RunId, popped: seq<LineageRun>, stack: seq<LineageRun>)
    requires UniqueIds(runs) && !OnParentCycle(runs, runId) && Searching(runs, runId, popped, stack) && stack != []
    ensures var child := stack[|stack| - 1];
            child in runs && child.id != runId && forall p :: p in popped ==> p.id != child.id
  {
    var child, all := stack[|stack| - 1], popped + stack;
    assert all[|all| - 1] == child && child in all;
    assert child.id == runId ==> OnParentCycle(runs, runId);
    forall p | p in popped ensures p.id != child.id {
      assert p in all;
      var i :| 0 <= i < |popped| && popped[i] == p;
      assert all[i] == p && p != child;
      DifferentIds(runs, p, child);
    }
  }

  /** The single parent makes every child of the run on top new: it was fed by nothing before. */
  lemma ChildrenAreNew(runs: seq<LineageRun>, runId: RunId, popped: seq<LineageRun>, stack: seq<LineageRun>)
    requires UniqueIds(runs) && !OnParentCycle(runs, runId) && Searching(runs, runId, popped, stack) && stack != []
    ensures forall c :: c in ChildrenOf(runs, stack[|stack| - 1].id) ==> c !in popped + stack
  {
    TopIsNew(runs, runId, popped, stack);
    forall c | c in ChildrenOf(runs, stack[|stack| - 1].id) ensures c !in popped + stack {
      assert !Fed(popped, runId, c);
    }
  }

  lemma FewerThanAll(runs: seq<LineageRun>, runId: RunId, popped: seq<LineageRun>, stack: seq<LineageRun>)
    requires Searching(runs, runId, popped, stack) && stack != []
    ensures |popped| < |runs|
  {
    var all := popped + stack;
    DistinctCount(all);
    assert Elements(all) <= Elements(runs);
    SubsetCount(Elements(all), Elements(runs));
    ElementsAtMost(runs);
  }

  lemma PoppedFeeds(runs: seq<LineageRun>, runId: RunId, popped: seq<LineageRun>, child: LineageRun, r: LineageRun)
    requires r in runs
    ensures Fed(popped + [child], runId, r) <==> Fed(popped, runId, r) || r in ChildrenOf(runs, child.id)
  {
    assert child in popped + [child];
  }

  lemma PopOne(runs: seq<LineageRun>, runId: RunId, popped: seq<LineageRun>, stack: seq<LineageRun>)
    requires UniqueIds(runs) && !OnParentCycle(runs, runId) && Searching(runs, runId, popped, stack) && stack != []
    ensures var child := stack[|stack| - 1];
            Searching(runs, runId, popped + [child], stack[..|stack| - 1] + ChildrenOf(runs, child.id))
  {
    hide Distinct, UniqueIds, OnParentCycle, Fed, Descendant;
    var child, rest := stack[|stack| - 1], stack[..|stack| - 1];
    var children := ChildrenOf(runs, child.id);
    var before, after := popped + stack, popped + [child] + (rest + children);
    ChildrenAreNew(runs, runId, popped, stack);
    ChildrenAreDistinct(runs, child.id);
    MoveOver(popped, stack);
    assert stack == rest + [child];
    assert forall r :: r in popped + [child] + rest <==> r in before;
    DistinctAppend(popped + [child] + rest, children);
    assert after == popped + [child] + rest + children;
    forall r ensures r in after <==> r in runs && Fed(popped + [child], runId, r) {
      if r in runs {
        PoppedFeeds(runs, runId, popped, child, r);
      }
    }
    forall r | r in after ensures Descendant(runs, r, runId) {
      if r in children {
        assert child in before;
        ChildDescends(runs, child, r, runId);
      }
    }
  }

  lemma MoveOver(popped: seq<LineageRun>, stack: seq<LineageRun>)
    requires stack != [] && Distinct(popped + stack)
    ensures Distinct(popped + [stack[|stack| - 1]] + stack[..|stack| - 1])
  {
    var child, rest := stack[|stack| - 1], stack[..|stack| - 1];
    var before, after := popped + stack, popped + [child] + rest;
    forall i, j | 0 <= i < j < |after| ensures after[i] != after[j] {
      var i' := if i < |popped| then i else if i == |popped| then |before| - 1 else i - 1;
      var j' := if j < |popped| then j else if j == |popped| then |before| - 1 else j - 1;
      assert after[i] == before[i'] && after[j] == before[j'] && i' != j';
    }
  }

  lemma {:induction false} EveryDescendantPopped(runs: seq<LineageRun>, runId: RunId, popped: seq<LineageRun>,
      r: LineageRun, n: nat)
    requires Searching(runs, runId, popped, []) && r in runs && Descends(runs, r, runId, n)
    ensures r in popped
    decreases n
  {
    hide Distinct;
    assert popped + [] == popped;
    if n == 1 {
      assert Fed(popped, runId, r);
    } else {
      var p :| p in runs && r.parent == Some(p.id) && Descends(runs, p, runId, n - 1);
      EveryDescendantPopped(runs, runId, popped, p, n - 1);
      assert Fed(popped, runId, r);
    }
  }

  /** Each open proper descendant exactly once, whatever cycles the table holds elsewhere. */
  method ListOpenDescendantRuns(runs: seq<LineageRun>, runId: RunId) returns (open: seq<LineageRun>)
    requires UniqueIds(runs) && !OnParentCycle(runs, runId)
    ensures Distinct(open)
    ensures forall r :: r in open <==> r in runs && !r.terminal && r.stage != Done && Descendant(runs, r, runId)
  {
    hide Distinct, Searching, OnParentCycle, UniqueIds, Descendant, StackAfter, ChildrenOf;
    var childrenByParent := GroupByParent(runs);
    open := [];
    NoDuplicates(open);
    ghost var popped: seq<LineageRun> := [];
    var stack := if runId in childrenByParent then childrenByParent[runId] else [];
    StartSearch(runs, runId);
    StackNext(runs, runId, 0);
    while stack != []
      invariant Searching(runs, runId, popped, stack) && Distinct(open)
      invariant stack == StackAfter(runs, runId, |popped|)
      invariant forall r :: r in open <==> r in popped && IsOpenLineageRun(r)
      decreases |runs| - |popped|
    {
      PopOne(runs, runId, popped, stack);
      StackNext(runs, runId, |popped|);
      FewerThanAll(runs, runId, popped, stack);
      NotPoppedYet(popped, stack, runs, runId);
      var child := stack[|stack| - 1];
      if IsOpenLineageRun(child) {
        DistinctExtends(open, child);
        open := open + [child];
      }
      popped := popped + [child];
      assert ChildrenOf(runs, child.id) == if child.id in childrenByParent then childrenByParent[child.id] else [];
      stack := stack[..|stack| - 1] + if child.id in childrenByParent then childrenByParent[child.id] else [];
    }
    PoppedAreDescendants(runs, runId, popped);
  }

  lemma NotPoppedYet(popped: seq<LineageRun>, stack: seq<LineageRun>, runs: seq<LineageRun>, runId: RunId)
    requires Searching(runs, runId, popped, stack) && stack != []
    ensures stack[|stack| - 1] !in popped
  {
    var all := popped + stack;
    assert all[|all| - 1] == stack[|stack| - 1];
    assert forall i :: 0 <= i < |popped| ==> all[i] == popped[i];
  }

  lemma NoDuplicates(none: seq<LineageRun>)
    requires none == []
    ensures Distinct(none)
  {
  }

  lemma PoppedAreDescendants(runs: seq<LineageRun>, runId: RunId, popped: seq<LineageRun>)
    requires Searching(runs, runId, popped, [])
    ensures forall r :: r in popped <==> r in runs && Descendant(runs, r, runId)
  {
    assert popped + [] == popped;
    forall r | r in runs && Descendant(runs, r, runId) ensures r in popped {
      var n: nat :| Descends(runs, r, runId, n);
      EveryDescendantPopped(runs, runId, popped, r, n);
    }
  }

  /** A run can be approved exactly when it waits for approval at the ship stage and nothing it led to is still open. */
  method IsActionableApprovalRun(run: LineageRun, runs: seq<LineageRun>) returns (actionable: bool)
    requires UniqueIds(runs)
    requires run.stage == Ship && run.pendingApproval && !run.terminal ==> !OnParentCycle(runs, run.id)
    ensures actionable <==>
              && run.stage == Ship && run.pendingApproval && !run.terminal
              && !exists r :: r in runs && !r.terminal && r.stage != Done && Descendant(runs, r, run.id)
  {
    if run.stage != Ship || !run.pendingApproval || run.terminal {
      return false;
    }
    hide Descendant, OnParentCycle, UniqueIds;
    var open := ListOpenDescendantRuns(runs, run.id);
    assert open != [] ==> open[0] in open;
    actionable := open == [];
  }

  // ----- The hypothesis is exact -----

  /** The loop body, on the stack alone. */
  function StackStep(runs: seq<LineageRun>, stack: seq<LineageRun>): seq<LineageRun> {
    if stack == [] then [] else stack[..|stack| - 1] + ChildrenOf(runs, stack[|stack| - 1].id)
  }

  function StackAfter(runs: seq<LineageRun>, runId: RunId, k: nat): seq<LineageRun> {
    if k == 0 then ChildrenOf(runs, runId) else StackStep(runs, StackAfter(runs, runId, k - 1))
  }

  lemma StackNext(runs: seq<LineageRun>, runId: RunId, k: nat)
    ensures StackAfter(runs, runId, 0) == ChildrenOf(runs, runId)
    ensures StackAfter(runs, runId, k + 1) == StackStep(runs, StackAfter(runs, runId, k))
  {
  }

  /** The queried run can be reached from `x` by going down. */
  ghost predicate LeadsTo(runs: seq<LineageRun>, x: RunId, runId: RunId) {
    x == runId || exists t :: t in runs && t.id == runId && Descendant(runs, t, x)
  }

  /** A descent passes through a child of its top. */
  lemma {:induction false} DescentThroughChild(runs: seq<LineageRun>, t: LineageRun, top: RunId, n: nat)
      returns (c: LineageRun)
    requires t in runs && Descends(runs, t, top, n)
    ensures c in runs && c.parent == Some(top) && (c == t || Descendant(runs, t, c.id))
    decreases n
  {
    if n == 1 {
      c := t;
    } else {
      var p :| p in runs && t.parent == Some(p.id) && Descends(runs, p, top, n - 1);
      c := DescentThroughChild(runs, p, top, n - 1);
      if c == p {
        assert Descends(runs, t, c.id, 1);
      } else {
        ChildDescends(runs, p, t, c.id);
      }
    }
  }

  lemma SomeChildLeads(runs: seq<LineageRun>, x: RunId, runId: RunId)
    requires OnParentCycle(runs, runId) && LeadsTo(runs, x, runId)
    ensures exists c :: c in ChildrenOf(runs, x) && LeadsTo(runs, c.id, runId)
  {
    var t :| t in runs && t.id == runId && Descendant(runs, t, x);
    var n: nat :| Descends(runs, t, x, n);
    var c := DescentThroughChild(runs, t, x, n);
    assert c in ChildrenOf(runs, x) && LeadsTo(runs, c.id, runId);
  }

  ghost predicate SomeLeads(runs: seq<LineageRun>, stack: seq<LineageRun>, runId: RunId) {
    exists c :: c in stack && LeadsTo(runs, c.id, runId)
  }

  lemma StepKeepsLeading(runs: seq<LineageRun>, stack: seq<LineageRun>, runId: RunId)
    requires OnParentCycle(runs, runId) && SomeLeads(runs, stack, runId)
    ensures SomeLeads(runs, StackStep(runs, stack), runId)
  {
    hide OnParentCycle, LeadsTo;
    var c :| c in stack && LeadsTo(runs, c.id, runId);
    var last := stack[|stack| - 1];
    if c == last {
      SomeChildLeads(runs, last.id, runId);
      var d :| d in ChildrenOf(runs, last.id) && LeadsTo(runs, d.id, runId);
      assert d in StackStep(runs, stack);
    } else {
      assert c in stack[..|stack| - 1];
      assert c in StackStep(runs, stack);
    }
  }

  /** On a parent cycle the search never ends: after any number of turns the stack is not empty. */
  lemma {:induction false} CycleNeverEnds(runs: seq<LineageRun>, runId: RunId, k: nat)
    requires OnParentCycle(runs, runId)
    ensures SomeLeads(runs, StackAfter(runs, runId, k), runId) && StackAfter(runs, runId, k) != []
  {
    hide OnParentCycle, LeadsTo, StackStep;
    if k == 0 {
      LeadsToItself(runs, runId);
      SomeChildLeads(runs, runId, runId);
    } else {
      CycleNeverEnds(runs, runId, k - 1);
      StepKeepsLeading(runs, StackAfter(runs, runId, k - 1), runId);
    }
  }

  lemma LeadsToItself(runs: seq<LineageRun>, runId: RunId)
    ensures LeadsTo(runs, runId, runId)
  {
  }

  /** Such tables exist: a run recorded as its own parent is on a parent cycle, whatever the other runs are. */
  lemma OwnParentNeverEnds(runs: seq<LineageRun>, r: LineageRun, k: nat)
    requires r in runs && r.parent == Some(r.id)
    ensures OnParentCycle(runs, r.id) && StackAfter(runs, r.id, k) != []
  {
    assert Descends(runs, r, r.id, 1);
    CycleNeverEnds(runs, r.id, k);
  }
}
