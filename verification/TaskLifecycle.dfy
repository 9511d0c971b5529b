/** Whole histories of a spec's tasks: evaluation, dispatch, run endings, crash
    retries, provider failover, heartbeat stalls and prerequisite blocks. */
module TaskLifecycle {
  import opened Options
  import opened Sequences
  import opened TaskGraphs
  import opened TaskDag

  /** `blind`: the tasks with the role of a blind review, which the evaluator honours only in a best-of-n spec, the
      ready query in any spec. `reviews`: the review tasks, which the router may retry once for a malformed verdict. */
  datatype Config = Config(order: seq<TaskId>, deps: Dependencies, bestOfN: bool, blind: set<TaskId>,
                           reviews: set<TaskId>, maxTaskRetries: nat)
  {
    /** A task whose status waits for every dependency to be done. */
    predicate Normal(id: TaskId) {
      id !in blind || DependenciesOf(deps, id) == []
    }

    /** How many retries of the task can ever be granted. */
    function Granted(id: TaskId): nat {
      if id in reviews && maxTaskRetries == 0 then 1 else maxTaskRetries
    }

    ghost predicate Sane() {
      Distinct(order) && Acyclic(deps, Elements(order))
    }
  }

  /** The task and run tables, reduced to what decides a task's future.
      `live`: tasks whose latest run is not terminal; `shipped`: tasks whose latest run ended done;
      `listed`: what is left of the list of ready tasks that the polling cycle last read. */
  datatype Board = Board(status: Statuses, runs: map<TaskId, nat>, live: set<TaskId>, shipped: set<TaskId>,
                         retryCount: map<TaskId, nat>, listed: set<TaskId>)

  ghost predicate Fits(c: Config, b: Board) {
    var nodes := Elements(c.order);
    && b.status.Keys == nodes && b.runs.Keys == nodes && b.retryCount.Keys == nodes
    && b.live <= nodes && b.shipped <= nodes && b.listed <= nodes
  }

  function PlanOf(c: Config, b: Board): Plan {
    Plan(c.order, c.deps, if c.bestOfN then c.blind else {}, set id | id in b.runs && b.runs[id] > 0)
  }

  ghost predicate Initial(c: Config, b: Board) {
    && Fits(c, b) && b.live == {} && b.shipped == {} && b.listed == {}
    && forall id <- b.status :: b.status[id] in {Pending, Blocked} && b.runs[id] == 0 && b.retryCount[id] == 0
  }

  // ----- The steps -----

  datatype Cause = Crash | Heartbeat

  /** How far a dispatch gets. */
  datatype DispatchOutcome =
    | Started            // a session is spawned
    | PrerequisiteBlock  // refused before a run exists; the task is marked blocked
    | Unresolvable       // no runtime agent, before a run exists
    | OtherError         // any other error before a run exists
    | SpawnFailed        // the run exists and is marked stalled
    | SpawnUnresolvable  // the same, with a runtime resolution error

  datatype Event =
    | Evaluation
    | ReadyListed                                                // the cycle reads the ready query, once
    | Dispatch(task: TaskId, outcome: DispatchOutcome)           // a task of that list, some awaits later
    | RunEnds(task: TaskId, success: bool)                       // the latest run reaches done, or a terminal state
    | RunComplete(task: TaskId)                                  // onRunComplete
    | Stall(task: TaskId, cause: Cause, deterministic: bool)     // retryOrFailStalledTask
    | Failover(task: TaskId, known: bool, fallback: bool, outcome: DispatchOutcome)
    | MalformedReview(task: TaskId)                              // retryMalformedReviewTask

  ghost function Settle(c: Config, b: Board): (r: Board)
    requires Distinct(c.order) && Fits(c, b)
    ensures Fits(c, r)
  {
    b.(status := Evaluate(PlanOf(c, b), b.status))
  }

  /** `getReady`, for one task. */
  predicate Dispatchable(c: Config, b: Board, id: TaskId) {
    && id in b.status && id !in b.live
    && (b.status[id] == Ready || (b.status[id] == Blocked && id in c.blind && DependenciesOf(c.deps, id) != []))
    && (forall d <- DependenciesOf(c.deps, id) :: d in b.status ==>
          b.status[d] == Done || (id in c.blind && b.status[d] == Failed))
  }

  /** The tables after `dispatch` ended one way or another; `failUnresolved` is the polling cycle's own reaction. */
  function AfterDispatch(b: Board, id: TaskId, outcome: DispatchOutcome, failUnresolved: bool): (r: Board)
    requires id in b.status && id in b.runs
    ensures r.status.Keys == b.status.Keys && r.runs.Keys == b.runs.Keys && r.retryCount == b.retryCount
    ensures r.live <= b.live + {id} && r.shipped <= b.shipped && r.listed == b.listed
  {
    var started := b.(status := b.status[id := Active], runs := b.runs[id := b.runs[id] + 1],
        shipped := b.shipped - {id});
    match outcome
    case Started => started.(live := b.live + {id})
    case PrerequisiteBlock => b.(status := b.status[id := Blocked])
    case Unresolvable => if failUnresolved then b.(status := b.status[id := Failed]) else b
    case OtherError => b
    case SpawnFailed => started
    case SpawnUnresolvable => if failUnresolved then started.(status := b.status[id := Failed]) else started
  }

  /** What `retryOrFailStalledTask` writes before it evaluates: a heartbeat stall fails
      the task; a crash is retried while the budget lasts, and then either leaves the
      task active under a quarantined run or fails it. */
  function RetryOrFail(c: Config, b: Board, id: TaskId, cause: Cause, deterministic: bool): Board
    requires id in b.status && id in b.retryCount
  {
    var next := b.retryCount[id] + 1;
    if cause == Heartbeat then b.(status := b.status[id := Failed])
    else if next > c.maxTaskRetries then
      var spent := b.(retryCount := b.retryCount[id := next]);
      if deterministic then spent else spent.(status := b.status[id := Failed])
    else b.(retryCount := b.retryCount[id := next], status := b.status[id := Ready])
  }

  /** Provider failover of a live run: freeze it, and start the fallback within the same budget.
      Nothing is charged when the failed agent or the task is unknown, or no fallback matches. */
  function FailOver(c: Config, b: Board, id: TaskId, known: bool, fallback: bool, outcome: DispatchOutcome): Board
    requires id in b.status && id in b.runs && id in b.retryCount
  {
    var frozen := b.(live := b.live - {id});
    var next := b.retryCount[id] + 1;
    if !known then frozen
    else if next > c.maxTaskRetries then frozen.(retryCount := b.retryCount[id := next])
    else if !fallback then frozen
    else AfterDispatch(frozen.(retryCount := b.retryCount[id := next]), id, outcome, false)
  }

  /** The router grants one retry, the first one of the task, to a review whose verdict it cannot
      parse; it does so before the review task has a verdict. */
  predicate Malformed(c: Config, b: Board, id: TaskId)
    requires b.status.Keys == b.runs.Keys == b.retryCount.Keys
  {
    id in c.reviews && id in b.status && b.runs[id] > 0 && b.status[id] != Done && b.retryCount[id] < 1
  }

  function RetryReview(b: Board, id: TaskId): Board
    requires id in b.status && id in b.retryCount
  {
    b.(live := b.live - {id}, shipped := b.shipped - {id}, retryCount := b.retryCount[id := b.retryCount[id] + 1],
       status := b.status[id := Ready])
  }

  /** The tables once an event's own writes are done. */
  function Written(c: Config, b: Board, e: Event): (r: Board)
    requires b.status.Keys == b.runs.Keys == b.retryCount.Keys && b.live + b.listed <= b.status.Keys
    ensures r.status.Keys == b.status.Keys && r.runs.Keys == b.runs.Keys && r.retryCount.Keys == b.retryCount.Keys
    ensures r.live + r.listed <= b.status.Keys && r.shipped <= b.shipped + b.status.Keys
  {
    match e
    case Evaluation => b
    case ReadyListed => b.(listed := set id | id in b.status && Dispatchable(c, b, id))
    case Dispatch(id, outcome) =>
      if id in b.listed then AfterDispatch(b.(listed := b.listed - {id}), id, outcome, true) else b
    case RunEnds(id, success) =>
      if id in b.live then b.(live := b.live - {id}, shipped := if success then b.shipped + {id} else b.shipped) else b
    case RunComplete(id) =>
      if id in b.status && b.runs[id] > 0 && id !in b.live
      then b.(status := b.status[id := if id in b.shipped then Done else Failed]) else b
    case Stall(id, cause, deterministic) =>
      if id in b.live then RetryOrFail(c, b.(live := b.live - {id}), id, cause, deterministic) else b
    case Failover(id, known, fallback, outcome) => if id in b.live then FailOver(c, b, id, known, fallback, outcome)
        else b
    case MalformedReview(id) => if Malformed(c, b, id) then RetryReview(b, id) else b
  }

  /** Whether the event ends by evaluating the task graph. */
  predicate Evaluates(c: Config, b: Board, e: Event)
    requires b.status.Keys == b.runs.Keys == b.retryCount.Keys
  {
    match e
    case Evaluation => true
    case RunComplete(id) => id in b.runs && b.runs[id] > 0
    case Stall(id, _, _) => id in b.live
    case MalformedReview(id) => Malformed(c, b, id)
    case _ => false
  }

  ghost function Next(c: Config, b: Board, e: Event): (r: Board)
    requires Distinct(c.order) && Fits(c, b)
    ensures Fits(c, r)
  {
    if Evaluates(c, b, e) then Settle(c, Written(c, b, e)) else Written(c, b, e)
  }

  ghost function Run(c: Config, b: Board, es: seq<Event>): (r: Board)
    requires Distinct(c.order) && Fits(c, b)
    ensures Fits(c, r)
    decreases |es|
  {
    if es == [] then b else Next(c, Run(c, b, es[..|es| - 1]), es[|es| - 1])
  }

  // ----- What an evaluation may touch -----

  /** Evaluation moves only pending, blocked, and failed tasks without a run, and
      makes a normal task ready only behind dependencies that were already done. */
  ghost predicate TouchedAt(p: Plan, st0: Statuses, st: Statuses, id: TaskId) {
    && id in st0 && id in st
    && (st0[id] in {Ready, Active, Done} || (st0[id] == Failed && id in p.ran) ==> st[id] == st0[id])
    && (st0[id] in {Pending, Blocked, Failed} ==> st[id] in {Pending, Blocked, Failed, Ready})
    && ((id !in p.blind || p.DependenciesFor(id) == []) && st[id] == Ready && st0[id] != Ready ==>
          forall d <- p.DependenciesFor(id) :: Has(st0, d, Done))
  }

  ghost predicate Touched(p: Plan, st0: Statuses, st: Statuses) {
    st.Keys == st0.Keys && forall id {:trigger TouchedAt(p, st0, st, id)} :: id in st0 ==> TouchedAt(p, st0, st, id)
  }

  lemma StepTouches(p: Plan, st0: Statuses, st: Statuses, id: TaskId)
    requires Touched(p, st0, st) && id in st
    ensures Touched(p, st0, Step(p, st, id))
  {
    var st' := Step(p, st, id);
    assert TouchedAt(p, st0, st, id);
    forall other | other in st0 ensures TouchedAt(p, st0, st', other) {
      assert TouchedAt(p, st0, st, other);
      if other == id {
        forall d | Has(st, d, Done) ensures Has(st0, d, Done) {
          assert TouchedAt(p, st0, st, d);
        }
      }
    }
  }

  lemma {:induction false} SweepTouches(p: Plan, st0: Statuses, st: Statuses, i: nat)
    requires p.Fits(st) && Touched(p, st0, st) && i <= |p.order|
    ensures Touched(p, st0, Sweep(p, st, i))
  {
    hide Touched, Distinct;
    if i > 0 {
      SweepTouches(p, st0, st, i - 1);
      assert p.order[i - 1] in p.Nodes();
      StepTouches(p, st0, Sweep(p, st, i - 1), p.order[i - 1]);
    }
  }

  lemma {:induction false} PassesTouch(p: Plan, st0: Statuses, k: nat)
    requires p.Fits(st0)
    ensures Touched(p, st0, Passes(p, st0, k))
  {
    if k == 0 {
      forall id | id in st0 ensures TouchedAt(p, st0, st0, id) {
      }
    } else {
      PassesTouch(p, st0, k - 1);
      SweepTouches(p, st0, Passes(p, st0, k - 1), |p.order|);
    }
  }

  // ----- The invariant -----

  function Min(a: nat, b: nat): nat {
    if a <= b then a else b
  }

  /** 1 while the task could still be dispatched again without another charged retry. */
  function Credit(b: Board, id: TaskId): nat
    requires id in b.status && id in b.runs
  {
    if b.status[id] in {Pending, Blocked, Ready} || (b.status[id] == Failed && b.runs[id] == 0) then 1 else 0
  }

  ghost predicate InvAt(c: Config, b: Board, id: TaskId)
    requires Fits(c, b) && id in b.status
  {
    && (id in b.live ==> b.status[id] == Active && id !in b.shipped)
    && (id in b.shipped ==> b.status[id] in {Active, Done})
    && (id in b.listed ==> id !in b.live && id !in b.shipped && b.runs[id] <= Min(b.retryCount[id], c.Granted(id)))
    && (b.status[id] == Active ==> b.runs[id] > 0)
    && (b.status[id] == Done ==> id in b.shipped && id !in b.live && b.runs[id] > 0)
    && (c.Normal(id) && (b.status[id] in {Ready, Active, Done} || b.runs[id] > 0 || id in b.listed) ==>
          forall d <- DependenciesOf(c.deps, id) :: Has(b.status, d, Done))
    && b.runs[id] + Credit(b, id) <= 1 + Min(b.retryCount[id], c.Granted(id))
  }

  ghost predicate Inv(c: Config, b: Board) {
    Fits(c, b) && forall id {:trigger InvAt(c, b, id)} :: id in b.status ==> InvAt(c, b, id)
  }

  lemma SettleKeepsInv(c: Config, b: Board)
    requires Distinct(c.order) && Inv(c, b)
    ensures Inv(c, Settle(c, b))
  {
    var p, after := PlanOf(c, b), Settle(c, b);
    PassesTouch(p, b.status, |c.order|);
    forall id | id in after.status ensures InvAt(c, after, id) {
      assert InvAt(c, b, id) && TouchedAt(p, b.status, after.status, id);
      forall d | Has(b.status, d, Done) ensures Has(after.status, d, Done) {
        assert TouchedAt(p, b.status, after.status, d);
      }
    }
  }

  /** A change to one task that leaves every done task done. */
  lemma OneTaskKeepsInv(c: Config, b: Board, after: Board, id: TaskId)
    requires Inv(c, b) && Fits(c, after) && id in b.status && InvAt(c, after, id)
    requires b.status[id] == Done ==> after.status[id] == Done
    requires forall other :: other in b.status && other != id ==>
               && after.status[other] == b.status[other] && after.runs[other] == b.runs[other]
               && after.retryCount[other] == b.retryCount[other]
               && (other in after.live <==> other in b.live) && (other in after.shipped <==> other in b.shipped)
               && (other in after.listed ==> other in b.listed)
    ensures Inv(c, after)
  {
    forall other | other in after.status ensures InvAt(c, after, other) {
      assert InvAt(c, b, other);
      assert forall d :: Has(b.status, d, Done) ==> Has(after.status, d, Done);
    }
  }

  lemma AfterDispatchKeepsInv(c: Config, b: Board, id: TaskId, outcome: DispatchOutcome, failUnresolved: bool)
    requires Inv(c, b) && id in b.status && id !in b.live && id !in b.listed && b.status[id] != Done
    requires id !in b.shipped && b.runs[id] <= Min(b.retryCount[id], c.Granted(id))
    requires c.Normal(id) ==> forall d <- DependenciesOf(c.deps, id) :: Has(b.status, d, Done)
    ensures Inv(c, AfterDispatch(b, id, outcome, failUnresolved))
  {
    var after := AfterDispatch(b, id, outcome, failUnresolved);
    assert InvAt(c, b, id);
    assert forall d :: Has(b.status, d, Done) ==> Has(after.status, d, Done);
    OneTaskKeepsInv(c, b, after, id);
  }

  lemma RetryOrFailKeepsInv(c: Config, b: Board, id: TaskId, cause: Cause, deterministic: bool)
    requires Inv(c, b) && id in b.live
    ensures Inv(c, RetryOrFail(c, b.(live := b.live - {id}), id, cause, deterministic))
  {
    var after := RetryOrFail(c, b.(live := b.live - {id}), id, cause, deterministic);
    assert InvAt(c, b, id);
    assert forall d :: Has(b.status, d, Done) ==> Has(after.status, d, Done);
    assert InvAt(c, after, id) by {
      if cause == Heartbeat {
      } else if b.retryCount[id] + 1 > c.maxTaskRetries {
      } else {
      }
    }
    hide InvAt;
    OneTaskKeepsInv(c, b, after, id);
  }

  lemma RunEndKeepsInv(c: Config, b: Board, id: TaskId, success: bool)
    requires Inv(c, b) && id in b.live
    ensures Inv(c, Written(c, b, RunEnds(id, success)))
  {
    assert InvAt(c, b, id);
    OneTaskKeepsInv(c, b, Written(c, b, RunEnds(id, success)), id);
  }

  lemma FreezeKeepsInv(c: Config, b: Board, id: TaskId)
    requires Inv(c, b) && id in b.live
    ensures var frozen := b.(live := b.live - {id});
            var charged := frozen.(retryCount := b.retryCount[id := b.retryCount[id] + 1]);
            && Inv(c, frozen) && Inv(c, charged)
            && id !in b.shipped && id !in b.listed && b.status[id] == Active
                && b.runs[id] <= Min(b.retryCount[id], c.Granted(id)) + 1
            && (c.Normal(id) ==> forall d <- DependenciesOf(c.deps, id) :: Has(b.status, d, Done))
  {
    var frozen := b.(live := b.live - {id});
    assert InvAt(c, b, id);
    OneTaskKeepsInv(c, b, frozen, id);
    OneTaskKeepsInv(c, frozen, frozen.(retryCount := b.retryCount[id := b.retryCount[id] + 1]), id);
  }

  lemma FailOverKeepsInv(c: Config, b: Board, id: TaskId, known: bool, fallback: bool, outcome: DispatchOutcome)
    requires Inv(c, b) && id in b.live
    ensures Inv(c, FailOver(c, b, id, known, fallback, outcome))
  {
    var frozen := b.(live := b.live - {id});
    var charged := frozen.(retryCount := b.retryCount[id := b.retryCount[id] + 1]);
    FreezeKeepsInv(c, b, id);
    hide Inv;
    if known && b.retryCount[id] + 1 <= c.maxTaskRetries && fallback {
      AfterDispatchKeepsInv(c, charged, id, outcome, false);
    }
  }

  /** A malformed review is charged like any other retry. */
  lemma RetryReviewKeepsInv(c: Config, b: Board, id: TaskId)
    requires Inv(c, b) && Malformed(c, b, id)
    ensures Inv(c, RetryReview(b, id))
  {
    assert InvAt(c, b, id);
    OneTaskKeepsInv(c, b, RetryReview(b, id), id);
  }

  lemma ListingKeepsInv(c: Config, b: Board)
    requires Inv(c, b)
    ensures Inv(c, b.(listed := set id | id in b.status && Dispatchable(c, b, id)))
  {
    var after := b.(listed := set id | id in b.status && Dispatchable(c, b, id));
    forall id | id in after.status ensures InvAt(c, after, id) {
      assert InvAt(c, b, id);
      if id in after.listed {
        ReadyForDispatch(c, b, id);
      }
    }
  }

  /** The cycle dispatches from its list, without asking again. */
  lemma DispatchKeepsInv(c: Config, b: Board, id: TaskId, outcome: DispatchOutcome)
    requires Inv(c, b) && id in b.listed
    ensures Inv(c, AfterDispatch(b.(listed := b.listed - {id}), id, outcome, true))
  {
    assert InvAt(c, b, id);
    var unlisted := b.(listed := b.listed - {id});
    OneTaskKeepsInv(c, b, unlisted, id);
    AfterDispatchKeepsInv(c, unlisted, id, outcome, true);
  }

  lemma RunCompleteKeepsInv(c: Config, b: Board, id: TaskId)
    requires Inv(c, b) && id in b.status && b.runs[id] > 0 && id !in b.live
    ensures Inv(c, Written(c, b, RunComplete(id)))
  {
    var after := Written(c, b, RunComplete(id));
    assert InvAt(c, b, id);
    assert forall d :: Has(b.status, d, Done) ==> Has(after.status, d, Done);
    OneTaskKeepsInv(c, b, after, id);
  }

  lemma NextKeepsInv(c: Config, b: Board, e: Event)
    requires Distinct(c.order) && Inv(c, b)
    ensures Inv(c, Next(c, b, e))
  {
    hide InvAt, Distinct, AfterDispatch, RetryOrFail, FailOver, RetryReview, Malformed, Dispatchable;
    match e {
      case Evaluation =>
      case ReadyListed => ListingKeepsInv(c, b);
      case Dispatch(id, outcome) =>
        if id in b.listed {
          DispatchKeepsInv(c, b, id, outcome);
        }
      case RunEnds(id, success) =>
        if id in b.live {
          RunEndKeepsInv(c, b, id, success);
        }
      case RunComplete(id) =>
        if id in b.status && b.runs[id] > 0 && id !in b.live {
          RunCompleteKeepsInv(c, b, id);
        }
      case Stall(id, cause, deterministic) =>
        if id in b.live {
          RetryOrFailKeepsInv(c, b, id, cause, deterministic);
        }
      case Failover(id, known, fallback, outcome) =>
        if id in b.live {
          FailOverKeepsInv(c, b, id, known, fallback, outcome);
        }
      case MalformedReview(id) =>
        if Malformed(c, b, id) {
          RetryReviewKeepsInv(c, b, id);
        }
    }
    SettleKeepsInv(c, Written(c, b, e));
  }

  lemma ReadyForDispatch(c: Config, b: Board, id: TaskId)
    requires Inv(c, b) && Dispatchable(c, b, id)
    ensures id !in b.shipped && b.runs[id] <= Min(b.retryCount[id], c.Granted(id))
    ensures c.Normal(id) ==> forall d <- DependenciesOf(c.deps, id) :: Has(b.status, d, Done)
  {
    assert InvAt(c, b, id);
  }

  lemma {:induction false} RunKeepsInv(c: Config, b0: Board, es: seq<Event>)
    requires Distinct(c.order) && Initial(c, b0)
    ensures Inv(c, Run(c, b0, es))
  {
    hide Distinct;
    if es == [] {
      forall id | id in b0.status ensures InvAt(c, b0, id) {
      }
    } else {
      RunKeepsInv(c, b0, es[..|es| - 1]);
      NextKeepsInv(c, Run(c, b0, es[..|es| - 1]), es[|es| - 1]);
    }
  }

  // ----- The guarantees -----

  /** In every history, no normal task is ready, active or done, or was ever run, before all its dependencies are
      done. */
  lemma NothingRunsEarly(c: Config, b0: Board, es: seq<Event>, id: TaskId)
    requires c.Sane() && Initial(c, b0) && id in b0.status && c.Normal(id)
    ensures var b := Run(c, b0, es);
            b.status[id] in {Ready, Active, Done} || b.runs[id] > 0 ==>
              forall d <- DependenciesOf(c.deps, id) :: Has(b.status, d, Done)
  {
    RunKeepsInv(c, b0, es);
    assert InvAt(c, Run(c, b0, es), id);
  }

  /** In every history, a task runs at most once more than its retry budget, whatever mix of crash retries,
      transient waits, failovers and retries of a malformed review led to its runs; only a review task
      under a budget of zero may still be retried once. */
  lemma RunsAreBounded(c: Config, b0: Board, es: seq<Event>, id: TaskId)
    requires c.Sane() && Initial(c, b0) && id in b0.status
    ensures var b := Run(c, b0, es);
            && b.runs[id] <= 1 + b.retryCount[id] && b.runs[id] <= 1 + c.Granted(id)
            && (id !in c.reviews || c.maxTaskRetries >= 1 ==> b.runs[id] <= 1 + c.maxTaskRetries)
  {
    RunKeepsInv(c, b0, es);
    assert InvAt(c, Run(c, b0, es), id);
  }

  // ----- A budget of zero -----

  /** The review is run, its verdict is malformed, and it is run again. */
  function SecondReview(id: TaskId): seq<Event> {
    [Evaluation, ReadyListed, Dispatch(id, Started), RunEnds(id, false), MalformedReview(id), ReadyListed,
        Dispatch(id, Started)]
  }

  lemma RunSnoc(c: Config, b: Board, es: seq<Event>, e: Event)
    requires Distinct(c.order) && Fits(c, b)
    ensures Run(c, b, es + [e]) == Next(c, Run(c, b, es), e)
    ensures Run(c, b, []) == b && [] + [e] == [e]
  {
    assert (es + [e])[..|es|] == es;
  }

  /** The list is read, and the review is dispatched from it. */
  lemma ListAndDispatch(c: Config, b: Board, id: TaskId)
    requires Distinct(c.order) && Fits(c, b) && Dispatchable(c, b, id)
    ensures var r := Next(c, Next(c, b, ReadyListed), Dispatch(id, Started));
            && id in r.live && r.status == b.status[id := Active] && r.runs == b.runs[id := b.runs[id] + 1]
            && r.live == b.live + {id} && r.retryCount == b.retryCount
  {
  }

  /** Nobody else notices that a ready or waiting review is ready, or has been run. */
  lemma SettledWithout(p: Plan, q: Plan, st: Statuses, id: TaskId)
    requires Settled(p, st) && q == p.(ran := q.ran) && q.ran == p.ran + {id}
    requires id in st && st[id] in {Ready, Blocked}
    ensures Settled(q, st[id := Ready])
  {
    var st' := st[id := Ready];
    forall x | x in q.Nodes() ensures Stable(q, st', x) {
      assert Stable(p, st, x);
      assert forall d :: Has(st', d, Done) == Has(st, d, Done) && Has(st', d, Failed) == Has(st, d, Failed);
    }
  }

  /** The board `b1` after an evaluation, and the board once the review has had its first run. */
  ghost predicate ReviewedOnce(c: Config, b1: Board, b: Board, id: TaskId) {
    && Fits(c, b1) && Fits(c, b) && Dispatchable(c, b1, id) && Settled(PlanOf(c, b1), b1.status)
    && b1.runs[id] == 0 && b1.retryCount[id] == 0 && b.live == b1.live && b.retryCount == b1.retryCount
    && b.status == b1.status[id := Active] && b.runs == b1.runs[id := 1]
  }

  lemma MalformedNext(c: Config, b: Board, id: TaskId)
    requires Distinct(c.order) && Fits(c, b) && Malformed(c, b, id)
    ensures Fits(c, RetryReview(b, id)) && Next(c, b, MalformedReview(id)) == Settle(c, RetryReview(b, id))
  {
    hide Settle;
  }

  /** A malformed verdict puts the review back. */
  lemma MalformedPutsBack(c: Config, b1: Board, b: Board, id: TaskId)
    requires ReviewedOnce(c, b1, b, id) && id in c.reviews
    ensures Malformed(c, b, id)
    ensures var w := RetryReview(b, id); w.status == b1.status[id := Ready] && w.runs == b.runs && w.live == b1.live
  {
    hide Settled, PlanOf;
    assert b1.live - {id} == b1.live;
  }

  /** The evaluation that follows finds nothing to do. */
  lemma NothingToSettle(c: Config, b1: Board, w: Board, id: TaskId)
    requires c.Sane() && Fits(c, b1) && Fits(c, w) && Settled(PlanOf(c, b1), b1.status)
    requires id in b1.status && b1.status[id] in {Ready, Blocked} && id in b1.runs
    requires w.status == b1.status[id := Ready] && w.runs == b1.runs[id := 1]
    ensures Settle(c, w) == w
  {
    var p, q := PlanOf(c, b1), PlanOf(c, w);
    SettledWithout(p, q, b1.status, id);
    hide Settled, PlanOf;
    PassesNothing(q, w.status);
    SettledIsEvaluate(q, w.status, 0);
  }

  lemma MalformedSettles(c: Config, b1: Board, b: Board, id: TaskId)
    requires c.Sane() && ReviewedOnce(c, b1, b, id) && id in c.reviews
    ensures var r := Next(c, b, MalformedReview(id)); Dispatchable(c, r, id) && r.runs == b.runs
  {
    var w := RetryReview(b, id);
    MalformedPutsBack(c, b1, b, id);
    MalformedNext(c, b, id);
    hide Next, Settle, RetryReview, Settled, Evaluate, Malformed;
    NothingToSettle(c, b1, w, id);
    StaysDispatchable(c, b1, w, id);
  }

  lemma StaysDispatchable(c: Config, b1: Board, b: Board, id: TaskId)
    requires Dispatchable(c, b1, id) && b.status == b1.status[id := Ready] && b.live == b1.live
    ensures Dispatchable(c, b, id)
  {
  }

  lemma PassesNothing(p: Plan, st: Statuses)
    requires p.Fits(st)
    ensures Passes(p, st, 0) == st
  {
  }

  lemma EvaluationSettles(c: Config, b: Board)
    requires c.Sane() && Fits(c, b)
    ensures var r := Next(c, b, Evaluation); Settled(PlanOf(c, r), r.status) && r == b.(status := r.status)
  {
    PassesSettle(PlanOf(c, b), b.status);
  }

  /** The board after the first review. */
  ghost function FirstReview(c: Config, b: Board, id: TaskId): (r: Board)
    requires Distinct(c.order) && Fits(c, b)
    ensures Fits(c, r)
  {
    Next(c, Next(c, Next(c, Next(c, b, Evaluation), ReadyListed), Dispatch(id, Started)), RunEnds(id, false))
  }

  lemma FirstReviewEnds(c: Config, b1: Board, b: Board, id: TaskId)
    requires Distinct(c.order) && Fits(c, b) && b1 == Next(c, b, Evaluation) && Dispatchable(c, b1, id)
    ensures var r := FirstReview(c, b, id);
            && r.status == b1.status[id := Active] && r.runs == b1.runs[id := b1.runs[id] + 1]
            && r.retryCount == b1.retryCount && r.live == b1.live
  {
    hide Next, Evaluate, Fits, Acyclic, Elements, Distinct;
    ListAndDispatch(c, b1, id);
    var b3 := Next(c, Next(c, b1, ReadyListed), Dispatch(id, Started));
    RunFails(c, b3, id);
    assert b3.live - {id} == b1.live;
  }

  lemma RunFails(c: Config, b: Board, id: TaskId)
    requires Distinct(c.order) && Fits(c, b) && id in b.live
    ensures Next(c, b, RunEnds(id, false)) == b.(live := b.live - {id})
  {
  }

  lemma RunOfThree(c: Config, b: Board, es: seq<Event>, e: Event, f: Event, g: Event)
    requires Distinct(c.order) && Fits(c, b)
    ensures Run(c, b, es + [e] + [f] + [g]) == Next(c, Next(c, Next(c, Run(c, b, es), e), f), g)
  {
    hide *;
    RunSnoc(c, b, es, e);
    RunSnoc(c, b, es + [e], f);
    RunSnoc(c, b, es + [e] + [f], g);
  }

  function FirstEvents(id: TaskId): seq<Event> {
    [Evaluation] + [ReadyListed] + [Dispatch(id, Started)] + [RunEnds(id, false)]
  }

  lemma RunsFirstReview(c: Config, b: Board, id: TaskId)
    requires Distinct(c.order) && Fits(c, b)
    ensures Run(c, b, FirstEvents(id)) == FirstReview(c, b, id)
  {
    hide Next, Run, Fits, Distinct;
    RunSnoc(c, b, [], Evaluation);
    RunOfThree(c, b, [Evaluation], ReadyListed, Dispatch(id, Started), RunEnds(id, false));
  }

  lemma SecondReviewAfterFirst(id: TaskId)
    ensures SecondReview(id) == FirstEvents(id) + [MalformedReview(id)] + [ReadyListed] + [Dispatch(id, Started)]
  {
  }

  /** The board after its verdict was malformed. */
  ghost function PutBack(c: Config, b: Board, id: TaskId): (r: Board)
    requires Distinct(c.order) && Fits(c, b)
    ensures Fits(c, r)
  {
    Next(c, FirstReview(c, b, id), MalformedReview(id))
  }

  lemma PutBackIsDispatchable(c: Config, b: Board, id: TaskId)
    requires c.Sane() && Fits(c, b) && c.maxTaskRetries == 0 && id in c.reviews
    requires Dispatchable(c, Next(c, b, Evaluation), id) && b.runs[id] == 0 && b.retryCount[id] == 0
    ensures var r := PutBack(c, b, id); Dispatchable(c, r, id) && id in r.runs && r.runs[id] == 1
  {
    hide Next, FirstReview, ReviewedOnce, Dispatchable, Acyclic, Elements, Distinct;
    var b1, b4 := Next(c, b, Evaluation), FirstReview(c, b, id);
    HasReviewedOnce(c, b, b1, id);
    MalformedSettles(c, b1, b4, id);
    RunsAfter(c, b1, b4, id);
  }

  lemma HasReviewedOnce(c: Config, b: Board, b1: Board, id: TaskId)
    requires c.Sane() && Fits(c, b) && b1 == Next(c, b, Evaluation) && Dispatchable(c, b1, id)
    requires b.runs[id] == 0 && b.retryCount[id] == 0
    ensures ReviewedOnce(c, b1, FirstReview(c, b, id), id)
  {
    hide FirstReview, Dispatchable, Settled, PlanOf, Evaluate, Acyclic, Elements, Distinct;
    EvaluationSettles(c, b);
    FirstReviewEnds(c, b1, b, id);
  }

  lemma RunsAfter(c: Config, b1: Board, b: Board, id: TaskId)
    requires ReviewedOnce(c, b1, b, id)
    ensures id in b.runs && b.runs[id] == 1
  {
    hide Settled, Dispatchable, PlanOf;
  }

  lemma RunsSecondReview(c: Config, b: Board, b5: Board, id: TaskId)
    requires Distinct(c.order) && Fits(c, b) && Fits(c, b5) && b5 == PutBack(c, b, id)
    ensures Run(c, b, SecondReview(id)) == Next(c, Next(c, b5, ReadyListed), Dispatch(id, Started))
  {
    PutBackIs(c, b, id);
    hide *;
    RunsFirstReview(c, b, id);
    SecondReviewAfterFirst(id);
    RunOfThree(c, b, FirstEvents(id), MalformedReview(id), ReadyListed, Dispatch(id, Started));
  }

  lemma PutBackIs(c: Config, b: Board, id: TaskId)
    requires Distinct(c.order) && Fits(c, b)
    ensures PutBack(c, b, id) == Next(c, FirstReview(c, b, id), MalformedReview(id))
  {
  }

  lemma SecondRunCounts(c: Config, b5: Board, r: Board, id: TaskId)
    requires Distinct(c.order) && Fits(c, b5) && Dispatchable(c, b5, id) && id in b5.runs && b5.runs[id] == 1
    requires r == Next(c, Next(c, b5, ReadyListed), Dispatch(id, Started))
    ensures id in r.runs && r.runs[id] == 2
  {
    hide *;
    ListAndDispatch(c, b5, id);
  }

  /** Under a budget of zero, every review task that was never run or charged, and that an evaluation leaves
      dispatchable, can still be run twice. */
  lemma ReviewOutrunsBudgetOfZero(c: Config, b: Board, id: TaskId)
    requires c.Sane() && Fits(c, b) && c.maxTaskRetries == 0 && id in c.reviews
    requires Dispatchable(c, Next(c, b, Evaluation), id) && b.runs[id] == 0 && b.retryCount[id] == 0
    ensures id in Run(c, b, SecondReview(id)).runs && Run(c, b, SecondReview(id)).runs[id] == 2 > 1 + c.maxTaskRetries
  {
    hide Next, Run, PutBack, Fits, Dispatchable, Acyclic, Elements, Distinct, SecondReview;
    var b5, r := PutBack(c, b, id), Run(c, b, SecondReview(id));
    PutBackIsDispatchable(c, b, id);
    RunsSecondReview(c, b, b5, id);
    SecondRunCounts(c, b5, r, id);
  }

  /** A task that has run, has no live run, and is failed or was left active: ended by
      exhaustion, quarantine, a heartbeat stall, a freeze or a failed spawn. */
  predicate Ended(b: Board, id: TaskId) {
    && id in b.status && id in b.runs && id !in b.live && id !in b.listed && b.runs[id] > 0
    && b.status[id] in {Failed, Active}
  }

  lemma SettleKeepsEnded(c: Config, b: Board, id: TaskId)
    requires Distinct(c.order) && Fits(c, b) && Ended(b, id)
    ensures Ended(Settle(c, b), id) && Settle(c, b).status[id] == b.status[id]
  {
    PassesTouch(PlanOf(c, b), b.status, |c.order|);
    assert TouchedAt(PlanOf(c, b), b.status, Settle(c, b).status, id);
  }

  /** The router does not retry the task as a malformed review: it is charged already, or nobody asks. */
  predicate NotReopened(b: Board, es: seq<Event>, id: TaskId) {
    id in b.retryCount && (b.retryCount[id] >= 1 || MalformedReview(id) !in es)
  }

  /** The two tables say the same of the task. */
  predicate SameTask(a: Board, b: Board, id: TaskId) {
    && (id in a.status <==> id in b.status) && (id in a.status && id in b.status ==> a.status[id] == b.status[id])
    && (id in a.runs <==> id in b.runs) && (id in a.runs && id in b.runs ==> a.runs[id] == b.runs[id])
    && (id in a.retryCount <==> id in b.retryCount)
    && (id in a.retryCount && id in b.retryCount ==> a.retryCount[id] == b.retryCount[id])
    && (id in a.live <==> id in b.live) && (id in a.shipped <==> id in b.shipped)
        && (id in a.listed <==> id in b.listed)
  }

  lemma RetryElsewhere(c: Config, b: Board, other: TaskId, cause: Cause, deterministic: bool, id: TaskId)
    requires other in b.status && other in b.retryCount && id != other
    ensures SameTask(b, RetryOrFail(c, b, other, cause, deterministic), id)
  {
  }

  lemma FailOverElsewhere(c: Config, b: Board, other: TaskId, known: bool, fallback: bool, outcome: DispatchOutcome,
      id: TaskId)
    requires other in b.status && other in b.runs && other in b.retryCount && id != other
    ensures SameTask(b, FailOver(c, b, other, known, fallback, outcome), id)
  {
  }

  lemma WriteKeepsEnded(c: Config, b: Board, e: Event, id: TaskId)
    requires Fits(c, b) && Ended(b, id) && id !in b.shipped && NotReopened(b, [e], id)
    ensures var r := Written(c, b, e);
            Ended(r, id) && id !in r.shipped && r.runs[id] == b.runs[id] && r.retryCount[id] >= b.retryCount[id]
  {
    assert e != MalformedReview(id) || b.retryCount[id] >= 1;
    hide Elements, RetryOrFail, FailOver, NotReopened;
    match e
    case Stall(other, cause, deterministic) =>
      if other in b.live {
        RetryElsewhere(c, b.(live := b.live - {other}), other, cause, deterministic, id);
      }
    case Failover(other, known, fallback, outcome) =>
      if other in b.live {
        FailOverElsewhere(c, b, other, known, fallback, outcome, id);
      }
    case _ =>
  }

  lemma NextKeepsEnded(c: Config, b: Board, e: Event, id: TaskId)
    requires Distinct(c.order) && Fits(c, b) && Ended(b, id) && id !in b.shipped && NotReopened(b, [e], id)
    ensures var r := Next(c, b, e);
            Ended(r, id) && id !in r.shipped && r.runs[id] == b.runs[id] && r.retryCount[id] >= b.retryCount[id]
  {
    hide Ended, Written, Distinct, NotReopened;
    WriteKeepsEnded(c, b, e, id);
    SettleKeepsEnded(c, Written(c, b, e), id);
  }

  /** No later history makes an ended task ready, or runs it again, unless the router retries it as a
      malformed review, which it does only for a task that was never charged a retry. */
  lemma {:induction false} EndedForGood(c: Config, b: Board, es: seq<Event>, id: TaskId)
    requires Distinct(c.order) && Fits(c, b) && Ended(b, id) && id !in b.shipped && NotReopened(b, es, id)
    ensures var r := Run(c, b, es);
            Ended(r, id) && id !in r.shipped && r.runs[id] == b.runs[id] && r.retryCount[id] >= b.retryCount[id]
  {
    hide Distinct, Ended, Next;
    if es != [] {
      var front, last := es[..|es| - 1], es[|es| - 1];
      assert es == front + [last];
      EndedForGood(c, b, front, id);
      NextKeepsEnded(c, Run(c, b, front), last, id);
    }
  }

  /** Exhausting the budget, or a heartbeat stall, ends the task. */
  lemma ExhaustionEnds(c: Config, b: Board, id: TaskId, cause: Cause, deterministic: bool)
    requires Distinct(c.order) && Inv(c, b) && id in b.live
    requires cause == Heartbeat || b.retryCount[id] + 1 > c.maxTaskRetries
    ensures var r := Next(c, b, Stall(id, cause, deterministic));
            && Ended(r, id) && id !in r.shipped && (cause == Crash ==> r.retryCount[id] >= 1)
            && r.status[id] == (if cause == Crash && deterministic then Active else Failed)
  {
    hide Evaluate, Distinct;
    assert InvAt(c, b, id);
    var written := Written(c, b, Stall(id, cause, deterministic));
    assert Ended(written, id) && id !in written.shipped;
    SettleKeepsEnded(c, written, id);
  }

  lemma ReadyStays(c: Config, b: Board, id: TaskId)
    requires Distinct(c.order) && Fits(c, b) && Has(b.status, id, Ready)
    ensures Has(Settle(c, b).status, id, Ready)
  {
    PassesTouch(PlanOf(c, b), b.status, |c.order|);
    assert TouchedAt(PlanOf(c, b), b.status, Settle(c, b).status, id);
  }

  lemma ReadyIsDispatchable(c: Config, b: Board, id: TaskId)
    requires Inv(c, b) && Has(b.status, id, Ready) && id !in b.live && c.Normal(id)
    ensures Dispatchable(c, b, id)
  {
    assert InvAt(c, b, id);
  }

  /** While the budget lasts, a crash charges one retry and the ready query selects the task again at once. */
  lemma RetryIsDispatchable(c: Config, b: Board, id: TaskId, deterministic: bool)
    requires Distinct(c.order) && Inv(c, b) && id in b.live && c.Normal(id) && b.retryCount[id] + 1 <= c.maxTaskRetries
    ensures var r := Next(c, b, Stall(id, Crash, deterministic));
            Dispatchable(c, r, id) && r.retryCount[id] == b.retryCount[id] + 1 && r.runs[id] == b.runs[id]
  {
    hide InvAt, Distinct, Evaluate, Dispatchable, Config.Normal;
    var stall := Stall(id, Crash, deterministic);
    NextKeepsInv(c, b, stall);
    ReadyStays(c, Written(c, b, stall), id);
    ReadyIsDispatchable(c, Next(c, b, stall), id);
  }

  // ----- What each event does to the tables -----

  /** What the tables say of one task. */
  datatype TaskRow = TaskRow(status: TaskStatus, runs: nat, live: bool, shipped: bool, retryCount: nat, listed: bool)

  predicate RowIn(b: Board, id: TaskId) {
    id in b.status && id in b.runs && id in b.retryCount
  }

  ghost function RowOf(b: Board, id: TaskId): TaskRow
    requires RowIn(b, id)
  {
    TaskRow(b.status[id], b.runs[id], id in b.live, id in b.shipped, b.retryCount[id], id in b.listed)
  }

  lemma HasRow(c: Config, b: Board, id: TaskId)
    requires Fits(c, b)
    ensures id in b.live || id in b.shipped || id in b.listed || id in b.status || id in b.runs || id in b.retryCount
            ==> RowIn(b, id)
  {
    hide Elements;
  }

  /** What a dispatch does to its task, for each way it can end. */
  predicate Dispatched(before: TaskRow, after: TaskRow, outcome: DispatchOutcome, polling: bool) {
    match outcome
    case Started =>
      && after.status == Active && after.runs == before.runs + 1 && after.live && !after.shipped
      && after.retryCount == before.retryCount && after.listed == before.listed
    case SpawnFailed => after == before.(status := Active, runs := before.runs + 1, shipped := false)
    case SpawnUnresolvable =>
      after == before.(status := if polling then Failed else Active, runs := before.runs + 1, shipped := false)
    case PrerequisiteBlock => after == before.(status := Blocked)
    case Unresolvable => after == if polling then before.(status := Failed) else before
    case OtherError => after == before
  }

  ghost predicate OthersSame(b: Board, r: Board, id: TaskId) {
    forall other {:trigger SameTask(b, r, other)} :: other != id ==> SameTask(b, r, other)
  }

  lemma DispatchRow(b: Board, id: TaskId, outcome: DispatchOutcome, polling: bool)
    requires RowIn(b, id)
    ensures var r := AfterDispatch(b, id, outcome, polling);
            RowIn(r, id) && Dispatched(RowOf(b, id), RowOf(r, id), outcome, polling) && OthersSame(b, r, id)
  {
  }

  lemma OthersSameThrough(a: Board, b: Board, r: Board, id: TaskId)
    requires OthersSame(a, b, id) && OthersSame(b, r, id)
    ensures OthersSame(a, r, id)
  {
    forall other | other != id ensures SameTask(a, r, other) {
      assert SameTask(a, b, other) && SameTask(b, r, other);
    }
  }

  /** The polling cycle's dispatch of a task of its list. */
  lemma DispatchEffects(c: Config, b: Board, id: TaskId, outcome: DispatchOutcome)
    requires Distinct(c.order) && Fits(c, b) && id in b.listed && RowIn(b, id)
    ensures var r := Next(c, b, Dispatch(id, outcome));
            && RowIn(r, id) && OthersSame(b, r, id)
            && Dispatched(RowOf(b, id).(listed := false), RowOf(r, id), outcome, true)
  {
    hide Elements, Distinct, AfterDispatch, Dispatched;
    var unlisted := b.(listed := b.listed - {id});
    assert OthersSame(b, unlisted, id);
    DispatchRow(unlisted, id, outcome, true);
    hide OthersSame;
    OthersSameThrough(b, unlisted, AfterDispatch(unlisted, id, outcome, true), id);
  }

  /** Provider failover: the run is frozen; the fallback is dispatched, and charged, exactly when the agent and
      the task are known, the budget is not exhausted and a fallback matches; an exhausted budget is charged, too. */
  lemma FailoverEffects(c: Config, b: Board, id: TaskId, known: bool, fallback: bool, outcome: DispatchOutcome)
    requires Distinct(c.order) && Fits(c, b) && id in b.live && RowIn(b, id)
    ensures var r := Next(c, b, Event.Failover(id, known, fallback, outcome));
            && RowIn(r, id) && OthersSame(b, r, id)
            && var frozen, after := RowOf(b, id).(live := false), RowOf(r, id);
               var charged := frozen.(retryCount := frozen.retryCount + 1);
               if !known then after == frozen
               else if b.retryCount[id] >= c.maxTaskRetries then after == charged
               else if !fallback then after == frozen
               else Dispatched(charged, after, outcome, false)
  {
    hide Elements, Distinct, Next, AfterDispatch, Dispatched, Fits, OthersSame;
    FailoverWrites(c, b, id, known, fallback, outcome);
    var frozen := b.(live := b.live - {id});
    var charged := frozen.(retryCount := b.retryCount[id := b.retryCount[id] + 1]);
    FrozenRow(b, id);
    DispatchRow(charged, id, outcome, false);
    OthersSameThrough(b, charged, AfterDispatch(charged, id, outcome, false), id);
  }

  lemma FrozenRow(b: Board, id: TaskId)
    requires RowIn(b, id)
    ensures var frozen := b.(live := b.live - {id});
            var charged := frozen.(retryCount := b.retryCount[id := b.retryCount[id] + 1]);
            OthersSame(b, frozen, id) && OthersSame(b, charged, id)
  {
  }

  /** Nothing of the other tasks changes but their status, which the evaluation may resolve. */
  ghost predicate OthersEvaluated(c: Config, b: Board, r: Board, id: TaskId) {
    && r.status.Keys == b.status.Keys && Settled(PlanOf(c, r), r.status) && r.listed == b.listed
    && forall other :: other != id ==>
         && (other in r.runs <==> other in b.runs)
         && (other in r.runs && other in b.runs ==> r.runs[other] == b.runs[other])
         && (other in r.retryCount <==> other in b.retryCount)
         && (other in r.retryCount && other in b.retryCount ==> r.retryCount[other] == b.retryCount[other])
         && (other in r.live <==> other in b.live) && (other in r.shipped <==> other in b.shipped)
  }

  /** What the evaluation at the end of an event does: the table is settled, and a ready, active or done task,
      and a failed one that has run, keep their status. */
  lemma SettleResolves(c: Config, b: Board, id: TaskId)
    requires c.Sane() && Fits(c, b)
    ensures var r := Settle(c, b);
            && Settled(PlanOf(c, r), r.status) && r == b.(status := r.status) && r.status.Keys == b.status.Keys
            && (id in b.status && id in b.runs
                && (b.status[id] in {Ready, Active, Done} || (b.status[id] == Failed && b.runs[id] > 0)) ==>
                  r.status[id] == b.status[id])
  {
    PassesSettle(PlanOf(c, b), b.status);
    PassesTouch(PlanOf(c, b), b.status, |c.order|);
    assert id in b.status ==> TouchedAt(PlanOf(c, b), b.status, Settle(c, b).status, id);
  }

  lemma SettledRow(c: Config, b: Board, w: Board, id: TaskId)
    requires c.Sane() && Fits(c, b) && Fits(c, w) && OthersSame(b, w, id) && w.listed == b.listed && RowIn(w, id)
    requires w.status[id] in {Ready, Active, Done} || (w.status[id] == Failed && w.runs[id] > 0)
    ensures var r := Settle(c, w); RowIn(r, id) && RowOf(r, id) == RowOf(w, id) && OthersEvaluated(c, b, r, id)
  {
    hide Settle, Settled, PlanOf, Acyclic, Elements, Distinct;
    SettleResolves(c, w, id);
    var r := Settle(c, w);
    forall other | other != id
      ensures (other in r.runs <==> other in b.runs) && (other in r.retryCount <==> other in b.retryCount)
      ensures other in r.runs && other in b.runs ==> r.runs[other] == b.runs[other]
      ensures other in r.retryCount && other in b.retryCount ==> r.retryCount[other] == b.retryCount[other]
      ensures (other in r.live <==> other in b.live) && (other in r.shipped <==> other in b.shipped)
    {
      assert SameTask(b, w, other);
    }
  }

  lemma StallRow(c: Config, b: Board, id: TaskId, cause: Cause, deterministic: bool)
    requires RowIn(b, id)
    ensures var w := RetryOrFail(c, b.(live := b.live - {id}), id, cause, deterministic);
            && RowIn(w, id) && OthersSame(b, w, id) && w.listed == b.listed && w.runs == b.runs
            && var stalled := RowOf(b, id).(live := false);
               var charged := stalled.(retryCount := stalled.retryCount + 1);
               RowOf(w, id) == if cause == Heartbeat then stalled.(status := Failed)
                               else if b.retryCount[id] < c.maxTaskRetries then charged.(status := Ready)
                               else if deterministic then charged
                               else charged.(status := Failed)
  {
  }

  /** A crash or a heartbeat stall of a live run. */
  lemma StallEffects(c: Config, b: Board, id: TaskId, cause: Cause, deterministic: bool)
    requires c.Sane() && Fits(c, b) && id in b.live && RowIn(b, id) && b.runs[id] > 0 && b.status[id] == Active
    ensures var r := Next(c, b, Stall(id, cause, deterministic));
            && RowIn(r, id) && OthersEvaluated(c, b, r, id)
            && var stalled := RowOf(b, id).(live := false);
               var charged := stalled.(retryCount := stalled.retryCount + 1);
               RowOf(r, id) == if cause == Heartbeat then stalled.(status := Failed)
                               else if b.retryCount[id] < c.maxTaskRetries then charged.(status := Ready)
                               else if deterministic then charged
                               else charged.(status := Failed)
  {
    hide Next, Settle, RetryOrFail, Acyclic, Elements, Distinct, Fits, OthersSame, OthersEvaluated;
    StallWrites(c, b, id, cause, deterministic);
    StallRow(c, b, id, cause, deterministic);
    SettledRow(c, b, RetryOrFail(c, b.(live := b.live - {id}), id, cause, deterministic), id);
  }

  /** The latest run of a task has ended: a shipped run makes it done, any other failed, and what depends on it is
      resolved. */
  lemma RunCompleteEffects(c: Config, b: Board, id: TaskId)
    requires c.Sane() && Fits(c, b) && RowIn(b, id) && b.runs[id] > 0 && id !in b.live
    ensures var r := Next(c, b, RunComplete(id));
            && RowIn(r, id) && OthersEvaluated(c, b, r, id)
            && RowOf(r, id) == RowOf(b, id).(status := if id in b.shipped then Done else Failed)
  {
    hide Next, Settle, Acyclic, Elements, Distinct, Fits, OthersEvaluated;
    CompleteWrites(c, b, id);
    var w := b.(status := b.status[id := if id in b.shipped then Done else Failed]);
    SettledRow(c, b, w, id);
  }

  lemma CompleteWrites(c: Config, b: Board, id: TaskId)
    requires Distinct(c.order) && Fits(c, b) && id in b.status && id in b.runs && b.runs[id] > 0 && id !in b.live
    ensures var written := b.(status := b.status[id := if id in b.shipped then Done else Failed]);
            Fits(c, written) && Next(c, b, RunComplete(id)) == Settle(c, written)
  {
    hide Settle, Elements, Distinct;
  }

  /** The latest run of a task ends: it is live no longer, and shipped if it succeeded. */
  lemma RunEndEffects(c: Config, b: Board, id: TaskId, success: bool)
    requires Distinct(c.order) && Fits(c, b) && id in b.live && RowIn(b, id)
    ensures var r := Next(c, b, RunEnds(id, success));
            && RowIn(r, id) && OthersSame(b, r, id)
            && RowOf(r, id) == RowOf(b, id).(live := false, shipped := success || id in b.shipped)
  {
    hide Elements, Distinct;
  }

  /** A malformed review gets its one retry. */
  lemma MalformedEffects(c: Config, b: Board, id: TaskId)
    requires c.Sane() && Fits(c, b) && id in c.reviews && RowIn(b, id) && b.runs[id] > 0 && b.status[id] != Done
    ensures var r := Next(c, b, MalformedReview(id));
            if b.retryCount[id] > 0 then r == b
            else
              && RowIn(r, id) && OthersEvaluated(c, b, r, id)
              && RowOf(r, id) == RowOf(b, id).(status := Ready, live := false, shipped := false, retryCount := 1)
  {
    hide Next, Settle, Acyclic, Elements, Distinct, Fits, OthersEvaluated;
    ReviewWrites(c, b, id);
    if b.retryCount[id] == 0 {
      var w := Board(b.status[id := Ready], b.runs, b.live - {id}, b.shipped - {id}, b.retryCount[id := 1], b.listed);
      SettledRow(c, b, w, id);
    }
  }

  /** The ready query: a normal task is listed when it is ready behind done dependencies and has no live run; a
      blind review also while it is blocked on dependencies that are all done or failed. */
  lemma ReadyListedExactly(c: Config, b: Board, id: TaskId)
    requires Distinct(c.order) && Fits(c, b) && id in b.status
    ensures var r, ds := Next(c, b, ReadyListed), DependenciesOf(c.deps, id);
            && r == b.(listed := r.listed)
            && (id !in c.blind ==>
                  (id in r.listed <==> b.status[id] == Ready && id !in b.live
                                       && forall d <- ds :: d in b.status ==> b.status[d] == Done))
            && (id in c.blind && ds != [] ==>
                  (id in r.listed <==> b.status[id] in {Ready, Blocked} && id !in b.live
                                       && forall d <- ds :: d in b.status ==> b.status[d] in {Done, Failed}))
            && (id in c.blind && ds == [] ==> (id in r.listed <==> b.status[id] == Ready && id !in b.live))
  {
    hide Elements, Distinct;
  }

  /** Events that do not find the task where they need it change nothing. */
  lemma IgnoredEvents(c: Config, b: Board, e: Event)
    requires Distinct(c.order) && Fits(c, b)
    requires match e
             case Dispatch(id, _) => id !in b.listed
             case RunEnds(id, _) => id !in b.live
             case Stall(id, _, _) => id !in b.live
             case Failover(id, _, _, _) => id !in b.live
             case MalformedReview(id) => id !in c.reviews || id !in b.status || b.status[id] == Done
             case _ => false
    ensures Next(c, b, e) == b
  {
    hide Settle, Elements, Distinct, AfterDispatch, RetryOrFail, FailOver, RetryReview, Dispatchable;
  }

  /** A run-complete event for a task with a live run only evaluates. */
  lemma LiveRunCompletes(c: Config, b: Board, id: TaskId)
    requires Distinct(c.order) && Fits(c, b) && id in b.live && id in b.runs && b.runs[id] > 0
    ensures Next(c, b, RunComplete(id)) == Next(c, b, Evaluation)
  {
    hide Settle, Elements, Distinct, AfterDispatch, RetryOrFail, FailOver, RetryReview, Dispatchable;
  }

  // ----- Backoff -----

  /** The delay after a crash, when that many retries were charged before it. */
  predicate IsDelay(schedule: seq<nat>, charged: nat, override: Option<nat>, delay: int) {
    match override
    case Some(ms) => delay == ms
    case None =>
      && (charged < |schedule| ==> delay == schedule[charged])
      && (0 < |schedule| <= charged ==> delay == schedule[|schedule| - 1])
      && (schedule == [] ==> delay == 60_000)
  }

  /** The retry time after a stall: untouched by a heartbeat, cleared by an exhausted budget, else the delay from
      now. */
  ghost predicate RetryTime(c: Config, before: map<TaskId, Option<int>>, after: map<TaskId, Option<int>>, id: TaskId,
      charged: nat, cause: Cause, schedule: seq<nat>, override: Option<nat>, nowMs: int) {
    && after.Keys == before.Keys + (if cause == Heartbeat then {} else {id})
    && (forall other :: other in before && other != id ==> after[other] == before[other])
    && (cause == Heartbeat ==> after == before)
    && (cause == Crash && charged >= c.maxTaskRetries ==> after[id] == None)
    && (cause == Crash && charged < c.maxTaskRetries ==>
          after[id].Some? && IsDelay(schedule, charged, override, after[id].value - nowMs))
  }

  /** The delay before the `n`-th retry. */
  function BackoffMs(schedule: seq<nat>, n: nat, override: Option<nat>): nat
    requires n > 0
  {
    if override.Some? then override.value
    else if n - 1 < |schedule| then schedule[n - 1]
    else if schedule != [] then schedule[|schedule| - 1]
    else 60_000
  }

  lemma StallWrites(c: Config, b: Board, id: TaskId, cause: Cause, deterministic: bool)
    requires Distinct(c.order) && Fits(c, b) && id in b.live
    ensures b.status.Keys == b.runs.Keys == b.retryCount.Keys && b.live <= b.status.Keys
    ensures var written := RetryOrFail(c, b.(live := b.live - {id}), id, cause, deterministic);
            Fits(c, written) && Next(c, b, Stall(id, cause, deterministic)) == Settle(c, written)
  {
    hide Distinct, Settle;
    StallFits(c, b.(live := b.live - {id}), id, cause, deterministic);
    hide RetryOrFail, Fits;
    assert Written(c, b, Stall(id, cause, deterministic))
        == RetryOrFail(c, b.(live := b.live - {id}), id, cause, deterministic);
  }

  lemma StallFits(c: Config, b: Board, id: TaskId, cause: Cause, deterministic: bool)
    requires Fits(c, b) && id in b.status
    ensures id in b.retryCount && Fits(c, RetryOrFail(c, b, id, cause, deterministic))
  {
    hide Elements;
  }

  lemma FailoverWrites(c: Config, b: Board, id: TaskId, known: bool, fallback: bool, outcome: DispatchOutcome)
    requires Distinct(c.order) && Fits(c, b) && id in b.live
    ensures id in b.status && id in b.runs && id in b.retryCount
    ensures Next(c, b, Event.Failover(id, known, fallback, outcome)) == FailOver(c, b, id, known, fallback, outcome)
  {
    hide Distinct, AfterDispatch;
  }

  lemma ReviewWrites(c: Config, b: Board, id: TaskId)
    requires Distinct(c.order) && Fits(c, b) && id in c.reviews && id in b.status && b.runs[id] > 0
            && b.status[id] != Done
    ensures id in b.retryCount && (b.retryCount[id] >= 1 ==> Next(c, b, MalformedReview(id)) == b)
    ensures var r := Board(b.status[id := Ready], b.runs, b.live - {id}, b.shipped - {id},
                           b.retryCount[id := b.retryCount[id] + 1], b.listed);
            && (b.retryCount[id] == 0 ==> Fits(c, r) && Next(c, b, MalformedReview(id)) == Settle(c, r))
            && (b.status[id] == Ready ==> r.status == b.status)
  {
    hide Distinct, Settle;
    assert b.status[id] == Ready ==> b.status[id := Ready] == b.status;
  }

  lemma UnknownStall(c: Config, b: Board, id: TaskId, cause: Cause, deterministic: bool)
    requires Distinct(c.order) && Fits(c, b) && id !in b.status
    ensures Next(c, b, Stall(id, cause, deterministic)) == b
  {
  }

  /** The delays of the crashes of one task that are retried. */
  ghost function Delays(c: Config, b: Board, es: seq<Event>, id: TaskId, schedule: seq<nat>): (r: seq<int>)
    requires Distinct(c.order) && Fits(c, b)
    decreases |es|
  {
    if es == [] then []
    else
      var front, last := es[..|es| - 1], es[|es| - 1];
      var before, now := Delays(c, b, front, id, schedule), Run(c, b, front);
      if last.Stall? && last.task == id && last.cause == Crash && id in now.live && id in now.retryCount
          && now.retryCount[id] < c.maxTaskRetries
      then before + [BackoffMs(schedule, now.retryCount[id] + 1, None)] else before
  }

  /** Only crashes charge the task. */
  predicate OnlyCrashesCharge(es: seq<Event>, id: TaskId) {
    forall e <- es :: !(e.Failover? && e.task == id) && e != MalformedReview(id)
  }

  lemma ChargedByCrash(c: Config, b: Board, e: Event, id: TaskId)
    requires Distinct(c.order) && Fits(c, b) && id in b.retryCount
    requires !(e.Failover? && e.task == id) && e != MalformedReview(id)
    ensures var r := Next(c, b, e);
            id in r.retryCount && r.retryCount[id] == b.retryCount[id]
                + if e.Stall? && e.task == id && e.cause == Crash && id in b.live then 1 else 0
  {
    hide Elements, Distinct, Dispatchable, Settle, RetryOrFail, FailOver, AfterDispatch, RetryReview;
    HasRow(c, b, id);
    match e
    case Dispatch(other, outcome) =>
    case Stall(other, cause, deterministic) =>
      if other in b.live {
        HasRow(c, b, other);
        StallWrites(c, b, other, cause, deterministic);
        StallRow(c, b, other, cause, deterministic);
        SettleKeepsCounts(c, RetryOrFail(c, b.(live := b.live - {other}), other, cause, deterministic));
        assert other != id ==>
            SameTask(b, RetryOrFail(c, b.(live := b.live - {other}), other, cause, deterministic), id);
      }
    case Failover(other, known, fallback, outcome) =>
      if other in b.live {
        HasRow(c, b, other);
        FailOverElsewhere(c, b, other, known, fallback, outcome, id);
      }
    case MalformedReview(other) =>
      if Malformed(c, b, other) {
        ReviewElsewhere(b, other, id);
      }
      SettleKeepsCounts(c, Written(c, b, e));
    case RunComplete(other) => SettleKeepsCounts(c, Written(c, b, e));
    case Evaluation => SettleKeepsCounts(c, b);
    case _ =>
  }

  lemma SettleKeepsCounts(c: Config, b: Board)
    requires Distinct(c.order) && Fits(c, b)
    ensures Settle(c, b).retryCount == b.retryCount
  {
  }

  lemma ReviewElsewhere(b: Board, other: TaskId, id: TaskId)
    requires other in b.status && other in b.retryCount && id != other && id in b.retryCount
    ensures id in RetryReview(b, other).retryCount && RetryReview(b, other).retryCount[id] == b.retryCount[id]
  {
  }

  /** Whatever else happens, the retried crashes of a task wait for the entries of the schedule one after the
      other, and from then on for its last one. */
  lemma {:induction false} CrashesFollowSchedule(c: Config, b: Board, es: seq<Event>, id: TaskId, schedule: seq<nat>)
    requires Distinct(c.order) && Fits(c, b) && id in b.retryCount && OnlyCrashesCharge(es, id)
    ensures var delays, now := Delays(c, b, es, id, schedule), Run(c, b, es);
            && id in now.retryCount && now.retryCount[id] >= b.retryCount[id] + |delays|
            && (now.retryCount[id] <= c.maxTaskRetries ==> now.retryCount[id] == b.retryCount[id] + |delays|)
            && forall i :: 0 <= i < |delays| ==> IsDelay(schedule, b.retryCount[id] + i, None, delays[i])
  {
    hide Distinct, Next, Fits;
    if es != [] {
      var front, last := es[..|es| - 1], es[|es| - 1];
      CrashesFollowSchedule(c, b, front, id, schedule);
      ChargedByCrash(c, Run(c, b, front), last, id);
    }
  }

  class TaskStore {
    const config: Config
    var status: Statuses
    var runs: map<TaskId, nat>
    var live: set<TaskId>
    var shipped: set<TaskId>
    var retryCount: map<TaskId, nat>
    var listed: set<TaskId>
    var retryAfter: map<TaskId, Option<int>>

    constructor (config: Config, b: Board, retryAfter: map<TaskId, Option<int>>)
      ensures this.config == config && Tables() == b && this.retryAfter == retryAfter
    {
      this.config := config;
      status, runs, live, shipped, retryCount := b.status, b.runs, b.live, b.shipped, b.retryCount;
      listed := b.listed;
      this.retryAfter := retryAfter;
    }

    function Tables(): Board
      reads this
    {
      Board(status, runs, live, shipped, retryCount, listed)
    }

    method EvaluateTaskDAG()
      requires config.Sane() && Fits(config, Tables())
      modifies this`status
      ensures Tables() == Settle(config, old(Tables()))
    {
      AcyclicSettles(PlanOf(config, Tables()), status);
      var dag := new DAGEvaluator(PlanOf(config, Tables()), status);
      var newlyReady, passes := dag.EvaluateTaskDAG();
      status := dag.statuses;
    }

    /** The writes of a stall, before the graph is evaluated. */
    method WriteRetry(id: TaskId, cause: Cause, deterministic: bool, schedule: seq<nat>, override: Option<nat>,
        nowMs: int)
      requires id in status && id in retryCount
      modifies this
      ensures Tables() == RetryOrFail(config, old(Tables()), id, cause, deterministic)
      ensures RetryTime(config, old(retryAfter), retryAfter, id, old(retryCount)[id], cause, schedule, override, nowMs)
    {
      if cause == Heartbeat {
        status := status[id := Failed];
        return;
      }
      var nextRetryCount := retryCount[id] + 1;
      if nextRetryCount > config.maxTaskRetries {
        retryCount, retryAfter := retryCount[id := nextRetryCount], retryAfter[id := None];
        if !deterministic {
          status := status[id := Failed];
        }
        return;
      }
      var backoffMs := BackoffMs(schedule, nextRetryCount, override);
      retryCount, retryAfter := retryCount[id := nextRetryCount], retryAfter[id := Some(nowMs + backoffMs)];
      status := status[id := Ready];
    }

    /** The run of `id` has just been marked stalled; an unknown task changes nothing. */
    method RetryOrFailStalledTask(id: TaskId, cause: Cause, deterministic: bool, schedule: seq<nat>,
        override: Option<nat>, nowMs: int)
      requires config.Sane() && Fits(config, Tables()) && (id in status ==> id in live)
      modifies this
      ensures Tables() == Next(config, old(Tables()), Stall(id, cause, deterministic))
      ensures id !in old(status) ==> retryAfter == old(retryAfter)
      ensures id in old(status) ==>
              RetryTime(config, old(retryAfter), retryAfter, id, old(retryCount)[id], cause, schedule, override, nowMs)
    {
      hide Settle, Acyclic, Distinct, Fits, RetryOrFail, BackoffMs, Next, RetryTime;
      if id !in status {
        UnknownStall(config, Tables(), id, cause, deterministic);
        return;
      }
      StallWrites(config, Tables(), id, cause, deterministic);
      live := live - {id};
      WriteRetry(id, cause, deterministic, schedule, override, nowMs);
      EvaluateTaskDAG();
    }

    method Freeze(id: TaskId)
      modifies this`live
      ensures live == old(live) - {id}
    {
      live := live - {id};
    }

    /** `dispatch`, up to the point it reaches: nothing is written before the prerequisite check or without a
        runtime agent. */
    method Dispatch(id: TaskId, outcome: DispatchOutcome)
      requires id in status && id in runs
      modifies this
      ensures Tables() == AfterDispatch(old(Tables()), id, outcome, false)
      ensures retryAfter == old(retryAfter)
    {
      if outcome == PrerequisiteBlock {
        status := status[id := Blocked];
        return;
      }
      if outcome in {Unresolvable, OtherError} {
        return;
      }
      runs, shipped := runs[id := runs[id] + 1], shipped - {id};
      status := status[id := Active];
      if outcome == Started {
        live := live + {id};
      }
    }

    /** Provider failover of a live run, or the freeze that replaces it. */
    method FailOverOrFreeze(id: TaskId, known: bool, fallback: bool, outcome: DispatchOutcome)
      requires config.Sane() && Fits(config, Tables()) && id in live
      modifies this
      ensures Tables() == Next(config, old(Tables()), Event.Failover(id, known, fallback, outcome))
      ensures var charged := known && (old(retryCount)[id] + 1 > config.maxTaskRetries || fallback);
              retryAfter == if charged then old(retryAfter)[id := None] else old(retryAfter)
    {
      hide Acyclic, Distinct, AfterDispatch, Fits, Next;
      FailoverWrites(config, Tables(), id, known, fallback, outcome);
      if !known {
        Freeze(id);
        return;
      }
      var nextRetryCount := retryCount[id] + 1;
      if nextRetryCount > config.maxTaskRetries {
        retryCount, retryAfter := retryCount[id := nextRetryCount], retryAfter[id := None];
        Freeze(id);
        return;
      }
      if !fallback {
        Freeze(id);
        return;
      }
      retryCount, retryAfter := retryCount[id := nextRetryCount], retryAfter[id := None];
      Freeze(id);
      Dispatch(id, outcome);
    }

    /** The router's one retry for a review whose verdict it cannot parse; false when the task was charged before. */
    method RetryMalformedReview(id: TaskId) returns (granted: bool)
      requires config.Sane() && Fits(config, Tables()) && id in config.reviews && id in status && runs[id] > 0
              && status[id] != Done
      modifies this
      ensures Tables() == Next(config, old(Tables()), MalformedReview(id))
      ensures granted <==> old(retryCount)[id] == 0
      ensures retryAfter == if granted then old(retryAfter)[id := None] else old(retryAfter)
    {
      hide Acyclic, Distinct, Settle, Fits, Next, RetryReview;
      ReviewWrites(config, Tables(), id);
      if retryCount[id] >= 1 {
        return false;
      }
      live, shipped := live - {id}, shipped - {id};
      retryCount, retryAfter := retryCount[id := retryCount[id] + 1], retryAfter[id := None];
      if status[id] != Ready {
        status := status[id := Ready];
      }
      EvaluateTaskDAG();
      granted := true;
    }

    /** The latest run of `id`, live or not, decides the task's status before the graph is evaluated. */
    method OnRunComplete(id: TaskId)
      requires config.Sane() && Fits(config, Tables()) && id in status && runs[id] > 0
      modifies this
      ensures Tables() == Next(config, old(Tables()), RunComplete(id))
      ensures retryAfter == old(retryAfter)
    {
      if id !in live {
        var nextTaskStatus := if id in shipped then Done else Failed;
        if status[id] != nextTaskStatus {
          status := status[id := nextTaskStatus];
        }
      }
      assert Tables().status == Written(config, old(Tables()), RunComplete(id)).status;
      EvaluateTaskDAG();
    }
  }
}
