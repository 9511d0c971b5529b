/** The polling cycle: agent matching, slots, and the awaits during which
    sessions may end. One step is the code between two awaits. */
module DispatchCycle {
  import opened Options

  type RunId = string
  type AgentId = string

  datatype Agent = Agent(id: AgentId, costTier: int)

  /** A ready task as the cycle meets it: who may run it, and whether something else holds it back. */
  datatype ReadyTask = ReadyTask(
    inBackoff: bool,            // retryAfter lies in the future
    source: Option<AgentId>,    // the agent whose checkpointed run would be resumed
    assignedTo: Option<AgentId>,  // assignedAgentId
    roster: seq<Agent>,         // the agents of the required role, as configured
    complex: bool,              // complexity === 'complex'
    contested: bool)            // isWorktreeContested

  type Sessions = map<RunId, AgentId>

  predicate Busy(active: Sessions, agent: AgentId) {
    agent in active.Values
  }

  predicate Available(active: Sessions, unhealthy: set<AgentId>, agent: AgentId): (r: bool)
    ensures r <==> agent !in unhealthy && forall run <- active :: active[run] != agent
  {
    !Busy(active, agent) && agent !in unhealthy
  }

  // ----- Agent matching -----

  function Candidates(roster: seq<Agent>, active: Sessions, unhealthy: set<AgentId>): (r: seq<Agent>)
    ensures forall a :: a in r <==> a in roster && Available(active, unhealthy, a.id)
  {
    if roster == [] then [] else
      (if Available(active, unhealthy, roster[0].id) then [roster[0]] else [])
          + Candidates(roster[1..], active, unhealthy)
  }

  /** The stable order the candidates are sorted by: dearest first for a complex task, else cheapest first. */
  predicate Preferred(complex: bool, a: Agent, b: Agent) {
    if complex then a.costTier > b.costTier else a.costTier < b.costTier
  }

  /** The head of the candidates after a stable sort by cost tier. */
  function First(candidates: seq<Agent>, complex: bool): (best: Agent)
    requires candidates != []
  {
    if |candidates| == 1 then candidates[0] else
      var best := First(candidates[1..], complex);
      if Preferred(complex, best, candidates[0]) then best else candidates[0]
  }

  /** Nobody is preferred to the head, and it is preferred to all before it in the roster. */
  lemma {:induction false} FirstIsBest(candidates: seq<Agent>, complex: bool) returns (at: nat)
    requires candidates != []
    ensures at < |candidates| && candidates[at] == First(candidates, complex)
    ensures forall j :: 0 <= j < |candidates| ==> !Preferred(complex, candidates[j], First(candidates, complex))
    ensures forall j :: 0 <= j < at ==> Preferred(complex, First(candidates, complex), candidates[j])
  {
    at := 0;
    if |candidates| > 1 {
      var rest := FirstIsBest(candidates[1..], complex);
      var best := First(candidates[1..], complex);
      forall j | 1 <= j < |candidates| ensures candidates[j] == candidates[1..][j - 1] {
      }
      if Preferred(complex, best, candidates[0]) {
        at := rest + 1;
      }
    }
  }

  function MatchAgent(t: ReadyTask, active: Sessions, unhealthy: set<AgentId>): (r: Option<AgentId>)
    ensures r.Some? ==> Available(active, unhealthy, r.value)
  {
    if t.assignedTo.Some? then
      if Available(active, unhealthy, t.assignedTo.value) then t.assignedTo else None
    else
      var candidates := Candidates(t.roster, active, unhealthy);
      if candidates == [] then None else
        FirstIsMember(candidates, t.complex);
        Some(First(candidates, t.complex).id)
  }

  lemma {:induction false} FirstIsMember(candidates: seq<Agent>, complex: bool)
    requires candidates != []
    ensures First(candidates, complex) in candidates
  {
    var at := FirstIsBest(candidates, complex);
  }

  /** The agent at that place of the roster is available, no available one has a better cost tier, and none
      before it has the same: the dearest for a complex task, else the cheapest, the first of equals. */
  ghost predicate BestAvailable(t: ReadyTask, active: Sessions, unhealthy: set<AgentId>, at: nat) {
    && at < |t.roster| && Available(active, unhealthy, t.roster[at].id)
    && forall j :: 0 <= j < |t.roster| && Available(active, unhealthy, t.roster[j].id) ==>
         && (if t.complex then t.roster[j].costTier <= t.roster[at].costTier
             else t.roster[j].costTier >= t.roster[at].costTier)
         && (j < at ==> t.roster[j].costTier != t.roster[at].costTier)
  }

  lemma BestIsLater(t: ReadyTask, active: Sessions, unhealthy: set<AgentId>, at: nat)
    requires t.roster != [] && BestAvailable(t.(roster := t.roster[1..]), active, unhealthy, at)
    requires Available(active, unhealthy, t.roster[0].id) ==> Preferred(t.complex, t.roster[1..][at], t.roster[0])
    ensures BestAvailable(t, active, unhealthy, at + 1)
  {
    hide Available;
    assert forall j :: 1 <= j < |t.roster| ==> t.roster[j] == t.roster[1..][j - 1];
  }

  lemma BestIsHead(t: ReadyTask, active: Sessions, unhealthy: set<AgentId>, at: nat)
    requires t.roster != [] && BestAvailable(t.(roster := t.roster[1..]), active, unhealthy, at)
    requires Available(active, unhealthy, t.roster[0].id) && !Preferred(t.complex, t.roster[1..][at], t.roster[0])
    ensures BestAvailable(t, active, unhealthy, 0)
  {
    hide Available;
    assert forall j :: 1 <= j < |t.roster| ==> t.roster[j] == t.roster[1..][j - 1];
  }

  lemma OnlyHead(t: ReadyTask, active: Sessions, unhealthy: set<AgentId>)
    requires t.roster != [] && Available(active, unhealthy, t.roster[0].id)
    requires Candidates(t.roster[1..], active, unhealthy) == []
    ensures BestAvailable(t, active, unhealthy, 0)
  {
    hide Available;
    var others := Candidates(t.roster[1..], active, unhealthy);
    forall j | 1 <= j < |t.roster| ensures !Available(active, unhealthy, t.roster[j].id) {
      assert t.roster[j] == t.roster[1..][j - 1] && t.roster[j] !in others;
    }
  }

  lemma {:induction false} FirstIsBestAvailable(t: ReadyTask, active: Sessions, unhealthy: set<AgentId>)
      returns (at: nat)
    requires Candidates(t.roster, active, unhealthy) != []
    ensures BestAvailable(t, active, unhealthy, at)
    ensures t.roster[at] == First(Candidates(t.roster, active, unhealthy), t.complex)
    decreases |t.roster|
  {
    NobodyListed(active, unhealthy);
    hide Candidates, Available, BestAvailable, Preferred;
    CandidatesOf(t.roster, active, unhealthy);
    var head, rest := t.roster[0], t.(roster := t.roster[1..]);
    var others := Candidates(rest.roster, active, unhealthy);
    if others == [] {
      OnlyHead(t, active, unhealthy);
      at := 0;
    } else {
      var found := FirstIsBestAvailable(rest, active, unhealthy);
      InRoster(rest, active, unhealthy, found);
      if Available(active, unhealthy, head.id) && !Preferred(t.complex, First(others, t.complex), head) {
        BestIsHead(t, active, unhealthy, found);
        at := 0;
      } else {
        BestIsLater(t, active, unhealthy, found);
        at := found + 1;
      }
    }
  }

  lemma NobodyListed(active: Sessions, unhealthy: set<AgentId>)
    ensures Candidates([], active, unhealthy) == []
  {
  }

  lemma InRoster(t: ReadyTask, active: Sessions, unhealthy: set<AgentId>, at: nat)
    requires BestAvailable(t, active, unhealthy, at)
    ensures at < |t.roster|
  {
  }

  lemma CandidatesOf(roster: seq<Agent>, active: Sessions, unhealthy: set<AgentId>)
    requires roster != []
    ensures var others, all := Candidates(roster[1..], active, unhealthy), Candidates(roster, active, unhealthy);
            && (forall a :: a in others <==> a in roster[1..] && Available(active, unhealthy, a.id))
            && (Available(active, unhealthy, roster[0].id) ==>
                  all == [roster[0]] + others && all[1..] == others && all[0] == roster[0])
            && (!Available(active, unhealthy, roster[0].id) ==> all == others)
  {
  }

  /** An unassigned task gets an available agent of its role exactly when there is one, and then the best. */
  lemma MatchAgentIsBest(t: ReadyTask, active: Sessions, unhealthy: set<AgentId>)
    requires t.assignedTo.None?
    ensures var r := MatchAgent(t, active, unhealthy);
            && (r.None? <==> forall a <- t.roster :: !Available(active, unhealthy, a.id))
            && (r.Some? ==> exists at: nat :: BestAvailable(t, active, unhealthy, at) && t.roster[at].id == r.value)
  {
    var candidates := Candidates(t.roster, active, unhealthy);
    if candidates == [] {
      forall a | a in t.roster ensures !Available(active, unhealthy, a.id) {
        assert a !in candidates;
      }
    } else {
      var at := FirstIsBestAvailable(t, active, unhealthy);
    }
  }

  /** A resumed run goes back to its agent; while that agent is busy the task waits for it, and only an
      unhealthy one is replaced. */
  function MatchAgentForOptions(t: ReadyTask, active: Sessions, unhealthy: set<AgentId>): (r: Option<AgentId>)
    ensures r.Some? ==> Available(active, unhealthy, r.value)
  {
    if t.source.None? then MatchAgent(t, active, unhealthy)
    else if Available(active, unhealthy, t.source.value) then t.source
    else if Busy(active, t.source.value) then None
    else MatchAgent(t, active, unhealthy)
  }

  /** There is no run to resume, or its agent is idle but unhealthy. */
  predicate Fresh(t: ReadyTask, active: Sessions, unhealthy: set<AgentId>) {
    t.source.None? || (t.source.value in unhealthy && forall run <- active :: active[run] != t.source.value)
  }

  /** The task's own agent is not available: the one it is assigned to, or all of its roster. */
  predicate NobodyAvailable(t: ReadyTask, active: Sessions, unhealthy: set<AgentId>) {
    match t.assignedTo
    case Some(a) => !Available(active, unhealthy, a)
    case None => forall a <- t.roster :: !Available(active, unhealthy, a.id)
  }

  /** Nobody may run the task now: the agent of the run to resume is busy, or a fresh start finds nobody. */
  predicate NobodyFor(t: ReadyTask, active: Sessions, unhealthy: set<AgentId>) {
    || (t.source.Some? && exists run <- active :: active[run] == t.source.value)
    || (Fresh(t, active, unhealthy) && NobodyAvailable(t, active, unhealthy))
  }

  /** Who is matched: the agent of the run to resume if it is available; for a fresh start exactly the assigned
      agent, or the best available one of the roster; and somebody unless nobody may run the task. */
  lemma MatchIsExact(t: ReadyTask, active: Sessions, unhealthy: set<AgentId>)
    ensures var r := MatchAgentForOptions(t, active, unhealthy);
            && (r.None? <==> NobodyFor(t, active, unhealthy))
            && (r.Some? && !Fresh(t, active, unhealthy) ==> r == t.source)
            && (r.Some? && Fresh(t, active, unhealthy) && t.assignedTo.Some? ==> r == t.assignedTo)
            && (r.Some? && Fresh(t, active, unhealthy) && t.assignedTo.None? ==>
                  exists at: nat :: BestAvailable(t, active, unhealthy, at) && t.roster[at].id == r.value)
  {
    if t.source.Some? && Busy(active, t.source.value) {
      var run :| run in active && active[run] == t.source.value;
    }
    if t.assignedTo.None? {
      MatchAgentIsBest(t, active, unhealthy);
    }
  }

  // ----- The cycle as steps -----

  datatype Phase =
    | Idle
    | CheckingStalled                                                         // await checkStalled / cleanup
    | Scanning(slots: nat, dispatched: nat, rest: seq<ReadyTask>)
    | Dispatching(slots: nat, dispatched: nat, rest: seq<ReadyTask>, agent: AgentId) // await dispatch

  datatype Scheduler = Scheduler(active: Sessions, cycle: Phase)

  datatype Event =
    | CycleOnce
    | StalledChecked(enabled: bool, ready: seq<ReadyTask>)
    | ScanNext(unhealthy: set<AgentId>)
    | DispatchSettles(run: RunId, ok: bool)
    | SessionsEnd(runs: set<RunId>)

  function Next(max: nat, s: Scheduler, e: Event): Scheduler {
    match e
    case CycleOnce => if s.cycle.Idle? then s.(cycle := CheckingStalled) else s  // joins the cycle in flight
    case StalledChecked(enabled, ready) =>
      if !s.cycle.CheckingStalled? then s
      else if !enabled || |s.active| >= max then s.(cycle := Idle)
      else s.(cycle := Scanning(max - |s.active|, 0, ready))
    case ScanNext(unhealthy) =>
      if !s.cycle.Scanning? then s
      else if s.cycle.rest == [] || s.cycle.dispatched >= s.cycle.slots then s.(cycle := Idle)
      else
        var task, rest := s.cycle.rest[0], s.cycle.rest[1..];
        var agent := MatchAgentForOptions(task, s.active, unhealthy);
        if task.inBackoff || agent.None? || task.contested
            then s.(cycle := Scanning(s.cycle.slots, s.cycle.dispatched, rest))
        else s.(cycle := Dispatching(s.cycle.slots, s.cycle.dispatched, rest, agent.value))
    case DispatchSettles(run, ok) =>
      if !s.cycle.Dispatching? || (ok && run in s.active) then s
      else if ok then
        Scheduler(s.active[run := s.cycle.agent], Scanning(s.cycle.slots, s.cycle.dispatched + 1, s.cycle.rest))
      else s.(cycle := Scanning(s.cycle.slots, s.cycle.dispatched, s.cycle.rest))
    case SessionsEnd(runs) => s.(active := s.active - runs)
  }

  function Run(max: nat, s: Scheduler, es: seq<Event>): Scheduler
    decreases |es|
  {
    if es == [] then s else Next(max, Run(max, s, es[..|es| - 1]), es[|es| - 1])
  }

  ghost predicate OneSessionPerAgent(active: Sessions) {
    forall r, q :: r in active && q in active && r != q ==> active[r] != active[q]
  }

  /** The slots still to be filled fit beside the sessions already active, and the agent being dispatched is idle. */
  ghost predicate Inv(max: nat, s: Scheduler) {
    && |s.active| <= max && OneSessionPerAgent(s.active)
    && (s.cycle.Scanning? || s.cycle.Dispatching? ==>
        s.cycle.dispatched <= s.cycle.slots && |s.active| + s.cycle.slots - s.cycle.dispatched <= max)
    && (s.cycle.Dispatching? ==> s.cycle.dispatched < s.cycle.slots && !Busy(s.active, s.cycle.agent))
  }

  lemma SessionsGone(active: Sessions, runs: set<RunId>)
    ensures |active - runs| <= |active|
    ensures OneSessionPerAgent(active) ==> OneSessionPerAgent(active - runs)
    ensures forall a :: !Busy(active, a) ==> !Busy(active - runs, a)
  {
    var less := active - runs;
    assert active.Keys == less.Keys + (active.Keys - less.Keys);
    assert |active| == |active.Keys| && |less| == |less.Keys|;
    forall a | Busy(less, a) ensures Busy(active, a) {
      var r :| r in less && less[r] == a;
      assert r in active && active[r] == a;
    }
  }

  lemma StartKeepsInv(max: nat, s: Scheduler, run: RunId)
    requires Inv(max, s) && s.cycle.Dispatching? && run !in s.active
    ensures Inv(max, Next(max, s, DispatchSettles(run, true)))
  {
    hide MatchAgentForOptions, Available;
    forall r | r in s.active ensures s.active[r] != s.cycle.agent {
      assert s.active[r] in s.active.Values;
    }
  }

  lemma ScanKeepsInv(max: nat, s: Scheduler, unhealthy: set<AgentId>)
    requires Inv(max, s)
    ensures Inv(max, Next(max, s, ScanNext(unhealthy)))
  {
    hide OneSessionPerAgent;
  }

  lemma NextKeepsInv(max: nat, s: Scheduler, e: Event)
    requires Inv(max, s)
    ensures Inv(max, Next(max, s, e))
  {
    hide MatchAgentForOptions, Available, Busy, OneSessionPerAgent;
    match e
    case SessionsEnd(runs) => SessionsGone(s.active, runs);
    case ScanNext(unhealthy) => ScanKeepsInv(max, s, unhealthy);
    case DispatchSettles(run, ok) =>
      if s.cycle.Dispatching? && ok && run !in s.active {
        StartKeepsInv(max, s, run);
      }
    case _ =>
  }

  /** In every history of polling cycles, with sessions ending between any two awaits, the
      active sessions never exceed `maxConcurrentRuns` and no two of them share an agent. */
  lemma CapacityHolds(max: nat, es: seq<Event>)
    ensures var s := Run(max, Scheduler(map[], Idle), es); |s.active| <= max && OneSessionPerAgent(s.active)
  {
    RunKeepsInv(max, Scheduler(map[], Idle), es);
  }

  // ----- The loop, with its awaits -----

  /** What one await leaves behind: the sessions that ended meanwhile, the agents
      unhealthy just before it, and how the dispatch settled. */
  datatype Await = Await(ended: set<RunId>, unhealthy: set<AgentId>, ok: bool, run: RunId)

  /** The cycle passes over the task. */
  predicate Skipped(t: ReadyTask, active: Sessions, unhealthy: set<AgentId>)
    ensures !Skipped(t, active, unhealthy) ==> MatchAgentForOptions(t, active, unhealthy).Some?
  {
    t.inBackoff || t.contested || MatchAgentForOptions(t, active, unhealthy).None?
  }

  /** The loop over the ready tasks: the final sessions and the number of tasks dispatched. */
  function ScanAll(active: Sessions, slots: nat, dispatched: nat, ready: seq<ReadyTask>, awaits: seq<Await>): (Sessions,
      nat)
    requires |awaits| >= |ready|
    decreases |ready|
  {
    if ready == [] || dispatched >= slots then (active, dispatched)
    else if Skipped(ready[0], active, awaits[0].unhealthy)
        then ScanAll(active, slots, dispatched, ready[1..], awaits[1..])
    else
      var left := active - awaits[0].ended;
      if awaits[0].ok && awaits[0].run !in left then
        ScanAll(left[awaits[0].run := MatchAgentForOptions(ready[0], active, awaits[0].unhealthy).value], slots,
            dispatched + 1, ready[1..], awaits[1..])
      else ScanAll(left, slots, dispatched, ready[1..], awaits[1..])
  }

  function WholeCycle(max: nat, active: Sessions, enabled: bool, ready: seq<ReadyTask>, first: set<RunId>,
      awaits: seq<Await>): (Sessions, nat)
    requires |awaits| >= |ready|
  {
    var left := active - first;
    if !enabled || |left| >= max then (left, 0) else ScanAll(left, max - |left|, 0, ready, awaits)
  }

  lemma {:induction false} RunFromNext(max: nat, s: Scheduler, e: Event, es: seq<Event>)
    ensures Run(max, s, [e] + es) == Run(max, Next(max, s, e), es)
    decreases |es|
  {
    hide Next;
    var longer := [e] + es;
    if es == [] {
      assert longer[..0] == [] && longer[0] == e && |longer| == 1;
    } else {
      RunFromNext(max, s, e, es[..|es| - 1]);
      assert longer[..|longer| - 1] == [e] + es[..|es| - 1] && longer[|longer| - 1] == es[|es| - 1];
    }
  }

  lemma {:induction false} ScanIsARun(max: nat, active: Sessions, slots: nat, dispatched: nat, ready: seq<ReadyTask>,
      awaits: seq<Await>)
    returns (es: seq<Event>)
    requires |awaits| >= |ready|
    ensures Run(max, Scheduler(active, Scanning(slots, dispatched, ready)), es)
         == Scheduler(ScanAll(active, slots, dispatched, ready, awaits).0, Idle)
    decreases |ready|
  {
    hide Run, MatchAgentForOptions;
    var s := Scheduler(active, Scanning(slots, dispatched, ready));
    if ready == [] || dispatched >= slots {
      RunFromNext(max, s, ScanNext({}), []);
      NothingRun(max, s.(cycle := Idle));
      es := [ScanNext({})] + [];
    } else {
      var scan, rest := ScanNext(awaits[0].unhealthy), ready[1..];
      if Skipped(ready[0], active, awaits[0].unhealthy) {
        var tail := ScanIsARun(max, active, slots, dispatched, rest, awaits[1..]);
        RunFromNext(max, s, scan, tail);
        es := [scan] + tail;
      } else {
        var agent := MatchAgentForOptions(ready[0], active, awaits[0].unhealthy).value;
        var left := active - awaits[0].ended;
        var ok := awaits[0].ok && awaits[0].run !in left;
        var tail;
        if ok {
          tail := ScanIsARun(max, left[awaits[0].run := agent], slots, dispatched + 1, rest, awaits[1..]);
        } else {
          tail := ScanIsARun(max, left, slots, dispatched, rest, awaits[1..]);
        }
        var waiting := DispatchRun(max, Scheduler(active, Dispatching(slots, dispatched, rest, agent)), awaits[0],
            tail);
        RunFromNext(max, s, scan, waiting);
        es := [scan] + waiting;
      }
    }
  }

  /** The steps of one dispatch await: sessions end, then the dispatch settles. */
  lemma DispatchRun(max: nat, s: Scheduler, w: Await, tail: seq<Event>) returns (es: seq<Event>)
    requires s.cycle.Dispatching?
    ensures var left := s.active - w.ended;
            Run(max, s, es) ==
            if w.ok && w.run !in left
            then Run(max, Scheduler(left[w.run := s.cycle.agent],
                Scanning(s.cycle.slots, s.cycle.dispatched + 1, s.cycle.rest)), tail)
            else Run(max, Scheduler(left, Scanning(s.cycle.slots, s.cycle.dispatched, s.cycle.rest)), tail)
  {
    hide Run;
    var left, ends := s.active - w.ended, SessionsEnd(w.ended);
    var settles := DispatchSettles(w.run, w.ok && w.run !in left);
    RunFromNext(max, s.(active := left), settles, tail);
    RunFromNext(max, s, ends, [settles] + tail);
    es := [ends] + ([settles] + tail);
  }

  lemma NothingRun(max: nat, s: Scheduler)
    ensures Run(max, s, []) == s
  {
  }

  lemma {:induction false} RunKeepsInv(max: nat, s: Scheduler, es: seq<Event>)
    requires Inv(max, s)
    ensures Inv(max, Run(max, s, es))
  {
    if es != [] {
      RunKeepsInv(max, s, es[..|es| - 1]);
      NextKeepsInv(max, Run(max, s, es[..|es| - 1]), es[|es| - 1]);
    }
  }

  /** The cycle's loop, whatever its awaits bring, is a run of the steps, so it stays within the limits. */
  lemma CycleIsARun(max: nat, active: Sessions, enabled: bool, ready: seq<ReadyTask>, first: set<RunId>,
      awaits: seq<Await>)
    returns (es: seq<Event>)
    requires |awaits| >= |ready|
    ensures var r := WholeCycle(max, active, enabled, ready, first, awaits);
            && Run(max, Scheduler(active, Idle), es) == Scheduler(r.0, Idle)
            && (|active| <= max && OneSessionPerAgent(active) ==> |r.0| <= max && OneSessionPerAgent(r.0))
  {
    hide Run, ScanAll;
    var s, left := Scheduler(active, Idle), active - first;
    var checked := StalledChecked(enabled, ready);
    var tail: seq<Event> := [];
    if enabled && |left| < max {
      tail := ScanIsARun(max, left, max - |left|, 0, ready, awaits);
    } else {
      NothingRun(max, Scheduler(left, Idle));
    }
    RunFromNext(max, Scheduler(left, CheckingStalled), checked, tail);
    RunFromNext(max, Scheduler(active, CheckingStalled), SessionsEnd(first), [checked] + tail);
    RunFromNext(max, s, CycleOnce, [SessionsEnd(first)] + ([checked] + tail));
    es := [CycleOnce] + ([SessionsEnd(first)] + ([checked] + tail));
    if |active| <= max && OneSessionPerAgent(active) {
      RunKeepsInv(max, s, es);
    }
  }

  // ----- Only startable tasks are started -----

  /** Somebody who may run the task, and is healthy. */
  predicate MayRun(t: ReadyTask, unhealthy: set<AgentId>, agent: AgentId) {
    && agent !in unhealthy
    && (t.source == Some(agent) || t.assignedTo == Some(agent)
        || (t.assignedTo.None? && exists a <- t.roster :: a.id == agent))
  }

  /** The loop started the session for one of these tasks, which may be started, with an agent that may run it. */
  ghost predicate StartedFor(ready: seq<ReadyTask>, awaits: seq<Await>, run: RunId, agent: AgentId) {
    exists i :: 0 <= i < |ready| && i < |awaits| && awaits[i].run == run && awaits[i].ok
        && !ready[i].inBackoff && !ready[i].contested && MayRun(ready[i], awaits[i].unhealthy, agent)
  }

  lemma MatchMayRun(t: ReadyTask, active: Sessions, unhealthy: set<AgentId>)
    ensures var r := MatchAgentForOptions(t, active, unhealthy); r.Some? ==> MayRun(t, unhealthy, r.value)
  {
    MatchIsExact(t, active, unhealthy);
    var r := MatchAgentForOptions(t, active, unhealthy);
    if r.Some? && Fresh(t, active, unhealthy) && t.assignedTo.None? {
      var at: nat :| BestAvailable(t, active, unhealthy, at) && t.roster[at].id == r.value;
      assert t.roster[at] in t.roster;
    }
  }

  lemma StartedForLater(ready: seq<ReadyTask>, awaits: seq<Await>, run: RunId, agent: AgentId)
    requires ready != [] && awaits != [] && StartedFor(ready[1..], awaits[1..], run, agent)
    ensures StartedFor(ready, awaits, run, agent)
  {
    var i :| 0 <= i < |ready[1..]| && i < |awaits[1..]| && awaits[1..][i].run == run && awaits[1..][i].ok
        && !ready[1..][i].inBackoff && !ready[1..][i].contested
        && MayRun(ready[1..][i], awaits[1..][i].unhealthy, agent);
    assert ready[i + 1] == ready[1..][i] && awaits[i + 1] == awaits[1..][i];
  }

  /** Every session that the loop adds was started for a task that is neither in backoff nor contested, with an agent
      that may run it; the others were there before. */
  lemma {:induction false} StartsOnlyStartable(active: Sessions, slots: nat, dispatched: nat, ready: seq<ReadyTask>,
      awaits: seq<Await>)
    requires |awaits| >= |ready|
    ensures var final := ScanAll(active, slots, dispatched, ready, awaits).0;
            forall r :: r in final ==> (r in active && final[r] == active[r]) || StartedFor(ready, awaits, r, final[r])
    decreases |ready|
  {
    if ready != [] && dispatched < slots {
      hide MatchAgentForOptions, StartedFor;
      var t, w := ready[0], awaits[0];
      var left, next, n := active, active, dispatched;
      if !Skipped(t, active, w.unhealthy) {
        left := active - w.ended;
        next := left;
        if w.ok && w.run !in left {
          next, n := left[w.run := MatchAgentForOptions(t, active, w.unhealthy).value], dispatched + 1;
          MatchMayRun(t, active, w.unhealthy);
          StartedNow(ready, awaits, next[w.run]);
        }
      }
      StartsOnlyStartable(next, slots, n, ready[1..], awaits[1..]);
      var final := ScanAll(next, slots, n, ready[1..], awaits[1..]).0;
      forall r | r in final
        ensures (r in active && final[r] == active[r]) || StartedFor(ready, awaits, r, final[r])
      {
        if StartedFor(ready[1..], awaits[1..], r, final[r]) {
          StartedForLater(ready, awaits, r, final[r]);
        }
      }
    }
  }

  lemma StartedNow(ready: seq<ReadyTask>, awaits: seq<Await>, agent: AgentId)
    requires ready != [] && awaits != [] && awaits[0].ok
    requires !ready[0].inBackoff && !ready[0].contested && MayRun(ready[0], awaits[0].unhealthy, agent)
    ensures StartedFor(ready, awaits, awaits[0].run, agent)
  {
  }

  // ----- No slot is wasted -----

  /** With more sessions active, only fewer agents match. */
  lemma BusierMatchesNobody(t: ReadyTask, fewer: Sessions, more: Sessions, unhealthy: set<AgentId>)
    requires forall r :: r in fewer ==> r in more && more[r] == fewer[r]
    ensures Skipped(t, fewer, unhealthy) ==> t.inBackoff || t.contested || NobodyFor(t, more, unhealthy)
  {
    MatchIsExact(t, fewer, unhealthy);
    hide MatchAgentForOptions, Busy;
    forall a ensures Available(more, unhealthy, a) ==> Available(fewer, unhealthy, a) {
    }
    if t.source.Some? {
      if r :| r in fewer && fewer[r] == t.source.value {
        assert r in more && more[r] == t.source.value;
      }
    }
  }

  /** The loop has dealt with the task: started it, seen its dispatch fail, must not start it, or nobody could run it
      even now. */
  predicate DealtWith(t: ReadyTask, w: Await, active: Sessions) {
    w.run in active || !w.ok || t.inBackoff || t.contested || NobodyFor(t, active, w.unhealthy)
  }

  /** When no session ends meanwhile, the cycle leaves no slot free beside a task that some available agent could
      run. */
  lemma {:induction false} NoSlotIsWasted(active: Sessions, slots: nat, dispatched: nat, ready: seq<ReadyTask>,
      awaits: seq<Await>)
    requires |awaits| >= |ready| && dispatched <= slots
    requires forall i :: 0 <= i < |ready| ==> awaits[i].ended == {}
    ensures var (final, n) := ScanAll(active, slots, dispatched, ready, awaits);
            && dispatched <= n <= slots && |final| == |active| + n - dispatched
            && (forall r :: r in active ==> r in final && final[r] == active[r])
            && (n < slots ==> forall i :: 0 <= i < |ready| ==> DealtWith(ready[i], awaits[i], final))
    decreases |ready|
  {
    hide MatchAgentForOptions, NobodyFor, Available, Busy;
    if ready != [] && dispatched < slots {
      var t, w := ready[0], awaits[0];
      var final := ScanAll(active, slots, dispatched, ready, awaits).0;
      assert active - w.ended == active;
      if Skipped(t, active, w.unhealthy) {
        NoSlotIsWasted(active, slots, dispatched, ready[1..], awaits[1..]);
        BusierMatchesNobody(t, active, final, w.unhealthy);
      } else if w.ok && w.run !in active {
        NoSlotIsWasted(active[w.run := MatchAgentForOptions(t, active, w.unhealthy).value], slots, dispatched + 1,
            ready[1..], awaits[1..]);
      } else {
        NoSlotIsWasted(active, slots, dispatched, ready[1..], awaits[1..]);
      }
      assert DealtWith(t, w, final) || ScanAll(active, slots, dispatched, ready, awaits).1 == slots;
      forall i | 1 <= i < |ready| ensures ready[i] == ready[1..][i - 1] && awaits[i] == awaits[1..][i - 1] {
      }
    }
  }

  /** One turn of the loop, read off the list's tail. */
  lemma ScanOne(active: Sessions, slots: nat, dispatched: nat, ready: seq<ReadyTask>, awaits: seq<Await>, i: nat)
    requires |awaits| >= |ready| && i < |ready| && dispatched < slots
    ensures var t, w := ready[i], awaits[i];
            ScanAll(active, slots, dispatched, ready[i..], awaits[i..]) ==
            if Skipped(t, active, w.unhealthy) then ScanAll(active, slots, dispatched, ready[i + 1..], awaits[i + 1..])
            else
              var left := active - w.ended;
              if w.ok && w.run !in left then
                ScanAll(left[w.run := MatchAgentForOptions(t, active, w.unhealthy).value], slots, dispatched + 1,
                    ready[i + 1..], awaits[i + 1..])
              else ScanAll(left, slots, dispatched, ready[i + 1..], awaits[i + 1..])
  {
    hide MatchAgentForOptions;
    assert ready[i..][1..] == ready[i + 1..] && awaits[i..][1..] == awaits[i + 1..];
  }

  lemma ScanOver(active: Sessions, slots: nat, dispatched: nat, ready: seq<ReadyTask>, awaits: seq<Await>)
    requires |awaits| >= |ready| && (ready == [] || dispatched >= slots)
    ensures ScanAll(active, slots, dispatched, ready, awaits) == (active, dispatched)
  {
  }

  lemma CycleOpens(max: nat, active: Sessions, enabled: bool, ready: seq<ReadyTask>, first: set<RunId>,
      awaits: seq<Await>)
    requires |awaits| >= |ready|
    ensures var left := active - first;
            WholeCycle(max, active, enabled, ready, first, awaits) ==
            if !enabled || |left| >= max then (left, 0) else ScanAll(left, max - |left|, 0, ready[0..], awaits[0..])
  {
    assert ready[0..] == ready && awaits[0..] == awaits;
  }

  ghost predicate OnlyStartable(left: Sessions, ready: seq<ReadyTask>, awaits: seq<Await>, after: Sessions) {
    forall r :: r in after ==> (r in left && after[r] == left[r]) || StartedFor(ready, awaits, r, after[r])
  }

  ghost predicate AllDealtWith(ready: seq<ReadyTask>, awaits: seq<Await>, after: Sessions)
    requires |awaits| >= |ready|
  {
    forall i :: 0 <= i < |ready| ==> DealtWith(ready[i], awaits[i], after)
  }

  predicate NoneEnds(ready: seq<ReadyTask>, awaits: seq<Await>)
    requires |awaits| >= |ready|
  {
    forall i :: 0 <= i < |ready| ==> awaits[i].ended == {}
  }

  /** What a cycle does that begins with the sessions `left`: nothing while disabled or full; else it starts only
      startable tasks, and when no session ends meanwhile, it fills every slot or has dealt with every task. */
  ghost predicate FillsSlots(max: nat, left: Sessions, enabled: bool, ready: seq<ReadyTask>, awaits: seq<Await>,
      after: Sessions, dispatched: nat)
    requires |awaits| >= |ready|
  {
    && (!enabled || |left| >= max ==> after == left && dispatched == 0)
    && OnlyStartable(left, ready, awaits, after)
    && (enabled && |left| < max && NoneEnds(ready, awaits) ==>
          |after| == |left| + dispatched <= max && (|after| < max ==> AllDealtWith(ready, awaits, after)))
  }

  lemma CycleFillsSlots(max: nat, active: Sessions, enabled: bool, ready: seq<ReadyTask>, first: set<RunId>,
      awaits: seq<Await>)
    requires |awaits| >= |ready|
    ensures var r := WholeCycle(max, active, enabled, ready, first, awaits);
            FillsSlots(max, active - first, enabled, ready, awaits, r.0, r.1)
  {
    hide ScanAll, OnlyStartable, AllDealtWith, NoneEnds;
    var left := active - first;
    NothingStarted(left, ready, awaits);
    if enabled && |left| < max {
      ScanFills(left, max - |left|, ready, awaits);
    }
  }

  lemma NothingStarted(left: Sessions, ready: seq<ReadyTask>, awaits: seq<Await>)
    ensures OnlyStartable(left, ready, awaits, left)
  {
  }

  lemma ScanFills(left: Sessions, slots: nat, ready: seq<ReadyTask>, awaits: seq<Await>)
    requires |awaits| >= |ready|
    ensures var r := ScanAll(left, slots, 0, ready, awaits);
            && OnlyStartable(left, ready, awaits, r.0)
            && (NoneEnds(ready, awaits) ==>
                  |r.0| == |left| + r.1 && r.1 <= slots && (r.1 < slots ==> AllDealtWith(ready, awaits, r.0)))
  {
    hide ScanAll, StartedFor, DealtWith;
    StartsOnlyStartable(left, slots, 0, ready, awaits);
    if NoneEnds(ready, awaits) {
      NoSlotIsWasted(left, slots, 0, ready, awaits);
    }
  }

  class CycleRunner {
    const maxConcurrentRuns: nat
    var activeSessions: Sessions

    constructor (max: nat)
      ensures maxConcurrentRuns == max && activeSessions == map[]
    {
      maxConcurrentRuns := max;
      activeSessions := map[];
    }

    method Cycle(enabled: bool, ready: seq<ReadyTask>, first: set<RunId>, awaits: seq<Await>) returns (dispatched: nat)
      requires |awaits| >= |ready|
      modifies this
      ensures (activeSessions, dispatched) == WholeCycle(maxConcurrentRuns, old(activeSessions), enabled, ready, first,
              awaits)
      ensures FillsSlots(maxConcurrentRuns, old(activeSessions) - first, enabled, ready, awaits, activeSessions,
              dispatched)
    {
      hide MatchAgentForOptions, ScanAll, Skipped, WholeCycle, FillsSlots;
      CycleFillsSlots(maxConcurrentRuns, activeSessions, enabled, ready, first, awaits);
      CycleOpens(maxConcurrentRuns, activeSessions, enabled, ready, first, awaits);
      dispatched := 0;
      activeSessions := activeSessions - first;
      if !enabled || |activeSessions| >= maxConcurrentRuns {
        return;
      }
      var slotsAvailable := maxConcurrentRuns - |activeSessions|;
      ghost var goal := ScanAll(activeSessions, slotsAvailable, 0, ready[0..], awaits[0..]);
      var i := 0;
      while i < |ready| && dispatched < slotsAvailable
        invariant i <= |ready|
        invariant goal == ScanAll(activeSessions, slotsAvailable, dispatched, ready[i..], awaits[i..])
      {
        var task, await := ready[i], awaits[i];
        ScanOne(activeSessions, slotsAvailable, dispatched, ready, awaits, i);
        i := i + 1;
        if !Skipped(task, activeSessions, await.unhealthy) {
          var agent := MatchAgentForOptions(task, activeSessions, await.unhealthy).value;
          activeSessions := activeSessions - await.ended;
          if await.ok && await.run !in activeSessions {
            activeSessions := activeSessions[await.run := agent];
            dispatched := dispatched + 1;
          }
        }
      }
      ScanOver(activeSessions, slotsAvailable, dispatched, ready[i..], awaits[i..]);
    }
  }
}
