/** When the fixpoint loop of `evaluateTaskDAG` ends: exactly on the graphs without
    a chordless ring of three or more tasks. */
module TaskDagTermination {
  import opened Sequences
  import opened TaskGraphs
  import opened TaskDag

  /** The position after `i` on a ring of `n`. */
  function After(i: nat, n: nat): nat {
    if i + 1 < n then i + 1 else 0
  }

  /** At least three tasks, each depending on the next, the last on the first, and
      none on any other of them or on itself. */
  predicate IsChordlessRing(deps: Dependencies, nodes: set<TaskId>, ring: seq<TaskId>) {
    && |ring| >= 3 && Distinct(ring) && Elements(ring) <= nodes
    && forall i, j :: 0 <= i < |ring| && 0 <= j < |ring| ==>
         (ring[j] in DependenciesOf(deps, ring[i]) <==> j == After(i, |ring|))
  }

  ghost predicate HasChordlessRing(deps: Dependencies, nodes: set<TaskId>) {
    exists ring :: IsChordlessRing(deps, nodes, ring)
  }

  /** Whatever the scan order, the statuses, the blind reviews and the run records, the loop ends. */
  ghost predicate AlwaysSettles(deps: Dependencies, nodes: set<TaskId>) {
    forall p: Plan, st: Statuses {:trigger Settles(p, st)} ::
      p.deps == deps && p.Nodes() == nodes && p.Fits(st) ==> Settles(p, st)
  }

  // ----- A chordless ring can turn for ever -----

  /** The tasks of the ring are blocked or failed, all others are done. */
  ghost predicate OnTheRing(ring: seq<TaskId>, st: Statuses) {
    && (forall id :: id in st && id !in ring ==> st[id] == Done)
    && (forall i :: 0 <= i < |ring| ==> ring[i] in st && st[ring[i]] in {Blocked, Failed})
  }

  ghost predicate RingPlan(p: Plan, ring: seq<TaskId>) {
    && IsChordlessRing(p.deps, p.Nodes(), ring) && p.blind == {} && p.ran == {}
    && Distinct(p.order) && ring <= p.order
  }

  /** The statuses around the ring. */
  ghost function Around(ring: seq<TaskId>, st: Statuses): (r: seq<TaskStatus>)
    requires OnTheRing(ring, st)
    ensures |r| == |ring| && forall i :: 0 <= i < |ring| ==> r[i] == st[ring[i]]
  {
    seq(|ring|, i requires 0 <= i < |ring| => st[ring[i]])
  }

  /** On a chordless ring only the next task counts: all other dependencies are done, or not tasks of the spec. */
  lemma OnlyNextFails(p: Plan, ring: seq<TaskId>, st: Statuses, i: nat, d: TaskId)
    requires RingPlan(p, ring) && OnTheRing(ring, st) && i < |ring| && d in p.DependenciesFor(ring[i])
    ensures Has(st, d, Failed) ==> d == ring[After(i, |ring|)]
  {
    if d in ring {
      var j :| 0 <= j < |ring| && ring[j] == d;
    }
  }

  /** The turn of a task on the ring copies the status of the task it depends on. */
  lemma StepCopies(p: Plan, ring: seq<TaskId>, st: Statuses, i: nat)
    requires RingPlan(p, ring) && OnTheRing(ring, st) && i < |ring|
    ensures Step(p, st, ring[i]) == st[ring[i] := st[ring[After(i, |ring|)]]]
  {
    var id, next := ring[i], ring[After(i, |ring|)];
    var ds := p.DependenciesFor(id);
    assert next in ds && next in st;
    hide IsChordlessRing, Distinct;
    forall d | d in ds ensures Has(st, d, Failed) ==> d == next {
      OnlyNextFails(p, ring, st, i, d);
    }
    assert !Has(st, next, Done);
  }

  lemma StepAround(p: Plan, ring: seq<TaskId>, st: Statuses, i: nat)
    requires RingPlan(p, ring) && OnTheRing(ring, st) && i < |ring|
    ensures var v, st' := Around(ring, st), Step(p, st, ring[i]);
            OnTheRing(ring, st') && Around(ring, st') == v[i := v[After(i, |ring|)]]
  {
    hide Step;
    StepCopies(p, ring, st, i);
  }

  /** The first `i` tasks of the ring have taken over the status of the task after them. */
  ghost predicate Shifted(ring: seq<TaskId>, st: Statuses, st': Statuses, i: nat) {
    && OnTheRing(ring, st) && OnTheRing(ring, st') && i < |ring|
    && var v := Around(ring, st); Around(ring, st') == v[1..i + 1] + v[i..]
  }

  /** All tasks of the ring have, and the last one has taken over the new status of the first. */
  ghost predicate Rotated(ring: seq<TaskId>, st: Statuses, st': Statuses) {
    && OnTheRing(ring, st) && OnTheRing(ring, st') && |ring| >= 3
    && var v := Around(ring, st); Around(ring, st') == v[1..] + [v[1]]
  }

  lemma NotShifted(ring: seq<TaskId>, st: Statuses)
    requires OnTheRing(ring, st) && ring != []
    ensures Shifted(ring, st, st, 0)
  {
    var v := Around(ring, st);
    assert v[1..1] + v[0..] == v;
  }

  lemma ShiftOne(p: Plan, ring: seq<TaskId>, st: Statuses, st': Statuses, i: nat)
    requires RingPlan(p, ring) && Shifted(ring, st, st', i)
    ensures i + 1 < |ring| ==> Shifted(ring, st, Step(p, st', ring[i]), i + 1)
    ensures i + 1 == |ring| ==> Rotated(ring, st, Step(p, st', ring[i]))
  {
    hide Step, OnTheRing, RingPlan, Around;
    RingFirst(p, ring);
    StepAround(p, ring, st', i);
    ShiftedStatuses(Around(ring, st), Around(ring, st'), i);
  }

  lemma RingFirst(p: Plan, ring: seq<TaskId>)
    requires RingPlan(p, ring)
    ensures |ring| >= 3
  {
  }

  lemma ShiftedStatuses(v: seq<TaskStatus>, w: seq<TaskStatus>, i: nat)
    requires 3 <= |v| && i < |v| && w == v[1..i + 1] + v[i..]
    ensures |w| == |v| && w[i := w[After(i, |w|)]] == if i + 1 < |v| then v[1..i + 2] + v[i + 1..] else v[1..] + [v[1]]
  {
  }

  lemma {:induction false} SweepShifts(p: Plan, ring: seq<TaskId>, st: Statuses, i: nat)
    requires p.Fits(st) && RingPlan(p, ring) && OnTheRing(ring, st) && i < |ring|
    ensures Shifted(ring, st, Sweep(p, st, i), i)
  {
    hide Step, OnTheRing, Distinct, Shifted, IsChordlessRing;
    SweepNext(p, st, 0);
    if i == 0 {
      NotShifted(ring, st);
    } else {
      SweepShifts(p, ring, st, i - 1);
      SweepNext(p, st, i - 1);
      ShiftOne(p, ring, st, Sweep(p, st, i - 1), i - 1);
    }
  }

  /** The turns of the ring rotate it by one task. */
  lemma RingRotates(p: Plan, ring: seq<TaskId>, st: Statuses, k: nat)
    requires p.Fits(st) && RingPlan(p, ring) && OnTheRing(ring, st) && k + 1 == |ring|
    ensures Rotated(ring, st, Sweep(p, st, |ring|))
  {
    hide Step, OnTheRing, Distinct, Shifted, IsChordlessRing, Rotated, Sweep;
    SweepShifts(p, ring, st, k);
    SweepNext(p, st, k);
    ShiftOne(p, ring, st, Sweep(p, st, k), k);
  }

  lemma OthersAreDone(p: Plan, ring: seq<TaskId>, st: Statuses, i: nat)
    requires RingPlan(p, ring) && OnTheRing(ring, st) && |ring| <= i < |p.order| && p.order[i] in st
    ensures Step(p, st, p.order[i]) == st
  {
    forall k | 0 <= k < |ring| ensures ring[k] != p.order[i] {
      assert p.order[k] == ring[k];
    }
  }

  lemma {:induction false} RestStands(p: Plan, ring: seq<TaskId>, st: Statuses, i: nat)
    requires p.Fits(st) && RingPlan(p, ring) && |ring| <= i <= |p.order|
    requires OnTheRing(ring, Sweep(p, st, |ring|))
    ensures Sweep(p, st, i) == Sweep(p, st, |ring|)
  {
    hide OnTheRing, RingPlan, Step, Distinct;
    if i > |ring| {
      RestStands(p, ring, st, i - 1);
      SweepNext(p, st, i - 1);
      OthersAreDone(p, ring, Sweep(p, st, i - 1), i - 1);
    }
  }

  /** Both statuses are on the ring, and its first and last task agree. */
  ghost predicate Mixed(v: seq<TaskStatus>) {
    && |v| >= 3 && v[0] == v[|v| - 1]
    && exists i, j :: 0 <= i < |v| && 0 <= j < |v| && v[i] != v[j]
  }

  ghost predicate Circulates(ring: seq<TaskId>, st: Statuses) {
    OnTheRing(ring, st) && Mixed(Around(ring, st))
  }

  lemma RotatingKeepsMixed(ring: seq<TaskId>, st: Statuses, st': Statuses)
    requires Rotated(ring, st, st') && Circulates(ring, st)
    ensures Circulates(ring, st')
  {
    var v, w := Around(ring, st), Around(ring, st');
    hide OnTheRing;
    var n := |v|;
    var i, j :| 0 <= i < n && 0 <= j < n && v[i] != v[j];
    var i', j' := if i == 0 then n - 2 else i - 1, if j == 0 then n - 2 else j - 1;
    assert w[i'] == v[i] && w[j'] == v[j];
  }

  /** One pass keeps both statuses on the ring. */
  lemma PassRotates(p: Plan, ring: seq<TaskId>, st: Statuses)
    requires p.Fits(st) && RingPlan(p, ring) && Circulates(ring, st)
    ensures Circulates(ring, Sweep(p, st, |p.order|))
  {
    assert 3 <= |ring| <= |p.order|;
    hide Mixed, RingPlan, Distinct, Sweep, Rotated;
    RingRotates(p, ring, st, |ring| - 1);
    RotatingKeepsMixed(ring, st, Sweep(p, st, |ring|));
    RestStands(p, ring, st, |p.order|);
  }

  /** Somewhere on the ring a task differs from the one it depends on. */
  lemma CirculatingIsNotSettled(p: Plan, ring: seq<TaskId>, st: Statuses)
    requires p.Fits(st) && RingPlan(p, ring) && Circulates(ring, st)
    ensures !Settled(p, st)
  {
    var v := Around(ring, st);
    if i :| 0 <= i < |ring| - 1 && v[i] != v[i + 1] {
      StepCopies(p, ring, st, i);
      assert ring[i] in Elements(ring);
      assert !Stable(p, st, ring[i]);
    } else {
      var i, j :| 0 <= i < |ring| && 0 <= j < |ring| && v[i] != v[j];
      AllAlike(v, i);
      AllAlike(v, j);
    }
  }

  lemma {:induction false} AllAlike(v: seq<TaskStatus>, i: nat)
    requires i < |v| && forall k :: 0 <= k < |v| - 1 ==> v[k] == v[k + 1]
    ensures v[i] == v[0]
  {
    if i > 0 {
      AllAlike(v, i - 1);
    }
  }

  lemma {:induction false} RingTurnsForEver(p: Plan, ring: seq<TaskId>, st: Statuses, k: nat)
    requires p.Fits(st) && RingPlan(p, ring) && Circulates(ring, st)
    ensures Circulates(ring, Passes(p, st, k)) && !Settled(p, Passes(p, st, k))
  {
    hide Circulates, RingPlan, Sweep, Settled;
    if k == 0 {
      CirculatingIsNotSettled(p, ring, st);
    } else {
      RingTurnsForEver(p, ring, st, k - 1);
      PassRotates(p, ring, Passes(p, st, k - 1));
      CirculatingIsNotSettled(p, ring, Passes(p, st, k));
    }
  }

  lemma {:induction false} Listing(s: set<TaskId>) returns (xs: seq<TaskId>)
    ensures Distinct(xs) && Elements(xs) == s
    decreases s
  {
    if s == {} {
      xs := [];
    } else {
      var x :| x in s;
      var rest := Listing(s - {x});
      xs := rest + [x];
      assert x !in Elements(rest);
      ElementsExtend(rest, x);
    }
  }

  /** A scan order and a starting table on which the loop never ends. */
  lemma RingNeverEnds(deps: Dependencies, nodes: set<TaskId>, ring: seq<TaskId>) returns (p: Plan, st: Statuses)
    requires IsChordlessRing(deps, nodes, ring)
    ensures p.deps == deps && p.Nodes() == nodes && p.Fits(st) && !Settles(p, st)
  {
    var rest := Listing(nodes - Elements(ring));
    p := Plan(ring + rest, deps, {}, {});
    forall id | id in rest ensures id !in ring {
      assert id in Elements(rest);
    }
    DistinctAppend(ring, rest);
    assert p.Nodes() == Elements(ring) + Elements(rest);
    st := map id | id in nodes ::
      if id == ring[0] || id == ring[|ring| - 1] then Failed else if id in ring then Blocked else Done;
    assert ring[0] in Elements(ring) && ring[1] in Elements(ring) && ring[|ring| - 1] in Elements(ring);
    forall i | 0 <= i < |ring| ensures ring[i] in st {
      assert ring[i] in Elements(ring);
    }
    var v := Around(ring, st);
    assert v[0] == Failed && v[1] == Blocked;
    assert Circulates(ring, st);
    forall k: nat ensures !Settled(p, Passes(p, st, k)) {
      RingTurnsForEver(p, ring, st, k);
    }
  }

  // ----- Every run comes back to a table it has seen -----

  const STATUSES: set<TaskStatus> := {Pending, Ready, Active, Done, Failed, Blocked}

  ghost function AllTables(ids: seq<TaskId>): set<Statuses> {
    if ids == [] then {map[]} else Extended(AllTables(ids[1..]), ids[0])
  }

  ghost function Extended(tables: set<Statuses>, id: TaskId): set<Statuses> {
    set st, status | st in tables && status in STATUSES :: st[id := status]
  }

  lemma InExtended(tables: set<Statuses>, id: TaskId, st: Statuses)
    requires id in st && st - {id} in tables
    ensures st in Extended(tables, id)
  {
    var rest := st - {id};
    var again := rest[id := st[id]];
    assert again.Keys == st.Keys;
    assert again == st;
    match st[id] {
      case Pending | Ready | Active | Done | Failed | Blocked => assert st[id] in STATUSES;
    }
  }

  lemma {:induction false} EveryTableIsListed(ids: seq<TaskId>, st: Statuses)
    requires Distinct(ids) && st.Keys == Elements(ids)
    ensures st in AllTables(ids)
  {
    if ids == [] {
      assert st.Keys == {};
      assert st == map[];
    } else {
      hide Extended;
      var id, rest := ids[0], st - {ids[0]};
      assert ids == [id] + ids[1..];
      assert id in Elements(ids) && id !in ids[1..];
      assert rest.Keys == Elements(ids[1..]);
      EveryTableIsListed(ids[1..], rest);
      InExtended(AllTables(ids[1..]), id, st);
    }
  }

  /** The first `k` tables of a run. */
  ghost function Trail(p: Plan, st: Statuses, k: nat): (r: seq<Statuses>)
    requires p.Fits(st)
    ensures |r| == k && forall i :: 0 <= i < k ==> r[i] == Passes(p, st, i)
  {
    if k == 0 then [] else Trail(p, st, k - 1) + [Passes(p, st, k - 1)]
  }

  /** Tables are finitely many, so some pass meets an earlier table again. */
  lemma SomeTableRecurs(p: Plan, st: Statuses) returns (i: nat, j: nat)
    requires p.Fits(st)
    ensures i < j && Passes(p, st, i) == Passes(p, st, j)
  {
    var all := AllTables(p.order);
    var trail := Trail(p, st, |all| + 1);
    forall s | s in Elements(trail) ensures s in all {
      EveryTableIsListed(p.order, s);
    }
    SubsetCount(Elements(trail), all);
    if Distinct(trail) {
      DistinctCount(trail);
    }
    i, j :| 0 <= i < j < |trail| && trail[i] == trail[j];
  }

  lemma {:induction false} PassesAdd(p: Plan, st: Statuses, i: nat, k: nat)
    requires p.Fits(st)
    ensures Passes(p, Passes(p, st, i), k) == Passes(p, st, i + k)
  {
    hide Sweep, Distinct;
    if k > 0 {
      PassesAdd(p, st, i, k - 1);
    }
  }

  // ----- Turn by turn -----

  /** The position in the scan order of the task whose turn is number `t`. */
  function Position(p: Plan, t: nat): (i: nat)
    requires p.order != []
    ensures i < |p.order|
  {
    if t == 0 then 0 else After(Position(p, t - 1), |p.order|)
  }

  function At(p: Plan, t: nat): TaskId
    requires p.order != []
  {
    p.order[Position(p, t)]
  }

  /** The table after `t` turns, one task at a time. */
  ghost function Turn(p: Plan, st: Statuses, t: nat): (st': Statuses)
    requires p.Fits(st) && p.order != []
    ensures st'.Keys == st.Keys
  {
    if t == 0 then st else
      assert At(p, t - 1) in p.Nodes();
      Step(p, Turn(p, st, t - 1), At(p, t - 1))
  }

  lemma NextTurn(p: Plan, st: Statuses, t: nat)
    requires p.Fits(st) && p.order != []
    ensures At(p, t) in Turn(p, st, t) && Turn(p, st, t + 1) == Step(p, Turn(p, st, t), At(p, t))
    ensures Position(p, t + 1) == After(Position(p, t), |p.order|)
  {
    assert At(p, t) in p.Nodes();
  }

  lemma {:induction false} TurnsSweep(p: Plan, st: Statuses, t: nat, from: Statuses, i: nat)
    requires p.Fits(st) && p.Fits(from) && p.order != [] && i <= |p.order|
    requires Position(p, t) == 0 && Turn(p, st, t) == from
    ensures Turn(p, st, t + i) == Sweep(p, from, i)
    ensures Position(p, t + i) == if i < |p.order| then i else 0
  {
    hide Step, Distinct, Turn, Sweep, Position;
    SweepNext(p, from, 0);
    if i > 0 {
      TurnsSweep(p, st, t, from, i - 1);
      NextTurn(p, st, t + (i - 1));
      SweepNext(p, from, i - 1);
    }
  }

  /** The turn at which pass `k` begins. */
  lemma {:induction false} PassBegins(p: Plan, st: Statuses, k: nat) returns (t: nat)
    requires p.Fits(st) && p.order != []
    ensures t >= k && Position(p, t) == 0 && Turn(p, st, t) == Passes(p, st, k)
  {
    t := 0;
    if k > 0 {
      hide Step, Distinct, Turn, Sweep, Position;
      t := PassBegins(p, st, k - 1);
      TurnsSweep(p, st, t, Passes(p, st, k - 1), |p.order|);
      t := t + |p.order|;
    }
  }

  /** After `m` turns the run is back where it started. */
  ghost predicate Periodic(p: Plan, st: Statuses, m: nat) {
    p.Fits(st) && p.order != [] && m > 0 && Position(p, m) == 0 && Turn(p, st, m) == st
  }

  lemma {:induction false} OnePeriodOn(p: Plan, st: Statuses, m: nat, t: nat)
    requires Periodic(p, st, m)
    ensures Position(p, t + m) == Position(p, t) && Turn(p, st, t + m) == Turn(p, st, t)
  {
    hide Step, Distinct;
    if t > 0 {
      OnePeriodOn(p, st, m, t - 1);
      NextTurn(p, st, t - 1);
      NextTurn(p, st, t - 1 + m);
    }
  }

  /** Every table of a recurring run comes again later than any given turn. */
  lemma {:induction false} ComesAgain(p: Plan, st: Statuses, m: nat, t: nat, u: nat) returns (w: nat)
    requires Periodic(p, st, m)
    ensures w >= u && Turn(p, st, w) == Turn(p, st, t)
    decreases u - t
  {
    if t >= u {
      w := t;
    } else {
      hide Periodic, Turn, Position;
      PeriodIsPositive(p, st, m);
      OnePeriodOn(p, st, m, t);
      w := ComesAgain(p, st, m, t + m, u);
    }
  }

  lemma PeriodIsPositive(p: Plan, st: Statuses, m: nat)
    requires Periodic(p, st, m)
    ensures m > 0 && p.Fits(st) && p.order != []
  {
  }

  /** Statuses that the task, once it has one of them, never leaves. */
  ghost predicate Trapped(p: Plan, st: Statuses, id: TaskId, q: set<TaskStatus>)
    requires p.Fits(st) && p.order != [] && id in st
  {
    forall t: nat :: StaysAt(p, st, id, q, t)
  }

  ghost predicate StaysAt(p: Plan, st: Statuses, id: TaskId, q: set<TaskStatus>, t: nat)
    requires p.Fits(st) && p.order != [] && id in st
  {
    Turn(p, st, t)[id] in q ==> Turn(p, st, t + 1)[id] in q
  }

  lemma TrappedOnce(p: Plan, st: Statuses, id: TaskId, q: set<TaskStatus>, t: nat)
    requires p.Fits(st) && p.order != [] && id in st && Trapped(p, st, id, q) && Turn(p, st, t)[id] in q
    ensures Turn(p, st, t + 1)[id] in q
  {
    assert StaysAt(p, st, id, q, t);
  }

  lemma {:induction false} TrappedLater(p: Plan, st: Statuses, id: TaskId, q: set<TaskStatus>, t: nat, u: nat)
    requires p.Fits(st) && p.order != [] && id in st && Trapped(p, st, id, q) && Turn(p, st, t)[id] in q && t <= u
    ensures Turn(p, st, u)[id] in q
    decreases u - t
  {
    hide Turn, Distinct, Trapped;
    if t < u {
      TrappedOnce(p, st, id, q, t);
      TrappedLater(p, st, id, q, t + 1, u);
    }
  }

  /** On a run that recurs, a trap that ever closes was always closed. */
  lemma TrappedAlways(p: Plan, st: Statuses, m: nat, id: TaskId, q: set<TaskStatus>, t: nat, u: nat)
    requires Periodic(p, st, m) && id in st && Trapped(p, st, id, q) && Turn(p, st, t)[id] in q
    ensures Turn(p, st, u)[id] in q
  {
    hide Turn, Trapped;
    var w := ComesAgain(p, st, m, u, t);
    TrappedLater(p, st, id, q, t, w);
  }

  // ----- The tasks that keep changing -----

  ghost predicate MovesAt(p: Plan, st: Statuses, id: TaskId, t: nat)
    requires p.Fits(st) && p.order != []
  {
    id in st && Turn(p, st, t)[id] != Turn(p, st, t + 1)[id]
  }

  ghost predicate Moves(p: Plan, st: Statuses, id: TaskId)
    requires p.Fits(st) && p.order != []
  {
    exists t: nat :: MovesAt(p, st, id, t)
  }

  ghost predicate SomeFailed(p: Plan, st: Statuses, id: TaskId) {
    exists d <- p.DependenciesFor(id) :: Has(st, d, Failed)
  }

  /** What a single step says about any one task. */
  lemma StepChanges(p: Plan, st: Statuses, x: TaskId, id: TaskId)
    requires x in st && id in st
    ensures var was, now := st[id], Step(p, st, x)[id];
            && (was != now ==> x == id && was in {Pending, Blocked, Failed} && now in {Ready, Blocked, Failed})
            && (was == Failed && now != Failed ==> id !in p.ran && !SomeFailed(p, st, id))
            && (was != Failed && now == Failed ==> SomeFailed(p, st, id) && id !in p.blind)
            && (was == Blocked && x == id && id !in p.blind && SomeFailed(p, st, id) ==> now == Failed)
  {
  }

  lemma {:induction false} Standing(p: Plan, st: Statuses, id: TaskId, t: nat)
    requires p.Fits(st) && p.order != [] && id in st && !Moves(p, st, id)
    ensures Turn(p, st, t)[id] == st[id]
  {
    hide Step, Distinct;
    if t > 0 {
      Standing(p, st, id, t - 1);
      assert !MovesAt(p, st, id, t - 1);
    }
  }

  lemma TurnChanges(p: Plan, st: Statuses, t: nat, id: TaskId)
    requires p.Fits(st) && p.order != [] && id in st
    ensures var before := Turn(p, st, t); var was, now := before[id], Turn(p, st, t + 1)[id];
            && (was != now ==> At(p, t) == id && was in {Pending, Blocked, Failed} && now in {Ready, Blocked, Failed})
            && (was == Failed && now != Failed ==> id !in p.ran && !SomeFailed(p, before, id))
            && (was != Failed && now == Failed ==> SomeFailed(p, before, id) && id !in p.blind)
            && (was == Blocked && At(p, t) == id && id !in p.blind && SomeFailed(p, before, id) ==> now == Failed)
  {
    hide Step, SomeFailed, Turn, Position;
    NextTurn(p, st, t);
    StepChanges(p, Turn(p, st, t), At(p, t), id);
  }

  const STICKY: set<TaskStatus> := {Ready, Active, Done}

  const SEEN: set<TaskStatus> := {Ready, Active, Done, Blocked, Failed}

  lemma StickyAndSeenAreTraps(p: Plan, st: Statuses, id: TaskId)
    requires p.Fits(st) && p.order != [] && id in st
    ensures Trapped(p, st, id, STICKY) && Trapped(p, st, id, SEEN)
  {
    hide Turn, SomeFailed, Distinct;
    forall v: nat ensures StaysAt(p, st, id, STICKY, v) && StaysAt(p, st, id, SEEN, v) {
      TurnChanges(p, st, v, id);
    }
  }

  lemma SomeMove(p: Plan, st: Statuses, id: TaskId) returns (t: nat, u: nat)
    requires p.Fits(st) && p.order != [] && id in st && Moves(p, st, id)
    ensures Turn(p, st, t)[id] != Turn(p, st, u)[id]
    ensures Turn(p, st, t)[id] !in STICKY && Turn(p, st, u)[id] in SEEN
  {
    hide Turn, SomeFailed, Distinct, Position;
    t :| MovesAt(p, st, id, t);
    TurnChanges(p, st, t, id);
    u := t + 1;
  }

  lemma MoverIsSeen(p: Plan, st: Statuses, m: nat, id: TaskId, u: nat)
    requires Periodic(p, st, m) && id in st && Moves(p, st, id)
    ensures Turn(p, st, u)[id] in SEEN
  {
    PeriodIsPositive(p, st, m);
    hide *;
    var t, v := SomeMove(p, st, id);
    StickyAndSeenAreTraps(p, st, id);
    TrappedAlways(p, st, m, id, SEEN, v, u);
  }

  lemma MoverIsNotSticky(p: Plan, st: Statuses, m: nat, id: TaskId, u: nat)
    requires Periodic(p, st, m) && id in st && Moves(p, st, id)
    ensures Turn(p, st, u)[id] !in STICKY
  {
    PeriodIsPositive(p, st, m);
    hide *;
    var t, v := SomeMove(p, st, id);
    StickyAndSeenAreTraps(p, st, id);
    if Turn(p, st, u)[id] in STICKY {
      TrappedAlways(p, st, m, id, STICKY, u, t);
    }
  }

  /** A task that keeps changing is always blocked or failed. */
  lemma MoverIsBlockedOrFailed(p: Plan, st: Statuses, m: nat, id: TaskId, u: nat)
    requires Periodic(p, st, m) && id in st && Moves(p, st, id)
    ensures Turn(p, st, u)[id] in {Blocked, Failed}
  {
    PeriodIsPositive(p, st, m);
    hide *;
    MoverIsSeen(p, st, m, id, u);
    MoverIsNotSticky(p, st, m, id, u);
    SeenNotSticky(Turn(p, st, u)[id]);
  }

  lemma SeenNotSticky(status: TaskStatus)
    ensures status in SEEN && status !in STICKY ==> status in {Blocked, Failed}
    ensures status in {Blocked, Failed} <==> status == Blocked || status == Failed
  {
  }

  /** The task leaves the status in one turn, for the other one of the two. */
  ghost predicate LeavesAt(p: Plan, st: Statuses, id: TaskId, status: TaskStatus, t: nat)
    requires p.Fits(st) && p.order != [] && id in st
  {
    Turn(p, st, t)[id] == status && Turn(p, st, t + 1)[id] != status
  }

  /** A status that a task ever has and that is not its only one, it leaves. */
  lemma StatusIsLeft(p: Plan, st: Statuses, m: nat, id: TaskId, a: nat, b: nat) returns (t: nat)
    requires Periodic(p, st, m) && id in st && Turn(p, st, a)[id] != Turn(p, st, b)[id]
    ensures LeavesAt(p, st, id, Turn(p, st, a)[id], t)
  {
    PeriodIsPositive(p, st, m);
    hide Turn, Distinct, Periodic;
    var status := Turn(p, st, a)[id];
    if v: nat :| LeavesAt(p, st, id, status, v) {
      t := v;
    } else {
      NeverLeft(p, st, id, status);
      hide Trapped, LeavesAt;
      TrappedAlways(p, st, m, id, {status}, a, b);
    }
  }

  lemma NeverLeft(p: Plan, st: Statuses, id: TaskId, status: TaskStatus)
    requires p.Fits(st) && p.order != [] && id in st && forall v: nat :: !LeavesAt(p, st, id, status, v)
    ensures Trapped(p, st, id, {status})
  {
    hide Turn;
    forall v: nat ensures StaysAt(p, st, id, {status}, v) {
      assert !LeavesAt(p, st, id, status, v);
    }
  }

  ghost predicate FallsAt(p: Plan, st: Statuses, id: TaskId, t: nat)
    requires p.Fits(st) && p.order != [] && id in st
  {
    Turn(p, st, t)[id] == Blocked && Turn(p, st, t + 1)[id] == Failed
  }

  ghost predicate RecoversAt(p: Plan, st: Statuses, id: TaskId, t: nat)
    requires p.Fits(st) && p.order != [] && id in st
  {
    Turn(p, st, t)[id] == Failed && Turn(p, st, t + 1)[id] == Blocked
  }

  lemma LeavingIsFallOrRecovery(p: Plan, st: Statuses, m: nat, id: TaskId, status: TaskStatus, t: nat)
    requires Periodic(p, st, m) && id in st && Moves(p, st, id) && LeavesAt(p, st, id, status, t)
    ensures if status == Blocked then FallsAt(p, st, id, t) else RecoversAt(p, st, id, t)
  {
    PeriodIsPositive(p, st, m);
    hide Turn, Distinct, Periodic, Moves;
    MoverIsBlockedOrFailed(p, st, m, id, t);
    MoverIsBlockedOrFailed(p, st, m, id, t + 1);
  }

  /** A task that keeps changing fails again and again, and recovers again and again. */
  lemma MoverGoesBothWays(p: Plan, st: Statuses, m: nat, id: TaskId) returns (f: nat, r: nat)
    requires Periodic(p, st, m) && id in st && Moves(p, st, id)
    ensures FallsAt(p, st, id, f) && RecoversAt(p, st, id, r)
  {
    PeriodIsPositive(p, st, m);
    hide *;
    var t, u := SomeMove(p, st, id);
    MoverIsBlockedOrFailed(p, st, m, id, t);
    MoverIsBlockedOrFailed(p, st, m, id, u);
    f := StatusIsLeft(p, st, m, id, t, u);
    r := StatusIsLeft(p, st, m, id, u, t);
    LeavingIsFallOrRecovery(p, st, m, id, Turn(p, st, t)[id], f);
    LeavingIsFallOrRecovery(p, st, m, id, Turn(p, st, u)[id], r);
    if Turn(p, st, t)[id] == Failed {
      f, r := r, f;
    }
  }

  /** It depends on another task that keeps changing. */
  lemma MoverDependsOnMover(p: Plan, st: Statuses, m: nat, id: TaskId) returns (d: TaskId)
    requires Periodic(p, st, m) && id in st && Moves(p, st, id)
    ensures d in st && d in p.DependenciesFor(id) && Moves(p, st, d)
    ensures id !in p.DependenciesFor(id)
  {
    hide Turn, Step, Position, Distinct, Periodic, Moves;
    PeriodIsPositive(p, st, m);
    var f, r := MoverGoesBothWays(p, st, m, id);
    TurnChanges(p, st, f, id);
    TurnChanges(p, st, r, id);
    d :| d in p.DependenciesFor(id) && Has(Turn(p, st, f), d, Failed);
    if !Moves(p, st, d) {
      Standing(p, st, d, f);
      Standing(p, st, d, r);
    }
  }

  // ----- No two of them depend on each other -----

  lemma {:induction false} PositionsRise(p: Plan, t: nat, k: nat)
    requires p.order != [] && Position(p, t) + k < |p.order|
    ensures Position(p, t + k) == Position(p, t) + k
  {
    if k > 0 {
      PositionsRise(p, t, k - 1);
      assert t + k - 1 == t + (k - 1);
    }
  }

  /** The next turn of `b` after a turn of another task, before that task's next turn. */
  lemma NextTurnOf(p: Plan, t: nat, b: TaskId) returns (w: nat)
    requires p.order != [] && Distinct(p.order) && b in p.order && b != At(p, t)
    ensures w > t && At(p, w) == b && forall u :: t < u < w ==> At(p, u) != At(p, t)
  {
    var n, i := |p.order|, Position(p, t);
    var at :| 0 <= at < n && p.order[at] == b;
    if at > i {
      w := t + (at - i);
      forall u | t < u <= w ensures Position(p, u) == i + (u - t) {
        PositionsRise(p, t, u - t);
      }
    } else {
      var wrap := t + (n - i);
      PositionsRise(p, t, n - i - 1);
      assert Position(p, wrap) == 0;
      w := wrap + at;
      forall u | t < u <= w ensures Position(p, u) == if u < wrap then i + (u - t) else u - wrap {
        if u < wrap {
          PositionsRise(p, t, u - t);
        } else {
          PositionsRise(p, wrap, u - wrap);
        }
      }
    }
  }

  lemma {:induction false} StandsBetweenTurns(p: Plan, st: Statuses, id: TaskId, t: nat, w: nat)
    requires p.Fits(st) && p.order != [] && id in st && t < w
    requires forall u :: t < u < w ==> At(p, u) != id
    ensures Turn(p, st, w)[id] == Turn(p, st, t + 1)[id]
  {
    hide Turn, Distinct, Position, SomeFailed;
    if t + 1 < w {
      StandsBetweenTurns(p, st, id, t, w - 1);
      TurnChanges(p, st, w - 1, id);
    }
  }

  /** Two tasks that depend on each other, once both failed, stay failed. */
  lemma {:induction false} BothFailedStay(p: Plan, st: Statuses, a: TaskId, b: TaskId, t: nat, u: nat)
    requires p.Fits(st) && p.order != [] && a in st && b in st && t <= u
    requires b in p.DependenciesFor(a) && a in p.DependenciesFor(b)
    requires Turn(p, st, t)[a] == Failed && Turn(p, st, t)[b] == Failed
    ensures Turn(p, st, u)[a] == Failed && Turn(p, st, u)[b] == Failed
    decreases u - t
  {
    hide Turn, Distinct, Position;
    if t < u {
      TurnChanges(p, st, t, a);
      TurnChanges(p, st, t, b);
      assert Has(Turn(p, st, t), a, Failed) && Has(Turn(p, st, t), b, Failed);
      BothFailedStay(p, st, a, b, t + 1, u);
    }
  }

  lemma NotBothFailed(p: Plan, st: Statuses, m: nat, a: TaskId, b: TaskId, t: nat)
    requires Periodic(p, st, m) && a in st && b in st && Moves(p, st, a)
    requires b in p.DependenciesFor(a) && a in p.DependenciesFor(b)
    ensures !(Turn(p, st, t)[a] == Failed && Turn(p, st, t)[b] == Failed)
  {
    PeriodIsPositive(p, st, m);
    var f, r := MoverGoesBothWays(p, st, m, a);
    hide Turn, Distinct, Position, Periodic, Moves;
    if Turn(p, st, t)[a] == Failed && Turn(p, st, t)[b] == Failed {
      var w := ComesAgain(p, st, m, f, t);
      BothFailedStay(p, st, a, b, t, w);
    }
  }

  /** While `a` is failed, `b` cannot have a turn. */
  lemma NoTurnBeside(p: Plan, st: Statuses, m: nat, a: TaskId, b: TaskId, t: nat)
    requires Periodic(p, st, m) && a in st && b in st && a != b && Moves(p, st, a) && Moves(p, st, b)
    requires b in p.DependenciesFor(a) && a in p.DependenciesFor(b) && Turn(p, st, t)[a] == Failed
    ensures At(p, t) != b
  {
    PeriodIsPositive(p, st, m);
    var g, s := MoverGoesBothWays(p, st, m, b);
    TurnChanges(p, st, g, b);
    hide Turn, Distinct, Position, Periodic, Moves;
    NotBothFailed(p, st, m, a, b, t);
    NotBothFailed(p, st, m, a, b, t + 1);
    MoverIsBlockedOrFailed(p, st, m, b, t);
    assert Has(Turn(p, st, t), a, Failed);
    TurnChanges(p, st, t, a);
    TurnChanges(p, st, t, b);
  }

  lemma FallIsATurn(p: Plan, st: Statuses, m: nat, id: TaskId) returns (f: nat)
    requires Periodic(p, st, m) && id in st && Moves(p, st, id)
    ensures At(p, f) == id && Turn(p, st, f + 1)[id] == Failed
  {
    PeriodIsPositive(p, st, m);
    var r;
    f, r := MoverGoesBothWays(p, st, m, id);
    hide Turn, Distinct, Position, Periodic, Moves;
    TurnChanges(p, st, f, id);
  }

  /** A failed task would take the other down before its own next turn, and then both are stuck. */
  lemma NoPairOfMovers(p: Plan, st: Statuses, m: nat, a: TaskId, b: TaskId)
    requires Periodic(p, st, m) && a in st && b in st && a != b && Moves(p, st, a) && Moves(p, st, b)
    ensures !(b in p.DependenciesFor(a) && a in p.DependenciesFor(b))
  {
    PeriodIsPositive(p, st, m);
    assert Distinct(p.order) && b in p.order by {
      assert b in Elements(p.order);
    }
    hide *;
    if b in p.DependenciesFor(a) && a in p.DependenciesFor(b) {
      var f := FallIsATurn(p, st, m, a);
      var w := NextTurnOf(p, f, b);
      StandsBetweenTurns(p, st, a, f, w);
      NoTurnBeside(p, st, m, a, b, w);
    }
  }

  // ----- A shortest cycle is chordless -----

  ghost predicate ShorterCycle(deps: Dependencies, nodes: set<TaskId>, c: seq<TaskId>, d: seq<TaskId>) {
    IsCycle(deps, nodes, d) && |d| < |c|
  }

  lemma {:induction false} ShortestCycle(deps: Dependencies, nodes: set<TaskId>, c: seq<TaskId>)
      returns (s: seq<TaskId>)
    requires IsCycle(deps, nodes, c)
    ensures IsCycle(deps, nodes, s) && forall d :: !ShorterCycle(deps, nodes, s, d)
    decreases |c|
  {
    if d :| ShorterCycle(deps, nodes, c, d) {
      s := ShortestCycle(deps, nodes, d);
    } else {
      s := c;
    }
  }

  lemma CutCycle(deps: Dependencies, nodes: set<TaskId>, c: seq<TaskId>, i: nat, j: nat)
    requires IsCycle(deps, nodes, c) && i < |c| - 1 && j < |c| - 1
    requires Edge(deps, nodes, c[i], c[j])
    ensures j <= i ==> IsCycle(deps, nodes, c[j..i + 1] + [c[j]])
    ensures j > i ==> IsCycle(deps, nodes, c[..i + 1] + c[j..])
  {
    if j <= i {
      WalkSuffix(deps, nodes, c, j);
      var d := c[j..i + 1] + [c[j]];
      forall k | 0 <= k < |d| - 1 ensures Edge(deps, nodes, d[k], d[k + 1]) {
        assert k < i - j ==> Edge(deps, nodes, c[j + k], c[j + k + 1]);
      }
    } else {
      var d := c[..i + 1] + c[j..];
      forall k | 0 <= k < |d| - 1 ensures Edge(deps, nodes, d[k], d[k + 1]) {
        if k < i {
          assert Edge(deps, nodes, c[k], c[k + 1]);
        } else if k > i {
          assert Edge(deps, nodes, c[k - i - 1 + j], c[k - i + j]);
        }
      }
    }
  }

  lemma CutLoop(deps: Dependencies, nodes: set<TaskId>, c: seq<TaskId>, i: nat, j: nat)
    requires IsCycle(deps, nodes, c) && i < j < |c| - 1 && c[i] == c[j]
    ensures ShorterCycle(deps, nodes, c, c[i..j + 1])
  {
    var d := c[i..j + 1];
    forall h | 0 <= h < |d| - 1 ensures Edge(deps, nodes, d[h], d[h + 1]) {
      assert Edge(deps, nodes, c[i + h], c[i + h + 1]);
    }
  }

  /** On a shortest cycle no task comes twice, */
  lemma ShortestIsDistinct(deps: Dependencies, nodes: set<TaskId>, c: seq<TaskId>, i: nat, j: nat)
    requires IsCycle(deps, nodes, c) && forall d :: !ShorterCycle(deps, nodes, c, d)
    requires i < |c| - 1 && j < |c| - 1
    ensures c[i] == c[j] ==> i == j
  {
    hide ShorterCycle, IsWalk;
    if c[i] == c[j] && i < j {
      CutLoop(deps, nodes, c, i, j);
    } else if c[i] == c[j] && j < i {
      CutLoop(deps, nodes, c, j, i);
    }
  }

  /** and a task depends on the next one and on no other. */
  lemma ShortestIsChordless(deps: Dependencies, nodes: set<TaskId>, c: seq<TaskId>, i: nat, j: nat)
    requires IsCycle(deps, nodes, c) && forall d :: !ShorterCycle(deps, nodes, c, d)
    requires i < |c| - 1 && j < |c| - 1
    ensures Edge(deps, nodes, c[i], c[j]) <==> j == After(i, |c| - 1)
  {
    CycleEdge(deps, nodes, c, i);
    if Edge(deps, nodes, c[i], c[j]) && j != After(i, |c| - 1) {
      hide Edge, IsWalk;
      CutCycle(deps, nodes, c, i, j);
      var d := if j <= i then c[j..i + 1] + [c[j]] else c[..i + 1] + c[j..];
      Shorter(deps, nodes, c, d);
    }
  }

  lemma Shorter(deps: Dependencies, nodes: set<TaskId>, c: seq<TaskId>, d: seq<TaskId>)
    requires IsCycle(deps, nodes, d) && |d| < |c|
    ensures ShorterCycle(deps, nodes, c, d)
  {
  }

  lemma CycleEdge(deps: Dependencies, nodes: set<TaskId>, c: seq<TaskId>, i: nat)
    requires IsCycle(deps, nodes, c) && i < |c| - 1
    ensures Edge(deps, nodes, c[i], c[After(i, |c| - 1)])
  {
    assert Edge(deps, nodes, c[i], c[i + 1]);
  }

  // ----- The theorem -----

  ghost function Movers(p: Plan, st: Statuses): set<TaskId>
    requires p.Fits(st) && p.order != []
  {
    set id | id in st && Moves(p, st, id)
  }

  lemma StandingTable(p: Plan, st: Statuses, t: nat)
    requires p.Fits(st) && p.order != [] && Movers(p, st) == {}
    ensures Turn(p, st, t) == st
  {
    hide Turn, Moves, Distinct;
    forall x | x in st ensures Turn(p, st, t)[x] == st[x] {
      assert x !in Movers(p, st);
      Standing(p, st, x, t);
    }
  }

  /** When nothing moves, the table is settled. */
  lemma NothingMoves(p: Plan, st: Statuses)
    requires p.Fits(st) && p.order != [] && Movers(p, st) == {}
    ensures Settled(p, st)
  {
    hide Turn, Movers, Distinct;
    forall id | id in p.Nodes() ensures Stable(p, st, id) {
      var i :| 0 <= i < |p.order| && p.order[i] == id;
      PositionsRise(p, 0, i);
      NextTurn(p, st, i);
      StandingTable(p, st, i);
      StandingTable(p, st, i + 1);
      assert Step(p, st, id) == st;
    }
  }

  lemma MoverEdges(p: Plan, st: Statuses, m: nat, movers: set<TaskId>, a: TaskId, b: TaskId)
    requires Periodic(p, st, m) && movers == Movers(p, st)
    ensures a in movers ==> HasDependency(p.deps, movers, a)
    ensures !(Edge(p.deps, movers, a, b) && Edge(p.deps, movers, b, a))
  {
    PeriodIsPositive(p, st, m);
    hide Moves, Periodic, Distinct;
    if a in movers {
      var d := MoverDependsOnMover(p, st, m, a);
      assert Edge(p.deps, movers, a, d);
      if b in movers && a != b {
        NoPairOfMovers(p, st, m, a, b);
      }
    }
  }

  ghost predicate NoPair(deps: Dependencies, nodes: set<TaskId>) {
    forall a, b :: !(Edge(deps, nodes, a, b) && Edge(deps, nodes, b, a))
  }

  /** Where every task depends on another and no two on each other, there is a chordless ring. */
  lemma RingAmong(deps: Dependencies, nodes: set<TaskId>, movers: set<TaskId>)
    requires movers <= nodes && movers != {} && EveryNodeDepends(deps, movers) && NoPair(deps, movers)
    ensures HasChordlessRing(deps, nodes)
  {
    var start :| start in movers;
    hide EveryNodeDepends, NoPair, IsWalk, Distinct, IsChordlessRing, ShorterCycle;
    TrivialWalk(deps, movers, start);
    var cycle := ChaseCycle(deps, movers, [start]);
    var shortest := ShortestCycle(deps, movers, cycle);
    ChordlessRing(deps, nodes, movers, shortest);
  }

  /** The tasks that keep changing contain a chordless ring. */
  lemma MoversContainRing(p: Plan, st: Statuses, m: nat)
    requires Periodic(p, st, m) && Movers(p, st) != {}
    ensures HasChordlessRing(p.deps, p.Nodes())
  {
    PeriodIsPositive(p, st, m);
    var movers := Movers(p, st);
    assert movers <= p.Nodes();
    hide Movers, Periodic, Edge, HasDependency, HasChordlessRing;
    forall id | id in movers ensures HasDependency(p.deps, movers, id) {
      MoverEdges(p, st, m, movers, id, id);
    }
    forall a, b ensures !(Edge(p.deps, movers, a, b) && Edge(p.deps, movers, b, a)) {
      MoverEdges(p, st, m, movers, a, b);
    }
    RingAmong(p.deps, p.Nodes(), movers);
  }

  lemma TrivialWalk(deps: Dependencies, nodes: set<TaskId>, id: TaskId)
    ensures Distinct([id]) && IsWalk(deps, nodes, [id]) && Elements([id]) == {id}
  {
  }

  lemma ChordlessRing(deps: Dependencies, nodes: set<TaskId>, movers: set<TaskId>, c: seq<TaskId>)
    requires movers <= nodes && IsCycle(deps, movers, c) && forall d :: !ShorterCycle(deps, movers, c, d)
    requires NoPair(deps, movers)
    ensures IsChordlessRing(deps, nodes, c[..|c| - 1])
  {
    var ring := c[..|c| - 1];
    var n := |ring|;
    assert Edge(deps, movers, c[0], c[1]);
    assert n >= 2 ==> Edge(deps, movers, c[1], c[2]);
    assert n >= 3;
    forall i | 0 <= i < n ensures ring[i] in movers && ring[i] == c[i] {
      assert Edge(deps, movers, c[i], c[i + 1]);
    }
    forall i, j | 0 <= i < n && 0 <= j < n
      ensures ring[i] == ring[j] ==> i == j
      ensures ring[j] in DependenciesOf(deps, ring[i]) <==> j == After(i, n)
    {
      ShortestIsDistinct(deps, movers, c, i, j);
      ShortestIsChordless(deps, movers, c, i, j);
    }
  }

  /** Without a chordless ring every run ends: it comes back to some table, and there nothing moves any more. */
  lemma RunEnds(p: Plan, st: Statuses)
    requires p.Fits(st) && !HasChordlessRing(p.deps, p.Nodes())
    ensures Settles(p, st)
  {
    if p.order == [] {
      assert p.Nodes() == {};
      assert Settled(p, Passes(p, st, 0));
    } else {
      var i, again := RecurringTable(p, st);
      var m: nat :| Periodic(p, again, m);
      hide Periodic, Movers, HasChordlessRing, Settled;
      if Movers(p, again) != {} {
        MoversContainRing(p, again, m);
      }
      NothingMoves(p, again);
    }
  }

  lemma RecurringTable(p: Plan, st: Statuses) returns (i: nat, again: Statuses)
    requires p.Fits(st) && p.order != []
    ensures again == Passes(p, st, i) && exists m: nat :: Periodic(p, again, m)
  {
    hide Distinct, Position, Turn, Passes;
    var j;
    i, j := SomeTableRecurs(p, st);
    again := Passes(p, st, i);
    PassesAdd(p, st, i, j - i);
    var m := PassBegins(p, again, j - i);
    assert Periodic(p, again, m);
  }

  /** The loop ends for every scan order, table, set of blind reviews and run records
      exactly on the graphs without a chordless ring of three or more tasks. */
  lemma LoopEndsExactly(deps: Dependencies, nodes: set<TaskId>)
    ensures AlwaysSettles(deps, nodes) <==> !HasChordlessRing(deps, nodes)
  {
    if ring :| IsChordlessRing(deps, nodes, ring) {
      var p, st := RingNeverEnds(deps, nodes, ring);
    } else {
      forall p: Plan, st: Statuses | p.deps == deps && p.Nodes() == nodes && p.Fits(st) ensures Settles(p, st) {
        RunEnds(p, st);
      }
    }
  }

  /** An acyclic graph has no such ring. */
  lemma AcyclicHasNoRing(deps: Dependencies, nodes: set<TaskId>)
    requires Acyclic(deps, nodes)
    ensures !HasChordlessRing(deps, nodes)
  {
    forall ring | IsChordlessRing(deps, nodes, ring) ensures IsCycle(deps, nodes, ring + [ring[0]]) {
      var c := ring + [ring[0]];
      forall i | 0 <= i < |ring| ensures Edge(deps, nodes, c[i], c[i + 1]) {
        assert ring[i] in Elements(ring) && ring[After(i, |ring|)] in Elements(ring);
      }
    }
  }
}
