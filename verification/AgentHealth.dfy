/** The agent health window: an incrementally pruned list of recent failures and a
    cooldown, against the full failure history since the last reset. */
module AgentHealth {
  import opened Options

  type AgentId = string

  const WINDOW_MS := 600_000
  const THRESHOLD := 3
  const COOLDOWN_MS := 300_000

  datatype Failure = Failure(atMs: int, reason: string)

  datatype Record = Record(failures: seq<Failure>, unhealthyUntilMs: Option<int>)

  const NO_RECORD := Record([], None)

  /** The failures still inside the window at `now`. */
  function InWindow(failures: seq<Failure>, now: int): (r: seq<Failure>)
    ensures |r| <= |failures|
  {
    if failures == [] then [] else
      var front, last := failures[..|failures| - 1], failures[|failures| - 1];
      InWindow(front, now) + if now - last.atMs <= WINDOW_MS then [last] else []
  }

  /** Some failure at a time whose cooldown still runs had enough failures, itself included, in its window. */
  ghost predicate UnhealthyAt(history: seq<Failure>, now: int) {
    exists i :: 0 <= i < |history| && Trips(history, i) && now < history[i].atMs + COOLDOWN_MS
  }

  ghost predicate Trips(history: seq<Failure>, i: nat)
    requires i < |history|
  {
    |InWindow(history[..i + 1], history[i].atMs)| >= THRESHOLD
  }

  // ----- The record -----

  function Prune(r: Record, now: int): Record {
    Record(InWindow(r.failures, now),
           if r.unhealthyUntilMs.Some? && r.unhealthyUntilMs.value <= now then None else r.unhealthyUntilMs)
  }

  function HasData(r: Record): bool {
    r.failures != [] || r.unhealthyUntilMs.Some?
  }

  function AddFailure(r: Record, f: Failure): Record {
    var pruned := Prune(r, f.atMs);
    var failures := pruned.failures + [f];
    Record(failures, if |failures| >= THRESHOLD then Some(f.atMs + COOLDOWN_MS) else pruned.unhealthyUntilMs)
  }

  function Unhealthy(r: Record, now: int): bool {
    r.unhealthyUntilMs.Some? && r.unhealthyUntilMs.value > now
  }

  // ----- The record represents the history -----

  /** From `now` on, the record answers every question as the full history would. */
  ghost predicate Represents(r: Record, history: seq<Failure>, now: int) {
    && (forall i :: 0 <= i < |history| ==> history[i].atMs <= now)
    && (forall t :: now <= t ==> InWindow(r.failures, t) == InWindow(history, t))
    && (forall t {:trigger UnhealthyAt(history, t)} :: now <= t ==> (Unhealthy(r, t) <==> UnhealthyAt(history, t)))
  }

  /** Ten minutes, three failures, five minutes. */
  lemma Durations()
    ensures WINDOW_MS == 10 * 60 * 1000 && THRESHOLD == 3 && COOLDOWN_MS == 5 * 60 * 1000
  {
  }

  lemma AppendInWindow(failures: seq<Failure>, f: Failure, t: int)
    ensures InWindow(failures + [f], t) == InWindow(failures, t) + if t - f.atMs <= WINDOW_MS then [f] else []
  {
    assert (failures + [f])[..|failures|] == failures;
  }

  lemma {:induction false} PruneIsInvisible(failures: seq<Failure>, now: int, t: int)
    requires now <= t
    ensures InWindow(InWindow(failures, now), t) == InWindow(failures, t)
  {
    if failures != [] {
      var front, last := failures[..|failures| - 1], failures[|failures| - 1];
      PruneIsInvisible(front, now, t);
      assert failures == front + [last];
      AppendInWindow(front, last, now);
      AppendInWindow(front, last, t);
      AppendInWindow(InWindow(front, now), last, t);
      assert InWindow(front, now) + [] == InWindow(front, now) && InWindow(front, t) + [] == InWindow(front, t);
    }
  }

  lemma PruneRepresents(r: Record, history: seq<Failure>, now: int, later: int)
    requires Represents(r, history, now) && now <= later
    ensures Represents(Prune(r, later), history, later)
  {
    forall t | later <= t ensures InWindow(Prune(r, later).failures, t) == InWindow(history, t) {
      PruneIsInvisible(r.failures, later, t);
    }
  }

  lemma TripsInLonger(history: seq<Failure>, f: Failure, i: nat)
    requires i < |history|
    ensures Trips(history + [f], i) <==> Trips(history, i)
  {
    assert (history + [f])[..i + 1] == history[..i + 1];
  }

  /** One more failure: the history turns unhealthy by an old trip or by the new one. */
  lemma UnhealthyAfter(history: seq<Failure>, f: Failure, t: int)
    ensures UnhealthyAt(history + [f], t) <==>
            UnhealthyAt(history, t) || (|InWindow(history + [f], f.atMs)| >= THRESHOLD && t < f.atMs + COOLDOWN_MS)
  {
    var longer := history + [f];
    assert longer[..|history| + 1] == longer;
    assert Trips(longer, |history|) <==> |InWindow(longer, f.atMs)| >= THRESHOLD;
    forall i | 0 <= i < |history| ensures longer[i] == history[i] && (Trips(longer, i) <==> Trips(history, i)) {
      TripsInLonger(history, f, i);
    }
    hide Trips, InWindow;
    if UnhealthyAt(history, t) {
      var i :| 0 <= i < |history| && Trips(history, i) && t < history[i].atMs + COOLDOWN_MS;
      assert Trips(longer, i);
    }
    if UnhealthyAt(longer, t) {
      var i :| 0 <= i < |longer| && Trips(longer, i) && t < longer[i].atMs + COOLDOWN_MS;
      assert i < |history| ==> Trips(history, i);
    }
  }

  lemma AddKeepsWindow(r: Record, history: seq<Failure>, now: int, f: Failure, t: int)
    requires Represents(r, history, now) && now <= f.atMs <= t
    ensures InWindow(AddFailure(r, f).failures, t) == InWindow(history + [f], t)
  {
    AppendInWindow(InWindow(r.failures, f.atMs), f, t);
    AppendInWindow(history, f, t);
    PruneIsInvisible(r.failures, f.atMs, t);
  }

  lemma AddCounts(r: Record, history: seq<Failure>, now: int, f: Failure)
    requires Represents(r, history, now) && now <= f.atMs
    ensures |AddFailure(r, f).failures| == |InWindow(history + [f], f.atMs)|
  {
    AppendInWindow(history, f, f.atMs);
  }

  lemma AddKeepsAnswer(r: Record, history: seq<Failure>, now: int, f: Failure, t: int)
    requires Represents(r, history, now) && now <= f.atMs <= t
    ensures Unhealthy(AddFailure(r, f), t) <==> UnhealthyAt(history + [f], t)
  {
    AddCounts(r, history, now, f);
    UnhealthyAfter(history, f, t);
    assert Unhealthy(r, t) <==> UnhealthyAt(history, t);
    if UnhealthyAt(history, t) {
      var i :| 0 <= i < |history| && Trips(history, i) && t < history[i].atMs + COOLDOWN_MS;
      assert t < f.atMs + COOLDOWN_MS;
    }
  }

  lemma AddRepresents(r: Record, history: seq<Failure>, now: int, f: Failure)
    requires Represents(r, history, now) && now <= f.atMs
    ensures Represents(AddFailure(r, f), history + [f], f.atMs)
  {
    assert forall i :: 0 <= i < |history| ==> history[i].atMs <= now;
    hide AddFailure, InWindow, UnhealthyAt, Unhealthy;
    forall t | f.atMs <= t ensures InWindow(AddFailure(r, f).failures, t) == InWindow(history + [f], t) {
      AddKeepsWindow(r, history, now, f, t);
    }
    forall t | f.atMs <= t ensures Unhealthy(AddFailure(r, f), t) <==> UnhealthyAt(history + [f], t) {
      AddKeepsAnswer(r, history, now, f, t);
    }
  }

  lemma NothingRepresentsNothing(now: int)
    ensures Represents(NO_RECORD, [], now)
  {
  }

  lemma DropEmptyRepresents(r: Record, history: seq<Failure>, now: int)
    requires Represents(r, history, now) && !HasData(r)
    ensures Represents(NO_RECORD, history, now)
  {
  }

  // ----- The dispatcher's table -----

  class HealthTable {
    var records: map<AgentId, Record>
    /** The recoverable failures of each agent since its last reset. */
    ghost var history: map<AgentId, seq<Failure>>
    /** The latest time the table was asked about. */
    ghost var clock: int

    constructor ()
      ensures Valid() && history == map[]
    {
      records, history, clock := map[], map[], 0;
      new;
      NothingRepresentsNothing(0);
    }

    ghost function HistoryOf(agent: AgentId): seq<Failure>
      reads this
    {
      if agent in history then history[agent] else []
    }

    function RecordOf(agent: AgentId): Record
      reads this
    {
      if agent in records then records[agent] else NO_RECORD
    }

    ghost predicate Valid()
      reads this
    {
      forall agent :: Represents(RecordOf(agent), HistoryOf(agent), clock)
    }

    lemma ValidLater(now: int)
      requires Valid() && clock <= now
      ensures forall agent :: Represents(RecordOf(agent), HistoryOf(agent), now)
    {
      forall agent ensures Represents(RecordOf(agent), HistoryOf(agent), now) {
        assert Represents(RecordOf(agent), HistoryOf(agent), clock);
      }
    }

    method RecordAgentFailure(agent: AgentId, recoverable: bool, now: int, reason: string)
      requires Valid() && clock <= now
      modifies this
      ensures Valid() && clock == now
      ensures history == if recoverable then old(history)[agent := old(HistoryOf(agent)) + [Failure(now, reason)]]
              else old(history)
    {
      hide Represents;
      ValidLater(now);
      if recoverable {
        var f := Failure(now, reason);
        AddRepresents(RecordOf(agent), HistoryOf(agent), clock, f);
        records := records[agent := AddFailure(RecordOf(agent), f)];
        history := history[agent := HistoryOf(agent) + [f]];
      }
      clock := now;
      forall other ensures Represents(RecordOf(other), HistoryOf(other), clock) {
        assert old(Represents(RecordOf(other), HistoryOf(other), now));
      }
    }

    /** The pruned window is the window of the full history, the answer is the history's, and asking changes nothing. */
    method CurrentState(agent: AgentId, now: int) returns (recent: seq<Failure>, unhealthy: bool)
      requires Valid() && clock <= now
      modifies this
      ensures Valid() && clock == now && history == old(history)
      ensures recent == InWindow(HistoryOf(agent), now)
      ensures unhealthy <==> UnhealthyAt(HistoryOf(agent), now)
    {
      hide Represents;
      ValidLater(now);
      var record := RecordOf(agent);
      Answers(record, HistoryOf(agent), clock, now);
      record := Prune(record, now);
      if agent in records {
        records := if HasData(record) then records[agent := record] else records - {agent};
      }
      if !HasData(record) {
        DropEmptyRepresents(record, HistoryOf(agent), now);
      }
      clock := now;
      forall other ensures Represents(RecordOf(other), HistoryOf(other), clock) {
        assert old(Represents(RecordOf(other), HistoryOf(other), now));
      }
      recent, unhealthy := record.failures, Unhealthy(record, now);
    }

    method ResetAgentHealth(agent: AgentId)
      requires Valid()
      modifies this
      ensures Valid() && clock == old(clock)
      ensures history == old(history)[agent := []]
    {
      NothingRepresentsNothing(clock);
      hide Represents;
      records := records - {agent};
      history := history[agent := []];
      forall other ensures Represents(RecordOf(other), HistoryOf(other), clock) {
        assert old(Represents(RecordOf(other), HistoryOf(other), clock));
      }
    }
  }

  lemma Answers(r: Record, history: seq<Failure>, clock: int, now: int)
    requires Represents(r, history, clock) && clock <= now
    ensures var p := Prune(r, now);
            && Represents(p, history, now) && p.failures == InWindow(history, now)
            && (Unhealthy(p, now) <==> UnhealthyAt(history, now))
  {
    PruneRepresents(r, history, clock, now);
    PruneIsInvisible(r.failures, now, now);
  }
}
