/** What the completion protocol does with a request to complete a run, and with the exit
    reason of a session: further guarantees over every interleaving of its steps. */
module CompletionGuarantees {
  import opened Options
  import opened CompletionProtocol

  /** The state in which `endSession` enters the handler. */
  function Requested(p: Protocol, run: RunId): Protocol {
    ScheduleCompletionFallback(p, run).(handled := p.handled - {run})
  }

  /** The state in which the timer does. */
  function Expired(p: Protocol, run: RunId): Protocol {
    p.(fallbacks := p.fallbacks - {run}, handled := p.handled - {run})
  }

  // ----- Only completed sessions are routed -----

  /** What the exit reason commits a session-end handler to. */
  predicate Disciplined(h: Handler) {
    h.SessionEnd? ==>
      && (h.scheduledResume ==> h.exit in {Crashed, Timeout} && h.phase != InCleanup)
      && (h.phase in {InRelease, InRouting} || h.routed || h.release.releaseAttempted ==> h.exit == Completed)
      && (h.phase == InRouting || h.routed ==> (h.hadActive ==> h.release == ReleaseState(true, true, true)))
  }

  ghost predicate AllDisciplined(p: Protocol) {
    && (forall i :: i in p.handlers ==> Disciplined(p.handlers[i]))
    && (forall i :: i in p.ended ==> Disciplined(p.ended[i]))
  }

  lemma FinallyDisciplined(p: Protocol, id: HandlerId, h: Handler, completed: bool)
    requires AllDisciplined(p) && h.SessionEnd? && Disciplined(h)
    ensures AllDisciplined(Finally(p, id, h, completed))
  {
    assert Disciplined(ForgetAndRelease(h));
  }

  lemma SuspendDisciplined(p: Protocol, id: HandlerId, h: Handler, phase: Phase)
    requires AllDisciplined(p) && h.SessionEnd? && Disciplined(h.(phase := phase))
    ensures AllDisciplined(Suspend(p, id, h, phase))
  {
  }

  lemma EnterDisciplined(p: Protocol, id: HandlerId, run: RunId, exit: Exit, ceiling: Option<Exit>, view: RunView)
    requires AllDisciplined(p)
    ensures AllDisciplined(HandleSessionEnd(p, id, run, exit, ceiling, view))
  {
    hide Finally, Suspend;
    var q := p.(fallbacks := p.fallbacks - {run}, finishing := p.finishing + {run});
    var exit' := if ceiling.Some? then ceiling.value else if run in p.fallbacks then Completed else exit;
    var h := Entering(run, exit', run in p.active);
    FinallyDisciplined(q, id, h, false);
    SuspendDisciplined(q, id, h, InLimits);
    SuspendDisciplined(q, id, h, InDirtyCheck);
    if view.Found? && exit' in {Crashed, Timeout} {
      FinallyDisciplined(q, id, h.(scheduledResume := view.resumes), false);
      SuspendDisciplined(q, id, h.(scheduledResume := view.resumes), InDirtyCheck);
    }
  }

  lemma ResumeDisciplined(p: Protocol, id: HandlerId, o: Outcome)
    requires AllDisciplined(p) && Inv(p) && id in p.handlers && p.handlers[id].SessionEnd?
    ensures AllDisciplined(ResumeSessionEnd(p, id, p.handlers[id], o))
  {
    var h := p.handlers[id];
    assert Disciplined(h) && HandlerOk(p, h);
    hide Finally, Suspend, Inv, HandlerOk, AllDisciplined, ActiveAfterForget;
    FinallyDisciplined(p, id, h, false);
    FinallyDisciplined(p, id, h, true);
    match h.phase
    case InLimits => SuspendDisciplined(p, id, h, InDirtyCheck);
    case InDirtyCheck =>
      if h.exit == Completed {
        var h' := Releasing(h);
        SuspendDisciplined(p, id, h', InRelease);
      } else if !h.scheduledResume {
        SuspendDisciplined(p, id, h, InCleanup);
      }
    case InRelease =>
      var q, released := p.(active := ActiveAfterForget(p, h)), ForgetAndRelease(h);
      SameHandlersDisciplined(p, q);
      FinallyDisciplined(q, id, released, true);
      SuspendDisciplined(q, id, released, InRouting);
    case InRouting =>
      SameHandlersDisciplined(p, p.(routed := p.routed + {h.run}, successes := p.successes + [h.run]));
      SuspendDisciplined(p.(routed := p.routed + {h.run}, successes := p.successes + [h.run]), id, h.(routed := true),
          InCleanup);
    case InCleanup =>
    case InFinalRelease => EndedDisciplined(p, id);
  }

  lemma SameHandlersDisciplined(p: Protocol, q: Protocol)
    requires AllDisciplined(p) && p.handlers == q.handlers && p.ended == q.ended
    ensures AllDisciplined(q)
  {
  }

  lemma EndedDisciplined(p: Protocol, id: HandlerId)
    requires AllDisciplined(p) && id in p.handlers
    ensures AllDisciplined(p.(handlers := p.handlers - {id}, ended := p.ended[id := p.handlers[id]]))
  {
  }

  lemma NextDisciplined(p: Protocol, e: Event)
    requires AllDisciplined(p) && Inv(p)
    ensures AllDisciplined(Next(p, e))
  {
    hide HandleSessionEnd, ResumeSessionEnd, Inv;
    match e
    case HarnessCompletes(id, run, exit, ceiling, view) => EnterDisciplined(p, id, run, exit, ceiling, view);
    case EndSession(id, run, ceiling, view) =>
      EnterDisciplined(Requested(p, run), id, run, Completed, ceiling, view);
    case TimerFires(id, run, runOpen, ceiling, view) =>
      EnterDisciplined(Expired(p, run), id, run, Completed, ceiling, view);
    case Resume(id, o) =>
      if id in p.handlers && p.handlers[id].SessionEnd? {
        ResumeDisciplined(p, id, o);
      }
    case _ =>
  }

  lemma {:induction false} RunDisciplined(es: seq<Event>)
    ensures AllDisciplined(Run(es))
  {
    if es != [] {
      hide AllDisciplined, Next;
      RunDisciplined(es[..|es| - 1]);
      RunKeepsInv(es[..|es| - 1]);
      NextDisciplined(Run(es[..|es| - 1]), es[|es| - 1]);
    }
  }

  /** Only a session that exited as completed is released early and routed; a session scheduled to
      resume exited by crash or timeout, is never routed, and its worktrees are never cleaned up. */
  lemma OnlyCompletionsAreRouted(es: seq<Event>, id: HandlerId)
    requires id in Run(es).handlers || id in Run(es).ended
    ensures var p := Run(es); var h := if id in p.handlers then p.handlers[id] else p.ended[id];
            h.SessionEnd? ==>
              && (h.phase in {InRelease, InRouting} || h.routed ==> h.exit == Completed)
              && (h.scheduledResume ==> h.exit in {Crashed, Timeout} && !h.routed && h.phase != InCleanup)
  {
    RunDisciplined(es);
    var p := Run(es);
    hide Run;
    assert id in p.handlers ==> Disciplined(p.handlers[id]);
    assert id in p.ended ==> Disciplined(p.ended[id]);
  }

  /** Routing never starts while the session it completes is still held. */
  lemma ReleasedBeforeRouting(es: seq<Event>, id: HandlerId)
    requires id in Run(es).handlers && Run(es).handlers[id].SessionEnd? && Run(es).handlers[id].hadActive
    requires Run(es).handlers[id].phase == InRouting
    ensures var h := Run(es).handlers[id]; h.run !in Run(es).active && h.leases == 1 && h.sessions == 1
  {
    RunKeepsInv(es);
    var p := Run(es);
    hide Run;
    assert HandlerOk(p, p.handlers[id]);
  }

  // ----- What becomes of a request to complete -----

  /** The exit reason a session-end handler acts on, suspended or finished. */
  function ExitOf(p: Protocol, id: HandlerId): Option<Exit> {
    if id in p.handlers then (if p.handlers[id].SessionEnd? then Some(p.handlers[id].exit) else None)
    else if id in p.ended && p.ended[id].SessionEnd? then Some(p.ended[id].exit)
    else None
  }

  function Capped(ceiling: Option<Exit>): Exit {
    if ceiling.Some? then ceiling.value else Completed
  }

  lemma FinallyExit(p: Protocol, id: HandlerId, h: Handler, completed: bool, other: HandlerId)
    requires h.SessionEnd?
    ensures var q := Finally(p, id, h, completed);
            q.fallbacks == p.fallbacks && ExitOf(q, id) == Some(h.exit)
                && (other != id ==> ExitOf(q, other) == ExitOf(p, other))
  {
  }

  lemma SuspendExit(p: Protocol, id: HandlerId, h: Handler, phase: Phase, other: HandlerId)
    requires h.SessionEnd?
    ensures var q := Suspend(p, id, h, phase);
            q.fallbacks == p.fallbacks && ExitOf(q, id) == Some(h.exit)
                && (other != id ==> ExitOf(q, other) == ExitOf(p, other))
  {
  }

  /** A handler that gets past the guard takes the run over, clears the timer, and acts as completed if that was
      requested. */
  lemma EnterTakesOver(p: Protocol, id: HandlerId, run: RunId, exit: Exit, ceiling: Option<Exit>, view: RunView,
      other: HandlerId)
    ensures var q := HandleSessionEnd(p, id, run, exit, ceiling, view);
            && (run in p.handled || run in p.finishing ==> q == p)
            && (run !in p.handled && run !in p.finishing ==>
                  && q.fallbacks == p.fallbacks - {run}
                  && ExitOf(q, id) == Some(if ceiling.Some? then ceiling.value else if run in p.fallbacks then Completed
                      else exit))
            && (other != id ==> ExitOf(q, other) == ExitOf(p, other))
  {
    hide Finally, Suspend, ExitOf;
    var q := p.(fallbacks := p.fallbacks - {run}, finishing := p.finishing + {run});
    var exit' := if ceiling.Some? then ceiling.value else if run in p.fallbacks then Completed else exit;
    var h := Entering(run, exit', run in p.active);
    SameHandlers(p, q, other);
    FinallyExit(q, id, h, false, other);
    SuspendExit(q, id, h, InLimits, other);
    SuspendExit(q, id, h, InDirtyCheck, other);
    if view.Found? {
      FinallyExit(q, id, h.(scheduledResume := view.resumes), false, other);
      SuspendExit(q, id, h.(scheduledResume := view.resumes), InDirtyCheck, other);
    }
  }

  lemma SameHandlers(p: Protocol, q: Protocol, id: HandlerId)
    requires p.handlers == q.handlers && p.ended == q.ended
    ensures ExitOf(p, id) == ExitOf(q, id)
  {
  }

  /** Two states in which every handler acts on the same exit reason, and the same timers are pending. */
  ghost predicate SameExits(p: Protocol, q: Protocol, other: HandlerId) {
    q.fallbacks == p.fallbacks && ExitOf(q, other) == ExitOf(p, other)
  }

  lemma ResumeExit(p: Protocol, id: HandlerId, h: Handler, o: Outcome, other: HandlerId)
    requires id in p.handlers && p.handlers[id] == h && h.SessionEnd?
    ensures SameExits(p, ResumeSessionEnd(p, id, h, o), other)
  {
    assert ExitOf(p, id) == Some(h.exit);
    hide Finally, Suspend, ExitOf, ActiveAfterForget, ForgetAndRelease;
    FinallyExit(p, id, h, false, other);
    match h.phase
    case InLimits => SuspendExit(p, id, h, InDirtyCheck, other);
    case InDirtyCheck =>
      FinallyExit(p, id, h, true, other);
      SuspendExit(p, id, Releasing(h), InRelease, other);
      SuspendExit(p, id, h, InCleanup, other);
    case InRelease => ReleaseExit(p, id, h, other);
    case InRouting =>
      var r := p.(routed := p.routed + {h.run}, successes := p.successes + [h.run]);
      SameHandlers(p, r, other);
      SuspendExit(r, id, h.(routed := true), InCleanup, other);
    case InCleanup => FinallyExit(p, id, h, true, other);
    case InFinalRelease => EndExit(p, id, other);
  }

  lemma ReleaseExit(p: Protocol, id: HandlerId, h: Handler, other: HandlerId)
    requires id in p.handlers && p.handlers[id] == h && h.SessionEnd?
    ensures var q, released := p.(active := ActiveAfterForget(p, h)), ForgetAndRelease(h);
            SameExits(p, Finally(q, id, released, true), other)
                && SameExits(p, Suspend(q, id, released, InRouting), other)
  {
    var q, released := p.(active := ActiveAfterForget(p, h)), ForgetAndRelease(h);
    assert ExitOf(p, id) == Some(h.exit) && released.exit == h.exit;
    hide Finally, Suspend, ExitOf, ActiveAfterForget;
    SameHandlers(p, q, other);
    FinallyExit(q, id, released, true, other);
    SuspendExit(q, id, released, InRouting, other);
  }

  lemma EndExit(p: Protocol, id: HandlerId, other: HandlerId)
    requires id in p.handlers && p.handlers[id].SessionEnd?
    ensures SameExits(p, p.(handlers := p.handlers - {id}, ended := p.ended[id := p.handlers[id]]), other)
  {
  }

  lemma ResumeStoredExit(p: Protocol, id: HandlerId, o: Outcome, other: HandlerId)
    requires id in p.handlers && p.handlers[id].StoredCompletion? && (other == id || ExitOf(p, other).Some?)
    ensures SameExits(p, ResumeStored(p, id, p.handlers[id], o), other)
  {
  }

  /** The exit reason a handler acts on never changes. */
  lemma ExitStays(p: Protocol, e: Event, other: HandlerId)
    requires ExitOf(p, other).Some?
    ensures ExitOf(Next(p, e), other) == ExitOf(p, other)
  {
    hide HandleSessionEnd, ResumeSessionEnd, ResumeStored;
    match e
    case HarnessCompletes(id, run, exit, ceiling, view) => EnterTakesOver(p, id, run, exit, ceiling, view, other);
    case EndSession(id, run, ceiling, view) =>
      EnterTakesOver(Requested(p, run), id, run, Completed, ceiling, view, other);
    case TimerFires(id, run, runOpen, ceiling, view) =>
      EnterTakesOver(Expired(p, run), id, run, Completed, ceiling, view, other);
    case Resume(id, o) =>
      if id in p.handlers {
        if p.handlers[id].SessionEnd? {
          ResumeExit(p, id, p.handlers[id], o, other);
        } else {
          ResumeStoredExit(p, id, o, other);
        }
      }
    case _ =>
  }

  /** The events that may start a session-end handler. */
  predicate StartsHandler(e: Event) {
    e.HarnessCompletes? || e.EndSession? || e.TimerFires?
  }

  /** A new handler takes the waiting run over, and acts as completed or as the resource ceiling says. */
  predicate TakesOver(p: Protocol, e: Event, run: RunId) {
    && StartsHandler(e) && e.run == run && !Used(p, e.id) && run in p.fallbacks && run !in p.finishing
    && ExitOf(Next(p, e), e.id) == Some(Capped(e.ceiling))
  }

  /** The timer fires, but the run is routed, closed, or in the hands of another handler. */
  predicate FiresInVain(p: Protocol, e: Event, run: RunId) {
    && e.TimerFires? && e.run == run && !Used(p, e.id) && run in p.fallbacks
    && (run in p.routed || !e.runOpen || run in p.finishing)
  }

  /** The wait for the timer ends in exactly these two ways. */
  lemma StepEndsWait(p: Protocol, e: Event, run: RunId)
    requires run in p.fallbacks
    ensures run !in Next(p, e).fallbacks <==> TakesOver(p, e, run) || FiresInVain(p, e, run)
  {
    hide HandleSessionEnd, ResumeSessionEnd, ResumeStored;
    match e
    case HarnessCompletes(id, r, exit, ceiling, view) => EnterTakesOver(p, id, r, exit, ceiling, view, id);
    case EndSession(id, r, ceiling, view) =>
      EnterTakesOver(Requested(p, r), id, r, Completed, ceiling, view, id);
    case TimerFires(id, r, runOpen, ceiling, view) =>
      EnterTakesOver(Expired(p, r), id, r, Completed, ceiling, view, id);
    case Resume(id, o) =>
      if id in p.handlers {
        if p.handlers[id].SessionEnd? {
          ResumeExit(p, id, p.handlers[id], o, id);
        } else {
          ResumeStoredExit(p, id, o, id);
        }
      }
    case _ =>
  }

  /** At event `i` the wait ended: in vain, or by a handler that acts as requested to the end of the history. */
  ghost predicate EndsWait(es: seq<Event>, later: seq<Event>, i: nat, run: RunId)
    requires i < |later|
  {
    var before, e := Run(es + later[..i]), later[i];
    FiresInVain(before, e, run) || (TakesOver(before, e, run)
        && ExitOf(Run(es + later), e.id) == Some(Capped(e.ceiling)))
  }

  lemma EndsWaitStays(es: seq<Event>, later: seq<Event>, i: nat, run: RunId)
    requires i < |later| - 1 && EndsWait(es, later[..|later| - 1], i, run)
    ensures EndsWait(es, later, i, run)
  {
    hide Next;
    var front, last := later[..|later| - 1], later[|later| - 1];
    assert front[..i] == later[..i];
    assert (es + later)[..|es + later| - 1] == es + front;
    if TakesOver(Run(es + later[..i]), later[i], run) && ExitOf(Run(es + front), later[i].id).Some? {
      ExitStays(Run(es + front), last, later[i].id);
    }
  }

  /** In every interleaving a requested completion waits until some handler takes the run over and acts as completed
      (or as the resource ceiling says) from then on, or until the timer fires in vain. */
  lemma {:induction false} RequestWaits(es: seq<Event>, later: seq<Event>, run: RunId)
    requires run in Run(es).fallbacks
    ensures run in Run(es + later).fallbacks || exists i :: 0 <= i < |later| && EndsWait(es, later, i, run)
  {
    hide Next, FiresInVain, TakesOver, EndsWait;
    if later == [] {
      assert es + later == es;
    } else {
      var front, last := later[..|later| - 1], later[|later| - 1];
      RequestWaits(es, front, run);
      assert es + later == es + front + [last];
      RunSnoc(es + front, last);
      if run in Run(es + front).fallbacks {
        StepEndsWait(Run(es + front), last, run);
        if run !in Run(es + later).fallbacks {
          LastEndsWait(es, later, run);
        }
      } else {
        var i :| 0 <= i < |front| && EndsWait(es, front, i, run);
        EndsWaitStays(es, later, i, run);
      }
    }
  }

  lemma LastEndsWait(es: seq<Event>, later: seq<Event>, run: RunId)
    requires later != []
    requires var p, e := Run(es + later[..|later| - 1]), later[|later| - 1];
            FiresInVain(p, e, run)
            || TakesOver(p, e, run)
    ensures EndsWait(es, later, |later| - 1, run)
  {
    hide Next, FiresInVain;
    assert (es + later)[..|es + later| - 1] == es + later[..|later| - 1];
  }

  /** The timer hands the run to a new handler exactly when it is not routed, still open, and nobody is finishing it. */
  lemma TimerActs(p: Protocol, id: HandlerId, run: RunId, runOpen: bool, ceiling: Option<Exit>, view: RunView)
    requires run in p.fallbacks && !Used(p, id)
    ensures var q := Next(p, TimerFires(id, run, runOpen, ceiling, view));
            && run !in q.fallbacks
            && (ExitOf(q, id) == Some(Capped(ceiling)) <==> run !in p.routed && runOpen && run !in p.finishing)
  {
    hide HandleSessionEnd;
    var q := Expired(p, run);
    EnterTakesOver(q, id, run, Completed, ceiling, view, id);
  }

  // ----- A timer that fires in vain can lose the request -----

  /** No timer is pending, nobody is finishing the run, and it was never routed. */
  predicate Lost(p: Protocol, run: RunId) {
    run !in p.fallbacks && run !in p.finishing && run !in p.routed
  }

  const OPEN: RunView := Found(true, false, false, true)

  /** A completion whose routing outlasts the timer of a second request, and then fails. */
  function SlowRouting(run: RunId): seq<Event> {
    [EndSession(1, run, None, OPEN), Resume(1, Resolves(true)), Resume(1, Resolves(true)),
     EndSession(2, run, None, OPEN), TimerFires(3, run, true, None, OPEN), Resume(1, Rejects(false))]
  }

  /** The first handler of that history, and the states it passes through. */
  function Slow(run: RunId, phase: Phase): Handler {
    SessionEnd(run, phase, Completed, false, false, false, ReleaseState(false, false, false), 0, 0)
  }

  function SlowState(run: RunId, waiting: bool, phase: Phase): Protocol {
    START.(fallbacks := if waiting then {run} else {}, finishing := {run}, handlers := map[1 := Slow(run, phase)])
  }

  lemma RunSnoc(es: seq<Event>, e: Event)
    ensures Run(es + [e]) == Next(Run(es), e)
  {
    assert (es + [e])[..|es|] == es;
  }

  lemma SlowFirst(run: RunId)
    ensures Next(START, EndSession(1, run, None, OPEN)) == SlowState(run, false, InDirtyCheck)
  {
  }

  lemma SlowResumes(run: RunId)
    ensures Next(SlowState(run, false, InDirtyCheck), Resume(1, Resolves(true))) == SlowState(run, false, InRelease)
    ensures Next(SlowState(run, false, InRelease), Resume(1, Resolves(true))) == SlowState(run, false, InRouting)
  {
  }

  lemma SlowRequest(run: RunId)
    ensures Next(SlowState(run, false, InRouting), EndSession(2, run, None, OPEN)) == SlowState(run, true, InRouting)
    ensures Next(SlowState(run, true, InRouting), TimerFires(3, run, true, None, OPEN))
            == SlowState(run, false, InRouting)
    ensures FiresInVain(SlowState(run, true, InRouting), TimerFires(3, run, true, None, OPEN), run)
  {
  }

  lemma SlowFails(run: RunId)
    ensures var q := Next(SlowState(run, false, InRouting), Resume(1, Rejects(false)));
            Lost(q, run)
            && run !in q.handled
  {
  }

  /** The request is lost: the timer fired for an open run and was refused, and then routing failed. */
  lemma RequestCanBeLost(run: RunId)
    ensures FiresInVain(Run(SlowRouting(run)[..4]), SlowRouting(run)[4], run) && SlowRouting(run)[4].runOpen
    ensures var p := Run(SlowRouting(run)); Lost(p, run) && run !in p.handled
  {
    var es := SlowRouting(run);
    hide Next, Lost, SlowState, FiresInVain;
    RunsFromStart();
    SlowFirst(run);
    SlowResumes(run);
    SlowRequest(run);
    SlowFails(run);
    RunSnoc(es[..0], es[0]);
    RunSnoc(es[..1], es[1]);
    RunSnoc(es[..2], es[2]);
    RunSnoc(es[..3], es[3]);
    RunSnoc(es[..4], es[4]);
    RunSnoc(es[..5], es[5]);
    assert es[..0] == [] && forall i :: 0 <= i < 6 ==> es[..i] + [es[i]] == es[..i + 1];
    assert es[..6] == es;
  }

  lemma RunsFromStart()
    ensures Run([]) == START
  {
  }

  // ----- and exactly when it does -----

  function HandlerAt(p: Protocol, id: HandlerId): Option<Handler> {
    if id in p.handlers then Some(p.handlers[id]) else if id in p.ended then Some(p.ended[id]) else None
  }

  /** Somebody asks again for the run to be finished. */
  predicate AsksFor(e: Event, run: RunId) {
    (StartsHandler(e) || e.RouteStored?) && e.run == run
  }

  /** The handler has the run to itself; nobody waits for it, and it is routed exactly if this handler routed it. */
  predicate HasToItself(p: Protocol, id: HandlerId, run: RunId) {
    var h := HandlerAt(p, id);
    && run !in p.fallbacks && h.Some? && h.value.SessionEnd? && h.value.run == run
    && (run in p.finishing <==> id in p.handlers && h.value.Guarded())
    && (run in p.routed <==> h.value.routed)
  }

  /** The two states look alike from the handler and its run. */
  predicate AlikeFor(p: Protocol, q: Protocol, id: HandlerId, run: RunId) {
    && HandlerAt(q, id) == HandlerAt(p, id) && (id in q.handlers <==> id in p.handlers)
    && (run in q.fallbacks <==> run in p.fallbacks) && (run in q.finishing <==> run in p.finishing)
    && (run in q.routed <==> run in p.routed) && (run in q.handled <==> run in p.handled)
  }

  lemma FinallyAlike(p: Protocol, k: HandlerId, h: Handler, completed: bool, id: HandlerId, run: RunId)
    requires h.SessionEnd? && k != id && h.run != run
    ensures AlikeFor(p, Finally(p, k, h, completed), id, run)
  {
  }

  lemma SuspendAlike(p: Protocol, k: HandlerId, h: Handler, phase: Phase, id: HandlerId, run: RunId)
    requires h.SessionEnd? && k != id && h.run != run
    ensures AlikeFor(p, Suspend(p, k, h, phase), id, run)
  {
  }

  lemma EntryThrough(p: Protocol, other: RunId, id: HandlerId, run: RunId)
    requires other != run
    ensures AlikeFor(p, p, id, run)
    ensures forall q ::
            AlikeFor(p.(fallbacks := p.fallbacks - {other}, finishing := p.finishing + {other}), q, id, run)
            ==> AlikeFor(p, q, id, run)
  {
  }

  lemma EnterAlike(p: Protocol, k: HandlerId, other: RunId, exit: Exit, ceiling: Option<Exit>, view: RunView,
      id: HandlerId, run: RunId)
    requires k != id && other != run
    ensures AlikeFor(p, HandleSessionEnd(p, k, other, exit, ceiling, view), id, run)
  {
    hide Finally, Suspend, AlikeFor;
    var q := p.(fallbacks := p.fallbacks - {other}, finishing := p.finishing + {other});
    var exit' := if ceiling.Some? then ceiling.value else if other in p.fallbacks then Completed else exit;
    var h := Entering(other, exit', other in p.active);
    EntryThrough(p, other, id, run);
    FinallyAlike(q, k, h, false, id, run);
    SuspendAlike(q, k, h, InLimits, id, run);
    SuspendAlike(q, k, h, InDirtyCheck, id, run);
    if view.Found? {
      FinallyAlike(q, k, h.(scheduledResume := view.resumes), false, id, run);
      SuspendAlike(q, k, h.(scheduledResume := view.resumes), InDirtyCheck, id, run);
    }
  }

  /** Changing only what concerns another run, and then nothing else for this one, keeps the states alike. */
  lemma AlikeThrough(p: Protocol, h: Handler, id: HandlerId, run: RunId)
    requires h.SessionEnd? && h.run != run
    ensures forall q :: AlikeFor(p.(active := ActiveAfterForget(p, h)), q, id, run) ==> AlikeFor(p, q, id, run)
    ensures forall q :: AlikeFor(p.(routed := p.routed + {h.run}, successes := p.successes + [h.run]), q, id, run) ==>
            AlikeFor(p, q, id, run)
  {
  }

  lemma ResumeAlike(p: Protocol, k: HandlerId, h: Handler, o: Outcome, id: HandlerId, run: RunId)
    requires k in p.handlers && p.handlers[k] == h && h.SessionEnd? && k != id
    requires h.run != run || h.phase == InFinalRelease
    ensures AlikeFor(p, ResumeSessionEnd(p, k, h, o), id, run)
  {
    if h.phase != InFinalRelease {
      hide Finally, Suspend, AlikeFor, ActiveAfterForget;
      var q, r := p.(active := ActiveAfterForget(p, h)),
          p.(routed := p.routed + {h.run}, successes := p.successes + [h.run]);
      AlikeThrough(p, h, id, run);
      FinallyAlike(p, k, h, false, id, run);
      match h.phase
      case InLimits => SuspendAlike(p, k, h, InDirtyCheck, id, run);
      case InDirtyCheck =>
        FinallyAlike(p, k, h, true, id, run);
        SuspendAlike(p, k, Releasing(h), InRelease, id, run);
        SuspendAlike(p, k, h, InCleanup, id, run);
      case InRelease =>
        FinallyAlike(q, k, ForgetAndRelease(h), true, id, run);
        SuspendAlike(q, k, ForgetAndRelease(h), InRouting, id, run);
      case InRouting => SuspendAlike(r, k, h.(routed := true), InCleanup, id, run);
      case InCleanup => FinallyAlike(p, k, h, true, id, run);
    }
  }

  lemma FinallyKeepsRun(p: Protocol, id: HandlerId, h: Handler, completed: bool)
    requires h.SessionEnd? && h.run !in p.fallbacks && (h.run in p.routed <==> h.routed)
    ensures HasToItself(Finally(p, id, h, completed), id, h.run)
  {
  }

  lemma SuspendKeepsRun(p: Protocol, id: HandlerId, h: Handler, phase: Phase)
    requires h.SessionEnd? && h.run !in p.fallbacks && (h.run in p.routed <==> h.routed)
    requires h.run in p.finishing && phase != InFinalRelease
    ensures HasToItself(Suspend(p, id, h, phase), id, h.run)
  {
  }

  lemma ResumeKeepsRun(p: Protocol, id: HandlerId, h: Handler, o: Outcome)
    requires id in p.handlers && p.handlers[id] == h && h.SessionEnd? && HasToItself(p, id, h.run)
    ensures HasToItself(ResumeSessionEnd(p, id, h, o), id, h.run)
  {
    if h.phase != InFinalRelease {
      hide Finally, Suspend;
      var q, r := p.(active := ActiveAfterForget(p, h)),
          p.(routed := p.routed + {h.run}, successes := p.successes + [h.run]);
      FinallyKeepsRun(p, id, h, false);
      match h.phase
      case InLimits => SuspendKeepsRun(p, id, h, InDirtyCheck);
      case InDirtyCheck =>
        FinallyKeepsRun(p, id, h, true);
        SuspendKeepsRun(p, id, Releasing(h), InRelease);
        SuspendKeepsRun(p, id, h, InCleanup);
      case InRelease =>
        FinallyKeepsRun(q, id, ForgetAndRelease(h), true);
        SuspendKeepsRun(q, id, ForgetAndRelease(h), InRouting);
      case InRouting => SuspendKeepsRun(r, id, h.(routed := true), InCleanup);
      case InCleanup => FinallyKeepsRun(p, id, h, true);
    }
  }

  /** The event takes a step of this handler. */
  predicate Moves(p: Protocol, e: Event, id: HandlerId) {
    if e.Resume? then e.id == id
    else if e.SessionStarts? || e.SessionRemoved? then false
    else e.id == id && !Used(p, id)
  }

  /** If anybody is finishing the run, it is this handler. */
  ghost predicate NobodyElse(p: Protocol, id: HandlerId, run: RunId) {
    run in p.finishing ==> id in p.handlers && p.handlers[id].Guarded() && p.handlers[id].run == run
  }

  /** A handler of the run other than that one has let it go. */
  lemma HandlersOfRun(p: Protocol, id: HandlerId, k: HandlerId, run: RunId)
    requires Inv(p) && NobodyElse(p, id, run) && k in p.handlers && k != id
    ensures p.handlers[k].run == run ==> !p.handlers[k].Guarded()
  {
    assert HandlerOk(p, p.handlers[k]);
  }

  lemma QuietStep(p: Protocol, e: Event, id: HandlerId, run: RunId)
    requires Inv(p) && NobodyElse(p, id, run) && !AsksFor(e, run) && !Moves(p, e, id)
    ensures AlikeFor(p, Next(p, e), id, run)
  {
    hide HandleSessionEnd, ResumeSessionEnd, Inv, NobodyElse;
    match e
    case SessionStarts(_) =>
    case SessionRemoved(_) =>
    case HarnessCompletes(k, r, exit, ceiling, view) =>
      if !Used(p, k) {
        EnterAlike(p, k, r, exit, ceiling, view, id, run);
      }
    case EndSession(k, r, ceiling, view) =>
      if !Used(p, k) {
        EnterAlike(Requested(p, r), k, r, Completed, ceiling, view, id, run);
      }
    case TimerFires(k, r, runOpen, ceiling, view) =>
      if !Used(p, k) {
        EnterAlike(Expired(p, r), k, r, Completed, ceiling, view, id, run);
      }
    case RouteStored(k, r, runOpen) =>
    case Resume(k, o) =>
      if k in p.handlers {
        HandlersOfRun(p, id, k, run);
        if p.handlers[k].SessionEnd? {
          ResumeAlike(p, k, p.handlers[k], o, id, run);
        }
      }
  }

  /** Once nobody finishes the run or waits for it, it stays as it is until somebody asks. */
  lemma RunRests(p: Protocol, e: Event, run: RunId)
    requires Inv(p) && run !in p.finishing && !AsksFor(e, run)
    ensures var q := Next(p, e);
            && run !in q.finishing && (run in q.fallbacks <==> run in p.fallbacks)
            && (run in q.routed <==> run in p.routed) && (run in q.handled <==> run in p.handled)
  {
    hide Next, Inv;
    var id := if e.SessionStarts? || e.SessionRemoved? then 0 else e.id + 1;
    QuietStep(p, e, id, run);
  }

  lemma {:induction false} HistoryRests(es: seq<Event>, later: seq<Event>, run: RunId)
    requires run !in Run(es).finishing && forall e <- later :: !AsksFor(e, run)
    ensures var p, q := Run(es), Run(es + later);
            && run !in q.finishing && (run in q.fallbacks <==> run in p.fallbacks)
            && (run in q.routed <==> run in p.routed) && (run in q.handled <==> run in p.handled)
    decreases |later|
  {
    hide Next, AsksFor, Run;
    if later == [] {
      assert es + later == es;
    } else {
      RunKeepsInv(es);
      RunSnoc(es, later[0]);
      RunRests(Run(es), later[0], run);
      assert es + later == es + [later[0]] + later[1..];
      HistoryRests(es + [later[0]], later[1..], run);
    }
  }

  // ----- from the handler that holds the run and how its awaits end -----

  /** How the awaits of one handler end, in order. */
  function Outcomes(es: seq<Event>, id: HandlerId): seq<Outcome> {
    if es == [] then []
    else (if es[0].Resume? && es[0].id == id then [es[0].outcome] else []) + Outcomes(es[1..], id)
  }

  lemma OutcomesNext(es: seq<Event>, id: HandlerId)
    requires es != []
    ensures Outcomes(es, id) ==
            if es[0].Resume? && es[0].id == id then [es[0].outcome] + Outcomes(es[1..], id) else Outcomes(es[1..], id)
  {
  }

  /** The awaits of a completed session that are still to end before it is routed. */
  function AwaitsToRouting(phase: Phase): seq<Phase> {
    match phase
    case InLimits => [InLimits, InDirtyCheck, InRelease, InRouting]
    case InDirtyCheck => [InDirtyCheck, InRelease, InRouting]
    case InRelease => [InRelease, InRouting]
    case InRouting => [InRouting]
    case InCleanup => []
    case InFinalRelease => []
  }

  /** Without an active session there is nothing to release, and a failed cleanup is only logged. */
  predicate EndsWell(phase: Phase, hadActive: bool, o: Outcome) {
    if phase == InLimits then o.Resolves? && o.stillThere
    else o.Resolves? || (phase == InRelease && !hadActive) || phase == InCleanup
  }

  predicate AllEndWell(awaits: seq<Phase>, hadActive: bool, outcomes: seq<Outcome>) {
    |awaits| <= |outcomes| && forall i :: 0 <= i < |awaits| ==> EndsWell(awaits[i], hadActive, outcomes[i])
  }

  /** The session completed, and all its awaits up to routing end well. */
  predicate WillRoute(h: Handler, outcomes: seq<Outcome>)
    requires h.SessionEnd?
  {
    var awaits := AwaitsToRouting(h.phase);
    h.exit == Completed && awaits != [] && AllEndWell(awaits, h.hadActive, outcomes)
  }

  lemma AwaitEnds(h: Handler, phase: Phase, o: Outcome, rest: seq<Outcome>)
    requires h.SessionEnd? && AwaitsToRouting(h.phase) == [h.phase] + AwaitsToRouting(phase)
    requires AwaitsToRouting(phase) != []
    ensures WillRoute(h, [o] + rest) <==>
            EndsWell(h.phase, h.hadActive, o) && WillRoute(h.(phase := phase), rest)
  {
    hide EndsWell, AwaitsToRouting, AllEndWell;
    FirstEndsWell(h.phase, AwaitsToRouting(phase), h.hadActive, o, rest);
  }

  lemma FirstEndsWell(phase: Phase, awaits: seq<Phase>, hadActive: bool, o: Outcome, rest: seq<Outcome>)
    ensures AllEndWell([phase] + awaits, hadActive, [o] + rest) <==>
            EndsWell(phase, hadActive, o) && AllEndWell(awaits, hadActive, rest)
  {
    hide EndsWell;
    var longer, outcomes := [phase] + awaits, [o] + rest;
    assert longer[0] == phase && outcomes[0] == o;
    assert forall i :: 0 <= i < |awaits| ==> awaits[i] == longer[i + 1];
    assert forall i :: 0 <= i < |rest| ==> rest[i] == outcomes[i + 1];
  }

  /** One await of the handler ends: whether it will route is settled by the rest, or now. */
  lemma ResumeRoutes(p: Protocol, id: HandlerId, o: Outcome, rest: seq<Outcome>)
    requires id in p.handlers && p.handlers[id].SessionEnd? && p.handlers[id].Guarded() && Disciplined(p.handlers[id])
    ensures var h, h' := p.handlers[id], HandlerAt(ResumeSessionEnd(p, id, p.handlers[id], o), id);
            && h'.Some? && h'.value.SessionEnd?
            && (h.routed || WillRoute(h, [o] + rest) <==>
                h'.value.routed
                || (id in ResumeSessionEnd(p, id, h, o).handlers && h'.value.Guarded() && WillRoute(h'.value, rest)))
  {
    var h := p.handlers[id];
    match h.phase
    case InLimits => AwaitEnds(h, InDirtyCheck, o, rest);
    case InDirtyCheck => AwaitEnds(h, InRelease, o, rest);
    case InRelease => AwaitEnds(h, InRouting, o, rest);
    case InRouting =>
      assert WillRoute(h, [o] + rest) <==> h.exit == Completed && EndsWell(InRouting, h.hadActive, ([o] + rest)[0]);
    case InCleanup =>
  }

  /** A session-end handler has the run to itself and has not let it go. */
  predicate Holds(p: Protocol, id: HandlerId, run: RunId) {
    && id in p.handlers && p.handlers[id].SessionEnd? && p.handlers[id].Guarded()
    && p.handlers[id].run == run && run !in p.fallbacks
  }

  lemma HolderHasRun(p: Protocol, id: HandlerId, run: RunId)
    requires Inv(p) && Holds(p, id, run)
    ensures HasToItself(p, id, run) && NobodyElse(p, id, run)
  {
    assert HandlerOk(p, p.handlers[id]);
  }

  lemma HolderMoves(p: Protocol, e: Event, id: HandlerId, run: RunId, rest: seq<Outcome>)
    requires Inv(p) && AllDisciplined(p) && Holds(p, id, run) && e.Resume? && e.id == id
    ensures var h, q := p.handlers[id], Next(p, e);
            var routes := h.routed || WillRoute(h, [e.outcome] + rest);
            if Holds(q, id, run) then routes == (q.handlers[id].routed || WillRoute(q.handlers[id], rest))
            else run !in q.finishing && run !in q.fallbacks && routes == (run in q.routed)
  {
    HolderHasRun(p, id, run);
    ResumeRoutes(p, id, e.outcome, rest);
    ResumeKeepsRun(p, id, p.handlers[id], e.outcome);
    hide Inv, AllDisciplined, ResumeSessionEnd, WillRoute, NobodyElse;
  }

  lemma HolderWaits(p: Protocol, e: Event, id: HandlerId, run: RunId)
    requires Inv(p) && Holds(p, id, run) && !AsksFor(e, run) && !(e.Resume? && e.id == id)
    ensures Holds(Next(p, e), id, run) && Next(p, e).handlers[id] == p.handlers[id]
  {
    HolderHasRun(p, id, run);
    hide Next, Inv;
    QuietStep(p, e, id, run);
  }

  /** When the handler has let the run go, the run is routed exactly if the handler had routed it already or its
      awaits ended well. */
  lemma {:induction false} HoldersFate(es: seq<Event>, later: seq<Event>, id: HandlerId, run: RunId)
    requires Holds(Run(es), id, run) && forall e <- later :: !AsksFor(e, run)
    ensures var h, q := Run(es).handlers[id], Run(es + later);
            && run !in q.fallbacks
            && (run !in q.finishing ==> (run in q.routed <==> h.routed || WillRoute(h, Outcomes(later, id))))
    decreases |later|
  {
    RunKeepsInv(es);
    RunDisciplined(es);
    hide Run, Next, AsksFor, Holds, WillRoute, Inv, AllDisciplined;
    if later == [] {
      assert es + later == es;
      HolderFinishes(Run(es), id, run);
    } else {
      var e, rest := later[0], later[1..];
      RunSnoc(es, e);
      OutcomesNext(later, id);
      assert es + later == es + [e] + rest;
      if e.Resume? && e.id == id {
        HolderMoves(Run(es), e, id, run, Outcomes(rest, id));
        if Holds(Run(es + [e]), id, run) {
          HoldersFate(es + [e], rest, id, run);
        } else {
          HistoryRests(es + [e], rest, run);
        }
      } else {
        HolderWaits(Run(es), e, id, run);
        HoldersFate(es + [e], rest, id, run);
      }
    }
  }

  /** A timer that is refused because the run is being finished leaves it to a session-end handler or to the routing
      of a stored completion. */
  lemma RefusedRequestHasHolder(es: seq<Event>, e: Event, run: RunId) returns (id: HandlerId)
    requires FiresInVain(Run(es), e, run) && run in Run(es).finishing
    ensures var p := Run(es + [e]);
            Holds(p, id, run) || (id in p.handlers && p.handlers[id] == StoredCompletion(run) && run !in p.fallbacks)
  {
    RunKeepsInv(es);
    RunSnoc(es, e);
    hide Run;
    var p := Run(es);
    assert Held(p, run);
    id :| id in p.handlers && p.handlers[id].Guarded() && p.handlers[id].run == run;
  }

  lemma HolderFinishes(p: Protocol, id: HandlerId, run: RunId)
    requires Inv(p) && Holds(p, id, run)
    ensures run in p.finishing && run !in p.fallbacks
  {
    assert HandlerOk(p, p.handlers[id]);
  }

  /** The timer of a request has fired while a session-end handler holds the run, and nobody asks again. Once
      the run is let go, the request is lost exactly if that handler had not routed the run already and it is
      not so that its session completed and its awaits up to routing all end well. */
  lemma RefusedRequestIsLostExactly(es: seq<Event>, later: seq<Event>, id: HandlerId, run: RunId)
    requires Holds(Run(es), id, run) && forall e <- later :: !AsksFor(e, run)
    ensures var h, q := Run(es).handlers[id], Run(es + later);
            Lost(q, run) <==> run !in q.finishing && !h.routed && !WillRoute(h, Outcomes(later, id))
  {
    HoldersFate(es, later, id, run);
  }

  /** A session that did not complete loses every request refused while it is being ended. */
  lemma OtherExitsLoseTheRequest(es: seq<Event>, later: seq<Event>, id: HandlerId, run: RunId)
    requires Holds(Run(es), id, run) && forall e <- later :: !AsksFor(e, run)
    requires Run(es).handlers[id].exit != Completed && run !in Run(es + later).finishing
    ensures Lost(Run(es + later), run)
  {
    RunDisciplined(es);
    RefusedRequestIsLostExactly(es, later, id, run);
    hide Run;
    assert Disciplined(Run(es).handlers[id]);
  }

  lemma StoredMoves(p: Protocol, id: HandlerId, run: RunId, o: Outcome)
    requires Inv(p) && id in p.handlers && p.handlers[id] == StoredCompletion(run)
    ensures run in p.finishing && run !in p.routed
    ensures var q := Next(p, Resume(id, o));
            run !in q.finishing && (run in q.routed <==> o.Resolves?) && q.fallbacks == p.fallbacks
  {
    assert HandlerOk(p, p.handlers[id]);
  }

  lemma StoredWaits(p: Protocol, e: Event, id: HandlerId, run: RunId)
    requires Inv(p) && id in p.handlers && p.handlers[id] == StoredCompletion(run)
    requires !AsksFor(e, run) && !(e.Resume? && e.id == id)
    ensures var q := Next(p, e);
            id in q.handlers && q.handlers[id] == StoredCompletion(run) && (run in q.fallbacks <==> run in p.fallbacks)
  {
    hide Next, Inv;
    QuietStep(p, e, id, run);
  }

  /** While the routing of a stored completion holds the run, a refused request is lost exactly if that routing
      rejects. */
  lemma {:induction false} RefusedByStoredIsLostExactly(es: seq<Event>, later: seq<Event>, id: HandlerId, run: RunId)
    requires id in Run(es).handlers && Run(es).handlers[id] == StoredCompletion(run) && run !in Run(es).fallbacks
    requires forall e <- later :: !AsksFor(e, run)
    ensures var q, outcomes := Run(es + later), Outcomes(later, id);
            && (run in q.finishing <==> outcomes == [])
            && (Lost(q, run) <==> outcomes != [] && outcomes[0].Rejects?)
    decreases |later|
  {
    RunKeepsInv(es);
    hide Run, Next, AsksFor, Inv;
    StoredMoves(Run(es), id, run, Resolves(true));
    if later == [] {
      assert es + later == es;
    } else {
      var e, rest := later[0], later[1..];
      RunSnoc(es, e);
      OutcomesNext(later, id);
      assert es + later == es + [e] + rest;
      if e.Resume? && e.id == id {
        StoredMoves(Run(es), id, run, e.outcome);
        HistoryRests(es + [e], rest, run);
      } else {
        StoredWaits(Run(es), e, id, run);
        RefusedByStoredIsLostExactly(es + [e], rest, id, run);
      }
    }
  }

  // ----- From the event that starts a handler to its end -----

  /** The event starts a session-end handler: the run is not being finished, and is not settled for that source. */
  predicate Starts(p: Protocol, e: Event) {
    && StartsHandler(e) && !Used(p, e.id) && e.run !in p.finishing
    && (e.HarnessCompletes? ==> e.run !in p.handled)
    && (!e.HarnessCompletes? ==> e.run !in p.routed)
    && (e.TimerFires? ==> e.run in p.fallbacks && e.runOpen)
  }

  /** The exit the handler acts on: the ceiling's, else completed if that was requested, else the reported one. */
  function StartExit(p: Protocol, e: Event): Exit
    requires StartsHandler(e)
  {
    match e.ceiling
    case Some(exit) => exit
    case None => if e.HarnessCompletes? && e.run !in p.fallbacks then e.exit else Completed
  }

  /** A crashed or timed-out session of an open run before its last stage is scheduled to resume, if it can. */
  predicate WillResume(exit: Exit, view: RunView) {
    view.Found? && exit in {Crashed, Timeout} && view.open && !view.stageDone && view.resumes
  }

  /** A session that failed or hit a limit on an open run. */
  predicate AsksForLimits(exit: Exit, view: RunView) {
    view.Found? && exit in {Failed, PausedMaxTurns, PausedCostBudget} && view.open
  }

  /** The awaits a session-end handler goes through while they end well, from the dirty check on: a completed session
      is released, routed and cleaned up; one that resumes keeps its worktrees; any other is cleaned up. */
  function FromDirtyCheck(exit: Exit, resumes: bool): seq<Phase> {
    if exit == Completed then [InDirtyCheck, InRelease, InRouting, InCleanup]
    else if resumes then [InDirtyCheck]
    else [InDirtyCheck, InCleanup]
  }

  /** All its awaits; none when the run is missing, gone on the second reading, or cannot be read. */
  function Script(exit: Exit, view: RunView): seq<Phase> {
    if !view.Found? then []
    else if AsksForLimits(exit, view) then [InLimits] + FromDirtyCheck(exit, false)
    else if view.stillThere then FromDirtyCheck(exit, WillResume(exit, view))
    else []
  }

  /** What is left of them at a phase. */
  function ScriptFrom(phase: Phase, exit: Exit, resumes: bool): seq<Phase> {
    match phase
    case InLimits => [InLimits] + FromDirtyCheck(exit, resumes)
    case InDirtyCheck => FromDirtyCheck(exit, resumes)
    case InRelease => [InRelease, InRouting, InCleanup]
    case InRouting => [InRouting, InCleanup]
    case InCleanup => [InCleanup]
    case InFinalRelease => []
  }

  /** Where a handler stands: in an await, or past the last one; `settles` if it marks the run as handled. */
  datatype Stand = In(phase: Phase) | LetGo(settles: bool)

  /** The early release failed, and that could be recorded. */
  predicate ReleaseFails(phase: Phase, o: Outcome) {
    phase == InRelease && o.Rejects? && !o.recordThrows
  }

  /** The awaits that have ended well, and where the handler stands then. */
  function Progress(awaits: seq<Phase>, hadActive: bool, outcomes: seq<Outcome>): (seq<Phase>, Stand) {
    if awaits == [] then ([], LetGo(true))
    else if outcomes == [] then ([], In(awaits[0]))
    else if !EndsWell(awaits[0], hadActive, outcomes[0])
    then ([], LetGo(ReleaseFails(awaits[0], outcomes[0])))
    else
      var (passed, stand) := Progress(awaits[1..], hadActive, outcomes[1..]);
      ([awaits[0]] + passed, stand)
  }

  /** A handler whose run is missing, unreadable or gone lets it go at once and settles nothing. */
  function ProgressOf(exit: Exit, view: RunView, hadActive: bool, outcomes: seq<Outcome>): (seq<Phase>, Stand) {
    if Script(exit, view) == [] then ([], LetGo(false)) else Progress(Script(exit, view), hadActive, outcomes)
  }

  /** The handler stands there, after routing exactly if that is among the awaits passed. */
  predicate StandsAt(p: Protocol, id: HandlerId, stand: Stand, routed: bool) {
    var h := HandlerAt(p, id);
    && h.Some? && h.value.SessionEnd? && h.value.routed == routed
    && match stand
       case In(phase) => id in p.handlers && h.value.phase == phase && phase != InFinalRelease
       case LetGo(_) => id in p.handlers ==> h.value.phase == InFinalRelease
  }

  /** The handler is untouched. */
  predicate Leaves(p: Protocol, q: Protocol, id: HandlerId) {
    HandlerAt(q, id) == HandlerAt(p, id) && (id in q.handlers <==> id in p.handlers)
  }

  lemma FinallyLeaves(p: Protocol, k: HandlerId, h: Handler, completed: bool, id: HandlerId)
    requires h.SessionEnd? && k != id
    ensures Leaves(p, Finally(p, k, h, completed), id)
  {
  }

  lemma SuspendLeaves(p: Protocol, k: HandlerId, h: Handler, phase: Phase, id: HandlerId)
    requires h.SessionEnd? && k != id
    ensures Leaves(p, Suspend(p, k, h, phase), id)
  {
  }

  lemma EnterLeaves(p: Protocol, k: HandlerId, run: RunId, exit: Exit, ceiling: Option<Exit>, view: RunView,
      id: HandlerId)
    requires k != id
    ensures Leaves(p, HandleSessionEnd(p, k, run, exit, ceiling, view), id)
  {
    hide Finally, Suspend, Leaves;
    var q := p.(fallbacks := p.fallbacks - {run}, finishing := p.finishing + {run});
    LeavesThrough(p, q, id);
    var exit' := if ceiling.Some? then ceiling.value else if run in p.fallbacks then Completed else exit;
    var h := Entering(run, exit', run in p.active);
    FinallyLeaves(q, k, h, false, id);
    SuspendLeaves(q, k, h, InLimits, id);
    SuspendLeaves(q, k, h, InDirtyCheck, id);
    if view.Found? {
      FinallyLeaves(q, k, h.(scheduledResume := view.resumes), false, id);
      SuspendLeaves(q, k, h.(scheduledResume := view.resumes), InDirtyCheck, id);
    }
  }

  lemma ResumeLeaves(p: Protocol, k: HandlerId, h: Handler, o: Outcome, id: HandlerId)
    requires h.SessionEnd? && k != id
    ensures Leaves(p, ResumeSessionEnd(p, k, h, o), id)
  {
    var q, r := p.(active := ActiveAfterForget(p, h)),
        p.(routed := p.routed + {h.run}, successes := p.successes + [h.run]);
    LeavesThrough(p, q, id);
    LeavesThrough(p, r, id);
    EndLeaves(p, k, h, id);
    hide Finally, Suspend, ActiveAfterForget, Leaves;
    FinallyLeaves(p, k, h, false, id);
    FinallyLeaves(p, k, h, true, id);
    match h.phase
    case InLimits => SuspendLeaves(p, k, h, InDirtyCheck, id);
    case InDirtyCheck =>
      SuspendLeaves(p, k, Releasing(h), InRelease, id);
      SuspendLeaves(p, k, h, InCleanup, id);
    case InRelease =>
      FinallyLeaves(q, k, ForgetAndRelease(h), true, id);
      SuspendLeaves(q, k, ForgetAndRelease(h), InRouting, id);
    case InRouting => SuspendLeaves(r, k, h.(routed := true), InCleanup, id);
    case _ =>
  }

  lemma LeavesThrough(p: Protocol, q: Protocol, id: HandlerId)
    requires p.handlers == q.handlers && p.ended == q.ended
    ensures Leaves(p, p, id) && forall r :: Leaves(q, r, id) ==> Leaves(p, r, id)
  {
  }

  lemma EndLeaves(p: Protocol, k: HandlerId, h: Handler, id: HandlerId)
    requires k != id
    ensures Leaves(p, p.(handlers := p.handlers - {k}, ended := p.ended[k := h]), id)
  {
  }

  /** The events of other handlers leave this one where it is. */
  lemma Unmoved(p: Protocol, e: Event, id: HandlerId)
    requires Used(p, id) && !Moves(p, e, id)
    ensures Leaves(p, Next(p, e), id)
  {
    hide HandleSessionEnd, ResumeSessionEnd;
    match e
    case HarnessCompletes(k, r, exit, ceiling, view) =>
      if !Used(p, k) {
        EnterLeaves(p, k, r, exit, ceiling, view, id);
      }
    case EndSession(k, r, ceiling, view) =>
      if !Used(p, k) {
        EnterLeaves(Requested(p, r), k, r, Completed, ceiling, view, id);
      }
    case TimerFires(k, r, runOpen, ceiling, view) =>
      if !Used(p, k) {
        EnterLeaves(Expired(p, r), k, r, Completed, ceiling, view, id);
      }
    case Resume(k, o) =>
      if k in p.handlers && p.handlers[k].SessionEnd? {
        ResumeLeaves(p, k, p.handlers[k], o, id);
      }
    case _ =>
  }

  /** What a handler keeps from its start. */
  predicate SameSession(h: Handler, g: Handler) {
    h.SessionEnd? && g.SessionEnd? && g.run == h.run && g.exit == h.exit && g.hadActive == h.hadActive
    && g.scheduledResume == h.scheduledResume
  }

  predicate Continues(h: Handler, p: Protocol, id: HandlerId) {
    HandlerAt(p, id).Some? && SameSession(h, HandlerAt(p, id).value)
  }

  lemma FinallyStands(p: Protocol, id: HandlerId, h: Handler, completed: bool)
    requires h.SessionEnd?
    ensures var q := Finally(p, id, h, completed);
            StandsAt(q, id, LetGo(completed), h.routed) && Continues(h, q, id)
  {
  }

  lemma SuspendStands(p: Protocol, id: HandlerId, h: Handler, phase: Phase)
    requires h.SessionEnd? && phase != InFinalRelease
    ensures var q := Suspend(p, id, h, phase);
            StandsAt(q, id, In(phase), h.routed) && Continues(h, q, id)
  {
  }

  /** One await of a handler ends. */
  lemma ResumeProgresses(p: Protocol, id: HandlerId, h: Handler, o: Outcome)
    requires id in p.handlers && p.handlers[id] == h && h.SessionEnd? && h.Guarded()
    ensures Continues(h, ResumeSessionEnd(p, id, h, o), id)
    ensures var q, rest := ResumeSessionEnd(p, id, h, o), ScriptFrom(h.phase, h.exit, h.scheduledResume);
            if !EndsWell(h.phase, h.hadActive, o)
            then StandsAt(q, id, LetGo(ReleaseFails(h.phase, o)), h.routed)
            else if |rest| == 1 then StandsAt(q, id, LetGo(true), h.routed)
            else
              && StandsAt(q, id, In(rest[1]), h.routed || h.phase == InRouting)
              && ScriptFrom(rest[1], h.exit, h.scheduledResume) == rest[1..]
  {
    hide Finally, Suspend, StandsAt, ActiveAfterForget;
    var q, r := p.(active := ActiveAfterForget(p, h)),
        p.(routed := p.routed + {h.run}, successes := p.successes + [h.run]);
    FinallyStands(p, id, h, false);
    FinallyStands(p, id, h, true);
    match h.phase
    case InLimits => SuspendStands(p, id, h, InDirtyCheck);
    case InDirtyCheck =>
      SuspendStands(p, id, Releasing(h), InRelease);
      SuspendStands(p, id, h, InCleanup);
    case InRelease =>
      FinallyStands(q, id, ForgetAndRelease(h), true);
      SuspendStands(q, id, ForgetAndRelease(h), InRouting);
    case InRouting => SuspendStands(r, id, h.(routed := true), InCleanup);
    case InCleanup =>
  }

  /** A handler that has let go stays there. */
  lemma LetGoStays(p: Protocol, e: Event, id: HandlerId, settles: bool, routed: bool)
    requires StandsAt(p, id, LetGo(settles), routed)
    ensures StandsAt(Next(p, e), id, LetGo(settles), routed) && HandlerAt(Next(p, e), id) == HandlerAt(p, id)
  {
    hide Next;
    if !Moves(p, e, id) {
      Unmoved(p, e, id);
    } else if id in p.handlers {
      FinalReleaseEnds(p, id, e.outcome);
    } else {
      NothingToResume(p, id, e.outcome);
    }
  }

  lemma NothingToResume(p: Protocol, id: HandlerId, o: Outcome)
    requires id !in p.handlers
    ensures Next(p, Resume(id, o)) == p
  {
  }

  lemma FinalReleaseEnds(p: Protocol, id: HandlerId, o: Outcome)
    requires id in p.handlers && p.handlers[id].SessionEnd? && p.handlers[id].phase == InFinalRelease
    ensures var q := Next(p, Resume(id, o)); id !in q.handlers && HandlerAt(q, id) == HandlerAt(p, id)
  {
  }

  /** Where a handler stands after any later history, whatever other handlers do, is decided by the awaits it had
      before it and how they ended. */
  lemma {:induction false} HandlerProgresses(es: seq<Event>, later: seq<Event>, id: HandlerId)
    requires id in Run(es).handlers && Run(es).handlers[id].SessionEnd? && Run(es).handlers[id].Guarded()
    ensures var h := Run(es).handlers[id];
            var (passed, stand) := Progress(ScriptFrom(h.phase, h.exit, h.scheduledResume), h.hadActive,
                Outcomes(later, id));
            StandsAt(Run(es + later), id, stand, h.routed || InRouting in passed) && Continues(h, Run(es + later), id)
    decreases |later|
  {
    hide Run, Next, StandsAt, EndsWell, ScriptFrom, ReleaseFails;
    var h := Run(es).handlers[id];
    Standing(Run(es), id);
    if later == [] {
      assert es + later == es;
    } else {
      var e, rest := later[0], later[1..];
      RunSnoc(es, e);
      OutcomesNext(later, id);
      assert es + later == es + [e] + rest;
      if e.Resume? && e.id == id {
        ResumesHandler(Run(es), id, e.outcome);
        ResumeProgresses(Run(es), id, h, e.outcome);
        var script := ScriptFrom(h.phase, h.exit, h.scheduledResume);
        if EndsWell(h.phase, h.hadActive, e.outcome) && |script| > 1 {
          HasStand(Run(es + [e]), id, script[1]);
          HandlerProgresses(es + [e], rest, id);
        } else {
          LetGoForGood(es + [e], rest, id, if EndsWell(h.phase, h.hadActive, e.outcome) then true
              else ReleaseFails(h.phase, e.outcome), h.routed);
        }
      } else {
        Unmoved(Run(es), e, id);
        HandlerProgresses(es + [e], rest, id);
      }
    }
  }

  lemma Standing(p: Protocol, id: HandlerId)
    requires id in p.handlers && p.handlers[id].SessionEnd? && p.handlers[id].Guarded()
    ensures var h := p.handlers[id];
            var script := ScriptFrom(h.phase, h.exit, h.scheduledResume);
            && StandsAt(p, id, In(h.phase), h.routed) && |script| > 0 && script[0] == h.phase
            && (|script| == 1 ==> h.phase != InRouting)
  {
  }

  lemma ResumesHandler(p: Protocol, id: HandlerId, o: Outcome)
    requires id in p.handlers && p.handlers[id].SessionEnd?
    ensures Next(p, Resume(id, o)) == ResumeSessionEnd(p, id, p.handlers[id], o)
  {
  }

  lemma HasStand(p: Protocol, id: HandlerId, phase: Phase)
    requires exists routed :: StandsAt(p, id, In(phase), routed)
    ensures id in p.handlers && p.handlers[id].SessionEnd? && p.handlers[id].Guarded() && p.handlers[id].phase == phase
    ensures forall routed :: StandsAt(p, id, In(phase), routed) ==> p.handlers[id].routed == routed
  {
  }

  lemma {:induction false} LetGoForGood(es: seq<Event>, later: seq<Event>, id: HandlerId, settles: bool, routed: bool)
    requires StandsAt(Run(es), id, LetGo(settles), routed)
    ensures StandsAt(Run(es + later), id, LetGo(settles), routed)
    ensures HandlerAt(Run(es + later), id) == HandlerAt(Run(es), id)
    decreases |later|
  {
    hide Run, Next, StandsAt;
    if later == [] {
      assert es + later == es;
    } else {
      RunSnoc(es, later[0]);
      LetGoStays(Run(es), later[0], id, settles, routed);
      assert es + later == es + [later[0]] + later[1..];
      LetGoForGood(es + [later[0]], later[1..], id, settles, routed);
    }
  }

  predicate NotCleaned(p: Protocol, id: HandlerId) {
    HandlerAt(p, id).Some? && HandlerAt(p, id).value.SessionEnd? && HandlerAt(p, id).value.phase != InCleanup
  }

  /** How a handler begins. */
  ghost predicate Begins(p: Protocol, q: Protocol, e: Event)
    requires StartsHandler(e)
  {
    var script := Script(StartExit(p, e), e.view);
    && e.run !in q.fallbacks && e.run !in q.handled && (e.run in q.routed <==> e.run in p.routed)
    && if script == [] then StandsAt(q, e.id, LetGo(false), false) && e.run !in q.finishing && NotCleaned(q, e.id)
       else
         && StandsAt(q, e.id, In(script[0]), false) && e.run in q.finishing
         && var h := q.handlers[e.id];
            && h.run == e.run && h.exit == StartExit(p, e) && h.hadActive == (e.run in p.active)
            && ScriptFrom(h.phase, h.exit, h.scheduledResume) == script
  }

  lemma ScriptBegins(exit: Exit, view: RunView)
    ensures var script := Script(exit, view);
            if !view.Found? then script == []
            else if exit in {Failed, PausedMaxTurns, PausedCostBudget} && view.open
            then script == ScriptFrom(InLimits, exit, false) && script != [] && script[0] == InLimits
            else if !view.stillThere then script == []
            else
              var resumes := exit in {Crashed, Timeout} && !view.stageDone && view.open && view.resumes;
              script == ScriptFrom(InDirtyCheck, exit, resumes) && script != [] && script[0] == InDirtyCheck
  {
  }

  lemma BeginsIn(p: Protocol, q: Protocol, e: Event, h: Handler, phase: Phase)
    requires StartsHandler(e) && e.run !in q.fallbacks && e.run !in q.handled && q.routed == p.routed
    requires e.run in q.finishing && StandsAt(q, e.id, In(phase), false)
    requires HandlerAt(q, e.id) == Some(h) && h.SessionEnd?
    requires h.run == e.run && h.exit == StartExit(p, e) && h.hadActive == (e.run in p.active)
    requires var script := Script(StartExit(p, e), e.view);
             script != [] && script[0] == phase && ScriptFrom(phase, h.exit, h.scheduledResume) == script
    ensures Begins(p, q, e)
  {
    hide Script, ScriptFrom, StartExit;
  }

  lemma BeginsGone(p: Protocol, q: Protocol, e: Event)
    requires StartsHandler(e) && e.run !in q.fallbacks && e.run !in q.handled && q.routed == p.routed
    requires Script(StartExit(p, e), e.view) == []
    requires StandsAt(q, e.id, LetGo(false), false) && e.run !in q.finishing && NotCleaned(q, e.id)
    ensures Begins(p, q, e)
  {
    hide Script, StartExit;
  }

  lemma EnterBegins(p: Protocol, id: HandlerId, run: RunId, exit: Exit, ceiling: Option<Exit>, view: RunView)
    requires run !in p.handled && run !in p.finishing
    ensures Begins(p, HandleSessionEnd(p, id, run, exit, ceiling, view),
                   HarnessCompletes(id, run, exit, ceiling, view))
  {
    hide Finally, Suspend, StandsAt, NotCleaned, Script, ScriptFrom, Begins, HandlerAt;
    var e := HarnessCompletes(id, run, exit, ceiling, view);
    var q := p.(fallbacks := p.fallbacks - {run}, finishing := p.finishing + {run});
    var exit' := if ceiling.Some? then ceiling.value else if run in p.fallbacks then Completed else exit;
    var h := Entering(run, exit', run in p.active);
    ScriptBegins(exit', view);
    FinallyBegins(q, id, h);
    if !view.Found? {
      BeginsGone(p, Finally(q, id, h, false), e);
    } else if exit' in {PausedMaxTurns, PausedCostBudget, Failed} && view.open {
      SuspendBegins(q, id, h, InLimits);
      BeginsIn(p, Suspend(q, id, h, InLimits), e, h, InLimits);
    } else {
      var g := if exit' in {Crashed, Timeout} && !view.stageDone && view.open then h.(scheduledResume := view.resumes)
          else h;
      if view.stillThere {
        SuspendBegins(q, id, g, InDirtyCheck);
        BeginsIn(p, Suspend(q, id, g, InDirtyCheck), e, g.(phase := InDirtyCheck), InDirtyCheck);
      } else {
        FinallyBegins(q, id, g);
        BeginsGone(p, Finally(q, id, g, false), e);
      }
    }
  }

  lemma FinallyBegins(p: Protocol, id: HandlerId, h: Handler)
    requires h.SessionEnd?
    ensures var q := Finally(p, id, h, false);
            && StandsAt(q, id, LetGo(false), h.routed) && h.run !in q.finishing && q.fallbacks == p.fallbacks
            && (h.phase == InLimits ==> NotCleaned(q, id))
            && q.handled == p.handled && q.routed == p.routed
  {
  }

  lemma SuspendBegins(p: Protocol, id: HandlerId, h: Handler, phase: Phase)
    requires h.SessionEnd? && phase != InFinalRelease
    ensures var q := Suspend(p, id, h, phase);
            && StandsAt(q, id, In(phase), h.routed) && HandlerAt(q, id) == Some(h.(phase := phase))
            && q.finishing == p.finishing && q.fallbacks == p.fallbacks && q.handled == p.handled
            && q.routed == p.routed
  {
  }

  /** An event starts a handler exactly under these conditions; a refused one leaves at most a request with a timer. */
  lemma StartsExactly(p: Protocol, e: Event)
    requires Inv(p) && StartsHandler(e) && !Used(p, e.id)
    ensures var q := Next(p, e);
            && (Starts(p, e) <==> Used(q, e.id))
            && (Starts(p, e) ==> Begins(p, q, e))
            && (!Starts(p, e) && e.HarnessCompletes? ==> q == p)
            && (!Starts(p, e) && e.EndSession? && e.run !in p.routed ==> e.run in q.fallbacks)
            && (e.EndSession? && e.run in p.routed ==> q == p)
  {
    hide HandleSessionEnd, Begins, Inv;
    RoutedHandled(p, e.run);
    match e
    case HarnessCompletes(id, run, exit, ceiling, view) =>
      EnterOrRefuse(p, id, run, exit, ceiling, view);
    case EndSession(id, run, ceiling, view) =>
      EnterOrRefuse(Requested(p, run), id, run, Completed, ceiling, view);
      BeginsAlike(p, Requested(p, run), Next(p, e), e);
    case TimerFires(id, run, runOpen, ceiling, view) =>
      EnterOrRefuse(Expired(p, run), id, run, Completed, ceiling, view);
      BeginsAlike(p, Expired(p, run), Next(p, e), e);
  }

  lemma RoutedHandled(p: Protocol, run: RunId)
    requires Inv(p)
    ensures run in p.routed && run !in p.finishing ==> run in p.handled
  {
  }

  lemma EnterOrRefuse(p: Protocol, id: HandlerId, run: RunId, exit: Exit, ceiling: Option<Exit>, view: RunView)
    requires !Used(p, id)
    ensures var q := HandleSessionEnd(p, id, run, exit, ceiling, view);
            var e := HarnessCompletes(id, run, exit, ceiling, view);
            if run in p.handled || run in p.finishing then q == p else Used(q, id) && Begins(p, q, e)
  {
    if run !in p.handled && run !in p.finishing {
      EnterBegins(p, id, run, exit, ceiling, view);
      hide HandleSessionEnd;
      var q := HandleSessionEnd(p, id, run, exit, ceiling, view);
      assert HandlerAt(q, id).Some?;
    }
  }

  /** A request or an expired timer enters as completed, whatever the timers say. */
  lemma BeginsAlike(p: Protocol, p': Protocol, q: Protocol, e: Event)
    requires e.EndSession? || e.TimerFires?
    requires p'.active == p.active && p'.routed == p.routed
    ensures Begins(p', q, HarnessCompletes(e.id, e.run, Completed, e.ceiling, e.view)) ==> Begins(p, q, e)
  {
  }

  /** From the event that starts a handler, what it read of the run, and how its awaits end, to where it stands after
      any later history: which awaits it has passed, whether it has routed the run, and whether it has let go. */
  lemma SessionFollowsScript(es: seq<Event>, e: Event, later: seq<Event>)
    requires Starts(Run(es), e)
    ensures var p, q := Run(es), Run(es + [e] + later);
            var (passed, stand) := ProgressOf(StartExit(p, e), e.view, e.run in p.active, Outcomes(later, e.id));
            StandsAt(q, e.id, stand, InRouting in passed)
  {
    RunKeepsInv(es);
    StartsExactly(Run(es), e);
    RunSnoc(es, e);
    hide Run, Next, Starts, StandsAt, Inv;
    var script := Script(StartExit(Run(es), e), e.view);
    if script == [] {
      LetGoForGood(es + [e], later, e.id, false, false);
    } else {
      HasStand(Run(es + [e]), e.id, script[0]);
      HandlerProgresses(es + [e], later, e.id);
    }
  }

  /** A handler that schedules a resume has only the dirty check to go through; it never routes the run, and the
      worktrees of the run to be resumed are never cleaned up: not while it is suspended, nor once it has ended. */
  lemma ResumedIsKept(es: seq<Event>, e: Event, later: seq<Event>)
    requires Starts(Run(es), e) && WillResume(StartExit(Run(es), e), e.view)
    ensures var h := HandlerAt(Run(es + [e] + later), e.id);
            h.Some? && h.value.SessionEnd? && !h.value.routed && h.value.phase != InCleanup
  {
    var exit := StartExit(Run(es), e);
    SessionFollowsScript(es, e, later);
    if Script(exit, e.view) == [] {
      GoneIsNotCleaned(es, e, later);
    } else {
      RunKeepsInv(es);
      StartsExactly(Run(es), e);
      RunSnoc(es, e);
      HasStand(Run(es + [e]), e.id, InDirtyCheck);
      HandlerProgresses(es + [e], later, e.id);
      OnlyCompletionsAreRouted(es + [e] + later, e.id);
      hide Run, Next;
    }
  }

  lemma GoneIsNotCleaned(es: seq<Event>, e: Event, later: seq<Event>)
    requires Starts(Run(es), e) && Script(StartExit(Run(es), e), e.view) == []
    ensures var h := HandlerAt(Run(es + [e] + later), e.id);
            h.Some? && h.value.SessionEnd? && !h.value.routed && h.value.phase != InCleanup
  {
    RunKeepsInv(es);
    StartsExactly(Run(es), e);
    RunSnoc(es, e);
    hide Run, Next;
    LetGoForGood(es + [e], later, e.id, false, false);
  }

  lemma {:induction false} ProgressReaches(awaits: seq<Phase>, hadActive: bool, outcomes: seq<Outcome>)
    requires |outcomes| < |awaits|
    requires forall i :: 0 <= i < |outcomes| ==> EndsWell(awaits[i], hadActive, outcomes[i])
    ensures Progress(awaits, hadActive, outcomes) == (awaits[..|outcomes|], In(awaits[|outcomes|]))
  {
    if outcomes != [] {
      assert EndsWell(awaits[0], hadActive, outcomes[0]);
      ProgressReaches(awaits[1..], hadActive, outcomes[1..]);
      assert [awaits[0]] + awaits[1..][..|outcomes| - 1] == awaits[..|outcomes|];
    }
  }

  /** While its awaits end well, a handler stands in the next one of its script: a failed session or one that hit a
      limit first asks for limits, and every session that neither completes nor resumes is cleaned up last. */
  lemma StandsInNextAwait(es: seq<Event>, e: Event, later: seq<Event>)
    requires Starts(Run(es), e)
    ensures var p, outcomes := Run(es), Outcomes(later, e.id);
            var script := Script(StartExit(p, e), e.view);
            |outcomes| < |script|
            && (forall i :: 0 <= i < |outcomes| ==> EndsWell(script[i], e.run in p.active, outcomes[i])) ==>
              var q := Run(es + [e] + later);
              e.id in q.handlers && q.handlers[e.id].SessionEnd? && q.handlers[e.id].phase == script[|outcomes|]
  {
    SessionFollowsScript(es, e, later);
    var p, outcomes := Run(es), Outcomes(later, e.id);
    hide Run, Starts, Outcomes;
    var script := Script(StartExit(p, e), e.view);
    if |outcomes| < |script|
        && forall i :: 0 <= i < |outcomes| ==> EndsWell(script[i], e.run in p.active, outcomes[i]) {
      ProgressReaches(script, e.run in p.active, outcomes);
    }
  }

  // ----- What a handler leaves behind -----

  /** An await of the holder ends: if it lets go, the run is settled as the await says. */
  lemma HolderSettles(p: Protocol, id: HandlerId, run: RunId, o: Outcome)
    requires Inv(p) && Holds(p, id, run) && run !in p.handled
    ensures var h, q := p.handlers[id], Next(p, Resume(id, o));
            var rest := ScriptFrom(h.phase, h.exit, h.scheduledResume);
            if EndsWell(h.phase, h.hadActive, o) && |rest| > 1
            then Holds(q, id, run) && run !in q.handled
            else
              && run !in q.finishing && run !in q.fallbacks
              && (run in q.handled <==> EndsWell(h.phase, h.hadActive, o) || ReleaseFails(h.phase, o))
  {
    HolderHasRun(p, id, run);
    hide Inv, HandlerOk;
  }

  lemma HolderWaitsUnhandled(p: Protocol, e: Event, id: HandlerId, run: RunId)
    requires Inv(p) && Holds(p, id, run) && run !in p.handled && !AsksFor(e, run) && !(e.Resume? && e.id == id)
    ensures run !in Next(p, e).handled
  {
    HolderHasRun(p, id, run);
    hide Next, Inv;
    QuietStep(p, e, id, run);
  }

  lemma {:induction false} HolderLeaves(es: seq<Event>, later: seq<Event>, id: HandlerId, run: RunId)
    requires Holds(Run(es), id, run) && run !in Run(es).handled && forall e <- later :: !AsksFor(e, run)
    ensures var h, q := Run(es).handlers[id], Run(es + later);
            var stand := Progress(ScriptFrom(h.phase, h.exit, h.scheduledResume), h.hadActive, Outcomes(later, id)).1;
            && run !in q.fallbacks && (run in q.finishing <==> stand.In?)
            && (run in q.handled <==> stand == LetGo(true))
    decreases |later|
  {
    RunKeepsInv(es);
    hide Run, Next, AsksFor, Holds, Inv, EndsWell, ScriptFrom, ReleaseFails;
    var h := HolderOf(Run(es), id, run);
    if later == [] {
      assert es + later == es;
    } else {
      var e, rest := later[0], later[1..];
      RunSnoc(es, e);
      OutcomesNext(later, id);
      assert es + later == es + [e] + rest;
      if e.Resume? && e.id == id {
        HolderSettles(Run(es), id, run, e.outcome);
        var script := ScriptFrom(h.phase, h.exit, h.scheduledResume);
        if EndsWell(h.phase, h.hadActive, e.outcome) && |script| > 1 {
          HolderGoesOn(Run(es), id, run, e.outcome);
          HolderLeaves(es + [e], rest, id, run);
        } else {
          HistoryRests(es + [e], rest, run);
        }
      } else {
        HolderWaits(Run(es), e, id, run);
        HolderWaitsUnhandled(Run(es), e, id, run);
        HolderLeaves(es + [e], rest, id, run);
      }
    }
  }

  lemma HolderOf(p: Protocol, id: HandlerId, run: RunId) returns (h: Handler)
    requires Inv(p) && Holds(p, id, run)
    ensures id in p.handlers && h == p.handlers[id] && h.SessionEnd? && run in p.finishing && run !in p.fallbacks
    ensures var script := ScriptFrom(h.phase, h.exit, h.scheduledResume); script != [] && script[0] == h.phase
  {
    HolderFinishes(p, id, run);
    h := p.handlers[id];
  }

  lemma HolderGoesOn(p: Protocol, id: HandlerId, run: RunId, o: Outcome)
    requires Holds(p, id, run)
    requires var h := p.handlers[id];
             EndsWell(h.phase, h.hadActive, o) && |ScriptFrom(h.phase, h.exit, h.scheduledResume)| > 1
    ensures var h, q := p.handlers[id], Next(p, Resume(id, o));
            && id in q.handlers && SameSession(h, q.handlers[id])
            && var g := q.handlers[id];
               ScriptFrom(g.phase, g.exit, g.scheduledResume)
               == ScriptFrom(h.phase, h.exit, h.scheduledResume)[1..]
  {
    ResumeProgresses(p, id, p.handlers[id], o);
  }

  /** When nobody asks for the run meanwhile: it is being finished exactly while the handler stands in an await, and
      afterwards it is marked as handled exactly if all awaits ended well, or only the early release failed and that
      could be recorded. */
  lemma SessionSettlesRun(es: seq<Event>, e: Event, later: seq<Event>)
    requires Starts(Run(es), e) && forall f <- later :: !AsksFor(f, e.run)
    ensures var p, q := Run(es), Run(es + [e] + later);
            var stand := ProgressOf(StartExit(p, e), e.view, e.run in p.active, Outcomes(later, e.id)).1;
            (e.run in q.finishing <==> stand.In?) && (e.run in q.handled <==> stand == LetGo(true))
  {
    RunKeepsInv(es);
    StartsExactly(Run(es), e);
    RunSnoc(es, e);
    hide Run, Next, Starts, AsksFor, Inv;
    var script := Script(StartExit(Run(es), e), e.view);
    if script == [] {
      HistoryRests(es + [e], later, e.run);
    } else {
      HasStand(Run(es + [e]), e.id, script[0]);
      HolderLeaves(es + [e], later, e.id, e.run);
    }
  }

  /** A run's session is registered once, and can be removed from outside; nothing else changes. */
  lemma SessionsComeAndGo(p: Protocol, run: RunId)
    ensures var q := Next(p, SessionStarts(run));
            && (run in q.active <==> run in p.active || run !in p.started) && run in q.started
            && (forall r :: r != run ==> (r in q.active <==> r in p.active) && (r in q.started <==> r in p.started))
            && q == p.(active := q.active, started := q.started)
    ensures var q := Next(p, SessionRemoved(run)); q == p.(active := p.active - {run})
  {
  }

  /** A handler removes no entry but that of its own run, only if it had one, and only once. */
  lemma OnlyOwnEntry(p: Protocol, id: HandlerId, o: Outcome)
    requires id in p.handlers && p.handlers[id].SessionEnd?
    ensures var h, q := p.handlers[id], Next(p, Resume(id, o));
            q.active == p.active || (h.hadActive && !h.release.activeRemoved && q.active == p.active - {h.run})
  {
    ResumesHandler(p, id, o);
    hide Next;
  }

  /** Nor does it when it starts: only the entry it found, and only if it ends at once. */
  lemma OnlyFoundEntry(p: Protocol, id: HandlerId, run: RunId, exit: Exit, ceiling: Option<Exit>, view: RunView)
    ensures var q := HandleSessionEnd(p, id, run, exit, ceiling, view);
            q.active == p.active || (q.active == p.active - {run} && run in p.active && run !in q.finishing)
  {
  }

  /** The stored-completion router takes a run exactly when it is open, not routed and nobody is finishing it; once it
      has resolved, the run is routed and handled. */
  lemma StoredStartsExactly(p: Protocol, id: HandlerId, run: RunId, runOpen: bool, o: Outcome)
    requires Inv(p) && !Used(p, id)
    ensures var q := Next(p, RouteStored(id, run, runOpen));
            if runOpen && run !in p.routed && run !in p.finishing
            then
              && id in q.handlers && q.handlers[id] == StoredCompletion(run) && run in q.finishing
              && var r := Next(q, Resume(id, o));
                 && run !in r.finishing && (run in r.routed <==> o.Resolves?)
                 && (run in r.handled <==> o.Resolves? || run in p.handled)
            else q == p
  {
  }
}
