/** Four event sources race to finish a run: the harness completion, `endSession`,
    the fallback timer and stored-completion routing. They share only a few sets
    keyed by run. Code between two awaits is one step; a suspended call is a
    handler, remembered with its locals and the await it is suspended in. */
module CompletionProtocol {
  import opened Options
  import opened Sequences

  type RunId = string
  type HandlerId = nat

  datatype Exit = Completed | Crashed | Killed | Timeout | Failed | PausedMaxTurns | PausedCostBudget

  /** The await a session-end handler is suspended in. */
  datatype Phase =
    | InLimits        // applyLimitsPolicy
    | InDirtyCheck    // recordDirtyPartialWorktreeEvidence
    | InRelease       // releaseBeforeCompletionRouting
    | InRouting       // routeCompletedRun
    | InCleanup       // cleanupFailedOwnWorktrees
    | InFinalRelease  // the session release of the finally block

  /** `CompletionReleaseState`. */
  datatype ReleaseState = ReleaseState(releaseAttempted: bool, activeRemoved: bool, leaseReleased: bool)

  /** A suspended call. `leases` and `sessions` count the lease and session releases it has issued. */
  datatype Handler =
    | SessionEnd(run: RunId, phase: Phase, exit: Exit, hadActive: bool, scheduledResume: bool, routed: bool,
                 release: ReleaseState, leases: nat, sessions: nat)
    | StoredCompletion(run: RunId)
  {
    /** Between the guard and the finally block. */
    predicate Guarded() {
      StoredCompletion? || phase != InFinalRelease
    }
  }

  /** The dispatcher's coordination state. `successes` logs every time post-completion routing succeeded. */
  datatype Protocol = Protocol(
    handled: set<RunId>,       // handledSessionEnds
    finishing: set<RunId>,     // finishingRuns
    routed: set<RunId>,        // routedPostCompletion
    fallbacks: set<RunId>,     // completionFallbacks: runs with a pending timer
    active: set<RunId>,        // activeSessions
    started: set<RunId>,       // runs whose session was ever registered
    handlers: map<HandlerId, Handler>,
    ended: map<HandlerId, Handler>,
    successes: seq<RunId>)

  const START := Protocol({}, {}, {}, {}, {}, {}, map[], map[], [])

  /** What the handler's first segment meets in the run table before its first await. */
  datatype RunView =
    | Missing
    | Throws
    | Found(open: bool, stageDone: bool, resumes: bool, stillThere: bool)

  /** How an await ends. */
  datatype Outcome = Resolves(stillThere: bool) | Rejects(recordThrows: bool)

  datatype Event =
    | SessionStarts(run: RunId)
    | SessionRemoved(run: RunId)  // killRun, checkStalled, pause, or a stale lease
    | HarnessCompletes(id: HandlerId, run: RunId, exit: Exit, ceiling: Option<Exit>, view: RunView)
    | EndSession(id: HandlerId, run: RunId, ceiling: Option<Exit>, view: RunView)
    | TimerFires(id: HandlerId, run: RunId, runOpen: bool, ceiling: Option<Exit>, view: RunView)
    | RouteStored(id: HandlerId, run: RunId, runOpen: bool)
    | Resume(id: HandlerId, outcome: Outcome)

  // ----- The segments -----

  /** `forgetActive` and `releaseLease`: each acts once per handler. */
  function ForgetAndRelease(h: Handler): (r: Handler)
    requires h.SessionEnd?
  {
    if !h.hadActive then h else
      h.(release := h.release.(activeRemoved := true, leaseReleased := true),
         leases := if h.release.leaseReleased then h.leases else h.leases + 1)
  }

  /** A handler past the guard. */
  function Entering(run: RunId, exit: Exit, hadActive: bool): (h: Handler)
    ensures h.SessionEnd? && h.run == run && h.exit == exit && h.hadActive == hadActive
  {
    SessionEnd(run, InLimits, exit, hadActive, false, false, ReleaseState(false, false, false), 0, 0)
  }

  /** It calls the session release before routing. */
  function Releasing(h: Handler): (r: Handler)
    requires h.SessionEnd?
    ensures r.SessionEnd? && r.run == h.run && r.exit == h.exit && r.routed == h.routed
  {
    if h.hadActive then h.(release := h.release.(releaseAttempted := true), sessions := h.sessions + 1) else h
  }

  function ActiveAfterForget(p: Protocol, h: Handler): set<RunId>
    requires h.SessionEnd?
  {
    if h.hadActive && !h.release.activeRemoved then p.active - {h.run} else p.active
  }

  /** The finally block, up to its await or its end. */
  function Finally(p: Protocol, id: HandlerId, h: Handler, completed: bool): Protocol
    requires h.SessionEnd?
  {
    var q := p.(handled := if completed then p.handled + {h.run} else p.handled,
                finishing := p.finishing - {h.run}, active := ActiveAfterForget(p, h));
    var done := ForgetAndRelease(h);
    if h.hadActive && !h.release.releaseAttempted
    then q.(handlers := p.handlers[id := done.(phase := InFinalRelease, sessions := done.sessions + 1)])
    else q.(handlers := p.handlers - {id}, ended := p.ended[id := done])
  }

  function Suspend(p: Protocol, id: HandlerId, h: Handler, phase: Phase): Protocol
    requires h.SessionEnd?
  {
    p.(handlers := p.handlers[id := h.(phase := phase)])
  }

  /** After the branch on the exit reason: the run is read again, then the dirty check is awaited. */
  function ReadAgain(p: Protocol, id: HandlerId, h: Handler, stillThere: bool): Protocol
    requires h.SessionEnd?
  {
    if stillThere then Suspend(p, id, h, InDirtyCheck) else Finally(p, id, h, false)
  }

  /** `handleSessionEnd` from its guard to its first await. */
  function HandleSessionEnd(p: Protocol, id: HandlerId, run: RunId, exit: Exit, ceiling: Option<Exit>,
      view: RunView): Protocol {
    if run in p.handled || run in p.finishing then p
    else
      var completionRequested := run in p.fallbacks;
      var q := p.(fallbacks := p.fallbacks - {run}, finishing := p.finishing + {run});
      var exit' := if ceiling.Some? then ceiling.value else if completionRequested then Completed else exit;
      var h := Entering(run, exit', run in p.active);
      match view
      case Missing => Finally(q, id, h, false)
      case Throws => Finally(q, id, h, false)
      case Found(open, stageDone, resumes, stillThere) =>
        if exit' in {PausedMaxTurns, PausedCostBudget, Failed} && open then Suspend(q, id, h, InLimits)
        else if exit' in {Crashed, Timeout} && !stageDone && open
        then ReadAgain(q, id, h.(scheduledResume := resumes), stillThere)
        else ReadAgain(q, id, h, stillThere)
  }

  function ScheduleCompletionFallback(p: Protocol, run: RunId): Protocol {
    if run in p.routed || run in p.fallbacks then p else p.(fallbacks := p.fallbacks + {run})
  }

  function EndSessionStep(p: Protocol, id: HandlerId, run: RunId, ceiling: Option<Exit>, view: RunView): Protocol {
    var q := ScheduleCompletionFallback(p, run);
    if run in q.routed then q
    else HandleSessionEnd(q.(handled := q.handled - {run}), id, run, Completed, ceiling, view)
  }

  function FireTimer(p: Protocol, id: HandlerId, run: RunId, runOpen: bool, ceiling: Option<Exit>,
      view: RunView): Protocol {
    if run !in p.fallbacks then p
    else
      var q := p.(fallbacks := p.fallbacks - {run});
      if run in q.routed || !runOpen then q
      else HandleSessionEnd(q.(handled := q.handled - {run}), id, run, Completed, ceiling, view)
  }

  function RouteStoredStep(p: Protocol, id: HandlerId, run: RunId, runOpen: bool): Protocol {
    if run in p.routed || run in p.finishing || !runOpen then p
    else p.(finishing := p.finishing + {run}, handlers := p.handlers[id := StoredCompletion(run)])
  }

  /** A session-end handler, resumed from the await it is suspended in. */
  function ResumeSessionEnd(p: Protocol, id: HandlerId, h: Handler, o: Outcome): Protocol
    requires h.SessionEnd?
  {
    match h.phase
    case InLimits => ReadAgain(p, id, h, o.Resolves? && o.stillThere)
    case InDirtyCheck =>
      if o.Rejects? then Finally(p, id, h, false)
      else if h.exit == Completed then
        Suspend(p, id, Releasing(h), InRelease)
      else if h.scheduledResume then Finally(p, id, h, true)
      else Suspend(p, id, h, InCleanup)
    case InRelease =>
      if h.hadActive && o.Rejects? && o.recordThrows then Finally(p, id, h, false)
      else
        var q, released := p.(active := ActiveAfterForget(p, h)), ForgetAndRelease(h);
        if h.hadActive && o.Rejects? then Finally(q, id, released, true) else Suspend(q, id, released, InRouting)
    case InRouting =>
      if o.Rejects? then Finally(p, id, h, false)
      else Suspend(p.(routed := p.routed + {h.run}, successes := p.successes + [h.run]), id, h.(routed := true),
          InCleanup)
    case InCleanup => Finally(p, id, h, true)
    case InFinalRelease => p.(handlers := p.handlers - {id}, ended := p.ended[id := h])
  }

  function ResumeStored(p: Protocol, id: HandlerId, h: Handler, o: Outcome): Protocol
    requires h.StoredCompletion?
  {
    var q := p.(finishing := p.finishing - {h.run}, handlers := p.handlers - {id}, ended := p.ended[id := h]);
    if o.Rejects? then q
    else q.(routed := p.routed + {h.run}, handled := p.handled + {h.run}, successes := p.successes + [h.run])
  }

  function Next(p: Protocol, e: Event): Protocol {
    match e
    case SessionStarts(run) => if run in p.started then p
        else p.(active := p.active + {run}, started := p.started + {run})
    case SessionRemoved(run) => p.(active := p.active - {run})
    case HarnessCompletes(id, run, exit, ceiling, view) =>
      if Used(p, id) then p else HandleSessionEnd(p, id, run, exit, ceiling, view)
    case EndSession(id, run, ceiling, view) => if Used(p, id) then p else EndSessionStep(p, id, run, ceiling, view)
    case TimerFires(id, run, runOpen, ceiling, view) => if Used(p, id) then p
        else FireTimer(p, id, run, runOpen, ceiling, view)
    case RouteStored(id, run, runOpen) => if Used(p, id) then p else RouteStoredStep(p, id, run, runOpen)
    case Resume(id, o) =>
      if id !in p.handlers then p
      else if p.handlers[id].StoredCompletion? then ResumeStored(p, id, p.handlers[id], o)
      else ResumeSessionEnd(p, id, p.handlers[id], o)
  }

  /** Handler names are never reused. */
  predicate Used(p: Protocol, id: HandlerId) {
    id in p.handlers || id in p.ended
  }

  function Run(es: seq<Event>): Protocol
    decreases |es|
  {
    if es == [] then START else Next(Run(es[..|es| - 1]), es[|es| - 1])
  }

  // ----- The invariant -----

  /** How much of the release work a session-end handler has issued, phase by phase. */
  predicate ReleaseAccounts(p: Protocol, h: Handler)
    requires h.SessionEnd?
  {
    && h.leases == (if h.release.leaseReleased then 1 else 0)
    && (h.release.leaseReleased <==> h.release.activeRemoved)
    && (h.release.activeRemoved ==> h.run !in p.active)
    && (h.hadActive ==> h.run in p.started)
    && (!h.hadActive ==> h.release == ReleaseState(false, false, false) && h.sessions == 0)
    && (h.phase == InFinalRelease ==>
        h.hadActive && !h.release.releaseAttempted && h.release.leaseReleased
        && h.sessions == 1)
    && (h.phase != InFinalRelease ==> h.sessions == if h.release.releaseAttempted then 1 else 0)
    && (h.phase in {InLimits, InDirtyCheck} ==> h.release == ReleaseState(false, false, false))
    && (h.phase == InRelease ==> (h.hadActive ==> h.release == ReleaseState(true, false, false)))
    && (h.phase == InRouting ==> (h.hadActive ==> h.release == ReleaseState(true, true, true)))
  }

  ghost predicate HandlerOk(p: Protocol, h: Handler) {
    && (h.Guarded() ==> h.run in p.finishing)
    && (h.Guarded() && h.run in p.routed ==> h.SessionEnd? && h.phase == InCleanup && h.routed)
    && (h.SessionEnd? ==>
        ReleaseAccounts(p, h) && (h.routed ==> h.run in p.routed)
        && (h.routed && h.Guarded() ==> h.phase == InCleanup))
  }

  /** A handler that had an active session has, at its end, removed the entry and released lease and session once
      each. */
  predicate EndedOk(p: Protocol, h: Handler) {
    h.SessionEnd? && h.hadActive ==> h.run !in p.active && h.run in p.started && h.leases == 1 && h.sessions == 1
  }

  ghost predicate Held(p: Protocol, run: RunId) {
    exists i :: i in p.handlers && p.handlers[i].Guarded() && p.handlers[i].run == run
  }

  ghost predicate OneHandlerPerRun(p: Protocol) {
    forall i, j ::
      i in p.handlers && j in p.handlers && i != j && p.handlers[i].Guarded() && p.handlers[j].Guarded() ==>
      p.handlers[i].run != p.handlers[j].run
  }

  ghost predicate Inv(p: Protocol) {
    && (forall i :: i in p.handlers ==> HandlerOk(p, p.handlers[i]))
    && OneHandlerPerRun(p)
    && (forall run {:trigger Held(p, run)} :: run in p.finishing ==> Held(p, run))
    && (forall i :: i in p.ended ==> EndedOk(p, p.ended[i]))
    && Distinct(p.successes) && Elements(p.successes) == p.routed
    && p.routed <= p.finishing + p.handled
    && p.active <= p.started
    && p.handlers.Keys !! p.ended.Keys
  }

  /** `q` differs from `p` only in the handler `id` and in what concerns `run`. */
  ghost predicate OnlyTouches(p: Protocol, q: Protocol, id: HandlerId, run: RunId) {
    && (forall i :: i != id ==>
        (i in q.handlers <==> i in p.handlers)
        && (i in p.handlers ==> q.handlers[i] == p.handlers[i]))
    && (forall i :: i != id ==> (i in q.ended <==> i in p.ended) && (i in p.ended ==> q.ended[i] == p.ended[i]))
    && (forall r :: r != run ==> (r in q.finishing <==> r in p.finishing) && (r in q.routed <==> r in p.routed))
    && (forall r :: r != run ==> (r in q.handled <==> r in p.handled))
    && p.routed <= q.routed && q.active <= p.active && q.started == p.started
  }

  /** What a step owes for the one handler and the one run it touches. */
  ghost predicate Sound(q: Protocol, id: HandlerId, run: RunId) {
    && (id in q.handlers ==> q.handlers[id].run == run && HandlerOk(q, q.handlers[id]) && id !in q.ended)
    && (id in q.ended ==> EndedOk(q, q.ended[id]))
    && (run in q.finishing <==> id in q.handlers && q.handlers[id].Guarded())
    && (run in q.routed ==> run in q.finishing || run in q.handled)
    && Distinct(q.successes) && Elements(q.successes) == q.routed
  }

  /** No handler other than `id` is between guard and finally for the run. */
  ghost predicate Alone(p: Protocol, id: HandlerId, run: RunId) {
    forall i :: i in p.handlers && i != id && p.handlers[i].Guarded() ==> p.handlers[i].run != run
  }

  lemma OthersUnharmed(p: Protocol, q: Protocol, id: HandlerId, run: RunId, i: HandlerId)
    requires Inv(p) && OnlyTouches(p, q, id, run) && Alone(p, id, run)
    requires p.handlers.Keys !! p.ended.Keys && i in q.handlers && i != id
    ensures HandlerOk(q, q.handlers[i])
  {
    assert HandlerOk(p, p.handlers[i]);
  }

  lemma StillHeld(p: Protocol, q: Protocol, id: HandlerId, run: RunId, r: RunId)
    requires Inv(p) && OnlyTouches(p, q, id, run) && r != run && r in q.finishing
    requires id in p.handlers ==> p.handlers[id].run == run
    ensures Held(q, r)
  {
    assert Held(p, r);
    var i :| i in p.handlers && p.handlers[i].Guarded() && p.handlers[i].run == r;
    assert i in q.handlers && q.handlers[i] == p.handlers[i];
  }

  lemma TouchKeepsInv(p: Protocol, q: Protocol, id: HandlerId, run: RunId)
    requires Inv(p) && OnlyTouches(p, q, id, run) && Alone(p, id, run) && Sound(q, id, run)
    requires id in p.handlers ==> p.handlers[id].run == run
    ensures Inv(q)
  {
    hide HandlerOk, Distinct;
    forall i | i in q.handlers ensures HandlerOk(q, q.handlers[i]) {
      if i != id {
        OthersUnharmed(p, q, id, run, i);
      }
    }
    forall r | r in q.finishing ensures Held(q, r) {
      if r == run {
        assert id in q.handlers && q.handlers[id].Guarded();
      } else {
        StillHeld(p, q, id, run, r);
      }
    }
    forall i | i in q.ended ensures EndedOk(q, q.ended[i]) {
      if i != id {
        assert EndedOk(p, p.ended[i]);
      }
    }
  }

  // ----- Every step keeps it -----

  /** A session-end handler in the middle of a segment: guarded, with its release work accounted for. */
  ghost predicate Mid(p: Protocol, h: Handler) {
    && h.SessionEnd? && h.phase != InFinalRelease && h.run in p.finishing && (h.run in p.routed <==> h.routed)
    && h.leases == (if h.release.leaseReleased then 1 else 0)
    && h.sessions == (if h.release.releaseAttempted then 1 else 0)
    && (h.release.leaseReleased <==> h.release.activeRemoved)
    && (h.release.activeRemoved ==> h.run !in p.active)
    && (h.hadActive ==> h.run in p.started)
    && (!h.hadActive ==> h.release == ReleaseState(false, false, false))
    && Distinct(p.successes) && Elements(p.successes) == p.routed
  }

  lemma FinallySound(p0: Protocol, p: Protocol, id: HandlerId, h: Handler, completed: bool)
    requires Mid(p, h) && OnlyTouches(p0, p, id, h.run) && id !in p.ended
    requires h.routed ==> completed
    ensures OnlyTouches(p0, Finally(p, id, h, completed), id, h.run) && Sound(Finally(p, id, h, completed), id, h.run)
  {
    hide Distinct;
  }

  lemma SuspendSound(p0: Protocol, p: Protocol, id: HandlerId, h: Handler, phase: Phase)
    requires Mid(p, h) && OnlyTouches(p0, p, id, h.run) && id !in p.ended
    requires h.routed ==> phase == InCleanup
    requires phase in {InLimits, InDirtyCheck} ==> h.release == ReleaseState(false, false, false)
    requires phase == InRelease && h.hadActive ==> h.release == ReleaseState(true, false, false)
    requires phase == InRouting && h.hadActive ==> h.release == ReleaseState(true, true, true)
    requires phase != InFinalRelease
    ensures OnlyTouches(p0, Suspend(p, id, h, phase), id, h.run) && Sound(Suspend(p, id, h, phase), id, h.run)
  {
    hide Distinct;
  }

  lemma ReadAgainSound(p0: Protocol, p: Protocol, id: HandlerId, h: Handler, stillThere: bool)
    requires Mid(p, h) && OnlyTouches(p0, p, id, h.run) && id !in p.ended
    requires !h.routed && h.release == ReleaseState(false, false, false)
    ensures var q := ReadAgain(p, id, h, stillThere); OnlyTouches(p0, q, id, h.run) && Sound(q, id, h.run)
  {
    FinallySound(p0, p, id, h, false);
    SuspendSound(p0, p, id, h, InDirtyCheck);
  }

  lemma EnteringIsMid(p: Protocol, run: RunId, exit: Exit, resumes: bool)
    requires Inv(p) && run !in p.finishing && run !in p.routed
    ensures var q := p.(fallbacks := p.fallbacks - {run}, finishing := p.finishing + {run});
            var h := Entering(run, exit, run in p.active);
            && Mid(q, h) && Mid(q, h.(scheduledResume := resumes))
            && !h.routed && h.release == ReleaseState(false, false, false)
  {
  }

  /** Entering: the guard makes the new handler the only one for its run, and the run is not routed yet. */

  lemma HandleSessionEndKeepsInv(p: Protocol, id: HandlerId, run: RunId, exit: Exit, ceiling: Option<Exit>,
      view: RunView)
    requires Inv(p) && !Used(p, id)
    ensures Inv(HandleSessionEnd(p, id, run, exit, ceiling, view))
  {
    hide Distinct, Finally, Suspend, ReadAgain, OnlyTouches, Sound;
    if run !in p.handled && run !in p.finishing {
      var q := p.(fallbacks := p.fallbacks - {run}, finishing := p.finishing + {run});
      var exit' := if ceiling.Some? then ceiling.value else if run in p.fallbacks then Completed else exit;
      var h := Entering(run, exit', run in p.active);
      NobodyHolds(p, id, run);
      EnterTouches(p, q, id, run);
      EnteringIsMid(p, run, exit', if view.Found? then view.resumes else false);
      hide Mid, Entering;
      if view.Found? {
        var resumed := h.(scheduledResume := view.resumes);
        SuspendSound(p, q, id, h, InLimits);
        ReadAgainSound(p, q, id, h, view.stillThere);
        ReadAgainSound(p, q, id, resumed, view.stillThere);
      } else {
        FinallySound(p, q, id, h, false);
      }
      TouchKeepsInv(p, HandleSessionEnd(p, id, run, exit, ceiling, view), id, run);
    }
  }

  lemma NobodyHolds(p: Protocol, id: HandlerId, run: RunId)
    requires Inv(p) && run !in p.finishing
    ensures Alone(p, id, run)
  {
    forall i | i in p.handlers && p.handlers[i].Guarded() ensures p.handlers[i].run != run {
      assert HandlerOk(p, p.handlers[i]);
    }
  }

  lemma EnterTouches(p: Protocol, q: Protocol, id: HandlerId, run: RunId)
    requires q == p.(fallbacks := q.fallbacks, finishing := p.finishing + {run})
    ensures OnlyTouches(p, q, id, run)
  {
  }

  /** The fallback set takes no part in the invariant, and a run that is neither routed nor finishing may be
      reopened. */
  lemma ReopenKeepsInv(p: Protocol, fallbacks: set<RunId>, run: RunId)
    requires Inv(p)
    ensures Inv(p.(fallbacks := fallbacks))
    ensures run !in p.routed ==> Inv(p.(fallbacks := fallbacks, handled := p.handled - {run}))
  {
    hide Distinct;
    var q := p.(fallbacks := fallbacks);
    var r := q.(handled := p.handled - {run});
    forall i | i in p.handlers ensures HandlerOk(q, p.handlers[i]) && HandlerOk(r, p.handlers[i]) {
      assert HandlerOk(p, p.handlers[i]);
    }
    forall x | x in p.finishing ensures Held(q, x) && Held(r, x) {
      assert Held(p, x);
      var i :| i in p.handlers && p.handlers[i].Guarded() && p.handlers[i].run == x;
      assert i in q.handlers && i in r.handlers;
    }
    forall i | i in p.ended ensures EndedOk(q, p.ended[i]) && EndedOk(r, p.ended[i]) {
      assert EndedOk(p, p.ended[i]);
    }
  }

  lemma GuardedIsAlone(p: Protocol, id: HandlerId)
    requires Inv(p) && id in p.handlers && p.handlers[id].Guarded()
    ensures Alone(p, id, p.handlers[id].run)
    ensures id !in p.ended
  {
  }

  lemma ResumeSessionEndKeepsInv(p: Protocol, id: HandlerId, o: Outcome)
    requires Inv(p) && id in p.handlers && p.handlers[id].SessionEnd?
    ensures Inv(ResumeSessionEnd(p, id, p.handlers[id], o))
  {
    hide Distinct, Finally, Suspend, ReadAgain, Sound;
    var h := p.handlers[id];
    var q := ResumeSessionEnd(p, id, h, o);
    assert HandlerOk(p, h);
    if h.phase == InFinalRelease {
      FinalReleaseKeepsInv(p, id);
    } else {
      GuardedIsAlone(p, id);
      assert Mid(p, h) && OnlyTouches(p, p, id, h.run);
      match h.phase {
        case InLimits => ReadAgainSound(p, p, id, h, o.Resolves? && o.stillThere);
        case InDirtyCheck =>
          FinallySound(p, p, id, h, false);
          FinallySound(p, p, id, h, true);
          SuspendSound(p, p, id, h, InCleanup);
          var h' := Releasing(h);
          SuspendSound(p, p, id, h', InRelease);
        case InRelease =>
          FinallySound(p, p, id, h, false);
          ReleasedSound(p, id, h);
        case InRouting =>
          FinallySound(p, p, id, h, false);
          RoutedSound(p, id, h);
        case InCleanup => FinallySound(p, p, id, h, true);
      }
      TouchKeepsInv(p, q, id, h.run);
    }
  }

  lemma ReleasedSound(p: Protocol, id: HandlerId, h: Handler)
    requires Mid(p, h) && h.phase == InRelease && id !in p.ended && !h.routed
    requires h.hadActive ==> h.release == ReleaseState(true, false, false)
    ensures var q, r := p.(active := ActiveAfterForget(p, h)), ForgetAndRelease(h);
            && OnlyTouches(p, Finally(q, id, r, true), id, h.run) && Sound(Finally(q, id, r, true), id, h.run)
            && OnlyTouches(p, Suspend(q, id, r, InRouting), id, h.run) && Sound(Suspend(q, id, r, InRouting), id, h.run)
  {
    hide Distinct;
    var q, r := p.(active := ActiveAfterForget(p, h)), ForgetAndRelease(h);
    FinallySound(p, q, id, r, true);
    SuspendSound(p, q, id, r, InRouting);
  }

  lemma RoutedSound(p: Protocol, id: HandlerId, h: Handler)
    requires Mid(p, h) && h.phase == InRouting && id !in p.ended && !h.routed
    ensures var q := p.(routed := p.routed + {h.run}, successes := p.successes + [h.run]);
            var r := Suspend(q, id, h.(routed := true), InCleanup);
            OnlyTouches(p, r, id, h.run) && Sound(r, id, h.run)
  {
    var q := p.(routed := p.routed + {h.run}, successes := p.successes + [h.run]);
    DistinctExtends(p.successes, h.run);
    ElementsExtend(p.successes, h.run);
    hide Distinct;
    SuspendSound(p, q, id, h.(routed := true), InCleanup);
  }

  lemma FinalReleaseKeepsInv(p: Protocol, id: HandlerId)
    requires Inv(p) && id in p.handlers && p.handlers[id].SessionEnd? && p.handlers[id].phase == InFinalRelease
    ensures Inv(p.(handlers := p.handlers - {id}, ended := p.ended[id := p.handlers[id]]))
  {
    hide Distinct;
    var h, q := p.handlers[id], p.(handlers := p.handlers - {id}, ended := p.ended[id := p.handlers[id]]);
    assert HandlerOk(p, h);
    forall i | i in q.handlers ensures HandlerOk(q, q.handlers[i]) {
      assert HandlerOk(p, p.handlers[i]);
    }
    forall x | x in q.finishing ensures Held(q, x) {
      assert Held(p, x);
      var i :| i in p.handlers && p.handlers[i].Guarded() && p.handlers[i].run == x;
      assert i in q.handlers;
    }
    forall i | i in q.ended ensures EndedOk(q, q.ended[i]) {
      assert i != id ==> EndedOk(p, p.ended[i]);
    }
  }

  lemma ResumeStoredKeepsInv(p: Protocol, id: HandlerId, o: Outcome)
    requires Inv(p) && id in p.handlers && p.handlers[id].StoredCompletion?
    ensures Inv(ResumeStored(p, id, p.handlers[id], o))
  {
    var h := p.handlers[id];
    assert HandlerOk(p, h);
    GuardedIsAlone(p, id);
    DistinctExtends(p.successes, h.run);
    ElementsExtend(p.successes, h.run);
    hide Distinct;
    TouchKeepsInv(p, ResumeStored(p, id, h, o), id, h.run);
  }

  lemma RouteStoredKeepsInv(p: Protocol, id: HandlerId, run: RunId, runOpen: bool)
    requires Inv(p) && !Used(p, id)
    ensures Inv(RouteStoredStep(p, id, run, runOpen))
  {
    hide Distinct;
    if run !in p.routed && run !in p.finishing && runOpen {
      NobodyHolds(p, id, run);
      TouchKeepsInv(p, RouteStoredStep(p, id, run, runOpen), id, run);
    }
  }

  lemma SessionsKeepInv(p: Protocol, run: RunId)
    requires Inv(p)
    ensures Inv(p.(active := p.active - {run}))
    ensures run !in p.started ==> Inv(p.(active := p.active + {run}, started := p.started + {run}))
  {
    hide Distinct;
    var q, r := p.(active := p.active - {run}), p.(active := p.active + {run}, started := p.started + {run});
    forall i | i in p.handlers ensures HandlerOk(q, p.handlers[i])
        && (run !in p.started ==> HandlerOk(r, p.handlers[i])) {
      assert HandlerOk(p, p.handlers[i]);
    }
    forall x | x in p.finishing ensures Held(q, x) && Held(r, x) {
      assert Held(p, x);
      var i :| i in p.handlers && p.handlers[i].Guarded() && p.handlers[i].run == x;
      assert i in q.handlers && i in r.handlers;
    }
    forall i | i in p.ended ensures EndedOk(q, p.ended[i]) && (run !in p.started ==> EndedOk(r, p.ended[i])) {
      assert EndedOk(p, p.ended[i]);
    }
  }

  lemma NextKeepsInv(p: Protocol, e: Event)
    requires Inv(p)
    ensures Inv(Next(p, e))
  {
    hide Inv, HandleSessionEnd, ResumeSessionEnd, ResumeStored, RouteStoredStep;
    match e
    case SessionStarts(run) => SessionsKeepInv(p, run);
    case SessionRemoved(run) => SessionsKeepInv(p, run);
    case HarnessCompletes(id, run, exit, ceiling, view) =>
      if !Used(p, id) {
        HandleSessionEndKeepsInv(p, id, run, exit, ceiling, view);
      }
    case EndSession(id, run, ceiling, view) =>
      if !Used(p, id) {
        var q := ScheduleCompletionFallback(p, run);
        ReopenKeepsInv(p, q.fallbacks, run);
        assert q == p.(fallbacks := q.fallbacks);
        if run !in q.routed {
          HandleSessionEndKeepsInv(q.(handled := q.handled - {run}), id, run, Completed, ceiling, view);
        }
      }
    case TimerFires(id, run, runOpen, ceiling, view) =>
      if !Used(p, id) && run in p.fallbacks {
        var q := p.(fallbacks := p.fallbacks - {run});
        ReopenKeepsInv(p, q.fallbacks, run);
        if run !in q.routed && runOpen {
          HandleSessionEndKeepsInv(q.(handled := q.handled - {run}), id, run, Completed, ceiling, view);
        }
      }
    case RouteStored(id, run, runOpen) =>
      if !Used(p, id) {
        RouteStoredKeepsInv(p, id, run, runOpen);
      }
    case Resume(id, o) =>
      if id in p.handlers {
        if p.handlers[id].StoredCompletion? {
          ResumeStoredKeepsInv(p, id, o);
        } else {
          ResumeSessionEndKeepsInv(p, id, o);
        }
      }
  }

  lemma {:induction false} RunKeepsInv(es: seq<Event>)
    ensures Inv(Run(es))
  {
    if es != [] {
      hide Inv, Next;
      RunKeepsInv(es[..|es| - 1]);
      NextKeepsInv(Run(es[..|es| - 1]), es[|es| - 1]);
    }
  }

  // ----- The guarantees, in every interleaving -----

  /** At most one handler per run is between its guard and its finally block, and
      `finishingRuns` is exactly the set of runs that have one. */
  lemma OneHandlerAtATime(es: seq<Event>)
    ensures var p := Run(es);
            && OneHandlerPerRun(p)
            && forall run :: run in p.finishing <==> Held(p, run)
  {
    RunKeepsInv(es);
    var p := Run(es);
    forall run ensures run in p.finishing <==> Held(p, run) {
      if Held(p, run) {
        var i :| i in p.handlers && p.handlers[i].Guarded() && p.handlers[i].run == run;
        assert HandlerOk(p, p.handlers[i]);
      }
    }
  }

  /** Post-completion routing succeeds at most once per run, and a routed run that is not finishing is handled. */
  lemma RoutedAtMostOnce(es: seq<Event>)
    ensures var p := Run(es);
            && (forall i, j :: 0 <= i < j < |p.successes| ==> p.successes[i] != p.successes[j])
            && (forall run :: run in p.routed <==> run in p.successes)
            && (forall run :: run in p.routed && run !in p.finishing ==> run in p.handled)
  {
    RunKeepsInv(es);
    var p := Run(es);
    assert forall run :: run in Elements(p.successes) <==> run in p.successes;
  }

  /** On every exit path of a session-end handler that had an active session: the entry
      is removed, the lease release issued once, the session release called once. */
  lemma ReleasedExactlyOnce(es: seq<Event>, id: HandlerId)
    requires id in Run(es).ended && Run(es).ended[id].SessionEnd? && Run(es).ended[id].hadActive
    ensures var p := Run(es); var h := p.ended[id]; h.run !in p.active && h.leases == 1 && h.sessions == 1
  {
    RunKeepsInv(es);
    assert EndedOk(Run(es), Run(es).ended[id]);
  }

  predicate SettledRoute(p: Protocol, run: RunId) {
    run in p.routed && run in p.handled && run !in p.finishing
  }

  lemma FinallyStays(p: Protocol, id: HandlerId, h: Handler, completed: bool, run: RunId)
    requires h.SessionEnd? && run in p.routed && run in p.handled && (run in p.finishing ==> h.run == run)
    ensures SettledRoute(Finally(p, id, h, completed), run)
  {
  }

  lemma EnterStays(p: Protocol, id: HandlerId, other: RunId, exit: Exit, ceiling: Option<Exit>, view: RunView,
      run: RunId)
    requires SettledRoute(p, run)
    ensures SettledRoute(HandleSessionEnd(p, id, other, exit, ceiling, view), run)
  {
    hide Finally;
    var q := p.(fallbacks := p.fallbacks - {other}, finishing := p.finishing + {other});
    if other !in p.handled {
      var exit' := if ceiling.Some? then ceiling.value else if other in p.fallbacks then Completed else exit;
      var h := Entering(other, exit', other in p.active);
      FinallyStays(q, id, h, false, run);
      if view.Found? {
        FinallyStays(q, id, h.(scheduledResume := view.resumes), false, run);
      }
    }
  }

  lemma ResumeStays(p: Protocol, id: HandlerId, o: Outcome, run: RunId)
    requires SettledRoute(p, run) && id in p.handlers && p.handlers[id].SessionEnd?
    ensures SettledRoute(ResumeSessionEnd(p, id, p.handlers[id], o), run)
  {
    hide Finally;
    var h := p.handlers[id];
    var q := p.(active := ActiveAfterForget(p, h));
    FinallyStays(p, id, h, false, run);
    FinallyStays(p, id, h, true, run);
    FinallyStays(q, id, ForgetAndRelease(h), true, run);
  }

  lemma RoutedStepStays(p: Protocol, e: Event, run: RunId)
    requires SettledRoute(p, run)
    ensures SettledRoute(Next(p, e), run)
  {
    hide HandleSessionEnd, ResumeSessionEnd;
    match e
    case HarnessCompletes(id, other, exit, ceiling, view) => EnterStays(p, id, other, exit, ceiling, view, run);
    case EndSession(id, other, ceiling, view) =>
      var q := ScheduleCompletionFallback(p, other);
      if other !in p.routed {
        EnterStays(q.(handled := q.handled - {other}), id, other, Completed, ceiling, view, run);
      }
    case TimerFires(id, other, runOpen, ceiling, view) =>
      var q := p.(fallbacks := p.fallbacks - {other});
      if other !in p.routed {
        EnterStays(q.(handled := q.handled - {other}), id, other, Completed, ceiling, view, run);
      }
    case Resume(id, o) =>
      if id in p.handlers && p.handlers[id].SessionEnd? {
        ResumeStays(p, id, o, run);
      }
    case _ =>
  }

  /** Once routed and settled, a run is never taken up again, whatever happens next. */
  lemma {:induction false} RoutedIsFinal(es: seq<Event>, later: seq<Event>, run: RunId)
    requires run in Run(es).routed && run !in Run(es).finishing
    ensures SettledRoute(Run(es + later), run)
  {
    hide Next, Distinct;
    if later == [] {
      RunKeepsInv(es);
      assert es + later == es;
    } else {
      var front, last := later[..|later| - 1], later[|later| - 1];
      RoutedIsFinal(es, front, run);
      assert (es + later)[..|es + later| - 1] == es + front;
      RoutedStepStays(Run(es + front), last, run);
    }
  }

  // ----- The fields, updated in place -----

  class SessionDispatcher {
    var handledSessionEnds: set<RunId>
    var finishingRuns: set<RunId>
    var routedPostCompletion: set<RunId>
    var completionFallbacks: set<RunId>
    var activeSessions: set<RunId>
    var startedRuns: set<RunId>
    /** Suspended and finished calls, with their locals. */
    var handlers: map<HandlerId, Handler>
    var ended: map<HandlerId, Handler>
    var successes: seq<RunId>

    constructor ()
      ensures State() == START
    {
      handledSessionEnds, finishingRuns, routedPostCompletion := {}, {}, {};
      completionFallbacks, activeSessions, startedRuns := {}, {}, {};
      handlers, ended, successes := map[], map[], [];
    }

    function State(): Protocol
      reads this
    {
      Protocol(handledSessionEnds, finishingRuns, routedPostCompletion, completionFallbacks, activeSessions,
          startedRuns,
               handlers, ended, successes)
    }

    method ScheduleFallback(run: RunId)
      modifies this
      ensures State() == ScheduleCompletionFallback(old(State()), run)
    {
      if run in routedPostCompletion || run in completionFallbacks {
        return;
      }
      completionFallbacks := completionFallbacks + {run};
    }

    method EndSession(id: HandlerId, run: RunId, ceiling: Option<Exit>, view: RunView)
      requires !Used(State(), id)
      modifies this
      ensures State() == Next(old(State()), Event.EndSession(id, run, ceiling, view))
    {
      ScheduleFallback(run);
      if run in routedPostCompletion {
        return;
      }
      handledSessionEnds := handledSessionEnds - {run};
      HandleEnd(id, run, Completed, ceiling, view);
    }

    method FireFallback(id: HandlerId, run: RunId, runOpen: bool, ceiling: Option<Exit>, view: RunView)
      requires !Used(State(), id) && run in completionFallbacks
      modifies this
      ensures State() == Next(old(State()), TimerFires(id, run, runOpen, ceiling, view))
    {
      completionFallbacks := completionFallbacks - {run};
      if run in routedPostCompletion || !runOpen {
        return;
      }
      handledSessionEnds := handledSessionEnds - {run};
      HandleEnd(id, run, Completed, ceiling, view);
    }

    /** `handleSessionEnd`, up to its first await or its end. */
    method HandleEnd(id: HandlerId, run: RunId, exit: Exit, ceiling: Option<Exit>, view: RunView)
      modifies this
      ensures State() == HandleSessionEnd(old(State()), id, run, exit, ceiling, view)
    {
      hide Finally, ReadAgain, Entering;
      if run in handledSessionEnds || run in finishingRuns {
        return;
      }
      var exitReason := if run in completionFallbacks then Completed else exit;
      completionFallbacks := completionFallbacks - {run};
      var active := run in activeSessions;
      finishingRuns := finishingRuns + {run};
      if ceiling.Some? {
        exitReason := ceiling.value;
      }
      var h := Entering(run, exitReason, active);
      if !view.Found? {
        FinallyBlock(id, h, false);
        return;
      }
      if exitReason in {PausedMaxTurns, PausedCostBudget, Exit.Failed} && view.open {
        handlers := handlers[id := h.(phase := InLimits)];
        return;
      }
      if exitReason in {Crashed, Timeout} && !view.stageDone && view.open {
        h := h.(scheduledResume := view.resumes);
      }
      ReadRunAgain(id, h, view.stillThere);
    }

    method ReadRunAgain(id: HandlerId, h: Handler, stillThere: bool)
      requires h.SessionEnd?
      modifies this
      ensures State() == ReadAgain(old(State()), id, h, stillThere)
    {
      if stillThere {
        handlers := handlers[id := h.(phase := InDirtyCheck)];
      } else {
        FinallyBlock(id, h, false);
      }
    }

    method FinallyBlock(id: HandlerId, h: Handler, completed: bool)
      requires h.SessionEnd?
      modifies this
      ensures State() == Finally(old(State()), id, h, completed)
    {
      if completed {
        handledSessionEnds := handledSessionEnds + {h.run};
      }
      finishingRuns := finishingRuns - {h.run};
      var local := h;
      if h.hadActive {
        local := ForgetActive(local);
        if !local.release.leaseReleased {
          local := local.(release := local.release.(leaseReleased := true), leases := local.leases + 1);
        }
        if !local.release.releaseAttempted {
          handlers := handlers[id := local.(phase := InFinalRelease, sessions := local.sessions + 1)];
          return;
        }
      }
      handlers, ended := handlers - {id}, ended[id := local];
    }

    method ForgetActive(h: Handler) returns (local: Handler)
      requires h.SessionEnd? && h.hadActive
      modifies this`activeSessions
      ensures activeSessions == ActiveAfterForget(old(State()), h)
      ensures local == h.(release := h.release.(activeRemoved := true))
    {
      local := h;
      if !h.release.activeRemoved {
        activeSessions := activeSessions - {h.run};
        local := h.(release := h.release.(activeRemoved := true));
      }
    }

    method RouteStoredCompletion(id: HandlerId, run: RunId, runOpen: bool)
      requires !Used(State(), id)
      modifies this
      ensures State() == Next(old(State()), RouteStored(id, run, runOpen))
    {
      if run in routedPostCompletion || run in finishingRuns || !runOpen {
        return;
      }
      finishingRuns := finishingRuns + {run};
      handlers := handlers[id := StoredCompletion(run)];
    }

    /** The rest of `routeStoredCompletion`, once its routing call settles. */
    method FinishStored(id: HandlerId, o: Outcome)
      requires id in handlers && handlers[id].StoredCompletion?
      modifies this
      ensures State() == Next(old(State()), Resume(id, o))
    {
      var run := handlers[id].run;
      if o.Resolves? {
        routedPostCompletion := routedPostCompletion + {run};
        successes := successes + [run];
        handledSessionEnds := handledSessionEnds + {run};
      }
      finishingRuns := finishingRuns - {run};
      handlers, ended := handlers - {id}, ended[id := handlers[id]];
    }

    /** `handleSessionEnd` after its release and routing awaits. */
    method AfterRelease(id: HandlerId, o: Outcome)
      requires id in handlers && handlers[id].SessionEnd? && handlers[id].phase == InRelease
      modifies this
      ensures State() == Next(old(State()), Resume(id, o))
    {
      var h := handlers[id];
      if h.hadActive {
        if o.Rejects? && o.recordThrows {
          FinallyBlock(id, h, false);
          return;
        }
        h := ForgetActive(h);
        if !h.release.leaseReleased {
          h := h.(release := h.release.(leaseReleased := true), leases := h.leases + 1);
        }
        if o.Rejects? {
          FinallyBlock(id, h, true);
          return;
        }
      }
      handlers := handlers[id := h.(phase := InRouting)];
    }

    method AfterRouting(id: HandlerId, o: Outcome)
      requires id in handlers && handlers[id].SessionEnd? && handlers[id].phase == InRouting
      modifies this
      ensures State() == Next(old(State()), Resume(id, o))
    {
      var h := handlers[id];
      if o.Rejects? {
        FinallyBlock(id, h, false);
      } else {
        routedPostCompletion := routedPostCompletion + {h.run};
        successes := successes + [h.run];
        handlers := handlers[id := h.(phase := InCleanup, routed := true)];
      }
    }
  }
}
