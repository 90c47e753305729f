/**
 The instance monitor of `instance.rs`: one task that reacts to supervisor
 events, probe observations, two kinds of deadline and cancellation. Each branch
 of its `select!` is a method, and a run is any sequence of enabled branches. The
 ghost `log` records what happened; `Valid` says it is `RunLog.Safe`, and each turn
 says exactly what it adds.
 */
module Monitor {
  import opened Wrappers
  import opened Health
  import opened RunLog

  datatype SupervisorEvent =
    | Started(pid: nat)
    | RestartingNow(attempt: nat)
    | Exited(code: Option<int>)
    | GaveUp
    | Ended       // `Stopped`, or the channel closed
    | Alive       // `Ready`: resets the supervisor's own restart budget

  datatype StopReason =
    | ByUser
    | TimedOut                               // the health probe did
    | Finished                               // the core exited with code 0
    | Unexpected(exit: Option<Option<int>>)  // the last exit, if any, and its code
    | Exhausted                              // the supervisor's restart budget is

  datatype InstanceState = StartingUp | Restarting(attempt: nat) | Running(pid: nat)
    | Stopping | Stopped(reason: StopReason)

  datatype RunState = RunState(runId: nat, pid: nat, ackAttempted: bool, ready: bool, tracker: HealthTracker)

  datatype Input =
    | StopAsked     // `stop_and_confirm_dead` begins
    | Dropped       // the instance handle went away
    | CancelSeen
    | FromSupervisor(event: SupervisorEvent, now: int)
    | InitialDeadline
    | RespawnDeadline
    | Probed(observation: Observation)
    | ObservationSeen

  // ----- what a turn adds to the log ----------------------------------------------

  /** The observation makes the live run healthy for the first time. */
  predicate FirstHealthy(c: Rules, v: View, o: Observation) { AttemptDue(c, Next(c, v, Seen(o))) }

  predicate BecomesReady(c: Rules, v: View, o: Observation) { FirstHealthy(c, v, o) && c.acknowledge(v.attempts) }

  function EventsOf(c: Rules, v: View, o: Observation): seq<Event> {
    if !FirstHealthy(c, v, o) then [Seen(o)]
    else if BecomesReady(c, v, o) then [Seen(o), Attempted(true), Announced(Next(c, v, Seen(o)).run.value.pid)]
    else [Seen(o), Attempted(false)]
  }

  function AfterObserving(c: Rules, v: View, o: Observation): View {
    var w := Next(c, v, Seen(o));
    if !FirstHealthy(c, v, o) then w
    else if BecomesReady(c, v, o) then Next(c, Next(c, w, Attempted(true)), Announced(w.run.value.pid))
    else Next(c, w, Attempted(false))
  }

  /** Draining applies queued observations until one makes the run ready. */
  function Drained(c: Rules, v: View, q: seq<Observation>): seq<Event>
    decreases |q|
  {
    if q == [] then []
    else EventsOf(c, v, q[0]) + if BecomesReady(c, v, q[0]) then [] else Drained(c, AfterObserving(c, v, q[0]), q[1..])
  }

  predicate DrainsReady(c: Rules, v: View, q: seq<Observation>)
    decreases |q|
  {
    q != [] && (BecomesReady(c, v, q[0]) || DrainsReady(c, AfterObserving(c, v, q[0]), q[1..]))
  }

  function Closing(v: View): seq<Event> { if v.run.Some? then [Over] else [] }

  function Effects(c: Rules, v: View, q: seq<Observation>, i: Input): seq<Event> {
    match i
    case ObservationSeen => if q == [] then [] else EventsOf(c, v, q[0])
    case InitialDeadline => Drained(c, v, q) + if DrainsReady(c, v, q) then [] else Closing(v)
    case RespawnDeadline => Drained(c, v, q) + if DrainsReady(c, v, q) then [] else Closing(v)
    case CancelSeen => Closing(v)
    case FromSupervisor(Started(pid), now) => [Began(pid, now)]
    case FromSupervisor(RestartingNow(_), _) => Closing(v)
    case FromSupervisor(Exited(_), _) => Closing(v)
    case _ => []
  }

  /** Running is published exactly when the turn ends in an announcement, and for its pid. */
  ghost predicate Told(added: seq<Event>, was: InstanceState, state: InstanceState) {
    && (forall k :: 0 <= k < |added| - 1 ==> !added[k].Announced?)
    && if added != [] && added[|added| - 1].Announced? then state == Running(added[|added| - 1].pid)
       else state.Running? ==> state == was
  }

  /** What is published after a supervisor event; why an instance ended, in order of precedence. */
  function AfterEvent(event: SupervisorEvent, was: InstanceState, userStop: bool, probeTimeout: bool,
                      lastExit: Option<Option<int>>): InstanceState
  {
    match event
    case RestartingNow(attempt) => Restarting(attempt)
    case GaveUp => Stopped(Exhausted)
    case Ended =>
      if userStop then Stopped(ByUser)
      else if probeTimeout then Stopped(TimedOut)
      else if lastExit.Some? && lastExit.value.Some? && lastExit.value.value == 0 then Stopped(Finished)
      else Stopped(Unexpected(lastExit))
    case _ => was
  }

  /** The supervisor is finished, and the loop returns. */
  predicate Ends(i: Input) { i.FromSupervisor? && (i.event.GaveUp? || i.event.Ended?) }

  predicate Concluded(inputs: seq<Input>) { exists i :: 0 <= i < |inputs| && Ends(inputs[i]) }

  /** The starts the loop sees before it returns. */
  function StartsOf(inputs: seq<Input>): seq<Event> {
    if inputs == [] then []
    else
      var before, i := inputs[..|inputs| - 1], inputs[|inputs| - 1];
      StartsOf(before)
      + if i.FromSupervisor? && i.event.Started? && !Concluded(before) then [Began(i.event.pid, i.now)] else []
  }

  /** The observations probes put on the queue before it returns. */
  function ObservedIn(inputs: seq<Input>): seq<Observation> {
    if inputs == [] then []
    else
      var before, i := inputs[..|inputs| - 1], inputs[|inputs| - 1];
      ObservedIn(before)
      + if i.Probed? && ValidProbe(i.observation.probe) && !Concluded(before) then [i.observation] else []
  }

  lemma {:induction false} NoNewStarts(log: seq<Event>, es: seq<Event>)
    requires forall e :: e in es ==> !e.Began?
    ensures Starts(log + es) == Starts(log)
    decreases |es|
  {
    if es == [] {
      assert log + es == log;
    } else {
      var s := es[..|es| - 1];
      NoNewStarts(log, s);
      assert (log + es)[..|log + es| - 1] == log + s;
      assert es[|es| - 1] in es;
    }
  }

  /** A turn adds the start it was given, and no other. */
  lemma EffectsStarts(c: Rules, v: View, q: seq<Observation>, i: Input, log: seq<Event>)
    ensures var started := if i.FromSupervisor? && i.event.Started? then [Began(i.event.pid, i.now)] else [];
            Starts(log + Effects(c, v, q, i)) == Starts(log) + started
  {
    if i.FromSupervisor? && i.event.Started? {
      var b := Began(i.event.pid, i.now);
      assert (log + [b])[..|log|] == log;
    } else {
      DrainedStartsNothing(c, v, q);
      hide FirstHealthy, BecomesReady, Drained;
      NoNewStarts(log, Effects(c, v, q, i));
    }
  }

  lemma {:induction false} DrainedStartsNothing(c: Rules, v: View, q: seq<Observation>)
    ensures forall e :: e in Drained(c, v, q) ==> !e.Began?
    decreases |q|
  {
    if q != [] && !BecomesReady(c, v, q[0]) {
      DrainedStartsNothing(c, AfterObserving(c, v, q[0]), q[1..]);
      hide FirstHealthy, BecomesReady;
    }
  }

  lemma {:induction false} NoneSeen(log: seq<Event>, es: seq<Event>)
    requires forall e :: e in es ==> !e.Seen?
    ensures SeenIn(log + es) == SeenIn(log)
    decreases |es|
  {
    if es == [] {
      assert log + es == log;
    } else {
      var s := es[..|es| - 1];
      NoneSeen(log, s);
      assert (log + es)[..|log + es| - 1] == log + s;
      assert es[|es| - 1] in es;
    }
  }

  lemma {:induction false} SeenGrows(log: seq<Event>, es: seq<Event>)
    ensures |SeenIn(log + es)| >= |SeenIn(log)|
    decreases |es|
  {
    if es == [] {
      assert log + es == log;
    } else {
      SeenGrows(log, es[..|es| - 1]);
      assert (log + es)[..|log + es| - 1] == log + es[..|es| - 1];
    }
  }

  /** One observation is taken off the queue, and one is seen. */
  lemma OneSeen(c: Rules, v: View, o: Observation, log: seq<Event>, q: seq<Observation>)
    ensures SeenIn(log + EventsOf(c, v, o)) + q == SeenIn(log) + ([o] + q)
  {
    var es := EventsOf(c, v, o);
    var rest := es[1..];
    assert log + es == log + [Seen(o)] + rest;
    NoneSeen(log + [Seen(o)], rest);
    assert (log + [Seen(o)])[..|log|] == log;
  }

  lemma {:induction false} DrainedEnds(c: Rules, v: View, q: seq<Observation>)
    ensures var es := Drained(c, v, q);
            && (forall k :: 0 <= k < |es| - 1 ==> !es[k].Announced?)
            && (es != [] && es[|es| - 1].Announced? <==> DrainsReady(c, v, q))
    decreases |q|
  {
    if q != [] {
      var head := EventsOf(c, v, q[0]);
      if !BecomesReady(c, v, q[0]) {
        var w := AfterObserving(c, v, q[0]);
        DrainedEnds(c, w, q[1..]);
        assert forall k :: 0 <= k < |head| ==> !head[k].Announced?;
        hide EventsOf, AfterObserving, BecomesReady;
      }
    }
  }

  /** An announcement is the last event of its turn. */
  lemma EffectsEnd(c: Rules, v: View, q: seq<Observation>, i: Input)
    ensures var es := Effects(c, v, q, i);
            && (forall k :: 0 <= k < |es| - 1 ==> !es[k].Announced?)
            && (es != [] && es[|es| - 1].Announced? <==> Announces(c, v, q, i))
  {
    DrainedEnds(c, v, q);
    hide Drained, DrainsReady;
  }

  // ----- the monitor ----------------------------------------------------------------

  datatype Flags = Flags(everReady: bool, timeoutFired: bool, probesCancelled: bool, probeCancel: bool, cancel: bool)

  /** A live run that is not ready has a deadline armed, or cancellation was already requested. */
  ghost predicate Armed(f: Flags, current: Option<RunState>, respawnDeadline: Option<int>) {
    && (current.Some? && !current.value.ready ==>
          if f.everReady then respawnDeadline.Some? else (!f.timeoutFired || f.probeCancel))
    && (respawnDeadline.Some? ==> f.everReady && current.Some? && !current.value.ready)
    && (f.timeoutFired ==> f.probeCancel && f.cancel)
    && (f.probesCancelled ==> f.probeCancel)
  }

  /** The control state is the view of the log: same run, same counts, the deadline it implies. */
  ghost predicate Matches(c: Rules, v: View, nextRunId: nat, asked: nat, current: Option<RunState>,
                          driver: Option<(nat, nat)>, f: Flags, respawn: Option<int>, state: InstanceState)
  {
    && nextRunId == RunIdOf(v.starts) && f.everReady == v.everReady && asked == v.attempts
    && (current.Some? <==> v.run.Some?)
    && (current.Some? ==>
          && current.value.runId == nextRunId && current.value.pid == v.run.value.pid
          && current.value.ackAttempted == v.run.value.attempted && current.value.ready == v.run.value.ready
          && (v.run.value.ready ==> v.run.value.attempted && v.everReady)
          && (v.run.value.acked ==> v.run.value.attempted))
    && (driver.Some? ==> current.Some? && driver.value == (current.value.runId, current.value.pid))
    && respawn == (if current.Some? && v.everReady && !current.value.ready
                   then Some(v.run.value.at + c.startupTimeout) else None)
    && (state.Running? ==> v.announced == Some(state.pid))
    && Armed(f, current, respawn)
  }

  class InstanceMonitor {
    const rules: Rules

    var everReady: bool
    var timeoutFired: bool
    var probesCancelled: bool
    var nextRunId: nat
    var asked: nat                       // acknowledgements sent to the supervisor
    var current: Option<RunState>
    var driver: Option<(nat, nat)>       // run id and pid the probe driver observes
    var respawnDeadline: Option<int>
    var lastExit: Option<Option<int>>
    var userStop: bool
    var probeTimeout: bool
    var queue: seq<Observation>
    var probeCancel: bool                // shared cancellation tokens
    var cancel: bool
    var state: InstanceState             // the published lifecycle
    var done: bool

    ghost var log: seq<Event>
    ghost var view: View

    ghost function Trackers(): set<object>
      reads `current
    {
      if current.Some? then {current.value.tracker} else {}
    }

    ghost function FlagsNow(): Flags
      reads `everReady, `timeoutFired, `probesCancelled, `probeCancel, `cancel
    {
      Flags(everReady, timeoutFired, probesCancelled, probeCancel, cancel)
    }

    /** The live run's tracker has seen exactly the observations applied to it. */
    ghost predicate TrackerOk(v: View)
      reads `current, Trackers()
    {
      current.Some? && v.run.Some? ==>
        var t := current.value.tracker;
        t.Valid() && t.policy == rules.policy && t.startedAt == v.run.value.at && t.history == v.run.value.history
    }

    ghost predicate Logged()
      reads `log, `view
    {
      Safe(rules, log) && view == ViewOf(rules, log)
    }

    /** The control state stands for the view `v`. */
    ghost predicate Stands(v: View)
      reads `nextRunId, `asked, `current, `driver, `everReady, `timeoutFired, `probesCancelled, `probeCancel, `cancel,
            `respawnDeadline, `state, Trackers()
    {
      && TrackerOk(v)
      && Matches(rules, v, nextRunId, asked, current, driver, FlagsNow(), respawnDeadline, state)
    }

    /** Everything but that nothing is due. */
    ghost predicate Steady()
      reads this, Trackers()
    {
      && ValidPolicy(rules.policy) && Logged() && Stands(view)
      && (forall i :: 0 <= i < |queue| ==> ValidProbe(queue[i].probe))
    }

    ghost predicate Valid()
      reads this, Trackers()
    {
      Steady() && !Due(rules, view)
    }

    constructor (rules: Rules)
      requires ValidPolicy(rules.policy)
      ensures Valid() && fresh(Trackers()) && log == [] && queue == [] && !done && this.rules == rules
    {
      this.rules := rules;
      everReady, timeoutFired, probesCancelled := false, false, false;
      nextRunId, asked, current, driver, respawnDeadline, lastExit, queue := 0, 0, None, None, None, None, [];
      probeCancel, cancel, userStop, probeTimeout, state, done := false, false, false, false, StartingUp, false;
      log, view := [], START;
    }

    ghost method Emit(e: Event)
      requires Logged() && Allowed(rules, view, e)
      modifies `log, `view
      ensures Logged() && log == old(log) + [e] && view == Next(rules, old(view), e)
    {
      var t := log + [e];
      assert t[..|t| - 1] == log;
      log, view := t, Next(rules, view, e);
    }

    // ----- observations --------------------------------------------------------

    /** `observation_applies`, and neither deadline passed: as the control state has it. */
    predicate AppliesNow(o: Observation)
      reads `current, `everReady, `respawnDeadline
    {
      && current.Some? && o.runId == current.value.runId && o.pid == current.value.pid
      && (!everReady ==> o.probe.now <= rules.initialDeadline)
      && (respawnDeadline.Some? ==> o.probe.now <= respawnDeadline.value)
    }

    lemma AppliesAgrees(o: Observation)
      requires Valid()
      ensures AppliesNow(o) <==> Applies(rules, view, o)
    {
      hide Logged, HealthTracker.Valid, Due;
    }

    /** Observations of an earlier run are never of the live one: they are seen, and nothing follows. */
    lemma StaleNeverApplies(o: Observation)
      requires Valid() && o.runId < nextRunId
      ensures EventsOf(rules, view, o) == [Seen(o)] && AfterObserving(rules, view, o) == view
    {
      hide Logged, HealthTracker.Valid, Verdict;
    }

    /** Acknowledgement succeeded: the run is ready and Running is published. */
    method BecomeReady()
      requires Steady() && current.Some? && !current.value.ready && Allowed(rules, view, Announced(current.value.pid))
      modifies `everReady, `respawnDeadline, `current, `state, `log, `view
      ensures Valid() && everReady && respawnDeadline.None? && Trackers() == old(Trackers())
      ensures current == Some(old(current).value.(ready := true)) && state == Running(current.value.pid)
      ensures log == old(log) + [Announced(current.value.pid)]
      ensures view == Next(rules, old(view), Announced(current.value.pid))
    {
      hide Logged, HealthTracker.Valid, Healthful;
      Emit(Announced(current.value.pid));
      everReady, respawnDeadline := true, None;
      current := Some(current.value.(ready := true));
      state := Running(current.value.pid);
    }

    /** The tracker takes an observation of the live run. */
    method Track(o: Observation) returns (healthy: bool)
      requires Valid() && ValidProbe(o.probe) && Applies(rules, view, o)
      modifies `log, `view, Trackers()
      ensures Steady() && log == old(log) + [Seen(o)] && view == Next(rules, old(view), Seen(o))
      ensures healthy <==> Healthful(rules, view.run.value)
      ensures current.value.tracker.history == old(current.value.tracker.history) + [o.probe]
    {
      hide Logged, HealthTracker.Valid, Verdict;
      var update := current.value.tracker.Observe(o.probe);
      Emit(Seen(o));
      healthy := update.state == Healthy;
    }

    /** The one acknowledgement attempt of a run. */
    method Attempt() returns (acknowledged: bool)
      requires Steady() && current.Some? && AttemptDue(rules, view)
      modifies `current, `asked, `log, `view, `everReady, `respawnDeadline, `state
      ensures Valid() && Trackers() == old(Trackers()) && acknowledged == rules.acknowledge(old(view).attempts)
      ensures current == Some(old(current).value.(ackAttempted := true, ready := current.value.ready))
      ensures var pid := old(current).value.pid;
              if acknowledged then
                && log == old(log) + [Attempted(true), Announced(pid)] && state == Running(pid) && current.value.ready
                && view == Next(rules, Next(rules, old(view), Attempted(true)), Announced(pid))
                && everReady && respawnDeadline.None?
              else
                && log == old(log) + [Attempted(false)] && state == old(state) && !current.value.ready
                && view == Next(rules, old(view), Attempted(false)) && everReady == old(everReady)
                && respawnDeadline == old(respawnDeadline)
    {
      hide Logged, HealthTracker.Valid, Verdict;
      acknowledged := rules.acknowledge(asked);
      asked := asked + 1;
      Emit(Attempted(acknowledged));
      current := Some(current.value.(ackAttempted := true));
      if acknowledged { BecomeReady(); }
    }

    /**
     `apply_probe_observation`: exactly the specified events; true exactly when it made
     the run ready. The tracker takes the observation exactly if it carries the live
     run's id and pid and neither deadline is passed.
     */
    method ApplyProbeObservation(o: Observation) returns (ready: bool)
      requires Valid() && ValidProbe(o.probe)
      modifies `everReady, `respawnDeadline, `current, `asked, `state, `log, `view, Trackers()
      ensures Valid() && Trackers() == old(Trackers())
      ensures log == old(log) + EventsOf(rules, old(view), o) && view == AfterObserving(rules, old(view), o)
      ensures ready == BecomesReady(rules, old(view), o)
      ensures if old(current).Some? && o.runId == old(current).value.runId && o.pid == old(current).value.pid
                 && (old(everReady) || o.probe.now <= rules.initialDeadline)
                 && (old(respawnDeadline).None? || o.probe.now <= old(respawnDeadline).value)
              then current.Some? && current.value.tracker.history == old(current.value.tracker.history) + [o.probe]
              else
                && !ready && log == old(log) + [Seen(o)] && current == old(current) && state == old(state)
                && (current.Some? ==> unchanged(old(current).value.tracker))
      ensures !ready ==> state == old(state) && everReady == old(everReady) && respawnDeadline == old(respawnDeadline)
      ensures ready ==> everReady && respawnDeadline.None? && current.Some? && current.value.ready
                        && current.value.pid == o.pid && state == Running(o.pid)
      ensures current.None? <==> old(current).None?
    {
      AppliesAgrees(o);
      ready := false;
      if !AppliesNow(o) {
        hide Logged, HealthTracker.Valid, Matches, Verdict;
        Emit(Seen(o));
        return;
      }
      hide Valid, EventsOf, AfterObserving, BecomesReady, Applies;
      ready := Take(o);
    }

    /** An observation of the live run, in time. */
    method Take(o: Observation) returns (ready: bool)
      requires Valid() && ValidProbe(o.probe) && AppliesNow(o) && Applies(rules, view, o)
      modifies `everReady, `respawnDeadline, `current, `asked, `state, `log, `view, Trackers()
      ensures Valid() && Trackers() == old(Trackers()) && current.Some?
      ensures log == old(log) + EventsOf(rules, old(view), o) && view == AfterObserving(rules, old(view), o)
      ensures ready == BecomesReady(rules, old(view), o)
      ensures current.value.tracker.history == old(current.value.tracker.history) + [o.probe]
      ensures !ready ==> state == old(state) && everReady == old(everReady) && respawnDeadline == old(respawnDeadline)
      ensures ready ==> everReady && respawnDeadline.None? && current.value.ready
                        && current.value.pid == o.pid && state == Running(o.pid)
    {
      hide Valid, Logged, HealthTracker.Valid, Verdict, Matches, EventsOf,
           AfterObserving, FirstHealthy, BecomesReady, Next, Steady;
      Steadies();
      SameRun();
      ghost var v, before := view, log;
      var healthy := Track(o);
      SameRun();
      if !current.value.ackAttempted && healthy {
        ready := Attempt();
        HealthyEvents(rules, v, o);
        assert ready ==> before + [Seen(o)] + [Attempted(true), Announced(o.pid)]
                         == before + [Seen(o), Attempted(true), Announced(o.pid)];
        assert !ready ==> before + [Seen(o)] + [Attempted(false)] == before + [Seen(o), Attempted(false)];
      } else {
        ready := false;
        StillCalm(v, o);
        PlainEvents(rules, v, o);
      }
    }

    /** An observation that makes nothing due. */
    lemma StillCalm(v: View, o: Observation)
      requires Steady() && view == Next(rules, v, Seen(o)) && !Due(rules, v) && !AttemptDue(rules, view)
      ensures Valid()
    {
      hide Logged, HealthTracker.Valid, Matches, Verdict, TrackerOk;
    }

    static lemma PlainEvents(c: Rules, v: View, o: Observation)
      requires !AttemptDue(c, Next(c, v, Seen(o)))
      ensures EventsOf(c, v, o) == [Seen(o)] && AfterObserving(c, v, o) == Next(c, v, Seen(o))
              && !BecomesReady(c, v, o)
    {
    }

    static lemma HealthyEvents(c: Rules, v: View, o: Observation)
      requires Applies(c, v, o) && AttemptDue(c, Next(c, v, Seen(o)))
      ensures BecomesReady(c, v, o) == c.acknowledge(v.attempts) == c.acknowledge(Next(c, v, Seen(o)).attempts)
      ensures var w := Next(c, v, Seen(o));
              if c.acknowledge(v.attempts) then
                && EventsOf(c, v, o) == [Seen(o), Attempted(true), Announced(o.pid)]
                && AfterObserving(c, v, o) == Next(c, Next(c, w, Attempted(true)), Announced(o.pid))
              else
                EventsOf(c, v, o) == [Seen(o), Attempted(false)]
                && AfterObserving(c, v, o) == Next(c, w, Attempted(false))
    {
    }

    /** The control state and the view agree about the live run. */
    lemma SameRun()
      requires Steady()
      ensures current.Some? <==> view.run.Some?
      ensures current.Some? ==> current.value.pid == view.run.value.pid
                                && current.value.ackAttempted == view.run.value.attempted
    {
      hide Logged, HealthTracker.Valid;
    }

    /** `drain_probe_observations`. */
    method Drain() returns (ready: bool)
      requires Valid()
      modifies `everReady, `respawnDeadline, `current, `asked, `state, `log, `view, `queue, Trackers()
      ensures Valid() && Trackers() == old(Trackers())
      ensures log == old(log) + Drained(rules, old(view), old(queue))
              && ready == DrainsReady(rules, old(view), old(queue))
      ensures ready ==> everReady && respawnDeadline.None? && current.Some? && current.value.ready
                        && state == Running(current.value.pid)
                        && log != [] && log[|log| - 1] == Announced(current.value.pid)
      ensures !ready ==> queue == [] && state == old(state) && everReady == old(everReady)
                         && respawnDeadline == old(respawnDeadline) && (current.Some? <==> old(current).Some?)
      ensures SeenIn(log) + queue == old(SeenIn(log) + queue)
    {
      hide Logged, HealthTracker.Valid, Matches, EventsOf, AfterObserving, BecomesReady, SeenIn;
      ready := false;
      ghost var all := log + Drained(rules, view, queue);
      while queue != []
        invariant Valid() && Trackers() == old(Trackers())
        invariant log + Drained(rules, view, queue) == all
        invariant DrainsReady(rules, view, queue) == DrainsReady(rules, old(view), old(queue))
        invariant state == old(state) && everReady == old(everReady) && respawnDeadline == old(respawnDeadline)
        invariant current.Some? <==> old(current).Some?
        invariant SeenIn(log) + queue == old(SeenIn(log) + queue)
        decreases |queue|
      {
        var o := queue[0];
        ghost var before, v, q := log, view, queue;
        queue := queue[1..];
        assert q == [o] + queue;
        ready := ApplyProbeObservation(o);
        OneSeen(rules, v, o, before, queue);
        if ready {
          EndsInAnnouncement(rules, v, o);
          assert before + (EventsOf(rules, v, o) + []) == before + EventsOf(rules, v, o);
          return;
        }
        assert before + (EventsOf(rules, v, o) + Drained(rules, view, queue))
            == before + EventsOf(rules, v, o) + Drained(rules, view, queue);
      }
    }

    static lemma EndsInAnnouncement(c: Rules, v: View, o: Observation)
      requires BecomesReady(c, v, o) && !Due(c, v)
      ensures var es := EventsOf(c, v, o); es != [] && v.run.Some? && es[|es| - 1] == Announced(o.pid)
    {
    }

    // ----- the branches of the loop ----------------------------------------------

    /** Drop the live run, its driver and its respawn deadline. */
    method Forget()
      requires Valid()
      modifies `current, `driver, `respawnDeadline, `log, `view
      ensures Valid() && current.None? && driver.None? && respawnDeadline.None?
      ensures log == old(log) + Closing(old(view))
    {
      hide Logged, HealthTracker.Valid;
      if current.Some? { Emit(Over); } else { assert log + [] == log; }
      current, driver, respawnDeadline := None, None, None;
    }

    /** The end of the loop: stop the driver, publish the terminal state. */
    method Terminate(reason: StopReason)
      requires Valid()
      modifies `driver, `state, `done
      ensures Valid() && driver.None? && state == Stopped(reason) && done
    {
      hide Logged, HealthTracker.Valid;
      driver, state, done := None, Stopped(reason), true;
    }

    /** The process is gone: forget the run, and publish what the supervisor does next, if it said so. */
    method RunEnded(next: Option<InstanceState>, exit: Option<Option<int>>)
      requires Valid() && (next.Some? ==> !next.value.Running?)
      modifies `current, `driver, `respawnDeadline, `state, `lastExit, `log, `view
      ensures Valid() && current.None? && state == (if next.Some? then next.value else old(state))
      ensures lastExit == if exit.Some? then exit else old(lastExit)
      ensures log == old(log) + Closing(old(view))
    {
      hide Logged, HealthTracker.Valid;
      Forget();
      if next.Some? { state := next.value; }
      if exit.Some? { lastExit := exit; }
    }

    /** Cancellation from outside: a stop also publishes Stopping, dropping the handle cancels the supervisor too. */
    method Cancelled(stop: bool)
      requires Valid()
      modifies `probeCancel, `cancel, `userStop, `state
      ensures Valid() && probeCancel && state == (if stop then Stopping else old(state)) && (!stop ==> cancel)
      ensures userStop == (old(userStop) || stop)
    {
      hide Logged, HealthTracker.Valid;
      probeCancel := true;
      if stop { userStop, state := true, Stopping; } else { cancel := true; }
    }

    method OnCancelSeen()
      requires Valid() && probeCancel && !probesCancelled
      modifies `probesCancelled, `current, `driver, `respawnDeadline, `log, `view
      ensures Valid() && probesCancelled && current.None? && log == old(log) + Closing(old(view))
    {
      hide Logged, HealthTracker.Valid;
      Forget();
      probesCancelled := true;
    }

    /** The control state after a start. */
    static lemma StartMatches(c: Rules, v: View, id: nat, asked: nat, current: Option<RunState>,
                              driver: Option<(nat, nat)>, f: Flags, respawn: Option<int>,
                              state: InstanceState, pid: nat, now: int, t: HealthTracker)
      requires Matches(c, v, id, asked, current, driver, f, respawn, state)
      ensures var next := if id == U64_MAX then U64_MAX else id + 1;
              var run := Some(RunState(next, pid, false, false, t));
              var deadline := if f.everReady then Some(now + c.startupTimeout) else None;
              var w := Next(c, v, Began(pid, now));
              && Matches(c, w, next, asked, run, None, f, deadline, state)
              && Matches(c, w, next, asked, run, Some((next, pid)), f, deadline, state)
    {
    }

    /** The new run replaces whatever was there. */
    method SetRun(pid: nat, now: int, tracker: HealthTracker)
      requires Stands(view) && tracker.Valid() && tracker.policy == rules.policy
      requires tracker.startedAt == now && tracker.history == []
      modifies `nextRunId, `current, `driver, `respawnDeadline
      ensures Stands(Next(rules, view, Began(pid, now)))
      ensures current == Some(RunState(nextRunId, pid, false, false, tracker))
      ensures respawnDeadline == if everReady then Some(now + rules.startupTimeout) else None
      ensures driver == if probesCancelled then None else Some((nextRunId, pid))
    {
      hide HealthTracker.Valid, Matches;
      StartMatches(rules, view, nextRunId, asked, current, driver,
                   FlagsNow(), respawnDeadline, state, pid, now, tracker);
      var id := if nextRunId == U64_MAX then U64_MAX else nextRunId + 1;
      var deadline := if everReady then Some(now + rules.startupTimeout) else None;
      var observed := if probesCancelled then None else Some((id, pid));
      nextRunId, current := id, Some(RunState(id, pid, false, false, tracker));
      respawnDeadline, driver := deadline, observed;
    }

    method OnStarted(pid: nat, now: int)
      requires Valid()
      modifies `nextRunId, `current, `driver, `respawnDeadline, `log, `view
      ensures Valid() && fresh(Trackers()) && log == old(log) + [Began(pid, now)]
      ensures current.Some? && current.value.pid == pid && !current.value.ready && !current.value.ackAttempted
      ensures current.value.tracker.history == [] && current.value.tracker.startedAt == now
      ensures respawnDeadline == if everReady then Some(now + rules.startupTimeout) else None
      ensures driver == if probesCancelled then None else Some((nextRunId, pid))
    {
      hide Logged, HealthTracker.Valid, Matches;
      var tracker := new HealthTracker(rules.policy, now);
      SetRun(pid, now, tracker);
      Emit(Began(pid, now));
    }

    method OnSupervisor(event: SupervisorEvent, now: int)
      requires Valid()
      modifies `nextRunId, `current, `driver, `respawnDeadline, `state, `lastExit, `done, `log, `view
      ensures Valid() && (Trackers() == old(Trackers()) || fresh(Trackers()) || Trackers() == {})
      ensures log == old(log) + Effects(rules, old(view), queue, FromSupervisor(event, now))
      ensures event.Started? ==> current.Some? && current.value.pid == event.pid
      ensures event.RestartingNow? || event.Exited? ==> current.None?
      ensures state == AfterEvent(event, old(state), userStop, probeTimeout, lastExit)
      ensures lastExit == if event.Exited? then Some(event.code) else old(lastExit)
      ensures done <==> old(done) || Ends(FromSupervisor(event, now))
    {
      hide Valid;
      match event
      case Started(pid) => OnStarted(pid, now);
      case RestartingNow(attempt) => RunEnded(Some(Restarting(attempt)), None);
      case Exited(payload) => RunEnded(None, Some(payload));
      case GaveUp => Terminate(Exhausted);
      case Ended =>
        var reason := if userStop then ByUser
                      else if probeTimeout then TimedOut
                      else if lastExit == Some(Some(0)) then Finished
                      else Unexpected(lastExit);
        Terminate(reason);
      case Alive =>
    }

    /** A deadline passed unmet: cancel the probes and the supervisor. */
    method GiveUp(initial: bool)
      requires Valid()
      modifies `current, `driver, `respawnDeadline, `probeCancel, `cancel, `probeTimeout, `timeoutFired, `log, `view
      ensures Valid() && current.None? && respawnDeadline.None? && probeCancel && cancel && probeTimeout
      ensures timeoutFired == (old(timeoutFired) || initial)
      ensures log == old(log) + Closing(old(view)) && SeenIn(log) == old(SeenIn(log))
    {
      hide Logged, HealthTracker.Valid, SeenIn;
      NoneSeen(log, Closing(view));
      Forget();
      probeCancel, cancel, probeTimeout := true, true, true;
      if initial { timeoutFired := true; }
    }

    /** A deadline passed: see what is queued, and cancel everything unless that makes the run ready. */
    method Expire(initial: bool) returns (became: bool)
      requires Valid()
      modifies `everReady, `respawnDeadline, `current, `asked, `state, `log, `view, `queue, `driver,
               `probeCancel, `cancel, `probeTimeout, `timeoutFired, Trackers()
      ensures Valid() && (Trackers() == old(Trackers()) || Trackers() == {})
      ensures became == DrainsReady(rules, old(view), old(queue)) && respawnDeadline.None?
      ensures log == old(log) + (Drained(rules, old(view), old(queue)) + if became then [] else Closing(old(view)))
      ensures SeenIn(log) + queue == old(SeenIn(log) + queue)
      ensures if became then
                && everReady && current.Some? && current.value.ready && state == Running(current.value.pid)
                && log != [] && log[|log| - 1] == Announced(state.pid) && timeoutFired == old(timeoutFired)
                && probeTimeout == old(probeTimeout)
              else
                && current.None? && probeCancel && cancel && state == old(state) && everReady == old(everReady)
                && probeTimeout
                && timeoutFired == (old(timeoutFired) || initial)
    {
      hide Valid, Drained, DrainsReady, SeenIn, Steady;
      Steadies();
      SameRun();
      became := Drain();
      if became {
        NothingMore(old(log), Drained(rules, old(view), old(queue)));
      } else {
        Steadies();
        SameRun();
        GiveUp(initial);
        Rejoin(old(log), Drained(rules, old(view), old(queue)), Closing(old(view)));
      }
    }

    lemma Steadies()
      requires Valid()
      ensures Steady() && !Due(rules, view)
    {
    }

    /** What is true between turns. */
    lemma BetweenTurns()
      requires Valid()
      ensures Safe(rules, log) && !Due(rules, ViewOf(rules, log))
      ensures state.Running? ==> ViewOf(rules, log).announced == Some(state.pid)
      ensures Armed(FlagsNow(), current, respawnDeadline)
    {
      hide HealthTracker.Valid, Safe, ViewOf, Due;
    }

    static lemma NothingMore(a: seq<Event>, b: seq<Event>)
      ensures a + b == a + (b + [])
    {
    }

    static lemma Rejoin(a: seq<Event>, b: seq<Event>, c: seq<Event>)
      ensures a + b + c == a + (b + c)
    {
    }

    /** The total limit of the initial start: ready by now, or everything is cancelled. */
    method OnInitialDeadline()
      requires Valid() && !everReady && !timeoutFired
      modifies this, Trackers()
      ensures Valid() && (Trackers() == old(Trackers()) || Trackers() == {})
      ensures log == old(log) + Effects(rules, old(view), old(queue), InitialDeadline) && done == old(done)
      ensures userStop == old(userStop)
      ensures probeTimeout == (old(probeTimeout) || !DrainsReady(rules, old(view), old(queue)))
      ensures everReady == DrainsReady(rules, old(view), old(queue))
      ensures if everReady then current.Some? && current.value.ready && state == Running(current.value.pid)
                                && !timeoutFired
              else timeoutFired && probeTimeout && current.None? && probeCancel && cancel && state == old(state)
      ensures everReady ==> log != [] && log[|log| - 1] == Announced(state.pid)
      ensures SeenIn(log) + queue == old(SeenIn(log) + queue)
    {
      hide Valid, Drained, DrainsReady, SeenIn;
      var _ := Expire(true);
    }

    /** The limit of a respawn: ready by now, or everything is cancelled. */
    method OnRespawnDeadline()
      requires Valid() && respawnDeadline.Some?
      modifies this, Trackers()
      ensures Valid() && (Trackers() == old(Trackers()) || Trackers() == {})
      ensures log == old(log) + Effects(rules, old(view), old(queue), RespawnDeadline) && done == old(done)
      ensures userStop == old(userStop)
      ensures probeTimeout == (old(probeTimeout) || !DrainsReady(rules, old(view), old(queue)))
      ensures respawnDeadline.None?
      ensures if DrainsReady(rules, old(view), old(queue)) then
                && current.Some? && current.value.ready && state == Running(current.value.pid)
                && log != [] && log[|log| - 1] == Announced(state.pid)
              else current.None? && probeTimeout && probeCancel && cancel && state == old(state)
      ensures SeenIn(log) + queue == old(SeenIn(log) + queue)
    {
      hide Valid, Drained, DrainsReady, SeenIn;
      var _ := Expire(false);
    }

    predicate Enabled(i: Input)
      reads this
    {
      match i
      case CancelSeen => probeCancel && !probesCancelled
      case InitialDeadline => !everReady && !timeoutFired
      case RespawnDeadline => respawnDeadline.Some?
      case Probed(o) => ValidProbe(o.probe)
      case ObservationSeen => queue != []
      case _ => true
    }

    method Enqueue(o: Observation)
      requires Valid() && ValidProbe(o.probe)
      modifies `queue
      ensures Valid() && queue == old(queue) + [o]
    {
      hide Logged, HealthTracker.Valid, Matches;
      queue := queue + [o];
    }

    method ObserveNext()
      requires Valid() && queue != []
      modifies `queue, `everReady, `respawnDeadline, `current, `asked, `state, `log, `view, Trackers()
      ensures Valid() && Trackers() == old(Trackers()) && queue == old(queue)[1..]
      ensures log == old(log) + EventsOf(rules, old(view), old(queue)[0])
      ensures if BecomesReady(rules, old(view), old(queue)[0]) then
                && current.Some? && current.value.ready && state == Running(current.value.pid)
                && current.value.pid == old(queue)[0].pid && log != [] && log[|log| - 1] == Announced(state.pid)
              else state == old(state)
    {
      hide Logged, HealthTracker.Valid, Matches, BecomesReady, EventsOf;
      var o := queue[0];
      ghost var v := view;
      queue := queue[1..];
      var ready := ApplyProbeObservation(o);
      if ready { EndsInAnnouncement(rules, v, o); }
    }

    /** The cases of `Effects` and `Announces`, input by input. */
    static lemma TurnCases(c: Rules, v: View, q: seq<Observation>)
      ensures Effects(c, v, q, StopAsked) == Effects(c, v, q, Dropped) == []
      ensures Effects(c, v, q, CancelSeen) == Closing(v)
      ensures forall o :: Effects(c, v, q, Probed(o)) == []
      ensures q != [] ==> Effects(c, v, q, ObservationSeen) == EventsOf(c, v, q[0])
      ensures forall i: Input :: Announces(c, v, q, i) ==>
                i.ObservationSeen? || i.InitialDeadline? || i.RespawnDeadline?
      ensures Announces(c, v, q, InitialDeadline) == Announces(c, v, q, RespawnDeadline) == DrainsReady(c, v, q)
      ensures q != [] ==> Announces(c, v, q, ObservationSeen) == BecomesReady(c, v, q[0])
    {
    }

    /** What the turns that take nothing off the queue, or one observation, do to what was seen. */
    static lemma TurnSees(c: Rules, v: View, q: seq<Observation>, log: seq<Event>)
      ensures forall event, now :: SeenIn(log + Effects(c, v, q, FromSupervisor(event, now))) == SeenIn(log)
      ensures SeenIn(log + Closing(v)) == SeenIn(log) && log + [] == log
      ensures q != [] ==> SeenIn(log + EventsOf(c, v, q[0])) + q[1..] == SeenIn(log) + ([q[0]] + q[1..])
    {
      hide EventsOf, SeenIn;
      forall event, now ensures SeenIn(log + Effects(c, v, q, FromSupervisor(event, now))) == SeenIn(log) {
        NoneSeen(log, Effects(c, v, q, FromSupervisor(event, now)));
      }
      NoneSeen(log, Closing(v));
      if q != [] { OneSeen(c, v, q[0], log, q[1..]); }
    }

    /**
     One turn of the loop: exactly the specified events, Running published exactly
     when they end in an announcement, and then for the live run, which is ready.
     */
    method Turn(i: Input)
      requires Valid() && !done && Enabled(i)
      modifies this, Trackers()
      ensures Valid() && (Trackers() == old(Trackers()) || fresh(Trackers()) || Trackers() == {})
      ensures log == old(log) + Effects(rules, old(view), old(queue), i)
      ensures Told(Effects(rules, old(view), old(queue), i), old(state), state)
      ensures Announces(rules, old(view), old(queue), i) ==>
                current.Some? && current.value.ready && state == Running(current.value.pid)
      ensures done == Ends(i) && (done ==> state.Stopped?) && userStop == (old(userStop) || i.StopAsked?)
      ensures match i
              case StopAsked => state == Stopping
              case FromSupervisor(event, _) =>
                && state == AfterEvent(event, old(state), old(userStop), old(probeTimeout), lastExit)
                && lastExit == if event.Exited? then Some(event.code) else old(lastExit)
              case _ => Announces(rules, old(view), old(queue), i) || state == old(state)
      ensures probeTimeout == (old(probeTimeout)
                               || ((i.InitialDeadline? || i.RespawnDeadline?)
                                   && !Announces(rules, old(view), old(queue), i)))
      ensures SeenIn(log) + queue == old(SeenIn(log) + queue) + if i.Probed? then [i.observation] else []
      ensures i.ObservationSeen? ==> queue == old(queue)[1..]
      ensures |SeenIn(log)| >= |old(SeenIn(log))| + if i.ObservationSeen? then 1 else 0
    {
      hide Valid, Drained, DrainsReady, EventsOf, BecomesReady, Told, Announces, Effects, SeenIn, Closing;
      TurnCases(rules, view, queue);
      TurnSees(rules, view, queue, log);
      ghost var q := queue;
      match i {
      case StopAsked => Cancelled(true);
      case Dropped => Cancelled(false);
      case CancelSeen => OnCancelSeen();
      case FromSupervisor(event, now) => OnSupervisor(event, now);
      case InitialDeadline => OnInitialDeadline();
      case RespawnDeadline => OnRespawnDeadline();
      case Probed(o) => Enqueue(o);
      case ObservationSeen =>
        assert q == [q[0]] + q[1..];
        ObserveNext();
      }
      SeenGrows(old(log), Effects(rules, old(view), old(queue), i));
      ToldBy(rules, old(view), old(queue), i, old(log), log, old(state), state);
    }

    static lemma ToldBy(c: Rules, v: View, q: seq<Observation>, i: Input, before: seq<Event>, now: seq<Event>,
                        was: InstanceState, state: InstanceState)
      requires now == before + Effects(c, v, q, i)
      requires if Announces(c, v, q, i) then state.Running? && now != [] && now[|now| - 1] == Announced(state.pid)
               else state.Running? ==> state == was
      ensures Told(Effects(c, v, q, i), was, state)
    {
      EffectsEnd(c, v, q, i);
      hide Effects, Announces;
    }
  }

  /** The turn ends in an announcement. */
  predicate Announces(c: Rules, v: View, q: seq<Observation>, i: Input) {
    match i
    case ObservationSeen => q != [] && BecomesReady(c, v, q[0])
    case InitialDeadline => DrainsReady(c, v, q)
    case RespawnDeadline => DrainsReady(c, v, q)
    case _ => false
  }

  /** How many observations the turns of this kind alone account for. */
  function Served(inputs: seq<Input>): nat {
    if inputs == [] then 0
    else
      var before, i := inputs[..|inputs| - 1], inputs[|inputs| - 1];
      Served(before)
      + if i.ObservationSeen? && !Concluded(before) && Served(before) < |ObservedIn(before)| then 1 else 0
  }

  lemma OneMoreInput(inputs: seq<Input>, i: nat)
    requires i < |inputs|
    ensures Concluded(inputs[..i + 1]) <==> Concluded(inputs[..i]) || Ends(inputs[i])
    ensures var started := inputs[i].FromSupervisor? && inputs[i].event.Started? && !Concluded(inputs[..i]);
            StartsOf(inputs[..i + 1]) ==
            StartsOf(inputs[..i]) + if started then [Began(inputs[i].event.pid, inputs[i].now)] else []
    ensures var observed := inputs[i].Probed? && ValidProbe(inputs[i].observation.probe) && !Concluded(inputs[..i]);
            ObservedIn(inputs[..i + 1]) == ObservedIn(inputs[..i]) + if observed then [inputs[i].observation] else []
    ensures var served := inputs[i].ObservationSeen? && !Concluded(inputs[..i])
                          && Served(inputs[..i]) < |ObservedIn(inputs[..i])|;
            Served(inputs[..i + 1]) == Served(inputs[..i]) + if served then 1 else 0
  {
    assert inputs[..i + 1][..i] == inputs[..i];
    assert forall k :: 0 <= k < i ==> inputs[..i + 1][k] == inputs[..i][k];
    assert inputs[..i + 1][i] == inputs[i];
  }

  /**
   Every run, from a fresh monitor, over any inputs; disabled ones are skipped. The
   log is safe and nothing is due at its end, so every publication of Running in it
   means what `RunningMeans` says, and none is missing that `HealthyIsAnnounced` asks
   for. Its starts are all those of the inputs until the supervisor is finished. What
   it saw and what is still queued are all the observations of the inputs, in order,
   and it saw at least as many as it had turns for. The published Running is the last
   one announced, and a live run that is not ready is armed.
   */
  method RunMonitor(rules: Rules, inputs: seq<Input>) returns (m: InstanceMonitor)
    requires ValidPolicy(rules.policy)
    ensures m.Valid() && m.rules == rules && Safe(rules, m.log) && !Due(rules, ViewOf(rules, m.log))
    ensures Starts(m.log) == StartsOf(inputs) && (m.done <==> Concluded(inputs))
    ensures SeenIn(m.log) + m.queue == ObservedIn(inputs) && |SeenIn(m.log)| >= Served(inputs)
    ensures m.done ==> m.state.Stopped?
    ensures m.state.Running? ==> ViewOf(rules, m.log).announced == Some(m.state.pid)
    ensures Armed(m.FlagsNow(), m.current, m.respawnDeadline)
  {
    m := new InstanceMonitor(rules);
    hide InstanceMonitor.Valid;
    for i := 0 to |inputs|
      invariant fresh(m) && fresh(m.Trackers()) && m.Valid() && m.rules == rules
      invariant Starts(m.log) == StartsOf(inputs[..i]) && (m.done <==> Concluded(inputs[..i]))
      invariant m.done ==> m.state.Stopped?
      invariant SeenIn(m.log) + m.queue == ObservedIn(inputs[..i]) && |SeenIn(m.log)| >= Served(inputs[..i])
    {
      hide Effects, Told, Announces, SeenIn, Starts, StartsOf, ObservedIn, Served, Concluded, AfterEvent, Ends;
      assert |SeenIn(m.log)| + |m.queue| == |ObservedIn(inputs[..i])|;
      if !m.done && m.Enabled(inputs[i]) {
        EffectsStarts(rules, m.view, m.queue, inputs[i], m.log);
        m.Turn(inputs[i]);
      }
      OneMoreInput(inputs, i);
    }
    assert inputs[..|inputs|] == inputs;
    m.BetweenTurns();
  }
}
