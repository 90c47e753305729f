/**
 The specification the instance monitor is held to: which sequences of starts,
 probe observations, acknowledgements and publications of Running are allowed, and
 what follows for every observation and every publication in them.
 */
module RunLog {
  import opened Wrappers
  import opened Health

  const U64_MAX: nat := 0xFFFF_FFFF_FFFF_FFFF

  /** Run ids count starts and saturate. */
  function RunIdOf(starts: nat): nat { if starts <= U64_MAX then starts else U64_MAX }

  /** What a probe driver reports; `probe.now` is the instant it completed. */
  datatype Observation = Observation(runId: nat, pid: nat, probe: Probe)

  datatype Event =
    | Began(pid: nat, at: int)             // a process started: it is the live run from here on
    | Seen(observation: Observation)       // an observation was taken off the queue
    | Attempted(ok: bool)                  // readiness was acknowledged to the supervisor, with this answer
    | Over                                 // the live run is forgotten
    | Announced(pid: nat)                  // Running was published

  /** The health policy, both deadlines, and the supervisor's answer to each acknowledgement, in order. */
  datatype Rules = Rules(policy: Policy, initialDeadline: int, startupTimeout: nat, acknowledge: nat -> bool)

  datatype Run = Run(pid: nat, at: int, history: seq<Probe>, attempted: bool, acked: bool, ready: bool)

  datatype View = View(starts: nat, attempts: nat, run: Option<Run>, everReady: bool, announced: Option<nat>)

  const START := View(0, 0, None, false, None)

  /** By when an observation must be completed to count for a run that is not ready. */
  function Deadline(c: Rules, v: View): int
    requires v.run.Some?
  {
    if v.everReady then v.run.value.at + c.startupTimeout else c.initialDeadline
  }

  /** The observation is of the live run, and in time unless that run is ready. */
  predicate Applies(c: Rules, v: View, o: Observation) {
    && v.run.Some? && o.runId == RunIdOf(v.starts) && o.pid == v.run.value.pid
    && (v.run.value.ready || o.probe.now <= Deadline(c, v))
  }

  predicate Healthful(c: Rules, r: Run) { Verdict(c.policy, r.at, r.history) == Healthy }

  function Next(c: Rules, v: View, e: Event): View {
    match e
    case Began(pid, at) => v.(starts := v.starts + 1, run := Some(Run(pid, at, [], false, false, false)))
    case Over => v.(run := None)
    case Announced(pid) =>
      v.(everReady := true, announced := Some(pid),
         run := if v.run.Some? then Some(v.run.value.(ready := true)) else None)
    case Seen(o) =>
      if Applies(c, v, o) then v.(run := Some(v.run.value.(history := v.run.value.history + [o.probe]))) else v
    case Attempted(ok) =>
      v.(attempts := v.attempts + 1,
         run := if v.run.Some? then Some(v.run.value.(attempted := true, acked := ok)) else None)
  }

  /** A healthy run waits for its acknowledgement. */
  predicate AttemptDue(c: Rules, v: View) { v.run.Some? && !v.run.value.attempted && Healthful(c, v.run.value) }

  /** An acknowledged run waits to be published. */
  predicate AnnounceDue(v: View) { v.run.Some? && v.run.value.acked && !v.run.value.ready }

  predicate Due(c: Rules, v: View) { AttemptDue(c, v) || AnnounceDue(v) }

  predicate Allowed(c: Rules, v: View, e: Event) {
    match e
    case Began(_, _) => !Due(c, v)
    case Over => v.run.Some? && !Due(c, v)
    case Seen(_) => !Due(c, v)
    case Attempted(ok) => AttemptDue(c, v) && ok == c.acknowledge(v.attempts)
    case Announced(pid) => AnnounceDue(v) && v.run.value.pid == pid
  }

  function ViewOf(c: Rules, t: seq<Event>): View {
    if t == [] then START else Next(c, ViewOf(c, t[..|t| - 1]), t[|t| - 1])
  }

  predicate Safe(c: Rules, t: seq<Event>) {
    t == [] || (Safe(c, t[..|t| - 1]) && Allowed(c, ViewOf(c, t[..|t| - 1]), t[|t| - 1]))
  }

  lemma {:induction false} SafePrefix(c: Rules, t: seq<Event>, i: nat)
    requires Safe(c, t) && i <= |t|
    ensures Safe(c, t[..i])
    ensures i < |t| ==> Allowed(c, ViewOf(c, t[..i]), t[i]) && ViewOf(c, t[..i + 1]) == Next(c, ViewOf(c, t[..i]), t[i])
  {
    if i == |t| {
      assert t[..i] == t;
    } else {
      var s := t[..|t| - 1];
      assert t[..i] == s[..i];
      if i < |t| - 1 {
        SafePrefix(c, s, i);
        assert t[..i + 1] == s[..i + 1] && s[i] == t[i];
      } else {
        assert t[..i + 1] == t && s[..i] == s;
      }
    }
  }

  // ----- the live run ----------------------------------------------------------

  /** The starts of a log, and the observations it took off the queue. */
  function Starts(t: seq<Event>): seq<Event> {
    if t == [] then [] else Starts(t[..|t| - 1]) + if t[|t| - 1].Began? then [t[|t| - 1]] else []
  }

  function SeenIn(t: seq<Event>): seq<Observation> {
    if t == [] then [] else SeenIn(t[..|t| - 1]) + if t[|t| - 1].Seen? then [t[|t| - 1].observation] else []
  }

  function Attempts(t: seq<Event>): nat {
    if t == [] then 0 else Attempts(t[..|t| - 1]) + if t[|t| - 1].Attempted? then 1 else 0
  }

  predicate AnnouncedIn(t: seq<Event>) { exists m :: 0 <= m < |t| && t[m].Announced? }

  /**
   After the log `t`, an observation counts for the run that event `j` began: it
   carries that run's number and pid, and was completed by the deadline (the initial
   one, or the start plus the timeout if an instance was ready before), or whenever
   once the run is ready.
   */
  predicate Counts(c: Rules, t: seq<Event>, j: nat, o: Observation)
    requires j < |t| && t[j].Began?
  {
    && o.pid == t[j].pid && o.runId == RunIdOf(|Starts(t[..j + 1])|)
    && (AnnouncedIn(t[j..])
        || o.probe.now <= if AnnouncedIn(t[..j]) then t[j].at + c.startupTimeout else c.initialDeadline)
  }

  /** The probes seen since event `j` that count for its run. */
  function Counted(c: Rules, t: seq<Event>, j: nat): seq<Probe>
    requires j < |t| && t[j].Began?
  {
    if |t| == j + 1 then []
    else
      var s, e := t[..|t| - 1], t[|t| - 1];
      Counted(c, s, j) + if e.Seen? && Counts(c, s, j, e.observation) then [e.observation.probe] else []
  }

  /** Event `j` began the run that is live at the end of `t`. */
  ghost predicate LiveSince(t: seq<Event>, j: nat) {
    j < |t| && t[j].Began? && forall m :: j < m < |t| ==> !t[m].Began? && !t[m].Over?
  }

  /** What the log says of the attempts and the publications since event `j`. */
  ghost predicate FlagsSince(t: seq<Event>, j: nat, r: Run) {
    && (r.attempted <==> exists m :: j < m < |t| && t[m].Attempted?)
    && (r.acked <==> exists m :: j < m < |t| && t[m] == Attempted(true))
    && (r.ready <==> exists m :: j < m < |t| && t[m].Announced?)
    && (forall m, n :: j < m < n < |t| ==> !(t[m].Attempted? && t[n].Attempted?))
  }

  /** The view's run is what happened since event `j`. */
  ghost predicate Since(c: Rules, t: seq<Event>, j: nat, r: Run) {
    LiveSince(t, j) && t[j] == Began(r.pid, r.at) && r.history == Counted(c, t, j) && FlagsSince(t, j, r)
  }

  /** The counts and flags of the view, read off the log. */
  lemma {:induction false} ViewCounts(c: Rules, t: seq<Event>)
    ensures ViewOf(c, t).starts == |Starts(t)| && ViewOf(c, t).attempts == Attempts(t)
    ensures ViewOf(c, t).everReady == AnnouncedIn(t) == ViewOf(c, t).announced.Some?
    ensures ViewOf(c, t).announced.Some? ==>
              exists m :: 0 <= m < |t| && t[m] == Announced(ViewOf(c, t).announced.value)
                          && forall n :: m < n < |t| ==> !t[n].Announced?
  {
    if t != [] {
      var s, e := t[..|t| - 1], t[|t| - 1];
      ViewCounts(c, s);
      hide Applies;
      if e.Announced? {
        assert t[|s|] == e;
      } else if ViewOf(c, s).announced.Some? {
        var m :| 0 <= m < |s| && s[m] == Announced(ViewOf(c, s).announced.value)
                   && forall n :: m < n < |s| ==> !s[n].Announced?;
        assert t[m] == s[m] && forall n :: m < n < |t| ==> !t[n].Announced?;
      } else {
        assert forall m :: 0 <= m < |t| ==> !t[m].Announced?;
      }
    }
  }

  /** No start since event `j`, so the run's number is still the last. */
  lemma {:induction false} SameStarts(t: seq<Event>, j: nat)
    requires LiveSince(t, j)
    ensures Starts(t) == Starts(t[..j + 1])
    decreases |t|
  {
    if |t| == j + 1 {
      assert t[..j + 1] == t;
    } else {
      var s := t[..|t| - 1];
      SameStarts(s, j);
      assert s[..j + 1] == t[..j + 1];
    }
  }

  /** For the live run, applying is counting. */
  lemma AppliesIsCounts(c: Rules, t: seq<Event>, j: nat, o: Observation)
    requires Safe(c, t) && ViewOf(c, t).run.Some? && Since(c, t, j, ViewOf(c, t).run.value)
    ensures Applies(c, ViewOf(c, t), o) <==> Counts(c, t, j, o)
  {
    ViewCounts(c, t);
    SameStarts(t, j);
    hide Counted, Safe, ViewOf;
    var r := ViewOf(c, t).run.value;
    assert AnnouncedIn(t[j..]) <==> r.ready by {
      assert forall m :: j < m < |t| ==> t[j..][m - j] == t[m];
      assert forall m :: 0 <= m < |t[j..]| ==> t[j..][m] == t[j + m];
    }
    if !r.ready {
      assert AnnouncedIn(t) <==> AnnouncedIn(t[..j]) by {
        assert forall m :: 0 <= m < j ==> t[..j][m] == t[m];
      }
    }
  }

  lemma FlagsStep(t: seq<Event>, j: nat, r: Run, e: Event, now: Run)
    requires j < |t| && FlagsSince(t, j, r) && (e.Attempted? ==> !r.attempted)
    requires now.attempted == (r.attempted || e.Attempted?) && now.ready == (r.ready || e.Announced?)
    requires now.acked == if e.Attempted? then e.ok else r.acked
    ensures FlagsSince(t + [e], j, now)
  {
    var u := t + [e];
    assert forall m :: j < m < |t| ==> u[m] == t[m];
    assert u[|t|] == e;
    AckedOnce(t, j, r);
  }

  lemma LiveStep(t: seq<Event>, j: nat, e: Event)
    requires LiveSince(t, j) && !e.Began? && !e.Over?
    ensures LiveSince(t + [e], j) && (t + [e])[j] == t[j]
  {
  }

  lemma SinceStep(c: Rules, t: seq<Event>, j: nat, e: Event)
    requires Safe(c, t) && ViewOf(c, t).run.Some? && Since(c, t, j, ViewOf(c, t).run.value)
    requires !e.Began? && !e.Over? && Allowed(c, ViewOf(c, t), e)
    ensures var w := Next(c, ViewOf(c, t), e); w.run.Some? && Since(c, t + [e], j, w.run.value)
  {
    var r, now := ViewOf(c, t).run.value, Next(c, ViewOf(c, t), e).run.value;
    LiveStep(t, j, e);
    assert (t + [e])[..|t|] == t;
    assert Counted(c, t + [e], j) ==
           Counted(c, t, j) + if e.Seen? && Counts(c, t, j, e.observation) then [e.observation.probe] else [];
    if e.Seen? { AppliesIsCounts(c, t, j, e.observation); }
    hide Counted, Safe, ViewOf, Applies, Counts, Healthful, LiveSince, FlagsSince;
    FlagsStep(t, j, r, e, now);
  }

  /** A run is acknowledged only if it was attempted. */
  lemma AckedOnce(t: seq<Event>, j: nat, r: Run)
    requires j < |t| && (r.attempted <==> exists m :: j < m < |t| && t[m].Attempted?)
    requires r.acked <==> exists m :: j < m < |t| && t[m] == Attempted(true)
    ensures r.acked ==> r.attempted
  {
  }

  /** The live run of a safe log began at some event, and is exactly what happened since. */
  lemma {:induction false} LiveRun(c: Rules, t: seq<Event>) returns (j: nat)
    requires Safe(c, t) && ViewOf(c, t).run.Some?
    ensures Since(c, t, j, ViewOf(c, t).run.value)
  {
    var s, e := t[..|t| - 1], t[|t| - 1];
    assert s + [e] == t;
    if e.Began? {
      j := |t| - 1;
    } else {
      j := LiveRun(c, s);
      SinceStep(c, s, j, e);
      hide Since, Safe;
    }
  }

  /** If an event began a run that nothing ended since, that is the live run. */
  lemma {:induction false} IsLive(c: Rules, t: seq<Event>, j: nat)
    requires Safe(c, t) && LiveSince(t, j)
    ensures ViewOf(c, t).run.Some? && Since(c, t, j, ViewOf(c, t).run.value)
    decreases |t|
  {
    var s, e := t[..|t| - 1], t[|t| - 1];
    assert s + [e] == t;
    if |t| > j + 1 {
      IsLive(c, s, j);
      SinceStep(c, s, j, e);
      hide Since, Safe;
    }
  }

  // ----- what a publication of Running means -------------------------------------

  /** Only an accepted attempt makes a publication due. */
  lemma BeforeAnnounce(c: Rules, v: View, e: Event)
    requires Allowed(c, v, e) && AnnounceDue(Next(c, v, e))
    ensures e == Attempted(true)
  {
    hide Healthful;
  }

  /** Only an observation makes an attempt due. */
  lemma BeforeAttempt(c: Rules, v: View, e: Event)
    requires Allowed(c, v, e) && AttemptDue(c, Next(c, v, e))
    requires v.run.Some? && v.run.value.acked ==> v.run.value.attempted
    ensures e.Seen? && Applies(c, v, e.observation)
  {
    assert forall at: int :: Verdict(c.policy, at, []) == Starting;
    hide Verdict;
  }

  lemma {:induction false} AckedIsAttempted(c: Rules, t: seq<Event>)
    ensures ViewOf(c, t).run.Some? && ViewOf(c, t).run.value.acked ==> ViewOf(c, t).run.value.attempted
  {
    if t != [] { AckedIsAttempted(c, t[..|t| - 1]); }
  }

  /** Just before a publication of Running comes the accepted acknowledgement, and before that an observation. */
  lemma JustBefore(c: Rules, t: seq<Event>, i: nat)
    requires Safe(c, t) && i < |t| && t[i].Announced?
    ensures i >= 2 && t[i - 1] == Attempted(true) && t[i - 2].Seen?
    ensures Applies(c, ViewOf(c, t[..i - 2]), t[i - 2].observation) && AttemptDue(c, ViewOf(c, t[..i - 1]))
  {
    hide Verdict, Applies, Next;
    assert ViewOf(c, t[..0]) == START;
    SafePrefix(c, t, i);
    SafePrefix(c, t, i - 1);
    BeforeAnnounce(c, ViewOf(c, t[..i - 1]), t[i - 1]);
    SafePrefix(c, t, i - 2);
    AckedIsAttempted(c, t[..i - 2]);
    BeforeAttempt(c, ViewOf(c, t[..i - 2]), t[i - 2]);
  }

  /**
   Every publication of Running is for the run that began last and is still live,
   for its pid. The acknowledgement just before it was the only one of that run, and
   was accepted; the observations of that run in time, all of them and in order,
   make it healthy, and the one seen just before completes them.
   */
  lemma RunningMeans(c: Rules, t: seq<Event>, i: nat) returns (j: nat)
    requires Safe(c, t) && i < |t| && t[i].Announced?
    ensures j < i - 2 && LiveSince(t[..i], j) && t[j].pid == t[i].pid
    ensures t[i - 1] == Attempted(true) && c.acknowledge(Attempts(t[..i - 1])) && t[i - 2].Seen?
    ensures forall m :: j < m < i - 1 ==> !t[m].Attempted? && !t[m].Announced?
    ensures Verdict(c.policy, t[j].at, Counted(c, t[..i - 1], j)) == Healthy
    ensures Counts(c, t[..i - 2], j, t[i - 2].observation)
  {
    JustBefore(c, t, i);
    var s, u := t[..i - 1], t[..i - 2];
    SafePrefix(c, t, i - 1);
    SafePrefix(c, t, i - 2);
    SafePrefix(c, t, i);
    hide Safe, Verdict, Counted, Counts;
    j := LiveRun(c, s);
    assert s[..i - 2] == u && s[i - 2] == t[i - 2] && s[j] == t[j];
    assert forall m :: 0 <= m < i - 1 ==> t[m] == s[m];
    NotReady(c, s);
    ViewCounts(c, s);
    LiveBelow(t, i, j);
    IsLive(c, u, j);
    AppliesIsCounts(c, u, j, t[i - 2].observation);
  }

  lemma LiveBelow(t: seq<Event>, i: nat, j: nat)
    requires 2 <= i <= |t| && LiveSince(t[..i - 1], j) && t[i - 1].Attempted? && t[i - 2].Seen?
    ensures LiveSince(t[..i], j) && LiveSince(t[..i - 2], j)
  {
    var s, r, u := t[..i - 1], t[..i], t[..i - 2];
    assert forall m :: 0 <= m < i - 1 ==> s[m] == t[m] && r[m] == t[m];
    assert forall m :: 0 <= m < i - 2 ==> u[m] == t[m];
    assert s[i - 2] == t[i - 2];
  }

  /**
   Nothing healthy goes unannounced: when, at some point of a log that leaves nothing
   due, the observations of the live run that count make it healthy, and no
   acknowledgement was attempted for it, the very next event is that attempt, with
   the supervisor's next answer; and if it is accepted, the one after publishes
   Running for its pid.
   */
  lemma HealthyIsAnnounced(c: Rules, t: seq<Event>, n: nat, j: nat)
    requires Safe(c, t) && !Due(c, ViewOf(c, t)) && n <= |t| && LiveSince(t[..n], j)
    requires Verdict(c.policy, t[j].at, Counted(c, t[..n], j)) == Healthy
    requires forall k :: j < k < n ==> !t[..n][k].Attempted?
    ensures n < |t| && t[n] == Attempted(c.acknowledge(Attempts(t[..n])))
    ensures t[n].ok ==> n + 1 < |t| && t[n + 1] == Announced(t[j].pid)
  {
    SafePrefix(c, t, n);
    hide *;
    AttemptIsDue(c, t[..n], j);
    AttemptedNext(c, t, n);
    if t[n].ok {
      DueHasRun(c, ViewOf(c, t[..n]));
      AnnouncedNext(c, t, n);
    }
  }

  lemma DueHasRun(c: Rules, v: View)
    requires AttemptDue(c, v)
    ensures v.run.Some?
  {
  }

  lemma AttemptIsDue(c: Rules, t: seq<Event>, j: nat)
    requires Safe(c, t) && LiveSince(t, j) && Verdict(c.policy, t[j].at, Counted(c, t, j)) == Healthy
    requires forall k :: j < k < |t| ==> !t[k].Attempted?
    ensures AttemptDue(c, ViewOf(c, t)) && ViewOf(c, t).run.value.pid == t[j].pid
  {
    hide Safe, Verdict, Counted, ViewOf;
    IsLive(c, t, j);
  }

  /** An attempt that is due comes next. */
  lemma AttemptedNext(c: Rules, t: seq<Event>, k: nat)
    requires Safe(c, t) && !Due(c, ViewOf(c, t)) && k <= |t| && AttemptDue(c, ViewOf(c, t[..k]))
    ensures k < |t| && t[k] == Attempted(c.acknowledge(Attempts(t[..k])))
  {
    assert t[..|t|] == t;
    SafePrefix(c, t, k);
    ViewCounts(c, t[..k]);
    hide Safe, Verdict, ViewOf;
  }

  /** A run is published only after its attempt. */
  lemma {:induction false} NotReady(c: Rules, t: seq<Event>)
    requires Safe(c, t)
    ensures ViewOf(c, t).run.Some? && ViewOf(c, t).run.value.ready ==> ViewOf(c, t).run.value.attempted
  {
    hide Verdict;
    if t != [] {
      NotReady(c, t[..|t| - 1]);
      AckedIsAttempted(c, t[..|t| - 1]);
    }
  }

  /** An accepted attempt is published next. */
  lemma AnnouncedNext(c: Rules, t: seq<Event>, k: nat)
    requires Safe(c, t) && !Due(c, ViewOf(c, t)) && k < |t| && t[k] == Attempted(true) && ViewOf(c, t[..k]).run.Some?
    ensures k + 1 < |t| && t[k + 1] == Announced(ViewOf(c, t[..k]).run.value.pid)
  {
    assert k + 1 == |t| ==> t[..k + 1] == t;
    SafePrefix(c, t, k);
    SafePrefix(c, t, k + 1);
    NotReady(c, t[..k]);
    hide Safe, Verdict;
  }

  /** At most one acknowledgement attempt, and one publication, per start. */
  lemma OncePerStart(c: Rules, t: seq<Event>, a: nat, b: nat) returns (j: nat)
    requires Safe(c, t) && a < b < |t|
    requires (t[a].Attempted? && t[b].Attempted?) || (t[a].Announced? && t[b].Announced?)
    ensures a < j < b && t[j].Began?
  {
    var s := t[..b];
    SafePrefix(c, t, b);
    hide Safe, Verdict, Counted, Counts, ViewOf;
    j := LiveRun(c, s);
    assert forall m :: 0 <= m < b ==> s[m] == t[m];
  }
}
