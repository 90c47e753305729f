/**
 The status fan-out: `manager_bridge.rs`, `events.rs` and the sender loop of
 `ws.rs`. Two watch channels feed a bridge task, the bridge feeds a lossy ring,
 and every connection reads the ring and resynchronises from a snapshot after a
 lag. Every read and every send is its own step, so any interleaving is a run.
 */
module Fanout {
  import opened Wrappers

  // ----- states, snapshots and events ----------------------------------------

  datatype CoreState =
    | Stopped(reason: Option<string>)
    | Starting(epoch: nat)
    | Running(epoch: nat, pid: nat)
    | Restarting(epoch: nat, attempt: nat)
    | Switching(from: Option<nat>, to: nat)
    | Stopping(epoch: nat)

  /** A manager snapshot; `extra` stands for the fields mapped one by one. */
  datatype Status = Status(state: CoreState, changedAt: int, extra: string)

  datatype WireState = WireRunning | WireStopped(reason: Option<string>)

  datatype CoreInfos = CoreInfos(kind: Option<string>, state: WireState, detail: CoreState,
                                 changedAt: int, extra: string)

  function MapCoreState(s: CoreState): WireState {
    match s
    case Running(_, _) => WireRunning
    case Switching(_, _) => WireRunning
    case Stopping(_) => WireRunning
    case Starting(_) => WireStopped(None)
    case Restarting(_, _) => WireStopped(None)
    case Stopped(reason) => WireStopped(reason)
  }

  function Project(s: Status, kind: Option<string>): CoreInfos {
    CoreInfos(kind, MapCoreState(s.state), s.state, s.changedAt, s.extra)
  }

  datatype Event = StatusChanged(infos: CoreInfos) | StateChanged(state: WireState)

  /** The last status frame of a stream. */
  function LastStatus(es: seq<Event>): Option<CoreInfos> {
    if es == [] then None
    else if es[|es| - 1].StatusChanged? then Some(es[|es| - 1].infos)
    else LastStatus(es[..|es| - 1])
  }

  lemma {:induction false} LastStatusConcat(a: seq<Event>, b: seq<Event>)
    ensures LastStatus(a + b) == if LastStatus(b).Some? then LastStatus(b) else LastStatus(a)
  {
    if b == [] {
      assert a + b == a;
    } else {
      assert (a + b)[..|a + b| - 1] == a + b[..|b| - 1];
      LastStatusConcat(a, b[..|b| - 1]);
    }
  }

  // ----- the world -----------------------------------------------------------

  const RING := 256

  /**
   Where the bridge task is. `seenStatus` and `seenKind` are the watch versions
   it has marked seen, `readStatus` and `readKind` those at its initial read;
   `last` is the legacy state it reported last.
   */
  datatype Phase =
    | Fresh                                             // spawned, initial read still to come
    | Waiting                                           // in `select!`
    | StatusRead(raw: Status)                           // status arm: marked the status seen
    | StatusReady(raw: Status, kind: Option<string>)    // status arm: frame built
    | Reported(raw: Status)                             // status arm: frame sent, legacy guards to come
    | KindWoken                                         // kind arm taken
    | KindRead(raw: Status)                             // kind arm: borrowed the status, unmarked
    | KindReady(raw: Status, kind: Option<string>)      // kind arm: frame built

  datatype Bridge = Bridge(phase: Phase, seenStatus: nat, seenKind: nat, last: WireState,
                           readStatus: nat, readKind: nat)

  datatype Stage =
    | Subscribed                // at the ring's tail, snapshot still to come
    | SnapshotRead(raw: Status) // `status()` has read the manager, not yet the type echo
    | Live

  /**
   `late`: opened after the bridge's initial read. `since`: the ring's length at
   opening. `snapStatus`, `snapKind`: the watch versions its snapshot read.
   */
  datatype Conn = Conn(stage: Stage, pos: nat, received: seq<Event>, late: bool,
                       since: nat, snapStatus: nat, snapKind: nat)

  /** A watch channel is the list of values it held; the version is the index of the last. */
  datatype World = World(statuses: seq<Status>, kinds: seq<Option<string>>, bridge: Bridge,
                         sent: seq<Event>, conns: map<nat, Conn>)

  predicate WellFormed(w: World) {
    && w.statuses != [] && w.kinds != []
    && w.bridge.seenStatus < |w.statuses| && w.bridge.seenKind < |w.kinds|
    && (forall id :: id in w.conns ==> w.conns[id].pos <= |w.sent| && w.conns[id].since <= |w.sent|)
  }

  function CurrentStatus(w: World): Status requires w.statuses != [] { w.statuses[|w.statuses| - 1] }

  function CurrentKind(w: World): Option<string> requires w.kinds != [] { w.kinds[|w.kinds| - 1] }

  predicate Initial(w: World) {
    WellFormed(w) && w.bridge.phase.Fresh? && w.sent == [] && w.conns == map[]
  }

  datatype Step =
    | Publish(status: Status)
    | Echo(kind: Option<string>)
    | BridgeStep
    | WakeStatus
    | WakeKind
    | Open(id: nat)
    | Snapshot(id: nat)
    | Receive(id: nat)
    | Lag(id: nat)
    | Close(id: nat)

  predicate Enabled(w: World, s: Step)
    requires WellFormed(w)
  {
    match s
    case Publish(_) => true
    case Echo(_) => true
    case BridgeStep => !w.bridge.phase.Waiting?
    case WakeStatus => w.bridge.phase.Waiting? && w.bridge.seenStatus < |w.statuses| - 1
    case WakeKind => w.bridge.phase.Waiting? && w.bridge.seenKind < |w.kinds| - 1
    case Open(id) => id !in w.conns
    case Snapshot(id) => id in w.conns && !w.conns[id].stage.Live?
    case Receive(id) =>
      id in w.conns && w.conns[id].stage.Live? && w.conns[id].pos < |w.sent| && |w.sent| - w.conns[id].pos <= RING
    case Lag(id) => id in w.conns && w.conns[id].stage.Live? && |w.sent| - w.conns[id].pos > RING
    case Close(id) => id in w.conns
  }

  /** Does the status arm stay silent on the legacy stream? */
  predicate Silent(raw: Status, last: WireState) {
    ((raw.state.Stopping? || raw.state.Switching?) && last.WireStopped?) || last == MapCoreState(raw.state)
  }

  function StepBridge(w: World): World
    requires WellFormed(w) && !w.bridge.phase.Waiting?
  {
    var b := w.bridge;
    match b.phase
    case Fresh =>
      w.(bridge := b.(phase := Waiting, seenStatus := |w.statuses| - 1, last := MapCoreState(CurrentStatus(w).state),
                      readStatus := |w.statuses| - 1, readKind := |w.kinds| - 1))
    case StatusRead(raw) =>
      w.(bridge := b.(phase := StatusReady(raw, CurrentKind(w)), seenKind := |w.kinds| - 1))
    case StatusReady(raw, kind) =>
      w.(bridge := b.(phase := Reported(raw)), sent := w.sent + [StatusChanged(Project(raw, kind))])
    case Reported(raw) =>
      if Silent(raw, b.last) then w.(bridge := b.(phase := Waiting))
      else
        var next := MapCoreState(raw.state);
        w.(bridge := b.(phase := Waiting, last := next), sent := w.sent + [StateChanged(next)])
    case KindWoken => w.(bridge := b.(phase := KindRead(CurrentStatus(w))))
    case KindRead(raw) =>
      w.(bridge := b.(phase := KindReady(raw, CurrentKind(w)), seenKind := |w.kinds| - 1))
    case KindReady(raw, kind) =>
      w.(bridge := b.(phase := Waiting), sent := w.sent + [StatusChanged(Project(raw, kind))])
  }

  function StepConn(w: World, s: Step): Conn
    requires WellFormed(w) && Enabled(w, s) && (s.Snapshot? || s.Receive? || s.Lag?)
  {
    var c := w.conns[s.id];
    match s
    case Snapshot(_) =>
      if c.stage.Subscribed? then c.(stage := SnapshotRead(CurrentStatus(w)), snapStatus := |w.statuses| - 1)
      else c.(stage := Live, received := c.received + [StatusChanged(Project(c.stage.raw, CurrentKind(w)))],
              snapKind := |w.kinds| - 1)
    case Receive(_) => c.(pos := c.pos + 1, received := c.received + [w.sent[c.pos]])
    case Lag(_) => c.(pos := |w.sent|, stage := Subscribed)
  }

  function Do(w: World, s: Step): (v: World)
    requires WellFormed(w) && Enabled(w, s)
    ensures WellFormed(v) && w.sent <= v.sent && w.statuses <= v.statuses && w.kinds <= v.kinds
  {
    match s
    case Publish(status) => w.(statuses := w.statuses + [status])
    case Echo(kind) => w.(kinds := w.kinds + [kind])
    case BridgeStep => StepBridge(w)
    case WakeStatus =>
      w.(bridge := w.bridge.(phase := StatusRead(CurrentStatus(w)), seenStatus := |w.statuses| - 1))
    case WakeKind => w.(bridge := w.bridge.(phase := KindWoken))
    case Open(id) =>
      w.(conns := w.conns[id := Conn(Subscribed, |w.sent|, [], !w.bridge.phase.Fresh?, |w.sent|, 0, 0)])
    case Snapshot(id) => w.(conns := w.conns[id := StepConn(w, s)])
    case Receive(id) => w.(conns := w.conns[id := StepConn(w, s)])
    case Lag(id) => w.(conns := w.conns[id := StepConn(w, s)])
    case Close(id) => w.(conns := w.conns - {id})
  }

  predicate Runs(w: World, steps: seq<Step>)
    requires WellFormed(w)
    decreases |steps|
  {
    steps == [] || (Enabled(w, steps[0]) && Runs(Do(w, steps[0]), steps[1..]))
  }

  function After(w: World, steps: seq<Step>): (v: World)
    requires WellFormed(w) && Runs(w, steps)
    ensures WellFormed(v)
    decreases |steps|
  {
    if steps == [] then w else After(Do(w, steps[0]), steps[1..])
  }

  // ----- the invariant -------------------------------------------------------

  /** Read at or after the version the bridge has marked seen. */
  ghost predicate RecentStatus(w: World, raw: Status) {
    exists v :: w.bridge.seenStatus <= v < |w.statuses| && w.statuses[v] == raw
  }

  ghost predicate RecentKind(w: World, kind: Option<string>) {
    exists v :: w.bridge.seenKind <= v < |w.kinds| && w.kinds[v] == kind
  }

  ghost predicate RecentFrame(w: World, f: CoreInfos) {
    exists raw, kind :: RecentStatus(w, raw) && RecentKind(w, kind) && f == Project(raw, kind)
  }

  /** Between marking a change seen and sending its frame, the bridge owes everyone a frame. */
  predicate Owing(p: Phase) {
    p.StatusRead? || p.StatusReady? || p.KindWoken? || p.KindRead? || p.KindReady?
  }

  ghost predicate BridgeOk(w: World)
    requires WellFormed(w)
  {
    match w.bridge.phase
    case StatusRead(raw) => RecentStatus(w, raw) && raw == w.statuses[w.bridge.seenStatus]
    case StatusReady(raw, kind) => RecentStatus(w, raw) && RecentKind(w, kind) && raw == w.statuses[w.bridge.seenStatus]
    case Reported(raw) => raw == w.statuses[w.bridge.seenStatus]
    case KindRead(raw) => RecentStatus(w, raw)
    case KindReady(raw, kind) => RecentStatus(w, raw) && RecentKind(w, kind)
    case _ => true
  }

  /** A connection the bridge answers for: opened after its initial read, or sent a status since. */
  predicate Covered(w: World, c: Conn)
    requires c.since <= |w.sent|
  {
    c.late || LastStatus(w.sent[c.since..]).Some?
  }

  /** Once everything in flight arrives, the client holds a recent frame. */
  ghost predicate ConnOk(w: World, c: Conn)
    requires c.pos <= |w.sent|
  {
    var inFlight := LastStatus(w.sent[c.pos..]);
    if inFlight.Some? then RecentFrame(w, inFlight.value)
    else match c.stage
      case Subscribed => true
      case SnapshotRead(raw) => RecentStatus(w, raw)
      case Live => LastStatus(c.received).Some? && RecentFrame(w, LastStatus(c.received).value)
  }

  ghost predicate Inv(w: World) {
    && WellFormed(w) && BridgeOk(w)
    && (w.bridge.phase.Fresh? ==> w.sent == [] && forall id :: id in w.conns ==> !w.conns[id].late)
    && (!Owing(w.bridge.phase) ==>
          forall id :: id in w.conns && Covered(w, w.conns[id]) ==> ConnOk(w, w.conns[id]))
  }

  // ----- every step keeps it -------------------------------------------------

  /** Nothing recent stops being recent while the bridge marks nothing new. */
  lemma RecentStays(w: World, v: World)
    requires v.bridge.seenStatus == w.bridge.seenStatus && v.bridge.seenKind == w.bridge.seenKind
    requires w.statuses <= v.statuses && w.kinds <= v.kinds
    ensures forall raw: Status :: RecentStatus(w, raw) ==> RecentStatus(v, raw)
    ensures forall kind: Option<string> :: RecentKind(w, kind) ==> RecentKind(v, kind)
    ensures forall f: CoreInfos :: RecentFrame(w, f) ==> RecentFrame(v, f)
  {
    forall raw: Status | RecentStatus(w, raw) ensures RecentStatus(v, raw) {
      var i :| w.bridge.seenStatus <= i < |w.statuses| && w.statuses[i] == raw;
      assert v.statuses[i] == raw;
    }
    forall kind: Option<string> | RecentKind(w, kind) ensures RecentKind(v, kind) {
      var i :| w.bridge.seenKind <= i < |w.kinds| && w.kinds[i] == kind;
      assert v.kinds[i] == kind;
    }
  }

  lemma CurrentIsRecent(w: World)
    requires WellFormed(w)
    ensures RecentStatus(w, CurrentStatus(w)) && RecentKind(w, CurrentKind(w))
  {
    assert w.statuses[|w.statuses| - 1] == CurrentStatus(w);
    assert w.kinds[|w.kinds| - 1] == CurrentKind(w);
  }

  /** A connection that did not move, while the ring did not grow and nothing was marked seen. */
  lemma ConnStays(w: World, v: World, c: Conn)
    requires WellFormed(w) && c.pos <= |w.sent| && ConnOk(w, c) && v.sent == w.sent
    requires v.bridge.seenStatus == w.bridge.seenStatus && v.bridge.seenKind == w.bridge.seenKind
    requires w.statuses <= v.statuses && w.kinds <= v.kinds
    ensures ConnOk(v, c)
  {
    RecentStays(w, v);
  }

  /** A frame just sent is what every connection gets last. */
  lemma SentReaches(w: World, v: World, c: Conn, f: CoreInfos)
    requires c.pos <= |w.sent| && v.sent == w.sent + [StatusChanged(f)] && RecentFrame(v, f)
    ensures ConnOk(v, c)
  {
    LastStatusConcat(w.sent[c.pos..], [StatusChanged(f)]);
    assert v.sent[c.pos..] == w.sent[c.pos..] + [StatusChanged(f)];
  }

  /** A legacy event changes no snapshot. */
  lemma LegacyIsSilent(w: World, v: World, c: Conn, s: WireState)
    requires WellFormed(w) && c.pos <= |w.sent| && c.since <= |w.sent| && v.sent == w.sent + [StateChanged(s)]
    requires v.statuses == w.statuses && v.kinds == w.kinds
    requires v.bridge.seenStatus == w.bridge.seenStatus && v.bridge.seenKind == w.bridge.seenKind
    ensures ConnOk(w, c) ==> ConnOk(v, c)
    ensures Covered(v, c) ==> Covered(w, c)
  {
    RecentStays(w, v);
    LastStatusConcat(w.sent[c.pos..], [StateChanged(s)]);
    LastStatusConcat(w.sent[c.since..], [StateChanged(s)]);
    assert v.sent[c.pos..] == w.sent[c.pos..] + [StateChanged(s)];
    assert v.sent[c.since..] == w.sent[c.since..] + [StateChanged(s)];
  }

  /** The initial read: nothing was sent yet, and nobody is covered. */
  lemma BridgeInit(w: World)
    requires Inv(w) && w.bridge.phase.Fresh?
    ensures Inv(StepBridge(w))
  {
    var v := StepBridge(w);
    assert LastStatus([]).None?;
    hide LastStatus, ConnOk, RecentStatus, RecentKind;
    forall id | id in v.conns ensures !Covered(v, v.conns[id]) {
      assert v.sent[v.conns[id].since..] == [];
    }
  }

  /** The bridge's reads towards a frame it now owes: what it read is still recent. */
  lemma BridgeReads(w: World)
    requires Inv(w) && (w.bridge.phase.StatusRead? || w.bridge.phase.KindWoken? || w.bridge.phase.KindRead?)
    ensures Inv(StepBridge(w))
  {
    hide LastStatus, ConnOk, Covered;
    var v, p := StepBridge(w), w.bridge.phase;
    CurrentIsRecent(v);
    if !p.KindWoken? { SameStatuses(w, v, p.raw); }
    hide RecentStatus, RecentKind;
  }

  lemma SameStatuses(w: World, v: World, raw: Status)
    requires v.statuses == w.statuses && v.bridge.seenStatus == w.bridge.seenStatus && RecentStatus(w, raw)
    ensures RecentStatus(v, raw)
  {
    var i :| w.bridge.seenStatus <= i < |w.statuses| && w.statuses[i] == raw;
    assert v.statuses[i] == raw;
  }

  /** A status frame sent settles what the bridge owed. */
  lemma BridgeSends(w: World)
    requires Inv(w) && (w.bridge.phase.StatusReady? || w.bridge.phase.KindReady?)
    ensures Inv(StepBridge(w))
  {
    hide LastStatus;
    var v, f := StepBridge(w), Project(w.bridge.phase.raw, w.bridge.phase.kind);
    RecentStays(w, v);
    assert RecentFrame(v, f);
    forall id | id in v.conns ensures ConnOk(v, v.conns[id]) { SentReaches(w, v, w.conns[id], f); }
  }

  lemma BridgeReports(w: World)
    requires Inv(w) && w.bridge.phase.Reported?
    ensures Inv(StepBridge(w))
  {
    hide LastStatus, RecentFrame, RecentStatus;
    var v := StepBridge(w);
    forall id | id in v.conns && Covered(v, v.conns[id]) ensures ConnOk(v, v.conns[id]) {
      if v.sent == w.sent { ConnStays(w, v, w.conns[id]); }
      else { LegacyIsSilent(w, v, w.conns[id], MapCoreState(w.bridge.phase.raw.state)); }
    }
  }

  lemma BridgeKeeps(w: World)
    requires Inv(w) && !w.bridge.phase.Waiting?
    ensures Inv(StepBridge(w))
  {
    hide Inv;
    match w.bridge.phase
    case Reported(_) => BridgeReports(w);
    case StatusReady(_, _) => BridgeSends(w);
    case KindReady(_, _) => BridgeSends(w);
    case Fresh => BridgeInit(w);
    case _ => BridgeReads(w);
  }

  lemma PublishKeeps(w: World, s: Step)
    requires Inv(w) && (s.Publish? || s.Echo?)
    ensures Inv(Do(w, s))
  {
    var v := Do(w, s);
    RecentStays(w, v);
    if !Owing(v.bridge.phase) {
      forall id | id in v.conns && Covered(v, v.conns[id]) ensures ConnOk(v, v.conns[id]) {
        ConnStays(w, v, w.conns[id]);
      }
    }
  }

  /** The connection that takes a step. */
  lemma ConnMoves(w: World, s: Step)
    requires Inv(w) && Enabled(w, s) && (s.Snapshot? || s.Receive? || s.Lag?)
    ensures StepConn(w, s).pos <= |w.sent|
    ensures !Owing(w.bridge.phase) && ConnOk(w, w.conns[s.id]) ==> ConnOk(w, StepConn(w, s))
  {
    var c, d := w.conns[s.id], StepConn(w, s);
    CurrentIsRecent(w);
    if !Owing(w.bridge.phase) && ConnOk(w, c) {
      match s
      case Snapshot(_) =>
        if c.stage.SnapshotRead? {
          LastStatusConcat(c.received, [StatusChanged(Project(c.stage.raw, CurrentKind(w)))]);
          assert RecentStatus(w, c.stage.raw) ==> RecentFrame(w, Project(c.stage.raw, CurrentKind(w)));
        }
      case Receive(_) =>
        LastStatusConcat([w.sent[c.pos]], w.sent[d.pos..]);
        LastStatusConcat(c.received, [w.sent[c.pos]]);
        assert w.sent[c.pos..] == [w.sent[c.pos]] + w.sent[d.pos..];
      case Lag(_) => assert w.sent[d.pos..] == [];
    }
  }

  /** A connection that opens starts at the tail of the ring. */
  lemma OpenKeeps(w: World, id: nat)
    requires Inv(w) && id !in w.conns
    ensures Inv(Do(w, Open(id)))
  {
    var v := Do(w, Open(id));
    RecentStays(w, v);
    hide LastStatus, RecentFrame, RecentStatus, RecentKind;
    forall i | i in v.conns && Covered(v, v.conns[i]) && !Owing(v.bridge.phase) ensures ConnOk(v, v.conns[i]) {
      if i == id { NothingInFlight(v, v.conns[i]); } else { ConnStays(w, v, w.conns[i]); }
    }
  }

  lemma NothingInFlight(w: World, c: Conn)
    requires c.pos == |w.sent| && c.stage.Subscribed?
    ensures ConnOk(w, c)
  {
    assert w.sent[c.pos..] == [];
  }

  lemma CloseKeeps(w: World, id: nat)
    requires Inv(w) && id in w.conns
    ensures Inv(Do(w, Close(id)))
  {
    var v := Do(w, Close(id));
    RecentStays(w, v);
    hide LastStatus, RecentFrame, RecentStatus, RecentKind;
    forall i | i in v.conns && Covered(v, v.conns[i]) && !Owing(v.bridge.phase) ensures ConnOk(v, v.conns[i]) {
      ConnStays(w, v, w.conns[i]);
    }
  }

  lemma ConnKeeps(w: World, s: Step)
    requires Inv(w) && Enabled(w, s) && (s.Snapshot? || s.Receive? || s.Lag?)
    ensures Inv(Do(w, s))
  {
    var v := Do(w, s);
    ConnMoves(w, s);
    RecentStays(w, v);
    hide LastStatus, RecentFrame, RecentStatus, RecentKind;
    forall i | i in v.conns && Covered(v, v.conns[i]) && !Owing(v.bridge.phase) ensures ConnOk(v, v.conns[i]) {
      if i != s.id { ConnStays(w, v, w.conns[i]); }
      else { assert Covered(w, w.conns[i]); ConnStays(w, v, v.conns[i]); }
    }
  }

  /** Waking marks the version seen, and from there on the bridge owes everyone a frame. */
  lemma WakeKeeps(w: World, s: Step)
    requires Inv(w) && Enabled(w, s) && (s.WakeStatus? || s.WakeKind?)
    ensures Inv(Do(w, s))
  {
    CurrentIsRecent(Do(w, s));
    hide LastStatus, RecentFrame, ConnOk;
  }

  lemma StepKeeps(w: World, s: Step)
    requires Inv(w) && Enabled(w, s)
    ensures Inv(Do(w, s))
  {
    hide Inv;
    match s
    case Publish(_) => PublishKeeps(w, s);
    case Echo(_) => PublishKeeps(w, s);
    case BridgeStep => BridgeKeeps(w);
    case WakeStatus => WakeKeeps(w, s);
    case WakeKind => WakeKeeps(w, s);
    case Open(id) => OpenKeeps(w, id);
    case Close(id) => CloseKeeps(w, id);
    case _ => ConnKeeps(w, s);
  }

  lemma {:induction false} RunKeeps(w: World, steps: seq<Step>)
    requires Inv(w) && Runs(w, steps)
    ensures Inv(After(w, steps))
    decreases |steps|
  {
    if steps != [] {
      StepKeeps(w, steps[0]);
      RunKeeps(Do(w, steps[0]), steps[1..]);
    }
  }

  // ----- what a client may rely on -------------------------------------------

  /** The bridge waits with no unseen change. */
  predicate Quiescent(w: World)
    requires WellFormed(w)
  {
    w.bridge.phase.Waiting? && w.bridge.seenStatus == |w.statuses| - 1 && w.bridge.seenKind == |w.kinds| - 1
  }

  /**
   In every run, whenever the bridge has no unseen change and a covered
   connection has drained its ring, the last status frame its client received is
   the projection of the current status and type echo, lags included.
   */
  lemma DrainedClientIsCurrent(w: World, steps: seq<Step>, id: nat)
    requires Initial(w) && Runs(w, steps)
    requires var v := After(w, steps);
             Quiescent(v) && id in v.conns && Covered(v, v.conns[id])
             && v.conns[id].stage.Live? && v.conns[id].pos == |v.sent|
    ensures var v := After(w, steps);
            LastStatus(v.conns[id].received) == Some(Project(CurrentStatus(v), CurrentKind(v)))
  {
    RunKeeps(w, steps);
    var v := After(w, steps);
    assert v.sent[v.conns[id].pos..] == [];
    assert ConnOk(v, v.conns[id]);
    assert LastStatus([]).None?;
    RecentAtRest(v);
    hide LastStatus, RecentFrame, Runs, After;
  }

  /** At rest only the current projection is recent. */
  lemma RecentAtRest(w: World)
    requires WellFormed(w) && Quiescent(w)
    ensures forall f: CoreInfos :: RecentFrame(w, f) ==> f == Project(CurrentStatus(w), CurrentKind(w))
  {
  }

  /** The same before draining: what is on its way already ends in the current projection. */
  lemma InFlightEndsCurrent(w: World, steps: seq<Step>, id: nat)
    requires Initial(w) && Runs(w, steps)
    requires var v := After(w, steps);
             Quiescent(v) && id in v.conns && Covered(v, v.conns[id]) && v.conns[id].stage.Live?
    ensures var v := After(w, steps);
            LastStatus(v.conns[id].received + v.sent[v.conns[id].pos..])
            == Some(Project(CurrentStatus(v), CurrentKind(v)))
  {
    RunKeeps(w, steps);
    var v := After(w, steps);
    LastStatusConcat(v.conns[id].received, v.sent[v.conns[id].pos..]);
    assert ConnOk(v, v.conns[id]);
    RecentAtRest(v);
    hide LastStatus, RecentFrame, Runs, After;
  }

  // ----- connections the bridge does not answer for ------------------------------

  /** All a connection holds is the snapshot it read. */
  predicate OwnSnapshot(w: World, c: Conn) {
    match c.stage
    case Subscribed => true
    case SnapshotRead(raw) => c.snapStatus < |w.statuses| && raw == w.statuses[c.snapStatus]
    case Live =>
      && c.snapStatus < |w.statuses| && c.snapKind < |w.kinds|
      && LastStatus(c.received) == Some(Project(w.statuses[c.snapStatus], w.kinds[c.snapKind]))
  }

  /** Before its first frame the bridge has seen nothing beyond its initial read, and no one has lagged. */
  ghost predicate Silence(w: World) {
    && (LastStatus(w.sent).None? ==> w.sent == [])
    && (w.bridge.phase.Reported? ==> w.sent != [])
    && (!w.bridge.phase.Fresh? ==> w.bridge.readStatus < |w.statuses| && w.bridge.readKind < |w.kinds|)
    && (w.bridge.phase.Waiting? && w.sent == [] ==>
          w.bridge.seenStatus == w.bridge.readStatus && w.bridge.seenKind <= w.bridge.readKind)
    && (forall id :: id in w.conns && !w.conns[id].late ==> w.conns[id].since == 0)
    && (w.sent == [] ==> forall id :: id in w.conns ==> OwnSnapshot(w, w.conns[id]))
  }

  lemma LastStatusSnoc(es: seq<Event>, e: Event)
    ensures LastStatus(es + [e]) == if e.StatusChanged? then Some(e.infos) else LastStatus(es)
  {
    assert (es + [e])[..|es + [e]| - 1] == es;
  }

  /** A frame sent ends the silence. */
  lemma SilenceEnds(w: World, v: World, e: Event)
    requires WellFormed(w) && Silence(w) && (e.StatusChanged? || w.sent != [])
    requires v.sent == w.sent + [e] && v.conns == w.conns && !w.bridge.phase.Fresh? && !v.bridge.phase.Reported?
    requires v.statuses == w.statuses && v.kinds == w.kinds
    requires v.bridge.readStatus == w.bridge.readStatus && v.bridge.readKind == w.bridge.readKind
    ensures Silence(v)
  {
    hide LastStatus, OwnSnapshot;
    LastStatusSnoc(w.sent, e);
  }

  lemma SilenceBridge(w: World)
    requires Inv(w) && Silence(w) && !w.bridge.phase.Waiting?
    ensures Silence(StepBridge(w))
  {
    var p, v := w.bridge.phase, StepBridge(w);
    hide LastStatus, Inv, OwnSnapshot;
    if p.StatusReady? {
      LastStatusSnoc(w.sent, StatusChanged(Project(p.raw, p.kind)));
    } else if p.KindReady? {
      SilenceEnds(w, v, StatusChanged(Project(p.raw, p.kind)));
    } else if p.Reported? && v.sent != w.sent {
      SilenceEnds(w, v, StateChanged(MapCoreState(p.raw.state)));
    }
  }

  /** The connection that takes a step while nothing has been sent. */
  lemma SilenceConn(w: World, s: Step)
    requires WellFormed(w) && Enabled(w, s) && (s.Snapshot? || s.Receive? || s.Lag?)
    requires w.sent == [] && OwnSnapshot(w, w.conns[s.id])
    ensures OwnSnapshot(w, StepConn(w, s))
  {
    var c := w.conns[s.id];
    if s.Snapshot? && c.stage.SnapshotRead? {
      LastStatusConcat(c.received, [StatusChanged(Project(c.stage.raw, CurrentKind(w)))]);
    }
  }

  lemma SilenceKeeps(w: World, s: Step)
    requires Inv(w) && Silence(w) && Enabled(w, s)
    ensures Silence(Do(w, s))
  {
    if s.BridgeStep? {
      SilenceBridge(w);
    } else {
      if (s.Snapshot? || s.Receive? || s.Lag?) && w.sent == [] { SilenceConn(w, s); }
      hide LastStatus, StepBridge;
    }
  }

  lemma {:induction false} SilenceRuns(w: World, steps: seq<Step>)
    requires Inv(w) && Silence(w) && Runs(w, steps)
    ensures Silence(After(w, steps))
    decreases |steps|
  {
    if steps != [] {
      StepKeeps(w, steps[0]);
      SilenceKeeps(w, steps[0]);
      SilenceRuns(Do(w, steps[0]), steps[1..]);
    }
  }

  /** Nothing changed, as clients see it, between a connection's snapshot and the bridge's initial read. */
  predicate SnapshotMatchesRead(w: World, c: Conn) {
    && c.snapStatus < |w.statuses| && c.snapKind < |w.kinds|
    && w.bridge.readStatus < |w.statuses| && w.bridge.readKind < |w.kinds|
    && Project(w.statuses[c.snapStatus], w.kinds[c.snapKind])
       == Project(w.statuses[w.bridge.readStatus], w.kinds[w.bridge.readKind])
  }

  /** An uncovered connection holds its own snapshot, and the current values are those of the initial read. */
  lemma UncoveredAtRest(v: World, id: nat)
    requires Inv(v) && Silence(v) && Quiescent(v) && id in v.conns && !Covered(v, v.conns[id])
    ensures v.sent == [] && v.bridge.readStatus == |v.statuses| - 1 && v.bridge.readKind == |v.kinds| - 1
    ensures OwnSnapshot(v, v.conns[id])
  {
    assert v.sent[0..] == v.sent;
    hide LastStatus, Inv;
  }

  /**
   Exactly when a drained client is current at rest: if the bridge answers for its
   connection, or if nothing changed in projection between its own snapshot and the
   bridge's initial read.
   */
  lemma DrainedClientExact(w: World, steps: seq<Step>, id: nat)
    requires Initial(w) && Runs(w, steps)
    requires var v := After(w, steps);
             Quiescent(v) && id in v.conns && v.conns[id].stage.Live? && v.conns[id].pos == |v.sent|
    ensures var v := After(w, steps);
            LastStatus(v.conns[id].received) == Some(Project(CurrentStatus(v), CurrentKind(v)))
            <==> Covered(v, v.conns[id]) || SnapshotMatchesRead(v, v.conns[id])
  {
    RunKeeps(w, steps);
    SilenceRuns(w, steps);
    var v := After(w, steps);
    if Covered(v, v.conns[id]) {
      DrainedClientIsCurrent(w, steps, id);
    } else {
      UncoveredAtRest(v, id);
    }
    hide Inv, Silence, LastStatus, Runs, After;
  }

  lemma OneMore(w: World, s: Step, rest: seq<Step>)
    requires WellFormed(w) && Enabled(w, s) && Runs(Do(w, s), rest)
    ensures Runs(w, [s] + rest) && After(w, [s] + rest) == After(Do(w, s), rest)
  {
    assert ([s] + rest)[1..] == rest;
  }

  function EarlyStart(a: Status): World { World([a], [None], Bridge(Fresh, 0, 0, WireRunning, 0, 0), [], map[]) }

  function EarlySteps(b: Status): seq<Step> {
    [Open(0)] + ([Snapshot(0)] + ([Snapshot(0)] + ([Publish(b)] + ([BridgeStep] + []))))
  }

  function EarlyConn(a: Status): Conn { Conn(Live, 0, [StatusChanged(Project(a, None))], false, 0, 0, 0) }

  function EarlyEnd(a: Status, b: Status): World {
    World([a, b], [None], Bridge(Waiting, 1, 0, MapCoreState(b.state), 1, 0), [], map[0 := EarlyConn(a)])
  }

  lemma EarlyRun(a: Status, b: Status)
    ensures Runs(EarlyStart(a), EarlySteps(b)) && After(EarlyStart(a), EarlySteps(b)) == EarlyEnd(a, b)
  {
    var w := EarlyStart(a);
    var w1 := w.(conns := map[0 := Conn(Subscribed, 0, [], false, 0, 0, 0)]);
    var w2 := w.(conns := map[0 := Conn(SnapshotRead(a), 0, [], false, 0, 0, 0)]);
    var w3 := w.(conns := map[0 := EarlyConn(a)]);
    var w4 := w3.(statuses := [a, b]);
    assert Enabled(w, Open(0)) && Do(w, Open(0)) == w1;
    assert Enabled(w1, Snapshot(0)) && Do(w1, Snapshot(0)) == w2;
    var none: seq<Event> := [];
    assert none + [StatusChanged(Project(a, None))] == EarlyConn(a).received;
    assert Enabled(w2, Snapshot(0)) && StepConn(w2, Snapshot(0)) == EarlyConn(a) && Do(w2, Snapshot(0)) == w3;
    assert Do(w3, Publish(b)) == w4;
    assert Enabled(w4, BridgeStep) && Do(w4, BridgeStep) == EarlyEnd(a, b);
    hide Do, Enabled;
    OneMore(w4, BridgeStep, []);
    OneMore(w3, Publish(b), [BridgeStep] + []);
    OneMore(w2, Snapshot(0), [Publish(b)] + ([BridgeStep] + []));
    OneMore(w1, Snapshot(0), [Snapshot(0)] + ([Publish(b)] + ([BridgeStep] + [])));
    hide Runs, After;
    OneMore(w, Open(0), [Snapshot(0)] + ([Snapshot(0)] + ([Publish(b)] + ([BridgeStep] + []))));
  }

  /** A connection opened before the bridge's initial read can stay stale: that read sends nothing. */
  lemma EarlyClientCanBeStale(a: Status, b: Status)
    requires a != b
    ensures Initial(EarlyStart(a)) && Runs(EarlyStart(a), EarlySteps(b))
    ensures var v := After(EarlyStart(a), EarlySteps(b));
            && Quiescent(v) && 0 in v.conns && v.conns[0].stage.Live? && v.conns[0].pos == |v.sent|
            && LastStatus(v.conns[0].received) == Some(Project(a, None))
            && LastStatus(v.conns[0].received) != Some(Project(CurrentStatus(v), CurrentKind(v)))
  {
    EarlyRun(a, b);
  }

  // ----- the legacy stream ----------------------------------------------------

  function Legacy(es: seq<Event>): seq<WireState> {
    if es == [] then []
    else Legacy(es[..|es| - 1]) + if es[|es| - 1].StateChanged? then [es[|es| - 1].state] else []
  }

  lemma LegacySnoc(es: seq<Event>, e: Event)
    ensures Legacy(es + [e]) == Legacy(es) + if e.StateChanged? then [e.state] else []
  {
    assert (es + [e])[..|es + [e]| - 1] == es;
  }

  ghost predicate NoRepeat(ss: seq<WireState>) {
    forall i :: 0 <= i < |ss| - 1 ==> ss[i] != ss[i + 1]
  }

  predicate InStatusArm(p: Phase) { p.StatusRead? || p.StatusReady? || p.Reported? }

  ghost predicate LegacyInv(w: World)
    requires WellFormed(w)
  {
    && BridgeOk(w)
    && (w.bridge.phase.Fresh? ==> w.sent == [])
    && NoRepeat(Legacy(w.sent))
    && (Legacy(w.sent) != [] ==> Legacy(w.sent)[|Legacy(w.sent)| - 1] == w.bridge.last)
    && (!w.bridge.phase.Fresh? && !InStatusArm(w.bridge.phase) ==>
          Silent(w.statuses[w.bridge.seenStatus], w.bridge.last))
  }

  /** The bridge's legacy report, or its silence. */
  lemma LegacyReports(w: World)
    requires WellFormed(w) && LegacyInv(w) && w.bridge.phase.Reported?
    ensures LegacyInv(StepBridge(w))
  {
    hide Legacy;
    var raw := w.bridge.phase.raw;
    if !Silent(raw, w.bridge.last) {
      LegacySnoc(w.sent, StateChanged(MapCoreState(raw.state)));
      assert StepBridge(w).sent == w.sent + [StateChanged(MapCoreState(raw.state))];
    }
  }

  lemma LegacySends(w: World)
    requires WellFormed(w) && LegacyInv(w) && (w.bridge.phase.StatusReady? || w.bridge.phase.KindReady?)
    ensures LegacyInv(StepBridge(w))
  {
    hide Legacy, NoRepeat, RecentStatus, RecentKind;
    LegacySnoc(w.sent, StatusChanged(Project(w.bridge.phase.raw, w.bridge.phase.kind)));
    assert Legacy(StepBridge(w).sent) == Legacy(w.sent);
  }

  lemma LegacyBridge(w: World)
    requires WellFormed(w) && LegacyInv(w) && !w.bridge.phase.Waiting?
    ensures LegacyInv(StepBridge(w))
  {
    var v, p := StepBridge(w), w.bridge.phase;
    if p.Reported? {
      LegacyReports(w);
    } else if p.StatusReady? || p.KindReady? {
      LegacySends(w);
    } else {
      CurrentIsRecent(v);
      assert Legacy([]) == [];
      hide Legacy, NoRepeat;
      if p.StatusRead? || p.KindRead? {
        var i :| w.bridge.seenStatus <= i < |w.statuses| && w.statuses[i] == p.raw;
        assert v.statuses[i] == p.raw;
      }
    }
  }

  lemma LegacyStep(w: World, s: Step)
    requires WellFormed(w) && LegacyInv(w) && Enabled(w, s)
    ensures LegacyInv(Do(w, s))
  {
    hide Legacy, NoRepeat;
    var v := Do(w, s);
    if s.BridgeStep? {
      LegacyBridge(w);
    } else if s.WakeStatus? {
      CurrentIsRecent(v);
    } else {
      RecentStays(w, v);
    }
  }

  lemma {:induction false} LegacyRun(w: World, steps: seq<Step>)
    requires WellFormed(w) && LegacyInv(w) && Runs(w, steps)
    ensures LegacyInv(After(w, steps))
    decreases |steps|
  {
    if steps != [] {
      LegacyStep(w, steps[0]);
      LegacyRun(Do(w, steps[0]), steps[1..]);
    }
  }

  /**
   The two-valued legacy stream never repeats a state, and once the bridge is
   quiescent the last state it reported is the current one, unless the core is
   stopping or switching and was last reported stopped.
   */
  lemma LegacyStream(w: World, steps: seq<Step>)
    requires Initial(w) && Runs(w, steps)
    ensures var v := After(w, steps);
            && NoRepeat(Legacy(v.sent))
            && (Legacy(v.sent) != [] ==> Legacy(v.sent)[|Legacy(v.sent)| - 1] == v.bridge.last)
            && (Quiescent(v) ==>
                  v.bridge.last == MapCoreState(CurrentStatus(v).state)
                  || ((CurrentStatus(v).state.Stopping? || CurrentStatus(v).state.Switching?)
                      && v.bridge.last.WireStopped?))
  {
    LegacyRun(w, steps);
  }

  // ----- the legacy stream as a function of what the bridge read ----------------

  /** The states the bridge read in a run, in order: one at its start, one for each time it woke to a status. */
  function Reads(w: World, steps: seq<Step>): seq<CoreState>
    requires WellFormed(w) && Runs(w, steps)
    decreases |steps|
  {
    if steps == [] then [] else ReadBy(w, steps[0]) + Reads(Do(w, steps[0]), steps[1..])
  }

  function ReadBy(w: World, s: Step): seq<CoreState>
    requires WellFormed(w)
  {
    if s.WakeStatus? || (s.BridgeStep? && w.bridge.phase.Fresh?) then [CurrentStatus(w).state] else []
  }

  /** What a state says on the two-valued stream; stopping and switching are never heard of. */
  function Heard(s: CoreState): Option<WireState> {
    match s
    case Running(_, _) => Some(WireRunning)
    case Starting(_) => Some(WireStopped(None))
    case Restarting(_, _) => Some(WireStopped(None))
    case Stopped(reason) => Some(WireStopped(reason))
    case Switching(_, _) => None
    case Stopping(_) => None
  }

  /** The state legacy clients go by after these reads; the first is taken for known. */
  function LastHeard(seen: seq<CoreState>): WireState
    requires seen != []
  {
    var n := |seen| - 1;
    if Heard(seen[n]).Some? then Heard(seen[n]).value
    else if n == 0 then WireRunning
    else LastHeard(seen[..n])
  }

  /** The legacy stream these reads call for: each state that says something new. */
  function LegacyOf(seen: seq<CoreState>): seq<WireState>
    requires seen != []
  {
    var n := |seen| - 1;
    if n == 0 then []
    else if Heard(seen[n]).None? || Heard(seen[n]).value == LastHeard(seen[..n]) then LegacyOf(seen[..n])
    else LegacyOf(seen[..n]) + [Heard(seen[n]).value]
  }

  /** The legacy part has dealt with all the bridge read, except a status it is about to report. */
  ghost predicate Follows(w: World, seen: seq<CoreState>) {
    match w.bridge.phase
    case Fresh => seen == [] && w.sent == []
    case StatusRead(raw) => Behind(w, seen, raw)
    case StatusReady(raw, _) => Behind(w, seen, raw)
    case Reported(raw) => Behind(w, seen, raw)
    case _ => UpToDate(w, seen)
  }

  ghost predicate UpToDate(w: World, seen: seq<CoreState>) {
    seen != [] && Legacy(w.sent) == LegacyOf(seen) && w.bridge.last == LastHeard(seen)
  }

  ghost predicate Behind(w: World, seen: seq<CoreState>, raw: Status) {
    seen != [] && seen[|seen| - 1] == raw.state && UpToDate(w, seen[..|seen| - 1])
  }

  lemma FollowsReport(w: World, seen: seq<CoreState>)
    requires WellFormed(w) && Follows(w, seen) && w.bridge.phase.Reported?
    ensures Follows(StepBridge(w), seen)
  {
    hide Legacy;
    var raw := w.bridge.phase.raw;
    if !Silent(raw, w.bridge.last) { LegacySnoc(w.sent, StateChanged(MapCoreState(raw.state))); }
  }

  lemma FollowsBridge(w: World, seen: seq<CoreState>)
    requires WellFormed(w) && Follows(w, seen) && !w.bridge.phase.Waiting? && !w.bridge.phase.Fresh?
    ensures Follows(StepBridge(w), seen)
  {
    var p := w.bridge.phase;
    hide Legacy, LegacyOf, LastHeard, MapCoreState;
    if p.Reported? {
      hide Follows;
      FollowsReport(w, seen);
    } else if p.StatusReady? || p.KindReady? {
      LegacySnoc(w.sent, StatusChanged(Project(p.raw, p.kind)));
    }
  }

  /** A step that reads no status for the status arm. */
  lemma FollowsOther(w: World, s: Step, seen: seq<CoreState>)
    requires WellFormed(w) && Follows(w, seen) && Enabled(w, s) && !s.WakeStatus?
    requires s.BridgeStep? ==> !w.bridge.phase.Fresh?
    ensures Follows(Do(w, s), seen)
  {
    hide Legacy, LegacyOf, LastHeard, StepBridge, StepConn;
    if s.BridgeStep? {
      hide Follows;
      FollowsBridge(w, seen);
    }
  }

  lemma FollowsStep(w: World, s: Step, seen: seq<CoreState>)
    requires WellFormed(w) && Follows(w, seen) && Enabled(w, s)
    ensures Follows(Do(w, s), seen + ReadBy(w, s))
  {
    var p, now := w.bridge.phase, seen + ReadBy(w, s);
    if s.WakeStatus? {
      assert now[..|now| - 1] == seen;
      hide Legacy, LegacyOf, LastHeard;
    } else if s.BridgeStep? && p.Fresh? {
      assert now == [CurrentStatus(w).state];
      assert Legacy([]) == [];
      hide Legacy;
    } else {
      assert now == seen;
      hide Follows, Do, Enabled;
      FollowsOther(w, s, seen);
    }
  }

  lemma ReadOn(a: seq<CoreState>, b: seq<CoreState>, c: seq<CoreState>)
    ensures a + b + c == a + (b + c)
  {
  }

  lemma {:induction false} FollowsRun(w: World, steps: seq<Step>, seen: seq<CoreState>)
    requires WellFormed(w) && Follows(w, seen) && Runs(w, steps)
    ensures Follows(After(w, steps), seen + Reads(w, steps))
    decreases |steps|
  {
    hide Follows, Enabled, Do, ReadBy, WellFormed;
    if steps == [] {
      assert seen + Reads(w, steps) == seen;
    } else {
      var v, read := Do(w, steps[0]), ReadBy(w, steps[0]);
      FollowsStep(w, steps[0], seen);
      FollowsRun(v, steps[1..], seen + read);
      ReadOn(seen, read, Reads(v, steps[1..]));
    }
  }

  /**
   In every run, outside the status arm, what legacy clients were sent is exactly
   what the states the bridge read call for: stopping and switching say nothing,
   and a state is sent when it differs from the one they go by. Inside the arm the
   state just read is still to be reported.
   */
  lemma LegacyIsFold(w: World, steps: seq<Step>)
    requires Initial(w) && Runs(w, steps)
    ensures var v, seen := After(w, steps), Reads(w, steps);
            && (v.bridge.phase.Fresh? <==> seen == [])
            && (seen != [] ==>
                  if InStatusArm(v.bridge.phase)
                  then |seen| > 1 && Legacy(v.sent) == LegacyOf(seen[..|seen| - 1])
                  else Legacy(v.sent) == LegacyOf(seen) && v.bridge.last == LastHeard(seen))
  {
    FollowsRun(w, steps, []);
    assert [] + Reads(w, steps) == Reads(w, steps);
    hide Legacy, LegacyOf, LastHeard;
  }

  /** A status frame determines the status and the type echo it was built from. */
  lemma FramesAreFaithful(a: Status, k: Option<string>, b: Status, l: Option<string>)
    ensures Project(a, k) == Project(b, l) <==> a == b && k == l
    ensures Project(a, k).state.WireRunning? <==> a.state.Running? || a.state.Switching? || a.state.Stopping?
    ensures Project(a, k).state.WireStopped? ==>
              Project(a, k).state.reason == if a.state.Stopped? then a.state.reason else None
  {
  }
}
