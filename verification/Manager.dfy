/**
 The epoch protocol: `manager/mod.rs`, `manager/apply.rs`, `manager/switching.rs`
 and `manager/quarantine.rs`. Every answer of the environment (spawn, readiness,
 stop, reap, file operations, the core's own replies) is an input, so each contract
 holds for all of them and says what each leads to. The ghost `trace` records what
 happened; `Valid` says it is `Safe`.
 */
module Manager {
  import opened Wrappers
  import opened Yaml
  import opened Epochs
  import Mihomo
  import opened Bootstrap

  type Bytes = string

  datatype Revision = Revision(epoch: nat, generation: nat, sourceHash: string, effectiveHash: string)

  /** The compare-and-swap token. */
  datatype RevisionId = RevisionId(epoch: nat, generation: nat, effectiveHash: string)

  function KeyOf(r: Revision): Key { Key(r.epoch, r.generation) }

  function IdOf(r: Revision): RevisionId { RevisionId(r.epoch, r.generation, r.effectiveHash) }

  /** A prepared launch, and once installed, the active epoch. */
  datatype Launch = Launch(spec: InstanceSpec, revision: Revision, source: Mapping, effective: Mapping)

  datatype QuarantinedEpoch = QuarantinedEpoch(epoch: nat, reason: string, deathProven: bool)

  datatype Fault =
    | AlreadyRunning
    | NotStarted
    | StopUnconfirmed
    | ManagerQuarantined(epoch: nat)
    | RevisionConflict(expected: RevisionId, actual: RevisionId)
    | ApplyRollbackFailed
    | DurabilityUncertain(cause: Fault)
    | Failed   // any configuration, I/O or process error

  datatype ApplyOutcome =
    | Unchanged(revision: Revision)       // Noop
    | Patched(revision: Revision)
    | Reloaded(revision: Revision)
    | Restarted(revision: Revision)
    | Switched(revision: Revision)
    | RolledBack(revision: Revision)
    | UncertainApply(outcome: ApplyOutcome)

  datatype DegradeReason = NotRunning | UnsupportedKind | DnsListenConflict | InboundConflict
    | PatchFailed | HttpController

  datatype SwitchOutcome = Graceful | Hard(reason: DegradeReason) | UncertainSwitch(outcome: SwitchOutcome)

  /** `graceful_degrade_reason`; `None` selects the graceful switch. */
  function DegradeReasonOf(local: bool, kind: CoreKind, block: Option<Block>): Option<DegradeReason> {
    if !local then Some(HttpController)
    else if kind != MihomoCore then Some(UnsupportedKind)
    else if block.Some? then Some(if block.value == DnsListens then DnsListenConflict else InboundConflict)
    else None
  }

  /** What becomes of a process to be spawned; one that never gets ready is stopped, and proven dead or not. */
  datatype Fate = NotSpawned | Rejected(dead: bool) | GotReady

  /** No process of it is left. */
  predicate Gone(f: Fate) { f == NotSpawned || f == Rejected(true) }

  /** A write of the runtime store: done, perhaps not durably; or an error, perhaps after a new file was moved in. */
  datatype Write = Written(uncertain: bool) | Refused(moved: bool)

  datatype Reap = AlreadyExited | Killed | NotFound | ReapError

  /** The outcome under its durability wrappers. */
  function Settled(o: ApplyOutcome): ApplyOutcome {
    if o.UncertainApply? then Settled(o.outcome) else o
  }

  /** How many durability warnings an outcome carries. */
  function Warnings(o: ApplyOutcome): nat { if o.UncertainApply? then Warnings(o.outcome) + 1 else 0 }

  /** The fault under its durability wrappers, and how many there are. */
  function Cause(f: Fault): Fault { if f.DurabilityUncertain? then Cause(f.cause) else f }

  function Layers(f: Fault): nat { if f.DurabilityUncertain? then Layers(f.cause) + 1 else 0 }

  function Warned(r: Result<ApplyOutcome, Fault>): nat { if r.Ok? then Warnings(r.value) else Layers(r.error) }

  function WithDurability(r: Result<ApplyOutcome, Fault>, warn: bool): (w: Result<ApplyOutcome, Fault>)
    ensures w.Ok? <==> r.Ok?
    ensures if w.Ok? then Settled(w.value) == Settled(r.value) else Cause(w.error) == Cause(r.error)
    ensures Warned(w) == Warned(r) + (if warn then 1 else 0)
  {
    if !warn then r
    else match r case Ok(o) => Ok(UncertainApply(o)) case Err(e) => Err(DurabilityUncertain(e))
  }

  function SettledSwitch(o: SwitchOutcome): SwitchOutcome {
    if o.UncertainSwitch? then SettledSwitch(o.outcome) else o
  }

  function SwitchWarnings(o: SwitchOutcome): nat { if o.UncertainSwitch? then SwitchWarnings(o.outcome) + 1 else 0 }

  function SwitchWarned(r: Result<SwitchOutcome, Fault>): nat {
    if r.Ok? then SwitchWarnings(r.value) else Layers(r.error)
  }

  function WithSwitchDurability(r: Result<SwitchOutcome, Fault>, warn: bool): (w: Result<SwitchOutcome, Fault>)
    ensures w.Ok? <==> r.Ok?
    ensures if w.Ok? then SettledSwitch(w.value) == SettledSwitch(r.value) else Cause(w.error) == Cause(r.error)
    ensures SwitchWarned(w) == SwitchWarned(r) + (if warn then 1 else 0)
  {
    if !warn then r
    else match r case Ok(o) => Ok(UncertainSwitch(o)) case Err(e) => Err(DurabilityUncertain(e))
  }

  /** The one error that means something is quarantined. */
  predicate Unconfirmed<T>(r: Result<T, Fault>) { r.Err? && Cause(r.error) == StopUnconfirmed }

  // ----- what a verified patch says about the core --------------------------------

  /**
   What the running core answers while its configuration is changed in place: its
   own document, whether it accepted a reload, the probe afterwards, and whether all
   of it came before the timeout.
   */
  datatype Reply = Reply(document: Option<Doc>, accepted: bool, healthy: bool, timely: bool)

  /** The answers of the environment to one operation, by the part they play in it. */
  datatype Env = Env(
    terminal: bool,      // the current instance has already ended
    local: bool,         // the resolved features include a local controller
    launchable: bool,    // the binary is there and its features resolve
    checks: bool,        // the derived documents are staged and pass the checker
    prepares: bool,      // both again, when an apply turns into a switch
    creates: Write,      // the stable file of a fresh epoch
    backs: Write,        // the backup of the stable file
    commits: Write,     // the stable file with the new document
    restores: Write,     // the stable file from its backup
    removes: bool,       // the backup afterwards
    reply: Reply,        // the core, asked to change in place
    stopsOld: bool,      // the current process is proven dead
    fate: Fate,          // the new process
    stopsNew: bool,      // the bootstrap is proven dead
    again: Fate,         // the process spawned after that
    cleansOld: bool,     // the artifacts of the current epoch
    cleansNew: bool)     // the artifacts of the new epoch

  /** The core is healthy, merging the patch would change nothing in it, and every patched leaf is as in `doc`. */
  ghost predicate Confirmed(patch: Mapping, expected: seq<Mihomo.Leaf>, reply: Reply, doc: Mapping) {
    && reply.healthy && reply.document.Some?
    && Merge(reply.document.value, Map(patch)) == reply.document.value
    && (patch != map[] ==>
          forall l :: l in expected ==> ValueAt(reply.document, l.path) == ValueAt(Some(Map(doc)), l.path))
  }

  /** Leaves of the patch that the document itself has. */
  ghost predicate Projects(patch: Mapping, expected: seq<Mihomo.Leaf>, doc: Mapping) {
    expected == Mihomo.Leaves(Map(patch)) && (patch != map[] ==> Mihomo.Verify(expected, Map(doc)))
  }

  lemma VerifiedIsConfirmed(patch: Mapping, expected: seq<Mihomo.Leaf>, reply: Reply, doc: Mapping)
    requires Projects(patch, expected, doc) && reply.healthy && reply.document.Some?
    requires Mihomo.Verify(expected, reply.document.value)
    ensures Confirmed(patch, expected, reply, doc)
  {
    Mihomo.ProjectionExact(Map(patch), reply.document.value);
    hide Merge, Mihomo.Leaves;
  }

  /** An outcome in place is backed by the core's answers. */
  ghost predicate Answered(change: Mihomo.ConfigChange, o: ApplyOutcome, reply: Reply, doc: Mapping) {
    match Settled(o)
    case Patched(_) => change.Patch? && Confirmed(change.patch, change.expected, reply, doc)
    case Reloaded(_) => reply.accepted && reply.healthy
    case _ => true
  }

  type Restoration = Option<(Mapping, seq<Mihomo.Leaf>)>

  /** The restored core is healthy, and its own document agrees with the full one where the bootstrap differed. */
  ghost predicate Restored(restoration: Restoration, reply: Reply, doc: Mapping) {
    reply.healthy && (restoration.Some? ==> Confirmed(restoration.value.0, restoration.value.1, reply, doc))
  }

  // ----- the quarantine list ------------------------------------------------

  function Held(q: seq<QuarantinedEpoch>): set<nat> { set x | x in q :: x.epoch }

  function Unproven(q: seq<QuarantinedEpoch>): set<nat> { set x | x in q && !x.deathProven :: x.epoch }

  lemma UnprovenAreHeld(q: seq<QuarantinedEpoch>)
    ensures Unproven(q) <= Held(q)
  {
  }

  ghost predicate Distinct(q: seq<QuarantinedEpoch>) {
    forall i, j :: 0 <= i < j < |q| ==> q[i].epoch != q[j].epoch
  }

  /** `record_quarantine`. */
  function Record(q: seq<QuarantinedEpoch>, epoch: nat, reason: string): seq<QuarantinedEpoch> {
    if q == [] then [QuarantinedEpoch(epoch, reason, false)]
    else if q[0].epoch == epoch then [q[0].(reason := reason)] + q[1..]
    else [q[0]] + Record(q[1..], epoch, reason)
  }

  lemma {:induction false} RecordFresh(q: seq<QuarantinedEpoch>, epoch: nat, reason: string)
    requires epoch !in Held(q)
    ensures Record(q, epoch, reason) == q + [QuarantinedEpoch(epoch, reason, false)]
  {
    if q != [] {
      assert q[0] in q;
      assert forall x :: x in q[1..] ==> x in q;
      RecordFresh(q[1..], epoch, reason);
    }
  }

  /** What recording an epoch that is not listed yet does to the list. */
  lemma RecordNew(q: seq<QuarantinedEpoch>, epoch: nat, reason: string)
    requires epoch !in Held(q) && Distinct(q)
    ensures var r := q + [QuarantinedEpoch(epoch, reason, false)];
            Record(q, epoch, reason) == r && Distinct(r)
            && Held(r) == Held(q) + {epoch} && Unproven(r) == Unproven(q) + {epoch}
  {
    RecordFresh(q, epoch, reason);
    var x := QuarantinedEpoch(epoch, reason, false);
    assert forall y :: y in q + [x] <==> y in q || y == x;
    forall i | 0 <= i < |q| ensures q[i].epoch != epoch { assert q[i] in q; }
  }

  /** Recording an epoch that is listed replaces its reason and nothing else. */
  lemma {:induction false} RecordListed(q: seq<QuarantinedEpoch>, epoch: nat, reason: string)
    requires epoch in Held(q) && Distinct(q)
    ensures var r := Record(q, epoch, reason);
            |r| == |q| && forall i :: 0 <= i < |q| ==>
              r[i] == if q[i].epoch == epoch then q[i].(reason := reason) else q[i]
  {
    if q[0].epoch == epoch {
      assert forall i :: 1 <= i < |q| ==> q[i].epoch != epoch;
    } else {
      assert epoch in Held(q[1..]) by {
        var x :| x in q && x.epoch == epoch;
        assert q == [q[0]] + q[1..];
        assert x in q[1..];
      }
      assert forall i, j :: 0 <= i < j < |q[1..]| ==> q[1..][i] == q[i + 1] && q[1..][j] == q[j + 1];
      RecordListed(q[1..], epoch, reason);
      forall i | 1 <= i < |q|
        ensures Record(q, epoch, reason)[i] == if q[i].epoch == epoch then q[i].(reason := reason) else q[i]
      {
        assert Record(q, epoch, reason)[i] == Record(q[1..], epoch, reason)[i - 1] && q[1..][i - 1] == q[i];
      }
    }
  }

  /** Mark every entry of an epoch as proven dead. */
  function MarkProven(q: seq<QuarantinedEpoch>, epoch: nat): seq<QuarantinedEpoch> {
    seq(|q|, i requires 0 <= i < |q| => if q[i].epoch == epoch then q[i].(deathProven := true) else q[i])
  }

  /** `quarantine.retain(|q| q.epoch != epoch)`. */
  function Without(q: seq<QuarantinedEpoch>, epoch: nat): seq<QuarantinedEpoch> {
    if q == [] then []
    else if q[0].epoch == epoch then Without(q[1..], epoch)
    else [q[0]] + Without(q[1..], epoch)
  }

  lemma {:induction false} WithoutAbsent(q: seq<QuarantinedEpoch>, epoch: nat)
    requires epoch !in Held(q)
    ensures Without(q, epoch) == q
  {
    if q != [] {
      assert q[0] in q && forall x :: x in q[1..] ==> x in q;
      WithoutAbsent(q[1..], epoch);
    }
  }

  lemma OthersDiffer(a: seq<QuarantinedEpoch>, x: QuarantinedEpoch, b: seq<QuarantinedEpoch>)
    requires Distinct(a + [x] + b)
    ensures x.epoch !in Held(a) && x.epoch !in Held(b) && Distinct(a + b)
  {
    var q := a + [x] + b;
    assert forall i :: 0 <= i < |q| && i != |a| ==> q[i].epoch != q[|a|].epoch;
    assert q[|a|] == x;
    forall i | 0 <= i < |a| ensures a[i].epoch != x.epoch { assert q[i] == a[i]; }
    forall i | 0 <= i < |b| ensures b[i].epoch != x.epoch { assert q[|a| + 1 + i] == b[i]; }
    forall i, j | 0 <= i < j < |a + b| ensures (a + b)[i].epoch != (a + b)[j].epoch {
      assert (a + b)[i] == q[if i < |a| then i else i + 1] && (a + b)[j] == q[if j < |a| then j else j + 1];
    }
  }

  lemma SetsOf(a: seq<QuarantinedEpoch>, x: QuarantinedEpoch, b: seq<QuarantinedEpoch>)
    ensures Held(a + [x] + b) == Held(a) + {x.epoch} + Held(b)
    ensures Unproven(a + [x] + b) == Unproven(a) + (if x.deathProven then {} else {x.epoch}) + Unproven(b)
    ensures Held(a + b) == Held(a) + Held(b) && Unproven(a + b) == Unproven(a) + Unproven(b)
    ensures Unproven(a) <= Held(a) && Unproven(b) <= Held(b)
  {
    assert forall y :: y in a + [x] + b <==> y in a || y == x || y in b;
    assert forall y :: y in a + b <==> y in a || y in b;
  }

  lemma {:induction false} WithoutConcat(a: seq<QuarantinedEpoch>, b: seq<QuarantinedEpoch>, epoch: nat)
    ensures Without(a + b, epoch) == Without(a, epoch) + Without(b, epoch)
  {
    if a == [] {
      assert a + b == b;
    } else {
      assert (a + b)[1..] == a[1..] + b;
      WithoutConcat(a[1..], b, epoch);
    }
  }

  /** Dropping one entry of a list of distinct epochs. */
  lemma WithoutOne(a: seq<QuarantinedEpoch>, x: QuarantinedEpoch, b: seq<QuarantinedEpoch>)
    requires Distinct(a + [x] + b)
    ensures Without(a + [x] + b, x.epoch) == a + b
  {
    OthersDiffer(a, x, b);
    WithoutConcat(a + [x], b, x.epoch);
    WithoutConcat(a, [x], x.epoch);
    WithoutAbsent(a, x.epoch);
    WithoutAbsent(b, x.epoch);
    assert a + [] == a;
  }

  lemma WithoutOneSets(a: seq<QuarantinedEpoch>, x: QuarantinedEpoch, b: seq<QuarantinedEpoch>)
    requires Distinct(a + [x] + b)
    ensures Distinct(a + b) && Held(a + b) == Held(a + [x] + b) - {x.epoch}
    ensures x.deathProven ==> Unproven(a + b) == Unproven(a + [x] + b)
  {
    OthersDiffer(a, x, b);
    SetsOf(a, x, b);
  }

  /** Marking one entry of a list of distinct epochs. */
  lemma MarkOne(a: seq<QuarantinedEpoch>, x: QuarantinedEpoch, b: seq<QuarantinedEpoch>)
    requires Distinct(a + [x] + b)
    ensures MarkProven(a + [x] + b, x.epoch) == a + [x.(deathProven := true)] + b
    ensures Distinct(a + [x.(deathProven := true)] + b)
    ensures Held(a + [x.(deathProven := true)] + b) == Held(a + [x] + b)
    ensures Unproven(a + [x.(deathProven := true)] + b) == Unproven(a + [x] + b) - {x.epoch}
  {
    OthersDiffer(a, x, b);
    MarkOneEntry(a, x, b);
    SameEpochs(a + [x] + b, a + [x.(deathProven := true)] + b);
    SetsOf(a, x, b);
    SetsOf(a, x.(deathProven := true), b);
    hide Distinct, Held, Unproven, MarkProven;
  }

  lemma MarkOneEntry(a: seq<QuarantinedEpoch>, x: QuarantinedEpoch, b: seq<QuarantinedEpoch>)
    requires x.epoch !in Held(a) && x.epoch !in Held(b)
    ensures MarkProven(a + [x] + b, x.epoch) == a + [x.(deathProven := true)] + b
  {
    var q, r := a + [x] + b, a + [x.(deathProven := true)] + b;
    forall i | 0 <= i < |q| ensures MarkProven(q, x.epoch)[i] == r[i] {
      if i < |a| { assert a[i] in a; } else if i > |a| { assert b[i - |a| - 1] in b; }
    }
  }

  lemma SameEpochs(q: seq<QuarantinedEpoch>, r: seq<QuarantinedEpoch>)
    requires |q| == |r| && (forall i :: 0 <= i < |q| ==> q[i].epoch == r[i].epoch) && Distinct(q)
    ensures Distinct(r)
  {
  }

  /** What recovery leaves of an entry: nothing once it is proven dead and cleaned. */
  function Remnant(entry: QuarantinedEpoch, reap: Reap, cleans: bool): seq<QuarantinedEpoch> {
    if !entry.deathProven && reap != AlreadyExited && reap != Killed then [entry]
    else if cleans then []
    else [entry.(deathProven := true)]
  }

  function Remnants(q: seq<QuarantinedEpoch>, reaps: nat -> Reap, cleans: nat -> bool): seq<QuarantinedEpoch> {
    if q == [] then []
    else Remnants(q[..|q| - 1], reaps, cleans) + Remnant(q[|q| - 1], reaps(|q| - 1), cleans(|q| - 1))
  }

  lemma {:induction false} AllRecovered(q: seq<QuarantinedEpoch>, reaps: nat -> Reap, cleans: nat -> bool)
    ensures Remnants(q, reaps, cleans) == [] <==>
            forall i :: 0 <= i < |q| ==>
              (q[i].deathProven || reaps(i) == AlreadyExited || reaps(i) == Killed) && cleans(i)
  {
    if q != [] {
      var n := |q| - 1;
      AllRecovered(q[..n], reaps, cleans);
      assert forall i :: 0 <= i < n ==> q[..n][i] == q[i];
      assert Remnant(q[n], reaps(n), cleans(n)) == [] <==>
             (q[n].deathProven || reaps(n) == AlreadyExited || reaps(n) == Killed) && cleans(n);
    }
  }

  lemma NoRemnants(q: seq<QuarantinedEpoch>, reaps: nat -> Reap, cleans: nat -> bool)
    ensures Remnants(q[..0], reaps, cleans) == [] && Remnants(q[..0], reaps, cleans) + q[0..] == q
  {
  }

  lemma NoneLeft(q: seq<QuarantinedEpoch>, kept: seq<QuarantinedEpoch>)
    ensures kept + q[|q|..] == kept && q[..|q|] == q
  {
  }

  lemma NextRemnant(q: seq<QuarantinedEpoch>, reaps: nat -> Reap, cleans: nat -> bool, i: nat,
                    kept: seq<QuarantinedEpoch>)
    requires i < |q|
    ensures Remnants(q[..i + 1], reaps, cleans) == Remnants(q[..i], reaps, cleans) + Remnant(q[i], reaps(i), cleans(i))
    ensures kept + q[i..] == kept + [q[i]] + q[i + 1..] && |Remnant(q[i], reaps(i), cleans(i))| <= 1
  {
    assert q[..i + 1][..i] == q[..i];
  }

  function EpochOf(current: Option<Launch>): set<nat> {
    if current.Some? then {current.value.revision.epoch} else {}
  }

  class CoreManager {
    const schema: Mihomo.Schema
    const serialize: Mapping -> Bytes
    const hash: Bytes -> string

    var current: Option<Launch>
    var lastSpec: Option<InstanceSpec>
    var quarantine: seq<QuarantinedEpoch>
    var epoch: nat
    var files: map<nat, Bytes>            // config-{epoch}.yaml
    var backups: map<(nat, nat), Bytes>   // config-{epoch}.yaml.backup-{generation}

    ghost var trace: seq<Event>
    ghost var view: View
    ghost var advances: seq<(Key, Key)>   // keys each successful apply went from and to

    /**
     The protocol invariant while an operation holds the epochs `loose` in local
     variables: the possibly live epochs are the current one, the unproven
     quarantined ones and the loose ones, all disjoint.
     */
    ghost predicate Core(loose: set<nat>)
      reads `current, `lastSpec, `quarantine, `epoch, `files, `trace, `view, `advances
    {
      && Safe(trace) && view == Run(trace)
      && view.current == (if current.Some? then Some(KeyOf(current.value.revision)) else None)
      && (current.Some? ==> view.last == view.current && lastSpec == Some(current.value.spec))
      && Distinct(quarantine) && view.held == Held(quarantine)
      && view.live == EpochOf(current) + Unproven(quarantine) + loose
      && EpochOf(current) !! view.held && loose !! view.held && loose !! EpochOf(current)
      && (forall e :: e in view.live || e in view.held ==> e <= epoch)
      && (view.last.Some? ==> view.last.value.epoch <= epoch)
      && (forall e :: e in files ==> e <= epoch)
      && Chain(advances, view.last)
    }

    /** The stable file of the current epoch holds its effective document, and the revision its hash. */
    ghost predicate Stored()
      reads `current, `files
    {
      current.Some? ==> Backed(current.value)
    }

    ghost predicate Backed(l: Launch)
      reads `files
    {
      && l.revision.epoch in files && files[l.revision.epoch] == serialize(l.effective)
      && l.revision.effectiveHash == hash(files[l.revision.epoch])
    }

    ghost predicate Valid()
      reads `current, `lastSpec, `quarantine, `epoch, `files, `trace, `view, `advances
    {
      Core({}) && Stored()
    }

    /** `build_configured` after a successful orphan sweep. */
    constructor (schema: Mihomo.Schema, serialize: Mapping -> Bytes, hash: Bytes -> string, maxEpoch: nat)
      requires Coherent(schema)
      ensures Valid() && current.None? && quarantine == [] && epoch == maxEpoch && trace == [] && advances == []
      ensures this.schema == schema && this.serialize == serialize && this.hash == hash
    {
      this.schema, this.serialize, this.hash := schema, serialize, hash;
      current, lastSpec, quarantine, epoch := None, None, [], maxEpoch;
      files, backups := map[], map[];
      trace, view, advances := [], START, [];
    }

    // ----- environment and store primitives ---------------------------------

    ghost method Emit(e: Event)
      requires Safe(trace) && view == Run(trace) && Allowed(view, e)
      modifies `trace, `view
      ensures trace == old(trace) + [e] && Safe(trace) && view == Run(trace)
      ensures view == Next(old(view), e)
    {
      var t := trace + [e];
      assert t[..|t| - 1] == trace;
      trace := t;
      view := Next(view, e);
    }

    method NextEpoch(ghost loose: set<nat>) returns (e: nat)
      requires Core(loose)
      modifies `epoch
      ensures Core(loose) && e == epoch == old(epoch) + 1
      ensures current.Some? ==> current.value.revision.epoch < e
      ensures e !in files && e !in view.live && (view.last.Some? ==> view.last.value.epoch < e)
      ensures loose == {} && quarantine == [] ==> Allowed(view, Spawned(e))
    {
      epoch := epoch + 1;
      e := epoch;
    }

    /** `spawn_instance` that succeeded: a process of this epoch may be alive. */
    method Spawn(ghost loose: set<nat>, e: nat)
      requires Core(loose) && quarantine == [] && e <= epoch && Allowed(view, Spawned(e))
      modifies `trace, `view
      ensures Core(loose + {e}) && view == Next(old(view), Spawned(e)) && trace == old(trace) + [Spawned(e)]
    {
      hide Held, Unproven, Distinct, Chain, Safe, Run;
      Emit(Spawned(e));
    }

    /** `stop_and_confirm_dead`: success is proof of death, failure proves nothing. */
    method StopAndConfirmDead(ghost loose: set<nat>, e: nat, stops: bool)
      requires Core(loose) && e in loose
      modifies `trace, `view
      ensures Core(if stops then loose - {e} else loose)
      ensures view == if stops then Next(old(view), ConfirmedDead(e)) else old(view)
      ensures trace == if stops then old(trace) + [ConfirmedDead(e)] else old(trace)
    {
      UnprovenAreHeld(quarantine);
      hide Held, Unproven, Distinct, Chain, Safe, Run;
      if stops { Emit(ConfirmedDead(e)); }
    }

    /** `ctrl.current.take()`. */
    method Take(ghost loose: set<nat>) returns (a: Launch)
      requires Core(loose) && current.Some?
      modifies `current, `trace, `view
      ensures current.None? && old(current) == Some(a)
      ensures Core(loose + {a.revision.epoch}) && view == Next(old(view), Vacated)
      ensures trace == old(trace) + [Vacated]
    {
      hide Held, Unproven, Distinct, Chain, Safe, Run;
      a := current.value;
      current := None;
      Emit(Vacated);
    }

    /** Take the current epoch out and stop it; it stays loose unless its death was proven. */
    method TakeAndStop(ghost loose: set<nat>, stops: bool) returns (a: Launch)
      requires Core(loose) && current.Some?
      modifies `current, `trace, `view
      ensures view.overlaps == old(view).overlaps
      ensures current.None? && old(current) == Some(a)
      ensures Core(if stops then loose else loose + {a.revision.epoch})
      ensures a.revision.epoch !in loose && a.revision.epoch <= epoch
      ensures view.last == old(view).last == Some(KeyOf(a.revision)) && old(trace) <= trace
      ensures stops ==> a.revision.epoch !in view.live
                        && trace == old(trace) + [Vacated, ConfirmedDead(a.revision.epoch)]
      ensures view.live <= old(view).live
    {
      CurrentIsLast(loose);
      hide Core, Safe, Run;
      a := Take(loose);
      var e := a.revision.epoch;
      assert loose + {e} - {e} == loose;
      StopAndConfirmDead(loose + {e}, e, stops);
    }

    /** `ctrl.last_spec = ..; ctrl.current = Some(..)`. */
    method Install(l: Launch)
      requires Core({l.revision.epoch}) && current.None? && quarantine == []
      requires view.last.Some? ==> AtMost(view.last.value, KeyOf(l.revision))
      modifies `current, `lastSpec, `trace, `view
      ensures Core({}) && current == Some(l) && view == Next(old(view), Installed(KeyOf(l.revision)))
      ensures trace == old(trace) + [Installed(KeyOf(l.revision))]
    {
      current := Some(l);
      lastSpec := Some(l.spec);
      Emit(Installed(KeyOf(l.revision)));
    }

    /** `latch_quarantine`. */
    method LatchQuarantine(ghost loose: set<nat>, e: nat, reason: string) returns (fault: Fault)
      requires Core(loose) && e in loose
      modifies `quarantine, `trace, `view
      ensures Core(loose - {e}) && fault == StopUnconfirmed
      ensures quarantine == old(quarantine) + [QuarantinedEpoch(e, reason, false)]
      ensures view == Next(old(view), Quarantined(e)) && old(trace) <= trace
    {
      RecordNew(quarantine, e, reason);
      hide Record, Held, Unproven, Distinct;
      quarantine := Record(quarantine, e, reason);
      Emit(Quarantined(e));
      fault := StopUnconfirmed;
    }

    /** `cleanup_epoch`: on failure any part of the epoch's artifacts may be gone. */
    method CleanupEpoch(ghost loose: set<nat>, e: nat, cleans: bool)
      requires Core(loose) && e !in view.live
      modifies `files, `backups, `trace, `view
      ensures Core(loose) && trace == if cleans then old(trace) + [Cleaned(e)] else old(trace)
      ensures view == if cleans then Next(old(view), Cleaned(e)) else old(view)
      ensures cleans ==> e !in files && forall g: nat :: (e, g) !in backups
      ensures forall l: Launch :: l.revision.epoch != e && old(Backed(l)) ==> Backed(l)
    {
      hide Held, Unproven, Distinct, Chain, Safe, Run;
      if cleans {
        files := files - {e};
        backups := map k | k in backups && k.0 != e :: backups[k];
        Emit(Cleaned(e));
      } else {
        var removed: bool := *;
        if removed { files := files - {e}; }
        var survivors: set<(nat, nat)> := *;
        backups := map k | k in backups && (k.0 != e || k in survivors) :: backups[k];
      }
    }

    /** `commit_new`: an error after the move leaves the file in place. */
    method CommitNew(ghost loose: set<nat>, e: nat, bytes: Bytes, write: Write)
      requires Core(loose) && e <= epoch && e !in files
      modifies `files
      ensures Core(loose)
      ensures files == if write.Written? || write.moved then old(files)[e := bytes] else old(files)
    {
      hide Held, Unproven, Distinct, Chain, Safe, Run;
      if write.Written? || write.moved { files := files[e := bytes]; }
    }

    /** `commit_replace`: atomic, so an error means nothing changed; there must be something to replace. */
    method CommitReplace(ghost loose: set<nat>, e: nat, bytes: Bytes, write: Write) returns (ok: bool)
      requires Core(loose)
      modifies `files
      ensures Core(loose) && (ok <==> write.Written? && e in old(files))
      ensures files == if ok then old(files)[e := bytes] else old(files)
    {
      ok := write.Written? && e in files;
      if ok { files := files[e := bytes]; }
    }

    /** `backup`: never over an older backup of the same generation. */
    method Backup(e: nat, g: nat, write: Write) returns (ok: bool)
      modifies `backups
      ensures ok <==> write.Written? && e in files && (e, g) !in old(backups)
      ensures ok ==> backups == old(backups)[(e, g) := files[e]]
      ensures !ok ==> backups == old(backups) || (e in files && backups == old(backups)[(e, g) := files[e]])
    {
      ok := write.Written? && e in files && (e, g) !in backups;
      if e in files && (e, g) !in backups && (write.Written? || write.moved) {
        backups := backups[(e, g) := files[e]];
      }
    }

    /** `restore`. */
    method Restore(ghost loose: set<nat>, e: nat, g: nat, write: Write) returns (ok: bool)
      requires Core(loose)
      modifies `files
      ensures Core(loose) && (ok <==> write.Written? && e in old(files) && (e, g) in backups)
      ensures files == if ok then old(files)[e := backups[(e, g)]] else old(files)
    {
      ok := false;
      if (e, g) in backups { ok := CommitReplace(loose, e, backups[(e, g)], write); }
    }

    method RemoveBackup(e: nat, g: nat, removes: bool)
      modifies `backups
      ensures backups == if removes then old(backups) - {(e, g)} else old(backups)
    {
      if removes { backups := backups - {(e, g)}; }
    }

    // ----- preparing and spawning -------------------------------------------

    ghost predicate LaunchOf(l: Launch, spec: InstanceSpec, e: nat, g: nat,
                             source: Mapping, endpoint: nat -> Option<string>)
    {
      && l.spec == spec && l.source == source && l.effective == Prepared(source, endpoint(e), false)
      && l.revision == Revision(e, g, hash(serialize(source)), hash(serialize(l.effective)))
    }

    function Derived(spec: InstanceSpec, e: nat, g: nat, source: Mapping, endpoint: nat -> Option<string>): (l: Launch)
      ensures LaunchOf(l, spec, e, g, source, endpoint)
    {
      var effective := Prepared(source, endpoint(e), false);
      Launch(spec, Revision(e, g, hash(serialize(source)), hash(serialize(effective))), source, effective)
    }

    /** `prepare_launch`: derive, check and commit the stable file of a fresh epoch. */
    method PrepareLaunch(ghost loose: set<nat>, spec: InstanceSpec, e: nat, source: Mapping,
                         endpoint: nat -> Option<string>, checks: bool, creates: Write)
      returns (l: Option<Launch>)
      requires Core(loose) && e <= epoch && e !in files
      modifies `files
      ensures Core(loose) && (l.Some? <==> checks && creates.Written?)
      ensures files.Keys <= old(files).Keys + {e}
      ensures forall o: Launch :: o.revision.epoch != e && old(Backed(o)) ==> Backed(o)
      ensures l.Some? ==> LaunchOf(l.value, spec, e, 1, source, endpoint) && Backed(l.value)
      ensures l.Some? ==> KeyOf(l.value.revision) == Key(e, 1)
    {
      if !checks { return None; }
      var launch := Derived(spec, e, 1, source, endpoint);
      CommitNew(loose, e, serialize(launch.effective), creates);
      l := if creates.Written? then Some(launch) else None;
    }

    /** `spawn_replacement`: spawn, wait for readiness, and stop a process that never gets ready. */
    method SpawnReplacement(e: nat, fate: Fate)
      requires Core({}) && current.None? && quarantine == [] && e <= epoch
      modifies `trace, `view
      ensures view.overlaps == old(view).overlaps
      ensures Core(if Gone(fate) then {} else {e}) && view.live <= {e}
      ensures view.last == old(view).last && old(trace) <= trace
    {
      if fate.NotSpawned? { return; }
      Spawn({}, e);
      assert {} + {e} == {e} && {e} - {e} == {};
      if fate.Rejected? { StopAndConfirmDead({e}, e, fate.dead); }
    }

    lemma IdleHasNoProcess()
      requires Core({}) && current.None? && quarantine == []
      ensures view.live == {} && view.held == {} && view.current.None?
    {
    }

    // ----- start --------------------------------------------------------------

    /** `start_prepared`: the fate of the process decides. */
    method StartPrepared(l: Launch, env: Env) returns (r: Result<(), Fault>)
      requires Core({}) && current.None? && quarantine == [] && l.revision.epoch <= epoch && Backed(l)
      requires view.last.Some? ==> view.last.value.epoch < l.revision.epoch
      modifies `current, `lastSpec, `quarantine, `files, `backups, `trace, `view
      ensures view.overlaps == old(view).overlaps
      ensures Valid() && old(trace) <= trace
      ensures env.fate.GotReady? ==>
                && r.Ok? && current == Some(l) && quarantine == [] && files == old(files)
                && trace == old(trace) + [Spawned(l.revision.epoch), Installed(KeyOf(l.revision))]
      ensures Gone(env.fate) ==> r == Err(Failed) && current.None? && quarantine == []
      ensures Gone(env.fate) && env.cleansNew ==> l.revision.epoch !in files
      ensures env.fate == Rejected(false) ==>
                && r == Err(StopUnconfirmed) && current.None?
                && quarantine == [QuarantinedEpoch(l.revision.epoch, "rejected initial instance", false)]
      ensures current.None? ==> lastSpec == old(lastSpec)
    {
      hide Core;
      var e := l.revision.epoch;
      IdleHasNoProcess();
      if env.fate.NotSpawned? {
        CleanupEpoch({}, e, env.cleansNew);
        return Err(Failed);
      }
      Spawn({}, e);
      assert {} + {e} == {e} && {e} - {e} == {};
      if env.fate.Rejected? {
        StopAndConfirmDead({e}, e, env.fate.dead);
        if env.fate.dead {
          CleanupEpoch({}, e, env.cleansNew);
          return Err(Failed);
        }
        var fault := LatchQuarantine({e}, e, "rejected initial instance");
        return Err(fault);
      }
      Install(l);
      r := Ok(());
    }

    /** `start_locked`: a fresh epoch, a loaded snapshot, a launch. */
    method StartLocked(spec: InstanceSpec, loaded: Option<Mapping>, endpoint: nat -> Option<string>, env: Env)
      returns (r: Result<(), Fault>)
      requires Core({}) && current.None? && quarantine == []
      modifies `current, `lastSpec, `quarantine, `epoch, `files, `backups, `trace, `view
      ensures view.overlaps == old(view).overlaps
      ensures Valid() && old(trace) <= trace && epoch == old(epoch) + 1
      ensures r.Ok? <==> loaded.Some? && env.launchable && env.checks && env.creates.Written? && env.fate.GotReady?
      ensures r.Ok? ==> current.Some? && quarantine == []
                        && LaunchOf(current.value, spec, epoch, 1, loaded.value, endpoint)
      ensures r.Ok? ==> files.Keys <= old(files).Keys + {epoch}
      ensures r.Err? ==> current.None? && lastSpec == old(lastSpec)
      ensures r.Err? ==> r == Err(if quarantine != [] then StopUnconfirmed else Failed)
      ensures r == Err(Failed) && env.cleansNew ==> epoch !in files
      ensures quarantine ==
              if loaded.Some? && env.launchable && env.checks && env.creates.Written? && env.fate == Rejected(false)
              then [QuarantinedEpoch(epoch, "rejected initial instance", false)] else []
    {
      hide Core, LaunchOf, Safe, Run;
      var e := NextEpoch({});
      if loaded.None? { return Err(Failed); }
      var l := PrepareLaunch({}, spec, e, loaded.value, endpoint, env.launchable && env.checks, env.creates);
      if l.None? {
        CleanupEpoch({}, e, env.cleansNew);
        return Err(Failed);
      }
      r := StartPrepared(l.value, env);
    }

    /** The gate every launching operation passes first. */
    function QuarantineFault(): Option<Fault>
      reads this
    {
      if quarantine == [] then None else Some(ManagerQuarantined(quarantine[0].epoch))
    }

    /** Nothing of the control state or the runtime directory moved. */
    twostate predicate Untouched()
      reads this
    {
      && current == old(current) && lastSpec == old(lastSpec) && quarantine == old(quarantine)
      && epoch == old(epoch) && files == old(files) && trace == old(trace)
    }

    /** Retire a terminal leftover: prove it dead, then clean it. */
    method RetireStale(env: Env) returns (fault: Option<Fault>)
      requires Valid() && quarantine == []
      modifies `current, `quarantine, `files, `backups, `trace, `view
      ensures view.overlaps == old(view).overlaps
      ensures Valid() && current.None? && old(trace) <= trace
      ensures fault == if old(current).None? then None
                       else if !env.stopsOld then Some(StopUnconfirmed)
                       else if !env.cleansOld then Some(Failed) else None
      ensures quarantine == if old(current).Some? && !env.stopsOld
                            then [QuarantinedEpoch(old(current).value.revision.epoch, "stale epoch", false)] else []
      ensures fault.None? && old(current).Some? ==> old(current).value.revision.epoch !in files
      ensures epoch == old(epoch) && (old(current).Some? ==> old(current).value.revision.epoch <= epoch)
    {
      hide Core;
      fault := None;
      if current.Some? {
        var stale := TakeAndStop({}, env.stopsOld);
        var e := stale.revision.epoch;
        assert {} + {e} == {e} && {e} - {e} == {};
        if !env.stopsOld {
          var f := LatchQuarantine({e}, e, "stale epoch");
          return Some(f);
        }
        CleanupEpoch({}, e, env.cleansOld);
        if !env.cleansOld { fault := Some(Failed); }
      }
    }

    /** `start`: refused under quarantine and while a core is running. */
    method Start(spec: InstanceSpec, loaded: Option<Mapping>, endpoint: nat -> Option<string>, env: Env)
      returns (r: Result<(), Fault>)
      requires Valid()
      modifies `current, `lastSpec, `quarantine, `epoch, `files, `backups, `trace, `view
      ensures view.overlaps == old(view).overlaps
      ensures Valid() && old(trace) <= trace
      ensures old(quarantine) != [] ==> r == Err(ManagerQuarantined(old(quarantine)[0].epoch)) && Untouched()
      ensures old(quarantine) == [] && old(current).Some? && !env.terminal ==> r == Err(AlreadyRunning) && Untouched()
      ensures r.Ok? <==>
                && old(quarantine) == []
                && (old(current).None? || (env.terminal && env.stopsOld && env.cleansOld))
                && loaded.Some? && env.launchable && env.checks && env.creates.Written? && env.fate.GotReady?
      ensures r.Ok? ==> current.Some? && epoch > old(epoch) && quarantine == []
                        && LaunchOf(current.value, spec, epoch, 1, loaded.value, endpoint)
      ensures r.Ok? && old(current).Some? ==> old(current).value.revision.epoch !in files
      ensures r.Err? ==> current == old(current) || current.None?
      ensures r.Err? ==> lastSpec == old(lastSpec)
      ensures r == Err(Failed) && epoch > old(epoch) && env.cleansNew ==> epoch !in files
      ensures old(quarantine) == [] ==>
                && (quarantine != [] <==> r == Err(StopUnconfirmed))
                && (quarantine != [] <==>
                      || (old(current).Some? && env.terminal && !env.stopsOld)
                      || ((old(current).None? || (env.terminal && env.stopsOld && env.cleansOld))
                          && loaded.Some? && env.launchable && env.checks && env.creates.Written?
                          && env.fate == Rejected(false)))
    {
      hide Core, LaunchOf, Safe, Run;
      var gate := QuarantineFault();
      if gate.Some? { return Err(gate.value); }
      if current.Some? && !env.terminal { return Err(AlreadyRunning); }
      var fault := RetireStale(env);
      if fault.Some? { return Err(fault.value); }
      r := StartLocked(spec, loaded, endpoint, env);
    }

    // ----- stop, shutdown, recover --------------------------------------------

    /** `stop`; `shutdown` takes the same steps and differs only in its answer. */
    method Stop(env: Env) returns (r: Result<(), Fault>)
      requires Valid()
      modifies `current, `quarantine, `files, `backups, `trace, `view
      ensures view.overlaps == old(view).overlaps
      ensures Valid() && current.None? && old(trace) <= trace
      ensures r == if old(current).None? then Err(NotStarted)
                   else if !env.stopsOld then Err(StopUnconfirmed)
                   else if !env.cleansOld then Err(Failed)
                   else if env.terminal then Err(NotStarted) else Ok(())
      ensures old(current).None? ==> quarantine == old(quarantine) && trace == old(trace) && files == old(files)
      ensures old(current).Some? ==>
                var o := old(current).value.revision.epoch;
                if !env.stopsOld then
                  quarantine == old(quarantine) + [QuarantinedEpoch(o, "stop unconfirmed", false)]
                else quarantine == old(quarantine) && o !in view.live && (env.cleansOld ==> o !in files)
    {
      hide Core;
      if current.None? { return Err(NotStarted); }
      var active := TakeAndStop({}, env.stopsOld);
      var e := active.revision.epoch;
      assert {} + {e} == {e} && {e} - {e} == {};
      if !env.stopsOld {
        var fault := LatchQuarantine({e}, e, "stop unconfirmed");
        return Err(fault);
      }
      CleanupEpoch({}, e, env.cleansOld);
      if !env.cleansOld { return Err(Failed); }
      r := if env.terminal then Err(NotStarted) else Ok(());
    }

    method Shutdown(env: Env) returns (r: Result<(), Fault>)
      requires Valid()
      modifies `current, `quarantine, `files, `backups, `trace, `view
      ensures view.overlaps == old(view).overlaps
      ensures Valid() && current.None? && old(trace) <= trace
      ensures r == if old(current).None? then Ok(())
                   else if !env.stopsOld then Err(StopUnconfirmed)
                   else if !env.cleansOld then Err(Failed) else Ok(())
      ensures old(current).None? ==> quarantine == old(quarantine) && trace == old(trace) && files == old(files)
      ensures old(current).Some? ==>
                var o := old(current).value.revision.epoch;
                if !env.stopsOld then
                  quarantine == old(quarantine) + [QuarantinedEpoch(o, "stop unconfirmed", false)]
                else quarantine == old(quarantine) && o !in view.live && (env.cleansOld ==> o !in files)
    {
      hide Core;
      if current.None? { return Ok(()); }
      r := Stop(env);
      if r == Err(NotStarted) { r := Ok(()); }
    }

    /** The reaper proved the process of a quarantined epoch dead. */
    method MarkDead(e: nat, ghost a: seq<QuarantinedEpoch>, ghost x: QuarantinedEpoch, ghost b: seq<QuarantinedEpoch>)
      requires Core({}) && quarantine == a + [x] + b && x.epoch == e && !x.deathProven
      modifies `quarantine, `trace, `view
      ensures Core({}) && quarantine == a + [x.(deathProven := true)] + b && old(trace) <= trace
      ensures view == Next(old(view), ConfirmedDead(e))
    {
      MarkOne(a, x, b);
      assert x in quarantine;
      assert e in Unproven(quarantine);
      quarantine := MarkProven(quarantine, e);
      Emit(ConfirmedDead(e));
    }

    /** A proven and cleaned entry leaves the list. */
    method Release(e: nat, ghost a: seq<QuarantinedEpoch>, ghost x: QuarantinedEpoch, ghost b: seq<QuarantinedEpoch>)
      requires Core({}) && quarantine == a + [x] + b && x.epoch == e && e !in view.live && e in view.clean
      modifies `quarantine, `trace, `view
      ensures view.overlaps == old(view).overlaps
      ensures Core({}) && quarantine == a + b && old(trace) <= trace
    {
      WithoutOne(a, x, b);
      WithoutOneSets(a, x, b);
      assert x in quarantine;
      assert !x.deathProven ==> e in Unproven(quarantine);
      quarantine := Without(quarantine, e);
      Emit(Released(e));
    }

    /** One entry of `recover_quarantine`: proven dead and cleaned, or it stays. */
    method RecoverEntry(entry: QuarantinedEpoch, reap: Reap, cleans: bool,
                        ghost kept: seq<QuarantinedEpoch>, ghost rest: seq<QuarantinedEpoch>)
      returns (cleared: bool)
      requires Valid() && quarantine == kept + [entry] + rest
      modifies `quarantine, `files, `backups, `trace, `view
      ensures view.overlaps == old(view).overlaps
      ensures Valid() && old(trace) <= trace
      ensures quarantine == kept + Remnant(entry, reap, cleans) + rest
      ensures cleared <==> Remnant(entry, reap, cleans) == []
    {
      hide Core;
      var proven := entry.deathProven;
      if !proven && (reap == AlreadyExited || reap == Killed) {
        MarkDead(entry.epoch, kept, entry, rest);
        proven := true;
      }
      if !proven { return false; }
      ghost var marked := entry.(deathProven := true);
      assert quarantine == kept + [marked] + rest;
      ProvenIsNotLive(kept, marked, rest);
      CleanupEpoch({}, entry.epoch, cleans);
      if cleans { Release(entry.epoch, kept, marked, rest); }
      assert kept + [] == kept;
      cleared := cleans;
    }

    /** `recover_quarantine`: succeeds exactly when every entry was proven dead and cleaned; the others stay. */
    method RecoverQuarantine(reaps: nat -> Reap, cleans: nat -> bool) returns (r: Result<(), Fault>)
      requires Valid()
      modifies `quarantine, `files, `backups, `trace, `view
      ensures view.overlaps == old(view).overlaps
      ensures Valid() && old(trace) <= trace
      ensures quarantine == Remnants(old(quarantine), reaps, cleans)
      ensures r.Ok? <==> quarantine == []
      ensures r.Ok? <==> forall i :: 0 <= i < |old(quarantine)| ==>
                           && (old(quarantine)[i].deathProven || reaps(i) == AlreadyExited || reaps(i) == Killed)
                           && cleans(i)
    {
      hide Valid, Remnants;
      var failures := RecoverEach(reaps, cleans);
      AllRecovered(old(quarantine), reaps, cleans);
      r := if failures == 0 then Ok(()) else Err(ManagerQuarantined(quarantine[0].epoch));
    }

    /** The loop over the entries; each failure leaves one. */
    method RecoverEach(reaps: nat -> Reap, cleans: nat -> bool) returns (failures: nat)
      requires Valid()
      modifies `quarantine, `files, `backups, `trace, `view
      ensures view.overlaps == old(view).overlaps
      ensures Valid() && old(trace) <= trace
      ensures quarantine == Remnants(old(quarantine), reaps, cleans) && failures == |quarantine|
    {
      hide Valid, Core, Held, Safe, Run, Remnants, Remnant;
      var entries := quarantine;
      failures := 0;
      ghost var kept, rest := Remnants(entries[..0], reaps, cleans), entries[0..];
      NoRemnants(entries, reaps, cleans);
      for i := 0 to |entries|
        invariant Valid() && old(trace) <= trace && view.overlaps == old(view).overlaps
        invariant quarantine == kept + rest && rest == entries[i..] && kept == Remnants(entries[..i], reaps, cleans)
        invariant failures == |kept|
      {
        NextRemnant(entries, reaps, cleans, i, kept);
        rest := entries[i + 1..];
        var cleared := RecoverEntry(entries[i], reaps(i), cleans(i), kept, rest);
        kept := kept + Remnant(entries[i], reaps(i), cleans(i));
        if !cleared { failures := failures + 1; }
      }
      NoneLeft(entries, kept);
    }

    lemma ProvenIsNotLive(a: seq<QuarantinedEpoch>, x: QuarantinedEpoch, b: seq<QuarantinedEpoch>)
      requires Core({}) && quarantine == a + [x] + b && x.deathProven
      ensures x.epoch !in view.live && (current.Some? ==> current.value.revision.epoch != x.epoch)
    {
      assert quarantine[|a|] == x;
      assert x in quarantine;
      assert forall i :: 0 <= i < |quarantine| && i != |a| ==> quarantine[i].epoch != quarantine[|a|].epoch;
    }

    // ----- switch ---------------------------------------------------------------

    /** The middle of `hard_switch`: stop and clean the old epoch, or unwind the prepared one. */
    method RetireFor(e: nat, env: Env) returns (fault: Option<Fault>)
      requires Core({}) && current.Some? && quarantine == [] && current.value.revision.epoch != e && e !in view.live
      modifies `current, `quarantine, `files, `backups, `trace, `view
      ensures Valid() && current.None? && old(trace) <= trace && view.last == old(view).last
      ensures fault == if !env.stopsOld then Some(StopUnconfirmed) else if !env.cleansOld then Some(Failed) else None
      ensures var o := old(current).value.revision.epoch;
              quarantine == if !env.stopsOld then [QuarantinedEpoch(o, "switched-out epoch", false)] else []
      ensures !env.stopsOld && env.cleansNew ==> e !in files
      ensures fault.None? ==> forall l: Launch :: l.revision.epoch == e && old(Backed(l)) ==> Backed(l)
      ensures fault.None? ==>
                var o := old(current).value.revision.epoch;
                o !in files && trace == old(trace) + [Vacated, ConfirmedDead(o), Cleaned(o)]
    {
      hide Core, Safe, Run;
      var prior := TakeAndStop({}, env.stopsOld);
      var oldEpoch := prior.revision.epoch;
      assert {} + {oldEpoch} == {oldEpoch} && {oldEpoch} - {oldEpoch} == {};
      if !env.stopsOld {
        CleanupEpoch({oldEpoch}, e, env.cleansNew);
        var f := LatchQuarantine({oldEpoch}, oldEpoch, "switched-out epoch");
        return Some(f);
      }
      CleanupEpoch({}, oldEpoch, env.cleansOld);
      fault := if env.cleansOld then None else Some(Failed);
    }

    /** A hard switch leaves a process unproven: the old one, or the new one that never got ready. */
    static predicate HardLoses(env: Env) { !env.stopsOld || (env.cleansOld && env.fate == Rejected(false)) }

    /** A hard switch drops the epoch it prepared; one that cannot clean up the old epoch leaves it behind. */
    static predicate HardDrops(env: Env) {
      !(env.checks && env.creates.Written?) || !env.stopsOld || (env.cleansOld && Gone(env.fate))
    }

    /** `hard_switch`: prepare the new epoch, retire the old one, start the new one. */
    method HardSwitch(spec: InstanceSpec, source: Mapping, endpoint: nat -> Option<string>, env: Env)
      returns (r: Result<(), Fault>)
      requires Valid() && current.Some? && quarantine == []
      modifies `current, `lastSpec, `quarantine, `epoch, `files, `backups, `trace, `view
      ensures Valid() && old(trace) <= trace && epoch == old(epoch) + 1
      ensures r.Ok? <==> env.checks && env.creates.Written? && env.stopsOld && env.cleansOld && env.fate.GotReady?
      ensures r.Ok? ==> current.Some? && LaunchOf(current.value, spec, epoch, 1, source, endpoint)
      ensures r.Ok? ==>
                var o := old(current).value.revision.epoch;
                o !in files
                && trace == old(trace) + [Vacated, ConfirmedDead(o), Cleaned(o),
                                          Spawned(epoch), Installed(Key(epoch, 1))]
      ensures r.Err? ==> current == if env.checks && env.creates.Written? then None else old(current)
      ensures r.Err? ==> lastSpec == old(lastSpec)
      ensures r.Err? ==> r == Err(if quarantine != [] then StopUnconfirmed else Failed)
      ensures quarantine != [] <==> env.checks && env.creates.Written? && HardLoses(env)
      ensures env.cleansNew && HardDrops(env) ==> epoch !in files
    {
      hide Core, LaunchOf, Safe, Run;
      var e := NextEpoch({});
      var l := PrepareLaunch({}, spec, e, source, endpoint, env.checks, env.creates);
      if l.None? {
        CleanupEpoch({}, e, env.cleansNew);
        return Err(Failed);
      }
      r := RetireAndStart(l.value, env);
    }

    /** Stop and clean the old epoch, then start the prepared one. */
    method RetireAndStart(l: Launch, env: Env) returns (r: Result<(), Fault>)
      requires Valid() && current.Some? && quarantine == [] && Backed(l) && l.revision.epoch == epoch
      requires current.value.revision.epoch != epoch && epoch !in view.live
      requires view.last.Some? ==> view.last.value.epoch < epoch
      modifies `current, `lastSpec, `quarantine, `files, `backups, `trace, `view
      ensures Valid() && old(trace) <= trace
      ensures r.Ok? <==> env.stopsOld && env.cleansOld && env.fate.GotReady?
      ensures current == if r.Ok? then Some(l) else None
      ensures r.Ok? ==>
                var o := old(current).value.revision.epoch;
                o !in files
                && trace == old(trace) + [Vacated, ConfirmedDead(o), Cleaned(o),
                                          Spawned(epoch), Installed(KeyOf(l.revision))]
      ensures r.Err? ==> lastSpec == old(lastSpec)
      ensures r.Err? ==> r == Err(if quarantine != [] then StopUnconfirmed else Failed)
      ensures quarantine != [] <==> HardLoses(env)
      ensures env.cleansNew && (!env.stopsOld || (env.cleansOld && Gone(env.fate))) ==> epoch !in files
    {
      hide Core, Safe, Run;
      var fault := RetireFor(epoch, env);
      if fault.Some? { return Err(fault.value); }
      r := StartPrepared(l, env);
    }

    /** The bootstrap and the full document differ by a patch, or not at all. */
    predicate Restorable(source: Mapping, endpoint: Option<string>) {
      RestorationPatch(schema, Prepared(source, endpoint, true), Prepared(source, endpoint, false)).Ok?
    }

    /** `prepare_graceful`: both documents derived, the zero-inbound one committed. */
    method PrepareGraceful(spec: InstanceSpec, e: nat, source: Mapping, endpoint: nat -> Option<string>,
                           checks: bool, creates: Write)
      returns (l: Option<Launch>, restoration: Restoration)
      requires Core({}) && e <= epoch && e !in files && Coherent(schema)
      modifies `files
      ensures Core({})
      ensures l.Some? <==> Restorable(source, endpoint(e)) && checks && creates.Written?
      ensures forall o: Launch :: o.revision.epoch != e && old(Backed(o)) ==> Backed(o)
      ensures l.Some? ==> LaunchOf(l.value, spec, e, 1, source, endpoint) && KeyOf(l.value.revision) == Key(e, 1)
      ensures l.Some? ==> e in files && files[e] == serialize(Prepared(source, endpoint(e), true))
      ensures l.Some? ==>
                RestorationPatch(schema, Prepared(source, endpoint(e), true), l.value.effective) == Ok(restoration)
      ensures l.Some? && restoration.Some? ==> Projects(restoration.value.0, restoration.value.1, l.value.effective)
      ensures l.Some? ==> l.value.revision.effectiveHash == hash(serialize(l.value.effective))
    {
      var bootstrap := Prepared(source, endpoint(e), true);
      var launch := Derived(spec, e, 1, source, endpoint);
      SameController(source, endpoint(e));
      RestorationConfirms(schema, source, endpoint(e));
      hide Prepared, RestorationPatch, Controller, Mihomo.Leaves, Mihomo.Verify, Coherent;
      if Controller(source, endpoint(e), false) != Controller(source, endpoint(e), true) { return None, None; }
      var patch := RestorationPatch(schema, bootstrap, launch.effective);
      if patch.Err? || !checks { return None, None; }
      restoration := patch.value;
      CommitNew({}, e, serialize(bootstrap), creates);
      l := if creates.Written? then Some(launch) else None;
    }

    /**
     `patch_and_verify`: the request may fail or its answer may be lost; what counts
     is that in time the core's own document passes the projection and it is healthy.
     */
    method PatchAndVerify(ghost patch: Mapping, expected: seq<Mihomo.Leaf>, reply: Reply, ghost doc: Mapping)
      returns (ok: bool)
      requires Projects(patch, expected, doc)
      ensures ok <==> reply.timely && reply.healthy && reply.document.Some?
                      && Mihomo.Verify(expected, reply.document.value)
      ensures ok ==> Confirmed(patch, expected, reply, doc)
    {
      ok := reply.timely && reply.document.Some? && Mihomo.Verify(expected, reply.document.value) && reply.healthy;
      if ok { VerifiedIsConfirmed(patch, expected, reply, doc); }
    }

    /** The old epoch of a graceful switch did not stop: unwind the bootstrap too. */
    method AbandonOverlap(oldEpoch: nat, e: nat, env: Env) returns (fault: Fault)
      requires Core({oldEpoch, e}) && oldEpoch != e && current.None? && quarantine == []
      modifies `quarantine, `files, `backups, `trace, `view
      ensures Valid() && current.None? && old(trace) <= trace && fault == StopUnconfirmed
      ensures quarantine == [QuarantinedEpoch(oldEpoch, "old epoch of a graceful switch", false)]
                            + if env.stopsNew then [] else [QuarantinedEpoch(e, "graceful bootstrap", false)]
      ensures env.stopsNew && env.cleansNew ==> e !in files
    {
      hide Core;
      var loose := {oldEpoch, e};
      StopAndConfirmDead(loose, e, env.stopsNew);
      if env.stopsNew {
        assert loose - {e} == {oldEpoch} && {oldEpoch} - {oldEpoch} == {};
        CleanupEpoch({oldEpoch}, e, env.cleansNew);
        fault := LatchQuarantine({oldEpoch}, oldEpoch, "old epoch of a graceful switch");
      } else {
        assert loose - {oldEpoch} == {e} && {e} - {e} == {};
        var _ := LatchQuarantine(loose, oldEpoch, "old epoch of a graceful switch");
        fault := LatchQuarantine({e}, e, "graceful bootstrap");
      }
    }

    /** The core reports that the restoration took: in time, healthy, and past the projection if there is one. */
    static predicate Restores(restoration: Restoration, reply: Reply) {
      && reply.timely && reply.healthy
      && (restoration.Some? ==>
            reply.document.Some? && Mihomo.Verify(restoration.value.1, reply.document.value))
    }

    /** After the old process stopped, the bootstrap cannot be stopped where it must, or its replacement. */
    static predicate HandOverLoses(env: Env, restored: bool) {
      if env.commits.Written? then !restored && (!env.stopsNew || env.again == Rejected(false)) else !env.stopsNew
    }

    /** The second half of `graceful_switch`, with only the bootstrap process left. */
    method FinishGraceful(l: Launch, restoration: Restoration, oldEpoch: nat, env: Env)
      returns (r: Result<SwitchOutcome, Fault>)
      requires Core({l.revision.epoch}) && current.None? && quarantine == [] && l.revision.epoch in files
      requires l.revision.epoch <= epoch && oldEpoch != l.revision.epoch && oldEpoch !in view.live
      requires l.revision.effectiveHash == hash(serialize(l.effective))
      requires view.last.Some? ==> AtMost(view.last.value, KeyOf(l.revision))
      requires restoration.Some? ==> Projects(restoration.value.0, restoration.value.1, l.effective)
      modifies `current, `lastSpec, `quarantine, `files, `backups, `trace, `view
      ensures Valid() && old(trace) <= trace
      ensures var installed := env.commits.Written?
                               && (Restores(restoration, env.reply) || (env.stopsNew && env.again.GotReady?));
              && current == (if installed then Some(l) else None) && (r.Ok? <==> installed && env.cleansOld)
      ensures r.Ok? ==> oldEpoch !in files
      ensures r.Ok? ==>
                SettledSwitch(r.value) == if Restores(restoration, env.reply) then Graceful else Hard(PatchFailed)
      ensures r.Ok? && Restores(restoration, env.reply) ==> Restored(restoration, env.reply, l.effective)
      ensures current.None? ==> lastSpec == old(lastSpec)
      ensures SwitchWarned(r) == if env.commits == Written(true) then 1 else 0
      ensures r.Err? ==> Cause(r.error) == if quarantine != [] then StopUnconfirmed else Failed
      ensures quarantine != [] <==> HandOverLoses(env, Restores(restoration, env.reply))
      ensures current.None? && quarantine == [] && env.cleansNew ==> l.revision.epoch !in files
    {
      hide Core, Safe, Run, Confirmed, Projects, Restores, Restored;
      var e := l.revision.epoch;
      var committed := CommitReplace({e}, e, serialize(l.effective), env.commits);
      if !committed {
        var fault := AbandonBootstrap(e, env);
        return Err(fault);
      }
      var restored := RestoreListeners(restoration, env.reply, l.effective);
      var settled: Result<SwitchOutcome, Fault>;
      if restored { settled := InstallGraceful(l, oldEpoch, env); } else { settled := RelaunchFull(l, oldEpoch, env); }
      r := WithSwitchDurability(settled, env.commits.uncertain);
    }

    /** The bootstrap takes its listeners back by a verified patch, or had none to take. */
    method RestoreListeners(restoration: Restoration, reply: Reply, ghost doc: Mapping) returns (ok: bool)
      requires restoration.Some? ==> Projects(restoration.value.0, restoration.value.1, doc)
      ensures ok <==> Restores(restoration, reply)
      ensures ok ==> Restored(restoration, reply, doc)
    {
      hide Confirmed, Projects;
      ok := reply.timely && reply.healthy;
      if restoration.Some? { ok := PatchAndVerify(restoration.value.0, restoration.value.1, reply, doc); }
    }

    /** The bootstrap runs the full document: install it, and clean up the epoch it replaced. */
    method InstallGraceful(l: Launch, oldEpoch: nat, env: Env) returns (r: Result<SwitchOutcome, Fault>)
      requires Core({l.revision.epoch}) && current.None? && quarantine == [] && Backed(l)
      requires oldEpoch != l.revision.epoch && oldEpoch !in view.live
      requires view.last.Some? ==> AtMost(view.last.value, KeyOf(l.revision))
      modifies `current, `lastSpec, `files, `backups, `trace, `view
      ensures Valid() && old(trace) <= trace && current == Some(l)
      ensures r == if env.cleansOld then Ok(Graceful) else Err(Failed)
      ensures r.Ok? ==> oldEpoch !in files
    {
      hide Core, Safe, Run;
      Install(l);
      CleanupEpoch({}, oldEpoch, env.cleansOld);
      r := if env.cleansOld then Ok(Graceful) else Err(Failed);
    }

    /** The full document could not be committed: stop the bootstrap and clean it, or quarantine it. */
    method AbandonBootstrap(e: nat, env: Env) returns (fault: Fault)
      requires Core({e}) && current.None? && quarantine == []
      modifies `quarantine, `files, `backups, `trace, `view
      ensures Valid() && old(trace) <= trace && view.overlaps == old(view).overlaps
      ensures fault == if env.stopsNew then Failed else StopUnconfirmed
      ensures quarantine == if env.stopsNew then [] else [QuarantinedEpoch(e, "full runtime commit failed", false)]
      ensures env.stopsNew && env.cleansNew ==> e !in files
    {
      hide Core, Safe, Run;
      assert {e} - {e} == {};
      StopAndConfirmDead({e}, e, env.stopsNew);
      if env.stopsNew {
        CleanupEpoch({}, e, env.cleansNew);
        return Failed;
      }
      fault := LatchQuarantine({e}, e, "full runtime commit failed");
    }

    /** The fallback of `graceful_switch`: restart the same epoch from its committed full document. */
    method RelaunchFull(l: Launch, oldEpoch: nat, env: Env) returns (r: Result<SwitchOutcome, Fault>)
      requires Core({l.revision.epoch}) && current.None? && quarantine == [] && Backed(l)
      requires l.revision.epoch <= epoch && oldEpoch != l.revision.epoch && oldEpoch !in view.live
      requires view.last.Some? ==> AtMost(view.last.value, KeyOf(l.revision))
      modifies `current, `lastSpec, `quarantine, `files, `backups, `trace, `view
      ensures Valid() && old(trace) <= trace
      ensures current == if env.stopsNew && env.again.GotReady? then Some(l) else None
      ensures r == if !env.stopsNew || env.again == Rejected(false) then Err(StopUnconfirmed)
                   else if env.again.GotReady? && env.cleansOld then Ok(Hard(PatchFailed)) else Err(Failed)
      ensures quarantine != [] <==> r == Err(StopUnconfirmed)
      ensures current.None? && quarantine == [] && env.cleansNew ==> l.revision.epoch !in files
      ensures r.Ok? ==> oldEpoch !in files
      ensures current.None? ==> lastSpec == old(lastSpec)
    {
      hide Core, Safe, Run;
      var e := l.revision.epoch;
      assert {e} - {e} == {};
      StopAndConfirmDead({e}, e, env.stopsNew);
      if !env.stopsNew {
        var fault := LatchQuarantine({e}, e, "bootstrap stop unconfirmed");
        return Err(fault);
      }
      SpawnReplacement(e, env.again);
      if env.again.GotReady? {
        var installed := InstallGraceful(l, oldEpoch, env);
        return if installed.Ok? then Ok(Hard(PatchFailed)) else installed;
      }
      if env.again == Rejected(false) {
        var fault := LatchQuarantine({e}, e, "replacement stop unconfirmed");
        return Err(fault);
      }
      IdleHasNoProcess();
      CleanupEpoch({}, e, env.cleansNew);
      r := Err(Failed);
    }

    /** Spawn the bootstrap beside the live current epoch, or unwind it. */
    method StartBootstrap(e: nat, env: Env) returns (fault: Option<Fault>)
      requires Valid() && current.Some? && quarantine == [] && e <= epoch && e in files
      requires Allowed(view, Spawned(e)) && current.value.revision.epoch != e
      modifies `quarantine, `files, `backups, `trace, `view
      ensures Stored() && old(trace) <= trace && view.last == old(view).last
      ensures fault == if env.fate.GotReady? then None
                       else if env.fate == Rejected(false) then Some(StopUnconfirmed) else Some(Failed)
      ensures Core(if env.fate.GotReady? then {e} else {}) && (env.fate.GotReady? ==> files == old(files))
      ensures quarantine == if env.fate == Rejected(false)
                            then [QuarantinedEpoch(e, "rejected graceful bootstrap", false)] else []
      ensures Gone(env.fate) && env.cleansNew ==> e !in files
    {
      hide Core, Safe, Run;
      if env.fate.NotSpawned? {
        CleanupEpoch({}, e, env.cleansNew);
        return Some(Failed);
      }
      Spawn({}, e);
      assert {} + {e} == {e} && {e} - {e} == {};
      if env.fate.GotReady? { return None; }
      StopAndConfirmDead({e}, e, env.fate.dead);
      if env.fate.dead {
        CleanupEpoch({}, e, env.cleansNew);
        return Some(Failed);
      }
      var f := LatchQuarantine({e}, e, "rejected graceful bootstrap");
      fault := Some(f);
    }

    /** Take the old epoch out of service and finish, or unwind both. */
    method HandOver(l: Launch, restoration: Restoration, env: Env) returns (r: Result<SwitchOutcome, Fault>)
      requires Core({l.revision.epoch}) && current.Some? && quarantine == [] && l.revision.epoch in files
      requires l.revision.epoch <= epoch && current.value.revision.epoch != l.revision.epoch
      requires l.revision.effectiveHash == hash(serialize(l.effective))
      requires view.last.Some? ==> AtMost(view.last.value, KeyOf(l.revision))
      requires restoration.Some? ==> Projects(restoration.value.0, restoration.value.1, l.effective)
      modifies `current, `lastSpec, `quarantine, `files, `backups, `trace, `view
      ensures Valid() && old(trace) <= trace
      ensures var installed := env.stopsOld && env.commits.Written?
                               && (Restores(restoration, env.reply) || (env.stopsNew && env.again.GotReady?));
              && current == (if installed then Some(l) else None) && (r.Ok? <==> installed && env.cleansOld)
      ensures r.Ok? ==> old(current).value.revision.epoch !in files
      ensures r.Ok? ==>
                SettledSwitch(r.value) == if Restores(restoration, env.reply) then Graceful else Hard(PatchFailed)
      ensures r.Ok? && Restores(restoration, env.reply) ==> Restored(restoration, env.reply, l.effective)
      ensures current.None? ==> lastSpec == old(lastSpec)
      ensures SwitchWarned(r) == if env.stopsOld && env.commits == Written(true) then 1 else 0
      ensures r.Err? ==> Cause(r.error) == if quarantine != [] then StopUnconfirmed else Failed
      ensures quarantine != [] <==> !env.stopsOld || HandOverLoses(env, Restores(restoration, env.reply))
      ensures env.cleansNew && current.None? && (if env.stopsOld then quarantine == [] else env.stopsNew) ==>
                l.revision.epoch !in files
    {
      hide Core, Safe, Run, Confirmed, Projects, Restores, HandOverLoses, Restored;
      var e := l.revision.epoch;
      var prior := TakeAndStop({e}, env.stopsOld);
      var oldEpoch := prior.revision.epoch;
      assert {e} + {oldEpoch} == {oldEpoch, e};
      if !env.stopsOld {
        var fault := AbandonOverlap(oldEpoch, e, env);
        return Err(fault);
      }
      r := FinishGraceful(l, restoration, oldEpoch, env);
    }

    /** The core passed the projection of the restoration patch from its bootstrap document to the full one. */
    predicate RestoresFull(source: Mapping, endpoint: Option<string>, reply: Reply) {
      var r := RestorationPatch(schema, Prepared(source, endpoint, true), Prepared(source, endpoint, false));
      r.Ok? && Restores(r.value, reply)
    }

    /** And so its own document agrees with the full one, `doc`, where the bootstrap differed. */
    ghost predicate RestoredBy(source: Mapping, endpoint: Option<string>, reply: Reply, doc: Mapping) {
      var r := RestorationPatch(schema, Prepared(source, endpoint, true), doc);
      r.Ok? && Restored(r.value, reply, doc)
    }

    /** A graceful switch that fails drops its bootstrap: proven dead, also where the old process is not. */
    static predicate GracefulDrops(env: Env, proven: bool) {
      proven || (env.fate.GotReady? && !env.stopsOld && env.stopsNew)
    }

    /** A graceful switch leaves a process unproven. */
    static predicate GracefulLoses(env: Env, restored: bool) {
      || env.fate == Rejected(false)
      || (env.fate.GotReady? && (!env.stopsOld || HandOverLoses(env, restored)))
    }

    /**
     `graceful_switch`: the only operation that spawns beside a live current epoch. The
     old epoch stays current unless the bootstrap got ready; then the new one is
     installed exactly if the old one stopped, the full document was committed, and the
     core either took the restoration or was restarted from that document.
     */
    method GracefulSwitch(spec: InstanceSpec, source: Mapping, endpoint: nat -> Option<string>, env: Env)
      returns (r: Result<SwitchOutcome, Fault>)
      requires Valid() && current.Some? && quarantine == [] && Coherent(schema)
      modifies `current, `lastSpec, `quarantine, `epoch, `files, `backups, `trace, `view
      ensures Valid() && old(trace) <= trace && epoch == old(epoch) + 1
      ensures var overlapped := Restorable(source, endpoint(epoch)) && env.checks && env.creates.Written?
                                && env.fate.GotReady?;
              var installed := overlapped && env.stopsOld && env.commits.Written?
                               && (RestoresFull(source, endpoint(epoch), env.reply)
                                   || (env.stopsNew && env.again.GotReady?));
              && (!overlapped ==> current == old(current)) && (overlapped && !installed ==> current.None?)
              && (installed ==> current.Some? && LaunchOf(current.value, spec, epoch, 1, source, endpoint))
              && (r.Ok? <==> installed && env.cleansOld)
      ensures r.Ok? ==> old(current).value.revision.epoch !in files
      ensures r.Ok? ==> SettledSwitch(r.value) ==
                        if RestoresFull(source, endpoint(epoch), env.reply) then Graceful else Hard(PatchFailed)
      ensures r.Ok? && SettledSwitch(r.value).Graceful? ==>
                RestoredBy(source, endpoint(epoch), env.reply, current.value.effective)
      ensures current.None? ==> lastSpec == old(lastSpec)
      ensures r.Ok? ==> SwitchWarned(r) == if env.commits == Written(true) then 1 else 0
      ensures r.Err? ==> Cause(r.error) == if quarantine != [] then StopUnconfirmed else Failed
      ensures quarantine != [] <==>
                && Restorable(source, endpoint(epoch)) && env.checks && env.creates.Written?
                && GracefulLoses(env, RestoresFull(source, endpoint(epoch), env.reply))
      ensures r.Err? && env.cleansNew && GracefulDrops(env, quarantine == []) ==>
                epoch !in files || (current.Some? && current != old(current))
    {
      hide Core, Safe, Run, Confirmed, Projects, RestorationPatch, Prepared, Coherent, Restores, LaunchOf;
      hide Restorable, RestoresFull, RestoredBy, Restored, GracefulLoses;
      var e := NextEpoch({});
      var l, restoration := PrepareGraceful(spec, e, source, endpoint, env.checks, env.creates);
      if l.None? {
        CleanupEpoch({}, e, env.cleansNew);
        return Err(Failed);
      }
      RestorationKnown(l.value, spec, e, source, endpoint, restoration, env.reply);
      r := Overlap(l.value, restoration, env);
    }

    /** Start the bootstrap beside the current epoch, and hand over to it once it is ready. */
    method Overlap(l: Launch, restoration: Restoration, env: Env) returns (r: Result<SwitchOutcome, Fault>)
      requires Valid() && current.Some? && quarantine == [] && l.revision.epoch == epoch && epoch in files
      requires Allowed(view, Spawned(epoch)) && current.value.revision.epoch != epoch
      requires l.revision.effectiveHash == hash(serialize(l.effective))
      requires view.last.Some? ==> AtMost(view.last.value, KeyOf(l.revision))
      requires restoration.Some? ==> Projects(restoration.value.0, restoration.value.1, l.effective)
      modifies `current, `lastSpec, `quarantine, `files, `backups, `trace, `view
      ensures Valid() && old(trace) <= trace
      ensures var installed := env.fate.GotReady? && env.stopsOld && env.commits.Written?
                               && (Restores(restoration, env.reply) || (env.stopsNew && env.again.GotReady?));
              && current == (if installed then Some(l) else if env.fate.GotReady? then None else old(current))
              && (r.Ok? <==> installed && env.cleansOld)
      ensures r.Ok? ==> old(current).value.revision.epoch !in files
      ensures r.Ok? ==>
                SettledSwitch(r.value) == if Restores(restoration, env.reply) then Graceful else Hard(PatchFailed)
      ensures r.Ok? && Restores(restoration, env.reply) ==> Restored(restoration, env.reply, l.effective)
      ensures current.None? ==> lastSpec == old(lastSpec)
      ensures r.Ok? ==> SwitchWarned(r) == if env.commits == Written(true) then 1 else 0
      ensures r.Err? ==> Cause(r.error) == if quarantine != [] then StopUnconfirmed else Failed
      ensures quarantine != [] <==> GracefulLoses(env, Restores(restoration, env.reply))
      ensures r.Err? && current != Some(l) && env.cleansNew && GracefulDrops(env, quarantine == []) ==> epoch !in files
    {
      hide Core, Safe, Run, Confirmed, Projects, Restores, HandOverLoses, Restored;
      var rejected := StartBootstrap(epoch, env);
      if rejected.Some? { return Err(rejected.value); }
      r := HandOver(l, restoration, env);
    }

    lemma RestorationKnown(l: Launch, spec: InstanceSpec, e: nat, source: Mapping, endpoint: nat -> Option<string>,
                           restoration: Restoration, reply: Reply)
      requires LaunchOf(l, spec, e, 1, source, endpoint)
      requires RestorationPatch(schema, Prepared(source, endpoint(e), true), l.effective) == Ok(restoration)
      ensures RestoresFull(source, endpoint(e), reply) <==> Restores(restoration, reply)
      ensures Restored(restoration, reply, l.effective) ==> RestoredBy(source, endpoint(e), reply, l.effective)
      ensures l.revision.epoch == e && KeyOf(l.revision) == Key(e, 1)
      ensures l.revision.effectiveHash == hash(serialize(l.effective))
    {
      hide RestorationPatch, Prepared, Restores, Restored;
    }

    /** A switch with nothing running is a start. */
    static predicate StartedAs(r: Result<SwitchOutcome, Fault>, stale: bool, loaded: Option<Mapping>, env: Env) {
      && (r.Ok? <==>
            && (stale ==> env.stopsOld && env.cleansOld)
            && loaded.Some? && env.launchable && env.checks && env.creates.Written? && env.fate.GotReady?)
      && (r.Ok? ==> r.value == Hard(NotRunning))
      && (Unconfirmed(r) <==>
            || (stale && !env.stopsOld)
            || ((stale ==> env.stopsOld && env.cleansOld)
                && loaded.Some? && env.launchable && env.checks && env.creates.Written? && env.fate == Rejected(false)))
    }

    /** A switch without an overlap: when it succeeds, and the reason it gives. */
    predicate HardAs(r: Result<SwitchOutcome, Fault>, kind: CoreKind, source: Mapping, env: Env) {
      && (r.Ok? <==> env.checks && env.creates.Written? && env.stopsOld && env.cleansOld && env.fate.GotReady?)
      && (r.Ok? ==> r.value.Hard? && r.value.reason ==
                    if !env.local then HttpController
                    else if kind != MihomoCore then UnsupportedKind
                    else if OverlapBlock(schema, source) == Some(DnsListens) then DnsListenConflict
                    else InboundConflict)
      && (Unconfirmed(r) <==> env.checks && env.creates.Written? && HardLoses(env))
    }

    /** A switch with an overlap: when it succeeds, and whether it had to restart the new core. */
    predicate GracefulAs(r: Result<SwitchOutcome, Fault>, source: Mapping, endpoint: Option<string>, env: Env) {
      && (r.Ok? <==>
            && Restorable(source, endpoint) && env.checks && env.creates.Written? && env.fate.GotReady?
            && env.stopsOld && env.commits.Written? && env.cleansOld
            && (RestoresFull(source, endpoint, env.reply) || (env.stopsNew && env.again.GotReady?)))
      && (r.Ok? ==> SettledSwitch(r.value) ==
                    if RestoresFull(source, endpoint, env.reply) then Graceful else Hard(PatchFailed))
      && (r.Ok? ==> SwitchWarned(r) == if env.commits == Written(true) then 1 else 0)
      && (Unconfirmed(r) <==> Restorable(source, endpoint) && env.checks && env.creates.Written?
                              && GracefulLoses(env, RestoresFull(source, endpoint, env.reply)))
    }

    /** The new epoch is current with the prepared document, and nothing is left of the file of the old one. */
    twostate predicate Took(spec: InstanceSpec, source: Mapping, endpoint: nat -> Option<string>)
      reads this
    {
      && current.Some? && epoch > old(epoch) && LaunchOf(current.value, spec, epoch, 1, source, endpoint)
      && (old(current).Some? ==> old(current).value.revision.epoch !in files)
    }

    /** What a failed switch leaves current: the old epoch, none, or the new one that could not clean up the old. */
    twostate predicate Left(spec: InstanceSpec, loaded: Option<Mapping>, endpoint: nat -> Option<string>)
      reads this
    {
      || current == old(current) || current.None?
      || (loaded.Some? && epoch > old(epoch) && LaunchOf(current.value, spec, epoch, 1, loaded.value, endpoint))
    }

    /** Everything a switch that passed the quarantine gate promises. */
    twostate predicate SwitchedAs(new r: Result<SwitchOutcome, Fault>, spec: InstanceSpec, loaded: Option<Mapping>,
                                  endpoint: nat -> Option<string>, env: Env)
      reads this
    {
      && (if old(current).None? || env.terminal then StartedAs(r, old(current).Some?, loaded, env)
          else if loaded.None? || !env.launchable then r == Err(Failed) && Untouched()
          else if env.local && spec.kind == MihomoCore && OverlapBlock(schema, loaded.value).None? then
            && GracefulAs(r, loaded.value, endpoint(epoch), env)
            && (!(env.checks && env.creates.Written? && env.fate.GotReady?) ==> current == old(current))
            && (r.Err? && env.cleansNew && GracefulDrops(env, quarantine == []) ==>
                  epoch !in files || (current.Some? && current != old(current)))
          else
            && HardAs(r, spec.kind, loaded.value, env)
            && (!(env.checks && env.creates.Written?) ==> current == old(current))
            && (env.cleansNew && HardDrops(env) ==> epoch !in files))
      && (r.Ok? ==> loaded.Some? && Took(spec, loaded.value, endpoint))
      && (r.Ok? && SettledSwitch(r.value).Graceful? ==>
            RestoredBy(loaded.value, endpoint(epoch), env.reply, current.value.effective))
      && (r.Err? ==> Left(spec, loaded, endpoint) && (Cause(r.error) == StopUnconfirmed || Cause(r.error) == Failed))
      && (quarantine != [] <==> Unconfirmed(r))
      && (current.None? ==> lastSpec == old(lastSpec))
    }

    /** Nothing is running: retire what is left, and start. */
    method StartAnew(spec: InstanceSpec, loaded: Option<Mapping>, endpoint: nat -> Option<string>, env: Env)
      returns (r: Result<SwitchOutcome, Fault>)
      requires Valid() && quarantine == []
      modifies `current, `lastSpec, `quarantine, `epoch, `files, `backups, `trace, `view
      ensures Valid() && old(trace) <= trace
      ensures StartedAs(r, old(current).Some?, loaded, env)
      ensures if r.Ok? then loaded.Some? && Took(spec, loaded.value, endpoint) else current.None?
      ensures r.Err? ==> lastSpec == old(lastSpec) && (r == Err(StopUnconfirmed) || r == Err(Failed))
      ensures quarantine != [] <==> Unconfirmed(r)
    {
      hide Core, LaunchOf, Safe, Run;
      var fault := RetireStale(env);
      if fault.Some? { return Err(fault.value); }
      var started := StartLocked(spec, loaded, endpoint, env);
      r := if started.Ok? then Ok(Hard(NotRunning)) else Err(started.error);
    }

    /** A core is running: overlap if the gate allows it, else a hard switch. */
    method SwitchRunning(spec: InstanceSpec, source: Mapping, endpoint: nat -> Option<string>, env: Env)
      returns (r: Result<SwitchOutcome, Fault>)
      requires Valid() && quarantine == [] && Coherent(schema) && current.Some? && !env.terminal && env.launchable
      modifies `current, `lastSpec, `quarantine, `epoch, `files, `backups, `trace, `view
      ensures Valid() && old(trace) <= trace
      ensures SwitchedAs(r, spec, Some(source), endpoint, env)
    {
      hide Core, RestoredBy, RestoresFull, Restorable, Coherent, LaunchOf, OverlapBlock, Safe, Run;
      var degrade := DegradeReasonOf(env.local, spec.kind, OverlapBlock(schema, source));
      if degrade.Some? {
        var hard := HardSwitch(spec, source, endpoint, env);
        r := if hard.Ok? then Ok(Hard(degrade.value)) else Err(hard.error);
      } else {
        r := GracefulSwitch(spec, source, endpoint, env);
      }
    }

    /** `switch_locked`. */
    method SwitchLocked(spec: InstanceSpec, loaded: Option<Mapping>, endpoint: nat -> Option<string>, env: Env)
      returns (r: Result<SwitchOutcome, Fault>)
      requires Valid() && quarantine == [] && Coherent(schema)
      modifies `current, `lastSpec, `quarantine, `epoch, `files, `backups, `trace, `view
      ensures Valid() && old(trace) <= trace
      ensures SwitchedAs(r, spec, loaded, endpoint, env)
    {
      hide Core, RestoredBy, Coherent, LaunchOf, Safe, Run, StartedAs, GracefulAs, HardAs, OverlapBlock;
      if current.None? || env.terminal {
        r := StartAnew(spec, loaded, endpoint, env);
        assert r.Ok? ==> r.value == Hard(NotRunning) by { StartIsHard(r, old(current).Some?, loaded, env); }
      } else if loaded.None? || !env.launchable {
        r := Err(Failed);
      } else {
        r := SwitchRunning(spec, loaded.value, endpoint, env);
      }
    }

    static lemma StartIsHard(r: Result<SwitchOutcome, Fault>, stale: bool, loaded: Option<Mapping>, env: Env)
      requires StartedAs(r, stale, loaded, env)
      ensures r.Ok? ==> r.value == Hard(NotRunning)
    {
    }

    /** `switch`: refused under quarantine. */
    method Switch(spec: InstanceSpec, loaded: Option<Mapping>, endpoint: nat -> Option<string>, env: Env)
      returns (r: Result<SwitchOutcome, Fault>)
      requires Valid() && Coherent(schema)
      modifies `current, `lastSpec, `quarantine, `epoch, `files, `backups, `trace, `view
      ensures Valid() && old(trace) <= trace
      ensures if old(quarantine) != [] then r == Err(ManagerQuarantined(old(quarantine)[0].epoch)) && Untouched()
              else SwitchedAs(r, spec, loaded, endpoint, env)
    {
      hide Core, Coherent, Safe, Run, SwitchedAs;
      var gate := QuarantineFault();
      if gate.Some? { return Err(gate.value); }
      r := SwitchLocked(spec, loaded, endpoint, env);
    }

    /** `restart`: a switch to the last installed spec, also after a stop. */
    method Restart(loaded: Option<Mapping>, endpoint: nat -> Option<string>, env: Env)
      returns (r: Result<SwitchOutcome, Fault>)
      requires Valid() && Coherent(schema)
      modifies `current, `lastSpec, `quarantine, `epoch, `files, `backups, `trace, `view
      ensures Valid() && old(trace) <= trace
      ensures old(current).Some? ==> old(lastSpec) == Some(old(current).value.spec)
      ensures if old(quarantine) != [] then r == Err(ManagerQuarantined(old(quarantine)[0].epoch)) && Untouched()
              else if old(lastSpec).None? then r == Err(NotStarted) && Untouched()
              else SwitchedAs(r, old(lastSpec).value, loaded, endpoint, env)
    {
      SpecOfCurrent();
      hide Core, Coherent, Safe, Run, SwitchedAs;
      var gate := QuarantineFault();
      if gate.Some? { return Err(gate.value); }
      if lastSpec.None? { return Err(NotStarted); }
      r := SwitchLocked(lastSpec.value, loaded, endpoint, env);
    }

    lemma SpecOfCurrent()
      requires Core({})
      ensures current.Some? ==> lastSpec == Some(current.value.spec)
    {
    }

    // ----- apply ----------------------------------------------------------------

    /** The in-place success of `apply_config`: same process, next generation. */
    method AdvanceInPlace(l: Launch)
      requires Core({}) && current.Some? && quarantine == []
      requires KeyOf(l.revision) == Key(current.value.revision.epoch, current.value.revision.generation + 1)
      modifies `current, `lastSpec, `trace, `view
      ensures Core({}) && current == Some(l) && old(trace) <= trace
      ensures view == Next(old(view), Advanced(KeyOf(l.revision)))
    {
      hide Safe, Run;
      current := Some(l);
      lastSpec := Some(l.spec);
      Emit(Advanced(KeyOf(l.revision)));
    }

    ghost method RecordAdvance(from: Key, to: Key)
      requires Core({}) && view.last == Some(to) && Before(from, to)
      requires forall i :: 0 <= i < |advances| ==> AtMost(advances[i].1, from)
      modifies `advances
      ensures Core({}) && advances == old(advances) + [(from, to)]
    {
      advances := advances + [(from, to)];
    }

    /** What an apply answers about the revision: the one now current, moved exactly as the outcome says. */
    static ghost predicate Answers(o: ApplyOutcome, before: Launch, now: Option<Launch>, newest: nat)
    {
      now.Some? &&
      var a, b := now.value.revision, before.revision;
      match Settled(o)
      case Unchanged(r) => now.value == before && r == a
      case RolledBack(r) => now.value == before && r == a
      case Patched(r) => r == a && a.epoch == b.epoch && a.generation == b.generation + 1
      case Reloaded(r) => r == a && a.epoch == b.epoch && a.generation == b.generation + 1
      case Restarted(r) => r == a && a.epoch == b.epoch && a.generation == b.generation + 1
      case Switched(r) => r == a && a.epoch == newest && b.epoch < newest && a.generation == 1
      case UncertainApply(_) => false
    }

    /** The outcome is one the classified change can lead to. */
    static ghost predicate Fits(change: Mihomo.ConfigChange, o: ApplyOutcome) {
      match Settled(o)
      case Unchanged(_) => change.Noop?
      case Patched(_) => change.Patch?
      case Reloaded(_) => change.Reload?
      case Restarted(_) => change.Patch? || change.Reload?
      case Switched(_) => change.Switch?
      case RolledBack(_) => !change.Noop?
      case UncertainApply(_) => false
    }

    /**
     How a compensation ended: the old launch is current again exactly if it could be
     put back (`possible`) and its process got ready; otherwise nothing is current.
     */
    ghost predicate Compensated(r: Result<ApplyOutcome, Fault>, prior: Launch, possible: bool, again: Fate)
      reads `current, `quarantine
    {
      if possible && again.GotReady? then
        r.Ok? && Settled(r.value) == RolledBack(prior.revision) && current == Some(prior) && quarantine == []
      else
        && r.Err? && current.None?
        && Cause(r.error) == (if possible && again == Rejected(false) then StopUnconfirmed else ApplyRollbackFailed)
        && quarantine == if possible && again == Rejected(false)
                         then [QuarantinedEpoch(prior.revision.epoch, "rollback replacement", false)] else []
    }

    /** A failed relaunch of the desired document: put the old one back. */
    method RollBack(prior: Launch, g: nat, env: Env) returns (r: Result<ApplyOutcome, Fault>)
      requires Core({}) && current.None? && quarantine == [] && prior.revision.epoch <= epoch
      requires view.last == Some(KeyOf(prior.revision)) && prior.revision.epoch in files
      requires (prior.revision.epoch, g) in backups
      requires backups[(prior.revision.epoch, g)] == serialize(prior.effective)
      requires prior.revision.effectiveHash == hash(serialize(prior.effective))
      modifies `current, `lastSpec, `quarantine, `files, `backups, `trace, `view
      ensures view.overlaps == old(view).overlaps
      ensures Valid() && old(trace) <= trace
      ensures Compensated(r, prior, env.restores.Written?, env.again)
      ensures Warned(r) == if env.restores == Written(true) then 1 else 0
      ensures r.Ok? && env.removes ==> (prior.revision.epoch, g) !in backups
      ensures r.Ok? ==> view.last == old(view).last
      ensures r.Err? ==> lastSpec == old(lastSpec)
    {
      hide Core, Safe, Run;
      var e := prior.revision.epoch;
      var restored := Restore({}, e, g, env.restores);
      if !restored { return Err(ApplyRollbackFailed); }
      r := Reinstate(prior, env);
      if r.Ok? { RemoveBackup(e, g, env.removes); }
      r := WithDurability(r, env.restores.uncertain);
    }

    /** Respawn an epoch that was stopped for an apply, from its own stable file. */
    method Reinstate(prior: Launch, env: Env) returns (r: Result<ApplyOutcome, Fault>)
      requires Core({}) && current.None? && quarantine == [] && prior.revision.epoch <= epoch && Backed(prior)
      requires view.last == Some(KeyOf(prior.revision))
      modifies `current, `lastSpec, `quarantine, `trace, `view
      ensures view.overlaps == old(view).overlaps
      ensures Valid() && old(trace) <= trace
      ensures Compensated(r, prior, true, env.again) && Warned(r) == 0
      ensures r.Ok? ==> view.last == old(view).last
      ensures r.Err? ==> lastSpec == old(lastSpec)
    {
      hide Core, Safe, Run;
      var e := prior.revision.epoch;
      assert {e} - {e} == {};
      SpawnReplacement(e, env.again);
      if env.again.GotReady? {
        Install(prior);
        r := Ok(RolledBack(prior.revision));
      } else if env.again == Rejected(false) {
        var fault := LatchQuarantine({e}, e, "rollback replacement");
        r := Err(fault);
      } else {
        r := Err(ApplyRollbackFailed);
      }
    }

    /**
     `restart_with_compensation`. The epoch that does not stop, or whose new process
     does not die, is quarantined; a ready one runs the desired document; and one that
     failed and is proven dead is rolled back.
     */
    method RestartWithCompensation(desired: Launch, env: Env) returns (r: Result<ApplyOutcome, Fault>)
      requires Core({}) && current.Some? && quarantine == [] && Backed(desired)
      requires KeyOf(desired.revision) == Key(current.value.revision.epoch, current.value.revision.generation + 1)
      requires var g := (desired.revision.epoch, desired.revision.generation);
               g in backups && backups[g] == serialize(current.value.effective)
      requires current.value.revision.effectiveHash == hash(serialize(current.value.effective))
      modifies `current, `lastSpec, `quarantine, `files, `backups, `trace, `view
      ensures view.overlaps == old(view).overlaps
      ensures Valid() && old(trace) <= trace
      ensures !env.stopsOld ==>
                && r == Err(StopUnconfirmed) && current.None?
                && quarantine == [QuarantinedEpoch(desired.revision.epoch, "epoch stopped for reconcile", false)]
      ensures env.stopsOld && env.fate.GotReady? ==>
                r == Ok(Restarted(desired.revision)) && current == Some(desired) && quarantine == []
      ensures env.stopsOld && env.fate == Rejected(false) ==>
                && r == Err(StopUnconfirmed) && current.None?
                && quarantine == [QuarantinedEpoch(desired.revision.epoch, "desired replacement", false)]
      ensures env.stopsOld && Gone(env.fate) ==>
                Compensated(r, old(current).value, env.restores.Written?, env.again)
      ensures Warned(r) == if env.stopsOld && Gone(env.fate) && env.restores == Written(true) then 1 else 0
      ensures r.Ok? && env.removes ==> (desired.revision.epoch, desired.revision.generation) !in backups
      ensures r.Ok? ==> view.last == Some(KeyOf(current.value.revision))
      ensures r.Err? ==> lastSpec == old(lastSpec)
    {
      hide Core, Safe, Run;
      var e := desired.revision.epoch;
      var prior := TakeAndStop({}, env.stopsOld);
      assert {} + {e} == {e} && {e} - {e} == {};
      if !env.stopsOld {
        var fault := LatchQuarantine({e}, e, "epoch stopped for reconcile");
        return Err(fault);
      }
      r := RestartStopped(desired, prior, env);
    }

    /** Respawn the stopped epoch with the desired document, or roll back. */
    method RestartStopped(desired: Launch, prior: Launch, env: Env) returns (r: Result<ApplyOutcome, Fault>)
      requires Core({}) && current.None? && quarantine == [] && prior.revision.epoch <= epoch && Backed(desired)
      requires view.last == Some(KeyOf(prior.revision))
      requires KeyOf(desired.revision) == Key(prior.revision.epoch, prior.revision.generation + 1)
      requires var g := (desired.revision.epoch, desired.revision.generation);
               g in backups && backups[g] == serialize(prior.effective)
      requires prior.revision.effectiveHash == hash(serialize(prior.effective))
      modifies `current, `lastSpec, `quarantine, `files, `backups, `trace, `view
      ensures view.overlaps == old(view).overlaps
      ensures Valid() && old(trace) <= trace
      ensures env.fate.GotReady? ==>
                r == Ok(Restarted(desired.revision)) && current == Some(desired) && quarantine == []
      ensures env.fate == Rejected(false) ==>
                && r == Err(StopUnconfirmed) && current.None?
                && quarantine == [QuarantinedEpoch(desired.revision.epoch, "desired replacement", false)]
      ensures Gone(env.fate) ==> Compensated(r, prior, env.restores.Written?, env.again)
      ensures Warned(r) == if Gone(env.fate) && env.restores == Written(true) then 1 else 0
      ensures r.Ok? && env.removes ==> (desired.revision.epoch, desired.revision.generation) !in backups
      ensures r.Ok? ==> view.last == Some(KeyOf(current.value.revision))
      ensures r.Err? ==> lastSpec == old(lastSpec)
    {
      hide Core, Safe, Run;
      var e, g := desired.revision.epoch, desired.revision.generation;
      assert {e} - {e} == {};
      SpawnReplacement(e, env.fate);
      hide Compensated;
      if env.fate.GotReady? {
        Install(desired);
        RemoveBackup(e, g, env.removes);
        r := Ok(Restarted(desired.revision));
      } else if env.fate == Rejected(false) {
        var fault := LatchQuarantine({e}, e, "desired replacement");
        r := Err(fault);
      } else {
        r := RollBack(prior, g, env);
      }
    }

    lemma CurrentIsLast(loose: set<nat>)
      requires Core(loose) && current.Some?
      ensures view.last == Some(KeyOf(current.value.revision)) && current.value.revision.epoch <= epoch
      ensures forall i :: 0 <= i < |advances| ==> AtMost(advances[i].1, KeyOf(current.value.revision))
    {
    }

    /** `switch_with_compensation`: the same ends, with a new epoch in place of the new document. */
    method SwitchWithCompensation(input: InstanceSpec, source: Mapping, endpoint: nat -> Option<string>, env: Env)
      returns (r: Result<ApplyOutcome, Fault>)
      requires Valid() && current.Some? && quarantine == []
      modifies `current, `lastSpec, `quarantine, `epoch, `files, `backups, `trace, `view
      ensures view.overlaps == old(view).overlaps
      ensures Valid() && old(trace) <= trace && epoch == old(epoch) + 1
      ensures SwitchEnded(r, old(current).value, input, source, endpoint, env, old(epoch) + 1)
      ensures r.Ok? ==> view.last == Some(KeyOf(current.value.revision))
      ensures r.Err? ==> lastSpec == old(lastSpec)
    {
      hide Core, Safe, Run, LaunchOf;
      var e := NextEpoch({});
      var l := PrepareLaunch({}, input, e, source, endpoint, env.prepares, env.creates);
      if l.None? { return Err(Failed); }
      hide Compensated;
      r := SwitchTo(l.value, env);
    }

    /** Take the old epoch out and replace it, or give up on the new one. */
    method SwitchTo(l: Launch, env: Env) returns (r: Result<ApplyOutcome, Fault>)
      requires Valid() && current.Some? && quarantine == [] && Backed(l) && l.revision.epoch == epoch
      requires current.value.revision.epoch < epoch && epoch !in view.live
      modifies `current, `lastSpec, `quarantine, `files, `backups, `trace, `view
      ensures view.overlaps == old(view).overlaps
      ensures Valid() && old(trace) <= trace
      ensures !env.stopsOld ==>
                var o := old(current).value.revision.epoch;
                && r == Err(StopUnconfirmed) && current.None? && (env.cleansNew ==> epoch !in files)
                && quarantine == [QuarantinedEpoch(o, "epoch stopped for switch", false)]
      ensures env.stopsOld && env.fate.GotReady? ==>
                && r == Ok(Switched(l.revision)) && current == Some(l) && quarantine == []
                && (env.cleansOld ==> old(current).value.revision.epoch !in files)
      ensures env.stopsOld && env.fate == Rejected(false) ==>
                && r == Err(StopUnconfirmed) && current.None?
                && quarantine == [QuarantinedEpoch(epoch, "desired switch", false)]
      ensures env.stopsOld && Gone(env.fate) ==>
                Compensated(r, old(current).value, true, env.again) && (env.cleansNew ==> epoch !in files)
      ensures Warned(r) == 0 && (r.Ok? ==> view.last == Some(KeyOf(current.value.revision)))
      ensures r.Err? ==> lastSpec == old(lastSpec)
    {
      hide Core, Safe, Run, Compensated;
      var prior := TakeAndStop({}, env.stopsOld);
      var oldEpoch := prior.revision.epoch;
      assert {} + {oldEpoch} == {oldEpoch};
      if env.stopsOld { r := ReplaceEpoch(l, prior, env); } else { r := AbandonSwitch(epoch, oldEpoch, env); }
    }

    /** The old epoch would not stop: clean up the new one and quarantine the old. */
    method AbandonSwitch(e: nat, oldEpoch: nat, env: Env) returns (r: Result<ApplyOutcome, Fault>)
      requires Core({oldEpoch}) && current.None? && quarantine == [] && e !in view.live
      modifies `quarantine, `files, `backups, `trace, `view
      ensures view.overlaps == old(view).overlaps
      ensures Valid() && old(trace) <= trace
      ensures r == Err(StopUnconfirmed) && (env.cleansNew ==> e !in files)
      ensures quarantine == [QuarantinedEpoch(oldEpoch, "epoch stopped for switch", false)]
    {
      hide Core, Safe, Run;
      assert {oldEpoch} - {oldEpoch} == {};
      CleanupEpoch({oldEpoch}, e, env.cleansNew);
      var fault := LatchQuarantine({oldEpoch}, oldEpoch, "epoch stopped for switch");
      r := Err(fault);
    }

    /** Install the new epoch beside nothing, and clean the one it replaced. */
    method InstallOver(l: Launch, oldEpoch: nat, env: Env) returns (r: Result<ApplyOutcome, Fault>)
      requires Core({l.revision.epoch}) && current.None? && quarantine == [] && Backed(l)
      requires oldEpoch < l.revision.epoch && (view.last.Some? ==> view.last.value.epoch == oldEpoch)
      modifies `current, `lastSpec, `files, `backups, `trace, `view
      ensures view.overlaps == old(view).overlaps
      ensures Valid() && current == Some(l) && view.last == Some(KeyOf(l.revision)) && old(trace) <= trace
      ensures r == Ok(Switched(l.revision)) && (env.cleansOld ==> oldEpoch !in files)
    {
      hide Core, Safe, Run;
      Install(l);
      InstalledIsAlone();
      CleanupEpoch({}, oldEpoch, env.cleansOld);
      r := Ok(Switched(l.revision));
    }

    /** Spawn the new epoch, or clean it up and reinstate the old one. */
    method ReplaceEpoch(l: Launch, prior: Launch, env: Env) returns (r: Result<ApplyOutcome, Fault>)
      requires Core({}) && current.None? && quarantine == [] && Backed(l) && Backed(prior)
      requires prior.revision.epoch < l.revision.epoch <= epoch && view.last == Some(KeyOf(prior.revision))
      modifies `current, `lastSpec, `quarantine, `files, `backups, `trace, `view
      ensures view.overlaps == old(view).overlaps
      ensures Valid() && old(trace) <= trace
      ensures env.fate.GotReady? ==> r == Ok(Switched(l.revision)) && current == Some(l) && quarantine == []
      ensures env.fate == Rejected(false) ==>
                && r == Err(StopUnconfirmed) && current.None?
                && quarantine == [QuarantinedEpoch(l.revision.epoch, "desired switch", false)]
      ensures Gone(env.fate) ==> Compensated(r, prior, true, env.again)
      ensures Gone(env.fate) && env.cleansNew ==> l.revision.epoch !in files
      ensures env.fate.GotReady? && env.cleansOld ==> prior.revision.epoch !in files
      ensures Warned(r) == 0
      ensures r.Ok? ==> view.last == Some(KeyOf(current.value.revision))
      ensures r.Err? ==> lastSpec == old(lastSpec)
    {
      hide Core, Safe, Run, Chain;
      var e := l.revision.epoch;
      assert {e} - {e} == {};
      SpawnReplacement(e, env.fate);
      if env.fate.GotReady? {
        r := InstallOver(l, prior.revision.epoch, env);
      } else if env.fate == Rejected(false) {
        var fault := LatchQuarantine({e}, e, "desired switch");
        r := Err(fault);
      } else {
        IdleHasNoProcess();
        CleanupEpoch({}, e, env.cleansNew);
        r := Reinstate(prior, env);
      }
    }

    lemma InstalledIsAlone()
      requires Core({}) && current.Some? && quarantine == []
      ensures view.live == {current.value.revision.epoch}
    {
    }

    /** `reconcile_in_place`: a patch that is verified, or a reload the core accepts, and a healthy core, in time. */
    method ReconcileInPlace(change: Mihomo.ConfigChange, reply: Reply, ghost doc: Mapping) returns (ok: bool)
      requires change.Patch? || change.Reload?
      requires change.Patch? ==> Projects(change.patch, change.expected, doc)
      ensures ok <==> && reply.timely && reply.healthy
                      && (if change.Patch? then
                            reply.document.Some? && Mihomo.Verify(change.expected, reply.document.value)
                          else reply.accepted)
      ensures ok && change.Patch? ==> Confirmed(change.patch, change.expected, reply, doc)
    {
      if change.Patch? {
        ok := PatchAndVerify(change.patch, change.expected, reply, doc);
      } else {
        ok := reply.timely && reply.accepted && reply.healthy;
      }
    }

    /** What an apply within the epoch ends in, once the new document is on disk. */
    ghost predicate Finished(r: Result<ApplyOutcome, Fault>, change: Mihomo.ConfigChange, before: Launch,
                             desired: Launch, env: Env, warnings: nat)
      reads `current, `quarantine
    {
      if && env.reply.timely && env.reply.healthy
         && (change.Patch? ==>
               env.reply.document.Some? && Mihomo.Verify(change.expected, env.reply.document.value))
         && (change.Reload? ==> env.reply.accepted)
      then
        && r.Ok? && current == Some(desired) && quarantine == [] && Warned(r) == warnings
        && Settled(r.value) == if change.Patch? then Patched(desired.revision) else Reloaded(desired.revision)
      else if !env.stopsOld then
        && Unconfirmed(r) && current.None? && Warned(r) == warnings
        && quarantine == [QuarantinedEpoch(before.revision.epoch, "epoch stopped for reconcile", false)]
      else if env.fate.GotReady? then
        && r.Ok? && current == Some(desired) && quarantine == [] && Warned(r) == warnings
        && Settled(r.value) == Restarted(desired.revision)
      else if env.fate == Rejected(false) then
        && Unconfirmed(r) && current.None? && Warned(r) == warnings
        && quarantine == [QuarantinedEpoch(before.revision.epoch, "desired replacement", false)]
      else
        && Compensated(r, before, env.restores.Written?, env.again)
        && Warned(r) == warnings + if env.restores == Written(true) then 1 else 0
    }

    /** The new document is on disk: reconcile in place, or restart into it. */
    method FinishInEpoch(desired: Launch, change: Mihomo.ConfigChange, env: Env)
      returns (r: Result<ApplyOutcome, Fault>)
      requires change.Patch? || change.Reload?
      requires change.Patch? ==> Projects(change.patch, change.expected, desired.effective)
      requires Core({}) && current.Some? && quarantine == [] && Backed(desired)
      requires KeyOf(desired.revision) == Key(current.value.revision.epoch, current.value.revision.generation + 1)
      requires var g := (desired.revision.epoch, desired.revision.generation);
               g in backups && backups[g] == serialize(current.value.effective)
      requires current.value.revision.effectiveHash == hash(serialize(current.value.effective))
      modifies `current, `lastSpec, `quarantine, `files, `backups, `trace, `view
      ensures view.overlaps == old(view).overlaps
      ensures Valid() && old(trace) <= trace
      ensures Finished(r, change, old(current).value, desired, env, 0)
      ensures r.Ok? && env.removes ==> (desired.revision.epoch, desired.revision.generation) !in backups
      ensures r.Ok? ==> Answered(change, r.value, env.reply, desired.effective)
      ensures r.Ok? ==> view.last == Some(KeyOf(current.value.revision))
      ensures r.Err? ==> lastSpec == old(lastSpec)
    {
      hide Core, Safe, Run, Confirmed, Projects;
      var reconciled := ReconcileInPlace(change, env.reply, desired.effective);
      hide Compensated;
      if reconciled {
        AdvanceInPlace(desired);
        RemoveBackup(desired.revision.epoch, desired.revision.generation, env.removes);
        r := Ok(if change.Reload? then Reloaded(desired.revision) else Patched(desired.revision));
      } else {
        r := RestartWithCompensation(desired, env);
      }
    }

    /** The part of `apply_config` that keeps the epoch: commit, reconcile in place, else restart. */
    method ApplyInEpoch(desired: Launch, change: Mihomo.ConfigChange, env: Env)
      returns (r: Result<ApplyOutcome, Fault>)
      requires change.Patch? || change.Reload?
      requires change.Patch? ==> Projects(change.patch, change.expected, desired.effective)
      requires Valid() && current.Some? && quarantine == []
      requires KeyOf(desired.revision) == Key(current.value.revision.epoch, current.value.revision.generation + 1)
      requires desired.revision.effectiveHash == hash(serialize(desired.effective))
      modifies `current, `lastSpec, `quarantine, `files, `backups, `trace, `view
      ensures view.overlaps == old(view).overlaps
      ensures Valid() && old(trace) <= trace
      ensures var g := (desired.revision.epoch, desired.revision.generation);
              if env.backs.Written? && g !in old(backups) && env.commits.Written?
              then Finished(r, change, old(current).value, desired, env, if env.commits.uncertain then 1 else 0)
              else r == Err(Failed) && current == old(current) && quarantine == [] && files == old(files)
      ensures var g := (desired.revision.epoch, desired.revision.generation);
              env.backs.Written? && g !in old(backups) && (r.Ok? || !env.commits.Written?) && env.removes ==>
                g !in backups
      ensures r.Ok? ==> Answered(change, r.value, env.reply, desired.effective)
      ensures r.Ok? ==> view.last == Some(KeyOf(current.value.revision))
      ensures r.Err? ==> lastSpec == old(lastSpec)
    {
      hide Core, Safe, Run, Confirmed, Projects;
      var e, g := desired.revision.epoch, desired.revision.generation;
      var saved := Backup(e, g, env.backs);
      if !saved { return Err(Failed); }
      var committed := CommitReplace({}, e, serialize(desired.effective), env.commits);
      if !committed {
        RemoveBackup(e, g, env.removes);
        return Err(Failed);
      }
      r := FinishInEpoch(desired, change, env);
      r := WithDurability(r, env.commits.uncertain);
    }

    /** `mihomo::classify` on the documents of two launches; a no-op means equal effective documents. */
    method ClassifyChange(before: Launch, desired: Launch) returns (change: Mihomo.ConfigChange)
      requires Coherent(schema)
      ensures Classify(schema, before.source, before.effective, before.spec,
                       desired.source, desired.effective, desired.spec)
              == Ok(change)
      ensures change.Noop? ==> before.effective == desired.effective
      ensures change.Patch? ==> Projects(change.patch, change.expected, desired.effective)
    {
      NonSwitchKeepsControlPlane(schema, before.source, before.effective, before.spec,
                                 desired.source, desired.effective, desired.spec);
      change := Classify(schema, before.source, before.effective, before.spec,
                         desired.source, desired.effective, desired.spec).value;
      if change.Patch? {
        hide Mihomo.Leaves, Mihomo.Verify, Mihomo.ClassifyDocuments;
        Mihomo.DesiredPassesProjection(schema, before.effective, desired.effective, change.patch, change.expected);
      }
    }

    /** What an apply that takes a new epoch ends in: as a restart, except that there is no backup to restore. */
    ghost predicate SwitchEnded(r: Result<ApplyOutcome, Fault>, before: Launch, spec: InstanceSpec, source: Mapping,
                                endpoint: nat -> Option<string>, env: Env, newest: nat)
      reads `current, `quarantine, `files, `epoch
    {
      && epoch == newest
      && (env.prepares && env.creates.Written? && (!env.stopsOld || Gone(env.fate)) && env.cleansNew ==>
            epoch !in files)
      && (r.Ok? && r.value.Switched? && env.cleansOld ==> before.revision.epoch !in files)
      && if !(env.prepares && env.creates.Written?) then
           r == Err(Failed) && current == Some(before) && quarantine == []
         else if !env.stopsOld then
           && r == Err(StopUnconfirmed) && current.None?
           && quarantine == [QuarantinedEpoch(before.revision.epoch, "epoch stopped for switch", false)]
         else if env.fate.GotReady? then
           && r.Ok? && current.Some? && r.value == Switched(current.value.revision) && quarantine == []
           && LaunchOf(current.value, spec, epoch, 1, source, endpoint)
         else if env.fate == Rejected(false) then
           && r == Err(StopUnconfirmed) && current.None?
           && quarantine == [QuarantinedEpoch(epoch, "desired switch", false)]
         else Compensated(r, before, true, env.again) && Warned(r) == 0
    }

    /**
     What an apply that passed its gates ends in, by the classified change and the
     answers of the environment.
     */
    twostate predicate Ended(new r: Result<ApplyOutcome, Fault>, change: Mihomo.ConfigChange, desired: Launch,
                             endpoint: nat -> Option<string>, env: Env)
      requires old(current).Some?
      reads this
    {
      var before := old(current).value;
      if change.Switch? then SwitchEnded(r, before, desired.spec, desired.source, endpoint, env, old(epoch) + 1)
      else
        var g := (desired.revision.epoch, desired.revision.generation);
        && (env.backs.Written? && g !in old(backups) && (r.Ok? || !env.commits.Written?) && env.removes ==>
              g !in backups)
        && if env.backs.Written? && g !in old(backups) && env.commits.Written?
           then Finished(r, change, before, desired, env, if env.commits.uncertain then 1 else 0)
           else r == Err(Failed) && current == old(current) && quarantine == [] && files == old(files)
    }

    /** Carry out a change that is not a no-op, and record the revision it moved to. */
    method Reconcile(change: Mihomo.ConfigChange, desired: Launch, endpoint: nat -> Option<string>, env: Env)
      returns (r: Result<ApplyOutcome, Fault>)
      requires Valid() && current.Some? && quarantine == [] && !change.Noop?
      requires LaunchOf(desired, desired.spec, current.value.revision.epoch,
                        current.value.revision.generation + 1, desired.source, endpoint)
      requires change.Patch? ==> Projects(change.patch, change.expected, desired.effective)
      modifies this
      ensures view.overlaps == old(view).overlaps
      ensures Valid() && old(trace) <= trace
      ensures Ended(r, change, desired, endpoint, env)
      ensures Accounts(r, change, old(current).value, old(advances))
      ensures r.Ok? && !Settled(r.value).RolledBack? ==>
                current.Some?
                && current.value.effective == Prepared(desired.source, endpoint(current.value.revision.epoch), false)
      ensures r.Ok? ==> Answered(change, r.value, env.reply, desired.effective)
      ensures r.Err? ==> lastSpec == old(lastSpec)
    {
      hide Core, Safe, Run, Prepared, Chain, Confirmed, Projects, Accounts, Finished, Compensated, LaunchOf;
      if change.Switch? {
        r := SwitchAndRecord(desired.spec, desired.source, endpoint, env);
        if r.Ok? { SwitchAnswered(r, env.reply, desired.effective, old(current).value, old(advances)); }
      } else {
        NextRevision(desired, endpoint);
        r := ApplyAndRecord(change, desired, env);
      }
    }

    lemma SwitchAnswered(r: Result<ApplyOutcome, Fault>, reply: Reply, doc: Mapping, before: Launch,
                         past: seq<(Key, Key)>)
      requires r.Ok? && Accounts(r, Mihomo.Switch, before, past)
      ensures Answered(Mihomo.Switch, r.value, reply, doc)
    {
    }

    lemma NextRevision(l: Launch, endpoint: nat -> Option<string>)
      requires current.Some?
      requires LaunchOf(l, l.spec, current.value.revision.epoch, current.value.revision.generation + 1,
                        l.source, endpoint)
      ensures KeyOf(l.revision) == Key(current.value.revision.epoch, current.value.revision.generation + 1)
      ensures l.revision.effectiveHash == hash(serialize(l.effective))
      ensures l.effective == Prepared(l.source, endpoint(l.revision.epoch), false)
    {
    }

    /** The answer fits the change and the revision now current, and the step it stands for is recorded. */
    ghost predicate Accounts(r: Result<ApplyOutcome, Fault>, change: Mihomo.ConfigChange, before: Launch,
                             past: seq<(Key, Key)>)
      reads `current, `epoch, `advances
    {
      && (r.Ok? ==> Answers(r.value, before, current, epoch) && Fits(change, r.value))
      && advances == past + if r.Ok? then Moved(r.value, Some(before), current) else []
    }

    /** The revision a successful apply moved to is recorded, unless it was rolled back. */
    ghost method RecordOutcome(r: Result<ApplyOutcome, Fault>, before: Launch)
      requires Valid() && (r.Ok? ==> current.Some? && view.last == Some(KeyOf(current.value.revision)))
      requires r.Ok? && !Settled(r.value).RolledBack? ==>
                 Before(KeyOf(before.revision), KeyOf(current.value.revision)) && !Settled(r.value).Unchanged?
      requires forall i :: 0 <= i < |advances| ==> AtMost(advances[i].1, KeyOf(before.revision))
      modifies `advances
      ensures Valid()
      ensures advances == old(advances) + (if r.Ok? then Moved(r.value, Some(before), current) else [])
    {
      hide Core;
      if r.Ok? && !Settled(r.value).RolledBack? {
        RecordAdvance(KeyOf(before.revision), KeyOf(current.value.revision));
      } else {
        assert advances + [] == advances;
      }
    }

    method SwitchAndRecord(spec: InstanceSpec, source: Mapping, endpoint: nat -> Option<string>, env: Env)
      returns (r: Result<ApplyOutcome, Fault>)
      requires Valid() && current.Some? && quarantine == []
      modifies this
      ensures view.overlaps == old(view).overlaps
      ensures Valid() && old(trace) <= trace
      ensures SwitchEnded(r, old(current).value, spec, source, endpoint, env, old(epoch) + 1)
      ensures Accounts(r, Mihomo.Switch, old(current).value, old(advances))
      ensures r.Ok? && !Settled(r.value).RolledBack? ==>
                current.Some?
                && current.value.effective == Prepared(source, endpoint(current.value.revision.epoch), false)
      ensures r.Err? ==> lastSpec == old(lastSpec)
    {
      CurrentIsLast({});
      hide Valid, Prepared, SwitchEnded, Answers, Fits, LaunchOf, Settled, Moved, Before, AtMost;
      ghost var before := current.value;
      r := SwitchWithCompensation(spec, source, endpoint, env);
      SwitchEndAnswers(r, before, spec, source, endpoint, env, epoch);
      RecordOutcome(r, before);
    }

    lemma SwitchEndAnswers(r: Result<ApplyOutcome, Fault>, before: Launch, spec: InstanceSpec, source: Mapping,
                           endpoint: nat -> Option<string>, env: Env, newest: nat)
      requires before.revision.epoch < newest && SwitchEnded(r, before, spec, source, endpoint, env, newest)
      ensures r.Ok? ==> Answers(r.value, before, current, epoch) && Fits(Mihomo.Switch, r.value)
      ensures r.Ok? ==> current.Some? && !Settled(r.value).Unchanged?
      ensures r.Ok? && !Settled(r.value).RolledBack? ==>
                && current.value.effective == Prepared(source, endpoint(current.value.revision.epoch), false)
                && Before(KeyOf(before.revision), KeyOf(current.value.revision))
    {
      hide Prepared;
    }

    method ApplyAndRecord(change: Mihomo.ConfigChange, desired: Launch, env: Env)
      returns (r: Result<ApplyOutcome, Fault>)
      requires change.Patch? || change.Reload?
      requires change.Patch? ==> Projects(change.patch, change.expected, desired.effective)
      requires Valid() && current.Some? && quarantine == []
      requires KeyOf(desired.revision) == Key(current.value.revision.epoch, current.value.revision.generation + 1)
      requires desired.revision.effectiveHash == hash(serialize(desired.effective))
      modifies this
      ensures view.overlaps == old(view).overlaps
      ensures Valid() && old(trace) <= trace
      ensures var g := (desired.revision.epoch, desired.revision.generation);
              if env.backs.Written? && g !in old(backups) && env.commits.Written?
              then Finished(r, change, old(current).value, desired, env, if env.commits.uncertain then 1 else 0)
              else r == Err(Failed) && current == old(current) && quarantine == [] && files == old(files)
      ensures var g := (desired.revision.epoch, desired.revision.generation);
              env.backs.Written? && g !in old(backups) && (r.Ok? || !env.commits.Written?) && env.removes ==>
                g !in backups
      ensures Accounts(r, change, old(current).value, old(advances))
      ensures r.Ok? && !Settled(r.value).RolledBack? ==> current == Some(desired)
      ensures r.Ok? ==> Answered(change, r.value, env.reply, desired.effective)
      ensures r.Err? ==> lastSpec == old(lastSpec)
    {
      CurrentIsLast({});
      hide Valid, Confirmed, Projects, Answers, Fits, Finished, Answered, Settled, Moved, AtMost;
      ghost var before := current.value;
      r := ApplyInEpoch(desired, change, env);
      if r.Ok? { FinishedAnswers(r, change, before, desired, env, if env.commits.uncertain then 1 else 0); }
      RecordOutcome(r, before);
    }

    lemma FinishedAnswers(r: Result<ApplyOutcome, Fault>, change: Mihomo.ConfigChange, before: Launch,
                          desired: Launch, env: Env, warnings: nat)
      requires r.Ok? && Finished(r, change, before, desired, env, warnings) && (change.Patch? || change.Reload?)
      requires KeyOf(desired.revision) == Key(before.revision.epoch, before.revision.generation + 1)
      ensures Answers(r.value, before, current, epoch) && Fits(change, r.value)
      ensures if Settled(r.value).RolledBack? then current == Some(before)
              else current == Some(desired) && !Settled(r.value).Unchanged?
    {
    }

    /** The step from one installed revision to the next that an outcome stands for, if any. */
    static ghost function Moved(o: ApplyOutcome, before: Option<Launch>, now: Option<Launch>): seq<(Key, Key)> {
      if before.None? || now.None? || Settled(o).Unchanged? || Settled(o).RolledBack? then []
      else [(KeyOf(before.value.revision), KeyOf(now.value.revision))]
    }

    /** `apply_config`. */
    method ApplyConfig(input: InstanceSpec, expected: Option<RevisionId>, loaded: Option<Mapping>,
                       endpoint: nat -> Option<string>, env: Env)
      returns (r: Result<ApplyOutcome, Fault>)
      requires Valid() && Coherent(schema)
      modifies this
      ensures view.overlaps == old(view).overlaps
      ensures Valid() && old(trace) <= trace
      ensures old(quarantine) != [] ==> r == Err(ManagerQuarantined(old(quarantine)[0].epoch)) && Untouched()
      ensures old(quarantine) == [] && (old(current).None? || env.terminal) ==> r == Err(NotStarted) && Untouched()
      ensures old(quarantine) == [] && old(current).Some? && !env.terminal ==>
                var before := old(current).value;
                var actual :=
                  RevisionId(before.revision.epoch, before.revision.generation, before.revision.effectiveHash);
                if expected.Some? && expected.value != actual then
                  r == Err(RevisionConflict(expected.value, actual)) && Untouched()
                else if loaded.None? || !env.launchable || !env.checks then r == Err(Failed) && Untouched()
                else
                  var desired :=
                    Derived(input, before.revision.epoch, before.revision.generation + 1, loaded.value, endpoint);
                  var change := Classify(schema, before.source, before.effective, before.spec,
                                         loaded.value, desired.effective, input);
                  && change.Ok? && (r.Ok? ==> Fits(change.value, r.value))
                  && if change.value.Noop? then r == Ok(Unchanged(before.revision)) && Untouched()
                     else Ended(r, change.value, desired, endpoint, env)
                          && (r.Ok? ==> Answered(change.value, r.value, env.reply, desired.effective))
      ensures r.Ok? ==> old(current).Some? && loaded.Some? && Answers(r.value, old(current).value, current, epoch)
      ensures r.Ok? && !Settled(r.value).RolledBack? && !Settled(r.value).Unchanged? ==>
                current.value.effective == Prepared(loaded.value, endpoint(current.value.revision.epoch), false)
      ensures r.Err? ==> current == old(current) || current.None?
      ensures r.Err? ==> lastSpec == old(lastSpec)
      ensures advances == old(advances) + (if r.Ok? then Moved(r.value, old(current), current) else [])
    {
      hide Core, Safe, Run, Prepared, Chain, Classify, Coherent, Confirmed, Projects;
      var gate := QuarantineFault();
      if gate.Some? { return Err(gate.value); }
      if current.None? || env.terminal { return Err(NotStarted); }
      var before := current.value;
      if expected.Some? && expected.value != IdOf(before.revision) {
        return Err(RevisionConflict(expected.value, IdOf(before.revision)));
      }
      if loaded.None? || !env.launchable || !env.checks { return Err(Failed); }
      var desired := Derived(input, before.revision.epoch, before.revision.generation + 1, loaded.value, endpoint);
      var change := ClassifyChange(before, desired);
      hide Ended, Answered, Answers, Fits, LaunchOf;
      if change.Noop? {
        NoopAnswers(before, epoch);
        return Ok(Unchanged(before.revision));
      }
      r := Reconcile(change, desired, endpoint, env);
    }

    static lemma NoopAnswers(before: Launch, newest: nat)
      ensures var o := Unchanged(before.revision);
              Answers(o, before, Some(before), newest) && Fits(Mihomo.Noop, o) && Settled(o) == o
    {
    }

    /** What every reachable state says about the processes that may be alive. */
    ghost predicate Accounted()
      reads `current, `quarantine, `trace
    {
      var live := Epochs.Run(trace).live;
      && live == EpochOf(current) + Unproven(quarantine)
      && EpochOf(current) !! Held(quarantine)
      && (quarantine == [] ==> live == EpochOf(current))
    }

    lemma ViewIsRun()
      requires Valid()
      ensures view == Epochs.Run(trace)
    {
    }

    /** One public operation, with whatever its environment answers. */
    method Perform(op: Op)
      requires Valid() && Coherent(schema)
      modifies this
      ensures Valid() && old(trace) <= trace
      ensures old(quarantine) != [] && !op.RecoverOp? && !op.StopOp? && !op.ShutdownOp? ==> trace == old(trace)
      ensures !op.SwitchOp? && !op.RestartOp? ==> Quiet(trace, |old(trace)|)
    {
      ViewIsRun();
      hide Core, Safe, Run, Coherent, Prepared, RestoredBy, Confirmed, LaunchOf;
      match op {
      case StartOp(spec, loaded, endpoint, env) => var _ := Start(spec, loaded, endpoint, env);
      case StopOp(env) => var _ := Stop(env);
      case SwitchOp(spec, loaded, endpoint, env) => var _ := Switch(spec, loaded, endpoint, env);
      case RestartOp(loaded, endpoint, env) => var _ := Restart(loaded, endpoint, env);
      case ApplyOp(input, expected, loaded, endpoint, env) =>
        var _ := ApplyConfig(input, expected, loaded, endpoint, env);
      case RecoverOp(reaps, cleans) => var _ := RecoverQuarantine(reaps, cleans);
      case ShutdownOp(env) => var _ := Shutdown(env);
      }
      ViewIsRun();
      assert trace[..|old(trace)|] == old(trace);
      OverlapsGrow(trace, |old(trace)|);
    }
  }

  /** A public operation with what its caller and the environment bring: the loaded file, the endpoints, the answers. */
  datatype Op =
    | StartOp(spec: InstanceSpec, loaded: Option<Mapping>, endpoint: nat -> Option<string>, env: Env)
    | StopOp(env: Env)
    | SwitchOp(spec: InstanceSpec, loaded: Option<Mapping>, endpoint: nat -> Option<string>, env: Env)
    | RestartOp(loaded: Option<Mapping>, endpoint: nat -> Option<string>, env: Env)
    | ApplyOp(input: InstanceSpec, expected: Option<RevisionId>, loaded: Option<Mapping>,
              endpoint: nat -> Option<string>, env: Env)
    | RecoverOp(reaps: nat -> Reap, cleans: nat -> bool)
    | ShutdownOp(env: Env)

  /**
   Every run of public operations, under every answer of the environment: the
   processes that may be alive are accounted for, there are never more than two
   at any intermediate step, none is spawned under quarantine, the stable file is
   the current document, and no revision was ever the base of two applies.
   */
  method RunAll(schema: Mihomo.Schema, serialize: Mapping -> Bytes, hash: Bytes -> string, maxEpoch: nat, ops: seq<Op>)
    returns (m: CoreManager)
    requires Coherent(schema)
    ensures m.Valid() && Safe(m.trace) && m.Accounted() && m.Stored()
    ensures forall i :: 0 <= i <= |m.trace| ==> |Run(m.trace[..i]).live| <= 2
    ensures forall i :: 0 <= i < |m.trace| && m.trace[i].Spawned? ==> Run(m.trace[..i]).held == {}
    ensures forall i, j :: 0 <= i < j < |m.advances| ==> m.advances[i].0 != m.advances[j].0
  {
    hide Coherent;
    m := new CoreManager(schema, serialize, hash, maxEpoch);
    for i := 0 to |ops|
      invariant fresh(m) && m.schema == schema && m.Valid()
    {
      m.Perform(ops[i]);
    }
    forall i | 0 <= i <= |m.trace|
      ensures |Run(m.trace[..i]).live| <= 2
      ensures i < |m.trace| && m.trace[i].Spawned? ==> Run(m.trace[..i]).held == {}
    {
      EveryStepSafe(m.trace, i);
    }
    forall i, j | 0 <= i < j < |m.advances| ensures m.advances[i].0 != m.advances[j].0 {
      OneSuccessor(m.advances, m.view.last, i, j);
    }
  }

  /**
   `sweep_orphans`: it succeeds exactly if every process with a record is reaped and
   every epoch cleaned. Then nothing is left of any earlier epoch, every process that
   had a record was reaped before its record went, and the answer is the largest
   epoch, so every epoch allocated from it is fresh.
   */
  method SweepOrphans(epochs: seq<nat>, files: map<nat, Bytes>, records: set<nat>,
                      reaps: nat -> bool, cleans: nat -> bool)
    returns (r: Result<nat, Fault>, left: map<nat, Bytes>, reaped: set<nat>)
    requires forall e :: e in files || e in records ==> e in epochs
    ensures r.Ok? <==> forall i :: 0 <= i < |epochs| ==> Swept(epochs[i], records, reaps(i), cleans(i))
    ensures r.Ok? ==> left == map[] && reaped == records && (forall e :: e in epochs ==> e <= r.value)
    ensures r.Ok? ==> r.value == 0 || r.value in epochs
    ensures left.Keys <= files.Keys && reaped <= records
    ensures forall e :: e in records && e in files && e !in left ==> e in reaped
  {
    var max := Largest(epochs);
    left, reaped := files, {};
    for i := 0 to |epochs|
      invariant forall j :: 0 <= j < i ==> Swept(epochs[j], records, reaps(j), cleans(j))
      invariant left.Keys <= files.Keys && reaped <= records
      invariant forall e :: e in left ==> e in epochs[i..]
      invariant forall e :: e in records ==> e in epochs[i..] || e in reaped
      invariant forall e :: e in records && e in files && e !in left ==> e in reaped
    {
      var e := epochs[i];
      assert forall x :: x in epochs[i..] <==> x == e || x in epochs[i + 1..];
      if e in records && !reaps(i) { return Err(Failed), left, reaped; }
      reaped := reaped + if e in records then {e} else {};
      if !cleans(i) {
        var removed: bool := *;
        left := left - if removed then {e} else {};
        return Err(Failed), left, reaped;
      }
      left := left - {e};
    }
    r := Ok(max);
  }

  /** One epoch of the sweep: its process reaped if it has a record, and its artifacts cleaned. */
  predicate Swept(e: nat, records: set<nat>, reaps: bool, cleans: bool) { (e in records ==> reaps) && cleans }

  method Largest(epochs: seq<nat>) returns (max: nat)
    ensures (forall e :: e in epochs ==> e <= max) && (max == 0 || max in epochs)
  {
    max := 0;
    for i := 0 to |epochs|
      invariant forall j :: 0 <= j < i ==> epochs[j] <= max
      invariant max == 0 || max in epochs
    {
      if epochs[i] > max { max := epochs[i]; }
    }
  }
}
