/**
 The specification the manager is held to: which sequences of process and
 control events are allowed, and what follows for every prefix of them.
 */
module Epochs {
  import opened Wrappers

  /** The ordered part of a revision. */
  datatype Key = Key(epoch: nat, generation: nat)

  predicate Before(a: Key, b: Key) {
    a.epoch < b.epoch || (a.epoch == b.epoch && a.generation < b.generation)
  }

  predicate AtMost(a: Key, b: Key) { a == b || Before(a, b) }

  datatype Event =
    | Spawned(epoch: nat)          // a process of this epoch may be alive from here on
    | ConfirmedDead(epoch: nat)    // its death was proven
    | Quarantined(epoch: nat)      // recorded as uncertain
    | Cleaned(epoch: nat)          // its artifacts were removed
    | Released(epoch: nat)         // dropped from quarantine
    | Vacated                      // `ctrl.current` taken
    | Installed(key: Key)          // `ctrl.current` set
    | Advanced(key: Key)           // the current revision replaced in place

  /**
   What a prefix of events amounts to. `clean`: cleaned since the last spawn.
   `overlaps`: how many spawns so far were beside the live current epoch.
   */
  datatype View = View(live: set<nat>, held: set<nat>, clean: set<nat>,
                       current: Option<Key>, last: Option<Key>, overlaps: nat)

  const START := View({}, {}, {}, None, None, 0)

  function Next(v: View, e: Event): View {
    match e
    case Spawned(n) =>
      v.(live := v.live + {n}, clean := v.clean - {n}, overlaps := if Overlap(v, n) then v.overlaps + 1 else v.overlaps)
    case ConfirmedDead(n) => v.(live := v.live - {n})
    case Quarantined(n) => v.(held := v.held + {n})
    case Cleaned(n) => v.(clean := v.clean + {n})
    case Released(n) => v.(held := v.held - {n})
    case Vacated => v.(current := None)
    case Installed(k) => v.(current := Some(k), last := Some(k))
    case Advanced(k) => v.(current := Some(k), last := Some(k))
  }

  /** An overlap is only ever the live current epoch beside a newer one. */
  predicate Overlap(v: View, n: nat) {
    v.current.Some? && v.live == {v.current.value.epoch} && v.current.value.epoch < n
  }

  predicate Allowed(v: View, e: Event) {
    match e
    case Spawned(n) => v.held == {} && n !in v.live && (v.live == {} || Overlap(v, n))
    case ConfirmedDead(n) => n in v.live
    case Quarantined(n) => n in v.live && n !in v.held && (v.current.Some? ==> v.current.value.epoch != n)
    case Cleaned(n) => n !in v.live
    case Released(n) => n in v.held && n !in v.live && n in v.clean
    case Vacated => v.current.Some?
    case Installed(k) =>
      v.held == {} && v.live == {k.epoch} && v.current.None? && (v.last.Some? ==> AtMost(v.last.value, k))
    case Advanced(k) =>
      v.held == {} && v.current.Some? && v.last == v.current
      && k == Key(v.current.value.epoch, v.current.value.generation + 1)
  }

  function Run(t: seq<Event>): View {
    if t == [] then START else Next(Run(t[..|t| - 1]), t[|t| - 1])
  }

  predicate Safe(t: seq<Event>) {
    t == [] || (Safe(t[..|t| - 1]) && Allowed(Run(t[..|t| - 1]), t[|t| - 1]))
  }

  lemma {:induction false} SafePrefix(t: seq<Event>, i: nat)
    requires Safe(t) && i <= |t|
    ensures Safe(t[..i])
    ensures i < |t| ==> Allowed(Run(t[..i]), t[i]) && Run(t[..i + 1]) == Next(Run(t[..i]), t[i])
  {
    if i == |t| {
      assert t[..i] == t;
    } else {
      var s := t[..|t| - 1];
      assert t[..i] == s[..i];
      if i < |t| - 1 {
        SafePrefix(s, i);
        assert t[..i + 1] == s[..i + 1] && s[i] == t[i];
      } else {
        assert t[..i + 1] == t && s[..i] == s;
      }
    }
  }

  // ----- at most two processes ---------------------------------------------

  /** Some earlier spawn put `n` beside the live current epoch `o`. */
  ghost predicate OverlappedAt(t: seq<Event>, j: nat, o: nat, n: nat) {
    j < |t| && t[j] == Spawned(n) && Overlap(Run(t[..j]), n) && Run(t[..j]).current.value.epoch == o
  }

  lemma StepSize(v: View, e: Event)
    requires Allowed(v, e) && |v.live| <= 2
    ensures |Next(v, e).live| <= 2
    ensures |Next(v, e).live| == 2 ==>
              Next(v, e).live == v.live
              || (e.Spawned? && Overlap(v, e.epoch) && Next(v, e).live == {v.current.value.epoch, e.epoch})
  {
    match e
    case Spawned(n) =>
      if v.live == {} { assert Next(v, e).live == {n}; }
      else { assert Next(v, e).live == {v.current.value.epoch, n}; }
    case ConfirmedDead(n) => assert v.live == Next(v, e).live + {n};
    case _ =>
  }

  /** At every step at most two processes may be alive, and two only after a graceful overlap. */
  lemma {:induction false} AtMostTwoLive(t: seq<Event>)
    requires Safe(t)
    ensures |Run(t).live| <= 2
    ensures |Run(t).live| == 2 ==> exists j: nat, o: nat, n: nat :: OverlappedAt(t, j, o, n) && Run(t).live == {o, n}
  {
    if t != [] {
      var s, e := t[..|t| - 1], t[|t| - 1];
      AtMostTwoLive(s);
      StepSize(Run(s), e);
      if |Run(t).live| == 2 {
        if Run(t).live == Run(s).live {
          var j: nat, o: nat, n: nat :| OverlappedAt(s, j, o, n) && Run(s).live == {o, n};
          assert t[..j] == s[..j] && t[j] == s[j];
          assert OverlappedAt(t, j, o, n);
        } else {
          assert OverlappedAt(t, |s|, Run(s).current.value.epoch, e.epoch);
        }
      }
    }
  }

  /** The same at every intermediate step, and no spawn ever happens under quarantine. */
  lemma EveryStepSafe(t: seq<Event>, i: nat)
    requires Safe(t) && i <= |t|
    ensures |Run(t[..i]).live| <= 2
    ensures i < |t| && t[i].Spawned? ==> Run(t[..i]).held == {}
    ensures i < |t| && t[i].Cleaned? ==> t[i].epoch !in Run(t[..i]).live
  {
    SafePrefix(t, i);
    AtMostTwoLive(t[..i]);
  }

  // ----- who may overlap ------------------------------------------------------

  /** From event `n` on, nothing was spawned beside the live current epoch. */
  ghost predicate Quiet(t: seq<Event>, n: nat) {
    forall i :: n <= i < |t| && t[i].Spawned? ==> !Overlap(Run(t[..i]), t[i].epoch)
  }

  lemma {:induction false} OverlapsGrow(t: seq<Event>, n: nat)
    requires n <= |t|
    ensures Run(t[..n]).overlaps <= Run(t).overlaps
    ensures Run(t[..n]).overlaps == Run(t).overlaps ==> Quiet(t, n)
    decreases |t| - n
  {
    if n == |t| {
      assert t[..n] == t;
    } else {
      assert t[..n + 1][..n] == t[..n];
      OverlapsGrow(t, n + 1);
    }
  }

  // ----- leaving quarantine -------------------------------------------------

  ghost predicate NoSpawnSince(t: seq<Event>, j: nat, n: nat) {
    forall k :: j <= k < |t| ==> t[k] != Spawned(n)
  }

  /** A clean epoch was cleaned, and not respawned since. */
  lemma {:induction false} CleanWasCleaned(t: seq<Event>, n: nat) returns (j: nat)
    requires Safe(t) && n in Run(t).clean
    ensures j < |t| && t[j] == Cleaned(n) && NoSpawnSince(t, j, n)
  {
    var s, e := t[..|t| - 1], t[|t| - 1];
    if e == Cleaned(n) {
      j := |t| - 1;
    } else {
      j := CleanWasCleaned(s, n);
    }
  }

  /** An epoch that was once alive and is not any more was proven dead, and not respawned since. */
  lemma {:induction false} NotLiveWasProven(t: seq<Event>, n: nat, a: nat) returns (j: nat)
    requires Safe(t) && n !in Run(t).live && a < |t| && t[a] == Spawned(n)
    ensures a < j < |t| && t[j] == ConfirmedDead(n) && NoSpawnSince(t, j, n)
  {
    var s, e := t[..|t| - 1], t[|t| - 1];
    if e == ConfirmedDead(n) {
      j := |t| - 1;
    } else {
      j := NotLiveWasProven(s, n, a);
    }
  }

  lemma {:induction false} LiveWasSpawned(t: seq<Event>, n: nat) returns (a: nat)
    requires Safe(t) && (n in Run(t).live || n in Run(t).held)
    ensures a < |t| && t[a] == Spawned(n)
  {
    var s, e := t[..|t| - 1], t[|t| - 1];
    if e == Spawned(n) { a := |t| - 1; }
    else { a := LiveWasSpawned(s, n); }
  }

  /**
   An entry leaves quarantine only after its process was proven dead and its
   artifacts were cleaned, in that order, with no respawn in between.
   */
  lemma ReleasedOnlyAfterProof(t: seq<Event>, i: nat) returns (dead: nat, clean: nat)
    requires Safe(t) && i < |t| && t[i].Released?
    ensures dead < clean < i
    ensures t[dead] == ConfirmedDead(t[i].epoch) && t[clean] == Cleaned(t[i].epoch)
    ensures forall k :: dead <= k < i ==> t[k] != Spawned(t[i].epoch)
  {
    var n, s := t[i].epoch, t[..i];
    SafePrefix(t, i);
    var a := LiveWasSpawned(s, n);
    dead := NotLiveWasProven(s, n, a);
    clean := CleanWasCleaned(s, n);
    if clean < dead {
      // The process was alive again between the two, so it was spawned after the cleanup.
      SafePrefix(s, dead);
      var b := SpawnedBefore(s, clean, dead, n);
    }
    assert clean != dead;
  }

  /** Not alive at `c` and alive at `d`: spawned in between. */
  lemma {:induction false} SpawnedBefore(t: seq<Event>, c: nat, d: nat, n: nat) returns (b: nat)
    requires Safe(t) && c < d < |t| && t[c] == Cleaned(n) && n in Run(t[..d]).live
    ensures c <= b < d && t[b] == Spawned(n)
    decreases d
  {
    SafePrefix(t, c);
    SafePrefix(t, d - 1);
    if t[d - 1] == Spawned(n) { b := d - 1; }
    else { b := SpawnedBefore(t, c, d - 1, n); }
  }

  // ----- revisions ----------------------------------------------------------

  predicate Sets(e: Event) { e.Installed? || e.Advanced? }

  lemma {:induction false} LastBounds(t: seq<Event>, i: nat)
    requires Safe(t) && i < |t| && Sets(t[i])
    ensures Run(t).last.Some? && AtMost(t[i].key, Run(t).last.value)
  {
    if i < |t| - 1 { LastBounds(t[..|t| - 1], i); }
  }

  /** Installed revisions never go back: later ones are equal (a rollback) or strictly greater. */
  lemma RevisionsNeverGoBack(t: seq<Event>, i: nat, j: nat)
    requires Safe(t) && i < j < |t| && Sets(t[i]) && Sets(t[j])
    ensures AtMost(t[i].key, t[j].key)
    ensures t[j].Advanced? ==> Before(t[i].key, t[j].key)
  {
    SafePrefix(t, j);
    LastBounds(t[..j], i);
  }

  // ----- compare and swap ---------------------------------------------------

  /** Successful applies that installed a successor: from one key to a later one. */
  ghost predicate Chain(advances: seq<(Key, Key)>, last: Option<Key>) {
    && (forall i :: 0 <= i < |advances| ==> Before(advances[i].0, advances[i].1))
    && (forall i, j :: 0 <= i < j < |advances| ==> AtMost(advances[i].1, advances[j].0))
    && (forall i :: 0 <= i < |advances| ==> last.Some? && AtMost(advances[i].1, last.value))
  }

  /** No ABA: the revisions compared against strictly increase, so none has two successors. */
  lemma OneSuccessor(advances: seq<(Key, Key)>, last: Option<Key>, i: nat, j: nat)
    requires Chain(advances, last) && i < j < |advances|
    ensures Before(advances[i].0, advances[j].0) && advances[i].0 != advances[j].0
  {
    assert Before(advances[i].0, advances[i].1) && AtMost(advances[i].1, advances[j].0);
  }
}
