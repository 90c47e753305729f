/**
 The health tracker of `health/mod.rs`: an incremental state machine, held to a
 specification over the whole history of probe results.
 */
module Health {
  import opened Wrappers
  import opened Utf8

  const U32_MAX: nat := 0xFFFF_FFFF
  const MAX_LAST_ERROR_BYTES: nat := 512

  datatype Policy = Policy(failureThreshold: nat, successThreshold: nat, startPeriod: nat)

  predicate ValidPolicy(p: Policy) {
    1 <= p.failureThreshold <= U32_MAX && 1 <= p.successThreshold <= U32_MAX
  }

  /** One probe result at an instant; `detail` of a failure is UTF-8 text. */
  datatype Probe = Good(now: int) | Bad(now: int, detail: Option<Bytes>)

  predicate ValidProbe(p: Probe) { p.Bad? && p.detail.Some? ==> ValidUtf8(p.detail.value) }

  datatype TrackerState = Starting | Healthy | Unhealthy

  datatype TrackerUpdate = TrackerUpdate(state: TrackerState, transitioned: bool, failures: nat,
                                         lastError: Option<Bytes>)

  // ----- the history specification ---------------------------------------------

  predicate Succeeded(h: seq<Probe>) { exists p :: p in h && p.Good? }

  /** Is a failure after `h` forgiven? Only before the first success, within the start period. */
  predicate InGrace(policy: Policy, startedAt: int, h: seq<Probe>, now: int) {
    !Succeeded(h) && now < startedAt + policy.startPeriod
  }

  /** Failures outside the grace period since the last success. */
  function Failures(policy: Policy, startedAt: int, h: seq<Probe>): nat {
    if h == [] || h[|h| - 1].Good? then 0
    else
      var rest := h[..|h| - 1];
      Failures(policy, startedAt, rest) + if InGrace(policy, startedAt, rest, h[|h| - 1].now) then 0 else 1
  }

  /** Consecutive successes at the end. */
  function Streak(h: seq<Probe>): nat {
    if h == [] || h[|h| - 1].Bad? then 0 else Streak(h[..|h| - 1]) + 1
  }

  /** The verdict is the one of the last prefix that reached a threshold. */
  function Verdict(policy: Policy, startedAt: int, h: seq<Probe>): TrackerState {
    if h == [] then Starting
    else if Streak(h) >= policy.successThreshold then Healthy
    else if Failures(policy, startedAt, h) >= policy.failureThreshold then Unhealthy
    else Verdict(policy, startedAt, h[..|h| - 1])
  }

  function Saturated(n: nat): nat { if n <= U32_MAX then n else U32_MAX }

  function LastError(h: seq<Probe>): Option<Bytes> {
    if h == [] || h[|h| - 1].Good? || h[|h| - 1].detail.None? then None
    else Some(Cut(h[|h| - 1].detail.value, MAX_LAST_ERROR_BYTES))
  }

  // ----- the tracker -------------------------------------------------------------

  class HealthTracker {
    const policy: Policy
    const startedAt: int
    var graceEnded: bool
    var state: TrackerState
    var consecutiveFailures: nat
    var consecutiveSuccesses: nat
    var lastError: Option<Bytes>

    ghost var history: seq<Probe>

    ghost predicate Valid()
      reads this
    {
      && ValidPolicy(policy)
      && graceEnded == Succeeded(history)
      && state == Verdict(policy, startedAt, history)
      && consecutiveFailures == Saturated(Failures(policy, startedAt, history))
      && consecutiveSuccesses == (if state == Healthy then 0 else Saturated(Streak(history)))
      && lastError == LastError(history)
    }

    constructor (policy: Policy, startedAt: int)
      requires ValidPolicy(policy)
      ensures Valid() && this.policy == policy && this.startedAt == startedAt && history == []
    {
      this.policy, this.startedAt := policy, startedAt;
      graceEnded, state, consecutiveFailures, consecutiveSuccesses := false, Starting, 0, 0;
      lastError := None;
      history := [];
    }

    /** `observe`. */
    method Observe(probe: Probe) returns (update: TrackerUpdate)
      requires Valid() && ValidProbe(probe)
      modifies this
      ensures Valid() && history == old(history) + [probe]
      ensures update == TrackerUpdate(Verdict(policy, startedAt, history),
                                      Verdict(policy, startedAt, old(history)) != Verdict(policy, startedAt, history),
                                      Saturated(Failures(policy, startedAt, history)), LastError(history))
    {
      ghost var h := history + [probe];
      Snoc(policy, startedAt, history, probe);
      NotHealthyIsShort(policy, startedAt, history);
      var previous := state;
      match probe {
      case Good(_) =>
        graceEnded := true;
        consecutiveFailures := 0;
        lastError := None;
        if state == Healthy {
          consecutiveSuccesses := 0;
        } else {
          consecutiveSuccesses := if consecutiveSuccesses == U32_MAX then U32_MAX else consecutiveSuccesses + 1;
          if consecutiveSuccesses >= policy.successThreshold {
            state := Healthy;
            consecutiveSuccesses := 0;
          }
        }
      case Bad(now, detail) =>
        consecutiveSuccesses := 0;
        if detail.Some? {
          var capped, _ := Truncate(detail.value, MAX_LAST_ERROR_BYTES);
          lastError := Some(capped);
        } else {
          lastError := None;
        }
        if graceEnded || now >= startedAt + policy.startPeriod {
          consecutiveFailures := if consecutiveFailures == U32_MAX then U32_MAX else consecutiveFailures + 1;
          if state != Unhealthy && consecutiveFailures >= policy.failureThreshold {
            state := Unhealthy;
          }
        }
      }
      history := h;
      update := TrackerUpdate(state, previous != state, consecutiveFailures, lastError);
    }
  }

  // ----- what the specification means ----------------------------------------------

  lemma Snoc(policy: Policy, startedAt: int, h: seq<Probe>, p: Probe)
    ensures var g := h + [p];
            && g[..|g| - 1] == h
            && Succeeded(g) == (Succeeded(h) || p.Good?)
            && Streak(g) == (if p.Good? then Streak(h) + 1 else 0)
            && Failures(policy, startedAt, g) == (if p.Good? then 0 else
                 Failures(policy, startedAt, h) + (if InGrace(policy, startedAt, h, p.now) then 0 else 1))
  {
    var g := h + [p];
    assert g[..|g| - 1] == h;
    assert forall q :: q in g <==> q in h || q == p;
  }

  /** Below its threshold in every state that has not reached it. */
  lemma NotHealthyIsShort(policy: Policy, startedAt: int, h: seq<Probe>)
    requires ValidPolicy(policy)
    ensures Verdict(policy, startedAt, h) != Healthy ==> Streak(h) < policy.successThreshold
    ensures Verdict(policy, startedAt, h) != Unhealthy ==> Failures(policy, startedAt, h) < policy.failureThreshold
  {
    if Streak(h) >= policy.successThreshold { assert Failures(policy, startedAt, h) == 0; }
  }

  /** Starting is left once and never entered again. */
  lemma {:induction false} NeverStartsAgain(policy: Policy, startedAt: int, h: seq<Probe>, more: seq<Probe>)
    requires Verdict(policy, startedAt, h) != Starting
    ensures Verdict(policy, startedAt, h + more) != Starting
  {
    if more == [] {
      assert h + more == h;
    } else {
      var m := |more| - 1;
      assert (h + more)[..|h + more| - 1] == h + more[..m];
      NeverStartsAgain(policy, startedAt, h, more[..m]);
    }
  }

  /** Each entry happens exactly on its threshold. */
  lemma EntriesAreExact(policy: Policy, startedAt: int, h: seq<Probe>, p: Probe)
    requires ValidPolicy(policy)
    ensures var was, now := Verdict(policy, startedAt, h), Verdict(policy, startedAt, h + [p]);
            && (was != Healthy ==> (now == Healthy <==> Streak(h + [p]) == policy.successThreshold))
            && (was != Unhealthy ==>
                 (now == Unhealthy <==> Failures(policy, startedAt, h + [p]) == policy.failureThreshold))
            && (was != now ==> now != Starting)
  {
    Snoc(policy, startedAt, h, p);
    NotHealthyIsShort(policy, startedAt, h);
  }

  /** The streak is the run of successes at the end. */
  lemma {:induction false} StreakMeans(h: seq<Probe>)
    ensures Streak(h) <= |h| && (forall i :: |h| - Streak(h) <= i < |h| ==> h[i].Good?)
    ensures Streak(h) < |h| ==> h[|h| - 1 - Streak(h)].Bad?
  {
    if h != [] && h[|h| - 1].Good? { StreakMeans(h[..|h| - 1]); }
  }

  /** How many of these probes completed at or after an instant. */
  function Late(h: seq<Probe>, limit: int): nat {
    if h == [] then 0 else Late(h[..|h| - 1], limit) + if h[|h| - 1].now >= limit then 1 else 0
  }

  /** Before the first success only failures at or after the end of the start period count. */
  lemma {:induction false} FailuresAtFirst(policy: Policy, startedAt: int, h: seq<Probe>)
    requires forall i :: 0 <= i < |h| ==> h[i].Bad?
    ensures Failures(policy, startedAt, h) == Late(h, startedAt + policy.startPeriod)
  {
    if h != [] {
      var s := h[..|h| - 1];
      assert forall i :: 0 <= i < |s| ==> s[i] == h[i];
      FailuresAtFirst(policy, startedAt, s);
    }
  }

  /** Once there was a success, all failures since the last one count. */
  lemma {:induction false} FailuresSince(policy: Policy, startedAt: int, h: seq<Probe>, g: nat)
    requires g < |h| && h[g].Good? && forall i :: g < i < |h| ==> h[i].Bad?
    ensures Failures(policy, startedAt, h) == |h| - 1 - g
  {
    if g < |h| - 1 {
      var s := h[..|h| - 1];
      assert s[g] == h[g] && forall i :: 0 <= i < |s| ==> s[i] == h[i];
      FailuresSince(policy, startedAt, s, g);
      assert s[g] in s;
    }
  }

  /** A prefix of `k` probes reached the success (or else the failure) threshold. */
  ghost predicate Heals(policy: Policy, h: seq<Probe>, k: nat) {
    0 < k <= |h| && Streak(h[..k]) >= policy.successThreshold
  }

  ghost predicate Sickens(policy: Policy, startedAt: int, h: seq<Probe>, k: nat) {
    0 < k <= |h| && Failures(policy, startedAt, h[..k]) >= policy.failureThreshold
  }

  lemma PrefixHits(policy: Policy, startedAt: int, h: seq<Probe>, n: nat)
    requires n <= |h|
    ensures forall k: nat :: k <= n ==> (Heals(policy, h[..n], k) <==> Heals(policy, h, k))
    ensures forall k: nat :: k <= n ==> (Sickens(policy, startedAt, h[..n], k) <==> Sickens(policy, startedAt, h, k))
  {
    assert forall k :: 0 <= k <= n ==> h[..n][..k] == h[..k];
  }

  lemma NotBoth(policy: Policy, startedAt: int, h: seq<Probe>, k: nat)
    requires ValidPolicy(policy)
    ensures !(Heals(policy, h, k) && Sickens(policy, startedAt, h, k))
  {
  }

  /** The last prefix that reached a threshold, 0 if none did. */
  lemma {:induction false} LastHit(policy: Policy, startedAt: int, h: seq<Probe>) returns (k: nat)
    requires ValidPolicy(policy)
    ensures forall j: nat :: k < j ==> !Heals(policy, h, j) && !Sickens(policy, startedAt, h, j)
    ensures match Verdict(policy, startedAt, h)
            case Starting => k == 0
            case Healthy => Heals(policy, h, k)
            case Unhealthy => Sickens(policy, startedAt, h, k)
  {
    k := |h|;
    assert h[..|h|] == h;
    if h != [] && !Heals(policy, h, |h|) && !Sickens(policy, startedAt, h, |h|) {
      var g := h[..|h| - 1];
      k := LastHit(policy, startedAt, g);
      PrefixHits(policy, startedAt, h, |g|);
      assert forall j: nat :: |g| < j ==> !Heals(policy, h, j) && !Sickens(policy, startedAt, h, j);
    }
  }

  /** Each state, by the thresholds reached: the last one decides, and Starting means none was. */
  lemma VerdictMeans(policy: Policy, startedAt: int, h: seq<Probe>)
    requires ValidPolicy(policy)
    ensures Verdict(policy, startedAt, h) == Healthy <==>
              exists k: nat :: Heals(policy, h, k) && forall j: nat :: k < j ==> !Sickens(policy, startedAt, h, j)
    ensures Verdict(policy, startedAt, h) == Unhealthy <==>
              exists k: nat :: Sickens(policy, startedAt, h, k) && forall j: nat :: k < j ==> !Heals(policy, h, j)
    ensures Verdict(policy, startedAt, h) == Starting <==>
              forall k: nat :: !Heals(policy, h, k) && !Sickens(policy, startedAt, h, k)
  {
    var last := LastHit(policy, startedAt, h);
    NotBoth(policy, startedAt, h, last);
    assert !Heals(policy, h, 0) && !Sickens(policy, startedAt, h, 0);
    hide Verdict, Heals, Sickens;
  }
}
