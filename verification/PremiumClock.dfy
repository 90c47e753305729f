/**
 Dates for clash premium, which prints only a time of day: `premium_unix_ms` in
 `log.rs`. Instants are local seconds (dates are days), observations are local
 milliseconds, and the offset to UTC is fixed.
 */
module PremiumClock {
  import opened Wrappers

  const DAY: int := 86_400
  const HALF_DAY: int := 43_200

  function DateOf(t: int): int { t / DAY }

  function TimeOf(t: int): int { t % DAY }

  datatype Clock = Clock(date: int, time: int)

  /** A printed time of day and when the line was observed. */
  datatype Reading = Reading(time: int, observedMs: int)

  /** The clock after a line, given the one before it. */
  function Infer(clock: Option<Clock>, r: Reading): Clock {
    match clock
    case Some(c) => Clock(if c.time - r.time > HALF_DAY then c.date + 1 else c.date, r.time)
    case None =>
      var date := r.observedMs / (DAY * 1000);
      var ahead := r.time * 1000 - r.observedMs % (DAY * 1000);
      Clock(if ahead > HALF_DAY * 1000 then date - 1 else date, r.time)
  }

  /** `local_unix_ms`. */
  function UnixMs(c: Clock, offset: int): int { (c.date * DAY + c.time - offset) * 1000 }

  function Clocks(rs: seq<Reading>): (cs: seq<Clock>)
    ensures |cs| == |rs|
  {
    if rs == [] then []
    else
      var before := Clocks(rs[..|rs| - 1]);
      before + [Infer(if before == [] then None else Some(before[|before| - 1]), rs[|rs| - 1])]
  }

  /** A whole log: one mutable clock, one stamp per line. */
  method Stamps(rs: seq<Reading>, offset: int) returns (ms: seq<int>)
    ensures |ms| == |rs|
    ensures forall i :: 0 <= i < |rs| ==> ms[i] == UnixMs(Clocks(rs)[i], offset)
  {
    var clock: Option<Clock> := None;
    ms := [];
    for i := 0 to |rs|
      invariant |ms| == i
      invariant clock == if i == 0 then None else Some(Clocks(rs[..i])[i - 1])
      invariant forall k :: 0 <= k < i ==> ms[k] == UnixMs(Clocks(rs[..i])[k], offset)
    {
      assert rs[..i + 1][..i] == rs[..i];
      clock := Some(Infer(clock, rs[i]));
      ms := ms + [UnixMs(clock.value, offset)];
    }
    assert rs[..|rs|] == rs;
  }

  lemma DayParts(t: int)
    ensures DateOf(t) * DAY + TimeOf(t) == t && 0 <= TimeOf(t) < DAY
  {
  }

  /** Between instants in order: the date did not change, or it did and the time of day fell or a day passed. */
  lemma DatesInOrder(t: int, u: int)
    requires t <= u
    ensures DateOf(t) <= DateOf(u)
    ensures u - t == (DateOf(u) - DateOf(t)) * DAY + TimeOf(u) - TimeOf(t)
  {
    DayParts(t);
    DayParts(u);
  }

  /** A later line is dated right exactly when midnight was not crossed, or the gap is under half a day. */
  lemma LaterLineExact(t: int, u: int, observedMs: int)
    requires t <= u
    ensures Infer(Some(Clock(DateOf(t), TimeOf(t))), Reading(TimeOf(u), observedMs)) == Clock(DateOf(u), TimeOf(u))
            <==> (DateOf(t) == DateOf(u) || u - t < HALF_DAY)
  {
    DatesInOrder(t, u);
    DayParts(t);
    DayParts(u);
    if DateOf(u) >= DateOf(t) + 2 { assert (DateOf(u) - DateOf(t)) * DAY >= 2 * DAY; }
  }

  lemma MsParts(t: int, delayMs: int)
    ensures var o := t * 1000 + delayMs;
            o == (o / (DAY * 1000)) * (DAY * 1000) + o % (DAY * 1000) && 0 <= o % (DAY * 1000) < DAY * 1000
  {
  }

  /** The first line is dated right exactly when it was observed the same day, or under half a day late. */
  lemma FirstLineExact(t: int, delayMs: nat)
    ensures var o := t * 1000 + delayMs;
            Infer(None, Reading(TimeOf(t), o)) == Clock(DateOf(t), TimeOf(t))
            <==> (DateOf(t) == o / (DAY * 1000) || delayMs < HALF_DAY * 1000)
  {
    var o := t * 1000 + delayMs;
    DayParts(t);
    MsParts(t, delayMs);
    var days := o / (DAY * 1000) - DateOf(t);
    assert delayMs == days * (DAY * 1000) + o % (DAY * 1000) - TimeOf(t) * 1000;
    if days >= 2 { assert days * (DAY * 1000) >= 2 * (DAY * 1000); }
  }

  /** A log of true instants: in order, gaps under half a day, the first line observed within half a day. */
  ghost predicate Faithful(rs: seq<Reading>, truth: seq<int>) {
    && |rs| == |truth|
    && (forall i :: 0 <= i < |rs| ==> rs[i].time == TimeOf(truth[i]))
    && (forall i :: 0 <= i < |truth| - 1 ==> truth[i] <= truth[i + 1] < truth[i] + HALF_DAY)
    && (rs != [] ==> 0 <= rs[0].observedMs - truth[0] * 1000 < HALF_DAY * 1000)
  }

  lemma {:induction false} ClocksAreTrue(rs: seq<Reading>, truth: seq<int>)
    requires Faithful(rs, truth)
    ensures forall i :: 0 <= i < |rs| ==> Clocks(rs)[i] == Clock(DateOf(truth[i]), TimeOf(truth[i]))
  {
    if rs != [] {
      var n := |rs| - 1;
      assert Faithful(rs[..n], truth[..n]);
      ClocksAreTrue(rs[..n], truth[..n]);
      hide Infer;
      if n == 0 {
        FirstLineExact(truth[0], rs[0].observedMs - truth[0] * 1000);
      } else {
        LaterLineExact(truth[n - 1], truth[n], rs[n].observedMs);
      }
    }
  }

  /** Every stamp of a faithful log is the true one, across any number of midnights. */
  lemma {:induction false} StampsAreTrue(rs: seq<Reading>, truth: seq<int>, offset: int)
    requires Faithful(rs, truth)
    ensures forall i :: 0 <= i < |rs| ==> UnixMs(Clocks(rs)[i], offset) == (truth[i] - offset) * 1000
  {
    ClocksAreTrue(rs, truth);
    forall i | 0 <= i < |rs| ensures UnixMs(Clocks(rs)[i], offset) == (truth[i] - offset) * 1000 {
      DayParts(truth[i]);
    }
  }

  /** A log of instants in order, whose first line was not observed before it was written. */
  ghost predicate InOrder(rs: seq<Reading>, truth: seq<int>) {
    && |rs| == |truth|
    && (forall i :: 0 <= i < |rs| ==> rs[i].time == TimeOf(truth[i]))
    && (forall i :: 0 <= i < |truth| - 1 ==> truth[i] <= truth[i + 1])
    && (rs != [] ==> 0 <= rs[0].observedMs - truth[0] * 1000)
  }

  /** Line `i` can be dated from what is known before it. */
  predicate Datable(rs: seq<Reading>, truth: seq<int>, i: nat)
    requires i < |rs| == |truth|
  {
    if i == 0 then
      DateOf(truth[0]) == rs[0].observedMs / (DAY * 1000) || rs[0].observedMs - truth[0] * 1000 < HALF_DAY * 1000
    else DateOf(truth[i - 1]) == DateOf(truth[i]) || truth[i] - truth[i - 1] < HALF_DAY
  }

  /** Line `i` is stamped with the true instant. */
  predicate Dated(rs: seq<Reading>, truth: seq<int>, i: nat)
    requires i < |rs| == |truth|
  {
    Clocks(rs)[i] == Clock(DateOf(truth[i]), TimeOf(truth[i]))
  }

  lemma {:induction false} ClockAt(rs: seq<Reading>, i: nat)
    requires i < |rs|
    ensures Clocks(rs)[i] == Infer(if i == 0 then None else Some(Clocks(rs)[i - 1]), rs[i])
  {
    hide Infer;
    var n := |rs| - 1;
    if i < n {
      ClockAt(rs[..n], i);
    }
  }

  /** After a line dated right, the next is dated right exactly if it can be. */
  lemma DatedStep(rs: seq<Reading>, truth: seq<int>, i: nat)
    requires InOrder(rs, truth) && i < |rs| && (i > 0 ==> Dated(rs, truth, i - 1))
    ensures Dated(rs, truth, i) <==> Datable(rs, truth, i)
  {
    hide Infer, Clocks;
    ClockAt(rs, i);
    if i == 0 {
      FirstLineExact(truth[0], rs[0].observedMs - truth[0] * 1000);
    } else {
      assert truth[i - 1] <= truth[i];
      LaterLineExact(truth[i - 1], truth[i], rs[i].observedMs);
    }
  }

  lemma {:induction false} DatedUpTo(rs: seq<Reading>, truth: seq<int>, n: nat)
    requires InOrder(rs, truth) && n < |rs| && forall i :: 0 <= i <= n ==> Datable(rs, truth, i)
    ensures Dated(rs, truth, n)
  {
    if n > 0 { DatedUpTo(rs, truth, n - 1); }
    hide Dated;
    DatedStep(rs, truth, n);
  }

  /** A whole log is stamped right if and only if every line can be dated from the one before it. */
  lemma StampsExact(rs: seq<Reading>, truth: seq<int>, offset: int)
    requires InOrder(rs, truth)
    ensures (forall i :: 0 <= i < |rs| ==> UnixMs(Clocks(rs)[i], offset) == (truth[i] - offset) * 1000)
            <==> (forall i :: 0 <= i < |rs| ==> Datable(rs, truth, i))
  {
    hide Infer, Datable, Clocks;
    forall i | 0 <= i < |rs|
      ensures Dated(rs, truth, i) <==> UnixMs(Clocks(rs)[i], offset) == (truth[i] - offset) * 1000
    {
      StampIsDate(rs, truth, i, offset);
    }
    if forall i :: 0 <= i < |rs| ==> Datable(rs, truth, i) {
      forall i | 0 <= i < |rs| ensures Dated(rs, truth, i) { DatedUpTo(rs, truth, i); }
    } else if forall i :: 0 <= i < |rs| ==> Dated(rs, truth, i) {
      var i :| 0 <= i < |rs| && !Datable(rs, truth, i);
      DatedStep(rs, truth, i);
      assert false;
    }
  }

  lemma StampIsDate(rs: seq<Reading>, truth: seq<int>, i: nat, offset: int)
    requires InOrder(rs, truth) && i < |rs|
    ensures Dated(rs, truth, i) <==> UnixMs(Clocks(rs)[i], offset) == (truth[i] - offset) * 1000
  {
    ClockAt(rs, i);
    DayParts(truth[i]);
    hide Clocks;
  }

  /** At half a day exactly, across midnight, both rules pick the wrong date. */
  lemma HalfADayIsTooMuch()
    ensures var t, u := 20 * 3600, 20 * 3600 + HALF_DAY;
            && Infer(Some(Clock(DateOf(t), TimeOf(t))), Reading(TimeOf(u), u * 1000)).date == DateOf(u) - 1
            && Infer(None, Reading(TimeOf(t), u * 1000)).date == DateOf(t) + 1
  {
    assert DateOf(20 * 3600 + HALF_DAY) == 1 && TimeOf(20 * 3600 + HALF_DAY) == 8 * 3600;
  }
}
