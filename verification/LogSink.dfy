/**
 The archive writer of `log_sink.rs`: numbered files, rotated by size, pruned by
 count. Every listing, removal, creation and write asks the environment in turn
 whether it succeeds; failures are swallowed as in the source, and what the archive
 promises is promised while there are none.
 */
module LogSink {
  import opened Wrappers

  /** The environment's answer to each I/O call, in the order the calls are made. */
  type Io = nat -> bool

  /** No call from `a` up to `b` fails. */
  ghost predicate Good(io: Io, a: nat, b: nat) { forall i :: a <= i < b ==> io(i) }

  lemma GoodParts(io: Io, b: nat, c: nat)
    requires Good(io, 0, c) && b <= c
    ensures Good(io, 0, b) && Good(io, b, c)
  {
  }

  /** A serialized line, newline included. */
  type Record = r: string | r != "" witness "x"

  /** An entry of a batch: serialized, or one that cannot be. */
  datatype Entry = Line(record: Record) | Unserializable

  function Size(rs: seq<Record>): nat {
    if rs == [] then 0 else Size(rs[..|rs| - 1]) + |rs[|rs| - 1]|
  }

  lemma {:induction false} SizeConcat(a: seq<Record>, b: seq<Record>)
    ensures Size(a + b) == Size(a) + Size(b)
  {
    if b == [] {
      assert a + b == a;
    } else {
      assert (a + b)[..|a + b| - 1] == a + b[..|b| - 1];
      SizeConcat(a, b[..|b| - 1]);
    }
  }

  function Records(es: seq<Entry>): seq<Record> {
    if es == [] then []
    else Records(es[..|es| - 1]) + if es[|es| - 1].Line? then [es[|es| - 1].record] else []
  }

  type Directory = map<nat, seq<Record>>

  /** The files numbered below `n`, in order, end to end. */
  function Contents(dir: Directory, n: nat): seq<Record> {
    if n == 0 then [] else Contents(dir, n - 1) + if n - 1 in dir then dir[n - 1] else []
  }

  function From(dir: Directory, t: nat): Directory { map k | k in dir && k >= t :: dir[k] }

  function Older(dir: Directory, t: nat): Directory { map k | k in dir && k < t :: dir[k] }

  /** Dropping the oldest files drops a prefix. */
  lemma {:induction false} DroppingIsSuffix(dir: Directory, t: nat, n: nat)
    ensures Contents(dir, n) == Contents(dir, if t <= n then t else n) + Contents(From(dir, t), n)
    decreases n
  {
    if n > 0 {
      DroppingIsSuffix(dir, t, n - 1);
      if t == n {
        assert Contents(From(dir, t), n) == Contents(From(dir, t), n - 1) + [];
      }
    }
  }

  lemma {:induction false} ContentsSame(d: Directory, e: Directory, n: nat)
    requires forall k :: 0 <= k < n ==> (k in d <==> k in e) && (k in d ==> d[k] == e[k])
    ensures Contents(d, n) == Contents(e, n)
  {
    if n > 0 { ContentsSame(d, e, n - 1); }
  }

  predicate Suffix(a: seq<Record>, b: seq<Record>) { |a| <= |b| && b[|b| - |a|..] == a }

  // ----- which files to prune -------------------------------------------------------

  lemma {:induction false} MaxExists(s: set<nat>) returns (m: nat)
    requires s != {}
    ensures m in s && forall x :: x in s ==> x <= m
    decreases |s|
  {
    m :| m in s;
    var rest := s - {m};
    assert |rest| < |s|;
    if rest != {} {
      var n := MaxExists(rest);
      assert forall x :: x in s ==> x == m || x in rest;
      if m < n { m := n; }
    }
  }

  /** All but the newest `keep` of `seqs`. */
  ghost predicate Oldest(seqs: set<nat>, targets: set<nat>, keep: nat) {
    && targets <= seqs && |seqs - targets| == (if |seqs| <= keep then |seqs| else keep)
    && forall s, t :: s in targets && t in seqs - targets ==> s < t
  }

  lemma KeepOneMore(seqs: set<nat>, targets: set<nat>, keep: nat, m: nat)
    requires Oldest(seqs, targets, keep) && m in targets && forall x :: x in targets ==> x <= m
    ensures Oldest(seqs, targets - {m}, keep + 1)
  {
    var kept := seqs - targets;
    assert seqs - (targets - {m}) == kept + {m};
    assert seqs == targets + kept;
    assert |seqs| == |targets| + |kept|;
  }

  lemma NoneLeft(seqs: set<nat>, keep: nat)
    requires Oldest(seqs, {}, keep)
    ensures Oldest(seqs, {}, keep + 1)
  {
    assert seqs - {} == seqs;
  }

  /** `prune_targets`: all but the newest `keep`. */
  method PruneTargets(seqs: set<nat>, keep: nat) returns (targets: set<nat>)
    ensures targets <= seqs && |seqs - targets| == if |seqs| <= keep then |seqs| else keep
    ensures forall s, t :: s in targets && t in seqs - targets ==> s < t
  {
    targets := seqs;
    assert seqs - targets == {};
    assert Oldest(seqs, targets, 0);
    for i := 0 to keep
      invariant Oldest(seqs, targets, i)
    {
      hide Oldest;
      if targets == {} {
        NoneLeft(seqs, i);
      } else {
        ghost var top := MaxExists(targets);
        var m :| m in targets && forall x :: x in targets ==> x <= m;
        KeepOneMore(seqs, targets, i, m);
        targets := targets - {m};
      }
    }
  }

  /** Numbers in a short range are few. */
  lemma {:induction false} FewInRange(s: set<nat>, lo: int, hi: nat)
    requires lo <= hi && forall x :: x in s ==> lo < x <= hi
    ensures |s| <= hi - lo
    decreases hi - lo
  {
    if hi == 0 {
      if s != {} { var x :| x in s; assert x == 0; assert s == {0}; }
    } else if lo == hi {
      assert forall x :: x !in s;
      assert s == {};
    } else {
      FewInRange(s - {hi}, lo, hi - 1);
      assert s <= (s - {hi}) + {hi};
    }
  }

  // ----- the writer ------------------------------------------------------------------

  /** A file rotation closed: it reached the limit, and its last record crossed it. */
  predicate Closed(f: seq<Record>, maxBytes: nat) {
    && Size(f) >= maxBytes
    && (maxBytes > 0 ==> f != [] && Size(f) < maxBytes + |f[|f| - 1]|)
    && (maxBytes == 0 ==> |f| <= 1)
  }

  /** A file still being written: below the limit before its last record. */
  predicate Growing(f: seq<Record>, maxBytes: nat) {
    f == [] || Size(f[..|f| - 1]) < maxBytes || (maxBytes == 0 && |f| == 1)
  }

  lemma FullIsClosed(f: seq<Record>, maxBytes: nat)
    requires Growing(f, maxBytes) && Size(f) >= maxBytes
    ensures Closed(f, maxBytes)
  {
  }

  /** `max_bytes` and `max_files`. */
  datatype Limits = Limits(maxBytes: nat, maxFiles: nat)

  /** How many files may stay: the active one always does. */
  function Budget(l: Limits): nat { if l.maxFiles == 0 then 1 else l.maxFiles }

  /** Files this run closed are full, and the newest ones are all there. */
  ghost predicate RotatedOk(l: Limits, dir: Directory, active: nat, first: nat) {
    && (forall k :: k in dir && first <= k < active ==> Closed(dir[k], l.maxBytes))
    && (forall k :: first <= k <= active && active - k < Budget(l) ==> k in dir)
  }

  /**
   `whole` is the archive as it would be had nothing been pruned: the files there
   were before the run, and the run's own from `first` on, all but the active one
   closed.
   */
  ghost predicate WholeOk(l: Limits, before: Directory, whole: Directory, active: nat, first: nat) {
    && first <= active && (forall k :: k in whole <==> k in before || first <= k <= active)
    && (forall k :: k in before ==> k < first && whole[k] == before[k])
    && (forall k :: first <= k < active ==> Closed(whole[k], l.maxBytes))
  }

  function Range(a: nat, b: nat): (s: set<nat>)
    requires a <= b
    ensures |s| == b - a && forall k :: k in s <==> a <= k < b
    decreases b - a
  {
    if a == b then {} else Range(a, b - 1) + {b - 1}
  }

  /** Its files: the old ones, below `first`, and the run's, from there up to the active one. */
  lemma WholeFiles(l: Limits, before: Directory, whole: Directory, active: nat, first: nat)
    requires WholeOk(l, before, whole, active, first)
    ensures first <= active && active in whole && forall k :: k in whole ==> k <= active
    ensures forall k :: k in before <==> k in whole && k < first
    ensures forall k :: k in before ==> whole[k] == before[k]
    ensures |whole| == |before| + (active - first) + 1
  {
    hide Closed;
    var run := Range(first, active + 1);
    assert whole.Keys == before.Keys + run && before.Keys !! run;
    assert |whole| == |whole.Keys| && |before| == |before.Keys|;
  }

  /** `now` is the newest `n` files of `dir`, or all of them if there are no more, unchanged. */
  ghost predicate Newest(dir: Directory, now: Directory, n: nat) {
    && now.Keys <= dir.Keys && (forall k :: k in now ==> now[k] == dir[k])
    && |now| == (if |dir| <= n then |dir| else n)
    && forall j, k :: j in dir && j !in now && k in now ==> j < k
  }

  /**
   What the archive promises, with `pending` still in the buffer for the active
   file: what is there is the newest files of the whole archive, and `stream` is all
   its records.
   */
  ghost predicate ArchiveOk(l: Limits, before: Directory, whole: Directory, dir: Directory, active: nat, first: nat,
                            stream: seq<Record>, pending: seq<Record>) {
    && active in dir && Growing(dir[active] + pending, l.maxBytes)
    && Newest(whole, dir, Budget(l)) && WholeOk(l, before, whole, active, first)
    && Contents(whole, active + 1) == stream
  }

  /** The newest `j` closed files of a run hold at least `j` times the limit. */
  lemma {:induction false} ClosedFilesAreFull(l: Limits, dir: Directory, active: nat, first: nat, j: nat)
    requires RotatedOk(l, dir, active, first) && j < Budget(l) && first + j <= active
    ensures Size(Contents(From(dir, active - j), active)) >= j * l.maxBytes
    decreases j
  {
    if j == 0 {
    } else {
      var k := active - j;
      ClosedFilesAreFull(l, dir, active, first, j - 1);
      assert k in dir && Closed(dir[k], l.maxBytes);
      FirstFile(dir, k, active);
      SizeConcat(dir[k], Contents(From(dir, k + 1), active));
      assert j * l.maxBytes == (j - 1) * l.maxBytes + l.maxBytes;
    }
  }

  lemma {:induction false} FirstFile(dir: Directory, k: nat, n: nat)
    requires k in dir && k < n
    ensures Contents(From(dir, k), n) == dir[k] + Contents(From(dir, k + 1), n)
    decreases n
  {
    if n == k + 1 {
      NothingBelow(From(dir, k), k);
      NothingBelow(From(dir, k + 1), k + 1);
    } else {
      FirstFile(dir, k, n - 1);
    }
  }

  lemma {:induction false} NothingBelow(dir: Directory, n: nat)
    requires forall k :: k in dir ==> k >= n
    ensures Contents(dir, n) == []
  {
    ContentsSame(dir, map[], n);
    Empty(n);
  }

  lemma {:induction false} Empty(n: nat)
    ensures Contents(map[], n) == []
  {
    if n > 0 { Empty(n - 1); }
  }

  /** So a run that rotated through its budget still holds all but one budget's worth of bytes. */
  lemma RetainedSize(l: Limits, dir: Directory, active: nat, first: nat)
    requires RotatedOk(l, dir, active, first) && first + Budget(l) - 1 <= active
    ensures Size(Contents(dir, active + 1)) >= (Budget(l) - 1) * l.maxBytes
  {
    var j := Budget(l) - 1;
    var last := if active in dir then dir[active] else [];
    assert Contents(dir, active + 1) == Contents(dir, active) + last;
    ClosedFilesAreFull(l, dir, active, first, j);
    DroppingIsSuffix(dir, active - j, active);
    hide *;
    SizeOfParts(Contents(dir, active - j), Contents(From(dir, active - j), active), last);
  }

  lemma SizeOfParts(a: seq<Record>, b: seq<Record>, c: seq<Record>)
    ensures Size(a + b + c) >= Size(b)
  {
    SizeConcat(a + b, c);
    SizeConcat(a, b);
  }

  // ----- the newest files ---------------------------------------------------------------

  lemma SameSize(a: set<nat>, b: set<nat>)
    requires a <= b && |a| == |b|
    ensures a == b
  {
    assert b == a + (b - a);
    assert |b - a| == 0;
  }

  /** If there are few enough, the newest are all. */
  lemma NewestIsAll(dir: Directory, now: Directory, n: nat)
    requires Newest(dir, now, n) && |dir| <= n
    ensures now == dir
  {
    assert |now.Keys| == |now| && |dir.Keys| == |dir|;
    SameSize(now.Keys, dir.Keys);
  }

  lemma NewestOfNewest(a: Directory, b: Directory, c: Directory, m: nat, n: nat)
    requires Newest(a, b, m) && Newest(b, c, n)
    ensures Newest(a, c, if m <= n then m else n)
  {
    forall j, k | j in a && j !in c && k in c ensures j < k { if j !in b { assert k in b; } }
  }

  /** A file newer than all others joins both sides. */
  lemma NewestPlusOne(a: Directory, b: Directory, n: nat, k: nat, f: seq<Record>)
    requires Newest(a, b, n) && forall x :: x in a ==> x < k
    ensures Newest(a[k := f], b[k := f], n + 1)
  {
    OneMoreFile(a, k, f);
    OneMoreFile(b, k, f);
  }

  lemma NewestRewritten(a: Directory, b: Directory, n: nat, k: nat, f: seq<Record>)
    requires Newest(a, b, n) && k in b
    ensures Newest(a[k := f], b[k := f], n)
  {
    assert a[k := f].Keys == a.Keys && b[k := f].Keys == b.Keys;
    assert |a[k := f]| == |a[k := f].Keys| && |a.Keys| == |a|;
    assert |b[k := f]| == |b[k := f].Keys| && |b.Keys| == |b|;
  }

  lemma OneMoreFile(dir: Directory, next: nat, f: seq<Record>)
    requires next !in dir
    ensures |dir[next := f]| == |dir| + 1
  {
    var now: Directory := dir[next := f];
    assert now.Keys == dir.Keys + {next};
    assert |now.Keys| == |now| && |dir.Keys| == |dir|;
  }

  /** The newest files are those from some number on. */
  lemma NewestIsFrom(whole: Directory, dir: Directory, n: nat) returns (t: nat)
    requires Newest(whole, dir, n) && dir != map[]
    ensures dir == From(whole, t) && t in dir
  {
    t := MinExists(dir.Keys);
    forall k | k in whole ensures k in dir <==> k >= t { }
  }

  lemma {:induction false} MinExists(s: set<nat>) returns (m: nat)
    requires s != {}
    ensures m in s && forall x :: x in s ==> m <= x
    decreases |s|
  {
    m :| m in s;
    var rest := s - {m};
    assert |rest| < |s|;
    if rest != {} {
      var n := MinExists(rest);
      assert forall x :: x in s ==> x == m || x in rest;
      if n < m { m := n; }
    }
  }

  // ----- pruning a directory ------------------------------------------------------------

  /** Everything but the oldest is the newest. */
  lemma PrunedPlain(dir: Directory, targets: set<nat>, keep: nat)
    requires Oldest(dir.Keys, targets, keep)
    ensures Newest(dir, dir - targets, keep)
  {
    var now := dir - targets;
    assert now.Keys == dir.Keys - targets;
    assert |now| == |now.Keys| && |dir| == |dir.Keys|;
  }

  /** The newest file is protected although nothing was to be kept. */
  lemma PrunedProtected(dir: Directory, targets: set<nat>, keep: nat, top: nat)
    requires (forall k :: k in dir ==> k <= top) && top in targets && Oldest(dir.Keys, targets, keep)
    ensures keep == 0 && Newest(dir, dir - (targets - {top}), 1)
  {
    assert forall t :: t in dir.Keys - targets ==> top < t;
    assert dir.Keys - targets == {};
    assert top in dir.Keys;
    var now := dir - (targets - {top});
    assert now.Keys == {top};
    assert |now| == |now.Keys| && |dir| == |dir.Keys|;
    assert {top} <= dir.Keys && dir.Keys == {top} + (dir.Keys - {top});
  }

  /** `prune_dir`: the newest `keep` files stay, and a protected newest file in any case. */
  method PruneDir(dir: Directory, keep: nat, protect: Option<nat>, io: Io, at: nat)
    returns (now: Directory, calls: nat)
    requires protect.Some? ==> protect.value in dir && forall k :: k in dir ==> k <= protect.value
    ensures now.Keys <= dir.Keys && forall k :: k in now ==> now[k] == dir[k]
    ensures protect.Some? ==> protect.value in now
    ensures calls > at
    ensures Good(io, at, calls) ==> Newest(dir, now, if keep == 0 && protect.Some? then 1 else keep)
  {
    now, calls := dir, at + 1;
    if !io(at) { return; }
    var targets := PruneTargets(dir.Keys, keep);
    var doomed := if protect.Some? then targets - {protect.value} else targets;
    if protect.Some? && protect.value in targets {
      PrunedProtected(dir, targets, keep, protect.value);
    } else {
      PrunedPlain(dir, targets, keep);
      assert doomed == targets;
    }
    hide Newest, Oldest;
    now, calls := Delete(dir, doomed, io, at + 1);
  }

  /** Remove files one by one; each removal may fail. */
  method Delete(dir: Directory, doomed: set<nat>, io: Io, at: nat) returns (now: Directory, calls: nat)
    ensures now.Keys <= dir.Keys && (forall k :: k in now ==> now[k] == dir[k])
    ensures dir.Keys - doomed <= now.Keys && calls >= at
    ensures Good(io, at, calls) ==> now == dir - doomed
  {
    now, calls := dir, at;
    var rest := doomed;
    while rest != {}
      invariant rest <= doomed && calls >= at
      invariant now.Keys <= dir.Keys && (forall k :: k in now ==> now[k] == dir[k])
      invariant dir.Keys - doomed <= now.Keys
      invariant Good(io, at, calls) ==> now.Keys == dir.Keys - (doomed - rest)
      decreases rest
    {
      var s :| s in rest;
      rest := rest - {s};
      if io(calls) { now := now - {s}; }
      calls := calls + 1;
    }
  }

  // ----- what each step does to the archive ------------------------------------------------

  /** Keys up to a bound that has its own entry replaced. */
  lemma ReplacedContents(dir: Directory, n: nat, f: seq<Record>)
    ensures Contents(dir[n := f], n + 1) == Contents(dir, n) + f
  {
    ContentsSame(dir, dir[n := f], n);
  }

  lemma Associates(a: seq<Record>, b: seq<Record>, c: seq<Record>)
    ensures a + (b + c) == a + b + c
  {
  }

  /** Rewriting the active file. */
  lemma WholeFlushed(l: Limits, before: Directory, whole: Directory, active: nat, first: nat, f: seq<Record>)
    requires WholeOk(l, before, whole, active, first)
    ensures active in whole && WholeOk(l, before, whole[active := f], active, first)
  {
    hide Closed;
  }

  lemma ArchiveFlushed(l: Limits, before: Directory, whole: Directory, dir: Directory, active: nat, first: nat,
                       stream: seq<Record>, buffer: seq<Record>)
    requires ArchiveOk(l, before, whole, dir, active, first, stream, buffer)
    ensures active in whole && whole[active] == dir[active]
    ensures var f := dir[active] + buffer;
            ArchiveOk(l, before, whole[active := f], dir[active := f], active, first, stream + buffer, [])
  {
    var f := dir[active] + buffer;
    WholeFlushed(l, before, whole, active, first, f);
    assert whole[active] == dir[active];
    hide WholeOk, Growing;
    assert Contents(whole, active + 1) == Contents(whole, active) + dir[active];
    ReplacedContents(whole, active, f);
    hide Contents;
    Associates(Contents(whole, active), dir[active], buffer);
    assert f + [] == f;
    NewestRewritten(whole, dir, Budget(l), active, f);
    hide Newest, Budget;
  }

  lemma ArchiveGrows(l: Limits, before: Directory, whole: Directory, dir: Directory, active: nat, first: nat,
                     stream: seq<Record>, pending: seq<Record>, r: Record)
    requires ArchiveOk(l, before, whole, dir, active, first, stream, pending)
    requires Size(dir[active]) + Size(pending) < l.maxBytes || dir[active] + pending == []
    ensures ArchiveOk(l, before, whole, dir, active, first, stream, pending + [r])
  {
    hide Contents, WholeOk, Size, Newest;
    SizeConcat(dir[active], pending);
    Associates(dir[active], pending, [r]);
    GrowsByOne(dir[active] + pending, r, l.maxBytes);
  }

  lemma GrowsByOne(f: seq<Record>, r: Record, maxBytes: nat)
    requires Size(f) < maxBytes || f == []
    ensures Growing(f + [r], maxBytes)
  {
    assert (f + [r])[..|f + [r]| - 1] == f;
    assert Size([]) == 0;
  }

  /** How many files the pruning before a rotation leaves: room for one more, and the active file in any case. */
  function Spared(l: Limits): nat { if l.maxFiles <= 1 then 1 else l.maxFiles - 1 }

  /** The next file is begun, and the one before it is closed. */
  lemma WholeRotated(l: Limits, before: Directory, whole: Directory, active: nat, first: nat)
    requires WholeOk(l, before, whole, active, first) && Closed(whole[active], l.maxBytes)
    ensures WholeOk(l, before, whole[active + 1 := []], active + 1, first)
  {
    hide Closed;
  }

  /** Two prunings around a new empty file leave the newest files of the whole archive with that file. */
  lemma NewestRotated(l: Limits, whole: Directory, dir: Directory, active: nat, pruned: Directory, now: Directory)
    requires Newest(whole, dir, Budget(l)) && forall k :: k in whole ==> k <= active
    requires Newest(dir, pruned, Spared(l)) && Newest(pruned[active + 1 := []], now, Budget(l)) && active + 1 in now
    ensures Newest(whole[active + 1 := []], now, Budget(l)) && now[active + 1] == []
  {
    assert now[active + 1] == [];
    hide Newest;
    NewestOfNewest(whole, dir, pruned, Budget(l), Spared(l));
    NewestPlusOne(whole, pruned, Spared(l), active + 1, []);
    NewestOfNewest(whole[active + 1 := []], pruned[active + 1 := []], now, Spared(l) + 1, Budget(l));
  }

  lemma EmptyFile(stream: seq<Record>, maxBytes: nat)
    ensures var none: seq<Record> := []; Growing(none + none, maxBytes) && stream + none == stream
  {
  }

  /** What the archive says of the active file, and of the whole. */
  lemma ActiveFile(l: Limits, before: Directory, whole: Directory, dir: Directory, active: nat, first: nat,
                   stream: seq<Record>)
    requires ArchiveOk(l, before, whole, dir, active, first, stream, [])
    ensures active in whole && whole[active] == dir[active] && Growing(dir[active], l.maxBytes)
    ensures forall k :: k in whole ==> k <= active
  {
    hide Contents, Growing, WholeOk;
    assert dir[active] + [] == dir[active];
    WholeFiles(l, before, whole, active, first);
  }

  lemma ArchiveRotated(l: Limits, before: Directory, whole: Directory, dir: Directory, active: nat, first: nat,
                       stream: seq<Record>, pruned: Directory, now: Directory)
    requires ArchiveOk(l, before, whole, dir, active, first, stream, []) && Size(dir[active]) >= l.maxBytes
    requires Newest(dir, pruned, Spared(l)) && Newest(pruned[active + 1 := []], now, Budget(l)) && active + 1 in now
    ensures ArchiveOk(l, before, whole[active + 1 := []], now, active + 1, first, stream, []) && now[active + 1] == []
  {
    hide Closed, Growing, Size, Contents, Newest, WholeOk, Budget, Spared;
    EmptyFile(stream, l.maxBytes);
    ActiveFile(l, before, whole, dir, active, first, stream);
    FullIsClosed(dir[active], l.maxBytes);
    WholeRotated(l, before, whole, active, first);
    ReplacedContents(whole, active + 1, []);
    NewestRotated(l, whole, dir, active, pruned, now);
  }

  lemma WholeOpened(l: Limits, before: Directory, next: nat)
    requires forall k :: k in before ==> k < next
    ensures WholeOk(l, before, before[next := []], next, next)
  {
    hide Closed;
  }

  lemma ArchiveOpened(l: Limits, before: Directory, pruned: Directory, next: nat)
    requires (forall k :: k in before ==> k < next) && Newest(before, pruned, Budget(l) - 1)
    ensures ArchiveOk(l, before, before[next := []], pruned[next := []], next, next, Contents(before, next), [])
  {
    hide Contents, WholeOk, Growing, Newest;
    EmptyFile(Contents(before, next), l.maxBytes);
    NewestPlusOne(before, pruned, Budget(l) - 1, next, []);
    WholeOpened(l, before, next);
    ReplacedContents(before, next, []);
  }

  // ----- the writer ------------------------------------------------------------------

  class Writer {
    const limits: Limits
    const io: Io
    var dir: Directory
    var active: nat
    var written: nat
    var calls: nat                     // I/O calls made so far

    ghost const before: Directory      // what the run found
    ghost const first: nat             // the file it opened
    ghost var whole: Directory         // the archive had nothing been pruned
    ghost var stream: seq<Record>      // what was archived before, then everything written

    /** No I/O call has failed. */
    ghost predicate Clean()
      reads `calls
    {
      Good(io, 0, calls)
    }

    /** The active file is there and newest, whatever failed. */
    ghost predicate ActiveOk()
      reads `dir, `active
    {
      active in dir && first <= active && forall k :: k in dir ==> k <= active
    }

    /** Ready to go on, with `pending` in the buffer. */
    ghost predicate Ready(pending: seq<Record>)
      reads this
    {
      && ActiveOk()
      && (Clean() ==>
            written == Size(dir[active]) && ArchiveOk(limits, before, whole, dir, active, first, stream, pending))
    }

    ghost predicate Valid()
      reads this
    {
      Ready([])
    }

    /** The end of `open`: the next file was created in a pruned directory. */
    constructor (ghost existing: Directory, pruned: Directory, limits: Limits, next: nat, io: Io, calls: nat)
      requires (forall k :: k in existing ==> k < next) && pruned.Keys <= existing.Keys
      requires Good(io, 0, calls) ==> Newest(existing, pruned, Budget(limits) - 1)
      ensures Valid() && active == next && dir == pruned[next := []] && this.io == io && this.calls == calls
      ensures this.limits == limits && stream == Contents(existing, next) && before == existing && first == next
    {
      this.limits, this.io, this.calls := limits, io, calls;
      dir, active, written := pruned[next := []], next, 0;
      before, first, whole, stream := existing, next, existing[next := []], Contents(existing, next);
      new;
      if Good(io, 0, calls) { ArchiveOpened(limits, existing, pruned, next); }
      hide ArchiveOk;
    }

    /** `next_seq`: past every number there is. */
    static method NextSeq(existing: Directory) returns (next: nat)
      ensures next > 0 && (forall k :: k in existing ==> k < next) && (next == 1 || next - 1 in existing)
    {
      next := 1;
      if existing != map[] {
        assert exists k :: k in existing.Keys;
        ghost var top := MaxExists(existing.Keys);
        var m :| m in existing.Keys && forall x :: x in existing.Keys ==> x <= m;
        next := m + 1;
      }
    }

    /**
     `open`: a new file per run, numbered past every other, never an append; a failed
     listing or creation is an error. Of what was there the newest files stay, as
     many as leave room for the new one.
     */
    static method Open(existing: Directory, limits: Limits, io: Io) returns (w: Option<Writer>)
      ensures (forall i :: io(i)) ==> w.Some?
      ensures w.Some? ==> fresh(w.value) && w.value.Valid() && w.value.limits == limits && w.value.io == io
      ensures w.Some? ==> w.value.dir[w.value.active] == [] && forall k :: k in existing ==> k < w.value.active
      ensures w.Some? ==> w.value.before == existing && w.value.first == w.value.active
      ensures w.Some? ==> w.value.stream == Contents(existing, w.value.active)
      ensures w.Some? && w.value.Clean() ==> Newest(existing, w.value.dir - {w.value.active}, Budget(limits) - 1)
      ensures w.Some? && w.value.Clean() && |existing| < Budget(limits) ==>
                w.value.dir == existing[w.value.active := []]
    {
      if !io(0) { return None; }
      var next := NextSeq(existing);
      var keep := if limits.maxFiles == 0 then 0 else limits.maxFiles - 1;
      var pruned, calls := PruneDir(existing, keep, None, io, 1);
      if !io(calls) { return None; }
      hide Newest, Writer.Valid;
      WithoutNew(existing, pruned, next);
      var writer := new Writer(existing, pruned, limits, next, io, calls + 1);
      if writer.Clean() && |existing| < Budget(limits) { NewestIsAll(existing, pruned, keep); }
      w := Some(writer);
    }

    static lemma WithoutNew(existing: Directory, pruned: Directory, next: nat)
      requires pruned.Keys <= existing.Keys && forall k :: k in existing ==> k < next
      ensures pruned[next := []] - {next} == pruned
    {
    }

    /** `flush_pending`: everything buffered goes to the active file, or is dropped. */
    method FlushPending(buffer: seq<Record>)
      requires Ready(buffer)
      modifies `dir, `written, `calls, `whole, `stream
      ensures Valid() && calls >= old(calls)
      ensures Clean() ==> dir == old(dir)[active := old(dir)[active] + buffer] && stream == old(stream) + buffer
    {
      hide ArchiveOk;
      if Clean() { ArchiveFlushed(limits, before, whole, dir, active, first, stream, buffer); }
      SizeConcat(dir[active], buffer);
      if buffer == [] {
        assert dir[active] + buffer == dir[active] && stream + buffer == stream;
        assert dir[active := dir[active]] == dir;
        assert Clean() ==> whole[active := dir[active]] == whole;
        return;
      }
      calls := calls + 1;
      if !io(calls - 1) {
        var torn: seq<Record> := *;
        dir := dir[active := torn];
        return;
      }
      dir, whole := dir[active := dir[active] + buffer], whole[active := dir[active] + buffer];
      stream := stream + buffer;
      written := written + Size(buffer);
    }

    /** The steps of `rotate` on the directory: prune around the active file, create the next, prune around that. */
    static method RollOver(dir: Directory, limits: Limits, active: nat, io: Io, at: nat)
      returns (now: Directory, rolled: bool, calls: nat, ghost pruned: Directory)
      requires active in dir && forall k :: k in dir ==> k <= active
      ensures var next := if rolled then active + 1 else active; next in now && forall k :: k in now ==> k <= next
      ensures calls >= at
      ensures Good(io, at, calls) ==>
                && rolled && Newest(dir, pruned, Spared(limits))
                && Newest(pruned[active + 1 := []], now, Budget(limits))
    {
      hide Newest;
      var keep := if limits.maxFiles == 0 then 0 else limits.maxFiles - 1;
      var kept, c1 := PruneDir(dir, keep, Some(active), io, at);
      pruned := kept;
      rolled := io(c1);
      if !rolled {
        now, calls := kept, c1 + 1;
        return;
      }
      now, calls := PruneDir(kept[active + 1 := []], limits.maxFiles, Some(active + 1), io, c1 + 1);
    }

    /** A rotation without a failed call keeps the archive. */
    static lemma RotationKeeps(l: Limits, before: Directory, whole: Directory, dir: Directory, active: nat, first: nat,
                               stream: seq<Record>, io: Io, at: nat, after: nat, rolled: bool,
                               pruned: Directory, now: Directory)
      requires Good(io, 0, at) ==> ArchiveOk(l, before, whole, dir, active, first, stream, [])
      requires Good(io, 0, at) ==> Size(dir[active]) >= l.maxBytes
      requires at <= after
      requires Good(io, at, after) ==>
                 && rolled && active + 1 in now
                 && Newest(dir, pruned, Spared(l)) && Newest(pruned[active + 1 := []], now, Budget(l))
      ensures Good(io, 0, after) ==>
                && rolled && now[active + 1] == []
                && ArchiveOk(l, before, whole[active + 1 := []], now, active + 1, first, stream, [])
    {
      hide ArchiveOk, Newest, Size;
      if Good(io, 0, after) {
        GoodParts(io, at, after);
        ArchiveRotated(l, before, whole, dir, active, first, stream, pruned, now);
      }
    }

    /** `rotate`. The file being written is never pruned; on failure writing goes on in it. */
    method Rotate()
      requires Valid() && (Clean() ==> Size(dir[active]) >= limits.maxBytes)
      modifies `dir, `active, `written, `calls, `whole
      ensures Valid() && calls >= old(calls)
      ensures Clean() ==> active == old(active) + 1 && dir[active] == []
      ensures active == old(active) || active == old(active) + 1
    {
      var empty: seq<Record> := [];
      assert Size(empty) == 0;
      hide ArchiveOk, Newest, Size, Budget, Spared, Good;
      var now, rolled, after, pruned := RollOver(dir, limits, active, io, calls);
      RotationKeeps(limits, before, whole, dir, active, first, stream, io, calls, after, rolled, pruned, now);
      if rolled { Settle(now, active + 1, 0, after, whole[active + 1 := []]); }
      else { Settle(now, active, written, after, whole); }
    }

    /** What a rotation leaves to write into. */
    method Settle(now: Directory, next: nat, size: nat, after: nat, ghost grown: Directory)
      requires next in now && first <= next && forall k :: k in now ==> k <= next
      requires Good(io, 0, after) ==>
                 size == Size(now[next]) && ArchiveOk(limits, before, grown, now, next, first, stream, [])
      modifies `dir, `active, `written, `calls, `whole
      ensures Valid() && dir == now && active == next && calls == after
    {
      hide ArchiveOk, Good, Size;
      dir, active, written, calls, whole := now, next, size, after, grown;
    }

    /** `write`: one batch, checking the limit before each record. */
    method Write(batch: seq<Entry>)
      requires Valid()
      modifies `dir, `active, `written, `calls, `whole, `stream
      ensures Valid() && calls >= old(calls)
      ensures Clean() ==> stream == old(stream) + Records(batch)
      ensures Clean() ==> Newest(whole, dir, Budget(limits)) && Contents(whole, active + 1) == stream
    {
      hide ArchiveOk, Newest, Contents;
      var buffer: seq<Record> := [];
      for i := 0 to |batch|
        invariant Ready(buffer) && calls >= old(calls)
        invariant Clean() ==> stream + buffer == old(stream) + Records(batch[..i])
      {
        buffer := Make(buffer);
        assert batch[..i + 1][..i] == batch[..i];
        if batch[i].Line? {
          var r := batch[i].record;
          if Clean() { ArchiveGrows(limits, before, whole, dir, active, first, stream, buffer, r); }
          assert stream + (buffer + [r]) == stream + buffer + [r];
          buffer := buffer + [r];
        }
      }
      assert batch[..|batch|] == batch;
      FlushPending(buffer);
      if Clean() { ArchiveHolds(limits, before, whole, dir, active, first, stream); }
    }

    /** A freshly opened writer and any batches. */
    method WriteAll(batches: seq<seq<Entry>>)
      requires Valid() && first == active && stream == Contents(before, first)
      modifies `dir, `active, `written, `calls, `whole, `stream
      ensures Valid() && calls >= old(calls)
      ensures Clean() ==> Kept(limits, before, dir, active, first, AllRecords(batches))
    {
      hide ArchiveOk, Kept, Contents;
      ghost var start, c := stream, calls;
      for i := 0 to |batches|
        invariant Valid() && calls >= c
        invariant Clean() ==> stream == start + AllRecords(batches[..i])
      {
        assert batches[..i + 1][..i] == batches[..i];
        Write(batches[i]);
      }
      assert batches[..|batches|] == batches;
      if Clean() { ArchiveMeans(limits, before, whole, dir, active, first, AllRecords(batches)); }
    }

    /** What the invariant says of the archive. */
    static lemma ArchiveHolds(l: Limits, before: Directory, whole: Directory, dir: Directory, active: nat, first: nat,
                              stream: seq<Record>)
      requires ArchiveOk(l, before, whole, dir, active, first, stream, [])
      ensures Newest(whole, dir, Budget(l)) && Contents(whole, active + 1) == stream
    {
    }

    /** Room for one more record: flush and rotate when the active file has crossed the limit. */
    method Make(pending: seq<Record>) returns (buffer: seq<Record>)
      requires Ready(pending)
      modifies `dir, `active, `written, `calls, `whole, `stream
      ensures Ready(buffer) && calls >= old(calls)
      ensures Clean() ==> stream + buffer == old(stream) + pending
      ensures Clean() ==> Size(dir[active]) + Size(buffer) < limits.maxBytes || dir[active] + buffer == []
    {
      hide ArchiveOk;
      buffer := pending;
      if written + Size(buffer) >= limits.maxBytes {
        SizeConcat(dir[active], pending);
        FlushPending(buffer);
        Rotate();
        buffer := [];
        assert stream + [] == stream;
      }
    }
  }

  function AllRecords(batches: seq<seq<Entry>>): seq<Record> {
    if batches == [] then [] else AllRecords(batches[..|batches| - 1]) + Records(batches[|batches| - 1])
  }

  /** What is left of a run: all of it within its budget, else the budget's closed files, each full. */
  ghost predicate Retained(l: Limits, dir: Directory, active: nat, first: nat, written: seq<Record>) {
    && (active - first < Budget(l) ==> Suffix(written, Contents(dir, active + 1)))
    && (active - first >= Budget(l) - 1 ==> Size(Contents(dir, active + 1)) >= (Budget(l) - 1) * l.maxBytes)
  }

  /** What is left of the files there were: as many of the newest as the run's own files leave room for. */
  ghost predicate OldKept(l: Limits, existing: Directory, dir: Directory, active: nat, first: nat) {
    var mine := active - first + 1;
    Newest(existing, Older(dir, first), if mine <= Budget(l) then Budget(l) - mine else 0)
  }

  /** Everything the archive promises about a run that wrote `written` into the directory `existing`. */
  ghost predicate Kept(l: Limits, existing: Directory, dir: Directory, active: nat, first: nat, written: seq<Record>) {
    && Suffix(Contents(dir, active + 1), Contents(existing, first) + written)
    && |dir| <= Budget(l) && RotatedOk(l, dir, active, first) && Retained(l, dir, active, first, written)
    && OldKept(l, existing, dir, active, first)
    && (|existing| + (active - first) + 1 <= Budget(l) ==>
          Contents(dir, active + 1) == Contents(existing, first) + written)
  }

  /**
   Any batches into any directory: if no I/O call fails, the archive opens, and what
   is left is a suffix of the old archive followed by the batches' records, in
   order; all of it while there is room; it holds all the records of this run until
   the run has rotated through its budget, and a budget of full files from then on;
   of the old files the newest stay, as many as there is room for; every file the
   run closed is full by exactly its last record, at most the budget of files remain
   and the newest of the run are among them. The active file exists whatever fails.
   */
  method ArchiveAll(existing: Directory, limits: Limits, io: Io, batches: seq<seq<Entry>>) returns (w: Option<Writer>)
    ensures (forall i :: io(i)) ==> w.Some?
    ensures w.Some? ==> w.value.ActiveOk() && forall k :: k in existing ==> k < w.value.first
    ensures w.Some? && Good(io, 0, w.value.calls) ==>
              Kept(limits, existing, w.value.dir, w.value.active, w.value.first, AllRecords(batches))
    ensures (forall i :: io(i)) ==>
              Kept(limits, existing, w.value.dir, w.value.active, w.value.first, AllRecords(batches))
  {
    hide ArchiveOk, Kept, Newest;
    w := Writer.Open(existing, limits, io);
    if w.None? { return; }
    w.value.WriteAll(batches);
  }

  lemma ArchiveMeans(l: Limits, before: Directory, whole: Directory, dir: Directory, active: nat, first: nat,
                     written: seq<Record>)
    requires ArchiveOk(l, before, whole, dir, active, first, Contents(before, first) + written, [])
    ensures Kept(l, before, dir, active, first, written)
  {
    hide Contents, RotatedOk, Growing, From, Retained, OldKept, Suffix, WholeOk, Newest, Budget;
    WithinBudget(l, whole, dir);
    WholeFiles(l, before, whole, active, first);
    NewestSuffix(whole, dir, Budget(l), active + 1);
    NewestOfRun(l, before, whole, dir, active, first);
    OldOnesKept(l, before, whole, dir, active, first);
    RunRetained(l, before, whole, dir, active, first, written);
  }

  lemma WithinBudget(l: Limits, whole: Directory, dir: Directory)
    requires Newest(whole, dir, Budget(l))
    ensures |dir| <= Budget(l) && (|whole| <= Budget(l) ==> dir == whole)
  {
    if |whole| <= Budget(l) { NewestIsAll(whole, dir, Budget(l)); }
  }

  /** The newest files hold a suffix of the archive. */
  lemma NewestSuffix(whole: Directory, dir: Directory, n: nat, top: nat)
    requires Newest(whole, dir, n) && dir != map[]
    ensures Suffix(Contents(dir, top), Contents(whole, top))
  {
    hide Contents, Suffix;
    var t := NewestIsFrom(whole, dir, n);
    DroppingIsSuffix(whole, t, top);
    SuffixSelf(Contents(whole, if t <= top then t else top), Contents(dir, top));
  }

  /** A file left out of the newest is older than all of them. */
  lemma LeftOut(whole: Directory, dir: Directory, n: nat, k: nat, top: nat)
    requires Newest(whole, dir, n) && k in whole && k !in dir && (forall x :: x in whole ==> x <= top)
    ensures top - k >= n
  {
    FewInRange(dir.Keys, k, top);
    assert |dir.Keys| == |dir|;
    if |whole| <= n { NewestIsAll(whole, dir, n); }
  }

  /** The run's own newest files are there, and its closed ones are full. */
  lemma NewestOfRun(l: Limits, before: Directory, whole: Directory, dir: Directory, active: nat, first: nat)
    requires Newest(whole, dir, Budget(l)) && WholeOk(l, before, whole, active, first)
    ensures RotatedOk(l, dir, active, first)
  {
    hide Closed;
    WholeFiles(l, before, whole, active, first);
    forall k | k in dir && first <= k < active ensures Closed(dir[k], l.maxBytes) { assert dir[k] == whole[k]; }
    hide WholeOk;
    forall k | first <= k <= active && active - k < Budget(l) ensures k in dir {
      assert k in whole;
      if k !in dir { LeftOut(whole, dir, Budget(l), k, active); }
    }
  }

  /** A directory splits into the files below a number and those from there on. */
  lemma SplitAt(dir: Directory, first: nat)
    ensures |dir| == |Older(dir, first)| + |From(dir, first)|
  {
    var a, b := Older(dir, first).Keys, From(dir, first).Keys;
    assert dir.Keys == a + b && a !! b;
    assert |dir.Keys| == |dir| && |a| == |Older(dir, first)| && |b| == |From(dir, first)|;
  }

  /** The old files left are as many of the newest as the run's own files leave room for. */
  lemma OldOnesKept(l: Limits, before: Directory, whole: Directory, dir: Directory, active: nat, first: nat)
    requires Newest(whole, dir, Budget(l)) && WholeOk(l, before, whole, active, first)
    ensures OldKept(l, before, dir, active, first)
  {
    WholeFiles(l, before, whole, active, first);
    hide Budget, WholeOk, Newest, Older, From, OldKept;
    if exists k :: first <= k <= active && k !in dir {
      var k :| first <= k <= active && k !in dir;
      RunLeftOut(l, before, whole, dir, active, first, k);
    } else {
      RunAllThere(l, before, whole, dir, active, first);
    }
  }

  lemma RunAllThere(l: Limits, before: Directory, whole: Directory, dir: Directory, active: nat, first: nat)
    requires Newest(whole, dir, Budget(l)) && WholeOk(l, before, whole, active, first)
    requires forall k :: first <= k <= active ==> k in dir
    ensures OldKept(l, before, dir, active, first)
  {
    hide Closed, Budget;
    WholeFiles(l, before, whole, active, first);
    var mine := From(dir, first);
    assert mine.Keys == Range(first, active + 1);
    assert |mine| == |mine.Keys|;
    hide From, WholeOk;
    SplitAt(dir, first);
    OlderNewest(before, whole, dir, first, Budget(l), |mine|);
  }

  /** When a file of the run had to go, so had all the old ones. */
  lemma RunLeftOut(l: Limits, before: Directory, whole: Directory, dir: Directory, active: nat, first: nat, k: nat)
    requires Newest(whole, dir, Budget(l)) && WholeOk(l, before, whole, active, first)
    requires first <= k <= active && k !in dir
    ensures OldKept(l, before, dir, active, first)
  {
    hide Budget, Closed;
    assert k in whole;
    WholeFiles(l, before, whole, active, first);
    hide WholeOk;
    NoneOlder(whole, dir, Budget(l), k, first);
    LeftOut(whole, dir, Budget(l), k, active);
    NoneKept(before);
    hide Newest, Older;
  }

  lemma NoneKept(dir: Directory)
    ensures Newest(dir, map[], 0)
  {
  }

  lemma NoneOlder(whole: Directory, dir: Directory, n: nat, k: nat, first: nat)
    requires Newest(whole, dir, n) && k in whole && k !in dir && first <= k
    ensures Older(dir, first) == map[]
  {
    assert forall x :: x !in Older(dir, first);
  }

  /** The old files among the newest, when all of the run's are. */
  lemma OlderNewest(before: Directory, whole: Directory, dir: Directory, first: nat, n: nat, m: nat)
    requires Newest(whole, dir, n) && |dir| == |Older(dir, first)| + m && |whole| == |before| + m
    requires forall k :: k in before <==> k in whole && k < first
    requires forall k :: k in before ==> whole[k] == before[k]
    ensures Newest(before, Older(dir, first), if m <= n then n - m else 0)
  {
  }

  /** Within its budget all the files of a run are there. */
  lemma RunFilesThere(l: Limits, before: Directory, whole: Directory, dir: Directory, active: nat, first: nat)
    requires Newest(whole, dir, Budget(l)) && WholeOk(l, before, whole, active, first) && active - first < Budget(l)
    ensures From(dir, first) == From(whole, first) && Contents(before, first) == Contents(whole, first)
  {
    hide Contents, WholeOk, Closed;
    NewestOfRun(l, before, whole, dir, active, first);
    WholeFiles(l, before, whole, active, first);
    ContentsSame(before, whole, first);
  }

  lemma RunRetained(l: Limits, before: Directory, whole: Directory, dir: Directory, active: nat, first: nat,
                    written: seq<Record>)
    requires Newest(whole, dir, Budget(l)) && WholeOk(l, before, whole, active, first)
    requires Contents(whole, active + 1) == Contents(before, first) + written
    ensures Retained(l, dir, active, first, written)
  {
    hide Size, Contents, Suffix, From, RotatedOk, Newest, WholeOk, Budget;
    WholeFiles(l, before, whole, active, first);
    NewestOfRun(l, before, whole, dir, active, first);
    if active - first < Budget(l) {
      RunFilesThere(l, before, whole, dir, active, first);
      DroppingIsSuffix(whole, first, active + 1);
      DroppingIsSuffix(dir, first, active + 1);
      Cancel(Contents(whole, first), Contents(From(whole, first), active + 1), written);
      SuffixSelf(Contents(dir, first), written);
    }
    if active - first >= Budget(l) - 1 { RetainedSize(l, dir, active, first); }
  }

  lemma Cancel(a: seq<Record>, b: seq<Record>, c: seq<Record>)
    requires a + b == a + c
    ensures b == c
  {
    assert (a + b)[|a|..] == b && (a + c)[|a|..] == c;
  }

  lemma SuffixSelf(a: seq<Record>, b: seq<Record>)
    ensures Suffix(b, a + b)
  {
  }
}
