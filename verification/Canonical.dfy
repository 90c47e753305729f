/**
 Canonicalization of parsed YAML: `canonicalize` and the semantic hash of
 `config/mod.rs`. A parsed tree keeps entry order, arbitrary keys and tags; its
 meaning is a `Yaml.Doc`.
 */
module Canonical {
  import opened Wrappers
  import opened Yaml
  import opened KeyOrder

  datatype Raw =
    | RNull | RBool(b: bool) | RInt(n: int) | RFloat(r: real) | RStr(s: string)
    | RSeq(items: seq<Raw>)
    | RMap(entries: seq<Entry>)
    | RTagged(tag: string, inner: Raw)
  datatype Entry = Entry(key: Raw, value: Raw)

  type Pair = (string, Raw)

  /** Only string keys and no tags, at every depth. */
  ghost predicate Plain(r: Raw) {
    match r
    case RSeq(items) => forall i :: 0 <= i < |items| ==> Plain(items[i])
    case RMap(es) => forall i :: 0 <= i < |es| ==> es[i].key.RStr? && Plain(es[i].value)
    case RTagged(_, _) => false
    case _ => true
  }

  /** The invariant of a parsed mapping: no key twice. */
  ghost predicate WellFormed(r: Raw) {
    match r
    case RSeq(items) => forall i :: 0 <= i < |items| ==> WellFormed(items[i])
    case RMap(es) =>
      && (forall i, j :: 0 <= i < j < |es| ==> es[i].key != es[j].key)
      && (forall i :: 0 <= i < |es| ==> WellFormed(es[i].value))
    case RTagged(_, inner) => WellFormed(inner)
    case _ => true
  }

  // ----- the algorithm ----------------------------------------------------

  function Insert(p: Pair, ps: seq<Pair>): seq<Pair> {
    if ps == [] then [p]
    else if Less(p.0, ps[0].0) then [p] + ps
    else [ps[0]] + Insert(p, ps[1..])
  }

  function Sort(ps: seq<Pair>): seq<Pair> {
    if ps == [] then [] else Insert(ps[0], Sort(ps[1..]))
  }

  function ToEntries(ps: seq<Pair>): seq<Entry> {
    seq(|ps|, i requires 0 <= i < |ps| => Entry(RStr(ps[i].0), ps[i].1))
  }

  /** `canonicalize`; `None` is its `InvalidConfig` error. */
  function Canonicalize(r: Raw): Option<Raw>
    decreases r, 1, 0
  {
    match r
    case RMap(es) =>
      (match CanonPairs(r, |es|)
       case None => None
       case Some(ps) => Some(RMap(ToEntries(Sort(ps)))))
    case RSeq(items) =>
      (match CanonItems(r, |items|)
       case None => None
       case Some(out) => Some(RSeq(out)))
    case RTagged(_, _) => None
    case _ => Some(r)
  }

  /** The first loop of `canonicalize`, over the first `n` entries. */
  function CanonPairs(r: Raw, n: nat): Option<seq<Pair>>
    requires r.RMap? && n <= |r.entries|
    decreases r, 0, n
  {
    if n == 0 then Some([])
    else
      var e := r.entries[n - 1];
      match CanonPairs(r, n - 1)
      case None => None
      case Some(ps) =>
        if !e.key.RStr? then None
        else
          match Canonicalize(e.value)
          case None => None
          case Some(v) => Some(ps + [(e.key.s, v)])
  }

  function CanonItems(r: Raw, n: nat): Option<seq<Raw>>
    requires r.RSeq? && n <= |r.items|
    decreases r, 0, n
  {
    if n == 0 then Some([])
    else
      match CanonItems(r, n - 1)
      case None => None
      case Some(out) =>
        match Canonicalize(r.items[n - 1])
        case None => None
        case Some(v) => Some(out + [v])
  }

  // ----- meaning ----------------------------------------------------------

  /** The document a plain tree denotes: mappings forget their order. */
  ghost function Meaning(r: Raw): Doc
    requires Plain(r)
    decreases r
  {
    match r
    case RNull => Null
    case RBool(b) => Bool(b)
    case RInt(n) => Int(n)
    case RFloat(x) => Float(x)
    case RStr(s) => Str(s)
    case RSeq(items) => Seq(seq(|items|, i requires 0 <= i < |items| => Meaning(items[i])))
    case RMap(es) => Map(map k | k in KeySet(es) :: Meaning(es[IndexOf(es, k)].value))
  }

  function KeySet(es: seq<Entry>): (ks: set<string>)
    ensures forall k :: k in ks <==> exists i :: 0 <= i < |es| && es[i].key == RStr(k)
  {
    if es == [] then {}
    else
      var rest := KeySet(es[1..]);
      assert forall k :: (exists i :: 0 <= i < |es| && es[i].key == RStr(k)) <==>
                         es[0].key == RStr(k) || (exists i :: 0 <= i < |es[1..]| && es[1..][i].key == RStr(k)) by {
        forall k, i | 0 <= i < |es| && es[i].key == RStr(k) && i > 0 ensures es[1..][i - 1].key == RStr(k) {}
      }
      if es[0].key.RStr? then {es[0].key.s} + rest else rest
  }

  ghost function IndexOf(es: seq<Entry>, k: string): (i: nat)
    requires k in KeySet(es)
    ensures i < |es| && es[i].key == RStr(k)
  {
    var i: nat :| i < |es| && es[i].key == RStr(k);
    i
  }

  /** The canonical tree of a document: entries in key order. */
  function FromDoc(d: Doc): Raw
    decreases d
  {
    match d
    case Null => RNull
    case Bool(b) => RBool(b)
    case Int(n) => RInt(n)
    case Float(x) => RFloat(x)
    case Str(s) => RStr(s)
    case Seq(items) => RSeq(seq(|items|, i requires 0 <= i < |items| => FromDoc(items[i])))
    case Map(m) =>
      var ks := Sorted(m.Keys);
      RMap(seq(|ks|, i requires 0 <= i < |ks| => assert ks[i] in ks; Entry(RStr(ks[i]), FromDoc(m[ks[i]]))))
  }

  // ----- sorting ----------------------------------------------------------

  ghost predicate AscendingPairs(ps: seq<Pair>) {
    forall i, j :: 0 <= i < j < |ps| ==> Less(ps[i].0, ps[j].0)
  }

  ghost predicate DistinctKeys(ps: seq<Pair>) {
    forall i, j :: 0 <= i < j < |ps| ==> ps[i].0 != ps[j].0
  }

  lemma {:induction false} InsertSorted(p: Pair, ps: seq<Pair>)
    requires AscendingPairs(ps)
    requires forall q :: q in ps ==> q.0 != p.0
    ensures AscendingPairs(Insert(p, ps))
    ensures forall q :: q in Insert(p, ps) <==> q == p || q in ps
  {
    if ps != [] {
      LessTotal(p.0, ps[0].0);
      assert ps[0] in ps;
      assert ps == [ps[0]] + ps[1..];
      if Less(p.0, ps[0].0) {
        forall j | 0 <= j < |ps| ensures Less(p.0, ps[j].0) {
          if j > 0 { LessTransitive(p.0, ps[0].0, ps[j].0); }
        }
      } else {
        InsertSorted(p, ps[1..]);
        var rest := Insert(p, ps[1..]);
        forall j | 0 <= j < |rest| ensures Less(ps[0].0, rest[j].0) {
          assert rest[j] in rest;
          if rest[j] != p {
            var k :| 0 <= k < |ps[1..]| && ps[1..][k] == rest[j];
            assert ps[k + 1] == rest[j];
          }
        }
      }
    }
  }

  lemma {:induction false} SortSorts(ps: seq<Pair>)
    requires DistinctKeys(ps)
    ensures AscendingPairs(Sort(ps))
    ensures forall q :: q in Sort(ps) <==> q in ps
  {
    if ps != [] {
      SortSorts(ps[1..]);
      forall q | q in Sort(ps[1..]) ensures q.0 != ps[0].0 {
        var k :| 0 <= k < |ps[1..]| && ps[1..][k] == q;
        assert ps[k + 1] == q;
      }
      InsertSorted(ps[0], Sort(ps[1..]));
      assert ps == [ps[0]] + ps[1..];
    }
  }

  // ----- the main results -------------------------------------------------

  /** Canonicalization succeeds exactly on plain trees, and yields the canonical tree of the meaning. */
  lemma {:induction false} CanonicalizeExact(r: Raw)
    requires WellFormed(r)
    ensures Canonicalize(r).Some? <==> Plain(r)
    ensures Plain(r) ==> Canonicalize(r) == Some(FromDoc(Meaning(r)))
    decreases r, 1, 0
  {
    match r
    case RMap(es) =>
      PairsExact(r, |es|);
      if Plain(r) { MappingExact(r, CanonPairs(r, |es|).value); }
    case RSeq(items) =>
      ItemsExact(r, |items|);
      if Plain(r) {
        assert CanonItems(r, |items|).value == FromDoc(Meaning(r)).items;
      }
    case _ =>
  }

  lemma {:induction false} ItemsExact(r: Raw, n: nat)
    requires r.RSeq? && WellFormed(r) && n <= |r.items|
    ensures CanonItems(r, n).Some? <==> forall i :: 0 <= i < n ==> Plain(r.items[i])
    ensures CanonItems(r, n).Some? ==> |CanonItems(r, n).value| == n
    ensures CanonItems(r, n).Some? ==>
              forall i :: 0 <= i < n ==> CanonItems(r, n).value[i] == FromDoc(Meaning(r.items[i]))
    decreases r, 0, n
  {
    hide Canonicalize, Meaning, FromDoc, Plain;
    if n > 0 {
      ItemsExact(r, n - 1);
      CanonicalizeExact(r.items[n - 1]);
    }
  }

  lemma {:induction false} PairsExact(r: Raw, n: nat)
    requires r.RMap? && WellFormed(r) && n <= |r.entries|
    ensures CanonPairs(r, n).Some? <==>
            forall i :: 0 <= i < n ==> r.entries[i].key.RStr? && Plain(r.entries[i].value)
    ensures CanonPairs(r, n).Some? ==> |CanonPairs(r, n).value| == n
    ensures CanonPairs(r, n).Some? ==>
              forall i :: 0 <= i < n ==>
                CanonPairs(r, n).value[i] == (r.entries[i].key.s, FromDoc(Meaning(r.entries[i].value)))
    decreases r, 0, n
  {
    hide Canonicalize, Meaning, FromDoc, Plain;
    if n > 0 {
      PairsExact(r, n - 1);
      CanonicalizeExact(r.entries[n - 1].value);
    }
  }

  lemma MeaningAt(r: Raw, i: nat)
    requires r.RMap? && WellFormed(r) && Plain(r) && i < |r.entries|
    ensures var k := r.entries[i].key.s;
            k in Meaning(r).m && Meaning(r).m[k] == Meaning(r.entries[i].value)
  {
    var es, k := r.entries, r.entries[i].key.s;
    assert es[i].key == RStr(k);
    assert i == IndexOf(es, k);
  }

  /** Ascending pairs that list exactly a map's items are that map's items in key order. */
  lemma PairsOfMap(ps: seq<Pair>, m: map<string, Raw>, ks: seq<string>)
    requires AscendingPairs(ps) && Ascending(ks)
    requires forall k :: k in ks <==> k in m
    requires forall q :: q in ps <==> q.0 in m && q.1 == m[q.0]
    ensures |ps| == |ks| && forall i :: 0 <= i < |ks| ==> ps[i].0 == ks[i] && ks[i] in m && ps[i].1 == m[ks[i]]
  {
    var names := seq(|ps|, i requires 0 <= i < |ps| => ps[i].0);
    forall k ensures k in names <==> k in ks {
      if k in names {
        var i :| 0 <= i < |names| && names[i] == k;
        assert ps[i] in ps;
      }
      if k in m {
        assert (k, m[k]) in ps;
        var j :| 0 <= j < |ps| && ps[j] == (k, m[k]);
        assert names[j] == k;
      }
    }
    AscendingUnique(names, ks);
    assert |names| == |ps|;
    forall i | 0 <= i < |ks| ensures ps[i].0 == ks[i] && ks[i] in m && ps[i].1 == m[ks[i]] {
      assert names[i] == ks[i];
      assert ps[i] in ps;
    }
  }

  lemma MappingExact(r: Raw, ps: seq<Pair>)
    requires r.RMap? && WellFormed(r) && Plain(r) && |ps| == |r.entries|
    requires forall i :: 0 <= i < |ps| ==> ps[i] == (r.entries[i].key.s, FromDoc(Meaning(r.entries[i].value)))
    ensures RMap(ToEntries(Sort(ps))) == FromDoc(Meaning(r))
  {
    var m := Meaning(r).m;
    DistinctNames(r, ps);
    SortSorts(ps);
    forall q ensures q in Sort(ps) <==> q.0 in m && q.1 == FromDoc(m[q.0]) { PairMember(r, ps, q); }
    EntriesOfMap(Sort(ps), m);
  }

  lemma EntriesOfMap(ps: seq<Pair>, m: Mapping)
    requires AscendingPairs(ps)
    requires forall q :: q in ps <==> q.0 in m && q.1 == FromDoc(m[q.0])
    ensures RMap(ToEntries(ps)) == FromDoc(Map(m))
  {
    var images := map k | k in m :: FromDoc(m[k]);
    PairsOfMap(ps, images, Sorted(m.Keys));
    assert ToEntries(ps) == FromDoc(Map(m)).entries;
  }

  lemma DistinctNames(r: Raw, ps: seq<Pair>)
    requires r.RMap? && WellFormed(r) && Plain(r) && |ps| == |r.entries|
    requires forall i :: 0 <= i < |ps| ==> ps[i] == (r.entries[i].key.s, FromDoc(Meaning(r.entries[i].value)))
    ensures DistinctKeys(ps)
  {
    assert forall i, j :: 0 <= i < j < |ps| ==> r.entries[i].key != r.entries[j].key;
  }

  lemma PairMember(r: Raw, ps: seq<Pair>, q: Pair)
    requires r.RMap? && WellFormed(r) && Plain(r) && |ps| == |r.entries|
    requires forall i :: 0 <= i < |ps| ==> ps[i] == (r.entries[i].key.s, FromDoc(Meaning(r.entries[i].value)))
    ensures q in ps <==> q.0 in Meaning(r).m && q.1 == FromDoc(Meaning(r).m[q.0])
  {
    if q in ps {
      var i :| 0 <= i < |ps| && ps[i] == q;
      MeaningAt(r, i);
    }
    if q.0 in Meaning(r).m && q.1 == FromDoc(Meaning(r).m[q.0]) {
      var i := IndexOf(r.entries, q.0);
      MeaningAt(r, i);
      assert ps[i] == q;
    }
  }

  /** The canonical tree of a document is plain, well formed and denotes that document. */
  lemma {:induction false} FromDocDenotes(d: Doc)
    ensures Plain(FromDoc(d)) && WellFormed(FromDoc(d)) && Meaning(FromDoc(d)) == d
    decreases d
  {
    match d
    case Seq(items) =>
      forall i | 0 <= i < |items|
        ensures Plain(FromDoc(items[i])) && WellFormed(FromDoc(items[i])) && Meaning(FromDoc(items[i])) == items[i]
      {
        FromDocDenotes(items[i]);
      }
      assert Meaning(FromDoc(d)).items == items;
    case Map(m) =>
      forall k | k in m ensures Denotes(m[k]) { FromDocDenotes(m[k]); }
      MapDenotes(m);
    case _ =>
  }

  ghost predicate Denotes(d: Doc) {
    Plain(FromDoc(d)) && WellFormed(FromDoc(d)) && Meaning(FromDoc(d)) == d
  }

  lemma MapDenotes(m: Mapping)
    requires forall k :: k in m ==> Denotes(m[k])
    ensures Denotes(Map(m))
  {
    var ks := Sorted(m.Keys);
    var r := FromDoc(Map(m));
    forall i | 0 <= i < |ks|
      ensures ks[i] in m && r.entries[i] == Entry(RStr(ks[i]), FromDoc(m[ks[i]])) && Denotes(m[ks[i]])
    {
      assert ks[i] in ks;
    }
    forall i, j | 0 <= i < j < |ks| ensures r.entries[i].key != r.entries[j].key { LessTotal(ks[i], ks[j]); }
    assert Plain(r) && WellFormed(r);
    forall k ensures Get(Meaning(r).m, k) == Get(m, k) { MapDenotesAt(m, ks, r, k); }
    MapsEqual(Meaning(r).m, m);
  }

  lemma MapDenotesAt(m: Mapping, ks: seq<string>, r: Raw, k: string)
    requires forall k :: k in ks <==> k in m
    requires r.RMap? && Plain(r) && WellFormed(r) && |r.entries| == |ks|
    requires forall i :: 0 <= i < |ks| ==>
               ks[i] in m && r.entries[i] == Entry(RStr(ks[i]), FromDoc(m[ks[i]])) && Denotes(m[ks[i]])
    ensures Get(Meaning(r).m, k) == Get(m, k)
  {
    if k in m {
      assert k in ks;
      var i :| 0 <= i < |ks| && ks[i] == k;
      MeaningAt(r, i);
    }
    if k in Meaning(r).m {
      var i := IndexOf(r.entries, k);
      MeaningAt(r, i);
    }
  }

  /** Canonicalizing keeps the meaning, so every lookup path, and doing it again changes nothing. */
  lemma CanonicalizeKeepsMeaning(r: Raw)
    requires WellFormed(r) && Plain(r)
    ensures Canonicalize(r).Some?
    ensures var c := Canonicalize(r).value;
            && Plain(c) && WellFormed(c) && Meaning(c) == Meaning(r)
            && Canonicalize(c) == Some(c)
            && forall path :: ValueAt(Some(Meaning(c)), path) == ValueAt(Some(Meaning(r)), path)
  {
    CanonicalizeExact(r);
    FromDocDenotes(Meaning(r));
    CanonicalizeExact(FromDoc(Meaning(r)));
  }

  /** Two trees have the same canonical tree exactly when they denote the same document. */
  lemma CanonicalIsComplete(a: Raw, b: Raw)
    requires WellFormed(a) && WellFormed(b) && Plain(a) && Plain(b)
    ensures Canonicalize(a) == Canonicalize(b) <==> Meaning(a) == Meaning(b)
  {
    CanonicalizeExact(a);
    CanonicalizeExact(b);
    FromDocDenotes(Meaning(a));
    FromDocDenotes(Meaning(b));
  }

  /** Reordering the entries of a mapping does not change its canonical tree. */
  lemma OrderIsIrrelevant(es: seq<Entry>, fs: seq<Entry>)
    requires WellFormed(RMap(es)) && WellFormed(RMap(fs)) && Plain(RMap(es)) && Plain(RMap(fs))
    requires forall e :: e in es <==> e in fs
    ensures Canonicalize(RMap(es)) == Canonicalize(RMap(fs))
  {
    var a, b := Meaning(RMap(es)).m, Meaning(RMap(fs)).m;
    forall k ensures Get(a, k) == Get(b, k) {
      if k in KeySet(es) { SameEntry(es, fs, k); }
      if k in KeySet(fs) { SameEntry(fs, es, k); }
    }
    MapsEqual(a, b);
    CanonicalIsComplete(RMap(es), RMap(fs));
  }

  lemma SameEntry(es: seq<Entry>, fs: seq<Entry>, k: string)
    requires WellFormed(RMap(es)) && WellFormed(RMap(fs)) && k in KeySet(es)
    requires forall e :: e in es <==> e in fs
    ensures k in KeySet(fs) && es[IndexOf(es, k)].value == fs[IndexOf(fs, k)].value
  {
    var e := es[IndexOf(es, k)];
    assert e in fs;
    var j :| 0 <= j < |fs| && fs[j] == e;
    assert j == IndexOf(fs, k);
  }
}
