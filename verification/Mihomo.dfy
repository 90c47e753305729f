/**
 Change classification, patches and the listener bootstrap: `config/mihomo.rs`,
 with the controller vocabulary of `config/clash.rs`.

 The field tables and the set of values the typed `ConfigPatch` accepts are
 collected in a `Schema`; everything about patches is proved for every schema.
 */
module Mihomo {
  import opened Wrappers
  import opened Yaml
  import opened Diff
  import KeyOrder

  const TUN := "tun"
  const TUIC := "tuic-server"

  datatype Schema = Schema(
    patch: set<string>,        // PATCH_FIELDS
    tun: set<string>,          // TUN_PATCH_FIELDS
    tuic: set<string>,         // TUIC_SERVER_PATCH_FIELDS
    reload: set<string>,       // RELOAD_FIELDS
    typed: Mapping -> bool)    // deserializes as a `ConfigPatch`

  datatype Error = InvalidConfig

  datatype Leaf = Leaf(path: seq<string>, value: Doc)

  datatype ConfigChange = Noop | Patch(patch: Mapping, expected: seq<Leaf>) | Reload | Switch

  // ----- projections -----------------------------------------------------

  /** `collect_leaves`: every non-mapping or empty mapping below `v`. */
  function Leaves(v: Doc): seq<Leaf>
    decreases v, 1, 0
  {
    if v.Map? && v.m != map[] then LeavesUnder(v, KeyOrder.Sorted(v.m.Keys)) else [Leaf([], v)]
  }

  function LeavesUnder(v: Doc, ks: seq<string>): seq<Leaf>
    requires v.Map? && forall k :: k in ks ==> k in v.m
    decreases v, 0, |ks|
  {
    if ks == [] then []
    else
      var inner := Leaves(v.m[ks[0]]);
      seq(|inner|, i requires 0 <= i < |inner| => Leaf([ks[0]] + inner[i].path, inner[i].value))
      + LeavesUnder(v, ks[1..])
  }

  /** `RuntimeProjection::verify`. */
  predicate Verify(expected: seq<Leaf>, actual: Doc) {
    forall l :: l in expected ==> ValueAt(Some(actual), l.path) == Some(l.value)
  }

  /** Reference reading of `Verify`, by recursion on the patch tree. */
  ghost predicate Accepts(patch: Doc, actual: Doc)
    decreases patch
  {
    if patch.Map? && patch.m != map[] then
      actual.Map? && forall k :: k in patch.m ==> k in actual.m && Accepts(patch.m[k], actual.m[k])
    else actual == patch
  }

  lemma {:induction false} VerifyIsAccepts(patch: Doc, actual: Doc)
    ensures Verify(Leaves(patch), actual) <==> Accepts(patch, actual)
    decreases patch, 1, 0
  {
    if patch.Map? && patch.m != map[] {
      var ks := KeyOrder.Sorted(patch.m.Keys);
      VerifyUnder(patch, ks, actual);
      if !actual.Map? { assert ks[0] in ks; }
    } else {
      assert Leaves(patch)[0] == Leaf([], patch);
    }
  }

  lemma {:induction false} VerifyUnder(patch: Doc, ks: seq<string>, actual: Doc)
    requires patch.Map? && forall k :: k in ks ==> k in patch.m
    ensures Verify(LeavesUnder(patch, ks), actual) <==>
            forall k :: k in ks ==> actual.Map? && k in actual.m && Accepts(patch.m[k], actual.m[k])
    decreases patch, 0, |ks|
  {
    if ks != [] {
      var k := ks[0];
      assert k in ks;
      var inner := Leaves(patch.m[k]);
      var front := seq(|inner|, i requires 0 <= i < |inner| => Leaf([k] + inner[i].path, inner[i].value));
      VerifyUnder(patch, ks[1..], actual);
      assert Verify(LeavesUnder(patch, ks), actual) <==>
             Verify(front, actual) && Verify(LeavesUnder(patch, ks[1..]), actual);
      LeavesNonEmpty(patch.m[k]);
      var below := Child(Some(actual), k);
      forall i | 0 <= i < |inner|
        ensures ValueAt(Some(actual), front[i].path) == ValueAt(below, inner[i].path)
      {
        assert front[i].path[1..] == inner[i].path;
      }
      if below.Some? {
        VerifyIsAccepts(patch.m[k], below.value);
        if Verify(front, actual) {
          forall l | l in inner ensures ValueAt(below, l.path) == Some(l.value) {
            var i :| 0 <= i < |inner| && inner[i] == l;
            assert front[i] in front;
          }
        }
      } else {
        assert front[0] in front;
        assert ValueAt(below, inner[0].path) == None;
      }
      assert forall o :: o in ks <==> o == k || o in ks[1..];
    }
  }

  lemma {:induction false} LeavesNonEmpty(v: Doc)
    ensures |Leaves(v)| > 0
    decreases v
  {
    if v.Map? && v.m != map[] {
      var ks := KeyOrder.Sorted(v.m.Keys);
      var k :| k in v.m;
      assert k in ks;
      assert ks[0] in ks;
      LeavesNonEmpty(v.m[ks[0]]);
    }
  }

  /** The empty mappings of a patch sit on empty mappings of the runtime document. */
  ghost predicate EmptyMatched(patch: Doc, actual: Doc)
    decreases patch
  {
    if patch == Map(map[]) then actual == patch
    else if patch.Map? && actual.Map? then
      forall k :: k in patch.m && k in actual.m ==> EmptyMatched(patch.m[k], actual.m[k])
    else true
  }

  ghost predicate NoEmptyMapping(patch: Doc)
    decreases patch
  {
    patch.Map? ==> patch.m != map[] && forall k :: k in patch.m ==> NoEmptyMapping(patch.m[k])
  }

  /** Verification accepts exactly the documents the patch would not change, empty mappings aside. */
  lemma {:induction false} ProjectionExact(patch: Doc, actual: Doc)
    ensures Verify(Leaves(patch), actual) <==> Merge(actual, patch) == actual && EmptyMatched(patch, actual)
    decreases patch
  {
    VerifyIsAccepts(patch, actual);
    if patch.Map? && patch.m != map[] && actual.Map? {
      forall k | k in patch.m && k in actual.m
        ensures Accepts(patch.m[k], actual.m[k]) <==>
                Merge(actual.m[k], patch.m[k]) == actual.m[k] && EmptyMatched(patch.m[k], actual.m[k])
      {
        ProjectionExact(patch.m[k], actual.m[k]);
        VerifyIsAccepts(patch.m[k], actual.m[k]);
      }
      if Accepts(patch, actual) {
        forall k ensures Get(Merge(actual, patch).m, k) == Get(actual.m, k) { MergeAt(actual, patch, k); }
        MapsEqual(Merge(actual, patch).m, actual.m);
      }
      if Merge(actual, patch) == actual {
        forall k | k in patch.m ensures k in actual.m && Merge(actual.m[k], patch.m[k]) == actual.m[k] {
          MergeAt(actual, patch, k);
        }
      }
    }
  }

  /** With no empty mapping in the patch, verifying is exactly "merging changes nothing". */
  lemma {:induction false} ProjectionWithoutEmptyMappings(patch: Doc, actual: Doc)
    requires NoEmptyMapping(patch)
    ensures Verify(Leaves(patch), actual) <==> Merge(actual, patch) == actual
  {
    ProjectionExact(patch, actual);
    MatchedWhenNoEmpty(patch, actual);
  }

  lemma {:induction false} MatchedWhenNoEmpty(patch: Doc, actual: Doc)
    requires NoEmptyMapping(patch)
    ensures EmptyMatched(patch, actual)
    decreases patch
  {
    if patch.Map? && actual.Map? {
      forall k | k in patch.m && k in actual.m ensures EmptyMatched(patch.m[k], actual.m[k]) {
        MatchedWhenNoEmpty(patch.m[k], actual.m[k]);
      }
    }
  }

  // ----- classification --------------------------------------------------

  function DnsListen(document: Mapping): Option<Doc> {
    Child(Get(document, "dns"), "listen")
  }

  predicate IsDnsListen(path: seq<string>) {
    |path| > 1 && path[0] == "dns" && path[1] == "listen"
  }

  /** `patch_nested_path_is_supported` behind membership in the patch table. */
  predicate PatchablePath(s: Schema, path: seq<string>) {
    path != [] && path[0] in s.patch &&
    if path[0] == TUN then |path| > 1 && path[1] in s.tun
    else if path[0] == TUIC then |path| > 1 && path[1] in s.tuic
    else |path| == 1
  }

  predicate ReloadablePath(s: Schema, path: seq<string>) {
    path != [] && path[0] in s.reload && !IsDnsListen(path) && !(path[0] == "dns" && |path| == 1)
  }

  function Roots(changes: seq<Change>): set<string> {
    set c | c in changes && c.path != [] :: c.path[0]
  }

  /** `filter_mapping` keeps the allowed fields of a mapping. */
  function Filtered(m: Mapping, allowed: set<string>): Mapping {
    map k | k in m && k in allowed :: m[k]
  }

  function RootValue(s: Schema, root: string, v: Doc): Result<Doc, Error> {
    if root == TUN then (if v.Map? then Ok(Map(Filtered(v.m, s.tun))) else Err(InvalidConfig))
    else if root == TUIC then (if v.Map? then Ok(Map(Filtered(v.m, s.tuic))) else Err(InvalidConfig))
    else Ok(v)
  }

  /** What the loop over the changed roots collects; `Ok(None)` is its early `Switch`. */
  function CollectRoots(s: Schema, desired: Mapping, roots: seq<string>, document: Mapping)
    : Result<Option<Mapping>, Error> {
    if roots == [] then Ok(Some(document))
    else if roots[0] !in desired then Ok(None)
    else
      match RootValue(s, roots[0], desired[roots[0]])
      case Err(e) => Err(e)
      case Ok(v) => CollectRoots(s, desired, roots[1..], document[roots[0] := v])
  }

  predicate LacksEnable(document: Mapping, root: string) {
    root in document &&
    var e := Child(Some(document[root]), "enable");
    !(e.Some? && e.value.Bool?)
  }

  function NonNull(m: Mapping): Mapping { map k | k in m && m[k] != Null :: m[k] }

  /**
   The typed `ConfigPatch` round trip: it refuses ill-typed documents, keeps
   well-typed values, and a field whose value is null becomes an absent field.
   */
  function Convert(s: Schema, document: Mapping): Option<Mapping> {
    if !s.typed(document) then None
    else Some(map k | k in document && document[k] != Null ::
                if (k == TUN || k == TUIC) && document[k].Map? then Map(NonNull(document[k].m)) else document[k])
  }

  function BuildPatch(s: Schema, desired: Mapping, changes: seq<Change>): Result<ConfigChange, Error> {
    match CollectRoots(s, desired, KeyOrder.Sorted(Roots(changes)), map[])
    case Err(e) => Err(e)
    case Ok(None) => Ok(Switch)
    case Ok(Some(document)) =>
      if LacksEnable(document, TUN) || LacksEnable(document, TUIC) then Ok(Switch)
      else
        match Convert(s, document)
        case None => Ok(Switch)
        case Some(patch) => Ok(Patch(patch, Leaves(Map(patch))))
  }

  function ClassifyDocuments(s: Schema, current: Mapping, desired: Mapping): Result<ConfigChange, Error> {
    if DnsListen(current) != DnsListen(desired) then Ok(Switch)
    else
      var changes := DiffDocs(current, desired);
      if changes == [] then Ok(Noop)
      else if forall c :: c in changes ==> c.to.Some? && PatchablePath(s, c.path) then BuildPatch(s, desired, changes)
      else if forall c :: c in changes ==> ReloadablePath(s, c.path) then Ok(Reload)
      else Ok(Switch)
  }

  /** The loop of `build_patch` over the sorted roots. */
  method CollectRootsLoop(s: Schema, desired: Mapping, roots: seq<string>) returns (r: Result<Option<Mapping>, Error>)
    ensures r == CollectRoots(s, desired, roots, map[])
  {
    var document: Mapping := map[];
    assert roots[0..] == roots;
    for i := 0 to |roots|
      invariant CollectRoots(s, desired, roots, map[]) == CollectRoots(s, desired, roots[i..], document)
    {
      assert roots[i..][1..] == roots[i + 1..];
      if roots[i] !in desired { return Ok(None); }
      match RootValue(s, roots[i], desired[roots[i]])
      case Err(e) => return Err(e);
      case Ok(v) => document := document[roots[i] := v];
    }
    assert roots[|roots|..] == [];
    r := Ok(Some(document));
  }

  // ----- what a patch does -----------------------------------------------

  lemma ChangedRoots(cur: Mapping, des: Mapping, k: string)
    ensures k in Roots(DiffDocs(cur, des)) <==> Get(cur, k) != Get(des, k)
  {
    var a, b := Some(Map(cur)), Some(Map(des));
    if Get(cur, k) != Get(des, k) {
      var rest := UnequalParts(Get(cur, k), Get(des, k));
      var path := [k] + rest;
      assert path[1..] == rest;
      assert Parts(a, b, path);
      ChangesAreParts(a, b, Change(path, ValueAt(b, path)));
    }
    if k in Roots(DiffDocs(cur, des)) {
      var c :| c in DiffDocs(cur, des) && c.path != [] && c.path[0] == k;
      ChangesAreParts(a, b, c);
    }
  }

  /** Every place the documents part is patchable and still has a desired value. */
  ghost predicate AllPatchable(s: Schema, cur: Mapping, des: Mapping) {
    forall path :: Parts(Some(Map(cur)), Some(Map(des)), path) ==>
      ValueAt(Some(Map(des)), path).Some? && PatchablePath(s, path)
  }

  lemma PatchableMeans(s: Schema, cur: Mapping, des: Mapping)
    requires forall c :: c in DiffDocs(cur, des) ==> c.to.Some? && PatchablePath(s, c.path)
    ensures AllPatchable(s, cur, des)
  {
    forall path | Parts(Some(Map(cur)), Some(Map(des)), path)
      ensures ValueAt(Some(Map(des)), path).Some? && PatchablePath(s, path)
    {
      var c := Change(path, ValueAt(Some(Map(des)), path));
      ChangesAreParts(Some(Map(cur)), Some(Map(des)), c);
    }
  }

  /** Below a changed root, the parting places are those of the root's two values. */
  lemma PartsBelow(cur: Option<Doc>, des: Option<Doc>, k: string, rest: seq<string>)
    requires Parts(Child(cur, k), Child(des, k), rest)
    requires Descends(cur, des) && k in KeysOf(cur) + KeysOf(des)
    ensures Parts(cur, des, [k] + rest)
    ensures ValueAt(des, [k] + rest) == ValueAt(Child(des, k), rest)
  {
    assert ([k] + rest)[1..] == rest;
    if des.None? { ValueAtNone(rest); }
  }

  /** Nothing is deleted below this pair, so merging the new value over the prior gives the new value. */
  lemma {:induction false} GrowOnlyMerge(c: Doc, d: Doc)
    requires forall path :: Parts(Some(c), Some(d), path) ==> ValueAt(Some(d), path).Some?
    ensures Merge(c, d) == d
    decreases d
  {
    if c.Map? && d.Map? {
      forall k ensures Get(Merge(c, d).m, k) == Get(d.m, k) {
        MergeAt(c, d, k);
        if k in c.m && k !in d.m {
          var rest := UnequalParts(Some(c.m[k]), None);
          PartsBelow(Some(c), Some(d), k, rest);
          ValueAtNone(rest);
          assert false;
        }
        if k in c.m && k in d.m {
          forall rest | Parts(Some(c.m[k]), Some(d.m[k]), rest) ensures ValueAt(Some(d.m[k]), rest).Some? {
            PartsBelow(Some(c), Some(d), k, rest);
          }
          GrowOnlyMerge(c.m[k], d.m[k]);
        }
      }
      MapsEqual(Merge(c, d).m, d.m);
    }
  }

  predicate StructLevel(path: seq<string>) {
    |path| == 1 || (|path| == 2 && (path[0] == TUN || path[0] == TUIC))
  }

  /** No field that `ConfigPatch` holds as an optional changes to null. */
  ghost predicate NoFieldBecomesNull(cur: Mapping, des: Mapping) {
    forall path :: Parts(Some(Map(cur)), Some(Map(des)), path) && StructLevel(path) ==>
      ValueAt(Some(Map(des)), path) != Some(Null)
  }

  function Allowed(s: Schema, k: string): set<string>
  {
    if k == TUN then s.tun else s.tuic
  }

  /** The shape of a changed root that patches may touch. */
  lemma RootShape(s: Schema, cur: Mapping, des: Mapping, k: string)
    requires AllPatchable(s, cur, des) && Get(cur, k) != Get(des, k)
    ensures k in des
    ensures k == TUN || k == TUIC ==> des[k].Map? && (k in cur ==> cur[k].Map?)
    ensures k == TUN || k == TUIC ==>
            forall f :: Child(Get(cur, k), f) != Child(Get(des, k), f) ==> f in Allowed(s, k) && f in des[k].m
    ensures k != TUN && k != TUIC ==>
              !(k in cur && cur[k].Map? && des[k].Map?) && Parts(Some(Map(cur)), Some(Map(des)), [k])
  {
    var a, b := Some(Map(cur)), Some(Map(des));
    var rest := UnequalParts(Get(cur, k), Get(des, k));
    PartsBelow(a, b, k, rest);
    assert ([k] + rest)[0] == k;
    if k !in des { ValueAtNone(rest); assert false; }
    if k == TUN || k == TUIC {
      assert rest != [] && rest[0] == ([k] + rest)[1];
      assert Descends(Get(cur, k), Get(des, k));
      forall f | Child(Get(cur, k), f) != Child(Get(des, k), f)
        ensures f in Allowed(s, k) && f in des[k].m
      {
        var deeper := UnequalParts(Child(Get(cur, k), f), Child(Get(des, k), f));
        PartsBelow(Get(cur, k), Get(des, k), f, deeper);
        PartsBelow(a, b, k, [f] + deeper);
        assert ([k] + ([f] + deeper))[1] == f;
        if f !in des[k].m { ValueAtNone(deeper); assert false; }
      }
    } else {
      assert rest == [];
      assert [k] + rest == [k];
    }
  }

  /** Roots that can be patched: present, and a mapping where fields are filtered. */
  predicate Collectable(des: Mapping, roots: seq<string>) {
    forall k :: k in roots ==> k in des && ((k == TUN || k == TUIC) ==> des[k].Map?)
  }

  /** What the loop has collected, on top of `document`. */
  function Collected(s: Schema, des: Mapping, roots: seq<string>, document: Mapping): Mapping
    requires Collectable(des, roots)
  {
    map k | k in document.Keys + (set r | r in roots) ::
      if k in roots then RootValue(s, k, des[k]).value else document[k]
  }

  lemma CollectOne(s: Schema, des: Mapping, roots: seq<string>, document: Mapping)
    requires roots != [] && Collectable(des, roots)
    ensures Collectable(des, roots[1..]) && roots[0] in des
    ensures Collected(s, des, roots[1..], document[roots[0] := RootValue(s, roots[0], des[roots[0]]).value])
            == Collected(s, des, roots, document)
  {
    var k := roots[0];
    assert k in roots;
    assert forall o :: o in roots <==> o == k || o in roots[1..];
    var v := RootValue(s, k, des[k]).value;
    hide RootValue;
    var a, b := Collected(s, des, roots[1..], document[k := v]), Collected(s, des, roots, document);
    forall o ensures Get(a, o) == Get(b, o) { }
    MapsEqual(a, b);
  }

  lemma {:induction false} CollectedRoots(s: Schema, des: Mapping, roots: seq<string>, document: Mapping)
    requires Collectable(des, roots)
    ensures CollectRoots(s, des, roots, document) == Ok(Some(Collected(s, des, roots, document)))
  {
    if roots == [] {
      MapsEqual(Collected(s, des, roots, document), document);
    } else {
      var k := roots[0];
      assert k in roots;
      CollectOne(s, des, roots, document);
      CollectedRoots(s, des, roots[1..], document[k := RootValue(s, k, des[k]).value]);
      hide Collected;
    }
  }

  /** The document handed to the typed patch: the changed roots of the desired document. */
  function PatchDocument(s: Schema, cur: Mapping, des: Mapping): Mapping
  {
    map k | k in des && Get(cur, k) != Get(des, k) ::
      if (k == TUN || k == TUIC) && des[k].Map? then Map(Filtered(des[k].m, Allowed(s, k))) else des[k]
  }

  lemma CollectedDocument(s: Schema, cur: Mapping, des: Mapping, roots: seq<string>)
    requires AllPatchable(s, cur, des)
    requires forall k :: k in roots <==> Get(cur, k) != Get(des, k)
    ensures CollectRoots(s, des, roots, map[]) == Ok(Some(PatchDocument(s, cur, des)))
  {
    forall k | k in roots ensures k in des && ((k == TUN || k == TUIC) ==> des[k].Map?) {
      RootShape(s, cur, des, k);
    }
    hide AllPatchable, CollectRoots;
    CollectedRoots(s, des, roots, map[]);
    var m := Collected(s, des, roots, map[]);
    forall k ensures Get(m, k) == Get(PatchDocument(s, cur, des), k) { }
    MapsEqual(m, PatchDocument(s, cur, des));
  }

  lemma PatchableDocument(s: Schema, cur: Mapping, des: Mapping)
    requires AllPatchable(s, cur, des)
    ensures CollectRoots(s, des, KeyOrder.Sorted(Roots(DiffDocs(cur, des))), map[])
            == Ok(Some(PatchDocument(s, cur, des)))
  {
    var roots := KeyOrder.Sorted(Roots(DiffDocs(cur, des)));
    forall k ensures k in roots <==> Get(cur, k) != Get(des, k) { ChangedRoots(cur, des, k); }
    CollectedDocument(s, cur, des, roots);
  }

  /** Merging the converted patch is right at root `k` exactly when no field of that root becomes null. */
  ghost predicate RootNullFree(cur: Mapping, des: Mapping, k: string) {
    forall path :: Parts(Some(Map(cur)), Some(Map(des)), path) && StructLevel(path) && path[0] == k ==>
      ValueAt(Some(Map(des)), path) != Some(Null)
  }

  lemma PlainRoot(s: Schema, cur: Mapping, des: Mapping, patch: Mapping, k: string)
    requires AllPatchable(s, cur, des)
    requires Convert(s, PatchDocument(s, cur, des)) == Some(patch)
    requires Get(cur, k) != Get(des, k) && k != TUN && k != TUIC
    ensures Get(Merge(Map(cur), Map(patch)).m, k) == Get(des, k) <==> RootNullFree(cur, des, k)
  {
    RootShape(s, cur, des, k);
    MergeAt(Map(cur), Map(patch), k);
    assert ValueAt(Some(Map(des)), [k]) == Get(des, k) by {
      assert [k][1..] == [];
    }
    if des[k] != Null {
      forall path | Parts(Some(Map(cur)), Some(Map(des)), path) && StructLevel(path) && path[0] == k
        ensures ValueAt(Some(Map(des)), path) != Some(Null)
      {
        assert path == [k];
      }
    } else {
      assert StructLevel([k]);
    }
  }

  lemma NestedRoot(s: Schema, cur: Mapping, des: Mapping, patch: Mapping, k: string)
    requires AllPatchable(s, cur, des)
    requires Convert(s, PatchDocument(s, cur, des)) == Some(patch)
    requires Get(cur, k) != Get(des, k) && (k == TUN || k == TUIC)
    ensures Get(Merge(Map(cur), Map(patch)).m, k) == Get(des, k) <==> RootNullFree(cur, des, k)
  {
    RootShape(s, cur, des, k);
    MergeAt(Map(cur), Map(patch), k);
    var p := NonNull(Filtered(des[k].m, Allowed(s, k)));
    assert patch[k] == Map(p);
    var prior: Mapping := if k in cur then cur[k].m else map[];
    var merged := Merge(Map(prior), Map(p));
    if k !in cur {
      forall f ensures Get(merged.m, f) == Get(p, f) { MergeAt(Map(prior), Map(p), f); }
      MapsEqual(merged.m, p);
    }
    assert Get(Merge(Map(cur), Map(patch)).m, k) == Some(merged);
    forall f
      ensures Get(merged.m, f) == Get(des[k].m, f) <==>
                !(Get(prior, f) != Get(des[k].m, f) && Get(des[k].m, f) == Some(Null))
    {
      NestedField(s, cur, des, k, prior, p, f);
    }
    hide Merge, Parts, PatchDocument, Filtered, NonNull, AllPatchable, Convert;
    if RootNullFree(cur, des, k) {
      forall f ensures Get(merged.m, f) == Get(des[k].m, f) {
        if Get(prior, f) != Get(des[k].m, f) && Get(des[k].m, f) == Some(Null) {
          NullFieldParts(cur, des, k, prior, f);
          assert false;
        }
      }
      MapsEqual(merged.m, des[k].m);
    } else {
      var f := NullField(cur, des, k, prior);
      assert Get(merged.m, f) != Get(des[k].m, f);
    }
  }

  /** The converse of `NullFieldParts`: a root that is not null-free has a field that becomes null. */
  lemma NullField(cur: Mapping, des: Mapping, k: string, prior: Mapping) returns (f: string)
    requires k in des && des[k].Map? && (k in cur ==> cur[k].Map?) && (k == TUN || k == TUIC)
    requires prior == if k in cur then cur[k].m else map[]
    requires !RootNullFree(cur, des, k)
    ensures Get(prior, f) != Get(des[k].m, f) && Get(des[k].m, f) == Some(Null)
  {
    var root := [k];
    assert root[1..] == [] && ValueAt(Some(Map(des)), root) == Get(des, k);
    var path :| Parts(Some(Map(cur)), Some(Map(des)), path) && StructLevel(path) && path[0] == k
                && ValueAt(Some(Map(des)), path) == Some(Null);
    assert path != root;
    assert |path| == 2;
    assert path[1..][1..] == [];
    f := path[1];
    assert Parts(Get(cur, k), Get(des, k), path[1..]);
    assert ValueAt(Some(Map(des)), path) == ValueAt(Get(des, k), path[1..]);
    assert ValueAt(Get(des, k), path[1..]) == Child(Get(des, k), f);
    assert Parts(Child(Get(cur, k), f), Child(Get(des, k), f), path[1..][1..]);
    assert Child(Get(cur, k), f) == Get(prior, f);
  }

  lemma NullFieldParts(cur: Mapping, des: Mapping, k: string, prior: Mapping, f: string)
    requires k in des && des[k].Map? && (k in cur ==> cur[k].Map?) && (k == TUN || k == TUIC)
    requires prior == if k in cur then cur[k].m else map[]
    requires Get(prior, f) != Get(des[k].m, f) && Get(des[k].m, f) == Some(Null)
    ensures !RootNullFree(cur, des, k)
  {
    var a, b := Get(cur, k), Get(des, k);
    assert Child(a, f) == Get(prior, f);
    assert Parts(Child(a, f), Child(b, f), []);
    PartsBelow(a, b, f, []);
    PartsBelow(Some(Map(cur)), Some(Map(des)), k, [f] + []);
    assert [k] + ([f] + []) == [k, f];
    assert StructLevel([k, f]);
  }

  lemma NestedField(s: Schema, cur: Mapping, des: Mapping, k: string, prior: Mapping, p: Mapping, f: string)
    requires AllPatchable(s, cur, des) && Get(cur, k) != Get(des, k) && (k == TUN || k == TUIC)
    requires k in des && des[k].Map? && (k in cur ==> cur[k].Map?)
    requires prior == if k in cur then cur[k].m else map[]
    requires p == NonNull(Filtered(des[k].m, Allowed(s, k)))
    ensures Get(Merge(Map(prior), Map(p)).m, f) == Get(des[k].m, f) <==>
            !(Get(prior, f) != Get(des[k].m, f) && Get(des[k].m, f) == Some(Null))
  {
    RootShape(s, cur, des, k);
    MergeAt(Map(prior), Map(p), f);
    var a, b := Get(cur, k), Get(des, k);
    assert Child(a, f) == Get(prior, f);
    if f in p && f in prior {
      forall rest | Parts(Some(prior[f]), Some(p[f]), rest) ensures ValueAt(Some(p[f]), rest).Some? {
        PartsBelow(a, b, f, rest);
        PartsBelow(Some(Map(cur)), Some(Map(des)), k, [f] + rest);
      }
      GrowOnlyMerge(prior[f], p[f]);
    }
  }

  lemma UnchangedRoot(s: Schema, cur: Mapping, des: Mapping, patch: Mapping, k: string)
    requires Convert(s, PatchDocument(s, cur, des)) == Some(patch)
    requires Get(cur, k) == Get(des, k)
    ensures Get(Merge(Map(cur), Map(patch)).m, k) == Get(des, k) && RootNullFree(cur, des, k)
  {
    MergeAt(Map(cur), Map(patch), k);
    forall path | Parts(Some(Map(cur)), Some(Map(des)), path) && path != []
      ensures path[0] != k
    {
      assert Parts(Get(cur, path[0]), Get(des, path[0]), path[1..]);
    }
  }

  lemma ConvertedMerge(s: Schema, cur: Mapping, des: Mapping, patch: Mapping)
    requires AllPatchable(s, cur, des)
    requires Convert(s, PatchDocument(s, cur, des)) == Some(patch)
    ensures Merge(Map(cur), Map(patch)) == Map(des) <==> NoFieldBecomesNull(cur, des)
  {
    var merged := Merge(Map(cur), Map(patch));
    forall k ensures Get(merged.m, k) == Get(des, k) <==> RootNullFree(cur, des, k) {
      if Get(cur, k) == Get(des, k) {
        UnchangedRoot(s, cur, des, patch, k);
      } else if k == TUN || k == TUIC {
        NestedRoot(s, cur, des, patch, k);
      } else {
        PlainRoot(s, cur, des, patch, k);
      }
    }
    if NoFieldBecomesNull(cur, des) {
      forall k ensures Get(merged.m, k) == Get(des, k) { assert RootNullFree(cur, des, k); }
      MapsEqual(merged.m, des);
    } else {
      var path :| Parts(Some(Map(cur)), Some(Map(des)), path) && StructLevel(path)
                  && ValueAt(Some(Map(des)), path) == Some(Null);
      assert !RootNullFree(cur, des, path[0]);
      assert Get(merged.m, path[0]) != Get(des, path[0]);
    }
  }

  /**
   Deep-merging the patch of a `Patch` verdict into the current document gives
   exactly the desired document, if and only if no optional field changes to null.
   */
  lemma PatchReachesDesired(s: Schema, cur: Mapping, des: Mapping, patch: Mapping, expected: seq<Leaf>)
    requires ClassifyDocuments(s, cur, des) == Ok(Patch(patch, expected))
    ensures Merge(Map(cur), Map(patch)) == Map(des) <==> NoFieldBecomesNull(cur, des)
    ensures expected == Leaves(Map(patch))
  {
    hide Changes, CollectRoots, PatchDocument, Convert, Leaves, Merge, NoFieldBecomesNull, AllPatchable;
    PatchableMeans(s, cur, des);
    PatchableDocument(s, cur, des);
    PatchIsConverted(s, cur, des, patch, expected);
    ConvertedMerge(s, cur, des, patch);
  }

  /** What a `Patch` verdict carries: the converted document and its leaves, with the enable fields in place. */
  lemma PatchIsConverted(s: Schema, cur: Mapping, des: Mapping, patch: Mapping, expected: seq<Leaf>)
    requires ClassifyDocuments(s, cur, des) == Ok(Patch(patch, expected)) && AllPatchable(s, cur, des)
    ensures var doc := PatchDocument(s, cur, des);
            Convert(s, doc) == Some(patch) && !LacksEnable(doc, TUN) && !LacksEnable(doc, TUIC)
    ensures expected == Leaves(Map(patch)) && cur != des
  {
    hide Changes, CollectRoots, PatchDocument, Convert, Leaves, AllPatchable, LacksEnable;
    PatchableDocument(s, cur, des);
    DiffEmptyIffEqual(cur, des);
  }

  // ----- what a verified patch says about the core --------------------------------

  lemma {:induction false} AcceptsSelf(v: Doc)
    ensures Accepts(v, v)
  {
    if v.Map? {
      forall k | k in v.m ensures Accepts(v.m[k], v.m[k]) { AcceptsSelf(v.m[k]); }
    }
  }

  /** A patched root agrees with the desired document. */
  lemma RootAgrees(s: Schema, cur: Mapping, des: Mapping, patch: Mapping, k: string)
    requires Convert(s, PatchDocument(s, cur, des)) == Some(patch) && k in patch
    requires !LacksEnable(PatchDocument(s, cur, des), TUN) && !LacksEnable(PatchDocument(s, cur, des), TUIC)
    ensures k in des && Accepts(patch[k], des[k])
  {
    var doc := PatchDocument(s, cur, des);
    assert k in doc && k in des;
    if (k == TUN || k == TUIC) && doc[k].Map? {
      assert doc[k].m["enable"].Bool?;
      assert "enable" in patch[k].m;
      forall f | f in patch[k].m ensures f in des[k].m && Accepts(patch[k].m[f], des[k].m[f]) {
        AcceptsSelf(des[k].m[f]);
      }
    } else {
      AcceptsSelf(des[k]);
    }
  }

  /**
   The desired document passes its own projection exactly if the patch is not
   empty, and it is never empty unless a field becomes null. So a core that passes
   agrees with the desired document at every patched leaf.
   */
  lemma DesiredPassesProjection(s: Schema, cur: Mapping, des: Mapping, patch: Mapping, expected: seq<Leaf>)
    requires ClassifyDocuments(s, cur, des) == Ok(Patch(patch, expected))
    ensures Verify(expected, Map(des)) <==> patch != map[]
    ensures NoFieldBecomesNull(cur, des) ==> patch != map[]
    ensures expected == Leaves(Map(patch))
  {
    hide ClassifyDocuments, Changes, Leaves, Verify, AllPatchable;
    VerdictIsPatchable(s, cur, des, patch, expected);
    PatchIsConverted(s, cur, des, patch, expected);
    VerifyIsAccepts(Map(patch), Map(des));
    var k := UnequalKey(cur, des);
    RootShape(s, cur, des, k);
    if patch != map[] {
      forall o | o in patch ensures o in des && Accepts(patch[o], des[o]) { RootAgrees(s, cur, des, patch, o); }
      hide Convert, PatchDocument;
    } else {
      assert k in PatchDocument(s, cur, des);
      if NoFieldBecomesNull(cur, des) { EmptyPatchNulls(s, cur, des, k); assert false; }
    }
  }

  lemma VerdictIsPatchable(s: Schema, cur: Mapping, des: Mapping, patch: Mapping, expected: seq<Leaf>)
    requires ClassifyDocuments(s, cur, des) == Ok(Patch(patch, expected))
    ensures AllPatchable(s, cur, des)
  {
    hide Changes, AllPatchable, CollectRoots;
    PatchableMeans(s, cur, des);
  }

  lemma UnequalKey(cur: Mapping, des: Mapping) returns (k: string)
    requires cur != des
    ensures Get(cur, k) != Get(des, k)
  {
    if forall o :: Get(cur, o) == Get(des, o) { MapsEqual(cur, des); }
    k :| Get(cur, k) != Get(des, k);
  }

  /** A changed root the conversion drops is one that became null. */
  lemma EmptyPatchNulls(s: Schema, cur: Mapping, des: Mapping, k: string)
    requires AllPatchable(s, cur, des) && Get(cur, k) != Get(des, k)
    requires Convert(s, PatchDocument(s, cur, des)) == Some(map[])
    ensures !NoFieldBecomesNull(cur, des)
  {
    RootShape(s, cur, des, k);
    var doc := PatchDocument(s, cur, des);
    var p := Convert(s, doc).value;
    assert k in doc && (doc[k] != Null ==> k in p) && k !in p;
    var path := [k];
    assert path[1..] == [] && ValueAt(Some(Map(des)), path) == Get(des, k);
    assert Parts(Some(Map(cur)), Some(Map(des)), path) && StructLevel(path);
  }
}
