/** Document diffing: `config/diff.rs`. */
module Diff {
  import opened Wrappers
  import opened Yaml
  import KeyOrder

  datatype Change = Change(path: seq<string>, to: Option<Doc>)

  predicate Descends(cur: Option<Doc>, des: Option<Doc>) {
    var cm := cur.Some? && cur.value.Map?;
    var dm := des.Some? && des.value.Map?;
    (cm || dm) && (cur.None? || (cm && (des.None? || dm)))
  }

  function KeysOf(v: Option<Doc>): set<string> {
    if v.Some? && v.value.Map? then v.value.m.Keys else {}
  }

  function OrNull(v: Option<Doc>): Doc { if v.Some? then v.value else Null }

  function Prefixed(path: seq<string>, cs: seq<Change>): (r: seq<Change>)
    ensures |r| == |cs|
    ensures forall i :: 0 <= i < |r| ==> r[i] == Change(path + cs[i].path, cs[i].to)
  {
    seq(|cs|, i requires 0 <= i < |cs| => Change(path + cs[i].path, cs[i].to))
  }

  /** The changes that turn `cur` into `des`, in key order, paths relative to the pair. */
  function Changes(cur: Option<Doc>, des: Option<Doc>): seq<Change>
    decreases cur.Some?, des.Some?, OrNull(cur), OrNull(des), 1, 0
  {
    if cur == des then []
    else
      var keys := KeysOf(cur) + KeysOf(des);
      if Descends(cur, des) && keys != {}
      then ChangesUnder(cur, des, KeyOrder.Sorted(keys))
      else [Change([], des)]
  }

  function ChangesUnder(cur: Option<Doc>, des: Option<Doc>, keys: seq<string>): seq<Change>
    requires Descends(cur, des)
    requires forall k :: k in keys ==> k in KeysOf(cur) + KeysOf(des)
    decreases cur.Some?, des.Some?, OrNull(cur), OrNull(des), 0, |keys|
  {
    if keys == [] then []
    else Prefixed([keys[0]], Changes(Child(cur, keys[0]), Child(des, keys[0])))
         + ChangesUnder(cur, des, keys[1..])
  }

  function DiffDocs(cur: Mapping, des: Mapping): seq<Change> {
    Changes(Some(Map(cur)), Some(Map(des)))
  }

  /** Independent reading of a diff: `path` leads to a place where the two trees part. */
  ghost predicate Parts(cur: Option<Doc>, des: Option<Doc>, path: seq<string>)
    decreases path
  {
    cur != des &&
    if Descends(cur, des) && KeysOf(cur) + KeysOf(des) != {}
    then path != [] && path[0] in KeysOf(cur) + KeysOf(des)
         && Parts(Child(cur, path[0]), Child(des, path[0]), path[1..])
    else path == []
  }

  /** `diff` reports exactly the places where the documents part, with the desired value there. */
  lemma {:induction false} ChangesAreParts(cur: Option<Doc>, des: Option<Doc>, c: Change)
    ensures c in Changes(cur, des) <==> Parts(cur, des, c.path) && c.to == ValueAt(des, c.path)
    decreases cur.Some?, des.Some?, OrNull(cur), OrNull(des), 1, 0
  {
    var keys := KeysOf(cur) + KeysOf(des);
    if cur != des && Descends(cur, des) && keys != {} {
      ChangesUnderAreParts(cur, des, KeyOrder.Sorted(keys), c);
      if c.path != [] && des.None? { ValueAtNone(c.path[1..]); }
    }
  }

  lemma {:induction false} ValueAtNone(path: seq<string>)
    ensures ValueAt(None, path) == None
  {
  }

  lemma {:induction false} ChangesUnderAreParts(cur: Option<Doc>, des: Option<Doc>, keys: seq<string>, c: Change)
    requires Descends(cur, des)
    requires forall k :: k in keys ==> k in KeysOf(cur) + KeysOf(des)
    ensures c in ChangesUnder(cur, des, keys) <==>
            c.path != [] && c.path[0] in keys
            && Parts(Child(cur, c.path[0]), Child(des, c.path[0]), c.path[1..])
            && c.to == ValueAt(Child(des, c.path[0]), c.path[1..])
    decreases cur.Some?, des.Some?, OrNull(cur), OrNull(des), 0, |keys|
  {
    if keys != [] {
      var k := keys[0];
      var cs := Changes(Child(cur, k), Child(des, k));
      ChangesUnderAreParts(cur, des, keys[1..], c);
      if c.path != [] && c.path[0] == k {
        ChangesAreParts(Child(cur, k), Child(des, k), Change(c.path[1..], c.to));
        if Change(c.path[1..], c.to) in cs {
          var i :| 0 <= i < |cs| && cs[i] == Change(c.path[1..], c.to);
          assert Prefixed([k], cs)[i] == c;
        }
      }
      if c in Prefixed([k], cs) {
        var i :| 0 <= i < |cs| && Prefixed([k], cs)[i] == c;
        assert c.path[1..] == cs[i].path && cs[i] == Change(c.path[1..], c.to);
      }
    }
  }

  /** A difference always shows: unequal trees part somewhere. */
  lemma {:induction false} UnequalParts(cur: Option<Doc>, des: Option<Doc>) returns (path: seq<string>)
    requires cur != des
    ensures Parts(cur, des, path)
    decreases cur.Some?, des.Some?, OrNull(cur), OrNull(des)
  {
    var keys := KeysOf(cur) + KeysOf(des);
    if Descends(cur, des) && keys != {} {
      if cur.Some? && des.Some? && forall k :: k in keys ==> Child(cur, k) == Child(des, k) {
        forall k ensures Get(cur.value.m, k) == Get(des.value.m, k) {
          if k in keys { assert Child(cur, k) == Child(des, k); }
        }
        MapsEqual(cur.value.m, des.value.m);
        assert false;
      }
      var k :| k in keys && Child(cur, k) != Child(des, k);
      var rest := UnequalParts(Child(cur, k), Child(des, k));
      path := [k] + rest;
      assert path[1..] == rest;
    } else {
      path := [];
    }
  }

  /** `diff` is empty exactly on equal documents. */
  lemma DiffEmptyIffEqual(cur: Mapping, des: Mapping)
    ensures DiffDocs(cur, des) == [] <==> cur == des
  {
    if cur != des {
      var path := UnequalParts(Some(Map(cur)), Some(Map(des)));
      ChangesAreParts(Some(Map(cur)), Some(Map(des)), Change(path, ValueAt(Some(Map(des)), path)));
    }
  }

  /** `diff_value`: pushes onto a shared path and change list. */
  method DiffValue(cur: Option<Doc>, des: Option<Doc>, path: seq<string>, changes: seq<Change>)
    returns (out: seq<Change>)
    ensures out == changes + Prefixed(path, Changes(cur, des))
    decreases cur.Some?, des.Some?, OrNull(cur), OrNull(des), 1
  {
    if cur == des { return changes; }
    var keys := KeysOf(cur) + KeysOf(des);
    if Descends(cur, des) && keys != {} {
      out := DiffEach(cur, des, path, changes, KeyOrder.Sorted(keys));
    } else {
      out := changes + [Change(path, des)];
      assert path + [] == path;
    }
  }

  /** The loop of `diff_value` over the keys of both mappings. */
  method DiffEach(cur: Option<Doc>, des: Option<Doc>, path: seq<string>, changes: seq<Change>, ks: seq<string>)
    returns (out: seq<Change>)
    requires Descends(cur, des)
    requires forall k :: k in ks ==> k in KeysOf(cur) + KeysOf(des)
    ensures out == changes + Prefixed(path, ChangesUnder(cur, des, ks))
    decreases cur.Some?, des.Some?, OrNull(cur), OrNull(des), 0
  {
    hide Changes, ChangesUnder, Prefixed, Remaining;
    out := changes;
    ghost var all := changes + Remaining(cur, des, path, ks, 0);
    RemainingEnds(cur, des, path, ks);
    for i := 0 to |ks|
      invariant out + Remaining(cur, des, path, ks, i) == all
    {
      assert ks[i] in ks;
      RemainingStep(cur, des, path, ks, i);
      out := DiffValue(Child(cur, ks[i]), Child(des, ks[i]), path + [ks[i]], out);
    }
  }

  /** What the loop still has to push from key `i` on. */
  ghost function Remaining(cur: Option<Doc>, des: Option<Doc>, path: seq<string>, ks: seq<string>, i: nat): seq<Change>
    requires i <= |ks| && Descends(cur, des)
    requires forall k :: k in ks ==> k in KeysOf(cur) + KeysOf(des)
  {
    Prefixed(path, ChangesUnder(cur, des, ks[i..]))
  }

  lemma RemainingEnds(cur: Option<Doc>, des: Option<Doc>, path: seq<string>, ks: seq<string>)
    requires Descends(cur, des)
    requires forall k :: k in ks ==> k in KeysOf(cur) + KeysOf(des)
    ensures Remaining(cur, des, path, ks, 0) == Prefixed(path, ChangesUnder(cur, des, ks))
    ensures Remaining(cur, des, path, ks, |ks|) == []
  {
    assert ks[0..] == ks && ks[|ks|..] == [];
  }

  lemma RemainingStep(cur: Option<Doc>, des: Option<Doc>, path: seq<string>, ks: seq<string>, i: nat)
    requires i < |ks| && Descends(cur, des)
    requires forall k :: k in ks ==> k in KeysOf(cur) + KeysOf(des)
    ensures Remaining(cur, des, path, ks, i) ==
            Prefixed(path + [ks[i]], Changes(Child(cur, ks[i]), Child(des, ks[i])))
            + Remaining(cur, des, path, ks, i + 1)
  {
    var cs := Changes(Child(cur, ks[i]), Child(des, ks[i]));
    var rest := ChangesUnder(cur, des, ks[i + 1..]);
    assert ks[i..][1..] == ks[i + 1..];
    assert ChangesUnder(cur, des, ks[i..]) == Prefixed([ks[i]], cs) + rest;
    hide Changes, ChangesUnder, Prefixed;
    PrefixedTwice(path, ks[i], cs);
    PrefixedConcat(path, Prefixed([ks[i]], cs), rest);
  }

  lemma PrefixedTwice(path: seq<string>, k: string, cs: seq<Change>)
    ensures Prefixed(path + [k], cs) == Prefixed(path, Prefixed([k], cs))
  {
    forall j | 0 <= j < |cs| ensures path + [k] + cs[j].path == path + ([k] + cs[j].path) {}
  }

  lemma PrefixedConcat(path: seq<string>, a: seq<Change>, b: seq<Change>)
    ensures Prefixed(path, a + b) == Prefixed(path, a) + Prefixed(path, b)
  {
  }
}
