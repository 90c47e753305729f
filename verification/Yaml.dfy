/**
 Runtime-config documents. A document that passed canonicalization has only
 string keys and no tags, and its mappings compare without regard to order, so
 a mapping is a finite map.
 */
module Yaml {
  import opened Wrappers

  datatype Doc =
    | Null
    | Bool(b: bool)
    | Int(n: int)
    | Float(r: real)
    | Str(s: string)
    | Seq(items: seq<Doc>)
    | Map(m: map<string, Doc>)

  type Mapping = map<string, Doc>

  function Get(m: Mapping, key: string): (v: Option<Doc>)
    ensures v.Some? <==> key in m
  {
    if key in m then Some(m[key]) else None
  }

  /** `value.as_mapping()?.get(key)` on an optional value. */
  function Child(v: Option<Doc>, key: string): Option<Doc> {
    if v.Some? && v.value.Map? then Get(v.value.m, key) else None
  }

  /** `value_at`: follow a path through nested mappings. */
  function ValueAt(v: Option<Doc>, path: seq<string>): Option<Doc>
    decreases path
  {
    if path == [] || v.None? then v else ValueAt(Child(v, path[0]), path[1..])
  }

  /** `Value::as_i64`: integers outside the signed 64-bit range are not `i64`. */
  predicate IsI64(v: Doc) {
    v.Int? && -0x8000_0000_0000_0000 <= v.n < 0x8000_0000_0000_0000
  }

  /** Deep merge: what sending a patch to a core does to its document. */
  function Merge(target: Doc, patch: Doc): Doc
    decreases patch
  {
    if target.Map? && patch.Map? then
      Map(map k | k in target.m.Keys + patch.m.Keys ::
            if k !in patch.m then target.m[k]
            else if k in target.m then Merge(target.m[k], patch.m[k])
            else patch.m[k])
    else patch
  }

  /** Lookup in a merged document, the pointwise law of `Merge`. */
  lemma MergeAt(target: Doc, patch: Doc, k: string)
    requires target.Map? && patch.Map?
    ensures Merge(target, patch).Map?
    ensures Get(Merge(target, patch).m, k) ==
            if k !in patch.m then Get(target.m, k)
            else if k in target.m then Some(Merge(target.m[k], patch.m[k]))
            else Some(patch.m[k])
  {
  }

  lemma MapsEqual(a: Mapping, b: Mapping)
    requires forall k :: Get(a, k) == Get(b, k)
    ensures a == b
  {
    forall k ensures k in a <==> k in b { assert Get(a, k) == Get(b, k); }
    forall k | k in a ensures a[k] == b[k] { assert Get(a, k) == Get(b, k); }
  }
}
