/**
 * The JSON-shaped values the webhook client builds and reads: request bodies,
 * the reply of the webhook and the article documents loaded from YAML.
 * A Python `dict` is an ordered list of bindings; floats are not modelled.
 */
module Json {
  import opened Wrappers

  datatype Value =
    | Null
    | Bool(b: bool)
    | Int(i: int)
    | Str(s: string)
    | Array(items: seq<Value>)
    | Object(fields: seq<(string, Value)>)

  /** Python `dict.get(key)` on a dict built from `fields`: a later binding of a key overrides an earlier one. */
  function Lookup(fields: seq<(string, Value)>, key: string): (r: Option<Value>)
    ensures r.None? <==> forall i :: 0 <= i < |fields| ==> fields[i].0 != key
    ensures r.Some? ==> exists i :: 0 <= i < |fields| && fields[i] == (key, r.value)
                                   && forall j :: i < j < |fields| ==> fields[j].0 != key
    decreases |fields|
  {
    if |fields| == 0 then None
    else if fields[|fields| - 1].0 == key then Some(fields[|fields| - 1].1)
    else Lookup(fields[..|fields| - 1], key)
  }

  /** `v.get(key)` where `v` is known to be a dict; any other value has no such key. */
  function Get(v: Value, key: string): Option<Value>
  {
    if v.Object? then Lookup(v.fields, key) else None
  }

  /** Python truthiness of a loaded value: `None`, `False`, `0`, `""`, `[]` and `{}` are false. */
  predicate Truthy(v: Value)
    ensures Truthy(v) <==> v !in {Null, Bool(false), Int(0), Str(""), Array([]), Object([])}
  {
    match v
    case Null => false
    case Bool(b) => b
    case Int(i) => i != 0
    case Str(s) => s != ""
    case Array(items) => items != []
    case Object(fields) => fields != []
  }

  /** Truthiness of the result of `dict.get`: a missing key reads as `None`. */
  predicate Present(o: Option<Value>)
    ensures Present(o) <==> o.Some? && o.value !in {Null, Bool(false), Int(0), Str(""), Array([]), Object([])}
  {
    o.Some? && Truthy(o.value)
  }

  /** Lookup in a two-entry dict, the shape of every request body. */
  lemma LookupPair(k0: string, v0: Value, k1: string, v1: Value, key: string)
    ensures Lookup([(k0, v0), (k1, v1)], key)
            == if key == k1 then Some(v1) else if key == k0 then Some(v0) else None
  {
    assert [(k0, v0), (k1, v1)][..1] == [(k0, v0)];
  }
}
