/**
 * JSON values as Python holds them after `json.loads`: objects are dicts
 * whose keys keep their insertion order, so an object is a list of
 * key/value pairs. Parsing and printing themselves are not modelled; they
 * are passed in as functions wherever the system calls them.
 */
module Json {
  import opened Wrappers

  datatype Json =
    | JNull
    | JBool(b: bool)
    | JNum(n: real)
    | JStr(s: string)
    | JArr(items: seq<Json>)
    | JObj(fields: seq<(string, Json)>)

  const EmptyObject: Json := JObj([])
  const EmptyArray: Json := JArr([])

  /** The value bound to `key`, taking the first binding (a dict built by `json.loads` has one). */
  function Lookup(fields: seq<(string, Json)>, key: string): (r: Option<Json>)
    ensures r.Some? <==> exists i :: 0 <= i < |fields| && fields[i].0 == key
    ensures r.Some? ==> (key, r.value) in fields
  {
    if fields == [] then None
    else if fields[0].0 == key then
      Some(fields[0].1)
    else
      var r := Lookup(fields[1..], key);
      assert forall i :: 1 <= i < |fields| ==> fields[i] == fields[1..][i - 1];
      r
  }

  /**
   * Python's `value.get(key, default)`: the bound value, or the default
   * when the key is absent; `None` when the value is not a dict, where
   * Python raises `AttributeError`.
   */
  function Get(j: Json, key: string, default: Json): (r: Option<Json>)
    ensures r.Some? <==> j.JObj?
    ensures j.JObj? && Lookup(j.fields, key).None? ==> r == Some(default)
    ensures j.JObj? && Lookup(j.fields, key).Some? ==> r == Lookup(j.fields, key)
    ensures r.Some? && r.value != default ==> (key, r.value) in j.fields
  {
    match j
    case JObj(fields) => Some(Lookup(fields, key).GetOr(default))
    case _ => None
  }

  /** Python's `value[key]`: only a dict can be indexed by a string; `None` is the `KeyError` or `TypeError`. */
  function Subscript(value: Json, key: string): (r: Option<Json>)
    ensures r.Some? <==> value.JObj? && Lookup(value.fields, key).Some?
    ensures r.Some? ==> (key, r.value) in value.fields
  {
    if value.JObj? then Lookup(value.fields, key) else None
  }

  /**
   * What iterating over a value yields (`for x in value`, `list.extend(value)`):
   * a list's items, a string's characters, a dict's keys; `None` for the
   * other values, where Python raises `TypeError`.
   */
  function Iterate(j: Json): (r: Option<seq<Json>>)
    ensures r.Some? <==> (j.JArr? || j.JStr? || j.JObj?)
    ensures j.JArr? ==> r == Some(j.items)
    ensures j.JStr? ==> r.Some? && |r.value| == |j.s| && forall i :: 0 <= i < |j.s| ==> r.value[i] == JStr([j.s[i]])
    ensures j.JObj? ==> r.Some? && |r.value| == |j.fields| && forall i :: 0 <= i < |j.fields| ==> r.value[i] == JStr(j.fields[i].0)
  {
    match j
    case JArr(items) => Some(items)
    case JStr(s) => Some(seq(|s|, i requires 0 <= i < |s| => JStr([s[i]])))
    case JObj(fields) => Some(seq(|fields|, i requires 0 <= i < |fields| => JStr(fields[i].0)))
    case _ => None
  }

  /** A value formatted into an f-string: a string stands for itself, anything else goes through `show` (Python's `str()`). */
  function Format(j: Json, show: Json -> string): (r: string)
    ensures j.JStr? ==> r == j.s
  {
    if j.JStr? then j.s else show(j)
  }

  /** Python truthiness (`if value:`): `None`, `False`, zero and empty strings, lists and dicts are false. */
  predicate Truthy(j: Json)
  {
    match j
    case JNull => false
    case JBool(b) => b
    case JNum(n) => n != 0.0
    case JStr(s) => s != []
    case JArr(items) => items != []
    case JObj(fields) => fields != []
  }
}
