/** The dynamically typed values that flow between the services: what
    `json.loads` returns and what the extraction record holds. A Python dict is
    an insertion-ordered sequence of (key, value) pairs. */
module Json {
  import opened Wrappers

  /** A Python float. Its numeric value is never inspected by the worker, only
      whether it is zero (its truthiness); `id` tells floats apart. */
  datatype Float = Float(zero: bool, id: int)

  datatype JsonValue =
    | JNull
    | JBool(b: bool)
    | JInt(i: int)
    | JFloat(f: Float)
    | JString(s: string)
    | JList(items: seq<JsonValue>)
    | JObject(fields: seq<(string, JsonValue)>)

  /** `type(v).__name__`. */
  function TypeName(v: JsonValue): string {
    match v
    case JNull => "NoneType"
    case JBool(_) => "bool"
    case JInt(_) => "int"
    case JFloat(_) => "float"
    case JString(_) => "str"
    case JList(_) => "list"
    case JObject(_) => "dict"
  }

  /** `bool(v)`: None, False, zero and empty containers are falsy. */
  predicate Truthy(v: JsonValue) {
    match v
    case JNull => false
    case JBool(b) => b
    case JInt(i) => i != 0
    case JFloat(f) => !f.zero
    case JString(s) => |s| > 0
    case JList(items) => |items| > 0
    case JObject(fields) => |fields| > 0
  }

  /** The keys of a dict, in insertion order. */
  function Keys(fields: seq<(string, JsonValue)>): (ks: seq<string>)
    ensures |ks| == |fields|
    ensures forall i :: 0 <= i < |fields| ==> ks[i] == fields[i].0
  {
    seq(|fields|, i requires 0 <= i < |fields| => fields[i].0)
  }

  /** Python dicts never repeat a key. */
  ghost predicate UniqueKeys(fields: seq<(string, JsonValue)>) {
    forall i, j :: 0 <= i < j < |fields| ==> fields[i].0 != fields[j].0
  }

  /** The position of `key` among the dict's entries, or `|fields|` when absent. */
  function KeyIndex(fields: seq<(string, JsonValue)>, key: string, from: nat := 0): (i: nat)
    requires from <= |fields|
    ensures from <= i <= |fields|
    ensures forall j :: from <= j < i ==> fields[j].0 != key
    ensures i < |fields| ==> fields[i].0 == key
    decreases |fields| - from
  {
    if from == |fields| || fields[from].0 == key then from else KeyIndex(fields, key, from + 1)
  }

  /** `d.get(key)`: the value stored under `key`, if any. */
  function Lookup(fields: seq<(string, JsonValue)>, key: string): (r: Option<JsonValue>)
    ensures r.Some? <==> key in Keys(fields)
    ensures r.Some? ==> (key, r.value) in fields
  {
    var i := KeyIndex(fields, key);
    assert i < |fields| ==> Keys(fields)[i] == key;
    if i < |fields| then Some(fields[i].1) else None
  }

  /** `d[key] = v`: an existing key keeps its place and gets the new value,
      a new key is appended; every other entry is untouched. */
  function Put(fields: seq<(string, JsonValue)>, key: string, v: JsonValue): (r: seq<(string, JsonValue)>)
    ensures Lookup(r, key) == Some(v)
    ensures forall k :: k != key ==> Lookup(r, k) == Lookup(fields, k)
    ensures Keys(r) == if key in Keys(fields) then Keys(fields) else Keys(fields) + [key]
    ensures UniqueKeys(fields) ==> UniqueKeys(r)
  {
    var i := KeyIndex(fields, key);
    if i < |fields| then
      var r := fields[i := (key, v)];
      assert Keys(r) == Keys(fields);
      assert forall k :: KeyIndex(r, k) == KeyIndex(fields, k) by {
        forall k ensures KeyIndex(r, k) == KeyIndex(fields, k) {
          SameKeysSameIndex(r, fields, k);
        }
      }
      r
    else
      var r := fields + [(key, v)];
      assert Keys(r) == Keys(fields) + [key];
      assert forall k :: k != key ==> Lookup(r, k) == Lookup(fields, k) by {
        forall k | k != key ensures Lookup(r, k) == Lookup(fields, k) {
          AppendIndex(fields, (key, v), k);
        }
      }
      r
  }

  /** Where a key sits depends only on the sequence of keys. */
  lemma SameKeysSameIndex(a: seq<(string, JsonValue)>, b: seq<(string, JsonValue)>, key: string)
    requires Keys(a) == Keys(b)
    ensures KeyIndex(a, key) == KeyIndex(b, key)
  {
    var i, j := KeyIndex(a, key), KeyIndex(b, key);
    assert forall m :: 0 <= m < |a| ==> a[m].0 == Keys(a)[m] == Keys(b)[m] == b[m].0;
  }

  /** Appending an entry with another key does not change where `key` sits. */
  lemma AppendIndex(fields: seq<(string, JsonValue)>, entry: (string, JsonValue), key: string)
    requires entry.0 != key
    ensures KeyIndex(fields + [entry], key) == if KeyIndex(fields, key) < |fields| then KeyIndex(fields, key) else |fields| + 1
  {
    var r := fields + [entry];
    var i := KeyIndex(fields, key);
    assert forall m :: 0 <= m < |fields| ==> r[m] == fields[m];
    if i == |fields| {
      assert r[|fields|].0 != key;
    }
  }
}
