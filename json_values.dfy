/**
 * The values `json.loads` produces. A JSON object is the Python dict it
 * becomes: its entries in insertion order, one per key.
 */
module JsonValues {
  import opened Wrappers

  datatype Json =
    | JNull
    | JBool(b: bool)
    | JNumber(literal: string)  // kept as its literal text: the model never computes with numbers
    | JString(text: string)
    | JArray(items: seq<Json>)
    | JObject(members: seq<(string, Json)>)

  /** A dict's entries as `json.loads` builds them: one entry per key. */
  predicate DistinctKeys(members: seq<(string, Json)>) {
    forall a, b :: 0 <= a < b < |members| ==> members[a].0 != members[b].0
  }

  /** The value stored under `key` in a dict's entries: the first entry with that key. */
  function LookupMember(members: seq<(string, Json)>, key: string): (r: Option<Json>)
    ensures r.None? <==> forall k :: 0 <= k < |members| ==> members[k].0 != key
    ensures r.Some? ==> exists k :: 0 <= k < |members| && members[k] == (key, r.value)
  {
    if members == [] then None
    else if members[0].0 == key then Some(members[0].1)
    else LookupMember(members[1..], key)
  }

  /**
   * `value[key]` with a string key: only a dict holding `key` answers; a
   * missing key (KeyError) and a value that is not a dict (TypeError) both
   * raise, which is None here.
   */
  function Lookup(value: Json, key: string): (r: Option<Json>)
    ensures r.Some? ==> value.JObject?
    ensures value.JObject? ==> (r.Some? <==> exists k :: 0 <= k < |value.members| && value.members[k].0 == key)
  {
    match value
    case JObject(members) => LookupMember(members, key)
    case _ => None
  }

  /** A three-entry dict literal with distinct keys answers each key with its own value. */
  lemma LookupThree(k1: string, v1: Json, k2: string, v2: Json, k3: string, v3: Json)
    requires k1 != k2 && k1 != k3 && k2 != k3
    ensures var o := JObject([(k1, v1), (k2, v2), (k3, v3)]);
      Lookup(o, k1) == Some(v1) && Lookup(o, k2) == Some(v2) && Lookup(o, k3) == Some(v3)
  {
    var m := [(k1, v1), (k2, v2), (k3, v3)];
    assert m[1..] == [(k2, v2), (k3, v3)];
    assert m[1..][1..] == [(k3, v3)];
    assert LookupMember([(k3, v3)], k3) == Some(v3);
    assert LookupMember(m[1..], k3) == Some(v3);
    assert LookupMember(m[1..], k2) == Some(v2);
  }

  /**
   * `value.values()`: the dict's values in insertion order; anything that is
   * not a dict has no `values` method (AttributeError), which is None here.
   */
  function Values(value: Json): (r: Option<seq<Json>>)
    ensures r.Some? <==> value.JObject?
    ensures r.Some? ==> |r.value| == |value.members|
    ensures r.Some? ==> forall k :: 0 <= k < |r.value| ==> r.value[k] == value.members[k].1
  {
    match value
    case JObject(members) => Some(seq(|members|, k requires 0 <= k < |members| => members[k].1))
    case _ => None
  }
}
