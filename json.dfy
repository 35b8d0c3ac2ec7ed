/** JSON values as JavaScript holds them after `JSON.parse`, and the few
    JavaScript operations the handler applies to them: truthiness, optional
    property access (`?.`) and `typeof v === "object"`. */
module JsonValues {

  import opened Wrappers

  /** An object's members are kept in the order the parser produced them.
      Nothing here stops a `Parser` from producing one key twice, which
      `JSON.parse` never does (it keeps the last duplicate); on such a value
      `Lookup` takes the first match, so the model's lookups agree with
      JavaScript's exactly on objects with distinct keys. */
  datatype Json =
    | JNull
    | JBool(b: bool)
    | JNumber(n: real)
    | JString(s: string)
    | JArray(elems: seq<Json>)
    | JObject(members: seq<(string, Json)>)

  /** `JSON.parse` as an abstract total function: `None` when it throws. */
  type Parser = string -> Option<Json>

  /** JavaScript truthiness; `None` is `undefined`. */
  predicate Truthy(v: Option<Json>) {
    match v
    case None => false
    case Some(JNull) => false
    case Some(JBool(b)) => b
    case Some(JNumber(n)) => n != 0.0
    case Some(JString(s)) => s != ""
    case Some(JArray(_)) => true
    case Some(JObject(_)) => true
  }

  /** `typeof v === "object"`, which holds of null too. */
  predicate IsObjectType(v: Json) {
    v.JNull? || v.JArray? || v.JObject?
  }

  /** The value of the first member named `key`. */
  function Lookup(members: seq<(string, Json)>, key: string): (r: Option<Json>)
    ensures r.Some? <==> exists i :: 0 <= i < |members| && members[i].0 == key
    ensures r.Some? ==> exists i :: 0 <= i < |members| && members[i] == (key, r.value)
    decreases |members|
  {
    if members == [] then None
    else if members[0].0 == key then Some(members[0].1)
    else
      var r := Lookup(members[1..], key);
      assert forall i :: 1 <= i < |members| ==> members[i] == members[1..][i - 1];
      r
  }

  /** `Lookup` finds the first member with the key. */
  lemma {:induction false} LookupAt(members: seq<(string, Json)>, key: string, i: nat)
    requires i < |members| && members[i].0 == key
    requires forall j :: 0 <= j < i ==> members[j].0 != key
    ensures Lookup(members, key) == Some(members[i].1)
    decreases i
  {
    if i > 0 {
      LookupAt(members[1..], key, i - 1);
    }
  }

  /** `v?.[key]` for a property name that is not an array index and that no
      built-in prototype defines (`choices`, `message`, `content`): only an
      object's own members have it. */
  function Get(v: Option<Json>, key: string): Option<Json> {
    match v
    case Some(JObject(members)) => Lookup(members, key)
    case _ => None
  }

  /** `v?.[0]`: an array's first element, a string's first character, an
      object's member "0", and `undefined` for anything else. */
  function At0(v: Option<Json>): Option<Json> {
    match v
    case Some(JArray(elems)) => if elems == [] then None else Some(elems[0])
    case Some(JString(s)) => if s == [] then None else Some(JString([s[0]]))
    case Some(JObject(members)) => Lookup(members, "0")
    case _ => None
  }
}
