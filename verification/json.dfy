/**
 * JSON values as Python's `json.loads` hands them to the handlers: objects are
 * dicts whose keys keep their insertion order, arrays are lists.
 */
module Json {

  import opened Base
  import opened Text

  datatype Value =
    | JNull
    | JBool(b: bool)
    | JInt(n: int)
    | JStr(s: string)
    | JArray(items: seq<Value>)
    | JObject(fields: seq<Field>)

  /** One key/value entry of a JSON object, in insertion order. */
  datatype Field = Field(key: string, value: Value)

  /** Python truthiness: `None`, `False`, `0`, `""`, `[]` and `{}` are false. */
  predicate Truthy(v: Value) {
    match v
    case JNull => false
    case JBool(b) => b
    case JInt(n) => n != 0
    case JStr(s) => s != ""
    case JArray(items) => items != []
    case JObject(fields) => fields != []
  }

  predicate HasKey(fields: seq<Field>, k: string) {
    exists i :: 0 <= i < |fields| && fields[i].key == k
  }

  /** No key occurs twice, as in every Python dict. */
  predicate UniqueKeys(fields: seq<Field>) {
    forall i, j :: 0 <= i < j < |fields| ==> fields[i].key != fields[j].key
  }

  /** Every object, at every nesting level, has unique keys. */
  predicate WellFormed(v: Value) {
    match v
    case JArray(items) => forall i :: 0 <= i < |items| ==> WellFormed(items[i])
    case JObject(fields) =>
      UniqueKeys(fields) && forall i :: 0 <= i < |fields| ==> WellFormed(fields[i].value)
    case _ => true
  }

  /** `d[k]` if present: the value stored under key `k`. */
  function Lookup(fields: seq<Field>, k: string): (r: Option<Value>)
    ensures r.Some? <==> HasKey(fields, k)
    ensures r.Some? ==> exists i :: 0 <= i < |fields| && fields[i] == Field(k, r.value)
  {
    if |fields| == 0 then None
    else if fields[0].key == k then Some(fields[0].value)
    else
      assert forall i :: 1 <= i < |fields| ==> fields[i] == fields[1..][i - 1];
      Lookup(fields[1..], k)
  }

  /** With unique keys the entry found is the one entry under `k`. */
  lemma LookupUnique(fields: seq<Field>, i: nat)
    requires UniqueKeys(fields)
    requires i < |fields|
    ensures Lookup(fields, fields[i].key) == Some(fields[i].value)
  {
    var r := Lookup(fields, fields[i].key);
    var j :| 0 <= j < |fields| && fields[j] == Field(fields[i].key, r.value);
    assert i == j;
  }

  /** `d.get(k, default)` on a dict. */
  function Get(fields: seq<Field>, k: string, default: Value): (r: Value)
    ensures !HasKey(fields, k) ==> r == default
    ensures HasKey(fields, k) ==> exists i :: 0 <= i < |fields| && fields[i] == Field(k, r)
  {
    Lookup(fields, k).GetOr(default)
  }

  /**
   * The integer Python sees in a numeric comparison: an int, or a bool
   * (`True == 1`); every other JSON value has none.
   */
  function IntView(v: Value): (r: Option<int>)
    ensures v.JInt? ==> r == Some(v.n)
    ensures v.JBool? ==> r == Some(if v.b then 1 else 0)
    ensures r.Some? ==> v.JInt? || v.JBool?
  {
    match v
    case JInt(n) => Some(n)
    case JBool(b) => Some(if b then 1 else 0)
    case _ => None
  }

  /**
   * `str(v)` for the scalar values; for a list or dict Python prints its repr,
   * which is passed in as `repr`.
   */
  function PyStr(v: Value, repr: Value -> string): (r: string)
    ensures v.JStr? ==> r == v.s
    ensures v.JInt? ==> r == IntToString(v.n)
  {
    match v
    case JNull => "None"
    case JBool(b) => if b then "True" else "False"
    case JInt(n) => IntToString(n)
    case JStr(s) => s
    case _ => repr(v)
  }
}
