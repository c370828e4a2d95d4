/**
 * Scalar JSON values as the app stores and receives them, with JavaScript's
 * truthiness, `String(v)` conversion, the `??` operator and the effect of
 * `JSON.stringify` on a record built by spreading and overriding keys.
 */
module Json {
  import opened Optional
  import opened JsText

  datatype Json = JNull | JBool(b: bool) | JNum(n: int) | JStr(s: string)

  /** A parsed JSON object: key to value.  A key that is absent reads as
      `undefined`. */
  type Record = map<string, Json>

  function Get(r: Record, key: string): (v: Option<Json>)
    ensures v.Some? <==> key in r
    ensures v.Some? ==> v.value == r[key]
  {
    if key in r then Some(r[key]) else None
  }

  /** `obj?.key` where the object itself may be missing. */
  function Field(r: Option<Record>, key: string): (v: Option<Json>)
    ensures v.Some? <==> r.Some? && key in r.value
  {
    if r.Some? then Get(r.value, key) else None
  }

  /** JavaScript truthiness of a possibly-undefined value. */
  function Truthy(v: Option<Json>): (b: bool)
    ensures b ==> !Nullish(v)
    ensures v.Some? && v.value.JStr? ==> (b <==> ToText(v) != "")
  {
    match v
    case None => false
    case Some(JNull) => false
    case Some(JBool(b)) => b
    case Some(JNum(n)) => n != 0
    case Some(JStr(s)) => s != ""
  }

  /** `v === null || v === undefined`. */
  predicate Nullish(v: Option<Json>) {
    v.None? || v.value.JNull?
  }

  /** `a ?? b`. */
  function Coalesce(a: Option<Json>, b: Option<Json>): (r: Option<Json>)
    ensures !Nullish(a) ==> r == a
    ensures Nullish(a) ==> r == b
  {
    if Nullish(a) then b else a
  }

  /** `String(v)`. */
  function ToText(v: Option<Json>): (s: string)
    ensures v.Some? && v.value.JStr? ==> s == v.value.s
    ensures v.None? ==> s == "undefined"
  {
    match v
    case None => "undefined"
    case Some(JNull) => "null"
    case Some(JBool(b)) => if b then "true" else "false"
    case Some(JNum(n)) => IntToString(n)
    case Some(JStr(s)) => s
  }

  /** `(v && String(v).trim())`, read as "the trimmed text if it is non-empty":
      the operand's value is falsy exactly when this is None. */
  function TrimmedIfTruthy(v: Option<Json>): (r: Option<string>)
    ensures r.Some? ==> r.value != "" && IsTrimmed(r.value)
    ensures !Truthy(v) ==> r.None?
    ensures Truthy(v) && Trim(ToText(v)) != "" ==> r == Some(Trim(ToText(v)))
  {
    if Truthy(v) && Trim(ToText(v)) != "" then Some(Trim(ToText(v))) else None
  }

  /** The record `JSON.stringify({...prev, k1: v1, …})` writes: every key of
      `prev` survives unless overridden; an override whose value is undefined
      removes the key, since `JSON.stringify` drops undefined members. */
  function Override(prev: Record, updates: seq<(string, Option<Json>)>): (r: Record)
    ensures forall k :: k in r ==> k in prev || exists i :: 0 <= i < |updates| && updates[i].0 == k
    decreases |updates|
  {
    if updates == [] then prev
    else
      var (k, v) := updates[0];
      var next := if v.Some? then prev[k := v.value] else prev - {k};
      var r := Override(next, updates[1..]);
      assert forall j :: 0 <= j < |updates| - 1 ==> updates[1..][j] == updates[j + 1];
      r
  }

  /** A key no update mentions keeps its previous value (or stays absent). */
  lemma {:induction false} OverrideKeepsOthers(prev: Record, updates: seq<(string, Option<Json>)>, k: string)
    requires forall i :: 0 <= i < |updates| ==> updates[i].0 != k
    ensures Get(Override(prev, updates), k) == Get(prev, k)
    decreases |updates|
  {
    if updates != [] {
      var (k0, v) := updates[0];
      var next := if v.Some? then prev[k0 := v.value] else prev - {k0};
      assert Get(next, k) == Get(prev, k);
      OverrideKeepsOthers(next, updates[1..], k);
    }
  }

  /** The last update of a key decides its value: when the key is updated
      exactly once, at position `i`, it ends up holding that value. */
  lemma {:induction false} OverrideSetsKey(prev: Record, updates: seq<(string, Option<Json>)>, i: nat)
    requires i < |updates|
    requires forall j :: 0 <= j < |updates| && j != i ==> updates[j].0 != updates[i].0
    ensures Get(Override(prev, updates), updates[i].0) == updates[i].1
    decreases |updates|
  {
    var (k0, v) := updates[0];
    var next := if v.Some? then prev[k0 := v.value] else prev - {k0};
    if i == 0 {
      OverrideKeepsOthers(next, updates[1..], k0);
    } else {
      OverrideSetsKey(next, updates[1..], i - 1);
    }
  }
}
