/**
 * An untyped JSON reply as JavaScript sees it after `response.json()`, with the
 * parts of JavaScript semantics the webhook client applies to it: truthiness,
 * optional chaining `?.`, the operators `||` and `??`, and conversion to a string.
 * A missing property (`undefined`) is `None`.
 */
module Json {
  import opened Wrappers
  import opened JsText

  /**
   * A parsed JSON value. Numbers are integral. An object maps each key to its
   * value; JSON.parse keeps the last of repeated keys, so a map loses nothing
   * the app can read.
   */
  datatype Json =
    | JNull
    | JBool(b: bool)
    | JNumber(n: int)
    | JString(s: string)
    | JArray(items: seq<Json>)
    | JObject(fields: map<string, Json>)

  /** JavaScript truthiness: `undefined`, null, false, 0 and "" are falsy; arrays and objects are truthy. */
  predicate Truthy(v: Option<Json>) {
    match v
    case None => false
    case Some(JNull) => false
    case Some(JBool(b)) => b
    case Some(JNumber(n)) => n != 0
    case Some(JString(s)) => s != ""
    case Some(JArray(_)) => true
    case Some(JObject(_)) => true
  }

  /** `v == null`: undefined or null, the only values `??` replaces. */
  predicate IsNullish(v: Option<Json>) {
    v == None || v == Some(JNull)
  }

  /**
   * `v?.key`: the member when v is an object that has it, otherwise undefined.
   * None of the keys the app reads is a property of a string, number, boolean or array.
   */
  function Member(v: Option<Json>, key: string): Option<Json> {
    match v
    case Some(JObject(fields)) => if key in fields then Some(fields[key]) else None
    case _ => None
  }

  /** `v?.k1?.k2?.…`. */
  function Path(v: Option<Json>, keys: seq<string>): Option<Json>
    decreases keys
  {
    if keys == [] then v else Path(Member(v, keys[0]), keys[1..])
  }

  /** `c[0] || c[1] || … || c[n-1]`: the first truthy operand, or else the last operand. */
  function FirstTruthy(c: seq<Option<Json>>): (r: Option<Json>)
    requires |c| >= 1
    ensures r in c
    ensures Truthy(r) || r == c[|c| - 1]
  {
    if |c| == 1 || Truthy(c[0]) then c[0] else FirstTruthy(c[1..])
  }

  /** When c[i] is the first truthy operand, `||` yields it. */
  lemma {:induction false} FirstTruthyPicks(c: seq<Option<Json>>, i: nat)
    requires i < |c| && Truthy(c[i])
    requires forall j :: 0 <= j < i ==> !Truthy(c[j])
    ensures FirstTruthy(c) == c[i]
  {
    if i > 0 {
      assert !Truthy(c[0]);
      FirstTruthyPicks(c[1..], i - 1);
    }
  }

  /** When no operand before the last is truthy, `||` yields the last operand, whatever it is. */
  lemma {:induction false} FirstTruthyFallsBack(c: seq<Option<Json>>)
    requires |c| >= 1
    requires forall j :: 0 <= j < |c| - 1 ==> !Truthy(c[j])
    ensures FirstTruthy(c) == c[|c| - 1]
  {
    if |c| > 1 {
      assert !Truthy(c[0]);
      FirstTruthyFallsBack(c[1..]);
    }
  }

  /** `v || d` for a defined fallback d. */
  function OrElse(v: Option<Json>, d: Json): (r: Json)
    ensures Truthy(v) ==> Some(r) == v
    ensures !Truthy(v) ==> r == d
  {
    if Truthy(v) then v.value else d
  }

  /** `v ?? d`: only undefined and null are replaced; false, 0 and "" are kept. */
  function Coalesce(v: Option<Json>, d: Json): (r: Json)
    ensures IsNullish(v) ==> r == d
    ensures !IsNullish(v) ==> Some(r) == v
  {
    if IsNullish(v) then d else v.value
  }

  /** `String(v)`, as string concatenation converts a value: arrays are joined with commas, objects print as `[object Object]`. */
  function ToJsString(v: Json): string {
    match v
    case JNull => "null"
    case JBool(b) => if b then "true" else "false"
    case JNumber(n) => IntToString(n)
    case JString(s) => s
    case JArray(items) => JoinElements(items)
    case JObject(_) => "[object Object]"
  }

  /** `Array.prototype.join(",")`: null elements become empty text. */
  function JoinElements(items: seq<Json>): string
    decreases items
  {
    if items == [] then ""
    else
      var first := if items[0] == JNull then "" else ToJsString(items[0]);
      if |items| == 1 then first else first + "," + JoinElements(items[1..])
  }

  /** `data[0]`: an array's first element, an object's member "0", a string's first character. */
  function Index0(data: Json): Option<Json> {
    match data
    case JArray(items) => if items == [] then None else Some(items[0])
    case JObject(fields) => if "0" in fields then Some(fields["0"]) else None
    case JString(s) => if s == "" then None else Some(JString([s[0]]))
    case _ => None
  }
}
