/** The PHP values the proxy handles: what `json_decode($text, true)` yields
    (objects become associative arrays, lists become indexed arrays), PHP's
    `empty()` on an array entry, and the coercion PHP applies when such a
    value is passed to a parameter declared `string`. */
module PhpValues {
  import opened Wrappers
  import opened PhpStrings

  /** A decoded JSON value. An object keeps its members in order, as the
      PHP array built from it does; integers are unbounded. */
  datatype Json =
    | JNull
    | JBool(b: bool)
    | JInt(n: int)
    | JString(s: string)
    | JList(items: seq<Json>)
    | JObject(members: seq<(string, Json)>)

  /** True for the values PHP types as `array`. */
  predicate IsArray(v: Json) {
    v.JList? || v.JObject?
  }

  /** The value of the last member named `k` (decoding a JSON object lets a
      later duplicate key overwrite an earlier one). */
  function LastMember(ms: seq<(string, Json)>, k: string): (r: Option<Json>)
    ensures r.None? <==> forall i :: 0 <= i < |ms| ==> ms[i].0 != k
    ensures r.Some? ==> exists i :: 0 <= i < |ms| && ms[i] == (k, r.value)
                                    && forall j :: i < j < |ms| ==> ms[j].0 != k
  {
    if ms == [] then None
    else if ms[|ms| - 1].0 == k then Some(ms[|ms| - 1].1)
    else
      var init := ms[..|ms| - 1];
      var r := LastMember(init, k);
      if r.Some? then
        var i :| 0 <= i < |init| && init[i] == (k, r.value)
                 && forall j :: i < j < |init| ==> init[j].0 != k;
        assert ms[i] == (k, r.value);
        r
      else r
  }

  /** `$v[k]` for a string key `k` that is not numeric: a member of a decoded
      object, or `None` (PHP's `null` for a missing entry) for anything else,
      since a decoded list has only integer keys. */
  function Entry(v: Json, k: string): Option<Json> {
    match v
    case JObject(ms) => LastMember(ms, k)
    case _ => None
  }

  /** PHP `empty($v[k])`: the entry is missing, or it is null, false, 0, "",
      "0" or an empty array. */
  predicate IsEmpty(e: Option<Json>) {
    match e
    case None => true
    case Some(JNull) => true
    case Some(JBool(b)) => !b
    case Some(JInt(n)) => n == 0
    case Some(JString(s)) => !IsTruthy(s)
    case Some(JList(items)) => items == []
    case Some(JObject(ms)) => ms == []
  }

  /** The string a parameter declared `string` receives when `v` is passed
      to it without strict types: strings pass through, integers become their
      decimal form and booleans "1" or "". `None` is the TypeError PHP raises
      for null and for arrays. A value that is not empty always arrives as a
      non-empty string other than "0". */
  function StringArg(v: Json): (r: Option<string>)
    ensures r.Some? <==> !(v.JNull? || IsArray(v))
    ensures v.JString? ==> r == Some(v.s)
    ensures v.JInt? ==> r == Some(DecimalString(v.n))
    ensures v.JBool? ==> r == Some(if v.b then "1" else "")
    ensures r.Some? ==> (IsTruthy(r.value) <==> !IsEmpty(Some(v)))
  {
    match v
    case JString(s) => Some(s)
    case JInt(n) => Some(DecimalString(n))
    case JBool(b) => Some(if b then "1" else "")
    case _ => None
  }
}
