/** The outbound request helper `makeRequest`. The cURL call itself is not
    modelled: what the model keeps is the request it is asked to make and
    how it turns the transfer's outcome into the array it returns. */
module Client {
  import opened Wrappers
  import opened PhpStrings
  import opened PhpValues

  datatype Method = GET | POST

  /** The request method as sent, `strtoupper($method)`. */
  function MethodName(m: Method): (r: string)
    ensures r == "GET" || r == "POST"
  {
    match m
    case GET => "GET"
    case POST => "POST"
  }

  /** One outbound request: method, full URL and the `$data` array of string
      fields, in order. */
  datatype Call = Call(verb: Method, url: string, data: seq<(string, string)>)

  /** The JSON request body: `json_encode($data)` is sent only when `$data`
      is not empty, and then as an object with exactly those fields. */
  function RequestPayload(c: Call): (r: Option<Json>)
    ensures r.None? <==> c.data == []
    ensures r.Some? ==> r.value.JObject? && |r.value.members| == |c.data|
    ensures r.Some? ==> forall i :: 0 <= i < |c.data| ==>
                          r.value.members[i] == (c.data[i].0, JString(c.data[i].1))
  {
    if c.data == [] then None
    else Some(JObject(seq(|c.data|, i requires 0 <= i < |c.data| => (c.data[i].0, JString(c.data[i].1)))))
  }

  /** What the transfer produced: `curl_error` ("" when there was none), the
      response body and the HTTP status. */
  datatype Transfer = Transfer(curlError: string, body: string, httpCode: int)

  /** How a request ends: with an array that is sent back to the browser,
      or with an uncaught TypeError, which ends the script (here: when what
      `makeRequest` would return is not an array, as its return type
      demands). */
  datatype Response = Reply(value: Json) | TypeError

  /** The proxy's in-band error object, `{status: "error", message: m}`. */
  function ErrorReply(message: string): Json {
    JObject([("status", JString("error")), ("message", JString(message))])
  }

  /** `{status: "error", message: "Invalid JSON response", raw: body}`. */
  function InvalidJsonReply(raw: string): Json {
    JObject([("status", JString("error")), ("message", JString("Invalid JSON response")), ("raw", JString(raw))])
  }

  /** The end of `makeRequest`: a transport error wins; otherwise the decoded
      body (`decoded` is `json_decode($response, true)`, `None` when the body
      is not JSON) is passed on as it is, unless it is null, in which case
      the raw body is reported. The HTTP status plays no part. */
  function Normalise(t: Transfer, decoded: Option<Json>): (r: Response)
    ensures IsTruthy(t.curlError) ==> r == Reply(ErrorReply("cURL error: " + t.curlError))
    ensures !IsTruthy(t.curlError) && decoded.Some? && IsArray(decoded.value) ==> r == Reply(decoded.value)
    ensures !IsTruthy(t.curlError) && (decoded.None? || decoded.value.JNull?) ==> r == Reply(InvalidJsonReply(t.body))
    ensures r == TypeError <==>
              !IsTruthy(t.curlError) && decoded.Some? && !decoded.value.JNull? && !IsArray(decoded.value)
  {
    if IsTruthy(t.curlError) then Reply(ErrorReply("cURL error: " + t.curlError))
    else match decoded
      case Some(v) =>
        if v.JNull? then Reply(InvalidJsonReply(t.body))
        else if IsArray(v) then Reply(v)
        else TypeError
      case None => Reply(InvalidJsonReply(t.body))
  }

  /** The HTTP status code never changes the result. */
  lemma StatusCodeIgnored(t: Transfer, code: int, decoded: Option<Json>)
    ensures Normalise(t.(httpCode := code), decoded) == Normalise(t, decoded)
  {
  }
}
