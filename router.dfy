/** The script's router: the `action` query parameter selects one of three
    handlers, each of which builds one outbound request; `register` and
    `status` first check the request body and answer with an in-band error
    when a required field is empty. */
module Router {
  import opened Wrappers
  import opened PhpStrings
  import opened PhpValues
  import opened UrlEncoding
  import opened Client

  const BaseUrl: string := "https://api.mnotify.com/api"

  const RegisterRequired: string := "sender_name and purpose are required"
  const StatusRequired: string := "sender_name is required"
  const UnknownAction: string := "Unknown action"

  /** The query string every outbound URL ends with: `?key=` and the
      url-encoded key. */
  function KeyQuery(key: string): string {
    "?key=" + UrlEncode(Utf8(key))
  }

  /** `getSmsBalance`: a GET of the balance endpoint with no body. */
  function BalanceCall(base: string, key: string): Call {
    Call(GET, base + "/balance/sms" + KeyQuery(key), [])
  }

  /** `registerSenderId`: a POST of the name and purpose. */
  function RegisterCall(base: string, key: string, senderName: string, purpose: string): Call {
    Call(POST, base + "/senderid/register" + KeyQuery(key), [("sender_name", senderName), ("purpose", purpose)])
  }

  /** `checkSenderStatus`: a POST of the name alone. */
  function StatusCall(base: string, key: string, senderName: string): Call {
    Call(POST, base + "/senderid/status" + KeyQuery(key), [("sender_name", senderName)])
  }

  /** `getRequestBody`: the decoded request body (`None` when it is absent or
      not JSON) with null replaced by an empty array; `None` here is the
      TypeError PHP raises when the body decodes to a scalar, which the
      function's `array` return type does not admit. */
  function RequestBody(decoded: Option<Json>): (r: Option<Json>)
    ensures r.None? <==> decoded.Some? && !decoded.value.JNull? && !IsArray(decoded.value)
    ensures r.Some? ==> IsArray(r.value)
    ensures decoded.Some? && IsArray(decoded.value) ==> r == decoded
    ensures decoded.None? || decoded == Some(JNull) ==> r == Some(JList([]))
  {
    match decoded
    case None => Some(JList([]))
    case Some(v) =>
      if v.JNull? then Some(JList([]))
      else if IsArray(v) then Some(v)
      else None
  }

  /** What the router does with one request: answer it itself, forward it
      as one outbound call, or stop on an uncaught TypeError. */
  datatype Decision = Answer(reply: Json) | Forward(call: Call) | Abort

  /** The `switch` on `$_GET['action'] ?? ''`, with the validation of the
      `register` and `status` branches. */
  function Route(action: Option<string>, body: Option<Json>, base: string, key: string): Decision {
    var a := action.GetOr("");
    if a == "balance" then Forward(BalanceCall(base, key))
    else if a == "register" then
      match RequestBody(body)
      case None => Abort
      case Some(b) =>
        var name := Entry(b, "sender_name");
        var purpose := Entry(b, "purpose");
        if IsEmpty(name) || IsEmpty(purpose) then Answer(ErrorReply(RegisterRequired))
        else
          match (StringArg(name.value), StringArg(purpose.value))
          case (Some(n), Some(p)) => Forward(RegisterCall(base, key, n, p))
          case _ => Abort
    else if a == "status" then
      match RequestBody(body)
      case None => Abort
      case Some(b) =>
        var name := Entry(b, "sender_name");
        if IsEmpty(name) then Answer(ErrorReply(StatusRequired))
        else
          match StringArg(name.value)
          case Some(n) => Forward(StatusCall(base, key, n))
          case None => Abort
    else Answer(ErrorReply(UnknownAction))
  }

  /** One whole request: route it, and when it is forwarded, normalise what
      the transfer produced (`decoded` is the decoded response body). */
  function Handle(action: Option<string>, body: Option<Json>, base: string, key: string,
                  t: Transfer, decoded: Option<Json>): Response
  {
    match Route(action, body, base, key)
    case Answer(j) => Reply(j)
    case Forward(c) => Normalise(t, decoded)
    case Abort => TypeError
  }

  /** Any action but the three, including a missing one, is answered with
      "Unknown action" whatever the body. */
  lemma UnknownActionRejected(action: Option<string>, body: Option<Json>, base: string, key: string)
    requires action.GetOr("") != "balance" && action.GetOr("") != "register" && action.GetOr("") != "status"
    ensures Route(action, body, base, key) == Answer(ErrorReply(UnknownAction))
  {
  }

  /** `balance` never reads the body and always forwards the same GET. */
  lemma BalanceForwarded(body: Option<Json>, base: string, key: string)
    ensures Route(Some("balance"), body, base, key) == Forward(BalanceCall(base, key))
    ensures RequestPayload(BalanceCall(base, key)) == None
    ensures MethodName(BalanceCall(base, key).verb) == "GET"
  {
  }

  /** `register` answers "sender_name and purpose are required", without any
      outbound call, exactly when the body is an array in which either field
      is empty. */
  lemma RegisterRejected(body: Option<Json>, base: string, key: string)
    ensures Route(Some("register"), body, base, key) == Answer(ErrorReply(RegisterRequired)) <==>
            RequestBody(body).Some? &&
            (IsEmpty(Entry(RequestBody(body).value, "sender_name")) ||
             IsEmpty(Entry(RequestBody(body).value, "purpose")))
  {
  }

  /** When both fields are present and not empty, `register` forwards one
      POST whose payload is exactly the two fields, as strings, in the order
      name then purpose; string fields are sent exactly as given. */
  lemma RegisterForwarded(body: Json, base: string, key: string, name: Json, purpose: Json)
    requires IsArray(body)
    requires Entry(body, "sender_name") == Some(name) && Entry(body, "purpose") == Some(purpose)
    requires !IsEmpty(Some(name)) && !IsEmpty(Some(purpose))
    requires StringArg(name).Some? && StringArg(purpose).Some?
    ensures Route(Some("register"), Some(body), base, key)
            == Forward(RegisterCall(base, key, StringArg(name).value, StringArg(purpose).value))
    ensures RequestPayload(RegisterCall(base, key, StringArg(name).value, StringArg(purpose).value))
            == Some(JObject([("sender_name", JString(StringArg(name).value)),
                             ("purpose", JString(StringArg(purpose).value))]))
    ensures MethodName(RegisterCall(base, key, StringArg(name).value, StringArg(purpose).value).verb) == "POST"
    ensures IsTruthy(StringArg(name).value) && IsTruthy(StringArg(purpose).value)
    ensures name.JString? && purpose.JString? ==> StringArg(name).value == name.s && StringArg(purpose).value == purpose.s
  {
    var c := RegisterCall(base, key, StringArg(name).value, StringArg(purpose).value);
    var ms := RequestPayload(c).value.members;
    assert ms[0] == ("sender_name", JString(StringArg(name).value));
    assert ms[1] == ("purpose", JString(StringArg(purpose).value));
    assert ms == [ms[0], ms[1]];
    assert RequestPayload(c) == Some(JObject(ms));
  }

  /** `status` answers "sender_name is required", without any outbound call,
      exactly when the body is an array whose `sender_name` is empty. */
  lemma StatusRejected(body: Option<Json>, base: string, key: string)
    ensures Route(Some("status"), body, base, key) == Answer(ErrorReply(StatusRequired)) <==>
            RequestBody(body).Some? && IsEmpty(Entry(RequestBody(body).value, "sender_name"))
  {
  }

  /** When `sender_name` is present and not empty, `status` forwards one
      POST whose payload is exactly that field. */
  lemma StatusForwarded(body: Json, base: string, key: string, name: Json)
    requires IsArray(body)
    requires Entry(body, "sender_name") == Some(name) && !IsEmpty(Some(name))
    requires StringArg(name).Some?
    ensures Route(Some("status"), Some(body), base, key) == Forward(StatusCall(base, key, StringArg(name).value))
    ensures RequestPayload(StatusCall(base, key, StringArg(name).value))
            == Some(JObject([("sender_name", JString(StringArg(name).value))]))
    ensures MethodName(StatusCall(base, key, StringArg(name).value).verb) == "POST"
    ensures IsTruthy(StringArg(name).value)
  {
    var c := StatusCall(base, key, StringArg(name).value);
    var ms := RequestPayload(c).value.members;
    assert ms[0] == ("sender_name", JString(StringArg(name).value));
    assert ms == [ms[0]];
    assert RequestPayload(c) == Some(JObject(ms));
  }

  /** A request the router answers itself gets one of the three fixed error
      objects, and that answer is the same whatever the key: the key never
      reaches the caller. */
  lemma AnswersHideKey(action: Option<string>, body: Option<Json>, base: string, key: string, other: string)
    requires Route(action, body, base, key).Answer?
    ensures Route(action, body, base, other) == Route(action, body, base, key)
    ensures Route(action, body, base, key).reply in
              {ErrorReply(RegisterRequired), ErrorReply(StatusRequired), ErrorReply(UnknownAction)}
  {
  }

  /** No response depends on the key: whatever the request and whatever
      the transfer produced, running it with another key gives the same
      result. */
  lemma ResponseHidesKey(action: Option<string>, body: Option<Json>, base: string, key: string,
                         t: Transfer, decoded: Option<Json>, other: string)
    ensures Handle(action, body, base, key, t, decoded) == Handle(action, body, base, other, t, decoded)
  {
  }

  /** A request that is not forwarded makes no outbound call: its response
      does not depend on any transfer outcome. */
  lemma NoCallUnlessForwarded(action: Option<string>, body: Option<Json>, base: string, key: string,
                              t: Transfer, decoded: Option<Json>, t': Transfer, decoded': Option<Json>)
    requires !Route(action, body, base, key).Forward?
    ensures Handle(action, body, base, key, t, decoded) == Handle(action, body, base, key, t', decoded')
  {
  }

  /** A forwarded request's response is what `makeRequest` made of the
      transfer, passed back unchanged. */
  lemma ForwardedRelayed(action: Option<string>, body: Option<Json>, base: string, key: string,
                         t: Transfer, decoded: Option<Json>)
    requires Route(action, body, base, key).Forward?
    ensures Handle(action, body, base, key, t, decoded) == Normalise(t, decoded)
  {
  }

  /** The endpoint each action calls. */
  function Endpoint(action: string): string {
    if action == "balance" then "/balance/sms"
    else if action == "register" then "/senderid/register"
    else "/senderid/status"
  }

  /** Every forwarded call is for one of the three actions: a GET of the
      balance endpoint for `balance`, a POST of the action's endpoint
      otherwise, with the key in the query string. */
  lemma ForwardedShape(action: Option<string>, body: Option<Json>, base: string, key: string)
    requires Route(action, body, base, key).Forward?
    ensures var a := action.GetOr("");
            var c := Route(action, body, base, key).call;
            (a == "balance" || a == "register" || a == "status")
            && c.url == base + Endpoint(a) + KeyQuery(key)
            && (c.verb == GET <==> a == "balance")
  {
  }

  /** How a server reads an outbound URL: the part before the first '?',
      and the bytes of the `key` parameter, which must be the whole query. */
  function ParseKeyUrl(url: string): Option<(string, seq<Byte>)> {
    match IndexOf(url, '?')
    case None => None
    case Some(i) =>
      var query := url[i + 1..];
      if |query| >= 4 && query[..4] == "key=" then
        match FormDecode(query[4..])
        case Some(bs) => Some((url[..i], bs))
        case None => None
      else None
  }

  /** The key always reaches the remote service intact: whatever characters
      it holds, the URL still splits into the endpoint and exactly the key's
      bytes. */
  lemma {:induction false} KeyQueryRecoverable(endpoint: string, key: string)
    requires '?' !in endpoint
    ensures ParseKeyUrl(endpoint + KeyQuery(key)) == Some((endpoint, Utf8(key)))
  {
    var enc := UrlEncode(Utf8(key));
    var url := endpoint + KeyQuery(key);
    assert url == endpoint + ['?'] + ("key=" + enc);
    IndexOfAfter(endpoint, '?', "key=" + enc);
    assert url[..|endpoint|] == endpoint;
    var query := url[|endpoint| + 1..];
    assert query == "key=" + enc;
    assert query[4..] == enc;
    DecodeEncode(Utf8(key));
  }

  /** No endpoint URL already holds a query string. */
  lemma NoQueryInEndpoint(action: string)
    ensures '?' !in BaseUrl + Endpoint(action)
  {
  }

  /** For the real base URL, every forwarded call carries the key intact to
      the endpoint of its action. */
  lemma ForwardedKeyIntact(action: Option<string>, body: Option<Json>, key: string)
    requires Route(action, body, BaseUrl, key).Forward?
    ensures ParseKeyUrl(Route(action, body, BaseUrl, key).call.url)
            == Some((BaseUrl + Endpoint(action.GetOr("")), Utf8(key)))
  {
    ForwardedShape(action, body, BaseUrl, key);
    var e := BaseUrl + Endpoint(action.GetOr(""));
    NoQueryInEndpoint(action.GetOr(""));
    KeyQueryRecoverable(e, key);
  }
}
