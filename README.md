# mNotify API proxy — a Dafny model

`api.php` is a small PHP pass-through proxy between a browser dashboard and
the mNotify SMS service. At start-up it reads the API key from a `.env`
file of `KEY=VALUE` lines into `$_ENV`, falling back to the placeholder
`YOUR_API_KEY_HERE`. It then routes on the `action` query parameter:

- `balance` forwards a GET of `/balance/sms`;
- `register` forwards a POST of `/senderid/register` carrying
  `sender_name` and `purpose`;
- `status` forwards a POST of `/senderid/status` carrying `sender_name`;
- anything else is answered with `{status: "error", message: "Unknown action"}`.

`register` and `status` first check the JSON request body with PHP's
`empty()` and answer with an in-band error object when a required field is
empty. Each forwarded call carries the key as `?key=` plus `urlencode($key)`.
Its outcome is normalised by `makeRequest`:

- a cURL error becomes an error object;
- a decoded JSON array is relayed unchanged;
- a body that does not decode becomes an "Invalid JSON response" object carrying the raw text.

The model has seven modules:

- `Wrappers`: `Option`.
- `PhpStrings`: `trim`, `strpos` for one character, `explode(..., 2)`,
  string truthiness and integer-to-string conversion.
- `PhpValues`: decoded JSON values, `$array[key]`, `empty()` and the
  coercion applied to a parameter declared `string`.
- `UrlEncoding`: UTF-8, `urlencode` and the form decoding that inverts it.
- `EnvLoader`: the `.env` loop and the key fallback. The loop is a
  method over a map, proved against a fold of per-line effects.
- `Client`: the request payload and the result normaliser of `makeRequest`.
- `Router`: the `switch`, the validation and the three handlers.

The model follows the code where it differs from a plain reading of the
script's intent:

- A non-comment line with no `=` stores `null` under its trimmed text.
  `$_ENV['MNOTIFY_API_KEY'] ?? ...` then yields the placeholder for such
  an entry (`ParseLine`, `KeyFromLastLine`).
- A line of only blanks is not dropped by `FILE_SKIP_EMPTY_LINES`: it
  stores `null` under the empty name.
- A request body that decodes to JSON `null` is replaced by `[]`. One that
  decodes to a scalar makes `getRequestBody` raise a TypeError, because of
  its `array` return type (`RequestBody` yields `None`, the router `Abort`).
- The same applies to a response that decodes to a scalar in
  `makeRequest` (`Normalise` yields `TypeError`). A response that decodes
  to `null` (the text `null`) is reported as "Invalid JSON response".
- A required field that is not empty but is an array (or an object)
  passes the `empty()` check. Passing it to the `string` parameter of
  the handler then raises a TypeError (`StringArg` is `None`, the router
  `Abort`). An integer or boolean field is coerced to its string form.

## Model

| member | source | states |
|---|---|---|
| PhpStrings.LeadingTrimmableSpec | api.php:27 | the blanks `trim` removes at the front are all among space, tab, LF, CR, NUL, vertical tab, and the next character is not |
| PhpStrings.TrailingTrimmableSpec | api.php:28 | the same for the blanks removed at the end |
| PhpStrings.Trim | api.php:28 | `trim` never lengthens a string |
| PhpStrings.TrimSpec | api.php:28 | the result of `trim` is a contiguous slice of the input, what is cut on either side is all blanks, and the result neither starts nor ends with a blank |
| PhpStrings.TrimPadded | api.php:28 | `trim` removes exactly the blank padding around a string whose ends are not blanks |
| PhpStrings.TrimIdempotent | api.php:28 | trimming a trimmed string changes nothing |
| PhpStrings.IndexOf | api.php:27 | `strpos` of a character is "not found" exactly when it does not occur, and otherwise is the first position holding it |
| PhpStrings.IndexOfAfter | api.php:28 | in `a` + `=` + `b` with no `=` in `a`, the first `=` is right after `a` |
| PhpStrings.SplitFirst | api.php:28 | `explode('=', $line, 2)` yields a second piece exactly when the line holds a `=` |
| PhpStrings.SplitFirstSpec | api.php:28 | the two pieces and the separator reassemble the line, and the first piece holds no separator |
| PhpStrings.IsTruthy | api.php:91 | definition: a string is true for `if` unless it is "" or "0" |
| PhpStrings.Digits | api.php:49 | an integer's decimal digits are non-empty, all digits, and start with `0` only for zero |
| PhpStrings.DigitsRoundTrip | api.php:49 | reading back the decimal digits of `n` gives `n` |
| PhpStrings.DecimalString | api.php:49 | an integer coerced to a string is its sign and digits with no leading zero, reads back as the integer, and is "0" only for zero |
| PhpValues.LastMember | api.php:45 | a decoded object's entry is missing exactly when no member has that name, and otherwise is the value of the last member with that name |
| PhpValues.Entry | api.php:45 | definition: `$body[name]` is the object's last member of that name, and null for a list or a scalar |
| PhpValues.IsEmpty | api.php:45 | definition: `empty()` is true for a missing entry, null, false, 0, "", "0" and an empty array |
| PhpValues.StringArg | api.php:49 | a field passed to a `string` parameter raises a TypeError exactly for null and arrays; strings pass unchanged, an integer becomes its decimal form, a boolean "1" or ""; a field that is not `empty()` arrives as a string other than "" and "0" |
| EnvLoader.IsComment | api.php:27 | definition: `strpos(trim($line), '#') === 0` |
| EnvLoader.CommentMeansHash | api.php:27 | a line is skipped as a comment exactly when its trimmed form starts with `#` |
| EnvLoader.CommentByFirstVisible | api.php:27 | a line is a comment exactly when its first non-blank character is `#` |
| EnvLoader.VisibleNotComment | api.php:27 | a line whose first non-blank character is not `#` is not a comment |
| EnvLoader.NamedLineNotComment | api.php:27 | a line starting with a name whose first non-blank character is not `#` is not a comment, whatever follows |
| EnvLoader.KeyValueNotComment | api.php:27 | a `name=value` line whose name does not begin with `#` is not skipped |
| EnvLoader.ParseLine | api.php:28 | a line yields a `null` value exactly when it has no `=`, and then its whole trimmed text is the name |
| EnvLoader.ParseBinding | api.php:28 | only the first `=` separates: `k=v` with no `=` in `k` gives name `trim(k)` and value `trim(v)`, whatever `v` holds |
| EnvLoader.KeyValueEffect | api.php:27-29 | a non-comment line `k=v` with no `=` in `k` writes `trim(v)` under `trim(k)` |
| EnvLoader.BindingLine | api.php:27-29 | a line `k=v` whose name does not begin with `#` and holds no `=` writes `trim(v)` under `trim(k)` |
| EnvLoader.LineEffect | api.php:27-29 | definition: a comment line does nothing, any other line assigns its parsed value to its parsed name |
| EnvLoader.Apply | api.php:29 | one assignment sets its key to its value and leaves every other key as it was |
| EnvLoader.ApplyLines | api.php:26-30 | definition: the environment after every line's effect is applied in file order |
| EnvLoader.LoadEnv | api.php:25-30 | the loop leaves `$_ENV` equal to the initial environment with every line's effect applied in file order |
| EnvLoader.LastBindingWins | api.php:26-30 | after the loop, a key holds the value of the last line that assigns it |
| EnvLoader.UnboundKeyUnchanged | api.php:26-30 | a key no line assigns keeps its earlier presence and value |
| EnvLoader.CommentIgnored | api.php:27 | appending a comment line does not change the loaded environment |
| EnvLoader.ApiKey | api.php:32 | the key is the stored value when there is a non-null one (even ""), and the placeholder when the entry is missing or null |
| EnvLoader.LoadApiKey | api.php:23-32 | without a `.env` file the environment is untouched; with one, it is loaded line by line; the key is then chosen from it |
| EnvLoader.KeyFromLastLine | api.php:28-32 | the key is the value of the last line naming `MNOTIFY_API_KEY`, or the placeholder when that line has no `=` |
| EnvLoader.PlaceholderWhenUnset | api.php:32 | with no line naming `MNOTIFY_API_KEY` and no earlier entry, the placeholder is used |
| UrlEncoding.Utf8Char | api.php:101 | a character's UTF-8 encoding is 1 to 4 bytes, one byte exactly for ASCII, with continuation bytes in 0x80..0xBF |
| UrlEncoding.Utf8 | api.php:101 | a string's bytes are at least as many as its characters |
| UrlEncoding.HexRoundTrip | api.php:101 | an upper-case hex digit reads back as its value |
| UrlEncoding.EncodeByte | api.php:101 | `urlencode` writes each byte as 1 to 3 characters, all letters, digits, `-_.`, `+` or `%` |
| UrlEncoding.UrlEncode | api.php:101 | an encoded key holds no `&`, `=`, `#` or other character that could break the query string |
| UrlEncoding.DecodeEncodedByte | api.php:101 | form decoding consumes exactly one encoded byte and yields it back |
| UrlEncoding.DecodeEncode | api.php:101 | form decoding of `urlencode(bytes)` gives back exactly those bytes |
| Client.MethodName | api.php:78 | the request method sent is "GET" or "POST" |
| Client.RequestPayload | api.php:82-84 | a body is sent exactly when `$data` is not empty, and then it is an object with exactly those fields, in order, as strings |
| Client.ErrorReply | api.php:92 | definition: the in-band error object `{status: "error", message: m}`, also used at lines 46, 55 and 62 |
| Client.InvalidJsonReply | api.php:96 | definition: `{status: "error", message: "Invalid JSON response", raw: body}` |
| Client.Normalise | api.php:91-96 | a cURL error wins; otherwise a decoded array is relayed unchanged; an undecodable body or `null` gives "Invalid JSON response" with the raw text; a TypeError happens exactly for a decoded non-null scalar |
| Client.StatusCodeIgnored | api.php:87-96 | the HTTP status code never changes the result |
| Router.KeyQuery | api.php:101 | definition: `?key=` followed by `urlencode($key)`, shared by lines 101, 107 and 116 |
| Router.BalanceCall | api.php:100-103 | definition: a GET of `/balance/sms` with the key query and no data |
| Router.RegisterCall | api.php:106-112 | definition: a POST of `/senderid/register` with the key query and the fields `sender_name`, `purpose` |
| Router.StatusCall | api.php:115-120 | definition: a POST of `/senderid/status` with the key query and the field `sender_name` |
| Router.Route | api.php:36-63 | definition: the `switch` on the action with the validation of `register` and `status`; its behaviour is stated by the lemmas below |
| Router.Handle | api.php:36-96 | definition: one whole request, routed and, when forwarded, normalised |
| Router.RequestBody | api.php:67-70 | the body is the decoded array, `[]` when it is absent, not JSON or `null`, and a TypeError exactly for a decoded non-null scalar |
| Router.UnknownActionRejected | api.php:61-62 | any action but the three, including a missing one, gets "Unknown action" whatever the body |
| Router.BalanceForwarded | api.php:39-40 | `balance` always forwards the same call, sent as "GET", with no payload, without reading the body |
| Router.RegisterRejected | api.php:43-47 | `register` answers "sender_name and purpose are required" exactly when the body is an array with either field empty |
| Router.RegisterForwarded | api.php:106-112 | with both fields not empty and coercible, `register` forwards one call sent as "POST" whose payload is exactly name then purpose; string fields are sent as given |
| Router.StatusRejected | api.php:52-56 | `status` answers "sender_name is required" exactly when the body is an array whose `sender_name` is empty |
| Router.StatusForwarded | api.php:115-120 | with `sender_name` not empty and coercible, `status` forwards one call sent as "POST" whose payload is exactly that field |
| Router.AnswersHideKey | api.php:36-63 | every answer the router gives itself is one of the three error objects and does not depend on the key |
| Router.ResponseHidesKey | api.php:36-120 | no response depends on the key: the same request and transfer give the same result with any other key |
| Router.NoCallUnlessForwarded | api.php:38-63 | a request that is not forwarded makes no outbound call: its response is independent of any transfer |
| Router.ForwardedRelayed | api.php:38-59 | a forwarded request's response is exactly what `makeRequest` made of the transfer |
| Router.ForwardedShape | api.php:100-120 | every forwarded call is for one of the three actions, to that action's endpoint with the key query, and is a GET exactly for `balance` |
| Router.KeyQueryRecoverable | api.php:101 | the URL built with `?key=` and the encoded key splits back into the endpoint and exactly the key's bytes |
| Router.ForwardedKeyIntact | api.php:100-120 | every forwarded call to the real base URL carries exactly the key's bytes to its action's endpoint |

## Left out

- What PHP prints for an uncaught TypeError (`Abort` in `Route`, `TypeError` in `Normalise`) is not modelled: the model only records that the request ends there. Under PHP's default settings that output can include a stack trace whose frames for `getSmsBalance`, `registerSenderId` or `checkSenderStatus` show the first bytes of the key. Two inputs reach it: a remote reply that decodes to a scalar (line 96 against the `array` return type), and an array-valued `sender_name` or `purpose` (lines 49 and 58). `ResponseHidesKey` covers every other response.
- CORS headers and the `OPTIONS` early exit (lines 11-19): only headers and a 204 status, with no logic.
- `echo json_encode(...)` of the result: the model stops at the array that would be encoded. JSON text encoding and decoding are outside the model, so `json_decode` is a parameter (`Option<Json>`, `None` for invalid text).
- JSON numbers with a fraction or exponent: `Json` has no floats.
- Integers are unbounded, so PHP's 64-bit integers and their overflow to float are not modelled.
- The file system: `file_exists` and `file(...)` are a parameter `Option<seq<string>>`, the lines after `FILE_IGNORE_NEW_LINES | FILE_SKIP_EMPTY_LINES`.
- Reading `php://input`: the decoded request body is a parameter.
- The `$_ENV` contents before the script runs are a parameter.
- cURL: the transfer (error text, body, status code) is a parameter, and the 15-second timeout and the `Content-Type` header are not modelled.
- `curl_exec` returning `false` is assumed to come with a non-empty error text. The model has no case for a failed transfer with no error text.
- An `action` query parameter given as an array (`action[]=...`) is not modelled. Only string actions (or none) are, compared with `==` against the three names.
- Strings are sequences of Unicode characters. A PHP byte string that is not valid UTF-8 cannot be expressed, so `urlencode` is modelled over the UTF-8 bytes of the key.
- A `.env` line that PHP reads with a byte order mark or other invisible non-blank characters is treated like any other character.
- Numeric-string keys in a decoded object (PHP turns `"0"` into integer key 0) are not distinguished: `sender_name` and `purpose` are not numeric, so lookups of them are unaffected.
