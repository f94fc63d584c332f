# script-raw: the `/api/raw` handler, modelled in Dafny

The endpoint serves the plain text of a stored script to "executor" clients,
which are third-party tools that fetch and run scripts, and refuses browsers.
A request carries a `name` query parameter and the `User-Agent` and `Referer`
headers. The handler does four things in order:

1. It refuses a missing or empty name with 400.
2. It runs the client heuristic. An executor word in the agent admits the
   request. Otherwise a browser word refuses it with 403. Otherwise the request
   is admitted when the referer is empty or the agent is shorter than 50
   characters.
3. It resolves the lower-cased name. First it reads the name index entry
   `name:<name>`. If that holds an id, it reads only `script:<id>`. If not, it
   walks the keys that `keys('script:*')` lists, in order, and takes the first
   record whose `name` matches.
4. It answers 200 with the record's `content` and four no-cache headers.
   A name that resolves to nothing gets 404. Any exception from the store or
   from `JSON.parse` gets 500.

Status codes are those of RFC 9110 (section 15.3.1 for 200, 15.5.1 for 400,
15.5.4 for 403, 15.5.5 for 404, 15.6.1 for 500). The caching headers are
those of RFC 9111: `Cache-Control` in section 5.2, `Expires` in section 5.3
and `Pragma` in section 5.4.

Files and modules:

- `js_text.dfy`, module `JsText`: ASCII `toLowerCase` (`Lower`), and the
  substring search that a literal case-insensitive regular expression performs
  (`Contains`). `Contains` is proved equal to "occurs at some position".
- `client_gate.dfy`, module `ClientGate`: the two fixed pattern lists and the
  `isExecutor` decision (`IsExecutor`), with its three cases as lemmas.
  `SomeMatches` is `.some(p => p.test(userAgent))` over one list
  (api/raw.js:31-32).
- `script_store.dfy`, module `ScriptStore`: the store as a snapshot. A snapshot
  holds the values `get` returns per key, the keys whose `get` rejects, and
  the answer of `keys('script:*')`, which is the enumeration order or a
  rejection. A returned value is either a string, paired with what
  `JSON.parse` gives for it, or an already deserialised record. The module
  also defines the JavaScript steps the handler applies to these values:
  - `Get` is `redis.get` (api/raw.js:39, 43, 52);
  - `Materialize` is the `typeof … === 'string' ? JSON.parse(…) : …` choice
    (lines 46 and 55);
  - `TemplateText` is the template literal `${scriptId}` (line 43);
  - `Truthy` is JavaScript truthiness of a returned value (lines 42, 44, 53).

  `OrEmpty` in `js_text.dfy` is `x || ''` (lines 17-18).
- `raw_endpoint.dfy`, module `RawEndpoint`: the specification functions
  (`Inspect`, `ScanFrom`, `ByIndex`, `Resolve`, `Respond`), and `IndexHit`,
  the `if (scriptId)` test (api/raw.js:42). It also holds the handler's own
  control flow: `ResolveScript` is a method whose `while`
  loop leaves with `break` at the first match. Its invariant says the keys
  already passed did not end the scan. `Handle` makes the early returns.
  Both methods are proved equal to the specification functions.
- `raw_endpoint_properties.dfy`, module `RawEndpointProperties`: the
  guarantees of the handler, stated over the specification functions.

Three behaviours of the code are easy to miss:

- An index entry that names a missing record gives 404, and no scan runs
  (`IndexHitIsFinal`).
- An unparsable record met during the scan throws, so the answer is 500 even
  when a later key, or no key at all, holds the requested name
  (`ScanThrowAnswers500`). When no listed key throws and none holds the name,
  the answer is 404 (`UnknownNameNotFound`). A stale index entry also gives
  404, whatever rule admitted the agent (`MissingAnswers404`).
- A successful answer carries only the four fixed headers. The record's id
  and update time are not sent (`FoundAnswersContent`).

## Model

| member | source | states |
|---|---|---|
| `JsText.Lower` | api/raw.js:39 | `toLowerCase` keeps the length and maps each character to its lower-case form, so no upper-case ASCII letter is left |
| `JsText.Contains` | api/raw.js:21-28 | the left-to-right search of a literal `/word/` pattern; a successful search means the word is no longer than the text |
| `JsText.ContainsIffOccurs` | api/raw.js:21-23 | the search a literal pattern performs succeeds exactly when the word occurs at some position of the text |
| `ClientGate.SomeMatchesIffCaseInsensitive` | api/raw.js:21-32 | a pattern list matches exactly when some word of it occurs at some position of the agent with the agent's letters compared case-insensitively, which is what `/word/i.test` does for these ASCII words |
| `ClientGate.IsExecutor` | api/raw.js:31-33 | a refused agent names no executor word; an admitted agent names an executor word, or has no referer, or is shorter than 50 |
| `ClientGate.PatternWordsAreLowercase` | api/raw.js:20-29 | every pattern word is lower case, so a search in the lower-cased agent is the case-insensitive `/word/i` test |
| `ClientGate.ExecutorWordAdmits` | api/raw.js:31 | an executor word in the agent, in any case, admits the request whatever the referer and any browser words |
| `ClientGate.BrowserWordRefuses` | api/raw.js:26-32 | a browser word with no executor word refuses the request whatever the referer |
| `ClientGate.UnrecognisedAgentRule` | api/raw.js:31-33 | with neither kind of word, the request is admitted exactly when the referer is empty or the agent is shorter than 50 |
| `ClientGate.IsExecutorIgnoresCase` | api/raw.js:31-33 | two agents that differ only in letter case are classified alike |
| `RawEndpoint.Inspect` | api/raw.js:52-59 | one scan step takes a record exactly when the key holds a truthy record whose `name` is the lower-cased name; it throws, with the exception's message, exactly when `get` rejects or a non-empty string does not parse; otherwise it skips |
| `RawEndpoint.ScanFrom` | api/raw.js:51-61 | a record the fallback scan returns always carries the requested lower-cased name |
| `RawEndpoint.ByIndex` | api/raw.js:42-47 | the index path finds a record exactly when `script:<id>` holds a truthy record, whatever its `name`, and returns that record; it fails, with the message, exactly when that one read throws; otherwise it finds nothing |
| `RawEndpoint.Resolve` | api/raw.js:39-62 | a record found without an index hit carries the requested name |
| `RawEndpoint.Respond` | api/raw.js:9-78 | the status is one of 200, 400, 403, 404, 500; the four no-cache headers are sent exactly on 200; a 500 body starts with the internal-error prefix; 400 is answered exactly for a missing or empty name |
| `RawEndpoint.ResolveScript` | api/raw.js:39-62 | the index lookup and the `for`/`break` scan produce exactly the resolution `Resolve` specifies |
| `RawEndpoint.Handle` | api/raw.js:9-78 | the handler's early returns and final send produce exactly the response `Respond` specifies |
| `RawEndpointProperties.NameRequiredFirst` | api/raw.js:10-14 | a missing or empty name gets 400 with the fixed body, whatever the headers and the store |
| `RawEndpointProperties.ExecutorAgentAdmitted` | api/raw.js:31-37 | an executor word means the answer is never 403; it is 404 exactly when resolution finds nothing |
| `RawEndpointProperties.BrowserAgentRefused` | api/raw.js:26-37 | a browser word without an executor word gets 403 with the fixed body for every store, so the store is not read |
| `RawEndpointProperties.IndexHitIsFinal` | api/raw.js:39-47 | a truthy index id makes resolution the read of `script:<id>` alone; if that key is absent the result is 'not found', with no fallback scan; if the read throws, resolution fails with its message |
| `RawEndpointProperties.IndexHitReadsOnlyItsRecord` | api/raw.js:42-47 | on an index hit, stores that agree on the index entry and its record resolve alike, whatever their other keys and listing |
| `RawEndpointProperties.IndexRecordNameNotChecked` | api/raw.js:42-47 | on an index hit the record at `script:<id>` is returned without comparing its `name` field, whether it was a JSON string or an already deserialised object |
| `RawEndpointProperties.IndexMissScans` | api/raw.js:48-62 | when the index misses, resolution is the scan of the listed keys |
| `RawEndpointProperties.ScanTakesFirst` | api/raw.js:51-61 | the scan ends with the verdict of the first key that does not skip; later keys, including later matches, are ignored |
| `RawEndpointProperties.ScanFindsFirstMatch` | api/raw.js:51-61 | the first listed key holding a record with the requested name is returned when no earlier key throws; later keys, including later matches, make no difference |
| `RawEndpointProperties.ScanMissingIff` | api/raw.js:51-66 | the scan finds nothing exactly when every listed key is skipped |
| `RawEndpointProperties.NameCaseIgnored` | api/raw.js:39-56 | two names that differ only in letter case get identical responses |
| `RawEndpointProperties.FoundAnswersContent` | api/raw.js:68-73 | a resolved record is answered with 200, exactly the four fixed headers and exactly the record's content |
| `RawEndpointProperties.FallbackAnswersFirstMatch` | api/raw.js:48-73 | on an index miss, an admitted request gets 200, the four headers and the content of the first listed record with the name, when no earlier listed key throws |
| `RawEndpointProperties.IndexReadRejectionAnswers500` | api/raw.js:39-77 | when the store rejects the first call, the `get` of `name:<name>`, an admitted request gets 500 with the rejection's message after the fixed prefix |
| `RawEndpointProperties.ListingRejectionAnswers500` | api/raw.js:48-77 | on an index miss, when the store rejects `keys('script:*')`, an admitted request gets 500 with the rejection's message after the fixed prefix |
| `RawEndpointProperties.FailedAnswers500` | api/raw.js:75-77 | an admitted request whose resolution throws gets 500 and a body of the fixed prefix followed by the exception's message |
| `RawEndpointProperties.UnknownNameNotFound` | api/raw.js:48-66 | on an index miss, when no listed key throws and none holds a record with the name, an admitted request gets 404 |
| `RawEndpointProperties.ScanThrowAnswers500` | api/raw.js:48-77 | on an index miss, an admitted request gets 500 with the thrown message when a listed key whose read throws comes before any record with the name, whether or not a later key holds one |
| `RawEndpointProperties.MissingAnswers404` | api/raw.js:64-66 | every admitted request whose name resolves to nothing gets 404 with the fixed body, through a stale index entry as well as an empty scan, whatever rule admitted the agent |
| `RawEndpointProperties.MalformedRecordFailsScan` | api/raw.js:52-55 | an example of `ScanThrowAnswers500`: one store holding only the text `{` under `script:a` gives 500 with the parse error's message for the name `ghost`, which exists nowhere |
| `RawEndpointProperties.IndexedLookupExample` | api/raw.js:39-73 | the name index maps `testscript` to `abc`, and an admitted agent asking for the name in any case gets 200 with body `print(1)` |
| `RawEndpointProperties.ScannedLookupExample` | api/raw.js:48-73 | with no index entry, the scan skips a record with another name and takes a JSON record named `testscript`, so any case of the name gets 200 with body `print(1)` |
| `RawEndpointProperties.ExampleAgentAdmitted` | api/raw.js:20-31 | the agent string `synapse` is admitted with any referer |

## Left out

- The construction of the Redis client from environment variables
  (api/raw.js:2-7). It is configuration and a foreign library.
- The network calls `redis.get` and `redis.keys`. They are modelled as reads
  of one snapshot that stays fixed during a request. Changes to the store made
  by other clients between two calls are not modelled.
- `JSON.parse` itself. A stored string is paired with the outcome parsing
  gives for it: a record, a falsy value, or a syntax error with its message.
  The text of that message is left abstract. A truthy result that is not a
  record, such as the one from `"5"`, `"[1]"` or `"\"x\""`, is not modelled.
  On the index path the source lets such a value pass `!script`
  (api/raw.js:64), and line 73 then sends `script.content`, which is
  `undefined`, with status 200. On the scan path it is skipped, because it has
  no matching `name`.
- The logging by `console.error` (api/raw.js:76), and how `res.setHeader`
  and `res.send` work, including any `Content-Type` the platform adds to
  error answers. Only the status, the headers the handler sets, and the body
  are modelled.
- Unicode case mapping of `name`. `Lower` folds only `A` to `Z`, while
  `toLowerCase` also folds other letters, so names that differ only in
  non-ASCII case are treated as different. The agent is not affected. Without
  the `u` flag, the `i` flag never matches a non-ASCII character against an
  ASCII letter, and every pattern word is ASCII. So ASCII lowering of the
  agent is exact for the classifier.
- `userAgent.length` counts UTF-16 code units. The model counts the
  characters of the string.
- Shapes of `req.query.name` other than a string, such as an array. An array
  passes the `!name` check. A refused agent still gets 403. For an admitted
  agent, `name.toLowerCase()` throws inside the `try`. The handler's own
  `catch` then answers 500 with "-- Internal server error: name.toLowerCase
  is not a function". The model treats `name` as an optional string.
- Values `get` may return that are neither strings nor objects, such as
  numbers, booleans or arrays. Records whose fields are missing or are not
  strings (for example, an undefined `content`) are not modelled either.
  A record is a record with four string fields.
- The context file api/[name].js is not part of this model. It is another
  variant of the handler, with the access counter `access:<id>:<date>`, the
  `X-Script-ID` and `X-Script-Updated` headers and a different 404 text.
