/** The `/api/raw` request handler: validate the name, gate the client, resolve
    the name to a stored script through the name index or a scan of all
    records, and answer with the script text or an error status. */
module RawEndpoint {
  import opened JsText
  import opened ClientGate
  import opened ScriptStore

  /** The parts of the request the handler reads: the `name` query parameter
      and the `User-Agent` and `Referer` headers, each possibly missing. */
  datatype Request = Request(name: Option<string>, userAgent: Option<string>, referer: Option<string>)

  /** A response: status, headers in the order they are set, and body. */
  datatype Response = Response(status: nat, headers: seq<(string, string)>, body: string)

  // Status codes of RFC 9110: section 15.3.1 (200), 15.5.1 (400), 15.5.4 (403),
  // 15.5.5 (404) and 15.6.1 (500).
  const StatusOk := 200
  const StatusBadRequest := 400
  const StatusForbidden := 403
  const StatusNotFound := 404
  const StatusInternalError := 500

  const NameRequiredBody := "-- Script name is required"
  const AccessDeniedBody := "-- Access denied: Executor access only"
  const NotFoundBody := "-- Script not found"
  const InternalErrorPrefix := "-- Internal server error: "

  /** The headers of a successful answer: plain text, and caching disabled by
      `Cache-Control` (section 5.2 of RFC 9111), the HTTP/1.0 `Pragma`
      (section 5.4) and an already expired `Expires` (section 5.3). */
  const NoCacheHeaders: seq<(string, string)> := [
    ("Content-Type", "text/plain; charset=utf-8"),
    ("Cache-Control", "no-cache, no-store, must-revalidate"),
    ("Pragma", "no-cache"),
    ("Expires", "0")
  ]

  /** How resolving a name ends: a record, no record (`script` stays `null`),
      or an exception thrown by the store or by `JSON.parse`. */
  datatype Resolution = Found(script: Script) | Missing | Failed(message: string)

  /** What one step of the fallback scan does with one key: go on to the next
      key, take the record and `break`, or throw. */
  datatype Verdict = Skip | Take(script: Script) | Abort(message: string)

  /** Reading `key` gives a truthy value that is, or parses to, a record. */
  predicate HoldsRecord(store: Snapshot, key: string) {
    Get(store, key).Hit? && Truthy(Get(store, key).value) && Materialize(Get(store, key).value).Decoded?
  }

  /** The record read at `key`. */
  function RecordAt(store: Snapshot, key: string): Script
    requires HoldsRecord(store, key)
  {
    Materialize(Get(store, key).value).script
  }

  /** Reading `key` throws: the `get` rejects, or it returns a non-empty string
      that `JSON.parse` refuses. */
  predicate ReadThrows(store: Snapshot, key: string) {
    Get(store, key).Rejected?
    || (Get(store, key).Hit? && Truthy(Get(store, key).value) && Materialize(Get(store, key).value).SyntaxError?)
  }

  /** The message of the exception reading `key` throws. */
  function ThrownMessage(store: Snapshot, key: string): string
    requires ReadThrows(store, key)
  {
    if Get(store, key).Rejected? then Get(store, key).message else Materialize(Get(store, key).value).message
  }

  /** One iteration of the fallback scan over key `key`: it takes exactly a
      record carrying the requested name, throws exactly when the read throws,
      and skips everything else. */
  function Inspect(store: Snapshot, key: string, lowerName: string): (v: Verdict)
    ensures v.Take? <==> HoldsRecord(store, key) && RecordAt(store, key).name == lowerName
    ensures v.Take? ==> HoldsRecord(store, key) && v.script == RecordAt(store, key)
    ensures v.Abort? <==> ReadThrows(store, key)
    ensures v.Abort? ==> ReadThrows(store, key) && v.message == ThrownMessage(store, key)
  {
    match Get(store, key)
    case Rejected(m) => Abort(m)
    case Nil => Skip
    case Hit(value) =>
      if !Truthy(value) then Skip
      else
        match Materialize(value)
        case SyntaxError(m) => Abort(m)
        case DecodedFalsy => Skip
        case Decoded(s) => if s.name == lowerName then Take(s) else Skip
  }

  /** The fallback scan over the listed keys, in order, stopping at the first
      key that is taken or throws. */
  function ScanFrom(store: Snapshot, keys: seq<string>, lowerName: string): (r: Resolution)
    ensures r.Found? ==> r.script.name == lowerName
    decreases |keys|
  {
    if keys == [] then Missing
    else
      match Inspect(store, keys[0], lowerName)
      case Skip => ScanFrom(store, keys[1..], lowerName)
      case Take(s) => Found(s)
      case Abort(m) => Failed(m)
  }

  /** Reading the record the name index points at: it is found exactly when
      `script:<id>` holds a record, whatever that record's `name`; the read
      fails exactly when it throws; anything else is not found. */
  function ByIndex(store: Snapshot, id: string): (r: Resolution)
    ensures r.Found? <==> HoldsRecord(store, ScriptKey(id))
    ensures r.Found? ==> HoldsRecord(store, ScriptKey(id)) && r.script == RecordAt(store, ScriptKey(id))
    ensures r.Failed? <==> ReadThrows(store, ScriptKey(id))
    ensures r.Failed? ==> ReadThrows(store, ScriptKey(id)) && r.message == ThrownMessage(store, ScriptKey(id))
  {
    match Get(store, ScriptKey(id))
    case Rejected(m) => Failed(m)
    case Nil => Missing
    case Hit(value) =>
      if !Truthy(value) then Missing
      else
        match Materialize(value)
        case SyntaxError(m) => Failed(m)
        case DecodedFalsy => Missing
        case Decoded(s) => Found(s)
  }

  /** True when the name index holds a truthy id for the name. */
  predicate IndexHit(store: Snapshot, lowerName: string) {
    Get(store, NameKey(lowerName)).Hit? && Truthy(Get(store, NameKey(lowerName)).value)
  }

  /** The id the name index holds for the name. */
  function IndexedId(store: Snapshot, lowerName: string): string
    requires IndexHit(store, lowerName)
  {
    TemplateText(Get(store, NameKey(lowerName)).value)
  }

  /** Resolution of a lower-cased name: through the index when it holds an id,
      otherwise by scanning the keys `keys('script:*')` lists. */
  function Resolve(store: Snapshot, lowerName: string): (r: Resolution)
    ensures r.Found? && !IndexHit(store, lowerName) ==> r.script.name == lowerName
  {
    match Get(store, NameKey(lowerName))
    case Rejected(m) => Failed(m)
    case _ =>
      if IndexHit(store, lowerName) then ByIndex(store, IndexedId(store, lowerName))
      else
        match store.listing
        case ListRejected(m) => Failed(m)
        case Listed(keys) => ScanFrom(store, keys, lowerName)
  }

  /** The response the handler sends for a request against a store snapshot. */
  function Respond(req: Request, store: Snapshot): (res: Response)
    ensures res.status in {StatusOk, StatusBadRequest, StatusForbidden, StatusNotFound, StatusInternalError}
    ensures res.headers == (if res.status == StatusOk then NoCacheHeaders else [])
    ensures res.status == StatusInternalError ==> InternalErrorPrefix <= res.body
    ensures res.status == StatusBadRequest <==> (req.name.None? || req.name.value == "")
  {
    if req.name.None? || req.name.value == "" then
      Response(StatusBadRequest, [], NameRequiredBody)
    else if !IsExecutor(OrEmpty(req.userAgent), OrEmpty(req.referer)) then
      Response(StatusForbidden, [], AccessDeniedBody)
    else
      match Resolve(store, Lower(req.name.value))
      case Failed(m) => Response(StatusInternalError, [], InternalErrorPrefix + m)
      case Missing => Response(StatusNotFound, [], NotFoundBody)
      case Found(s) => Response(StatusOk, NoCacheHeaders, s.content)
  }

  /** The resolution steps as the handler runs them: one `get` on the name
      index, then one `get` on the record it names, or a `for` loop over the
      listed keys that leaves with `break` at the first record whose name
      matches. */
  method ResolveScript(store: Snapshot, lowerName: string) returns (r: Resolution)
    ensures r == Resolve(store, lowerName)
  {
    var scriptId := Get(store, NameKey(lowerName));
    if scriptId.Rejected? {
      return Failed(scriptId.message);
    }
    var script: Option<Script> := None;
    if scriptId.Hit? && Truthy(scriptId.value) {
      var scriptData := Get(store, ScriptKey(TemplateText(scriptId.value)));
      if scriptData.Rejected? {
        return Failed(scriptData.message);
      }
      if scriptData.Hit? && Truthy(scriptData.value) {
        var parsed := Materialize(scriptData.value);
        if parsed.SyntaxError? {
          return Failed(parsed.message);
        }
        if parsed.Decoded? {
          script := Some(parsed.script);
        }
      }
    } else {
      if store.listing.ListRejected? {
        return Failed(store.listing.message);
      }
      var keys := store.listing.keys;
      var i := 0;
      while i < |keys|
        invariant 0 <= i <= |keys|
        invariant script == None
        invariant ScanFrom(store, keys, lowerName) == ScanFrom(store, keys[i..], lowerName)
      {
        var scriptData := Get(store, keys[i]);
        if scriptData.Rejected? {
          return Failed(scriptData.message);
        }
        if scriptData.Hit? && Truthy(scriptData.value) {
          var parsedScript := Materialize(scriptData.value);
          if parsedScript.SyntaxError? {
            return Failed(parsedScript.message);
          }
          if parsedScript.Decoded? && parsedScript.script.name == lowerName {
            script := Some(parsedScript.script);
            break;
          }
        }
        i := i + 1;
      }
    }
    r := if script.Some? then Found(script.value) else Missing;
  }

  /** The handler: the name check, the client gate, resolution, and the choice
      of status, headers and body. */
  method Handle(req: Request, store: Snapshot) returns (res: Response)
    ensures res == Respond(req, store)
  {
    if req.name.None? || req.name.value == "" {
      return Response(StatusBadRequest, [], NameRequiredBody);
    }
    var userAgent := OrEmpty(req.userAgent);
    var referer := OrEmpty(req.referer);
    if !IsExecutor(userAgent, referer) {
      return Response(StatusForbidden, [], AccessDeniedBody);
    }
    var script := ResolveScript(store, Lower(req.name.value));
    match script
    case Failed(m) =>
      res := Response(StatusInternalError, [], InternalErrorPrefix + m);
    case Missing =>
      res := Response(StatusNotFound, [], NotFoundBody);
    case Found(s) =>
      res := Response(StatusOk, NoCacheHeaders, s.content);
  }
}
