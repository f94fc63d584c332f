/** The key-value store the endpoint reads, as a snapshot of what its `get` and
    `keys` calls would answer. Keys are `name:<lower-case name>` (holding a
    script id) and `script:<id>` (holding a script record). */
module ScriptStore {

  /** A stored script record. */
  datatype Script = Script(id: string, name: string, content: string, updated: string)

  /** What `JSON.parse` gives for a stored string: a record, a falsy value
      (`null`, `false`, `0`, `""`), or a thrown syntax error with its message. */
  datatype Decoded = Decoded(script: Script) | DecodedFalsy | SyntaxError(message: string)

  /** A value `get` returns: a string, paired with what parsing it gives, or an
      object the client library has already deserialised. */
  datatype Value = Text(raw: string, parsed: Decoded) | Object(record: Script)

  /** The answer to one `get`: a value, `null` for a missing key, or a rejected
      call with its error message. */
  datatype Reply = Hit(value: Value) | Nil | Rejected(message: string)

  /** The answer to `keys('script:*')`: the keys in enumeration order, or a rejection. */
  datatype Listing = Listed(keys: seq<string>) | ListRejected(message: string)

  /** The store as this request sees it. `failing` maps the keys whose `get`
      rejects to the error message of the rejection. */
  datatype Snapshot = Snapshot(data: map<string, Value>, failing: map<string, string>, listing: Listing)

  /** `await redis.get(key)`. */
  function Get(store: Snapshot, key: string): Reply {
    if key in store.failing then Rejected(store.failing[key])
    else if key in store.data then Hit(store.data[key])
    else Nil
  }

  /** JavaScript truthiness of a returned value: only the empty string is falsy. */
  predicate Truthy(v: Value) {
    !(v.Text? && v.raw == "")
  }

  /** `typeof v === 'string' ? JSON.parse(v) : v`. */
  function Materialize(v: Value): Decoded {
    match v
    case Text(_, parsed) => parsed
    case Object(record) => Decoded(record)
  }

  /** The text a template literal `${v}` makes of a returned value; a plain
      object prints as `[object Object]`. */
  function TemplateText(v: Value): string {
    match v
    case Text(raw, _) => raw
    case Object(_) => "[object Object]"
  }

  /** The key of the name index entry for an (already lower-cased) name. */
  function NameKey(lowerName: string): string {
    "name:" + lowerName
  }

  /** The key of the record with the given id. */
  function ScriptKey(id: string): string {
    "script:" + id
  }
}
