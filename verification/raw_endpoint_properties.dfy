/** What the `/api/raw` handler guarantees, stated over the specification
    functions of `RawEndpoint`. */
module RawEndpointProperties {
  import opened JsText
  import opened ClientGate
  import opened ScriptStore
  import opened RawEndpoint

  /** A missing or empty name is refused with 400 before the client gate or the
      store is consulted: the answer is the same for every agent and every store. */
  lemma NameRequiredFirst(req: Request, store: Snapshot)
    requires req.name.None? || req.name.value == ""
    ensures Respond(req, store) == Response(StatusBadRequest, [], NameRequiredBody)
  {
  }

  /** An executor word in the agent gets the request past the gate, whatever
      the referer: the answer is never 403. */
  lemma ExecutorAgentAdmitted(req: Request, store: Snapshot, word: string)
    requires req.name.Some? && req.name.value != ""
    requires word in ExecutorWords && Contains(Lower(OrEmpty(req.userAgent)), word)
    ensures Respond(req, store).status != StatusForbidden
    ensures Respond(req, store).status == StatusNotFound <==> Resolve(store, Lower(req.name.value)) == Missing
  {
    ExecutorWordAdmits(OrEmpty(req.userAgent), OrEmpty(req.referer), word);
  }

  /** A browser word without an executor word gets 403 with the fixed body,
      whatever the store holds: the store is not read. */
  lemma BrowserAgentRefused(req: Request, store: Snapshot, word: string)
    requires req.name.Some? && req.name.value != ""
    requires word in BrowserWords && Contains(Lower(OrEmpty(req.userAgent)), word)
    requires forall e :: e in ExecutorWords ==> !Contains(Lower(OrEmpty(req.userAgent)), e)
    ensures Respond(req, store) == Response(StatusForbidden, [], AccessDeniedBody)
  {
    BrowserWordRefuses(OrEmpty(req.userAgent), OrEmpty(req.referer), word);
  }

  /** When the index holds a truthy id, resolution is the read of that one
      record: no fallback scan, a missing record means 404, and a read that
      throws fails with its message. */
  lemma IndexHitIsFinal(store: Snapshot, lowerName: string)
    requires IndexHit(store, lowerName)
    ensures Resolve(store, lowerName) == ByIndex(store, IndexedId(store, lowerName))
    ensures Get(store, ScriptKey(IndexedId(store, lowerName))).Nil? ==> Resolve(store, lowerName) == Missing
    ensures ReadThrows(store, ScriptKey(IndexedId(store, lowerName))) ==>
              Resolve(store, lowerName) == Failed(ThrownMessage(store, ScriptKey(IndexedId(store, lowerName))))
  {
  }

  /** On an index hit, two stores that agree on the index entry and on the
      record it names resolve alike, however their other records and key
      listings differ. */
  lemma IndexHitReadsOnlyItsRecord(store1: Snapshot, store2: Snapshot, lowerName: string)
    requires IndexHit(store1, lowerName)
    requires Get(store1, NameKey(lowerName)) == Get(store2, NameKey(lowerName))
    requires Get(store1, ScriptKey(IndexedId(store1, lowerName))) == Get(store2, ScriptKey(IndexedId(store1, lowerName)))
    ensures Resolve(store1, lowerName) == Resolve(store2, lowerName)
  {
  }

  /** On an index hit the record is returned without comparing its own `name`
      field with the requested name, whether it was stored as a JSON string or
      came back already deserialised. */
  lemma IndexRecordNameNotChecked(store: Snapshot, lowerName: string)
    requires IndexHit(store, lowerName)
    requires HoldsRecord(store, ScriptKey(IndexedId(store, lowerName)))
    ensures Resolve(store, lowerName) == Found(RecordAt(store, ScriptKey(IndexedId(store, lowerName))))
  {
  }

  /** When the index misses, resolution is the scan of the listed keys. */
  lemma IndexMissScans(store: Snapshot, lowerName: string)
    requires !IndexHit(store, lowerName) && !Get(store, NameKey(lowerName)).Rejected?
    requires store.listing.Listed?
    ensures Resolve(store, lowerName) == ScanFrom(store, store.listing.keys, lowerName)
  {
  }

  /** The scan ends with the verdict of the first key that does not skip: keys
      after it, including later records with the same name, are never looked at. */
  lemma {:induction false} ScanTakesFirst(store: Snapshot, keys: seq<string>, lowerName: string, i: nat)
    requires i < |keys|
    requires forall j :: 0 <= j < i ==> Inspect(store, keys[j], lowerName) == Skip
    requires Inspect(store, keys[i], lowerName) != Skip
    ensures ScanFrom(store, keys, lowerName) ==
      match Inspect(store, keys[i], lowerName)
      case Take(s) => Found(s)
      case Abort(m) => Failed(m)
      case Skip => Missing
    decreases i
  {
    if i > 0 {
      assert Inspect(store, keys[0], lowerName) == Skip;
      forall j | 0 <= j < i - 1
        ensures Inspect(store, keys[1..][j], lowerName) == Skip
      {
        assert keys[1..][j] == keys[j + 1];
      }
      ScanTakesFirst(store, keys[1..], lowerName, i - 1);
    }
  }

  /** The first listed key holding a record with the requested name is the one
      returned, provided no earlier key throws; later keys, including later
      records with the same name, make no difference. */
  lemma ScanFindsFirstMatch(store: Snapshot, keys: seq<string>, lowerName: string, i: nat)
    requires i < |keys|
    requires HoldsRecord(store, keys[i]) && RecordAt(store, keys[i]).name == lowerName
    requires forall j :: 0 <= j < i ==>
               !ReadThrows(store, keys[j]) && !(HoldsRecord(store, keys[j]) && RecordAt(store, keys[j]).name == lowerName)
    ensures ScanFrom(store, keys, lowerName) == Found(RecordAt(store, keys[i]))
  {
    ScanTakesFirst(store, keys, lowerName, i);
  }

  /** The scan finds nothing exactly when every listed key skips. */
  lemma {:induction false} ScanMissingIff(store: Snapshot, keys: seq<string>, lowerName: string)
    ensures ScanFrom(store, keys, lowerName) == Missing
            <==> forall j :: 0 <= j < |keys| ==> Inspect(store, keys[j], lowerName) == Skip
    decreases |keys|
  {
    if keys != [] {
      ScanMissingIff(store, keys[1..], lowerName);
      if Inspect(store, keys[0], lowerName) == Skip {
        forall j | 0 <= j < |keys| - 1
          ensures keys[1..][j] == keys[j + 1]
        {
        }
      }
    }
  }

  /** The same name in different letter case gets the same answer. */
  lemma NameCaseIgnored(req: Request, store: Snapshot, name1: string, name2: string)
    requires Lower(name1) == Lower(name2)
    ensures Respond(req.(name := Some(name1)), store) == Respond(req.(name := Some(name2)), store)
  {
  }

  /** A resolved record is answered with 200, the four fixed headers and
      exactly the record's content. */
  lemma FoundAnswersContent(req: Request, store: Snapshot, script: Script)
    requires req.name.Some? && req.name.value != ""
    requires IsExecutor(OrEmpty(req.userAgent), OrEmpty(req.referer))
    requires Resolve(store, Lower(req.name.value)) == Found(script)
    ensures Respond(req, store) == Response(StatusOk, NoCacheHeaders, script.content)
  {
  }

  /** On an index miss, an admitted request is answered with 200, the four
      fixed headers and the content of the first listed record carrying the
      name, provided no earlier listed key throws. */
  lemma FallbackAnswersFirstMatch(req: Request, store: Snapshot, i: nat)
    requires req.name.Some? && req.name.value != ""
    requires IsExecutor(OrEmpty(req.userAgent), OrEmpty(req.referer))
    requires !IndexHit(store, Lower(req.name.value)) && !Get(store, NameKey(Lower(req.name.value))).Rejected?
    requires store.listing.Listed? && i < |store.listing.keys|
    requires HoldsRecord(store, store.listing.keys[i])
    requires RecordAt(store, store.listing.keys[i]).name == Lower(req.name.value)
    requires forall j :: 0 <= j < i ==>
               !ReadThrows(store, store.listing.keys[j])
               && !(HoldsRecord(store, store.listing.keys[j])
                    && RecordAt(store, store.listing.keys[j]).name == Lower(req.name.value))
    ensures Respond(req, store) == Response(StatusOk, NoCacheHeaders, RecordAt(store, store.listing.keys[i]).content)
  {
    ScanFindsFirstMatch(store, store.listing.keys, Lower(req.name.value), i);
  }

  /** An admitted request whose resolution throws is answered with 500 and the
      exception's message after the fixed prefix. */
  lemma FailedAnswers500(req: Request, store: Snapshot, message: string)
    requires req.name.Some? && req.name.value != ""
    requires IsExecutor(OrEmpty(req.userAgent), OrEmpty(req.referer))
    requires Resolve(store, Lower(req.name.value)) == Failed(message)
    ensures Respond(req, store) == Response(StatusInternalError, [], InternalErrorPrefix + message)
  {
  }

  /** On an index miss, when no listed key throws and none holds a record with
      the name, an admitted request for that name gets 404. */
  lemma UnknownNameNotFound(req: Request, store: Snapshot)
    requires req.name.Some? && req.name.value != ""
    requires IsExecutor(OrEmpty(req.userAgent), OrEmpty(req.referer))
    requires !IndexHit(store, Lower(req.name.value)) && !Get(store, NameKey(Lower(req.name.value))).Rejected?
    requires store.listing.Listed?
    requires forall k :: k in store.listing.keys ==>
               !ReadThrows(store, k) && !(HoldsRecord(store, k) && RecordAt(store, k).name == Lower(req.name.value))
    ensures Respond(req, store) == Response(StatusNotFound, [], NotFoundBody)
  {
    var keys, lowerName := store.listing.keys, Lower(req.name.value);
    forall j | 0 <= j < |keys|
      ensures Inspect(store, keys[j], lowerName) == Skip
    {
      assert keys[j] in keys;
    }
    ScanMissingIff(store, keys, lowerName);
  }

  /** On an index miss, an admitted request is answered with 500 and the
      exception's message when the scan reaches a listed key whose read throws
      before any record carrying the name, whether or not a later key holds
      one. */
  lemma ScanThrowAnswers500(req: Request, store: Snapshot, i: nat)
    requires req.name.Some? && req.name.value != ""
    requires IsExecutor(OrEmpty(req.userAgent), OrEmpty(req.referer))
    requires !IndexHit(store, Lower(req.name.value)) && !Get(store, NameKey(Lower(req.name.value))).Rejected?
    requires store.listing.Listed? && i < |store.listing.keys|
    requires ReadThrows(store, store.listing.keys[i])
    requires forall j :: 0 <= j < i ==>
               !ReadThrows(store, store.listing.keys[j])
               && !(HoldsRecord(store, store.listing.keys[j])
                    && RecordAt(store, store.listing.keys[j]).name == Lower(req.name.value))
    ensures Respond(req, store)
            == Response(StatusInternalError, [], InternalErrorPrefix + ThrownMessage(store, store.listing.keys[i]))
  {
    ScanTakesFirst(store, store.listing.keys, Lower(req.name.value), i);
  }

  /** When the store rejects the read of the name index entry, the very first
      call, an admitted request is answered with 500 and the rejection's
      message. */
  lemma IndexReadRejectionAnswers500(req: Request, store: Snapshot)
    requires req.name.Some? && req.name.value != ""
    requires IsExecutor(OrEmpty(req.userAgent), OrEmpty(req.referer))
    requires Get(store, NameKey(Lower(req.name.value))).Rejected?
    ensures Respond(req, store)
            == Response(StatusInternalError, [], InternalErrorPrefix + Get(store, NameKey(Lower(req.name.value))).message)
  {
  }

  /** On an index miss, when the store rejects the listing of the record keys,
      an admitted request is answered with 500 and the rejection's message. */
  lemma ListingRejectionAnswers500(req: Request, store: Snapshot)
    requires req.name.Some? && req.name.value != ""
    requires IsExecutor(OrEmpty(req.userAgent), OrEmpty(req.referer))
    requires !IndexHit(store, Lower(req.name.value)) && !Get(store, NameKey(Lower(req.name.value))).Rejected?
    requires store.listing.ListRejected?
    ensures Respond(req, store) == Response(StatusInternalError, [], InternalErrorPrefix + store.listing.message)
  {
  }

  /** Every admitted request whose name resolves to nothing gets 404, by either
      path: a stale index entry as well as a scan that finds no record, and
      whatever rule of the client gate admitted it. */
  lemma MissingAnswers404(req: Request, store: Snapshot)
    requires req.name.Some? && req.name.value != ""
    requires IsExecutor(OrEmpty(req.userAgent), OrEmpty(req.referer))
    requires Resolve(store, Lower(req.name.value)) == Missing
    ensures Respond(req, store) == Response(StatusNotFound, [], NotFoundBody)
  {
  }

  /** An example of `ScanThrowAnswers500`. The store holds only the broken
      text "{" under `script:a`. A request for "ghost", in any letter case and
      from an admitted agent, gets 500, although no record has that name. */
  lemma MalformedRecordFailsScan(name: string, agent: string)
    requires Lower(name) == "ghost"
    requires IsExecutor(agent, "")
    ensures Respond(
              Request(Some(name), Some(agent), None),
              Snapshot(map[ScriptKey("a") := Text("{", SyntaxError("Unexpected end of JSON input"))],
                       map[], Listed([ScriptKey("a")])))
            == Response(StatusInternalError, [], InternalErrorPrefix + "Unexpected end of JSON input")
  {
    var nameKey, scriptKey := NameKey("ghost"), ScriptKey("a");
    assert nameKey[0] != scriptKey[0];
    var store := Snapshot(map[scriptKey := Text("{", SyntaxError("Unexpected end of JSON input"))],
                          map[], Listed([scriptKey]));
    assert Get(store, nameKey) == Nil;
    assert Inspect(store, scriptKey, "ghost") == Abort("Unexpected end of JSON input");
  }

  /** What `JSON.parse("abc")` throws; the id is used as text and never parsed. */
  const AbcParseError := "Unexpected token 'a', \"abc\" is not valid JSON"

  /** An example: the index maps `testscript` to the id `abc` (a string that is
      not itself JSON), `script:abc` is the record, and an admitted agent (such
      as "synapse", see `ExampleAgentAdmitted`) asks for the name in any letter
      case. */
  lemma IndexedLookupExample(name: string, agent: string)
    requires Lower(name) == "testscript"
    requires IsExecutor(agent, "")
    ensures Respond(
              Request(Some(name), Some(agent), None),
              Snapshot(map[NameKey("testscript") := Text("abc", SyntaxError(AbcParseError)),
                           ScriptKey("abc") := Object(Script("abc", "testscript", "print(1)", "2024-01-01"))],
                       map[], Listed([])))
            == Response(StatusOk, NoCacheHeaders, "print(1)")
  {
    var record := Script("abc", "testscript", "print(1)", "2024-01-01");
    var nameKey, scriptKey := NameKey("testscript"), ScriptKey("abc");
    assert nameKey[0] != scriptKey[0];
    var store := Snapshot(map[nameKey := Text("abc", SyntaxError(AbcParseError)), scriptKey := Object(record)],
                          map[], Listed([]));
    IndexRecordNameNotChecked(store, "testscript");
  }

  /** An example of the fallback scan: there is no index entry for
      `testscript`, the listing holds `script:xyz` and then `script:abc`, the
      first holds another name and the second a JSON string that parses to the
      record named `testscript`; an admitted agent gets 200 with its content. */
  lemma ScannedLookupExample(name: string, agent: string)
    requires Lower(name) == "testscript"
    requires IsExecutor(agent, "")
    ensures Respond(
              Request(Some(name), Some(agent), None),
              Snapshot(map[ScriptKey("xyz") := Object(Script("xyz", "other", "print(0)", "2024-01-01")),
                           ScriptKey("abc") := Text(AbcRecordJson, Decoded(Script("abc", "testscript", "print(1)", "2024-01-01")))],
                       map[], Listed([ScriptKey("xyz"), ScriptKey("abc")])))
            == Response(StatusOk, NoCacheHeaders, "print(1)")
  {
    var record := Script("abc", "testscript", "print(1)", "2024-01-01");
    var nameKey, otherKey, scriptKey := NameKey("testscript"), ScriptKey("xyz"), ScriptKey("abc");
    assert nameKey[0] != otherKey[0] && nameKey[0] != scriptKey[0] && otherKey[7] != scriptKey[7];
    var store := Snapshot(map[otherKey := Object(Script("xyz", "other", "print(0)", "2024-01-01")),
                              scriptKey := Text(AbcRecordJson, Decoded(record))],
                          map[], Listed([otherKey, scriptKey]));
    assert Get(store, nameKey) == Nil;
    assert RecordAt(store, otherKey).name == "other";
    FallbackAnswersFirstMatch(Request(Some(name), Some(agent), None), store, 1);
  }

  /** The stored JSON text of the record `abc`. */
  const AbcRecordJson :=
    "{\"id\":\"abc\",\"name\":\"testscript\",\"content\":\"print(1)\",\"updated\":\"2024-01-01\"}"

  /** The agent string "synapse" of the examples is admitted with any referer. */
  lemma ExampleAgentAdmitted(referer: string)
    ensures IsExecutor("synapse", referer)
  {
    LowerFixesLowercase("synapse");
    ExecutorWordAdmits("synapse", referer, "synapse");
  }
}
