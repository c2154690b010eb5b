/** The generic storage endpoint: `upsertDocument` of
    `src/services/storage.ts`, which writes only to an allowlist of
    collections, and `upsertController` of
    `src/controllers/storageController.ts` in front of it. */
module Storage {
  import opened Options
  import opened Json
  import opened Http
  import opened Docs

  /** The collections the endpoint may write. */
  const AllowedCollections: set<string> :=
    {"users", "events", "orders", "messages", "audit_logs", "processed_events", "otps", "blocked_ips"}

  /** The database, collection by collection; a missing name is empty. */
  type Database = map<string, seq<Doc>>

  function Collection(db: Database, name: string): seq<Doc> {
    if name in db then db[name] else []
  }

  datatype Upsert = Upserted(result: Json) | UpsertThrew(failure: Failure)

  datatype Stored = Stored(outcome: Upsert, db: Database)

  const NotAllowed: Failure := Failure(Some("Collection not allowed"), Some(400), None)

  /** `options?.upsert ?? true`: only `null` and `undefined` give the
      default; any other value counts by its truthiness. */
  function UpsertFlag(options: Option<Json>): (u: bool)
    ensures options.None? || options.value == JNull ==> u
    ensures options.Some? && options.value.JObj? && Lookup(options.value.fields, "upsert") == Some(JBool(false)) ==> !u
  {
    var flag := if options.Some? then Get(options.value, "upsert") else None;
    if flag.None? || flag.value == JNull then true else Truthy(flag)
  }

  /** The result object: `upserted_id` only when a document was inserted
      under a truthy `_id`, and the matched count. */
  function ResultJson(u: Updated): Json {
    JObj(Defined("upserted_id", if Truthy(u.upsertedId) then Some(JStr(ToStr(u.upsertedId.value))) else None)
         + [("matched_count", JNum(u.matched))])
  }

  /** `upsertDocument`. `dbFails` stands for `getDb` or the driver
      throwing `driverError`; a match or update that is not an object is
      refused by the driver the same way. `newId` is the `_id` an upsert
      draws. */
  function UpsertDocument(collection: Json, filter: Json, update: Json, options: Option<Json>,
                          dbFails: bool, driverError: Failure, newId: Json, db: Database): (r: Stored)
    ensures !(collection.JStr? && collection.s in AllowedCollections) ==> r == Stored(UpsertThrew(NotAllowed), db)
    ensures r.outcome.UpsertThrew? ==> r.db == db
    ensures r.outcome.Upserted? <==>
      collection.JStr? && collection.s in AllowedCollections && !dbFails && filter.JObj? && update.JObj?
    ensures r.outcome.Upserted? ==>
      var u := UpdateOne(Collection(db, collection.s), filter.fields, update.fields, UpsertFlag(options), newId);
      r.outcome.result == ResultJson(u)
      && r.db == db[collection.s := u.docs]
  {
    if !(collection.JStr? && collection.s in AllowedCollections) then Stored(UpsertThrew(NotAllowed), db)
    else if dbFails || !filter.JObj? || !update.JObj? then Stored(UpsertThrew(driverError), db)
    else
      var u := UpdateOne(Collection(db, collection.s), filter.fields, update.fields, UpsertFlag(options), newId);
      Stored(Upserted(ResultJson(u)), db[collection.s := u.docs])
  }

  /** Only the named collection can change, and only allowed names ever
      do. */
  lemma OnlyAllowedCollectionsChange(collection: Json, filter: Json, update: Json, options: Option<Json>,
                                     dbFails: bool, driverError: Failure, newId: Json, db: Database, other: string)
    requires other != (if collection.JStr? then collection.s else "") || other !in AllowedCollections
    ensures Collection(UpsertDocument(collection, filter, update, options, dbFails, driverError, newId, db).db, other)
         == Collection(db, other)
  {
  }

  datatype Handled = Handled(reply: Reply, db: Database)

  /** The status an error is answered with: `e.status || 500`. */
  function ErrorStatus(f: Failure): (s: int)
    ensures f.status.Some? && f.status.value != 0 ==> s == f.status.value
    ensures f.status.None? || f.status.value == 0 ==> s == 500
  {
    if f.status.Some? && f.status.value != 0 then f.status.value else 500
  }

  /** The collection is a string naming an allowed collection. */
  predicate Allowed(collection: Json) {
    collection.JStr? && collection.s in AllowedCollections
  }

  /** The message an error is answered with: `e.message || 'Storage error'`. */
  function ErrorMessage(f: Failure): string {
    if Present(f.message) then f.message.value else "Storage error"
  }

  /** `collection`, `match` and `update` are all truthy. */
  predicate Complete(body: Option<Json>) {
    Truthy(BodyField(body, "collection")) && Truthy(BodyField(body, "match")) && Truthy(BodyField(body, "update"))
  }

  /** `upsertController`. */
  function UpsertController(body: Option<Json>, dbFails: bool, driverError: Failure, newId: Json, db: Database): (r: Handled)
    ensures !Complete(body) ==> r == Handled(ErrorReply(400, "collection, match, and update are required"), db)
    ensures Complete(body) && !Allowed(BodyField(body, "collection").value) ==>
      r == Handled(ErrorReply(400, "Collection not allowed"), db)
    ensures Complete(body) && Allowed(BodyField(body, "collection").value)
            && (dbFails || !BodyField(body, "match").value.JObj? || !BodyField(body, "update").value.JObj?) ==>
      r == Handled(ErrorReply(ErrorStatus(driverError), ErrorMessage(driverError)), db)
    ensures Complete(body) && Allowed(BodyField(body, "collection").value)
            && !dbFails && BodyField(body, "match").value.JObj? && BodyField(body, "update").value.JObj? ==>
      var s := UpsertDocument(BodyField(body, "collection").value, BodyField(body, "match").value,
                              BodyField(body, "update").value, BodyField(body, "options"), dbFails, driverError, newId, db);
      r == Handled(JsonReply(200, s.outcome.result), s.db)
  {
    var collection := BodyField(body, "collection");
    var filter := BodyField(body, "match");
    var update := BodyField(body, "update");
    if !Truthy(collection) || !Truthy(filter) || !Truthy(update) then
      Handled(ErrorReply(400, "collection, match, and update are required"), db)
    else
      var s := UpsertDocument(collection.value, filter.value, update.value, BodyField(body, "options"),
                              dbFails, driverError, newId, db);
      match s.outcome
      case Upserted(result) => Handled(JsonReply(200, result), s.db)
      case UpsertThrew(f) =>
        Handled(ErrorReply(ErrorStatus(f), ErrorMessage(f)), s.db)
  }

  /** A stored upsert with agreeing match and update values leaves the
      collection as it is when sent a second time. */
  lemma RepeatedUpsertChangesNothing(collection: string, filter: Doc, update: Doc, options: Option<Json>,
                                     driverError: Failure, newId: Json, newId2: Json, db: Database)
    requires collection in AllowedCollections
    requires DistinctKeys(filter) && DistinctKeys(update) && Agree(filter, update)
    ensures var once := UpsertDocument(JStr(collection), JObj(filter), JObj(update), options, false, driverError, newId, db).db;
      UpsertDocument(JStr(collection), JObj(filter), JObj(update), options, false, driverError, newId2, once).db == once
  {
    var flag := UpsertFlag(options);
    var docs := UpdateOne(Collection(db, collection), filter, update, flag, newId).docs;
    UpsertStores(collection, filter, update, options, driverError, newId, db);
    UpdateIdempotent(Collection(db, collection), filter, update, flag, newId, newId2);
    UpsertAgain(collection, filter, update, options, driverError, newId2, db, docs);
  }

  /** An upsert that leaves the collection as it finds it leaves the database too. */
  lemma UpsertAgain(collection: string, filter: Doc, update: Doc, options: Option<Json>,
                    driverError: Failure, newId: Json, db: Database, docs: seq<Doc>)
    requires collection in AllowedCollections
    requires UpdateOne(docs, filter, update, UpsertFlag(options), newId).docs == docs
    ensures UpsertDocument(JStr(collection), JObj(filter), JObj(update), options, false, driverError, newId,
                           db[collection := docs]).db == db[collection := docs]
  {
    var once := db[collection := docs];
    assert Collection(once, collection) == docs;
    UpsertStores(collection, filter, update, options, driverError, newId, once);
    assert once[collection := docs] == once;
  }

  /** An upsert into an allowed collection stores what `updateOne` leaves there. */
  lemma UpsertStores(collection: string, filter: Doc, update: Doc, options: Option<Json>,
                     driverError: Failure, newId: Json, db: Database)
    requires collection in AllowedCollections
    ensures UpsertDocument(JStr(collection), JObj(filter), JObj(update), options, false, driverError, newId, db).db
      == db[collection := UpdateOne(Collection(db, collection), filter, update, UpsertFlag(options), newId).docs]
  {
  }
}
