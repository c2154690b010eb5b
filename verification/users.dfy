/** The user endpoints of `src/controllers/userController.ts`: read one
    user, create one, and update the fields a client may change. The
    `users` collection carries a unique index on `user_id` and unique
    sparse indexes on `email` and `phone` (`src/db/indexes.ts`); a sparse
    index skips documents that lack the field but does index `null`. */
module Users {
  import opened Options
  import opened Json
  import opened Http
  import opened Docs

  type Users = seq<Doc>

  datatype UserWrite = UserWrite(reply: Reply, users: Users)

  const InternalError: Reply := ErrorReply(500, "Internal server error")

  /** Some stored user has the same value under `key`, which `doc` has. */
  predicate ClashOn(users: Users, doc: Doc, key: string) {
    Lookup(doc, key).Some? && exists i :: 0 <= i < |users| && Lookup(users[i], key) == Lookup(doc, key)
  }

  /** Inserting `doc` would violate one of the unique indexes. */
  predicate Clashes(users: Users, doc: Doc) {
    ClashOn(users, doc, "user_id") || ClashOn(users, doc, "email") || ClashOn(users, doc, "phone")
  }

  /** `getUserController`. */
  function GetUserController(id: string, dbFails: bool, users: Users): (r: Reply)
    ensures id == "" ==> r == ErrorReply(400, "user id is required")
    ensures id != "" && dbFails ==> r == InternalError
    ensures id != "" && !dbFails ==>
      var found := FindOne(users, [("user_id", JStr(id))]);
      (found.None? <==> r == ErrorReply(404, "User not found"))
      && (found.Some? ==> r == JsonReply(200, JObj([("user", JObj(Public(found.value)))])))
  {
    if id == "" then ErrorReply(400, "user id is required")
    else if dbFails then InternalError
    else
      var found := FindOne(users, [("user_id", JStr(id))]);
      if found.None? then ErrorReply(404, "User not found")
      else JsonReply(200, JObj([("user", JObj(Public(found.value)))]))
  }

  /** The fields of a new user, in the order the controller writes them. */
  const UserKeys: seq<string> := ["user_id", "email", "phone", "name", "metadata", "status", "createdAt", "updatedAt"]

  /** The value of field `n` of a new user; an undefined field is `None`.
      `metadata` defaults to `{}`, and both timestamps are `now`. */
  function UserField(userId: string, email: Option<Json>, phone: Option<Json>, name: Option<Json>,
                     metadata: Option<Json>, now: Json, n: string): Option<Json> {
    if n == "user_id" then Some(JStr(userId))
    else if n == "email" then email
    else if n == "phone" then phone
    else if n == "name" then name
    else if n == "metadata" then Or(metadata, Some(JObj([])))
    else if n == "status" then Some(JStr("active"))
    else Some(now)
  }

  /** The user the client sees: undefined fields are left out, as
      `JSON.stringify` leaves them out. */
  function NewUser(userId: string, email: Option<Json>, phone: Option<Json>, name: Option<Json>,
                   metadata: Option<Json>, now: Json): (u: Doc)
    ensures Lookup(u, "user_id") == Some(JStr(userId))
    ensures Lookup(u, "email") == email && Lookup(u, "phone") == phone
    ensures Lookup(u, "status") == Some(JStr("active")) && Lookup(u, "createdAt") == Some(now)
    ensures Truthy(metadata) ==> Lookup(u, "metadata") == metadata
    ensures !Truthy(metadata) ==> Lookup(u, "metadata") == Some(JObj([]))
  {
    var f := n => UserField(userId, email, phone, name, metadata, now, n);
    BuildLookup(f, UserKeys, "user_id");
    BuildLookup(f, UserKeys, "email");
    BuildLookup(f, UserKeys, "phone");
    BuildLookup(f, UserKeys, "metadata");
    BuildLookup(f, UserKeys, "status");
    BuildLookup(f, UserKeys, "createdAt");
    Build(f, UserKeys)
  }

  /** The document the driver stores for that user by default: an
      undefined field is written as `null` rather than left out. */
  function NewUserAsWritten(userId: string, email: Option<Json>, phone: Option<Json>, name: Option<Json>,
                            metadata: Option<Json>, now: Json): (u: Doc)
    ensures Lookup(u, "user_id") == Some(JStr(userId))
    ensures Lookup(u, "email") == Some(Stored(email))
    ensures Lookup(u, "phone") == Some(Stored(phone))
  {
    var f := n => Some(Stored(UserField(userId, email, phone, name, metadata, now, n)));
    BuildLookup(f, UserKeys, "user_id");
    BuildLookup(f, UserKeys, "email");
    BuildLookup(f, UserKeys, "phone");
    Build(f, UserKeys)
  }

  /** The `$or` lookup for an existing user: by `email` if it is truthy,
      by `phone` if it is truthy. */
  predicate Exists(users: Users, email: Option<Json>, phone: Option<Json>) {
    exists i :: 0 <= i < |users| &&
      ((Truthy(email) && Lookup(users[i], "email") == email) || (Truthy(phone) && Lookup(users[i], "phone") == phone))
  }

  /** `createUserController`, given the document it stores and the user
      it answers with. An insert that violates a unique index throws and
      is answered 500. */
  function CreateUserWith(body: Option<Json>, dbFails: bool, stored: Doc, shown: Doc, users: Users): (r: UserWrite)
    ensures var email := BodyField(body, "email");
      var phone := BodyField(body, "phone");
      (!Truthy(email) && !Truthy(phone) ==> r == UserWrite(ErrorReply(400, "email or phone is required"), users))
      && ((Truthy(email) || Truthy(phone)) && dbFails ==> r == UserWrite(InternalError, users))
      && ((Truthy(email) || Truthy(phone)) && !dbFails && Exists(users, email, phone) ==>
            r == UserWrite(ErrorReply(409, "User already exists"), users))
      && (r.reply.status == 201 <==>
            (Truthy(email) || Truthy(phone)) && !dbFails && !Exists(users, email, phone) && !Clashes(users, stored))
    ensures r.reply.status == 201 ==>
      r.users == users + [stored] && r.reply == JsonReply(201, JObj([("user", JObj(shown))]))
    ensures r.reply.status != 201 ==> r.users == users
  {
    var email := BodyField(body, "email");
    var phone := BodyField(body, "phone");
    if !Truthy(email) && !Truthy(phone) then UserWrite(ErrorReply(400, "email or phone is required"), users)
    else if dbFails then UserWrite(InternalError, users)
    else if Exists(users, email, phone) then UserWrite(ErrorReply(409, "User already exists"), users)
    else if Clashes(users, stored) then UserWrite(InternalError, users)
    else UserWrite(JsonReply(201, JObj([("user", JObj(shown))])), users + [stored])
  }

  /** `createUserController` as it runs with the driver's defaults: the
      stored user has `email`, `phone` and `name` set to `null` when the
      request leaves them out. */
  function CreateUserAsWritten(body: Option<Json>, dbFails: bool, userId: string, now: Json, users: Users): (r: UserWrite)
    ensures r.reply.status == 201 <==>
      (Truthy(BodyField(body, "email")) || Truthy(BodyField(body, "phone"))) && !dbFails
      && !Exists(users, BodyField(body, "email"), BodyField(body, "phone")) && !Clashes(users, StoredAsWritten(body, userId, now))
    ensures r.reply.status == 201 ==> r.users == users + [StoredAsWritten(body, userId, now)]
    ensures r.reply.status != 201 ==> r.users == users
  {
    CreateUserWith(body, dbFails, StoredAsWritten(body, userId, now), Given(body, userId, now), users)
  }

  /** The new user as the request describes it. */
  function Given(body: Option<Json>, userId: string, now: Json): Doc {
    NewUser(userId, BodyField(body, "email"), BodyField(body, "phone"), BodyField(body, "name"), BodyField(body, "metadata"), now)
  }

  /** The new user as the driver stores it by default. */
  function StoredAsWritten(body: Option<Json>, userId: string, now: Json): Doc {
    NewUserAsWritten(userId, BodyField(body, "email"), BodyField(body, "phone"), BodyField(body, "name"), BodyField(body, "metadata"), now)
  }

  /** A request that gives a phone number and no e-mail address. */
  predicate PhoneOnly(body: Option<Json>) {
    BodyField(body, "email").None? && Truthy(BodyField(body, "phone"))
  }

  /** A request with a contact goes into an empty collection, whatever
      document is stored for it. */
  lemma CreateIntoEmpty(body: Option<Json>, stored: Doc, shown: Doc)
    requires Truthy(BodyField(body, "email")) || Truthy(BodyField(body, "phone"))
    ensures CreateUserWith(body, false, stored, shown, []).reply.status == 201
    ensures CreateUserWith(body, false, stored, shown, []).users == [stored]
  {
    assert !Exists([], BodyField(body, "email"), BodyField(body, "phone"));
    assert !Clashes([], stored);
  }

  /** A phone-only request whose stored document has `email: null` is
      refused by a collection holding another `email: null` user with a
      different phone number: no user exists by that phone, but the
      insert breaks the unique index on `email`. */
  lemma NullEmailClash(body: Option<Json>, stored: Doc, shown: Doc, s: Doc)
    requires PhoneOnly(body)
    requires Lookup(s, "email") == Some(JNull) && Lookup(stored, "email") == Some(JNull)
    requires Lookup(s, "phone") != BodyField(body, "phone")
    ensures CreateUserWith(body, false, stored, shown, [s]).reply == InternalError
  {
    assert [s][0] == s;
    assert ClashOn([s], stored, "email");
    assert !Exists([s], None, BodyField(body, "phone"));
  }

  /** Of two users created with different phone numbers and no e-mail
      address, the second is refused: both stored users have
      `email: null`, which the sparse unique index on `email` counts as
      the same value. */
  lemma PhoneOnlyUsersClash(b1: Option<Json>, b2: Option<Json>, u1: string, u2: string, now: Json)
    requires PhoneOnly(b1) && PhoneOnly(b2) && BodyField(b1, "phone") != BodyField(b2, "phone")
    ensures var first := CreateUserAsWritten(b1, false, u1, now, []);
      first.reply.status == 201
      && CreateUserAsWritten(b2, false, u2, now, first.users).reply == InternalError
  {
    var s1 := StoredAsWritten(b1, u1, now);
    var s2 := StoredAsWritten(b2, u2, now);
    CreateIntoEmpty(b1, s1, Given(b1, u1, now));
    assert Lookup(s1, "email") == Some(JNull) && Lookup(s2, "email") == Some(JNull);
    assert Lookup(s1, "phone") == BodyField(b1, "phone");
    NullEmailClash(b2, s2, Given(b2, u2, now), s1);
  }

  /** `createUserController` storing only the fields the request gives,
      as the sparse indexes on `email` and `phone` are meant for. */
  function CreateUserController(body: Option<Json>, dbFails: bool, userId: string, now: Json, users: Users): (r: UserWrite)
    ensures r.reply.status == 201 <==>
      (Truthy(BodyField(body, "email")) || Truthy(BodyField(body, "phone"))) && !dbFails
      && !Exists(users, BodyField(body, "email"), BodyField(body, "phone")) && !Clashes(users, Given(body, userId, now))
    ensures r.reply.status == 201 ==> r.users == users + [Given(body, userId, now)]
    ensures r.reply.status != 201 ==> r.users == users
  {
    CreateUserWith(body, dbFails, Given(body, userId, now), Given(body, userId, now), users)
  }

  /** The given contact fields are each absent or truthy. */
  predicate ContactsGiven(body: Option<Json>) {
    (Truthy(BodyField(body, "email")) || Truthy(BodyField(body, "phone")))
    && (BodyField(body, "email").None? || Truthy(BodyField(body, "email")))
    && (BodyField(body, "phone").None? || Truthy(BodyField(body, "phone")))
  }

  /** With the fields stored as given, a user whose contacts are not taken
      is always created under a fresh id: no index can refuse it. */
  lemma CreateSucceedsWhenFree(body: Option<Json>, userId: string, now: Json, users: Users)
    requires ContactsGiven(body)
    requires !Exists(users, BodyField(body, "email"), BodyField(body, "phone"))
    requires forall i :: 0 <= i < |users| ==> Lookup(users[i], "user_id") != Some(JStr(userId))
    ensures CreateUserController(body, false, userId, now, users).reply.status == 201
  {
    var email := BodyField(body, "email");
    var phone := BodyField(body, "phone");
    var u := Given(body, userId, now);
    assert !ClashOn(users, u, "email");
    assert !ClashOn(users, u, "phone");
  }

  /** A second request with another phone number, no e-mail address
      and a fresh id is stored next to a user who has no e-mail field. */
  lemma SecondPhoneOnlyFree(b: Option<Json>, userId: string, now: Json, g: Doc)
    requires PhoneOnly(b)
    requires Lookup(g, "email").None? && Lookup(g, "phone") != BodyField(b, "phone")
    requires Lookup(g, "user_id") != Some(JStr(userId))
    ensures CreateUserController(b, false, userId, now, [g]).reply.status == 201
  {
    assert [g][0] == g;
    assert !Exists([g], BodyField(b, "email"), BodyField(b, "phone"));
    CreateSucceedsWhenFree(b, userId, now, [g]);
  }

  /** The same two requests, under two fresh ids, both succeed when only
      given fields are stored. */
  lemma PhoneOnlyUsersCoexist(b1: Option<Json>, b2: Option<Json>, u1: string, u2: string, now: Json)
    requires PhoneOnly(b1) && PhoneOnly(b2) && BodyField(b1, "phone") != BodyField(b2, "phone") && u1 != u2
    ensures var first := CreateUserController(b1, false, u1, now, []);
      first.reply.status == 201
      && CreateUserController(b2, false, u2, now, first.users).reply.status == 201
  {
    var g1 := Given(b1, u1, now);
    CreateIntoEmpty(b1, g1, g1);
    assert Lookup(g1, "phone") == BodyField(b1, "phone");
    assert Lookup(g1, "email").None?;
    assert Lookup(g1, "user_id") == Some(JStr(u1));
    SecondPhoneOnlyFree(b2, u2, now, g1);
  }

  /** A user just appended under a fresh id is found by that id. */
  lemma GetAppended(userId: string, users: Users, u: Doc)
    requires userId != ""
    requires Lookup(u, "user_id") == Some(JStr(userId)) && !ClashOn(users, u, "user_id")
    ensures GetUserController(userId, false, users + [u]) == JsonReply(200, JObj([("user", JObj(Public(u)))]))
  {
    var filter := [("user_id", JStr(userId))];
    assert Matches(u, filter);
    assert forall i :: 0 <= i < |users| ==> !Matches(users[i], filter) by {
      forall i | 0 <= i < |users| ensures !Matches(users[i], filter) {
        assert Lookup(users[i], filter[0].0) != Some(filter[0].1);
      }
    }
    FindAppended(users, u, filter);
  }

  /** A created user is found by its id, without internal fields. */
  lemma CreateThenGet(body: Option<Json>, userId: string, now: Json, users: Users)
    requires userId != ""
    requires CreateUserController(body, false, userId, now, users).reply.status == 201
    ensures var created := CreateUserController(body, false, userId, now, users);
      GetUserController(userId, false, created.users)
      == JsonReply(200, JObj([("user", JObj(Public(created.users[|users|])))]))
  {
    var u := Given(body, userId, now);
    assert CreateUserController(body, false, userId, now, users).users == users + [u];
    assert !Clashes(users, u);
    GetAppended(userId, users, u);
  }

  /** The keys a client may change, besides `updatedAt`. */
  predicate Changeable(k: string) {
    k == "email" || k == "phone" || k == "name" || k == "metadata" || k == "status"
  }

  const UpdateKeys: seq<string> := ["updatedAt", "email", "phone", "name", "metadata", "status"]

  /** The fields `updateUserController` sets: `updatedAt` and each of
      `email`, `phone`, `name`, `metadata` and `status` that is not
      undefined. */
  function UpdateFields(body: Option<Json>, now: Json): (fs: Doc)
    ensures DistinctKeys(fs)
    ensures forall k :: Lookup(fs, k) == (if k == "updatedAt" then Some(now) else if Changeable(k) then BodyField(body, k) else None)
  {
    var f := n => if n == "updatedAt" then Some(now) else BodyField(body, n);
    assert Distinct(UpdateKeys);
    BuildDistinct(f, UpdateKeys);
    forall k ensures Lookup(Build(f, UpdateKeys), k) == (if k == "updatedAt" then Some(now) else if Changeable(k) then BodyField(body, k) else None) {
      BuildLookup(f, UpdateKeys, k);
    }
    Build(f, UpdateKeys)
  }

  /** Another stored user holds a value the updated user would share
      under a unique index. */
  predicate ClashesOther(users: Users, i: nat, doc: Doc) {
    exists j :: 0 <= j < |users| && j != i &&
      ((Lookup(doc, "user_id").Some? && Lookup(users[j], "user_id") == Lookup(doc, "user_id"))
       || (Lookup(doc, "email").Some? && Lookup(users[j], "email") == Lookup(doc, "email"))
       || (Lookup(doc, "phone").Some? && Lookup(users[j], "phone") == Lookup(doc, "phone")))
  }

  /** `updateUserController`. A `$set` that would break a unique index
      throws and is answered 500. */
  function UpdateUserController(id: string, body: Option<Json>, dbFails: bool, now: Json, users: Users): (r: UserWrite)
    ensures id == "" ==> r == UserWrite(ErrorReply(400, "user id is required"), users)
    ensures id != "" && dbFails ==> r == UserWrite(InternalError, users)
    ensures id != "" && !dbFails ==>
      (r.reply == ErrorReply(404, "User not found") <==> !exists i :: 0 <= i < |users| && Matches(users[i], [("user_id", JStr(id))]))
    ensures r.reply.status != 200 ==> r.users == users
    ensures r.reply.status == 200 ==>
      var i := FindFirst(users, [("user_id", JStr(id))]);
      i < |users| && |r.users| == |users|
      && (forall j :: 0 <= j < |users| && j != i ==> r.users[j] == users[j])
      && r.users[i] == SetAll(users[i], UpdateFields(body, now))
      && r.reply == JsonReply(200, JObj([("user", JObj(Public(r.users[i])))]))
  {
    if id == "" then UserWrite(ErrorReply(400, "user id is required"), users)
    else if dbFails then UserWrite(InternalError, users)
    else
      var filter := [("user_id", JStr(id))];
      var i := FindFirst(users, filter);
      if i == |users| then UserWrite(ErrorReply(404, "User not found"), users)
      else
        var updated := SetAll(users[i], UpdateFields(body, now));
        if ClashesOther(users, i, updated) then UserWrite(InternalError, users)
        else UserWrite(JsonReply(200, JObj([("user", JObj(Public(updated)))])), users[i := updated])
  }

  /** The value field `k` of `user` has after an update with `body`. */
  function UpdatedValue(body: Option<Json>, now: Json, user: Doc, k: string): Option<Json> {
    if k == "updatedAt" then Some(now)
    else if Changeable(k) && BodyField(body, k).Some? then BodyField(body, k)
    else Lookup(user, k)
  }

  /** Setting the update fields on a user gives each field its updated
      value. */
  lemma SetUpdateFields(body: Option<Json>, now: Json, user: Doc, k: string)
    ensures Lookup(SetAll(user, UpdateFields(body, now)), k) == UpdatedValue(body, now, user, k)
  {
    var fs := UpdateFields(body, now);
    SetAllLookup(user, fs, k);
    FindKeyPresent(fs, k);
  }

  /** A successful update rewrites the first user with the id by setting
      the update fields. */
  lemma UpdateSetsFields(id: string, body: Option<Json>, now: Json, users: Users)
    requires UpdateUserController(id, body, false, now, users).reply.status == 200
    ensures var i := FindFirst(users, [("user_id", JStr(id))]);
      i < |users| && UpdateUserController(id, body, false, now, users).users[i] == SetAll(users[i], UpdateFields(body, now))
  {
  }

  /** An update writes exactly the provided fields and `updatedAt`; every
      other field of the user is left alone. */
  lemma UpdateOnlyProvided(id: string, body: Option<Json>, now: Json, users: Users, k: string)
    requires UpdateUserController(id, body, false, now, users).reply.status == 200
    ensures var r := UpdateUserController(id, body, false, now, users);
      var i := FindFirst(users, [("user_id", JStr(id))]);
      i < |users| && Lookup(r.users[i], k) == UpdatedValue(body, now, users[i], k)
  {
    UpdateSetsFields(id, body, now, users);
    var i := FindFirst(users, [("user_id", JStr(id))]);
    SetUpdateFields(body, now, users[i], k);
  }
}
