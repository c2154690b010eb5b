/** Logging in and out, and reading the logged-in user
    (`src/controllers/authController.ts`). argon2's `verify` and JWT
    signing are parameters: `verify(hash, password)` is `None` when
    argon2 throws, and `sign(claims, secret, expiresIn)` is the token. */
module Auth {
  import opened Options
  import opened Json
  import opened Http
  import opened Docs
  import opened Users

  const InvalidCredentials: Reply := ErrorReply(401, "Invalid credentials")

  const NotConfigured: Reply := ErrorReply(500, "Authentication not configured")

  /** How long an issued token lasts. */
  const TokenLifetime: string := "7d"

  /** Both `email` and `password` are truthy in the request body. */
  predicate CredentialsGiven(body: Option<Json>) {
    Truthy(BodyField(body, "email")) && Truthy(BodyField(body, "password"))
  }

  /** `findOne({ email })`. */
  function Account(body: Option<Json>, users: Users): Option<Doc> {
    FindOne(users, [("email", Stored(BodyField(body, "email")))])
  }

  /** The password check against the account: a falsy `password_hash`
      fails without asking argon2; `None` is argon2 throwing. */
  function Authenticated(body: Option<Json>, verify: (Json, Json) -> Option<bool>, account: Doc): (ok: Option<bool>)
    ensures !Truthy(Lookup(account, "password_hash")) ==> ok == Some(false)
    ensures Truthy(Lookup(account, "password_hash")) ==>
      ok == verify(Lookup(account, "password_hash").value, Stored(BodyField(body, "password")))
  {
    var hash := Lookup(account, "password_hash");
    if !Truthy(hash) then Some(false) else verify(hash.value, Stored(BodyField(body, "password")))
  }

  /** The credentials name an account whose password checks out. */
  predicate PasswordAccepted(body: Option<Json>, verify: (Json, Json) -> Option<bool>, users: Users) {
    Account(body, users).Some? && Authenticated(body, verify, Account(body, users).value) == Some(true)
  }

  /** The credentials are wrong: no account has the e-mail address, or its
      password does not check out. */
  predicate BadCredentials(body: Option<Json>, verify: (Json, Json) -> Option<bool>, users: Users) {
    Account(body, users).None? || Authenticated(body, verify, Account(body, users).value) == Some(false)
  }

  /** The fields the token carries: `user_id` and `email`. */
  const ClaimKeys: seq<string> := ["user_id", "email"]

  /** The fields of the user the login answers with. */
  const ShownKeys: seq<string> := ["user_id", "email", "name"]

  /** The filter of the `last_login_at` update: `{ user_id: user.user_id }`. */
  function ById(account: Doc): Doc {
    [("user_id", Stored(Lookup(account, "user_id")))]
  }

  /** `loginController`. `dbFails` stands for `getDb` or `findOne`
      throwing, `updateFails` for the `last_login_at` update throwing;
      `now` is `new Date()`. */
  function LoginController(body: Option<Json>, dbFails: bool, verify: (Json, Json) -> Option<bool>,
                           jwtSecret: Option<string>, sign: (Json, string, string) -> string,
                           updateFails: bool, now: Json, users: Users): (r: UserWrite)
    ensures !CredentialsGiven(body) <==> r.reply == ErrorReply(400, "email and password are required")
    ensures r.reply == InvalidCredentials <==> CredentialsGiven(body) && !dbFails && BadCredentials(body, verify, users)
    ensures r.reply == NotConfigured <==>
      CredentialsGiven(body) && !dbFails && PasswordAccepted(body, verify, users) && !Present(jwtSecret)
    ensures r.reply.status == 200 <==>
      CredentialsGiven(body) && !dbFails && PasswordAccepted(body, verify, users) && Present(jwtSecret) && !updateFails
    ensures r.reply.status != 200 ==> r.users == users
    ensures r.reply.status == 200 ==>
      var account := Account(body, users).value;
      r.reply == JsonReply(200, JObj([("token", JStr(sign(JObj(Project(account, ClaimKeys)), jwtSecret.value, TokenLifetime))),
                                      ("user", JObj(Project(account, ShownKeys)))]))
      && r.users == UpdateOne(users, ById(account), [("last_login_at", now)], false, JNull).docs
  {
    if !CredentialsGiven(body) then UserWrite(ErrorReply(400, "email and password are required"), users)
    else if dbFails then UserWrite(InternalError, users)
    else
      var found := Account(body, users);
      if found.None? then UserWrite(InvalidCredentials, users)
      else
        var ok := Authenticated(body, verify, found.value);
        if ok.None? then UserWrite(InternalError, users)
        else if !ok.value then UserWrite(InvalidCredentials, users)
        else if !Present(jwtSecret) then UserWrite(NotConfigured, users)
        else if updateFails then UserWrite(InternalError, users)
        else
          var account := found.value;
          var token := sign(JObj(Project(account, ClaimKeys)), jwtSecret.value, TokenLifetime);
          var u := UpdateOne(users, ById(account), [("last_login_at", now)], false, JNull);
          UserWrite(JsonReply(200, JObj([("token", JStr(token)), ("user", JObj(Project(account, ShownKeys)))])), u.docs)
  }

  /** An unknown e-mail address, an account without a password hash and a
      wrong password get the same answer, so a client cannot tell which
      accounts exist. */
  lemma BadCredentialsIndistinguishable(b1: Option<Json>, b2: Option<Json>, v1: (Json, Json) -> Option<bool>,
                                        v2: (Json, Json) -> Option<bool>, s1: Option<string>, s2: Option<string>,
                                        sign: (Json, string, string) -> string, now: Json, users1: Users, users2: Users)
    requires CredentialsGiven(b1) && CredentialsGiven(b2)
    requires BadCredentials(b1, v1, users1) && BadCredentials(b2, v2, users2)
    ensures LoginController(b1, false, v1, s1, sign, false, now, users1)
         == LoginController(b2, false, v2, s2, sign, false, now, users2).(users := users1)
  {
  }

  /** The JWT secret is looked at only once the password has checked
      out: wrong credentials are answered the same with or without it. */
  lemma SecretCheckedAfterPassword(body: Option<Json>, dbFails: bool, verify: (Json, Json) -> Option<bool>,
                                   s1: Option<string>, s2: Option<string>, sign: (Json, string, string) -> string,
                                   updateFails: bool, now: Json, users: Users)
    requires !PasswordAccepted(body, verify, users)
    ensures LoginController(body, dbFails, verify, s1, sign, updateFails, now, users)
         == LoginController(body, dbFails, verify, s2, sign, updateFails, now, users)
  {
  }

  /** The token claims are the account's `user_id` and `email` and
      nothing else; the user shown has no password hash. */
  lemma ClaimsAndShown(account: Doc)
    ensures var claims := Project(account, ClaimKeys);
      Lookup(claims, "user_id") == Lookup(account, "user_id") && Lookup(claims, "email") == Lookup(account, "email")
      && (forall k :: k != "user_id" && k != "email" ==> Lookup(claims, k).None?)
      && Lookup(Project(account, ShownKeys), "password_hash").None?
  {
    assert "password_hash" !in ShownKeys;
  }

  /** A successful login answers with the token over the account's claims
      and with the account's shown fields. */
  lemma LoginAnswer(body: Option<Json>, verify: (Json, Json) -> Option<bool>, jwtSecret: Option<string>,
                    sign: (Json, string, string) -> string, now: Json, users: Users)
    requires LoginController(body, false, verify, jwtSecret, sign, false, now, users).reply.status == 200
    ensures Account(body, users).Some? && Present(jwtSecret)
    ensures var account := Account(body, users).value;
      LoginController(body, false, verify, jwtSecret, sign, false, now, users).reply
      == JsonReply(200, JObj([("token", JStr(sign(JObj(Project(account, ClaimKeys)), jwtSecret.value, TokenLifetime))),
                              ("user", JObj(Project(account, ShownKeys)))]))
  {
  }

  /** A successful login answers with a token whose claims are the
      account's `user_id` and `email` and nothing else, and with the
      account's public fields, never its password hash. */
  lemma LoginRevealsNoHash(body: Option<Json>, verify: (Json, Json) -> Option<bool>, jwtSecret: Option<string>,
                           sign: (Json, string, string) -> string, now: Json, users: Users)
    requires LoginController(body, false, verify, jwtSecret, sign, false, now, users).reply.status == 200
    ensures Account(body, users).Some? && Present(jwtSecret)
    ensures var account := Account(body, users).value;
      var claims := Project(account, ClaimKeys);
      var shown := Project(account, ShownKeys);
      LoginController(body, false, verify, jwtSecret, sign, false, now, users).reply
        == JsonReply(200, JObj([("token", JStr(sign(JObj(claims), jwtSecret.value, TokenLifetime))), ("user", JObj(shown))]))
      && Lookup(shown, "password_hash").None?
      && Lookup(claims, "user_id") == Lookup(account, "user_id") && Lookup(claims, "email") == Lookup(account, "email")
      && (forall k :: k != "user_id" && k != "email" ==> Lookup(claims, k).None?)
  {
    LoginAnswer(body, verify, jwtSecret, sign, now, users);
    ClaimsAndShown(Account(body, users).value);
  }

  /** A successful login stores the update of the account's document. */
  lemma LoginUpdates(body: Option<Json>, verify: (Json, Json) -> Option<bool>, jwtSecret: Option<string>,
                     sign: (Json, string, string) -> string, now: Json, users: Users)
    requires LoginController(body, false, verify, jwtSecret, sign, false, now, users).reply.status == 200
    ensures Account(body, users).Some?
    ensures var account := Account(body, users).value;
      LoginController(body, false, verify, jwtSecret, sign, false, now, users).users
      == UpdateOne(users, ById(account), [("last_login_at", now)], false, JNull).docs
  {
  }

  /** The update of `last_login_at` by the account's `user_id` stamps
      that account, when it has one. */
  lemma StampsAccount(account: Doc, now: Json, users: Users)
    requires account in users && Lookup(account, "user_id").Some?
    ensures var docs := UpdateOne(users, ById(account), [("last_login_at", now)], false, JNull).docs;
      exists j :: 0 <= j < |docs| && Lookup(docs[j], "last_login_at") == Some(now)
  {
    var filter := ById(account);
    var i :| 0 <= i < |users| && users[i] == account;
    assert Matches(users[i], filter);
    UpdateEstablishes(users, filter, [("last_login_at", now)], false, JNull);
    var r := UpdateOne(users, filter, [("last_login_at", now)], false, JNull);
    var j :| 0 <= j < |r.docs| && Holds(r.docs[j], [("last_login_at", now)]);
    assert [("last_login_at", now)][0].0 == "last_login_at";
  }

  /** A successful login stamps the account it found: with a `user_id`,
      that account's document gets `last_login_at` set to the login
      time. */
  lemma LoginStampsAccount(body: Option<Json>, verify: (Json, Json) -> Option<bool>, jwtSecret: Option<string>,
                           sign: (Json, string, string) -> string, now: Json, users: Users)
    requires LoginController(body, false, verify, jwtSecret, sign, false, now, users).reply.status == 200
    requires Lookup(Account(body, users).value, "user_id").Some?
    ensures var r := LoginController(body, false, verify, jwtSecret, sign, false, now, users);
      exists j :: 0 <= j < |r.users| && Lookup(r.users[j], "last_login_at") == Some(now)
  {
    LoginUpdates(body, verify, jwtSecret, sign, now, users);
    StampsAccount(Account(body, users).value, now, users);
  }

  /** `logoutController`: tokens are dropped by the client, so logging out
      always succeeds with an empty answer. */
  function LogoutController(): (r: Reply)
    ensures r.status == 204 && r.body == NoBody
  {
    Reply(204, [], NoBody)
  }

  /** `getMeController`: the user the authentication middleware attached
      (`req.user`), looked up by its `user_id`. */
  function GetMeController(user: Option<Json>, dbFails: bool, users: Users): (r: Reply)
    ensures var id := if user.Some? then Get(user.value, "user_id") else None;
      (!Truthy(id) <==> r == ErrorReply(401, "Not authenticated"))
      && (Truthy(id) && dbFails ==> r == InternalError)
      && (Truthy(id) && !dbFails ==>
            var found := FindOne(users, [("user_id", id.value)]);
            (found.None? ==> r == ErrorReply(404, "User not found"))
            && (found.Some? ==> r == JsonReply(200, JObj([("user", JObj(Public(found.value)))]))))
  {
    var id := if user.Some? then Get(user.value, "user_id") else None;
    if !Truthy(id) then ErrorReply(401, "Not authenticated")
    else if dbFails then InternalError
    else
      var found := FindOne(users, [("user_id", id.value)]);
      if found.None? then ErrorReply(404, "User not found")
      else JsonReply(200, JObj([("user", JObj(Public(found.value)))]))
  }

  /** Reading oneself is reading the user by id: for a logged-in user
      with a non-empty string id, `GET /me` answers as `GET /users/:id`. */
  lemma GetMeIsGetUser(id: string, dbFails: bool, users: Users)
    requires id != ""
    ensures GetMeController(Some(JObj([("user_id", JStr(id))])), dbFails, users) == GetUserController(id, dbFails, users)
  {
    assert Get(JObj([("user_id", JStr(id))]), "user_id") == Some(JStr(id)) by {
      LookupCons(("user_id", JStr(id)), [], "user_id");
      assert [("user_id", JStr(id))] == [("user_id", JStr(id))] + [];
    }
  }
}
