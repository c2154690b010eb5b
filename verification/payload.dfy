/** The basic webhook payload: the schema it must satisfy (`source` and
    `type` required, `payload_version` one of '1.0'/'1.1' defaulting to
    '1.0', optional `timestamp`, `user`, `data`, `metadata`), how an
    accepted payload is normalised (e-mail addresses lower-cased, phone
    numbers in E.164 form), the standard response constructors, and the
    middleware that parses, checks and normalises a request body. */
module Payload {
  import opened Options
  import opened Text
  import opened Json
  import opened Http

  /* ---------------------------------------------------------------------
     The schema
     --------------------------------------------------------------------- */

  predicate IsVersion(v: string) {
    v == "1.0" || v == "1.1"
  }

  /** An optional string property: absent, or a string satisfying `ok`. */
  predicate OptString(o: Option<Json>) {
    o.None? || o.value.JStr?
  }

  /** The named properties of an object, as an object schema keeps them. */
  function Pick(fs: seq<(string, Json)>, names: seq<string>): seq<(string, Json)> {
    Build(n => Lookup(fs, n), names)
  }

  const UserFields: seq<string> := ["user_id", "email", "phone"]
  const MetadataFields: seq<string> := ["request_id", "trace_id", "client_version"]
  const TopFields: seq<string> := ["payload_version", "source", "type", "timestamp", "user", "data", "metadata"]

  predicate ValidUser(u: Json, isEmail: string -> bool) {
    u.JObj?
    && OptString(Lookup(u.fields, "user_id"))
    && OptString(Lookup(u.fields, "phone"))
    && (Lookup(u.fields, "email").None?
        || (Lookup(u.fields, "email").value.JStr? && isEmail(Lookup(u.fields, "email").value.s)))
  }

  predicate ValidMetadata(m: Json) {
    m.JObj?
    && OptString(Lookup(m.fields, "request_id"))
    && OptString(Lookup(m.fields, "trace_id"))
    && OptString(Lookup(m.fields, "client_version"))
  }

  predicate NonEmptyString(o: Option<Json>) {
    o.Some? && o.value.JStr? && |o.value.s| >= 1
  }

  /** The schema, as a predicate on the parsed value. `isEmail` is the
      e-mail format check. */
  predicate SchemaAccepts(j: Json, isEmail: string -> bool) {
    j.JObj?
    && var fs := j.fields;
    (Lookup(fs, "payload_version").None?
     || (Lookup(fs, "payload_version").value.JStr? && IsVersion(Lookup(fs, "payload_version").value.s)))
    && NonEmptyString(Lookup(fs, "source"))
    && NonEmptyString(Lookup(fs, "type"))
    && (Lookup(fs, "timestamp").None? || Lookup(fs, "timestamp").value.JNum? || Lookup(fs, "timestamp").value.JStr?)
    && (Lookup(fs, "user").None? || ValidUser(Lookup(fs, "user").value, isEmail))
    && (Lookup(fs, "data").None? || Lookup(fs, "data").value.JObj?)
    && (Lookup(fs, "metadata").None? || ValidMetadata(Lookup(fs, "metadata").value))
  }

  /** The value the schema outputs for property `n` of an accepted object:
      the version defaults to '1.0', `user` and `metadata` lose unknown keys,
      everything else passes through. */
  function OutputValue(fs: seq<(string, Json)>, n: string): Option<Json> {
    var v := Lookup(fs, n);
    if n == "payload_version" then Or(v, Some(JStr("1.0")))
    else if n == "user" && v.Some? && v.value.JObj? then Some(JObj(Pick(v.value.fields, UserFields)))
    else if n == "metadata" && v.Some? && v.value.JObj? then Some(JObj(Pick(v.value.fields, MetadataFields)))
    else v
  }

  /** `basicPayloadSchema.safeParse`: an accepted object comes out with its
      known properties in schema order (the version defaulted), and nothing
      else. */
  function ParseSchema(j: Json, isEmail: string -> bool): (r: Option<Json>)
    ensures r.Some? <==> SchemaAccepts(j, isEmail)
    ensures r.Some? ==> r.value.JObj?
    ensures r.Some? ==> forall n :: Lookup(r.value.fields, n) == if n in TopFields then OutputValue(j.fields, n) else None
  {
    if SchemaAccepts(j, isEmail) then
      var f := n => OutputValue(j.fields, n);
      forall n ensures Lookup(Build(f, TopFields), n) == if n in TopFields then f(n) else None {
        BuildLookup(f, TopFields, n);
      }
      Some(JObj(Build(f, TopFields)))
    else None
  }

  lemma RequiredAreTop()
    ensures "source" in TopFields && "type" in TopFields && "payload_version" in TopFields
  {
    assert TopFields[1] == "source" && TopFields[2] == "type" && TopFields[0] == "payload_version";
  }

  /** The required fields come out unchanged, and the version is the given
      one or '1.0'. */
  lemma SchemaRequiredFields(j: Json, isEmail: string -> bool)
    requires SchemaAccepts(j, isEmail)
    ensures var out := ParseSchema(j, isEmail).value.fields;
      && Lookup(out, "source") == Lookup(j.fields, "source") && NonEmptyString(Lookup(out, "source"))
      && Lookup(out, "type") == Lookup(j.fields, "type") && NonEmptyString(Lookup(out, "type"))
      && Lookup(out, "payload_version").Some? && Lookup(out, "payload_version").value.JStr?
      && IsVersion(Lookup(out, "payload_version").value.s)
      && (Lookup(j.fields, "payload_version").None? ==> Lookup(out, "payload_version") == Some(JStr("1.0")))
  {
    var out := ParseSchema(j, isEmail).value.fields;
    RequiredAreTop();
    assert Lookup(out, "source") == OutputValue(j.fields, "source");
    assert Lookup(out, "type") == OutputValue(j.fields, "type");
    assert Lookup(out, "payload_version") == OutputValue(j.fields, "payload_version");
  }

  /* ---------------------------------------------------------------------
     Normalisation
     --------------------------------------------------------------------- */

  /** The e-mail rule: trimmed, then lower-cased. */
  function NormalizeUserEmail(email: string): string {
    Lower(Trim(email))
  }

  /** Whether a data key names an e-mail field (case-insensitively). */
  predicate IsEmailKey(k: string) {
    Contains(Lower(k), "email")
  }

  /** A string value under an e-mail key becomes `normalizeEmail(v)`, or
      `v` lower-cased when that gives nothing. */
  function NormalizeDataEntry(e: (string, Json), normalizeEmail: string -> Option<string>): (r: (string, Json))
    ensures r.0 == e.0
    ensures !(IsEmailKey(e.0) && e.1.JStr?) ==> r == e
  {
    if IsEmailKey(e.0) && e.1.JStr? then
      var n := normalizeEmail(e.1.s);
      (e.0, JStr(if n.Some? && n.value != "" then n.value else Lower(e.1.s)))
    else e
  }

  function NormalizeData(fs: seq<(string, Json)>, normalizeEmail: string -> Option<string>): (r: seq<(string, Json)>)
    ensures |r| == |fs|
    ensures forall i :: 0 <= i < |fs| ==> r[i] == NormalizeDataEntry(fs[i], normalizeEmail)
  {
    seq(|fs|, i requires 0 <= i < |fs| => NormalizeDataEntry(fs[i], normalizeEmail))
  }

  /** The user object after the e-mail and phone rules; `e164` gives the
      E.164 form of a valid phone number. */
  function NormalizeUser(u: seq<(string, Json)>, e164: string -> Option<string>): seq<(string, Json)>
  {
    var email := Lookup(u, "email");
    var u1 := if Truthy(email) then Put(u, "email", JStr(NormalizeUserEmail(ToStr(email.value)))) else u;
    var phone := Lookup(u, "phone");
    if Truthy(phone) then
      var p := e164(ToStr(phone.value));
      if p.Some? && p.value != "" then Put(u1, "phone", JStr(p.value)) else Remove(u1, "phone")
    else u1
  }

  /** A truthy e-mail comes out trimmed and lower-cased; a truthy phone is
      replaced by its E.164 form, or removed when it has none; every other
      user property is kept. */
  lemma NormalizeUserSpec(u: seq<(string, Json)>, e164: string -> Option<string>)
    ensures var r := NormalizeUser(u, e164);
      var email, phone := Lookup(u, "email"), Lookup(u, "phone");
      && (Truthy(email) ==> Lookup(r, "email") == Some(JStr(Lower(Trim(ToStr(email.value))))))
      && (!Truthy(email) ==> Lookup(r, "email") == email)
      && (Truthy(phone) && e164(ToStr(phone.value)).Some? && e164(ToStr(phone.value)).value != "" ==>
            Lookup(r, "phone") == Some(JStr(e164(ToStr(phone.value)).value)))
      && (Truthy(phone) && !(e164(ToStr(phone.value)).Some? && e164(ToStr(phone.value)).value != "") ==>
            Lookup(r, "phone").None?)
      && (!Truthy(phone) ==> Lookup(r, "phone") == phone)
      && (forall m :: m != "email" && m != "phone" ==> Lookup(r, m) == Lookup(u, m))
  {
    var email := Lookup(u, "email");
    var u1 := if Truthy(email) then Put(u, "email", JStr(NormalizeUserEmail(ToStr(email.value)))) else u;
    forall m {
      LookupRemove(u1, "phone", m);
    }
  }

  /** `normalizeBasicPayload`. */
  function Normalize(p: Json, e164: string -> Option<string>, normalizeEmail: string -> Option<string>): (r: Json)
    ensures p.JObj? <==> r.JObj?
  {
    match p
    case JObj(fs) =>
      var version := Or(Lookup(fs, "payload_version"), Some(JStr("1.0"))).value;
      var fs1 := Put(fs, "payload_version", version);
      var user := Lookup(fs, "user");
      var touchesUser := user.Some? && user.value.JObj?
                         && (Truthy(Lookup(user.value.fields, "email")) || Truthy(Lookup(user.value.fields, "phone")));
      var fs2 := if touchesUser then Put(fs1, "user", JObj(NormalizeUser(user.value.fields, e164))) else fs1;
      var data := Lookup(fs, "data");
      var fs3 := if data.Some? && data.value.JObj? then Put(fs2, "data", JObj(NormalizeData(data.value.fields, normalizeEmail))) else fs2;
      JObj(fs3)
    case _ => p
  }

  /** What normalisation does to each top-level property: the version is
      kept or set to '1.0'; `user` and `data` follow their rules; every
      other property is copied unchanged. */
  lemma NormalizeSpec(fs: seq<(string, Json)>, e164: string -> Option<string>, normalizeEmail: string -> Option<string>)
    ensures var r := Normalize(JObj(fs), e164, normalizeEmail).fields;
      var user, data := Lookup(fs, "user"), Lookup(fs, "data");
      && Lookup(r, "payload_version") == Or(Lookup(fs, "payload_version"), Some(JStr("1.0")))
      && (user.Some? && user.value.JObj? ==> Lookup(r, "user") == Some(JObj(NormalizeUser(user.value.fields, e164))))
      && (!(user.Some? && user.value.JObj?) ==> Lookup(r, "user") == user)
      && (data.Some? && data.value.JObj? ==> Lookup(r, "data") == Some(JObj(NormalizeData(data.value.fields, normalizeEmail))))
      && (!(data.Some? && data.value.JObj?) ==> Lookup(r, "data") == data)
      && (forall m :: m != "payload_version" && m != "user" && m != "data" ==> Lookup(r, m) == Lookup(fs, m))
  {
    NormalizeUserField(fs, e164, normalizeEmail);
    NormalizeDataField(fs, e164, normalizeEmail);
    NormalizeOtherFields(fs, e164, normalizeEmail);
  }

  lemma NormalizeUserField(fs: seq<(string, Json)>, e164: string -> Option<string>, normalizeEmail: string -> Option<string>)
    ensures var r := Normalize(JObj(fs), e164, normalizeEmail).fields;
      var user := Lookup(fs, "user");
      && (user.Some? && user.value.JObj? ==> Lookup(r, "user") == Some(JObj(NormalizeUser(user.value.fields, e164))))
      && (!(user.Some? && user.value.JObj?) ==> Lookup(r, "user") == user)
  {
    var user := Lookup(fs, "user");
    if user.Some? && user.value.JObj? {
      var u := user.value.fields;
      if !(Truthy(Lookup(u, "email")) || Truthy(Lookup(u, "phone"))) {
        assert NormalizeUser(u, e164) == u;
        assert user.value == JObj(u);
      }
    }
  }

  lemma NormalizeDataField(fs: seq<(string, Json)>, e164: string -> Option<string>, normalizeEmail: string -> Option<string>)
    ensures var r := Normalize(JObj(fs), e164, normalizeEmail).fields;
      var data := Lookup(fs, "data");
      && Lookup(r, "payload_version") == Or(Lookup(fs, "payload_version"), Some(JStr("1.0")))
      && (data.Some? && data.value.JObj? ==> Lookup(r, "data") == Some(JObj(NormalizeData(data.value.fields, normalizeEmail))))
      && (!(data.Some? && data.value.JObj?) ==> Lookup(r, "data") == data)
  {
  }

  lemma NormalizeOtherFields(fs: seq<(string, Json)>, e164: string -> Option<string>, normalizeEmail: string -> Option<string>)
    ensures var r := Normalize(JObj(fs), e164, normalizeEmail).fields;
      forall m :: m != "payload_version" && m != "user" && m != "data" ==> Lookup(r, m) == Lookup(fs, m)
  {
  }

  /** In `data`, keys and their order are kept, and only string values
      under e-mail keys change. */
  lemma NormalizeDataKeys(fs: seq<(string, Json)>, normalizeEmail: string -> Option<string>)
    ensures Keys(NormalizeData(fs, normalizeEmail)) == Keys(fs)
    ensures forall i :: 0 <= i < |fs| && NormalizeData(fs, normalizeEmail)[i] != fs[i] ==>
      IsEmailKey(fs[i].0) && fs[i].1.JStr?
  {
  }

  /** A normalised accepted payload still satisfies the schema's required
      fields: `source` and `type` are non-empty strings and the version is
      '1.0' or '1.1'. */
  lemma NormalizedPayloadShape(j: Json, isEmail: string -> bool, e164: string -> Option<string>,
                               normalizeEmail: string -> Option<string>)
    requires SchemaAccepts(j, isEmail)
    ensures var n := Normalize(ParseSchema(j, isEmail).value, e164, normalizeEmail);
      n.JObj?
      && NonEmptyString(Lookup(n.fields, "source")) && NonEmptyString(Lookup(n.fields, "type"))
      && Lookup(n.fields, "payload_version").Some? && Lookup(n.fields, "payload_version").value.JStr?
      && IsVersion(Lookup(n.fields, "payload_version").value.s)
  {
    SchemaRequiredFields(j, isEmail);
    NormalizeDataField(ParseSchema(j, isEmail).value.fields, e164, normalizeEmail);
    NormalizeOtherFields(ParseSchema(j, isEmail).value.fields, e164, normalizeEmail);
  }

  /* ---------------------------------------------------------------------
     Standard responses
     --------------------------------------------------------------------- */

  function OptField(name: string, v: Option<Json>): seq<(string, Json)> {
    if v.Some? then [(name, v.value)] else []
  }

  function OptStr(s: Option<string>): Option<Json> {
    if s.Some? then Some(JStr(s.value)) else None
  }

  /** `createSuccessResponse(data, internalEventId)`; properties left
      `undefined` are not written. */
  function SuccessResponse(data: Option<Json>, internalEventId: Option<string>): Json {
    JObj([("status", JStr("success"))] + OptField("internal_event_id", OptStr(internalEventId))
         + OptField("data", data) + [("payload_version", JStr("1.0"))])
  }

  /** `createErrorResponse(message, code, details)`. */
  function ErrorResponse(message: string, code: Option<string>, details: Option<Json>): Json {
    JObj([("status", JStr("error")),
          ("error", JObj([("message", JStr(message))] + OptField("code", OptStr(code)) + OptField("details", details)))])
  }

  /** The error object of a standard response: a message and an optional
      string code. */
  predicate ErrorObjectOk(v: Json) {
    v.JObj?
    && Lookup(v.fields, "message").Some? && Lookup(v.fields, "message").value.JStr?
    && forall i :: 0 <= i < |v.fields| ==> v.fields[i].0 == "code" ==> v.fields[i].1.JStr?
  }

  /** The type `responseSchema` gives each known property. */
  predicate ResponseFieldOk(k: string, v: Json) {
    && (k == "status" ==> v.JStr? && (v.s == "accepted" || v.s == "success" || v.s == "error"))
    && (k == "internal_event_id" || k == "message" ==> v.JStr?)
    && (k == "error" ==> ErrorObjectOk(v))
    && (k == "_idempotent" ==> v.JBool?)
    && (k == "payload_version" ==> v.JStr? && IsVersion(v.s))
  }

  /** `responseSchema`: a status, and every known property of its type. */
  predicate ConformsToResponseSchema(j: Json) {
    j.JObj?
    && Lookup(j.fields, "status").Some?
    && forall i :: 0 <= i < |j.fields| ==> ResponseFieldOk(j.fields[i].0, j.fields[i].1)
  }

  /** A success response is accepted by the response schema, with status
      'success' and version '1.0'. */
  lemma SuccessResponseConforms(data: Option<Json>, id: Option<string>)
    ensures ConformsToResponseSchema(SuccessResponse(data, id))
    ensures Lookup(SuccessResponse(data, id).fields, "status") == Some(JStr("success"))
  {
    var fs := SuccessResponse(data, id).fields;
    var tail := fs[1..];
    assert fs == [("status", JStr("success"))] + tail;
    LookupCons(("status", JStr("success")), tail, "status");
  }

  /** An error response is accepted by the response schema, with status
      'error' and the given message. */
  lemma ErrorResponseConforms(message: string, code: Option<string>, details: Option<Json>)
    ensures ConformsToResponseSchema(ErrorResponse(message, code, details))
    ensures Lookup(ErrorResponse(message, code, details).fields, "status") == Some(JStr("error"))
    ensures var e := Lookup(ErrorResponse(message, code, details).fields, "error");
      e.Some? && e.value.JObj? && Lookup(e.value.fields, "message") == Some(JStr(message))
  {
    var fs := ErrorResponse(message, code, details).fields;
    var err := fs[1].1;
    ErrorObjectConforms(message, code, details);
    assert fs == [("status", JStr("error"))] + [("error", err)];
    LookupCons(("status", JStr("error")), [("error", err)], "status");
    LookupCons(("status", JStr("error")), [("error", err)], "error");
    LookupCons(("error", err), [], "error");
    assert ResponseFieldOk(fs[0].0, fs[0].1);
    assert ResponseFieldOk(fs[1].0, fs[1].1);
  }

  lemma ErrorObjectConforms(message: string, code: Option<string>, details: Option<Json>)
    ensures var err := ErrorResponse(message, code, details).fields[1].1;
      ErrorObjectOk(err) && Lookup(err.fields, "message") == Some(JStr(message))
  {
    var err := ErrorResponse(message, code, details).fields[1].1;
    var c := OptField("code", OptStr(code));
    var d := OptField("details", details);
    assert err.fields == [("message", JStr(message))] + c + d;
    forall i | 0 <= i < |err.fields| ensures err.fields[i].0 == "code" ==> err.fields[i].1.JStr? {
      if i > 0 && i <= |c| {
        assert err.fields[i] == c[i - 1];
      } else if i > |c| {
        assert err.fields[i] == d[i - 1 - |c|];
      }
    }
    assert err.fields == [("message", JStr(message))] + (c + d);
    LookupCons(("message", JStr(message)), c + d, "message");
  }

  /* ---------------------------------------------------------------------
     The validation middleware
     --------------------------------------------------------------------- */

  /** The text parsed: the raw body when it is non-empty, otherwise
      `JSON.stringify(req.body || {})`. */
  function BodyText(req: Request): string {
    if req.rawBody.Some? && req.rawBody.value != "" then req.rawBody.value
    else Stringify(Or(req.body, Some(JObj([]))).value)
  }

  function InvalidPayloadBody(details: Json): Json {
    JObj([("error", JObj([("message", JStr("Invalid payload")), ("details", details)]))])
  }

  /** The library services validation relies on: `JSON.parse` (`None` when
      it throws), the schema's e-mail check and its issue list, phone
      number formatting and e-mail normalisation. */
  datatype Parsers = Parsers(
    parse: string -> Option<Json>,
    isEmail: string -> bool,
    issues: Json -> Json,
    e164: string -> Option<string>,
    normalizeEmail: string -> Option<string>)

  datatype Validated = Validated(outcome: Outcome, req: Request)

  /** `validateAndNormalizePayload`. */
  function ValidateAndNormalize(ps: Parsers, req: Request): (r: Validated)
    ensures r.outcome.Next? || (r.outcome.Respond? && r.outcome.reply.status == 400)
    ensures !r.outcome.Next? ==> r.req == req
    ensures ps.parse(BodyText(req)).None? ==> r.outcome == Respond(ErrorReply(400, "Invalid JSON body"))
  {
    var parsed := ps.parse(BodyText(req));
    if parsed.None? then Validated(Respond(ErrorReply(400, "Invalid JSON body")), req)
    else
      var data := ParseSchema(parsed.value, ps.isEmail);
      if data.None? then Validated(Respond(JsonReply(400, InvalidPayloadBody(ps.issues(parsed.value)))), req)
      else Validated(Next, req.(normalizedPayload := Some(Normalize(data.value, ps.e164, ps.normalizeEmail))))
  }

  /** The request goes on exactly when its body parses and satisfies the
      schema, and then only the normalised payload is attached to it. */
  lemma ValidateAccepts(ps: Parsers, req: Request)
    ensures var r := ValidateAndNormalize(ps, req);
      var parsed := ps.parse(BodyText(req));
      (r.outcome.Next? <==> parsed.Some? && SchemaAccepts(parsed.value, ps.isEmail))
      && (r.outcome.Next? ==>
            r.req == req.(normalizedPayload := Some(Normalize(ParseSchema(parsed.value, ps.isEmail).value, ps.e164, ps.normalizeEmail))))
      && (parsed.Some? && !SchemaAccepts(parsed.value, ps.isEmail) ==>
            r.outcome == Respond(JsonReply(400, InvalidPayloadBody(ps.issues(parsed.value)))))
  {
  }

  /** Whatever goes on carries a payload whose `source` and `type` are
      non-empty strings and whose version is '1.0' or '1.1'. */
  lemma ValidatedPayloadShape(ps: Parsers, req: Request)
    requires ValidateAndNormalize(ps, req).outcome.Next?
    ensures var n := ValidateAndNormalize(ps, req).req.normalizedPayload;
      n.Some? && n.value.JObj?
      && NonEmptyString(Lookup(n.value.fields, "source")) && NonEmptyString(Lookup(n.value.fields, "type"))
      && Lookup(n.value.fields, "payload_version").Some? && Lookup(n.value.fields, "payload_version").value.JStr?
      && IsVersion(Lookup(n.value.fields, "payload_version").value.s)
  {
    var parsed := ps.parse(BodyText(req));
    NormalizedPayloadShape(parsed.value, ps.isEmail, ps.e164, ps.normalizeEmail);
  }
}
