/** One-time passwords (`src/services/otp.ts`, `src/controllers/otpController.ts`):
    a six-digit code is generated, stored only as a hash under a fresh
    id, and verified at most three times before the record locks.
    Randomness, uuid and argon2 are parameters: `draw` is the value of
    `randomInt(0, 1000000)`, `hashOf` is `argon2.hash`, and a `Backend`
    carries `argon2.verify` and the database call that fails, if any. */
module Otp {
  import opened Options
  import opened Text
  import opened Json
  import opened Http

  const MaxAttempts: int := 3
  const DefaultTtlSec: int := 600

  /** Every number of at most `k` digits prints in at most `k` characters. */
  lemma {:induction false} NatToStringShort(n: nat, k: nat, bound: nat)
    requires k >= 1 && bound == Pow10(k) && n < bound
    ensures |NatToString(n)| <= k
    decreases k
  {
    if n >= 10 {
      assert Pow10(k) == 10 * Pow10(k - 1);
      NatToStringShort(n / 10, k - 1, Pow10(k - 1));
    }
  }

  function Pow10(k: nat): (p: nat)
    ensures p >= 1
  {
    if k == 0 then 1 else 10 * Pow10(k - 1)
  }

  /** `String(randomInt(0, 1000000)).padStart(6, '0')`: six decimal digits
      whose value is the number drawn. */
  function OtpCode(draw: nat): (code: string)
    requires draw < 1000000
    ensures |code| == 6
    ensures forall i :: 0 <= i < 6 ==> IsDigit(code[i])
    ensures DigitsValue(code) == draw
  {
    PaddedCode(draw);
    PadStart(NatToString(draw), 6, '0')
  }

  lemma PaddedCode(draw: nat)
    requires draw < 1000000
    ensures var code := PadStart(NatToString(draw), 6, '0');
      |code| == 6 && (forall i :: 0 <= i < 6 ==> IsDigit(code[i])) && DigitsValue(code) == draw
  {
    var s := NatToString(draw);
    assert Pow10(6) == 1000000;
    NatToStringShort(draw, 6, Pow10(6));
    var code := PadStart(s, 6, '0');
    assert code == Repeat('0', 6 - |s|) + s;
    LeadingZerosValue(6 - |s|, s);
    NatToStringValue(draw);
  }

  /** Different draws give different codes. */
  lemma OtpCodeInjective(a: nat, b: nat)
    requires a < 1000000 && b < 1000000 && a != b
    ensures OtpCode(a) != OtpCode(b)
  {
  }

  /** A document of the `otps` collection. `expiresAt` is `None` when the
      field is missing (a record written by other code). */
  datatype OtpRecord = OtpRecord(otpId: string, subjectType: Json, subjectId: Json, hash: string,
                                 attempts: int, expiresAt: Option<int>, createdAt: int)

  /** The collection, keyed by its unique `otp_id`. */
  type Otps = map<string, OtpRecord>

  datatype Generated = Generated(otpId: string, code: string, otps: Otps)

  /** The expiry of a code generated at `nowMs`: `ttlSeconds` later, 600
      seconds when no lifetime is given. */
  function ExpiryMs(ttlSeconds: Option<int>, nowMs: int): int {
    nowMs + ttlSeconds.GetOr(DefaultTtlSec) * 1000
  }

  /** `generateOtp`. `fault` is a rejection of `argon2.hash`, `getDb` or
      `insertOne` for a reason other than a taken id; none of them has
      written anything when it rejects. The call fails (`None`) on a fault
      and when the id is taken, and the collection is then unchanged. */
  function GenerateOtp(subjectType: Json, subjectId: Json, ttlSeconds: Option<int>, draw: nat,
                       hashOf: string -> string, otpId: string, nowMs: int, fault: Option<Failure>, otps: Otps): (r: Option<Generated>)
    requires draw < 1000000
    ensures r.None? <==> fault.Some? || otpId in otps
    ensures r.Some? ==>
      r.value.otpId == otpId && r.value.code == OtpCode(draw)
      && otpId in r.value.otps && r.value.otps == otps[otpId := r.value.otps[otpId]]
      && var rec := r.value.otps[otpId];
         rec.hash == hashOf(r.value.code) && rec.attempts == 0 && rec.createdAt == nowMs
         && rec.subjectType == subjectType && rec.subjectId == subjectId
         && rec.expiresAt == Some(ExpiryMs(ttlSeconds, nowMs))
  {
    if fault.Some? then None
    else if otpId in otps then None
    else
      var code := OtpCode(draw);
      var rec := OtpRecord(otpId, subjectType, subjectId, hashOf(code), 0, Some(ExpiryMs(ttlSeconds, nowMs)), nowMs);
      Some(Generated(otpId, code, otps[otpId := rec]))
  }

  /** `new Date(expires_at) < new Date()`. */
  predicate Expired(rec: OtpRecord, nowMs: int) {
    rec.expiresAt.Some? && rec.expiresAt.value < nowMs
  }

  /** The record can still be tried: present, unexpired, under three attempts. */
  predicate Open(otps: Otps, otpId: string, nowMs: int) {
    otpId in otps && !Expired(otps[otpId], nowMs) && otps[otpId].attempts < MaxAttempts
  }

  datatype Verdict = Verdict(valid: bool, remaining: Option<int>)

  /** How `verifyOtp` settles: with a verdict, or with what it threw. */
  datatype Checked = Judged(verdict: Verdict) | Threw(error: Failure)

  datatype Verified = Verified(result: Checked, otps: Otps)

  const Refused: Verdict := Verdict(false, Some(0))

  /** The database calls of `verifyOtp`, in order: `getDb` with the first
      `findOne`, `deleteOne`, `updateOne`, and the second `findOne`. */
  datatype DbStep = Fetch | Delete | Increment | Reread

  /** What the collaborators of one `verifyOtp` call do: `verify` is
      `argon2.verify`, `None` when it throws `verifyError` (a code that is
      not a string, say); `fault` is the database call that rejects, if
      any, and its error. */
  datatype Backend = Backend(verify: (string, Json) -> Option<bool>, verifyError: Failure,
                             fault: Option<(DbStep, Failure)>)

  function FaultAt(be: Backend, step: DbStep): (e: Option<Failure>)
    ensures e.Some? <==> be.fault.Some? && be.fault.value.0 == step
  {
    if be.fault.Some? && be.fault.value.0 == step then Some(be.fault.value.1) else None
  }

  /** The record after one more failed attempt. */
  function Bumped(otps: Otps, otpId: string): Otps
    requires otpId in otps
  {
    otps[otpId := otps[otpId].(attempts := otps[otpId].attempts + 1)]
  }

  /** `Math.max(0, 3 - attempts)`. */
  function Remaining(attempts: int): (n: int)
    ensures 0 <= n && (0 <= attempts ==> n <= MaxAttempts)
    ensures n == 0 <==> attempts >= MaxAttempts
    ensures n > 0 ==> attempts + n == MaxAttempts
  {
    if MaxAttempts - attempts > 0 then MaxAttempts - attempts else 0
  }

  /** `verifyOtp`. A rejected database call or a throwing `argon2.verify`
      makes the call throw; only a failure of the second `findOne` comes
      after a write, so it is the only one that leaves the collection
      changed. */
  function VerifyOtp(otpId: string, code: Json, nowMs: int, be: Backend, otps: Otps): (r: Verified)
    ensures FaultAt(be, Fetch).Some? ==> r == Verified(Threw(FaultAt(be, Fetch).value), otps)
    ensures FaultAt(be, Fetch).None? && !Open(otps, otpId, nowMs) ==> r == Verified(Judged(Refused), otps)
    ensures FaultAt(be, Fetch).None? && Open(otps, otpId, nowMs) && be.verify(otps[otpId].hash, code).None? ==>
      r == Verified(Threw(be.verifyError), otps)
    ensures r.result.Judged? && r.result.verdict.valid <==>
      FaultAt(be, Fetch).None? && Open(otps, otpId, nowMs) && be.verify(otps[otpId].hash, code) == Some(true)
      && FaultAt(be, Delete).None?
    ensures r.result.Judged? && r.result.verdict.valid ==> r.result.verdict.remaining.None? && r.otps == otps - {otpId}
    ensures FaultAt(be, Fetch).None? && Open(otps, otpId, nowMs) && be.verify(otps[otpId].hash, code) == Some(false) ==>
      r == (if FaultAt(be, Increment).Some? then Verified(Threw(FaultAt(be, Increment).value), otps)
            else if FaultAt(be, Reread).Some? then Verified(Threw(FaultAt(be, Reread).value), Bumped(otps, otpId))
            else Verified(Judged(Verdict(false, Some(Remaining(otps[otpId].attempts + 1)))), Bumped(otps, otpId)))
    ensures r.result.Threw? ==> r.otps == otps || (be.fault.Some? && be.fault.value.0 == Reread)
  {
    if FaultAt(be, Fetch).Some? then Verified(Threw(FaultAt(be, Fetch).value), otps)
    else if otpId !in otps then Verified(Judged(Refused), otps)
    else
      var rec := otps[otpId];
      if Expired(rec, nowMs) then Verified(Judged(Refused), otps)
      else if rec.attempts >= MaxAttempts then Verified(Judged(Refused), otps)
      else match be.verify(rec.hash, code)
        case None => Verified(Threw(be.verifyError), otps)
        case Some(true) =>
          if FaultAt(be, Delete).Some? then Verified(Threw(FaultAt(be, Delete).value), otps)
          else Verified(Judged(Verdict(true, None)), otps - {otpId})
        case Some(false) =>
          if FaultAt(be, Increment).Some? then Verified(Threw(FaultAt(be, Increment).value), otps)
          else
            var updated := Bumped(otps, otpId);
            if FaultAt(be, Reread).Some? then Verified(Threw(FaultAt(be, Reread).value), updated)
            else Verified(Judged(Verdict(false, Some(Remaining(updated[otpId].attempts)))), updated)
  }

  /** Every stored attempt count lies in [0, 3]. */
  predicate AttemptsBounded(otps: Otps) {
    forall id :: id in otps ==> 0 <= otps[id].attempts <= MaxAttempts
  }

  /** Verifying keeps every attempt count within [0, 3], whatever fails,
      and a reported remaining count lies in [0, 2]. */
  lemma AttemptsStayBounded(otpId: string, code: Json, nowMs: int, be: Backend, otps: Otps)
    requires AttemptsBounded(otps)
    ensures var r := VerifyOtp(otpId, code, nowMs, be, otps);
      AttemptsBounded(r.otps) && (r.result.Judged? && r.result.verdict.remaining.Some? ==> 0 <= r.result.verdict.remaining.value <= 2)
  {
  }

  lemma GenerateKeepsBound(subjectType: Json, subjectId: Json, ttlSeconds: Option<int>, draw: nat,
                           hashOf: string -> string, otpId: string, nowMs: int, fault: Option<Failure>, otps: Otps)
    requires draw < 1000000 && AttemptsBounded(otps)
    ensures var r := GenerateOtp(subjectType, subjectId, ttlSeconds, draw, hashOf, otpId, nowMs, fault, otps);
      r.Some? ==> AttemptsBounded(r.value.otps)
  {
    var r := GenerateOtp(subjectType, subjectId, ttlSeconds, draw, hashOf, otpId, nowMs, fault, otps);
    if r.Some? {
      forall id | id in r.value.otps ensures 0 <= r.value.otps[id].attempts <= MaxAttempts {
        if id != otpId { assert id in otps; }
      }
    }
  }

  /** Guesses submitted one after another against the same record, with
      the same collaborators. */
  function Guesses(otpId: string, codes: seq<Json>, nowMs: int, be: Backend, otps: Otps): (r: Otps)
    decreases |codes|
  {
    if codes == [] then otps
    else Guesses(otpId, codes[1..], nowMs, be, VerifyOtp(otpId, codes[0], nowMs, be, otps).otps)
  }

  /** The attempt count after `k` wrong guesses starting from `a`: one
      more per guess until three, and no change once at three or more. */
  function AfterWrong(a: int, k: nat): int {
    if a >= MaxAttempts then a else if a + k < MaxAttempts then a + k else MaxAttempts
  }

  /** Wrong guesses against an unexpired record, with every database call
      succeeding, only raise its attempt count, as `AfterWrong` says, and
      change nothing else. */
  lemma {:induction false} WrongGuessesCount(otpId: string, codes: seq<Json>, nowMs: int, be: Backend, otps: Otps)
    requires otpId in otps && !Expired(otps[otpId], nowMs) && be.fault.None?
    requires forall i :: 0 <= i < |codes| ==> be.verify(otps[otpId].hash, codes[i]) == Some(false)
    ensures Guesses(otpId, codes, nowMs, be, otps)
         == otps[otpId := otps[otpId].(attempts := AfterWrong(otps[otpId].attempts, |codes|))]
    decreases |codes|
  {
    var rec := otps[otpId];
    if codes == [] {
      assert otps[otpId := rec] == otps;
    } else {
      var next := VerifyOtp(otpId, codes[0], nowMs, be, otps).otps;
      if rec.attempts >= MaxAttempts {
        assert next == otps;
        WrongGuessesCount(otpId, codes[1..], nowMs, be, next);
        assert otps[otpId := rec] == otps;
      } else {
        assert next == otps[otpId := rec.(attempts := rec.attempts + 1)];
        WrongGuessesCount(otpId, codes[1..], nowMs, be, next);
      }
    }
  }

  /** A code is good for one use: once accepted, the record is gone, so
      the same code presented again is refused. */
  lemma UsedOnce(otpId: string, code: Json, nowMs: int, laterMs: int, be: Backend, later: Backend, otps: Otps)
    requires FaultAt(later, Fetch).None?
    requires var r := VerifyOtp(otpId, code, nowMs, be, otps); r.result.Judged? && r.result.verdict.valid
    ensures var r := VerifyOtp(otpId, code, nowMs, be, otps);
      VerifyOtp(otpId, code, laterMs, later, r.otps) == Verified(Judged(Refused), r.otps)
  {
  }

  /** After three wrong codes the record is locked: even the right code is
      refused, and nothing more is written, unless the first lookup
      itself fails; argon2 is not consulted. */
  lemma LockedAfterThreeFailures(otpId: string, wrong: seq<Json>, right: Json, nowMs: int,
                                 be: Backend, later: Backend, otps: Otps)
    requires otpId in otps && !Expired(otps[otpId], nowMs) && otps[otpId].attempts == 0 && be.fault.None?
    requires |wrong| == 3 && forall i :: 0 <= i < 3 ==> be.verify(otps[otpId].hash, wrong[i]) == Some(false)
    requires FaultAt(later, Fetch).None?
    ensures var after := Guesses(otpId, wrong, nowMs, be, otps);
      VerifyOtp(otpId, right, nowMs, later, after) == Verified(Judged(Refused), after)
  {
    WrongGuessesCount(otpId, wrong, nowMs, be, otps);
  }

  /** The code a fresh record was generated with verifies within its
      lifetime, and the record is then removed, leaving the collection as
      it was before generation. */
  lemma GenerateThenVerify(subjectType: Json, subjectId: Json, draw: nat, hashOf: string -> string,
                           be: Backend, otpId: string, nowMs: int, laterMs: int, otps: Otps)
    requires draw < 1000000 && otpId !in otps && be.fault.None?
    requires be.verify(hashOf(OtpCode(draw)), JStr(OtpCode(draw))) == Some(true)
    requires laterMs <= nowMs + DefaultTtlSec * 1000
    ensures var g := GenerateOtp(subjectType, subjectId, None, draw, hashOf, otpId, nowMs, None, otps).value;
      VerifyOtp(otpId, JStr(g.code), laterMs, be, g.otps) == Verified(Judged(Verdict(true, None)), otps)
  {
    var g := GenerateOtp(subjectType, subjectId, None, draw, hashOf, otpId, nowMs, None, otps).value;
    assert g.otps - {otpId} == otps;
  }

  /** The message the controller asks the messaging service to send. */
  datatype OtpMessage = OtpMessage(channel: string, to: string, templateId: string, params: Json, correlationId: Option<string>)

  datatype GenerateHandled = GenerateHandled(outcome: Outcome, otps: Otps, message: Option<OtpMessage>)

  /** `String(x || '').trim()`. */
  function TrimmedField(body: Option<Json>, k: string): string {
    Trim(OptToStr(Or(BodyField(body, k), Some(JStr("")))))
  }

  /** `generateOtpController`. A `fault` of the service propagates as it
      is, and an insert on a taken id as `insertError`. Send failures are
      swallowed after the reply, so the message is only what is asked for. */
  function GenerateOtpController(body: Option<Json>, sendOnGenerate: bool, correlationId: Option<string>, draw: nat,
                                 hashOf: string -> string, otpId: string, nowMs: int, fault: Option<Failure>,
                                 insertError: Failure, otps: Otps): (r: GenerateHandled)
    requires draw < 1000000
    ensures !Truthy(BodyField(body, "subject_type")) || !Truthy(BodyField(body, "subject_id")) ==>
      r == GenerateHandled(Respond(ErrorReply(400, "subject_type and subject_id are required")), otps, None)
    ensures Truthy(BodyField(body, "subject_type")) && Truthy(BodyField(body, "subject_id")) && fault.Some? ==>
      r == GenerateHandled(Fail(fault.value), otps, None)
    ensures Truthy(BodyField(body, "subject_type")) && Truthy(BodyField(body, "subject_id")) && fault.None? ==>
      (r.outcome.Fail? <==> otpId in otps)
      && (r.outcome.Fail? ==> r == GenerateHandled(Fail(insertError), otps, None))
      && (r.outcome.Respond? ==> r.outcome.reply.status == 200)
    ensures r.outcome.Respond? && r.outcome.reply.status == 200 ==>
      r.outcome.reply.body == JsonBody(JObj([("otp_id", JStr(otpId))])) && otpId !in otps && otpId in r.otps
    ensures r.message.Some? <==>
      r.outcome.Respond? && r.outcome.reply.status == 200 && sendOnGenerate
      && TrimmedField(body, "to") != "" && TrimmedField(body, "channel") != ""
    ensures r.message.Some? ==>
      r.message.value == OtpMessage(TrimmedField(body, "channel"), TrimmedField(body, "to"), "otp",
                                    JObj([("code", JStr(OtpCode(draw)))]), correlationId)
  {
    var subjectType := BodyField(body, "subject_type");
    var subjectId := BodyField(body, "subject_id");
    if !Truthy(subjectType) || !Truthy(subjectId) then
      GenerateHandled(Respond(ErrorReply(400, "subject_type and subject_id are required")), otps, None)
    else
      var g := GenerateOtp(subjectType.value, subjectId.value, None, draw, hashOf, otpId, nowMs, fault, otps);
      if g.None? then GenerateHandled(Fail(if fault.Some? then fault.value else insertError), otps, None)
      else
        var reply := JsonReply(200, JObj([("otp_id", JStr(g.value.otpId))]));
        var to := TrimmedField(body, "to");
        var channel := TrimmedField(body, "channel");
        var message := if sendOnGenerate && to != "" && channel != ""
                       then Some(OtpMessage(channel, to, "otp", JObj([("code", JStr(g.value.code))]), correlationId))
                       else None;
        GenerateHandled(Respond(reply), g.value.otps, message)
  }

  /** The reply never carries the code: its only field is the id. */
  lemma GenerateReplyHidesCode(body: Option<Json>, sendOnGenerate: bool, correlationId: Option<string>, draw: nat,
                               hashOf: string -> string, otpId: string, nowMs: int, fault: Option<Failure>,
                               insertError: Failure, otps: Otps)
    requires draw < 1000000
    ensures var r := GenerateOtpController(body, sendOnGenerate, correlationId, draw, hashOf, otpId, nowMs, fault, insertError, otps);
      r.outcome.Respond? && r.outcome.reply.body.JsonBody? ==>
        Get(r.outcome.reply.body.json, "code").None?
  {
  }

  function VerdictJson(v: Verdict): Json {
    JObj([("valid", JBool(v.valid))] + if v.remaining.Some? then [("remaining", JNum(v.remaining.value))] else [])
  }

  /** `verifyOtpController`: the service's verdict with 200, or what it
      threw for the error handler. A non-string `otp_id` is taken to match
      no stored id; Mongo would read an object such as `{"$ne": null}` as
      a query operator instead. */
  function VerifyOtpController(body: Option<Json>, nowMs: int, be: Backend, otps: Otps): (r: (Outcome, Otps))
    ensures !Truthy(BodyField(body, "otp_id")) || !Truthy(BodyField(body, "code")) ==>
      r == (Respond(ErrorReply(400, "otp_id and code are required")), otps)
    ensures Truthy(BodyField(body, "otp_id")) && Truthy(BodyField(body, "code")) ==>
      var id := BodyField(body, "otp_id").value;
      var v := if id.JStr? then VerifyOtp(id.s, BodyField(body, "code").value, nowMs, be, otps)
               else Verified(Judged(Refused), otps);
      r.1 == v.otps
      && r.0 == match v.result { case Judged(verdict) => Respond(JsonReply(200, VerdictJson(verdict)))
                                  case Threw(e) => Fail(e) }
  {
    var id := BodyField(body, "otp_id");
    var code := BodyField(body, "code");
    if !Truthy(id) || !Truthy(code) then (Respond(ErrorReply(400, "otp_id and code are required")), otps)
    else
      var v := if id.value.JStr? then VerifyOtp(id.value.s, code.value, nowMs, be, otps) else Verified(Judged(Refused), otps);
      match v.result
      case Judged(verdict) => (Respond(JsonReply(200, VerdictJson(verdict))), v.otps)
      case Threw(e) => (Fail(e), v.otps)
  }

  /** A store that cannot be reached fails the request, which the error
      handler answers, with nothing written; the body is still checked
      first. */
  lemma ControllerStoreDown(body: Option<Json>, nowMs: int, be: Backend, otps: Otps)
    requires Truthy(BodyField(body, "otp_id")) && BodyField(body, "otp_id").value.JStr?
    requires Truthy(BodyField(body, "code"))
    requires FaultAt(be, Fetch).Some?
    ensures VerifyOtpController(body, nowMs, be, otps) == (Fail(FaultAt(be, Fetch).value), otps)
  {
  }
}
