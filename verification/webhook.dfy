/** `registerWebhookRoutes`: the POST /webhook/entry route, its fixed chain
    of stages, and the error handler behind it. A stage either hands the
    request on or answers it; an error a stage throws is answered by the
    error handler. */
module Webhook {
  import opened Options
  import opened Text
  import opened Json
  import opened Hmac
  import opened Http
  import opened Signature
  import Idempotency
  import Dedup
  import opened Payload
  import opened Forward
  import opened Middleware

  /** Everything the route depends on besides the request and the stores:
      configuration, the library services and the clock. `limiter` is the
      rate limiter's verdict on this request. `finishUpdateFails` is the
      recording of the response failing. `handler` chooses between the
      webhook handler as the controller is written and as it is intended
      (see `Forward.HandleEntry`). */
  datatype WebhookEnv = WebhookEnv(
    blockedCsv: string,
    blockedStore: Option<set<string>>,
    limiter: Outcome,
    hmacSecret: Option<string>,
    mac: (string, string) -> seq<Byte>,
    toNumber: string -> Option<real>,
    nowMs: int,
    idempotencyEnabled: bool,
    ttlSec: int,
    sha: string -> string,
    idemInsertError: Option<Failure>,
    finishUpdateFails: bool,
    parsers: Parsers,
    day: string,
    dedupInsertError: Option<Failure>,
    forwardEnv: ForwardEnv,
    transport: Posted -> Transport,
    rejection: Transport -> Failure,
    handler: HandlerVersion)

  /** `AsWritten` models the controller; `Intended` the corrected one. */
  datatype HandlerVersion = AsWritten | Intended

  /** `idempotency_keys` and `processed_events`. */
  datatype Stores = Stores(idem: Idempotency.Store, events: Dedup.Events)

  /** The stage that answered. */
  datatype Stage = AtParser | AtBlockList | AtRateLimit | AtSignature | AtIdempotency | AtValidation | AtDedup | AtHandler

  datatype Run = Run(reply: Reply, answeredBy: Stage, stores: Stores, sent: Option<Posted>)

  /** What `JSON.stringify` makes of a Buffer (character codes stand for
      the bytes). */
  function BufferJson(body: string): Json {
    JObj([("type", JStr("Buffer")), ("data", JArr(seq(|body|, i requires 0 <= i < |body| => JNum(body[i] as int))))])
  }

  /* ---------------------------------------------------------------------
     The raw-body parser
     --------------------------------------------------------------------- */

  /** The parser's size limit, `'1mb'`, in bytes. */
  const RawLimit: int := 1048576

  /** What the parser passes on for a body over the limit: an
      `http-errors` error, which sets both `status` and `statusCode`. */
  const BodyTooLarge: Failure := Failure(Some("request entity too large"), Some(413), Some(413))

  /** What the raw-body parser makes of a request: it read the body into a
      Buffer, skipped it (leaving `req.body` the empty object), or refused
      it with an error for the error handler. */
  datatype BodyParse = Read(body: string) | Skipped | Refused(error: Failure)

  /** `bodyParser.raw` for every media type with a `'1mb'` limit, as body-parser 1.x
      (the one Express 4 depends on) behaves. `hasBody`: the request
      announces a body (a Content-Length or a Transfer-Encoding);
      `typeMatches`: it carries a well-formed Content-Type, which the
      any-type pattern then matches; `streamError`: the reader's other refusals (an aborted
      request, an unsupported Content-Encoding, a length mismatch);
      `body`: the bytes, after any decompression. */
  function RawParser(hasBody: bool, typeMatches: bool, streamError: Option<Failure>, body: string): (p: BodyParse)
    ensures p.Skipped? <==> !hasBody || !typeMatches
    ensures p.Read? ==> p.body == body && |body| <= RawLimit
    ensures p.Refused? && streamError.None? ==> p.error == BodyTooLarge
  {
    if !hasBody || !typeMatches then Skipped
    else if streamError.Some? then Refused(streamError.value)
    else if |body| > RawLimit then Refused(BodyTooLarge)
    else Read(body)
  }

  /** A body of exactly 1 MB is read; one byte more is refused with 413. */
  lemma RawLimitBoundary(body: string, extra: char)
    requires |body| == RawLimit
    ensures RawParser(true, true, None, body) == Read(body)
    ensures RawParser(true, true, None, body + [extra]) == Refused(BodyTooLarge)
    ensures ErrorStatus(BodyTooLarge) == 413
  {
  }

  /** A read body is left as the Buffer in `req.body`, and the next stage
      exposes it as `rawBody` too. */
  function CaptureRawBody(body: string, req: Request): Request {
    req.(rawBody := Some(body), body := Some(BufferJson(body)))
  }

  /** The request the stages after the parser see. A skipped body leaves
      the empty object in `req.body`, and so in `rawBody`: no Buffer, which
      the signature stage is told separately. */
  function Expose(parse: BodyParse, req: Request): (r: Request)
    requires !parse.Refused?
    ensures r.ip == req.ip && r.headers == req.headers && r.correlationId == req.correlationId
    ensures parse.Read? ==> r.rawBody == Some(parse.body)
  {
    if parse.Read? then CaptureRawBody(parse.body, req) else req.(rawBody := None, body := Some(JObj([])))
  }

  /** The reply an answering stage produces: its own, or the error
      handler's for what it threw. */
  function ReplyOf(o: Outcome, req: Request): Reply
    requires !o.Next?
  {
    match o
    case Respond(reply) => reply
    case Fail(e) => ErrorHandler(e, req)
  }

  /** The calls the captured response makes on `res`. */
  function ReplyCalls(reply: Reply): seq<Idempotency.SendCall> {
    match reply.body
    case JsonBody(j) => [Idempotency.JsonCall(j)]
    case TextBody(t) => [Idempotency.SendText(t)]
    case NoBody => [Idempotency.SendEmpty]
  }

  /** The stages after idempotency: validation, deduplication and the
      handler. */
  datatype Tail = Tail(reply: Reply, answeredBy: Stage, events: Dedup.Events, sent: Option<Posted>)

  function RunTail(env: WebhookEnv, req: Request, events: Dedup.Events): (t: Tail)
    ensures t.answeredBy in {AtValidation, AtDedup, AtHandler}
    ensures t.sent.Some? ==> t.answeredBy == AtHandler
  {
    var v := ValidateAndNormalize(env.parsers, req);
    if !v.outcome.Next? then Tail(ReplyOf(v.outcome, req), AtValidation, events, None)
    else
      var d := Dedup.Deduplicate(env.sha, env.day, env.nowMs, env.dedupInsertError, v.req, events);
      if !d.outcome.Next? then Tail(ReplyOf(d.outcome, d.req), AtDedup, d.events, None)
      else
        var h := if env.handler == AsWritten
                 then HandleEntryAsWritten(env.forwardEnv, env.transport, env.rejection, d.req)
                 else HandleEntry(env.forwardEnv, env.transport, env.rejection, d.req);
        Tail(ReplyOf(h.outcome, d.req), AtHandler, d.events, h.sent)
  }

  /** The signature stage, on a Buffer or on the parser's empty object. */
  function SignatureStage(env: WebhookEnv, secret: string, buffered: bool, req: Request): (o: Outcome)
    ensures !buffered ==> !o.Next?
  {
    if buffered then VerifySignature(secret, env.mac, env.toNumber, env.nowMs, req)
    else VerifySignatureNoBuffer(env.toNumber, env.nowMs, req)
  }

  /** The stages between the parser and idempotency: block list, rate
      limiter and signature. `None` when all three hand the request on,
      which needs a Buffer. */
  function Gate(env: WebhookEnv, secret: string, buffered: bool, req: Request): (g: Option<(Reply, Stage)>)
    ensures g.Some? ==> g.value.1 == AtBlockList || g.value.1 == AtRateLimit || g.value.1 == AtSignature
    ensures !buffered ==> g.Some?
  {
    var blocked := BlockList(env.blockedCsv, env.blockedStore, req);
    if !blocked.Next? then Some((ReplyOf(blocked, req), AtBlockList))
    else if !env.limiter.Next? then Some((ReplyOf(env.limiter, req), AtRateLimit))
    else
      var sig := SignatureStage(env, secret, buffered, req);
      if !sig.Next? then Some((ReplyOf(sig, req), AtSignature)) else None
  }

  /** The idempotency stage, or a stage that just calls next when
      ENABLE_IDEMPOTENCY_MW is off. */
  function IdemStage(env: WebhookEnv, req: Request, idem: Idempotency.Store): (a: Idempotency.Admission)
    ensures !env.idempotencyEnabled ==> a == Idempotency.Admission(Next, idem)
  {
    if env.idempotencyEnabled then Idempotency.Admit(env.ttlSec, env.nowMs, env.sha, env.idemInsertError, req, idem)
    else Idempotency.Admission(Next, idem)
  }

  /** Whether the idempotency stage claimed the request's key, so that the
      response will be recorded under it. */
  predicate Claims(env: WebhookEnv, req: Request, idem: Idempotency.Store) {
    env.idempotencyEnabled && Idempotency.IdemKey(req) != "" && Idempotency.IdemKey(req) !in idem
    && env.idemInsertError.None?
  }

  /** The `finish` hook of a claimed key records the reply. */
  function Record(env: WebhookEnv, req: Request, before: Idempotency.Store, after: Idempotency.Store, reply: Reply): Idempotency.Store {
    if Claims(env, req, before)
    then Idempotency.Finish(after, Idempotency.IdemKey(req), env.nowMs, reply.status,
                            Idempotency.Captured(ReplyCalls(reply)), env.finishUpdateFails)
    else after
  }

  /** One delivery to POST /webhook/entry, given what the raw-body parser
      made of it. The route exists only when HMAC_SECRET was set at
      registration (building the signature stage throws otherwise). */
  function Webhook(env: WebhookEnv, parse: BodyParse, req: Request, stores: Stores): (r: Run)
    requires SignatureSecret(env.hmacSecret).Some?
    ensures r.sent.Some? ==> r.answeredBy == AtHandler
  {
    if parse.Refused? then Run(ErrorHandler(parse.error, req), AtParser, stores, None)
    else
    var r0 := Expose(parse, req);
    match Gate(env, SignatureSecret(env.hmacSecret).value, parse.Read?, r0)
    case Some((reply, stage)) => Run(reply, stage, stores, None)
    case None =>
      var adm := IdemStage(env, r0, stores.idem);
      if !adm.outcome.Next? then Run(ReplyOf(adm.outcome, r0), AtIdempotency, Stores(adm.store, stores.events), None)
      else
        var t := RunTail(env, r0, stores.events);
        Run(t.reply, t.answeredBy, Stores(Record(env, r0, stores.idem, adm.store, t.reply), t.events), t.sent)
  }

  /** A stage between the parser and idempotency that answers writes
      nothing and sends nothing. */
  lemma GateWritesNothing(env: WebhookEnv, parse: BodyParse, req: Request, stores: Stores)
    requires SignatureSecret(env.hmacSecret).Some?
    requires !parse.Refused?
    requires Gate(env, SignatureSecret(env.hmacSecret).value, parse.Read?, Expose(parse, req)).Some?
    ensures var r := Webhook(env, parse, req, stores);
      (r.answeredBy == AtBlockList || r.answeredBy == AtRateLimit || r.answeredBy == AtSignature)
      && r.stores == stores && r.sent.None?
  {
  }

  /** With idempotency off that stage never answers. */
  lemma IdempotencyOffNeverAnswers(env: WebhookEnv, parse: BodyParse, req: Request, stores: Stores)
    requires SignatureSecret(env.hmacSecret).Some?
    requires !env.idempotencyEnabled
    ensures Webhook(env, parse, req, stores).answeredBy != AtIdempotency
  {
  }

  /** Only a body the parser read gets past the signature stage: a refused
      one is answered by the parser, a skipped one by the block list, the
      rate limiter or the signature stage. */
  lemma OnlyReadBodiesPass(env: WebhookEnv, parse: BodyParse, req: Request, stores: Stores)
    requires SignatureSecret(env.hmacSecret).Some?
    ensures var r := Webhook(env, parse, req, stores);
      r.answeredBy in {AtIdempotency, AtValidation, AtDedup, AtHandler} ==> parse.Read?
  {
  }

  /** A body over 1 MB is answered 413 `request entity too large` by the
      error handler before the block list or the signature is looked at,
      and nothing is stored or sent. */
  lemma OversizedBodyRefused(env: WebhookEnv, body: string, req: Request, stores: Stores)
    requires SignatureSecret(env.hmacSecret).Some?
    requires |body| > RawLimit
    ensures var r := Webhook(env, RawParser(true, true, None, body), req, stores);
      r == Run(ErrorHandler(BodyTooLarge, req), AtParser, stores, None)
      && r.reply.status == 413
  {
  }

  /** A request the parser skipped (no Content-Type, or no body) never
      gets past the signature stage; when it has a signature and an
      acceptable timestamp, computing the MAC of the empty object throws
      and the error handler answers 500. */
  lemma SkippedBodyThrows(env: WebhookEnv, req: Request, stores: Stores)
    requires SignatureSecret(env.hmacSecret).Some?
    requires BlockList(env.blockedCsv, env.blockedStore, req) == Next && env.limiter == Next
    requires !IsBlank(HeaderOr(req, "X-Signature"))
    requires TimestampOk(Trim(HeaderOr(req, "X-Timestamp")), env.nowMs, env.toNumber)
    ensures var r := Webhook(env, Skipped, req, stores);
      r == Run(ErrorHandler(HmacArgumentError, Expose(Skipped, req)), AtSignature, stores, None)
      && r.reply.status == 500
  {
    var r0 := Expose(Skipped, req);
    var secret := SignatureSecret(env.hmacSecret).value;
    SkippedSignatureThrows(env, secret, req);
    BlockListSeesOnlyAddress(env.blockedCsv, env.blockedStore, req, r0);
    assert Gate(env, secret, false, r0) == Some((ErrorHandler(HmacArgumentError, r0), AtSignature));
  }

  lemma SkippedSignatureThrows(env: WebhookEnv, secret: string, req: Request)
    requires !IsBlank(HeaderOr(req, "X-Signature"))
    requires TimestampOk(Trim(HeaderOr(req, "X-Timestamp")), env.nowMs, env.toNumber)
    ensures SignatureStage(env, secret, false, Expose(Skipped, req)) == Fail(HmacArgumentError)
  {
    var r0 := Expose(Skipped, req);
    assert r0.headers == req.headers;
    assert HeaderOr(r0, "X-Signature") == HeaderOr(req, "X-Signature");
    assert HeaderOr(r0, "X-Timestamp") == HeaderOr(req, "X-Timestamp");
    TrimEmptyIffBlank(HeaderOr(req, "X-Signature"));
  }

  /** The block list looks at the client address only. */
  lemma BlockListSeesOnlyAddress(csv: string, store: Option<set<string>>, a: Request, b: Request)
    requires a.ip == b.ip
    ensures BlockList(csv, store, a) == BlockList(csv, store, b)
  {
  }

  /* ---------------------------------------------------------------------
     The order of the stages
     --------------------------------------------------------------------- */

  /** A blocked address is refused 403 before anything after the parser
      is looked at, whatever its signature and whether or not its body was
      read; only a body the parser refuses is answered first, by the
      parser. Nothing is stored or sent. */
  lemma BlockedFirst(env: WebhookEnv, parse: BodyParse, req: Request, stores: Stores)
    requires SignatureSecret(env.hmacSecret).Some?
    requires ClientIp(req, "") in CsvEntries(env.blockedCsv)
    ensures Webhook(env, parse, req, stores)
      == if parse.Refused? then Run(ErrorHandler(parse.error, req), AtParser, stores, None)
         else Run(Forbidden, AtBlockList, stores, None)
  {
    if !parse.Refused? {
      BlockListSeesOnlyAddress(env.blockedCsv, env.blockedStore, req, Expose(parse, req));
    }
  }

  /** Once the raw-body parser has read the body, the signature is checked
      on it before any JSON parsing: a request that passes the block list
      and the limiter but fails the signature is answered 400 or 401 by the
      signature stage with nothing stored or sent, and the answer does not
      depend on how the body would parse. */
  lemma SignatureBeforeParsing(env: WebhookEnv, ps: Parsers, body: string, req: Request, stores: Stores)
    requires SignatureSecret(env.hmacSecret).Some?
    requires BlockList(env.blockedCsv, env.blockedStore, CaptureRawBody(body, req)) == Next && env.limiter == Next
    requires !VerifySignature(SignatureSecret(env.hmacSecret).value, env.mac, env.toNumber, env.nowMs,
                              CaptureRawBody(body, req)).Next?
    ensures var r := Webhook(env, Read(body), req, stores);
      var sig := VerifySignature(SignatureSecret(env.hmacSecret).value, env.mac, env.toNumber, env.nowMs,
                                 CaptureRawBody(body, req));
      r == Run(sig.reply, AtSignature, stores, None)
      && (r.reply.status == 400 || r.reply.status == 401)
      && Webhook(env.(parsers := ps), Read(body), req, stores) == r
  {
    var r0 := CaptureRawBody(body, req);
    var secret := SignatureSecret(env.hmacSecret).value;
    var sig := VerifySignature(secret, env.mac, env.toNumber, env.nowMs, r0);
    assert Gate(env, secret, true, r0) == Some((sig.reply, AtSignature));
    assert Gate(env.(parsers := ps), secret, true, r0) == Some((sig.reply, AtSignature));
  }

  /** With the idempotency stage switched off it is the identity: the key
      store is never read or written. */
  lemma IdempotencyOffLeavesStore(env: WebhookEnv, parse: BodyParse, req: Request, stores: Stores, other: Idempotency.Store)
    requires SignatureSecret(env.hmacSecret).Some?
    requires !env.idempotencyEnabled
    ensures Webhook(env, parse, req, stores).stores.idem == stores.idem
    ensures var a := Webhook(env, parse, req, stores);
      var b := Webhook(env, parse, req, stores.(idem := other));
      a.reply == b.reply && a.answeredBy == b.answeredBy && a.sent == b.sent && a.stores.events == b.stores.events
  {
    if !parse.Refused? {
      var r0 := Expose(parse, req);
      if Gate(env, SignatureSecret(env.hmacSecret).value, parse.Read?, r0).None? {
        assert IdemStage(env, r0, stores.idem) == Idempotency.Admission(Next, stores.idem);
        assert IdemStage(env, r0, other) == Idempotency.Admission(Next, other);
        assert !Claims(env, r0, stores.idem) && !Claims(env, r0, other);
      }
    }
  }

  /** The forward to n8n cannot throw: there is no ingest URL, or the
      network answers every post with a status the client resolves
      (below 500). */
  ghost predicate ForwardCannotThrow(env: WebhookEnv) {
    !Present(env.forwardEnv.ingestUrl)
    || forall p :: env.transport(p).Answered? && ClientResolves(env.transport(p).status)
  }

  /** After validation and dedup hand a request on, the handler
      acknowledges it with the id dedup derived from the normalised
      payload, and that id is newly recorded as processed. The controller
      as written does so only when the forward cannot throw. */
  lemma TailHandled(env: WebhookEnv, req: Request, events: Dedup.Events)
    requires RunTail(env, req, events).answeredBy == AtHandler
    requires env.handler == Intended || ForwardCannotThrow(env)
    ensures var t := RunTail(env, req, events);
      var v := ValidateAndNormalize(env.parsers, req);
      var id := Dedup.InternalEventId(env.sha, env.day, v.req);
      v.outcome.Next? && v.req.normalizedPayload.Some?
      && t.reply == JsonReply(200, Forward.AcceptedBody(Some(id)))
      && id in t.events && id !in events
  {
    var v := ValidateAndNormalize(env.parsers, req);
    var d := Dedup.Deduplicate(env.sha, env.day, env.nowMs, env.dedupInsertError, v.req, events);
    assert v.outcome.Next? && d.outcome.Next?;
    if env.handler == AsWritten {
      AsWrittenAcknowledges(env.forwardEnv, env.transport, env.rejection, d.req);
    }
  }

  /** The controller as written, when n8n answers 500 or more or not at
      all: the forward's rejection reaches the error handler, so the
      delivery is answered with an error instead of 200, although its id
      is already recorded as processed (a redelivery is then a duplicate). */
  lemma TailForwardRejected(env: WebhookEnv, req: Request, events: Dedup.Events)
    requires RunTail(env, req, events).answeredBy == AtHandler
    requires env.handler == AsWritten && Present(env.forwardEnv.ingestUrl)
    requires forall p :: !(env.transport(p).Answered? && ClientResolves(env.transport(p).status))
    ensures var t := RunTail(env, req, events);
      var v := ValidateAndNormalize(env.parsers, req);
      var id := Dedup.InternalEventId(env.sha, env.day, v.req);
      t.sent.Some?
      && t.reply == ErrorHandler(env.rejection(env.transport(t.sent.value)), v.req.(internalEventId := Some(id)))
      && id in t.events && id !in events
  {
    var v := ValidateAndNormalize(env.parsers, req);
    var d := Dedup.Deduplicate(env.sha, env.day, env.nowMs, env.dedupInsertError, v.req, events);
    assert v.outcome.Next? && d.outcome.Next?;
    var f := ForwardToN8n(EntryParams(d.req), env.forwardEnv, env.transport, env.rejection);
    assert f.result.Threw?;
  }

  /** A delivery that reaches the handler is acknowledged 200 with the
      internal event id dedup derived from the normalised payload, and
      that id is recorded as processed. */
  lemma HandledIsAcknowledged(env: WebhookEnv, body: string, req: Request, stores: Stores)
    requires SignatureSecret(env.hmacSecret).Some?
    requires Webhook(env, Read(body), req, stores).answeredBy == AtHandler
    requires env.handler == Intended || ForwardCannotThrow(env)
    ensures var r := Webhook(env, Read(body), req, stores);
      var v := ValidateAndNormalize(env.parsers, CaptureRawBody(body, req));
      var id := Dedup.InternalEventId(env.sha, env.day, v.req);
      v.outcome.Next?
      && v.req.normalizedPayload.Some?
      && r.reply == JsonReply(200, Forward.AcceptedBody(Some(id)))
      && id in r.stores.events && id !in stores.events
  {
    var r0 := CaptureRawBody(body, req);
    var secret := SignatureSecret(env.hmacSecret).value;
    var r := Webhook(env, Read(body), req, stores);
    assert Gate(env, secret, true, r0).None? && IdemStage(env, r0, stores.idem).outcome.Next?;
    assert r.reply == RunTail(env, r0, stores.events).reply && r.stores.events == RunTail(env, r0, stores.events).events;
    TailHandled(env, r0, stores.events);
  }

  /** An empty body fails validation: its fallback text is the serialised
      Buffer, which has no `source`. */
  lemma EmptyBodyRejected(ps: Parsers, req: Request)
    requires ps.parse(Stringify(BufferJson(""))) == Some(BufferJson(""))
    ensures ValidateAndNormalize(ps, CaptureRawBody("", req)).outcome
      == Respond(JsonReply(400, InvalidPayloadBody(ps.issues(BufferJson("")))))
  {
    var fs := BufferJson("").fields;
    LookupCons(fs[0], fs[1..], "source");
    LookupCons(fs[1], [], "source");
    assert fs == [fs[0]] + ([fs[1]] + []);
  }

  /** Recording a reply under a freshly claimed key and admitting the
      same request again replays that reply. */
  lemma RecordedReplyReplays(env: WebhookEnv, r0: Request, idem: Idempotency.Store, reply: Reply)
    requires Claims(env, r0, idem) && !env.finishUpdateFails
    ensures var adm := IdemStage(env, r0, idem);
      var recorded := Record(env, r0, idem, adm.store, reply);
      adm.outcome == Next
      && IdemStage(env, r0, recorded) == Idempotency.Admission(Respond(ReplayOf(reply)), recorded)
  {
    var calls := ReplyCalls(reply);
    Idempotency.ReplayRoundTrip(env.ttlSec, env.nowMs, env.nowMs, env.nowMs, env.sha, r0, idem, reply.status, calls);
  }

  /** A request the stages before idempotency let through, and that the
      idempotency stage answers, gets that answer with nothing else run. */
  lemma AnsweredByIdempotency(env: WebhookEnv, body: string, req: Request, stores: Stores)
    requires SignatureSecret(env.hmacSecret).Some?
    requires Gate(env, SignatureSecret(env.hmacSecret).value, true, CaptureRawBody(body, req)).None?
    requires IdemStage(env, CaptureRawBody(body, req), stores.idem).outcome.Respond?
    ensures var adm := IdemStage(env, CaptureRawBody(body, req), stores.idem);
      Webhook(env, Read(body), req, stores) == Run(adm.outcome.reply, AtIdempotency, Stores(adm.store, stores.events), None)
  {
  }

  /** A request that passes idempotency runs the tail and has its reply
      recorded. */
  lemma PassedIdempotency(env: WebhookEnv, body: string, req: Request, stores: Stores)
    requires SignatureSecret(env.hmacSecret).Some?
    requires Gate(env, SignatureSecret(env.hmacSecret).value, true, CaptureRawBody(body, req)).None?
    requires IdemStage(env, CaptureRawBody(body, req), stores.idem).outcome.Next?
    ensures var r0 := CaptureRawBody(body, req);
      var adm := IdemStage(env, r0, stores.idem);
      var t := RunTail(env, r0, stores.events);
      Webhook(env, Read(body), req, stores) == Run(t.reply, t.answeredBy, Stores(Record(env, r0, stores.idem, adm.store, t.reply), t.events), t.sent)
  {
    assert Expose(Read(body), req) == CaptureRawBody(body, req);
  }

  /** The same delivery twice with the same idempotency key: the first
      claims the key and runs the rest of the chain; the second gets the
      first's reply back, marked as replayed, without validation, dedup or
      the handler running and with nothing written. */
  lemma RedeliveryReplays(env: WebhookEnv, body: string, req: Request, stores: Stores)
    requires SignatureSecret(env.hmacSecret).Some?
    requires Gate(env, SignatureSecret(env.hmacSecret).value, true, CaptureRawBody(body, req)).None?
    requires Claims(env, CaptureRawBody(body, req), stores.idem)
    requires !env.finishUpdateFails
    ensures var first := Webhook(env, Read(body), req, stores);
      var second := Webhook(env, Read(body), req, first.stores);
      second == Run(ReplayOf(first.reply), AtIdempotency, first.stores, None)
  {
    var r0 := CaptureRawBody(body, req);
    var t := RunTail(env, r0, stores.events);
    RecordedReplyReplays(env, r0, stores.idem, t.reply);
    PassedIdempotency(env, body, req, stores);
    var first := Webhook(env, Read(body), req, stores);
    AnsweredByIdempotency(env, body, req, first.stores);
  }

  /** How a recorded reply is replayed. */
  function ReplayOf(reply: Reply): Reply {
    var hs := [("Idempotency-Replayed", "true")];
    match reply.body
    case JsonBody(j) => Reply(reply.status, hs, JsonBody(j))
    case TextBody(t) => Reply(reply.status, hs, TextBody(t))
    case NoBody => Reply(200, hs, JsonBody(Idempotency.AcceptedBody))
  }
}
