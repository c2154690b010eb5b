# SB-node-n8n webhook gateway — a Dafny model

SB-node-n8n is an Express/MongoDB service that sits in front of an n8n
automation server. Webhooks arrive at `POST /webhook/entry` and pass a fixed
chain of stages:

1. the raw-body parser (up to 1 MB), which exposes the body as `rawBody`;
2. the IP block list;
3. the rate limiter;
4. the HMAC signature check;
5. the optional idempotency stage;
6. payload validation and normalisation;
7. deduplication;
8. the handler, which forwards the event to n8n and answers `200 accepted`.

Around this pipeline sit:

- internal API controllers: users, login, OTPs, refunds, payment intents, generic storage and flows;
- background workers: refund execution, messaging retries, the flow executor and the daily cleanup;
- a health endpoint and a PII-masking logger.

This project models that core as pure Dafny functions over immutable data.
Time, hashing, HMAC, argon2, JWT, uuid, random draws and the network become
parameters. Each MongoDB collection is a value:

- a `map` keyed by the unique key for the admission stores (idempotency keys, processed events, OTPs);
- a sequence of documents for the business collections, where `findOne` is the first match in natural order.

A stage either hands the request on, answers, or throws to the error
handler. Each operation's contract states what the service promises, and
lemmas relate operations to each other:

- the canonical JSON form is independent of key order;
- an idempotent replay returns the recorded reply;
- the counters stay within their bounds;
- the cleanup is idempotent;
- and so on.

Modules, one per source area:

- `Options`, `Text`, `Json`, `KeyOrder`, `Http`, `Docs`: values, JavaScript string semantics, `Array.prototype.sort` on keys, request/reply shapes, documents and `findOne`/`updateOne`.
- `Hmac` (`src/lib/hmac.ts`): `Canonical` is the reference definition of the canonical JSON text. `WalkSpec` relates it to the serialiser's walk with its `seen` set, and `CanonicalKeyOrder` shows it ignores key order.
- `Signature`, `Idempotency`, `Dedup`, `Payload`, `Middleware`, `AuditLimit`, `Webhook`, `Forward`: the admission pipeline.
- `Config`, `Queues`, `Db`: settings, queue front ends, `withDb`.
- `Otp`, `Messaging`, `Refunds`, `Payments`, `Storage`, `Users`, `Auth`, `Flows`, `FlowExec`, `Cleanup`, `Health`, `Logger`: controllers, workers and utilities.

## Model

| member | source | states |
|---|---|---|
| Hmac.SortedEntries | src/lib/hmac.ts:28-29 | members are visited one per key, each with the value stored under that key |
| Hmac.SortedEntriesOrder | src/lib/hmac.ts:28 | the visiting order is `Object.keys(val).sort()`, the UTF-16 code-unit order |
| Hmac.CanonicalKeyOrder | src/lib/hmac.ts:28-30 | two trees that differ only in the order keys were inserted, at any depth, have the same canonical text |
| Hmac.SameElementTexts | src/lib/hmac.ts:25-27 | arrays whose elements have pairwise equal texts have equal texts |
| Hmac.SameMemberTexts | src/lib/hmac.ts:28-30 | objects whose visited members have pairwise equal texts have equal texts |
| Hmac.MatchingEntries | src/lib/hmac.ts:28-29 | after sorting, two objects equal up to key order pair up member by member with equal keys |
| Hmac.SameUpToKeyOrderReflexive | src/lib/hmac.ts:18-31 | every tree is equal to itself up to key order |
| Hmac.CanonicalFieldPermutation | src/lib/hmac.ts:28-30 | the same members inserted in another order give the same object text |
| Hmac.WalkSpec | src/lib/hmac.ts:20-31 | the walk that threads the `seen` set succeeds exactly when the value is acyclic and reaches no object twice, and then writes the canonical text |
| Hmac.WalkArraySpec | src/lib/hmac.ts:23-27 | the same, for an array node |
| Hmac.WalkObjectSpec | src/lib/hmac.ts:23-30 | the same, for an object node |
| Hmac.WalkItemsSpec | src/lib/hmac.ts:26 | the walk over the remaining elements succeeds exactly when they are acyclic and fresh, and writes their texts |
| Hmac.WalkFieldsSpec | src/lib/hmac.ts:29 | the walk over the remaining members succeeds exactly when they are acyclic and fresh, and writes their texts |
| Hmac.CanonicalStringifySpec | src/lib/hmac.ts:18-47 | `canonicalStringify` writes the canonical text when no object is reached twice, and `"[CIRCULAR]"` for cycles and shared references alike |
| Hmac.HexDecode | src/lib/hmac.ts:9-10 | `Buffer.from(h, 'hex')` reads at most one byte per two characters |
| Hmac.HexEncode | src/lib/hmac.ts:3-5 | a hex digest has two hexadecimal digits per byte |
| Hmac.HexRoundTrip | src/lib/hmac.ts:3-10 | decoding a hex digest gives its bytes back |
| Hmac.HexDecodeSuffix | src/lib/hmac.ts:9-10 | text after a complete digest is decoded separately and appended |
| Hmac.HexDecodeUpper | src/lib/hmac.ts:9-10 | upper-case digits decode to the same bytes as lower-case ones |
| Hmac.TimingSafeEqualHex | src/lib/hmac.ts:7-16 | different decoded lengths give false; otherwise true exactly when the decoded bytes are equal |
| Hmac.TimingSafeEqualHexSymmetric | src/lib/hmac.ts:7-16 | the comparison is reflexive and symmetric |
| Hmac.DigestComparison | src/lib/hmac.ts:7-16 | two digests match exactly when their bytes are equal, and a digest matches its upper-case spelling |
| Hmac.CanonicalExample | src/lib/hmac.ts:18-31 | `{b:{c:2},a:1}` is written `{"a":1,"b":{"c":2}}` |
| Hmac.SortedExample | src/lib/hmac.ts:28 | members `b` then `a` are visited as `a` then `b` |
| Hmac.SingleMember | src/lib/hmac.ts:28-30 | a one-member object is written `{"k":v}` |
| Hmac.SharedReferenceExample | src/lib/hmac.ts:20-24 | one object reached twice without a cycle gives `"[CIRCULAR]"` |
| Hmac.CycleExample | src/lib/hmac.ts:20-24 | an object containing itself gives `"[CIRCULAR]"` |
| Signature.SignatureSecret | src/middleware/signature.ts:4-8 | building the middleware fails exactly when HMAC_SECRET is unset or empty, and otherwise uses it |
| Signature.VerifySignatureNoBuffer | src/middleware/signature.ts:9-33 | without a Buffer the middleware never hands the request on: it answers 401 for a missing signature or a bad timestamp and otherwise throws the HMAC argument error |
| Signature.NoBufferThrowsAtMac | src/middleware/signature.ts:19-38 | without a Buffer the middleware answers as with one up to the MAC; where a Buffer would be accepted or refused as an invalid signature, the empty object throws |
| Signature.VerifySignature | src/middleware/signature.ts:9-39 | the middleware either hands the request on or answers 400 or 401; a 400 is always the missing-raw-body error |
| Signature.VerifySignatureAccepts | src/middleware/signature.ts:10-38 | the request is handed on exactly when the signature header is not blank, a raw body exists, a sent timestamp is within 300 s, and the header's hex decodes to the HMAC of the raw body alone |
| Signature.MissingSignatureFirst | src/middleware/signature.ts:10-15 | a blank signature header gives 401 `Missing signature`, even when the body is also missing |
| Signature.PrefixedHex | src/middleware/signature.ts:17-18 | `sha256=<hex>` is compared by its hex part |
| Signature.BareHex | src/middleware/signature.ts:17-18 | a bare hex header is compared as it stands |
| Signature.CorrectSignatureAccepted | src/middleware/signature.ts:17-38 | both header formats carrying the body's MAC are accepted when no timestamp is sent |
| Signature.TimestampBoundary | src/middleware/signature.ts:25-32 | a timestamp exactly 300 s away is accepted on either side, and 301 s away is rejected |
| Idempotency.RequestText | src/middleware/idempotency.ts:27-38 | the hashed text always starts with the upper-cased method, a space, the path and a newline |
| Idempotency.RequestHash | src/middleware/idempotency.ts:27-34 | with a raw body, the digest is over the upper-cased method, the path, a newline and the raw body |
| Idempotency.HashIgnoresKeyOrder | src/middleware/idempotency.ts:35-37 | without a raw body, payloads that differ only in key order hash alike |
| Idempotency.RawBodyHashIgnoresPayload | src/middleware/idempotency.ts:31-34 | with a raw body, the hash does not depend on the parsed or normalised payload |
| Idempotency.Replay | src/middleware/idempotency.ts:84-97 | a finished record is replayed with `Idempotency-Replayed: true` and the stored status (default 200), with the stored JSON when it was JSON, else the stored text |
| Idempotency.AnswerExisting | src/middleware/idempotency.ts:78-101 | a different request hash gives 409 whatever the state; the same hash gives 409 while in progress and the replay once finished |
| Idempotency.Admit | src/middleware/idempotency.ts:53-107 | a blank key passes with the store untouched; with a non-blank key an insert error propagates with the store untouched, a fresh key inserts exactly one `in_progress` record with its hash and expiry now + ttl·1000 and passes, and an existing key leaves the store unchanged and answers from the record |
| Idempotency.CapturedSpec | src/middleware/idempotency.ts:110-131 | the response capture remembers whether JSON was sent and the last JSON value, else the last text |
| Idempotency.OutcomeStatus | src/middleware/idempotency.ts:136 | status 500 or above records `failed`, anything else `succeeded`, never `in_progress` |
| Idempotency.Finish | src/middleware/idempotency.ts:133-155 | the finish handler updates only this key's record, keeps its hash, key and dates, and writes the outcome and capture; a failed update changes nothing |
| Idempotency.FinishNeverMarksInProgress | src/middleware/idempotency.ts:133-151 | after a finish, any `in_progress` record was already there unchanged |
| Idempotency.AdmitMarksOnlyFreshKey | src/middleware/idempotency.ts:63-73 | admission writes `in_progress` only for the fresh key it inserts |
| Idempotency.ReplayRoundTrip | src/middleware/idempotency.ts:53-157 | first request admitted, response finished, same request again: the captured response is replayed with its status and the store is unchanged |
| Idempotency.RetryWhileRunning | src/middleware/idempotency.ts:99-101 | a retry while the first request still runs gets 409 and changes nothing |
| Idempotency.KeyReuseConflicts | src/middleware/idempotency.ts:80-83 | a key reused for a differently hashed request gets 409 and changes nothing |
| Dedup.EventSource | src/middleware/dedup.ts:14 | a missing or falsy `source` gives `unknown`; a non-empty string source is used as it is |
| Dedup.InternalEventId | src/middleware/dedup.ts:12-19 | a non-empty `X-Idempotency-Key` is the id verbatim; otherwise the id is the SHA-256 of canonical payload, source and UTC day |
| Dedup.EventIdKeyOrder | src/middleware/dedup.ts:15-19 | without the header, payloads equal up to key order, with the same source and day, get the same id |
| Dedup.Deduplicate | src/middleware/dedup.ts:10-41 | the id is attached on every path; the request goes on exactly when the id is new and the insert did not fail otherwise, and then one record with expiry now + 72 h is inserted; a duplicate gets 200 `{status:'accepted', internal_event_id, duplicate:true}` with the store unchanged |
| Dedup.AdmitOnce | src/middleware/dedup.ts:23-38 | the same event admitted twice goes on once and is answered as a duplicate the second time, with nothing written |
| Dedup.HeaderNotTrimmed | src/middleware/dedup.ts:12-18 | the header is used untrimmed |
| Payload.ParseSchema | src/schemas/payloads/basic.ts:14-39 | the schema accepts exactly the objects with non-empty `source` and `type`, a version of '1.0' or '1.1' if any, and well-typed optional parts; what it outputs is the known properties, the version defaulted |
| Payload.SchemaRequiredFields | src/schemas/payloads/basic.ts:16-20 | an accepted payload keeps `source` and `type` as non-empty strings, and its version is the given one or '1.0' |
| Payload.NormalizeDataEntry | src/schemas/payloads/basic.ts:93-96 | a data entry keeps its key, and only a string under an e-mail key can change |
| Payload.NormalizeData | src/schemas/payloads/basic.ts:90-99 | every data entry is normalised in place, one for one |
| Payload.NormalizeUserSpec | src/schemas/payloads/basic.ts:75-88 | a truthy e-mail becomes trimmed and lower-cased; a truthy phone becomes its E.164 form or is removed; every other user property is kept |
| Payload.Normalize | src/schemas/payloads/basic.ts:68-102 | normalisation turns objects into objects |
| Payload.NormalizeSpec | src/schemas/payloads/basic.ts:68-102 | the version is kept or set to '1.0'; `user` and `data` follow their rules; every other top-level property is copied unchanged |
| Payload.NormalizeDataKeys | src/schemas/payloads/basic.ts:90-99 | data keys and their order are kept, and only string values under keys containing `email` change |
| Payload.NormalizedPayloadShape | src/schemas/payloads/basic.ts:14-73 | a normalised accepted payload still has non-empty `source` and `type` and a version of '1.0' or '1.1' |
| Payload.SuccessResponseConforms | src/schemas/payloads/basic.ts:107-114 | a success response satisfies the response schema, with status 'success' |
| Payload.ErrorResponseConforms | src/schemas/payloads/basic.ts:119-128 | an error response satisfies the response schema, with status 'error' and the given message |
| Payload.ValidateAndNormalize | src/middleware/validatePayload.ts:4-18 | the outcome is going on or 400; a body that does not parse gives 400 `Invalid JSON body`; a refused request is unchanged |
| Payload.ValidateAccepts | src/middleware/validatePayload.ts:6-14 | the request goes on exactly when the body parses and the schema accepts it, and then carries the normalised payload; a schema failure gives 400 `Invalid payload` with the issues |
| Payload.ValidatedPayloadShape | src/middleware/validatePayload.ts:12-14 | whatever goes on carries a payload with non-empty `source` and `type` and a valid version |
| Webhook.RunTail | src/api/webhook.ts:26-34 | after idempotency, the request is answered by validation, dedup or the handler, and only the handler posts to n8n |
| Webhook.Webhook | src/api/webhook.ts:13-35 | given what the raw-body parser made of the request, only the handler stage posts to n8n |
| Webhook.RawParser | src/api/webhook.ts:16 | a request without a body or without a well-formed Content-Type is skipped; a read body is at most 1 MB and is the bytes sent; a refusal not caused by the reader is the 413 `request entity too large` error |
| Webhook.RawLimitBoundary | src/api/webhook.ts:16 | a body of exactly 1 MB is read and one byte more is refused with status 413 |
| Webhook.OversizedBodyRefused | src/api/webhook.ts:16 | a body over 1 MB is answered 413 by the error handler before the block list runs, with nothing stored or sent |
| Webhook.SkippedBodyThrows | src/api/webhook.ts:16-24 | a skipped body leaves the empty object as `rawBody`; with a signature and an acceptable timestamp, computing its MAC throws and the reply is 500, with nothing stored or sent |
| Webhook.OnlyReadBodiesPass | src/api/webhook.ts:16-24 | only a body the parser read gets past the signature stage |
| Webhook.GateWritesNothing | src/api/webhook.ts:16-24 | when the block list, the rate limiter or the signature check answers, whether or not the body was read, nothing is written or sent |
| Webhook.IdempotencyOffNeverAnswers | src/api/webhook.ts:25 | with ENABLE_IDEMPOTENCY_MW off, the idempotency stage never answers |
| Webhook.Gate | src/api/webhook.ts:22-24 | the stages between the raw-body parser and idempotency answer only at the block list, the rate limiter or the signature check, and never hand on a request without a Buffer |
| Webhook.IdemStage | src/api/webhook.ts:25 | with ENABLE_IDEMPOTENCY_MW off, the stage hands the request on and leaves the key store alone |
| Webhook.BlockedFirst | src/api/webhook.ts:16-22 | a blocked address gets 403 whatever its signature and whether or not its body was read; only a body the parser refuses is answered first, by the parser; nothing is stored or sent |
| Webhook.SignatureBeforeParsing | src/api/webhook.ts:16-26 | once the raw-body parser has read the body, a bad signature is answered 400 or 401 by the signature stage, with nothing stored or sent, however the body would parse as JSON |
| Webhook.IdempotencyOffLeavesStore | src/api/webhook.ts:25 | with idempotency off, the key store is never read or written |
| Webhook.TailHandled | src/api/webhook.ts:26-34 | a request validation and dedup let through is acknowledged 200 with the id dedup derived, and that id is newly recorded. For the controller as written this needs a forward that cannot throw: no ingest URL, or n8n answering below 500 |
| Webhook.TailForwardRejected | src/controllers/webhookController.ts:9-17 | with the controller as written, an n8n answer of 500 or more, or none, sends the forward's rejection to the error handler instead of 200, and the event id is still recorded as processed |
| Webhook.HandledIsAcknowledged | src/api/webhook.ts:13-35 | a delivery that reaches the handler gets 200 with the id derived from the normalised payload, and that id is newly recorded as processed; for the controller as written, when the forward cannot throw |
| Webhook.EmptyBodyRejected | src/api/webhook.ts:16-19 | an empty body fails validation, since its fallback text has no `source` |
| Webhook.RecordedReplyReplays | src/api/webhook.ts:25 | a reply recorded under a freshly claimed key is replayed to the same request |
| Webhook.AnsweredByIdempotency | src/api/webhook.ts:25 | when the idempotency stage answers, nothing after it runs |
| Webhook.PassedIdempotency | src/api/webhook.ts:25-34 | a request that passes idempotency runs the rest of the chain and has its reply recorded |
| Webhook.RedeliveryReplays | src/api/webhook.ts:13-35 | the same delivery twice with one key: the second gets the first reply back, marked replayed, with nothing else run or written, whatever that first reply was |
| Forward.StrOr | src/services/eventRouter.ts:11-12 | `a \|\| b` on strings: a non-empty `a` wins, otherwise `b` |
| Forward.HeaderValue | src/services/eventRouter.ts:17-22 | a header found is in the list; a header not found has no entry |
| Forward.RequestHeadersSpec | src/services/eventRouter.ts:17-22 | the content type and the internal id are always set; the correlation id and `Bearer <token>` exactly when they are non-empty |
| Forward.ClientPost | src/lib/http.ts:3-7 | the shared client resolves exactly for statuses in [200,500), with status and data unchanged, and rejects otherwise |
| Forward.ForwardToN8n | src/services/eventRouter.ts:4-30 | without an ingest URL nothing is sent and the result is `{ok:true, status:204}`; otherwise one post with the payload and headers goes to that URL, its status and data come back unchanged, `ok` holds exactly for 2xx, and it throws exactly when the client rejects |
| Forward.ForwardUrlChoice | src/services/eventRouter.ts:11 | a non-empty parameter URL wins over N8N_INGEST_URL |
| Forward.HandleEntryAsWritten | src/controllers/webhookController.ts:5-18 | when the handler answers, it answers 200 `{status:'accepted', internal_event_id}` |
| Forward.AsWrittenFailsOnServerError | src/controllers/webhookController.ts:9-13 | a 503 from n8n, or no response, makes the handler fail instead of answering 200 |
| Forward.AsWrittenAcknowledges | src/controllers/webhookController.ts:9-17 | without an ingest URL, or when n8n answers every post below 500, the controller as written answers 200 with the internal id |
| Forward.HandleEntry | src/controllers/webhookController.ts:14-17 | the intended handler always answers 200 with the internal id |
| Forward.HandleEntrySpec | src/controllers/webhookController.ts:6-17 | both handlers send the same post, agree when the forward does not throw, and the post carries the reply's internal id in its payload and header |
| Forward.ForwardedPayloadFields | src/controllers/webhookController.ts:8-10 | apart from `internal_event_id`, the forwarded payload keeps every field of the normalised payload |
| Middleware.TrimmedNonEmpty | src/middleware/blockList.ts:5-8 | no kept entry is empty and there are at most as many entries as parts |
| Middleware.TrimmedMembership | src/middleware/blockList.ts:5-8 | the kept entries are exactly the non-empty trimmed parts |
| Middleware.TrimmedAllBlank | src/middleware/blockList.ts:5-8 | when every part trims to nothing, nothing is kept |
| Middleware.CsvEntries | src/middleware/blockList.ts:4-9 | an entry of a comma-separated setting is a non-empty trimmed piece between commas |
| Middleware.CsvEntriesOfBlank | src/middleware/internalAuth.ts:6-11 | a setting of only commas and blanks has no entries |
| Middleware.ClientIp | src/middleware/blockList.ts:12 | `req.ip` when it is non-empty, else the fallback; empty only when both are |
| Middleware.BlockList | src/middleware/blockList.ts:11-28 | the request gets 403 exactly when its address is in BLOCKED_IPS_CSV or in the reachable `blocked_ips` store, and otherwise goes on |
| Middleware.BlockListFailsOpen | src/middleware/blockList.ts:24-26 | an unreachable store never blocks: the environment list alone decides |
| Middleware.NormalizeIp | src/middleware/internalAuth.ts:13 | a leading `::ffff:` is removed, and an address without it is kept |
| Middleware.AnyRangeMatches | src/middleware/internalAuth.ts:19-26 | some allowlist range matches the address |
| Middleware.IsIpAllowed | src/middleware/internalAuth.ts:5-31 | an empty allowlist or an unparseable address allows nothing; otherwise allowed exactly when some entry matches the normalised address |
| Middleware.LeadingSpaces | src/middleware/internalAuth.ts:40 | the length of the leading whitespace run |
| Middleware.BearerToken | src/middleware/internalAuth.ts:40-42 | a matched token is a non-empty tail of the header after `Bearer` and at least one more character, with no line terminator |
| Middleware.BearerTokenSpec | src/middleware/internalAuth.ts:40-42 | `^Bearer\s+(.+)$` matches exactly when some whitespace split does, and the token follows the longest whitespace run that can match |
| Middleware.IsTokenValid | src/middleware/internalAuth.ts:38-55 | a missing header is invalid; a valid token matches the bearer pattern and is N8N_TOKEN or a JWT verified with JWT_SECRET whose `iss` is `internal-backend`; conversely, a bearer token that verifies under a non-empty JWT_SECRET with that `iss` is accepted |
| Middleware.StaticTokenAccepted | src/middleware/internalAuth.ts:43-44 | `Bearer <N8N_TOKEN>` is valid without any JWT check |
| Middleware.InternalAuth | src/middleware/internalAuth.ts:57-65 | the request goes on exactly when the address is allowed or the token is valid, and gets 401 otherwise |
| Middleware.EmptyAllowlistNeedsToken | src/middleware/internalAuth.ts:57-65 | with an empty allowlist only a valid token lets a request in |
| Middleware.CorrelationId | src/middleware/correlationId.ts:4-11 | a non-blank incoming id is used verbatim, a blank one is replaced by the generated id; the same id is stored on the request and echoed in the header, and the request always goes on |
| Middleware.CorrelationIdEchoed | src/middleware/correlationId.ts:4-11 | a client that sends back the id it was answered with keeps it, whatever id would be generated |
| Middleware.CorrelationIdFromHeader | src/middleware/correlationId.ts:6-7 | the generated id matters exactly when the header is absent or blank |
| Middleware.NumOr | src/middleware/errorHandler.ts:5 | `n \|\| fallback` on numbers, where 0 is falsy |
| Middleware.ErrorHandler | src/middleware/errorHandler.ts:4-21 | the status is `err.status`, else `err.statusCode`, else 500; the message is `err.message` or `Internal Server Error`; the correlation id is echoed |
| Middleware.PlainErrorIs500 | src/middleware/errorHandler.ts:5 | an error with no status is answered 500 |
| Middleware.FirstTruthy | src/middleware/errorHandler.ts:5 | `a \|\| b \|\| fallback` on numbers gives the fallback or one of the candidates that is set and not 0 |
| Middleware.ErrorHandlerReply | src/middleware/errorHandler.ts:5-21 | for every error, the status is the first of `status`, `statusCode`, 500 that is set and not 0, so never 0; the body has only `error`, whose correlation id is the request's |
| AuditLimit.FindWindow | src/middleware/auditRateLimit.ts:33-37 | the first record of this IP and event whose window started within the last 60 s, or none |
| AuditLimit.CheckAuditRateLimit | src/middleware/auditRateLimit.ts:20-75 | a store failure allows with 5 remaining and writes nothing; no current window inserts count 1 and allows with 4; a count of 5 or more denies with 0 and writes nothing; a count c below 5 becomes c+1 and allows with 5−c−1 |
| AuditLimit.CheckKeepsBound | src/middleware/auditRateLimit.ts:13-57 | checks one after another keep every count within [1,5], and the remaining allowance is never negative |
| AuditLimit.CheckRepeatedly | src/middleware/auditRateLimit.ts:20-75 | one result per check in a sequence of checks |
| AuditLimit.SixthDenied | src/middleware/auditRateLimit.ts:42-68 | in one minute, the first five checks are allowed with 4, 3, 2, 1, 0 remaining and the sixth is denied |
| AuditLimit.RepeatWithinWindow | src/middleware/auditRateLimit.ts:42-57 | against a window with count c, the k-th check is allowed while c+k < 5, with 5−c−k−1 remaining |
| AuditLimit.AuditRateLimitMiddleware | src/middleware/auditRateLimit.ts:81-103 | denied gives 429 `AUDIT_RATE_LIMIT_EXCEEDED`; allowed attaches the remaining allowance and goes on |
| AuditLimit.ShouldLogAuditEvent | src/middleware/auditRateLimit.ts:109-112 | the event is logged exactly when the store fails, there is no current window, or its count is below 5 |
| Config.Clamp | src/config/env.ts:36-42 | the effective concurrency lies in [1,50], is the identity inside that range, and is 1 below it and 50 above it |
| Config.ClampIdempotent | src/config/env.ts:37 | clamping twice is clamping once |
| Config.CoerceInt | src/config/env.ts:6-54 | `z.coerce.number().int()` accepts exactly the finite integral numbers, unchanged |
| Config.IntSetting | src/config/env.ts:6-54 | an absent setting takes its default; a present one must coerce to an integer, positive where required |
| Config.OptionalPositive | src/config/env.ts:12-57 | an absent optional setting stays absent; a present one must be a positive integer |
| Config.Flag | src/config/env.ts:32-53 | a flag is true exactly for the string 'true', defaults to false, and any other value than 'true' or 'false' is invalid |
| Config.Load | src/config/env.ts:4-70 | loading fails without an HMAC_SECRET of 32 or more UTF-16 code units. A loaded configuration has NODE_ENV and LOG_LEVEL from their enumerations (defaults `development` and `info`), a URL for N8N_INGEST_URL and e-mail addresses for EMAIL_FROM and ALERT_EMAIL_TO when given, secrets of 32+ code units, concurrency in [1,50], positive port, TTL, tolerance and refund limit, and each flag true exactly when its variable is 'true' |
| Config.InvalidSettingRejected | src/config/env.ts:5-27 | a NODE_ENV or LOG_LEVEL outside its enumeration, a malformed N8N_INGEST_URL, or a malformed EMAIL_FROM or ALERT_EMAIL_TO fails loading |
| Config.AstralSecretLength | src/config/env.ts:10 | sixteen characters outside the Basic Multilingual Plane are 32 code units, so they meet the 32-character minimum |
| Config.Choice | src/config/env.ts:5-7 | an absent enumerated setting takes its default, a present one must be a member |
| Config.Defaults | src/config/env.ts:5-54 | with only the required settings, NODE_ENV is `development`, LOG_LEVEL `info`, concurrency is 5, the TTL 3600, the tolerance 60, the refund limit 5000, the port 3000, and all flags are off |
| Config.ConcurrencyClamped | src/config/env.ts:36-42 | an out-of-range QUEUE_CONCURRENCY is clamped, not rejected |
| Queues.Enqueue | src/queue/index.ts:6-14 | nothing is ever queued; the reason is `queue_disabled` exactly when REDIS_URL is empty or workers are off, and `backend_not_configured` otherwise |
| Queues.ConnectionOf | src/queue/processor.ts:7-20 | the port defaults to 6379, an empty password is dropped, an empty path gives database 0, and the host is the URL's |
| Queues.GetQueue | src/queue/processor.ts:22-59 | without REDIS_URL no queue and no change; a cached name returns the cached queue; otherwise a new queue with the default job options is built and cached, unless the URL does not parse |
| Queues.GetQueueCached | src/queue/processor.ts:28-31 | a second `getQueue` of the same name returns the same queue and leaves the cache as it was |
| Queues.WithRetryPolicy | src/queue/processor.ts:72-79 | three attempts and exponential backoff from 1000 ms are forced over the caller's options, which keep their delay and priority |
| Queues.EnqueueJob | src/queue/processor.ts:61-87 | no queue reports `{ok:true, reason:'queue_disabled'}` without adding; otherwise the job is added with the forced policy, giving its id or `enqueue_failed` |
| Queues.RetryPolicyForced | src/queue/processor.ts:72-79 | whatever the caller passes, the job is added with three attempts and exponential backoff from one second |
| Queues.DisabledWithoutRedis | src/queue/processor.ts:23-69 | without REDIS_URL, `enqueueJob` reports success, never adds and leaves the cache alone |
| Queues.CloseAllQueues | src/queue/processor.ts:89-99 | every cached queue is closed and the cache is emptied |
| Queues.CloseThenRebuild | src/queue/processor.ts:33-99 | after closing, a queue is built afresh rather than taken from the cache |
| Db.Backoff | src/services/db.ts:30 | the delay before a retry is at least 100 ms |
| Db.WithDb | src/services/db.ts:21-38 | tries run until one succeeds or `retries + 1` have been made; the result is the last try's; the waits are 100·2^i ms between tries; negative retries give an undefined rejection with no try |
| Db.WithDbDefault | src/services/db.ts:21 | with the default of two retries, at most three tries, and a final failure has waited 100 then 200 ms |
| Db.HealthCheck | src/services/db.ts:9-19 | `ok` holds exactly when the ping reply's `ok` is the number 1; a throw carries its message as the error |
| Db.HealthStrict | src/services/db.ts:13-14 | a healthy report carries no error; `{ok: 1}` is healthy, `{ok: true}`, `{ok: "1"}` and a null reply are not |
| Otp.OtpCode | src/services/otp.ts:11 | the code is six decimal digits whose value is the number drawn |
| Otp.PaddedCode | src/services/otp.ts:11 | `padStart(6, '0')` of a number below 10^6 gives six digits with that value |
| Otp.OtpCodeInjective | src/services/otp.ts:11 | different draws give different codes |
| Otp.GenerateOtp | src/services/otp.ts:6-26 | generation fails exactly when hashing, the connection or the insert rejects or the id is taken, and then writes nothing; otherwise it inserts one record under the new id, with the code's hash, zero attempts and expiry now + ttl·1000 (ttl 600 by default), and leaves every other record alone |
| Otp.VerifyOtp | src/services/otp.ts:28-45 | a failing `getDb` or first lookup throws with nothing written. A missing, expired or locked record is refused with 0 remaining and nothing written. If argon2 throws, so does the call, with nothing written. The right code is valid and deletes the record, unless the delete fails. A wrong code adds one attempt and reports max(0, 3 − attempts) remaining. If the increment fails, nothing is written; if the re-read fails, the attempt is kept and the call throws |
| Otp.Remaining | src/services/otp.ts:43 | the remaining count is 0 exactly at three attempts or more, and otherwise makes up the difference to three |
| Otp.UsedOnce | src/services/otp.ts:36-39 | an accepted code cannot be used again: the record is gone and the same code is refused |
| Otp.AttemptsStayBounded | src/services/otp.ts:35-43 | verifying keeps every attempt count within [0,3], whatever fails, and a reported remaining count within [0,2] |
| Otp.GenerateKeepsBound | src/services/otp.ts:17-24 | generation keeps every attempt count within [0,3] |
| Otp.WrongGuessesCount | src/services/otp.ts:35-41 | wrong guesses against a live record, with the store working, only raise its attempt count, up to 3 |
| Otp.LockedAfterThreeFailures | src/services/otp.ts:35 | after three wrong codes even the right code is refused without consulting argon2, and nothing more is written |
| Otp.GenerateThenVerify | src/services/otp.ts:6-40 | the generated code verifies within its lifetime, and the record is then removed, leaving the collection as it was |
| Otp.GenerateOtpController | src/controllers/otpController.ts:7-36 | a falsy subject type or id gives 400; a rejection of the service propagates as it is with nothing written, a taken id as the insert error; otherwise the reply is 200 `{otp_id}` for a new record; a message is sent exactly when OTP_SEND_ON_GENERATE is on and `to` and `channel` are non-empty, carrying the code |
| Otp.GenerateReplyHidesCode | src/controllers/otpController.ts:13-14 | the reply never carries the code |
| Otp.VerifyOtpController | src/controllers/otpController.ts:38-46 | a falsy `otp_id` or `code` gives 400 with nothing written; otherwise the verdict is returned with 200, and what the service throws goes to the error handler |
| Otp.ControllerStoreDown | src/controllers/otpController.ts:38-46 | with the store unreachable, a well-formed request fails with the store's error and nothing written |
| Messaging.Attempt | src/services/messaging.ts:32-82 | an unknown or unconfigured channel never succeeds, and an unconfigured provider reports `<Provider> not configured`; a throw becomes a failure with its message or `Unknown error`; SMS and e-mail succeed when the SDK returns, Slack when its reply says ok |
| Messaging.Record | src/services/messaging.ts:83-94 | each attempt adds one to `attempts` and sets `sent` or `failed`, keeping the message's recipient, channel, template and parameters |
| Messaging.SendMessageWithFallback | src/services/messaging.ts:59-110 | the call throws exactly when the store rejects at a step it reaches, with that error: before the insert nothing is written, at the first update the record stays pending, at the fallback's update it holds the failed primary attempt. Otherwise one record is inserted and updated per attempt; the fallback is tried exactly when the primary fails and a fallback channel is given, to the fallback address or the original one; the channel used is the fallback only when it succeeded |
| Messaging.UnconfiguredNeverSends | src/services/messaging.ts:36-109 | with no provider configured for either channel the result fails on the primary channel and the record is `failed` |
| Messaging.ProcessMessagingRetry | src/workers/messagingRetry.ts:16-116 | a store rejection is rethrown with the earlier writes in place. Otherwise: a missing message reports `message_not_found`; a sent or delivered one `already_delivered`, with nothing written; five or more retries mark it failed and report `max_retries_exceeded`; below five the retry count goes up by one before sending, a success marks it delivered, a failure marks it `retry_failed` and throws; other messages are untouched |
| Messaging.RetryKeepsBound | src/workers/messagingRetry.ts:39-68 | a retry keeps every retry count within [0,5] |
| Messaging.FailingRetriesCap | src/workers/messagingRetry.ts:39-68 | however many failing retries run, a message with c ≤ 5 retries ends with min(c+n, 5) |
| Messaging.GivesUpAfterFive | src/workers/messagingRetry.ts:40-55 | after five failed retries the next job gives up without sending |
| Refunds.Crashed | src/workers/refundExecutor.ts:171-193 | on an error the refund, if it exists, is marked failed with the error's message, nothing else changes, and the error is rethrown |
| Refunds.ProcessRefundExecute | src/workers/refundExecutor.ts:20-194 | refunds disabled: refused with nothing written; over the limit: the refund is upserted as rejected; the job succeeds exactly when enabled, within the limit, the transaction exists and has no completed refund, and nothing throws; success completes the refund, marks the transaction refunded with this refund and amount, and appends one `refund_executed` audit entry |
| Refunds.LimitCheckedFirst | src/workers/refundExecutor.ts:31-50 | the limit is checked before the transaction lookup; an amount equal to the limit is not rejected |
| Refunds.NoDoubleRefund | src/workers/refundExecutor.ts:75-84 | once a transaction's refund has completed, no later job refunds it again; a later job within the limit is refused `already_refunded` with nothing written |
| Refunds.FailureAfterProcessingMarksFailed | src/workers/refundExecutor.ts:86-193 | a store failure after the refund is marked processing leaves it failed with the error's message, and the error is rethrown |
| Refunds.CreateRefundController | src/controllers/refundController.ts:7-68 | a falsy id or amount gives 400; a non-number or non-positive amount gives 400; a job is enqueued exactly when the transaction exists and has no processing or completed refund; 409 exactly for such a refund; the reply is 202 `queued` when the enqueue succeeds and 500 otherwise |
| Refunds.CreateRefund | src/controllers/refundController.ts:10-18 | a falsy id or amount gives 400, a non-number amount gives 400, and a job is enqueued exactly when the amount is positive, the id names a transaction and no refund is underway; 409 exactly when one is |
| Refunds.PlaceholderAlwaysAccepted | src/controllers/refundController.ts:45-60 | with the placeholder queue every enqueued refund is answered 202 without a job id |
| Refunds.GetRefundStatusController | src/controllers/refundController.ts:70-95 | an empty id gives 400, an unknown refund 404; 200 exactly when found, with the document minus its `_id` |
| Payments.PaymentIntentIdShape | src/services/payments.ts:18-21 | the check accepts exactly `pi_` followed by eight or more ASCII letters or digits |
| Payments.PaymentIntentIdCommentDisagrees | src/services/payments.ts:19-20 | an underscore after the prefix, and an id of ten characters, are rejected although the comment allows both |
| Payments.RequestRefund | src/services/payments.ts:23-61 | the call fails exactly when the connection or the insert rejects or the id is taken, and then writes nothing; otherwise one record is inserted under the new id with status `pending_approval` exactly when the amount exceeds the limit and `accepted` otherwise, and the result is ok; a Slack alert is sent exactly when approval is needed and a channel is configured |
| Payments.RequestKeepsConsistent | src/services/payments.ts:27-37 | every stored request's status stays consistent with the limit |
| Payments.RequestRefundController | src/controllers/payController.ts:5-38 | a missing or non-string intent id, an id failing the check, or a non-finite or non-positive amount gives 422 with nothing written; a valid request fails exactly when the service rejects or the id is taken, with that error and nothing written; otherwise one record is stored, the reply is 202 for `pending_approval` and 200 for `accepted`, and a `refund_request` audit entry is made |
| Payments.ApprovalMatchesReply | src/controllers/payController.ts:21-37 | a well-formed request over the limit gets 202 and one at or under it 200, and the stored status matches the reply |
| Storage.UpsertFlag | src/services/storage.ts:15 | `options?.upsert ?? true`: absent or null options upsert, and `upsert: false` does not |
| Storage.UpsertDocument | src/services/storage.ts:5-20 | a collection outside the eight allowed names throws a 400 error with nothing written; otherwise `updateOne` with `$set` runs on that collection alone and its result is reported |
| Storage.OnlyAllowedCollectionsChange | src/services/storage.ts:3-15 | only the named collection can change, and only allowed names ever do |
| Storage.ErrorStatus | src/controllers/storageController.ts:16 | `e.status \|\| 500` |
| Storage.UpsertController | src/controllers/storageController.ts:4-18 | a falsy collection, match or update gives 400; a refused collection gives 400 `Collection not allowed`; a driver failure gives its status or 500; otherwise 200 with the upsert result |
| Storage.RepeatedUpsertChangesNothing | src/services/storage.ts:15 | sending the same upsert twice leaves the collection as the first left it |
| Users.GetUserController | src/controllers/userController.ts:6-32 | an empty id gives 400 and a store failure 500; otherwise 404 exactly when no user has the id, and 200 with the first such user minus `_id` and `password_hash` |
| Users.NewUser | src/controllers/userController.ts:61-70 | the new user has the fresh id, the given e-mail and phone, status `active`, the creation time, and `metadata` or `{}` |
| Users.NewUserAsWritten | src/controllers/userController.ts:61-72 | the stored document has `email` and `phone` set, `null` when the request left them out |
| Users.CreateUserWith | src/controllers/userController.ts:34-82 | no truthy e-mail or phone gives 400; a store failure 500; an existing user with that e-mail or phone 409; 201 exactly when none of these holds and the insert breaks no unique index, and then the user is appended |
| Users.CreateUserAsWritten | src/controllers/userController.ts:34-82 | as it runs: the stored user has absent contacts as `null`, and creation succeeds exactly when no unique index refuses that document |
| Users.CreateIntoEmpty | src/controllers/userController.ts:37-77 | a request with a contact goes into an empty collection |
| Users.NullEmailClash | src/db/indexes.ts:103-106 | a phone-only user stored with `email: null` is refused with 500 when another `email: null` user exists |
| Users.PhoneOnlyUsersClash | src/controllers/userController.ts:61-80 | of two phone-only users with different phones, the second is refused with 500 |
| Users.CreateUserController | src/controllers/userController.ts:34-82 | storing only the given fields: success exactly when there is a contact, no failure, no existing user and no index clash, and then the user is appended |
| Users.CreateSucceedsWhenFree | src/controllers/userController.ts:37-77 | with only given fields stored, a user whose contacts are free is always created under a fresh id |
| Users.SecondPhoneOnlyFree | src/db/indexes.ts:103-110 | a phone-only user is stored next to a user without an e-mail field |
| Users.PhoneOnlyUsersCoexist | src/controllers/userController.ts:34-82 | two phone-only users with different phones and ids both succeed |
| Users.GetAppended | src/controllers/userController.ts:16-27 | a user appended under a fresh id is found by that id |
| Users.CreateThenGet | src/controllers/userController.ts:6-82 | a created user is found by its id, without internal fields |
| Users.UpdateFields | src/controllers/userController.ts:96-101 | the update sets `updatedAt` and each of `email`, `phone`, `name`, `metadata` and `status` that is not undefined, and nothing else |
| Users.UpdateUserController | src/controllers/userController.ts:84-122 | an empty id gives 400 and a failure 500; 404 exactly when no user has the id; 200 rewrites only the first user with the id and returns it |
| Users.SetUpdateFields | src/controllers/userController.ts:103-106 | `$set` gives each field its updated value |
| Users.UpdateSetsFields | src/controllers/userController.ts:103-106 | a successful update sets the update fields on the first user with the id |
| Users.UpdateOnlyProvided | src/controllers/userController.ts:96-106 | an update writes exactly the provided fields and `updatedAt`, and leaves every other field alone |
| Auth.Authenticated | src/controllers/authController.ts:20-31 | an account with a falsy `password_hash` fails without asking argon2; otherwise argon2 decides |
| Auth.LoginController | src/controllers/authController.ts:8-68 | missing e-mail or password gives exactly 400; an unknown account, a missing hash or a wrong password give exactly 401; an accepted password without JWT_SECRET gives exactly 500 `Authentication not configured`; 200 exactly when all checks pass and the update succeeds, with a 7-day token over `user_id` and `email`, the shown fields, and `last_login_at` set; nothing is written otherwise |
| Auth.BadCredentialsIndistinguishable | src/controllers/authController.ts:20-31 | an unknown address, an account without a hash and a wrong password get the same answer |
| Auth.SecretCheckedAfterPassword | src/controllers/authController.ts:26-38 | JWT_SECRET is looked at only after the password checks out |
| Auth.ClaimsAndShown | src/controllers/authController.ts:41-62 | the token claims are `user_id` and `email` alone, and the user shown has no password hash |
| Auth.LoginAnswer | src/controllers/authController.ts:41-63 | a successful login answers with the token over the account's claims and its shown fields |
| Auth.LoginRevealsNoHash | src/controllers/authController.ts:41-63 | a successful login never reveals the password hash |
| Auth.LoginUpdates | src/controllers/authController.ts:50-54 | a successful login stores the `last_login_at` update |
| Auth.LoginStampsAccount | src/controllers/authController.ts:50-54 | the account found, when it has a `user_id`, gets `last_login_at` set to the login time |
| Auth.LogoutController | src/controllers/authController.ts:70-74 | logging out always answers 204 with no body |
| Auth.GetMeController | src/controllers/authController.ts:76-101 | a falsy attached `user_id` gives exactly 401; a failure 500; an unknown id 404; otherwise 200 with the user minus `_id` and `password_hash` |
| Auth.GetMeIsGetUser | src/controllers/authController.ts:76-101 | for a logged-in user, `GET /me` answers as `GET /users/:id` |
| Flows.ExecuteFlowController | src/controllers/flowController.ts:6-40 | a falsy `flow_name` or a non-array `steps` gives exactly 400; otherwise one job is enqueued with the new flow id, the name, the steps, the user and the context or `{}`, answered 200 when the enqueue succeeds and 500 otherwise |
| Flows.PlaceholderFlowAccepted | src/controllers/flowController.ts:18-32 | with the placeholder queue every valid request is answered 200 with `queued: false` and no job id |
| Flows.GetFlowStatusController | src/controllers/flowController.ts:42-75 | an empty id gives exactly 400, a failure 500, no execution with the id exactly 404; 200 shows the first such execution's status fields and nothing else |
| Flows.StatusIsProjection | src/controllers/flowController.ts:61-70 | a found execution is answered with its fixed projection |
| Flows.StatusHidesContext | src/controllers/flowController.ts:61-70 | the status never shows the context, the user or the execution id |
| KeyOrder.Sort | src/lib/hmac.ts:28 | `keys.sort()` returns an ordered rearrangement of the keys, ordered by UTF-16 code units |
| KeyOrder.LeIsUnitOrder | src/lib/hmac.ts:28 | comparing keys character by character on their UTF-16 rank is the same as comparing their UTF-16 code-unit sequences |
| KeyOrder.CommonUnits | src/lib/hmac.ts:28 | a shared prefix of code units does not change the order |
| KeyOrder.FirstCharDecides | src/lib/hmac.ts:28 | at the first differing character, the order of the code units is the order of the ranks |
| KeyOrder.AstralBeforeHighPlane | src/lib/hmac.ts:28 | U+1F600, written as a surrogate pair, sorts before U+FF01, unlike in code-point order |
| KeyOrder.SortedUnique | src/lib/hmac.ts:28 | two arrangements of the same keys sorted by UTF-16 code units are the same sequence |
| KeyOrder.SortPermutationInvariant | src/lib/hmac.ts:28 | the keys sorted by UTF-16 code units depend only on which keys there are, not on their order |
| Docs.FindFirst | src/controllers/userController.ts:16 | `findOne` picks the first document in natural order that matches the filter |
| Docs.FindOne | src/controllers/userController.ts:16 | `findOne` finds something exactly when some document matches, and what it finds matches |
| Docs.SetAllLookup | src/controllers/userController.ts:103-106 | after `$set`, a set field reads its new value and every other field reads as before |
| Docs.Public | src/controllers/userController.ts:24-25 | the user without `_id` and `password_hash`, every other field kept |
| Docs.Project | src/controllers/flowController.ts:61-70 | an object literal over named fields shows exactly those fields, leaving missing ones out |
| Docs.UpdateOne | src/services/storage.ts:15 | `updateOne` with `$set` updates the first match only; without a match an upsert appends the filter's fields plus the set fields under a fresh `_id`; without upsert nothing changes |
| Docs.UpdateEstablishes | src/services/storage.ts:15 | after an upsert, or an update that matched, some document holds every field set |
| Docs.UpdateIdempotent | src/services/storage.ts:15 | repeating an update that agrees with its filter changes nothing more |
| Json.EscapeRoundTrip | src/lib/hmac.ts:22-29 | the quoted text of a string decodes back to that string, so quoting a key or a string value loses nothing |
| Json.QuoteInjective | src/lib/hmac.ts:29 | two keys with the same quoted text are the same key, so distinct keys appear distinctly in the canonical form |
| FlowExec.WordRun | src/workers/flowExecutor.ts:210 | `\w+` takes the longest run of word characters: what it returns is a prefix made of word characters, and the next character is not one |
| FlowExec.PlaceholderAt | src/workers/flowExecutor.ts:210 | a match of `\{\{(\w+)\}\}` at the start of the text: the captured word is non-empty, made of word characters, and the text begins with `{{word}}` |
| FlowExec.WordRunBefore | src/workers/flowExecutor.ts:210 | a word followed by `}` is captured whole |
| FlowExec.SubstPlaceholder | src/workers/flowExecutor.ts:210 | `{{w}}` becomes the text of `context[w] \|\| ''` and what follows is substituted on its own |
| FlowExec.SubstPlainPrefix | src/workers/flowExecutor.ts:210 | text without `{` is left as it is |
| FlowExec.Subst | src/workers/flowExecutor.ts:210 | text without `{` comes back unchanged |
| FlowExec.Replace | src/workers/flowExecutor.ts:208-223 | `replaceVariables` keeps the shape of its input: strings stay strings, arrays keep their length, objects keep their keys in order, and other values come back unchanged |
| FlowExec.ReplaceWithoutBraces | src/workers/flowExecutor.ts:208-223 | a value without any `{` comes back unchanged |
| FlowExec.EvaluateCondition | src/workers/flowExecutor.ts:225-236 | the condition is met iff `context[condition]` is truthy, and a missing condition reads the property `"undefined"` |
| FlowExec.ConditionNotSubstituted | src/workers/flowExecutor.ts:229-232 | the substituted condition is computed and then ignored, so `{{w}}` is not met even when `context.w` is truthy |
| FlowExec.ConditionStep | src/workers/flowExecutor.ts:190-200 | the result records whether the condition was met, and `path_taken` is `true_path` when it was and `false_path` when it was not |
| FlowExec.StoredCondition | src/workers/flowExecutor.ts:190-200 | the stored copy of a condition result is the result itself, with `path_taken: null` added when the chosen path is undefined |
| FlowExec.ExecuteStep | src/workers/flowExecutor.ts:56-71 | `http`, `db` and `delay` steps go to their executors; any other type except `condition` fails with `Unknown step type: <type>` |
| FlowExec.Attempt | src/workers/flowExecutor.ts:53-93 | an entry carries the step's id and name and the time; it records success iff the step succeeded, with the result on success and the error message on failure |
| FlowExec.StoredEntryForm | src/workers/flowExecutor.ts:73-93 | the stored entry has all five members in order, with an undefined step id, name or error written as `null` |
| FlowExec.KeptEntryForm | src/workers/flowExecutor.ts:73-93 | the returned entry has the step id, name and error exactly when they are defined |
| FlowExec.OptLookupFirst | src/workers/flowExecutor.ts:73-93 | a member whose key no other member has is found with its own value, or not at all when undefined |
| FlowExec.Advance | src/workers/flowExecutor.ts:82 | a success puts its result under `step_<id>` and leaves every other key as it was; a failure leaves the context alone |
| FlowExec.RunSteps | src/workers/flowExecutor.ts:49-104 | never more entries than steps, and one entry per step when the run does not fail |
| FlowExec.RunShape | src/workers/flowExecutor.ts:49-104 | entry `i` belongs to step `i`; a run ends early only at a `stop` failure or a `null` step; every failure the run goes past had an `on_error` that is not `stop` |
| FlowExec.NonStoppingStepsRunAll | src/workers/flowExecutor.ts:95-102 | when no step stops on error and none is `null`, the run attempts every step and ends without error |
| FlowExec.DefaultStopsAtFailure | src/workers/flowExecutor.ts:96-98 | a failing step without `on_error` ends the run after one entry, rethrowing its error |
| FlowExec.LastResultInContext | src/workers/flowExecutor.ts:82 | after a run that completes, the last step's successful result is in the context under its key |
| FlowExec.ExecutionRecord | src/workers/flowExecutor.ts:38-46 | the inserted record carries the execution id and status `running` |
| FlowExec.ProcessFlowExecute | src/workers/flowExecutor.ts:27-145 | if `getDb` fails, the error is rethrown and the store is untouched. If the insert fails, its error is rethrown. Otherwise the job completes exactly when the step run does not fail. A completed job returns `ok`, the execution id, the flow id and the entries. A failed job rethrows the step's error. Either way the record is closed by one update, whose entries keep undefined members as `null` |
| FlowExec.ClosingStatus | src/workers/flowExecutor.ts:107-141 | the closing update sets status `completed` after a full run and `failed` otherwise |
| FlowExec.ExecutionEndsSettled | src/workers/flowExecutor.ts:36-141 | with a fresh execution id, exactly one record is added, and it ends `completed` or `failed` to match the run |
| Cleanup.RetentionDays | src/workers/cleanupDaily.ts:51 | a missing or zero `retention_days` gives 90 days, and any other value is used as it is |
| Cleanup.ArchiveNotSwept | src/workers/cleanupDaily.ts:60 | the archive collection is not one of the collections the job deletes from |
| Cleanup.Keep | src/workers/cleanupDaily.ts:23-97 | `deleteMany` keeps exactly the records its filter does not select, and never adds one |
| Cleanup.Picked | src/workers/cleanupDaily.ts:54-56 | `find` returns exactly the records the filter selects |
| Cleanup.KeepPickedSplit | src/workers/cleanupDaily.ts:54-65 | with one filter, every record is either kept or picked, never both, as a multiset |
| Cleanup.KeepIdempotent | src/workers/cleanupDaily.ts:23-97 | a second delete at the same time removes nothing more |
| Cleanup.AfterSweep | src/workers/cleanupDaily.ts:21-99 | each swept collection keeps what its rule does not select; the archive gains the old audit entries after its own; every other collection is untouched |
| Cleanup.DailyCleanup | src/workers/cleanupDaily.ts:14-132 | if `getDb` fails, its error is rethrown and nothing changes. Otherwise the result is the swept database and a summary whose `total_records_cleaned` is the sum of the eight counters |
| Cleanup.SummaryTotal | src/workers/cleanupDaily.ts:106-126 | the summary reads back the total that was written last |
| Cleanup.ArchivedCountIsMoved | src/workers/cleanupDaily.ts:58-70 | the `audit_logs_archived` counter is the number of entries moved, 0 when there are none |
| Cleanup.AuditEntriesMoved | src/workers/cleanupDaily.ts:54-65 | no audit entry is lost or duplicated: the log and the archive together hold the same multiset before and after |
| Cleanup.TotalIsRecordsRemoved | src/workers/cleanupDaily.ts:108-116 | the total equals the number of records that left the swept collections |
| Cleanup.CleanupIdempotent | src/workers/cleanupDaily.ts:14-132 | running the job again at the same time removes nothing, and its total is 0 |
| Cleanup.SumRemovedZero | src/workers/cleanupDaily.ts:108-116 | after a sweep, no counter has anything left to remove |
| Cleanup.UnfinishedRecordsStay | src/workers/cleanupDaily.ts:74-97 | unfinished records stay however old they are: messages not `delivered`, flow executions not `completed`, refunds neither `completed` nor `failed` |
| Health.ParseLine | src/controllers/healthController.ts:38-42 | a line adds an entry only when it is non-empty, not a `#` header, has a non-empty key and a value; neither key nor value holds a colon; a line without a colon adds nothing |
| Health.SplitAtFirst | src/controllers/healthController.ts:39 | `split(':')` cuts at the first colon |
| Health.ParseKeyValue | src/controllers/healthController.ts:39-41 | `key:value` gives that key and value, and so does `key:value:more`: the value stops at the second colon |
| Health.ParseRedisInfo | src/controllers/healthController.ts:34-46 | every key of the parsed record is non-empty and colon-free, and so is its value |
| Health.CollectLastLine | src/controllers/healthController.ts:36-44 | a key is in the record iff some line names it, and its value comes from the last such line |
| Health.LastLineFor | src/controllers/healthController.ts:37-43 | the last line naming a key: it names the key and no later line does |
| Health.HealthCheck | src/controllers/healthController.ts:48-162 | the status is 200 or 503. It is 200 exactly when the database answered, a configured Redis did not throw, and a configured n8n neither threw nor answered 500 or more. The body's `ok` agrees with the status |
| Health.UnconfiguredDoesNotCount | src/controllers/healthController.ts:79-144 | an unconfigured Redis or n8n does not affect the status, whatever its probe says, and neither does deep mode or the workers report |
| Health.RedisAnswerIsNotFailure | src/controllers/healthController.ts:82-119 | a Redis that answers anything, even something other than `PONG`, and a client that could not be made, leave the status as if Redis were not configured |
| Logger.RunOf | src/lib/logger.ts:35 | a greedy `[...]+` consumes the longest run of matching characters: each is accepted and the next one is not |
| Logger.TokenPrefixAt | src/lib/logger.ts:35 | a non-zero length is the length of a token prefix the text starts with, in any case; zero means none of the six prefixes starts it |
| Logger.BearerPrefixAt | src/lib/logger.ts:41 | `Bearer\s+` matches, in any case, exactly when `bearer` is followed by whitespace, and it takes all of that whitespace |
| Logger.MaskAfterMatch | src/lib/logger.ts:34-43 | a prefix followed by a body is replaced as one match by the prefix and `***`, and scanning resumes after the body |
| Logger.MaskAfterNoMatch | src/lib/logger.ts:34-43 | text in which no position starts a match comes back unchanged |
| Logger.TokensNeedUnderscore | src/lib/logger.ts:34-37 | every token prefix ends in `_`, so text without an underscore passes the token rule unchanged |
| Logger.PrefixHasUnderscore | src/lib/logger.ts:35 | text that starts with a token prefix, in any case, contains an underscore |
| Logger.PrefixDecided | src/lib/logger.ts:35 | at most one alternative of the token prefix can match at a position, so the order of the alternatives does not matter |
| Logger.TokenMasked | src/lib/logger.ts:34-37 | a token keeps its prefix and loses the rest, as in `sk_live_abc` to `sk_***` |
| Logger.BearerMasked | src/lib/logger.ts:40-43 | `Bearer <credential>` keeps `Bearer` and its spacing and hides the credential |
| Logger.MaskString | src/lib/logger.ts:17-45 | the rules apply in the order e-mail, phone, token, Bearer, and the token rule leaves text without `_` alone |
| Logger.BearerNeedsWord | src/lib/logger.ts:40-43 | text with no `bearer`, in any case, passes the Bearer rule unchanged |
| Logger.PlainTextUnchanged | src/lib/logger.ts:17-45 | text the e-mail and phone rules leave alone, with no `_` and no `bearer`, is logged as it is |
| Logger.Mask | src/lib/logger.ts:12-67 | strings go through the four rules in order. Arrays keep their length, with each element masked. Objects keep their keys, a sensitive key's value becomes `***` and any other value is masked. Numbers, booleans and `null` come back unchanged |
| Logger.MaskPII | src/lib/logger.ts:13-15 | `undefined` and `null` come back as they are |
| Logger.SensitiveValueHidden | src/lib/logger.ts:55-58 | under a key containing `password` or `secret`, or equal to `token`, in any case, the value is `***` whatever it held |
| Logger.StringFreeUnchanged | src/lib/logger.ts:12-67 | a value with no strings and no sensitive keys is logged unchanged |

## Left out

- Crypto and identifiers: SHA-256, HMAC-SHA256, argon2, JWT sign/verify, uuid and `crypto.randomInt`. They are function parameters or given values, and nothing is assumed about them beyond what a lemma's `requires` states.
- Third-party parsers and libraries: `JSON.parse`, `Number()`, zod (the schema is a predicate), libphonenumber's E.164 formatting, `validator.normalizeEmail`, `ipaddr` CIDR matching, and the email and phone regular expressions of `maskPII`. Each is a function parameter.
- Provider SDKs (Twilio, SendGrid, Slack), the alert service, Mustache templates and the filesystem: outcomes are parameters.
- Floating point: JSON numbers are integers. Rounding of `db_size_mb` and of the database statistics is not modelled; those values are passed in.
- UTF-8: the raw body is its decoded text. Case mapping is ASCII only. Strings are sequences of Unicode scalar values. Where the source measures a secret's `.length` or sorts keys, the model counts and compares UTF-16 code units (`Text.Utf16`). The other lengths the core measures are only tested against zero, where both counts agree.
- Concurrency: every store is used sequentially. Races between concurrent requests on the idempotency and dedup stores are out of scope; the insert that fails on an existing key stands in for the unique index.
- Express 4 does not route a rejected promise from an async middleware to the error handler. The model sends every throw to the error handler. This includes the webhook controller's rejected forward, where Express 4 would leave the request unanswered.
- Otp.VerifyOtpController: an `otp_id` that is not a string is taken to match no record. Mongo reads an object such as `{"$ne": null}` as a query operator, which matches some record, and the delete or increment that follows uses the same filter.
- Refunds.CreateRefundController: a `transaction_id` that is not a string is taken to match no transaction. An operator object such as `{"$ne": null}` would match the first transaction.
- Otp.Guesses: every guess in the sequence runs against the same collaborators. The lemmas about repeated guesses assume a working store.
- MongoDB queries beyond equality on top-level fields: dotted paths, array matching, `null` matching a missing field, and BSON ordering. Dates are millisecond numbers.
- Truthiness of a non-boolean `upsert` option in the storage service: only `true`, `false` and absent are modelled.
- Webhook.RawParser: follows body-parser 1.x, which leaves the empty object on a request it skips; under 2.x `req.body` stays undefined and the signature stage answers 400. Whether a Content-Type is well-formed is a parameter. When the reader fails in another way (an aborted request, an unsupported Content-Encoding, a length mismatch), the model answers that error whatever the body size.
- JavaScript prototype keys (`__proto__`, `constructor`) in request bodies, and the texts of V8 `TypeError`s.
- Flow executor: a failing `updateOne` on the execution record, and a non-object flow context. Each job reads the clock once. `http`, `db` and `delay` steps are performed by a given external executor.
- Health endpoint: the Redis client cache and the connection timeouts.
- Daily cleanup: partial failures between its deletes, and duplicate-key errors from the archive `insertMany`. `cleanup_date` is a parameter. The source takes it from `new Date()`, not from the job data.
- Logger: winston transports and formatting.
- Cleanup.DailyCleanup: each run reads the clock once. The source reads it again for each cutoff and each expiry test, so its cutoffs can differ by the time the run takes.
- Repeated object keys: a JSON object is a list of members and may repeat a key. `Json.Stringify` and `Hmac.CanonicalStringify` write every member, while `JSON.parse` keeps only the last of a repeated key. Bodies are taken as already parsed.
- Member order of integer-like keys: JavaScript lists keys such as `"1"` before the other keys in `Object.entries` and `JSON.stringify`. The model keeps insertion order, which differs for such keys in `Logger.Mask` output and in reply bodies.
- TTL expiry of records. The idempotency stage writes `expiresAt` while the TTL index and the cleanup use `expires_at`; no expiry is modelled.
- `SIGNATURE_TOLERANCE_SEC`: the setting is loaded but unused. The signature stage fixes the window at 300 seconds.
- The `express-rate-limit` wrapper, server start-up, route registration other than the webhook chain, BullMQ workers and process signals, the OCR stub, the allow-all verification service, the audit insert helper, and the thin msg/verify/alert controllers.

## Findings

| source | as written | input that shows it | evidently intended | confidence | as-written member | corrected member |
|---|---|---|---|---|---|---|
| src/controllers/userController.ts:61-72 | a phone-only user is stored with `email: undefined`, which the driver writes as `null`; the unique sparse index on `email` indexes `null`, so a second phone-only user violates it and the request fails with 500 | two creates with bodies `{phone: "+15550001"}` and `{phone: "+15550002"}` | phone-only users with distinct phones can both be created | medium, not executed | Users.PhoneOnlyUsersClash | Users.PhoneOnlyUsersCoexist |
| src/controllers/webhookController.ts:9-17 | `handleWebhookEntry` awaits `forwardToN8n`, whose HTTP client rejects any status of 500 or more and any network error; the rejection escapes, so the `200 accepted` reply is never sent | n8n answers 503 to the forward | the reply is 200 whatever the forward's outcome, and a failed forward is only logged | medium, not executed | Forward.AsWrittenFailsOnServerError | Forward.HandleEntrySpec |
