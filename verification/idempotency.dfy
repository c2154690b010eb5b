/** The idempotency middleware. A request carrying a non-blank
    X-Idempotency-Key claims that key by inserting an `in_progress` record
    (the key is unique in the store); the handler's response is captured and
    written back when the response finishes. A later request with the same
    key either replays the stored response, or is refused with 409 while
    the first is still running or when it is a different request. */
module Idempotency {
  import opened Options
  import opened Text
  import opened Json
  import opened Hmac
  import opened Http

  datatype IdemStatus = InProgress | Succeeded | Failed

  datatype IdemRecord = IdemRecord(
    key: string,
    requestHash: string,
    status: IdemStatus,
    responseStatus: Option<int>,
    responseBodyJson: Option<Json>,
    responseBodyText: Option<string>,
    responseIsJson: Option<bool>,
    createdAt: int,
    updatedAt: int,
    expiresAt: int)

  /** The `idempotency_keys` collection, by its unique `key`. */
  type Store = map<string, IdemRecord>

  /** The text `computeRequestHash` digests: the upper-cased method and the
      path, then the raw body when one was captured (even an empty one),
      otherwise the canonical form of the payload. */
  function RequestText(req: Request): (r: string)
    ensures StartsWith(r, Upper(req.verb) + " " + req.path + "\n")
  {
    var head := Upper(req.verb) + " " + req.path + "\n";
    var r := if req.rawBody.Some? then head + req.rawBody.value else head + Canonical(PayloadOrEmpty(req));
    assert r[..|head|] == head;
    r
  }

  /** `computeRequestHash`; `sha` is SHA-256 in hex. */
  function RequestHash(sha: string -> string, req: Request): (r: string)
    ensures req.rawBody.Some? ==> r == sha(Upper(req.verb) + " " + req.path + "\n" + req.rawBody.value)
  {
    sha(RequestText(req))
  }

  /** Without a raw body the hash is blind to the order of the payload's
      keys, at any depth. */
  lemma HashIgnoresKeyOrder(sha: string -> string, req: Request, other: Request)
    requires req.rawBody.None? && other.rawBody.None?
    requires req.verb == other.verb && req.path == other.path
    requires SameUpToKeyOrder(PayloadOrEmpty(req), PayloadOrEmpty(other))
    ensures RequestHash(sha, req) == RequestHash(sha, other)
  {
    CanonicalKeyOrder(PayloadOrEmpty(req), PayloadOrEmpty(other));
  }

  /** With a raw body the hash ignores the parsed payload entirely. */
  lemma RawBodyHashIgnoresPayload(sha: string -> string, req: Request, body: Option<Json>, normalized: Option<Json>)
    requires req.rawBody.Some?
    ensures RequestHash(sha, req) == RequestHash(sha, req.(body := body, normalizedPayload := normalized))
  {
  }

  /** The key the middleware reads: the header, trimmed. */
  function IdemKey(req: Request): string {
    Trim(HeaderOr(req, "X-Idempotency-Key"))
  }

  /** The record a first request inserts. */
  function FreshRecord(key: string, hash: string, ttlSec: int, nowMs: int): IdemRecord {
    IdemRecord(key, hash, InProgress, None, None, None, None, nowMs, nowMs, nowMs + ttlSec * 1000)
  }

  const AcceptedBody: Json := JObj([("status", JStr("accepted")), ("idempotent", JBool(true))])

  /** The replay of a finished record: the stored status (200 when none),
      the stored JSON body when the response was JSON, else the stored text,
      else a minimal `accepted` body; always marked as replayed. */
  function Replay(rec: IdemRecord): (r: Reply)
    ensures r.headers == [("Idempotency-Replayed", "true")]
    ensures rec.responseIsJson == Some(true) && rec.responseBodyJson.Some? ==>
      r == Reply(rec.responseStatus.GetOr(200), r.headers, JsonBody(rec.responseBodyJson.value))
    ensures rec.responseIsJson != Some(true) && rec.responseBodyText.Some? ==>
      r == Reply(rec.responseStatus.GetOr(200), r.headers, TextBody(rec.responseBodyText.value))
    ensures r.body.NoBody? == false
  {
    var hs := [("Idempotency-Replayed", "true")];
    var code := rec.responseStatus.GetOr(200);
    if rec.responseIsJson == Some(true) && rec.responseBodyJson.Some? then
      Reply(code, hs, JsonBody(rec.responseBodyJson.value))
    else if rec.responseIsJson != Some(true) && rec.responseBodyText.Some? then
      Reply(code, hs, TextBody(rec.responseBodyText.value))
    else Reply(200, hs, JsonBody(AcceptedBody))
  }

  /** The answer to a request whose key is already in the store. */
  function AnswerExisting(rec: IdemRecord, hash: string): (r: Reply)
    ensures rec.requestHash != hash ==> r == ErrorReply(409, "Idempotency key reuse with different request")
    ensures rec.requestHash == hash && rec.status == InProgress ==>
      r == ErrorReply(409, "Request with this Idempotency-Key is in progress")
    ensures rec.requestHash == hash && rec.status != InProgress ==> r == Replay(rec)
  {
    if rec.requestHash != hash then ErrorReply(409, "Idempotency key reuse with different request")
    else
      match rec.status
      case InProgress => ErrorReply(409, "Request with this Idempotency-Key is in progress")
      case _ => Replay(rec)
  }

  datatype Admission = Admission(outcome: Outcome, store: Store)

  /** The middleware's admission step. `insertError` is an insert failure
      other than a duplicate key, which propagates. */
  function Admit(ttlSec: int, nowMs: int, sha: string -> string, insertError: Option<Failure>,
                 req: Request, store: Store): (r: Admission)
    ensures IdemKey(req) == "" ==> r == Admission(Next, store)
    ensures r.outcome.Fail? ==> insertError.Some? && r.outcome.failure == insertError.value
    ensures r.store == store
         || (IdemKey(req) != "" && IdemKey(req) !in store && insertError.None? && r.outcome == Next
             && r.store == store[IdemKey(req) := FreshRecord(IdemKey(req), RequestHash(sha, req), ttlSec, nowMs)])
    ensures IdemKey(req) != "" && IdemKey(req) !in store && insertError.None? ==>
      r == Admission(Next, store[IdemKey(req) := FreshRecord(IdemKey(req), RequestHash(sha, req), ttlSec, nowMs)])
    ensures IdemKey(req) != "" && insertError.Some? ==> r == Admission(Fail(insertError.value), store)
    ensures IdemKey(req) != "" && IdemKey(req) in store && insertError.None? ==>
      r.store == store && r.outcome == Respond(AnswerExisting(store[IdemKey(req)], RequestHash(sha, req)))
  {
    var key := IdemKey(req);
    if key == "" then Admission(Next, store)
    else
      var hash := RequestHash(sha, req);
      if insertError.Some? then Admission(Fail(insertError.value), store)
      else if key !in store then Admission(Next, store[key := FreshRecord(key, hash, ttlSec, nowMs)])
      else Admission(Respond(AnswerExisting(store[key], hash)), store)
  }

  /* ---------------------------------------------------------------------
     Capturing the response and recording the outcome
     --------------------------------------------------------------------- */

  /** What the handler does with the response: `res.json(v)` (also what
      `res.send` of an object ends in), `res.send` of a string or buffer,
      or `res.send()` with no body. */
  datatype SendCall = JsonCall(json: Json) | SendText(text: string) | SendEmpty

  datatype Capture = Capture(wasJson: bool, json: Option<Json>, text: Option<string>)

  /** The wrapped `res.json`/`res.send`. `res.json` serialises its value
      and passes the string on to `res.send`, so the text is captured too. */
  function CaptureStep(c: Capture, call: SendCall): Capture {
    match call
    case JsonCall(j) => Capture(true, Some(j), Some(Stringify(j)))
    case SendText(t) => c.(text := Some(t))
    case SendEmpty => c
  }

  function Captured(calls: seq<SendCall>): Capture
    decreases |calls|
  {
    if |calls| == 0 then Capture(false, None, None)
    else CaptureStep(Captured(calls[..|calls| - 1]), calls[|calls| - 1])
  }

  /** The last JSON body sent, if any. */
  function LastJson(calls: seq<SendCall>): Option<Json>
    decreases |calls|
  {
    if |calls| == 0 then None
    else if calls[|calls| - 1].JsonCall? then Some(calls[|calls| - 1].json)
    else LastJson(calls[..|calls| - 1])
  }

  /** The last text body sent, if any. */
  function LastText(calls: seq<SendCall>): Option<string>
    decreases |calls|
  {
    if |calls| == 0 then None
    else if calls[|calls| - 1].SendText? then Some(calls[|calls| - 1].text)
    else LastText(calls[..|calls| - 1])
  }

  /** The capture remembers whether any JSON was sent and, if so, the last
      JSON value; without JSON, the last text sent. */
  lemma {:induction false} CapturedSpec(calls: seq<SendCall>)
    ensures Captured(calls).wasJson <==> LastJson(calls).Some?
    ensures Captured(calls).json == LastJson(calls)
    ensures LastJson(calls).None? ==> Captured(calls).text == LastText(calls)
    decreases |calls|
  {
    if |calls| > 0 {
      CapturedSpec(calls[..|calls| - 1]);
    }
  }

  /** The outcome recorded for a response status. */
  function OutcomeStatus(responseStatus: int): (s: IdemStatus)
    ensures s != InProgress
    ensures s == Failed <==> responseStatus >= 500
  {
    if responseStatus >= 500 then Failed else Succeeded
  }

  /** The `finish` handler: updates the record of this key only, and only
      if it still exists; a failed update is logged and changes nothing. */
  function Finish(store: Store, key: string, nowMs: int, responseStatus: int, cap: Capture,
                  updateFails: bool): (r: Store)
    ensures r.Keys == store.Keys
    ensures forall k :: k in store && k != key ==> r[k] == store[k]
    ensures key in r && !updateFails ==>
      r[key].status == OutcomeStatus(responseStatus) && r[key].responseStatus == Some(responseStatus)
      && r[key].responseIsJson == Some(cap.wasJson)
    ensures key in r ==>
      (r[key].requestHash == store[key].requestHash && r[key].key == store[key].key
       && r[key].expiresAt == store[key].expiresAt && r[key].createdAt == store[key].createdAt)
  {
    if updateFails || key !in store then store
    else
      var rec := store[key];
      store[key := rec.(status := OutcomeStatus(responseStatus),
                        updatedAt := nowMs,
                        responseStatus := Some(responseStatus),
                        responseIsJson := Some(cap.wasJson),
                        responseBodyJson := if cap.wasJson then cap.json else rec.responseBodyJson,
                        responseBodyText := if !cap.wasJson && cap.text.Some? then cap.text else rec.responseBodyText)]
  }

  /** Finishing never writes `in_progress`: a record in that state after a
      finish was already in it, unchanged. */
  lemma FinishNeverMarksInProgress(store: Store, key: string, nowMs: int, responseStatus: int,
                                   cap: Capture, updateFails: bool)
    ensures var r := Finish(store, key, nowMs, responseStatus, cap, updateFails);
      forall k :: k in r && r[k].status == InProgress ==> k in store && store[k] == r[k]
  {
  }

  /** Admission writes `in_progress` only for the fresh key it inserts. */
  lemma AdmitMarksOnlyFreshKey(ttlSec: int, nowMs: int, sha: string -> string, insertError: Option<Failure>,
                               req: Request, store: Store)
    ensures var r := Admit(ttlSec, nowMs, sha, insertError, req, store);
      forall k :: k in r.store && r.store[k].status == InProgress ==>
        (k in store && store[k] == r.store[k]) || (k == IdemKey(req) && k !in store && r.outcome == Next)
  {
  }

  /** The replay round trip: a first request is admitted and claims the
      key; its response finishes; the same request again gets the captured
      response back, with its status, without running the handler. */
  lemma ReplayRoundTrip(ttlSec: int, now1: int, now2: int, now3: int, sha: string -> string,
                        req: Request, store: Store, responseStatus: int, calls: seq<SendCall>)
    requires IdemKey(req) != "" && IdemKey(req) !in store
    ensures var a := Admit(ttlSec, now1, sha, None, req, store);
      var s2 := Finish(a.store, IdemKey(req), now2, responseStatus, Captured(calls), false);
      var b := Admit(ttlSec, now3, sha, None, req, s2);
      a.outcome == Next && b.store == s2
      && b.outcome == Respond(
           if LastJson(calls).Some? then
             Reply(responseStatus, [("Idempotency-Replayed", "true")], JsonBody(LastJson(calls).value))
           else if LastText(calls).Some? then
             Reply(responseStatus, [("Idempotency-Replayed", "true")], TextBody(LastText(calls).value))
           else Reply(200, [("Idempotency-Replayed", "true")], JsonBody(AcceptedBody)))
  {
    CapturedSpec(calls);
  }

  /** A retry that arrives while the first request is still running is
      refused with 409 and changes nothing. */
  lemma RetryWhileRunning(ttlSec: int, now1: int, now2: int, sha: string -> string, req: Request, store: Store)
    requires IdemKey(req) != "" && IdemKey(req) !in store
    ensures var a := Admit(ttlSec, now1, sha, None, req, store);
      var b := Admit(ttlSec, now2, sha, None, req, a.store);
      b == Admission(Respond(ErrorReply(409, "Request with this Idempotency-Key is in progress")), a.store)
  {
  }

  /** Reusing a key for a request that hashes differently is refused with
      409 whatever state the stored record is in. */
  lemma KeyReuseConflicts(ttlSec: int, nowMs: int, sha: string -> string, req: Request, store: Store)
    requires IdemKey(req) != "" && IdemKey(req) in store && store[IdemKey(req)].requestHash != RequestHash(sha, req)
    ensures Admit(ttlSec, nowMs, sha, None, req, store)
      == Admission(Respond(ErrorReply(409, "Idempotency key reuse with different request")), store)
  {
  }
}
