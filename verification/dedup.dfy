/** `deduplicate`: every admitted webhook gets an internal event id — the
    X-Idempotency-Key header verbatim when it is non-empty, otherwise a
    digest of the canonical payload, its source and the UTC day — and the
    id is inserted into `processed_events`, whose key is unique. An id that
    is already there marks a duplicate, answered 200 without going on. */
module Dedup {
  import opened Options
  import opened Text
  import opened Json
  import opened Hmac
  import opened Http

  datatype EventRecord = EventRecord(internalEventId: string, createdAt: int, expiresAt: int)

  /** `processed_events`, by its unique `internal_event_id`. */
  type Events = map<string, EventRecord>

  /** Dedup records live 72 hours. */
  const EventTtlMs: int := 72 * 60 * 60 * 1000

  /** `(payload && payload.source) || 'unknown'`, as the template string
      writes it. */
  function EventSource(payload: Json): (r: string)
    ensures !Truthy(Get(payload, "source")) ==> r == "unknown"
    ensures Get(payload, "source").Some? && Get(payload, "source").value.JStr? && Get(payload, "source").value.s != "" ==>
      r == Get(payload, "source").value.s
  {
    ToStr(Or(Get(payload, "source"), Some(JStr("unknown"))).value)
  }

  /** The digested fingerprint of a payload on a day (`YYYY-MM-DD`). */
  function Fingerprint(payload: Json, day: string): string {
    Canonical(payload) + "|" + EventSource(payload) + "|" + day
  }

  /** The internal event id. `sha` is SHA-256 in hex; `day` is the UTC date
      of the clock. */
  function InternalEventId(sha: string -> string, day: string, req: Request): (r: string)
    ensures HeaderOr(req, "X-Idempotency-Key") != "" ==> r == HeaderOr(req, "X-Idempotency-Key")
    ensures HeaderOr(req, "X-Idempotency-Key") == "" ==> r == sha(Fingerprint(PayloadOrEmpty(req), day))
  {
    var key := HeaderOr(req, "X-Idempotency-Key");
    if key != "" then key else sha(Fingerprint(PayloadOrEmpty(req), day))
  }

  /** Without an idempotency header, payloads equal up to key order, with
      the same source, on the same day get the same id. */
  lemma EventIdKeyOrder(sha: string -> string, day: string, a: Request, b: Request)
    requires HeaderOr(a, "X-Idempotency-Key") == "" && HeaderOr(b, "X-Idempotency-Key") == ""
    requires SameUpToKeyOrder(PayloadOrEmpty(a), PayloadOrEmpty(b))
    requires EventSource(PayloadOrEmpty(a)) == EventSource(PayloadOrEmpty(b))
    ensures InternalEventId(sha, day, a) == InternalEventId(sha, day, b)
  {
    CanonicalKeyOrder(PayloadOrEmpty(a), PayloadOrEmpty(b));
  }

  datatype DedupResult = DedupResult(outcome: Outcome, req: Request, events: Events)

  function DuplicateBody(id: string): Json {
    JObj([("status", JStr("accepted")), ("internal_event_id", JStr(id)), ("duplicate", JBool(true))])
  }

  /** The middleware. The id is attached to the request on every path;
      `insertError` is an insert failure other than a duplicate key, which
      is rethrown. */
  function Deduplicate(sha: string -> string, day: string, nowMs: int, insertError: Option<Failure>,
                       req: Request, events: Events): (r: DedupResult)
    ensures r.req == req.(internalEventId := Some(InternalEventId(sha, day, req)))
    ensures r.outcome.Next? <==> insertError.None? && InternalEventId(sha, day, req) !in events
    ensures r.outcome.Next? ==>
      var id := InternalEventId(sha, day, req);
      r.events == events[id := EventRecord(id, nowMs, nowMs + EventTtlMs)]
    ensures !r.outcome.Next? ==> r.events == events
    ensures r.outcome.Respond? ==> r.outcome.reply == JsonReply(200, DuplicateBody(InternalEventId(sha, day, req)))
  {
    var id := InternalEventId(sha, day, req);
    var req' := req.(internalEventId := Some(id));
    if insertError.Some? then DedupResult(Fail(insertError.value), req', events)
    else if id in events then DedupResult(Respond(JsonReply(200, DuplicateBody(id))), req', events)
    else DedupResult(Next, req', events[id := EventRecord(id, nowMs, nowMs + EventTtlMs)])
  }

  /** Insert-once: the same event admitted twice goes on the first time
      and is answered as a duplicate, with nothing written, the second. */
  lemma AdmitOnce(sha: string -> string, day: string, now1: int, now2: int, req: Request, events: Events)
    requires InternalEventId(sha, day, req) !in events
    ensures var first := Deduplicate(sha, day, now1, None, req, events);
      var second := Deduplicate(sha, day, now2, None, req, first.events);
      first.outcome == Next
      && second.outcome == Respond(JsonReply(200, DuplicateBody(InternalEventId(sha, day, req))))
      && second.events == first.events
  {
  }

  /** A header with surrounding spaces is used as is, not trimmed. */
  lemma HeaderNotTrimmed(sha: string -> string, day: string, req: Request)
    requires HeaderOr(req, "X-Idempotency-Key") == " k "
    ensures InternalEventId(sha, day, req) == " k "
  {
  }
}
