/** `forwardToN8n` and `handleWebhookEntry`: an admitted event is posted to
    the n8n ingest URL, and the webhook is answered with its internal
    event id. The shared HTTP client resolves only for statuses in
    [200, 500); any other status, and a request that gets no response at
    all, makes the post reject. */
module Forward {
  import opened Options
  import opened Text
  import opened Json
  import opened Http

  /** `a || b` on possibly-undefined strings, where '' is falsy. */
  function StrOr(a: Option<string>, b: Option<string>): (r: Option<string>)
    ensures Present(a) ==> r == a
    ensures !Present(a) ==> r == b
  {
    if Present(a) then a else b
  }

  /** The value of the first header of that name in an outgoing header list. */
  function HeaderValue(hs: seq<(string, string)>, name: string): (r: Option<string>)
    ensures r.Some? ==> (name, r.value) in hs
    ensures r.None? ==> forall i :: 0 <= i < |hs| ==> hs[i].0 != name
  {
    if |hs| == 0 then None
    else if hs[0].0 == name then Some(hs[0].1)
    else HeaderValue(hs[1..], name)
  }

  /** The headers of the post. The internal event id goes along whenever it
      is defined (an undefined header value is dropped by the client). */
  function RequestHeaders(internalEventId: Option<string>, correlationId: Option<string>,
                          token: Option<string>): seq<(string, string)>
  {
    [("Content-Type", "application/json")]
    + (if internalEventId.Some? then [("X-Internal-Event-Id", internalEventId.value)] else [])
    + (if Present(correlationId) then [("X-Correlation-Id", correlationId.value)] else [])
    + (if Present(token) then [("Authorization", "Bearer " + token.value)] else [])
  }

  lemma {:induction false} HeaderValueAppend(a: seq<(string, string)>, b: seq<(string, string)>, name: string)
    ensures HeaderValue(a + b, name) == if HeaderValue(a, name).Some? then HeaderValue(a, name) else HeaderValue(b, name)
    decreases |a|
  {
    if |a| == 0 {
      assert a + b == b;
    } else {
      assert (a + b)[1..] == a[1..] + b;
      HeaderValueAppend(a[1..], b, name);
    }
  }

  /** The header list is its four parts in order; a name is looked up in
      the first part that has it. */
  lemma HeaderParts(internalEventId: Option<string>, correlationId: Option<string>, token: Option<string>, name: string)
    ensures var a: seq<(string, string)> := if internalEventId.Some? then [("X-Internal-Event-Id", internalEventId.value)] else [];
      var b: seq<(string, string)> := if Present(correlationId) then [("X-Correlation-Id", correlationId.value)] else [];
      var c: seq<(string, string)> := if Present(token) then [("Authorization", "Bearer " + token.value)] else [];
      var h: seq<(string, string)> := [("Content-Type", "application/json")];
      HeaderValue(RequestHeaders(internalEventId, correlationId, token), name) ==
        if HeaderValue(h, name).Some? then HeaderValue(h, name)
        else if HeaderValue(a, name).Some? then HeaderValue(a, name)
        else if HeaderValue(b, name).Some? then HeaderValue(b, name)
        else HeaderValue(c, name)
  {
    var h: seq<(string, string)> := [("Content-Type", "application/json")];
    var a: seq<(string, string)> := if internalEventId.Some? then [("X-Internal-Event-Id", internalEventId.value)] else [];
    var b: seq<(string, string)> := if Present(correlationId) then [("X-Correlation-Id", correlationId.value)] else [];
    var c: seq<(string, string)> := if Present(token) then [("Authorization", "Bearer " + token.value)] else [];
    HeaderValueAppend(h + a + b, c, name);
    HeaderValueAppend(h + a, b, name);
    HeaderValueAppend(h, a, name);
  }

  /** Every header is set exactly under its condition, with its value:
      the content type and the internal id always, the correlation id and
      the bearer token only when they are non-empty. */
  lemma RequestHeadersSpec(internalEventId: Option<string>, correlationId: Option<string>, token: Option<string>)
    ensures var hs := RequestHeaders(internalEventId, correlationId, token);
      HeaderValue(hs, "Content-Type") == Some("application/json")
      && HeaderValue(hs, "X-Internal-Event-Id") == internalEventId
      && HeaderValue(hs, "X-Correlation-Id") == (if Present(correlationId) then correlationId else None)
      && HeaderValue(hs, "Authorization") == (if Present(token) then Some("Bearer " + token.value) else None)
  {
    var ct, ie, co, au := "Content-Type", "X-Internal-Event-Id", "X-Correlation-Id", "Authorization";
    assert ct[0] == 'C' && ie[2] == 'I' && co[2] == 'C' && au[0] == 'A';
    assert ct != ie && ct != co && ct != au && ie != co && ie != au && co != au;
    HeaderParts(internalEventId, correlationId, token, ct);
    HeaderParts(internalEventId, correlationId, token, ie);
    HeaderParts(internalEventId, correlationId, token, co);
    HeaderParts(internalEventId, correlationId, token, au);
  }

  /** The post as it leaves the service. */
  datatype Posted = Posted(url: string, payload: Json, headers: seq<(string, string)>)

  /** What the network gives the client: a response, or none at all. */
  datatype Transport = Answered(status: int, data: Json) | NoResponse

  /** `validateStatus` of the shared client. */
  predicate ClientResolves(status: int) {
    200 <= status < 500
  }

  /** How the client's promise settles; `rejection` is the error object the
      client builds when it rejects. */
  datatype Posting = Resolved(status: int, data: Json) | Rejected(error: Failure)

  function ClientPost(t: Transport, rejection: Transport -> Failure): (r: Posting)
    ensures r.Resolved? <==> t.Answered? && ClientResolves(t.status)
    ensures r.Resolved? ==> r.status == t.status && r.data == t.data
    ensures r.Rejected? ==> r.error == rejection(t)
  {
    if t.Answered? && ClientResolves(t.status) then Resolved(t.status, t.data) else Rejected(rejection(t))
  }

  datatype ForwardParams = ForwardParams(
    ingestUrl: Option<string>,
    token: Option<string>,
    payload: Json,
    internalEventId: Option<string>,
    correlationId: Option<string>)

  /** N8N_INGEST_URL and N8N_TOKEN. */
  datatype ForwardEnv = ForwardEnv(ingestUrl: Option<string>, token: Option<string>)

  datatype ForwardResult = ForwardResult(ok: bool, status: int, body: Option<Json>)

  /** The settled promise of an async function: its value, or what it threw. */
  datatype Settled<T> = Returned(value: T) | Threw(error: Failure)

  /** One call: the post it sends, if any, and how it settles. */
  datatype Forwarding = Forwarding(sent: Option<Posted>, result: Settled<ForwardResult>)

  /** `forwardToN8n`; `transport` is the network's answer to a post.
      Without an ingest URL nothing is sent and the result is a 204 success;
      otherwise exactly one post goes to that URL with the given payload, its
      result reports the status and data unchanged with `ok` exactly for
      2xx, and it throws exactly when the client rejects. */
  function ForwardToN8n(params: ForwardParams, env: ForwardEnv, transport: Posted -> Transport,
                        rejection: Transport -> Failure): (f: Forwarding)
    ensures f.sent.None? <==> !Present(StrOr(params.ingestUrl, env.ingestUrl))
    ensures f.sent.None? ==> f.result == Returned(ForwardResult(true, 204, None))
    ensures f.sent.Some? ==>
      var p := f.sent.value;
      var t := transport(p);
      p.url == StrOr(params.ingestUrl, env.ingestUrl).value && p.payload == params.payload
      && p.headers == RequestHeaders(params.internalEventId, params.correlationId, StrOr(params.token, env.token))
      && (f.result.Threw? <==> !(t.Answered? && ClientResolves(t.status)))
      && (f.result.Threw? ==> f.result.error == rejection(t))
      && (f.result.Returned? ==>
            f.result.value.status == t.status && f.result.value.body == Some(t.data)
            && (f.result.value.ok <==> 200 <= t.status < 300))
  {
    var url := StrOr(params.ingestUrl, env.ingestUrl);
    var token := StrOr(params.token, env.token);
    if !Present(url) then Forwarding(None, Returned(ForwardResult(true, 204, None)))
    else
      var posted := Posted(url.value, params.payload, RequestHeaders(params.internalEventId, params.correlationId, token));
      match ClientPost(transport(posted), rejection)
      case Resolved(s, d) => Forwarding(Some(posted), Returned(ForwardResult(Is2xx(s), s, Some(d))))
      case Rejected(e) => Forwarding(Some(posted), Threw(e))
  }

  /** A parameter URL takes precedence over the environment's, and the
      environment's is used when the parameter is missing or empty. */
  lemma ForwardUrlChoice(params: ForwardParams, env: ForwardEnv, transport: Posted -> Transport,
                         rejection: Transport -> Failure)
    requires Present(params.ingestUrl) || Present(env.ingestUrl)
    ensures var f := ForwardToN8n(params, env, transport, rejection);
      f.sent.Some?
      && f.sent.value.url == (if Present(params.ingestUrl) then params.ingestUrl.value else env.ingestUrl.value)
  {
  }

  /* ---------------------------------------------------------------------
     The webhook handler
     --------------------------------------------------------------------- */

  /** `{ status: 'accepted', internal_event_id }`; an undefined id is
      dropped by `JSON.stringify`. */
  function AcceptedBody(internalEventId: Option<string>): Json {
    JObj([("status", JStr("accepted"))]
         + (if internalEventId.Some? then [("internal_event_id", JStr(internalEventId.value))] else []))
  }

  /** `{ ...normalized, internal_event_id }`: the id replaces or joins the
      normalised payload's fields (an object; anything else spreads to no
      fields), and an undefined id removes the key. */
  function ForwardedPayload(req: Request): Json {
    var normalized := Or(req.normalizedPayload, Some(JObj([]))).value;
    var fs := if normalized.JObj? then normalized.fields else [];
    if req.internalEventId.Some? then JObj(Put(fs, "internal_event_id", JStr(req.internalEventId.value)))
    else JObj(Remove(fs, "internal_event_id"))
  }

  function EntryParams(req: Request): ForwardParams {
    ForwardParams(None, None, ForwardedPayload(req), req.internalEventId, req.correlationId)
  }

  datatype Handled = Handled(sent: Option<Posted>, outcome: Outcome)

  /** `handleWebhookEntry` as written: the forward is awaited outside any
      try, so when it throws the handler's promise rejects and no reply is
      sent. */
  function HandleEntryAsWritten(env: ForwardEnv, transport: Posted -> Transport,
                                rejection: Transport -> Failure, req: Request): (r: Handled)
    ensures r.outcome.Respond? ==> r.outcome.reply == JsonReply(200, AcceptedBody(req.internalEventId))
  {
    var f := ForwardToN8n(EntryParams(req), env, transport, rejection);
    match f.result
    case Threw(e) => Handled(f.sent, Fail(e))
    case Returned(_) => Handled(f.sent, Respond(JsonReply(200, AcceptedBody(req.internalEventId))))
  }

  /** A 503 from n8n (or no response at all) makes the handler fail
      instead of answering 200. */
  lemma AsWrittenFailsOnServerError(env: ForwardEnv, rejection: Transport -> Failure, req: Request)
    requires Present(env.ingestUrl)
    ensures HandleEntryAsWritten(env, _ => Answered(503, JNull), rejection, req).outcome.Fail?
    ensures HandleEntryAsWritten(env, _ => NoResponse, rejection, req).outcome.Fail?
  {
  }

  /** When the forward cannot throw (no ingest URL, or every post answered
      with a status the client resolves), the handler as written answers
      200 with the internal id. */
  lemma AsWrittenAcknowledges(env: ForwardEnv, transport: Posted -> Transport,
                              rejection: Transport -> Failure, req: Request)
    requires !Present(env.ingestUrl) || forall p :: transport(p).Answered? && ClientResolves(transport(p).status)
    ensures HandleEntryAsWritten(env, transport, rejection, req).outcome
      == Respond(JsonReply(200, AcceptedBody(req.internalEventId)))
  {
    var f := ForwardToN8n(EntryParams(req), env, transport, rejection);
    assert f.result.Returned?;
  }

  /** The handler as intended: a failed forward, thrown or not, is only
      logged, and the webhook is acknowledged. */
  function HandleEntry(env: ForwardEnv, transport: Posted -> Transport,
                       rejection: Transport -> Failure, req: Request): (r: Handled)
    ensures r.outcome == Respond(JsonReply(200, AcceptedBody(req.internalEventId)))
  {
    var f := ForwardToN8n(EntryParams(req), env, transport, rejection);
    Handled(f.sent, Respond(JsonReply(200, AcceptedBody(req.internalEventId))))
  }

  /** The two handlers send the same post, and they agree whenever the
      forward does not throw. The post carries the normalised payload with
      the same internal id the reply carries, in the payload and in its
      header. */
  lemma HandleEntrySpec(env: ForwardEnv, transport: Posted -> Transport,
                        rejection: Transport -> Failure, req: Request)
    ensures var fixed := HandleEntry(env, transport, rejection, req);
      var written := HandleEntryAsWritten(env, transport, rejection, req);
      fixed.sent == written.sent
      && (!written.outcome.Fail? ==> fixed == written)
      && (fixed.sent.Some? ==>
            Get(fixed.sent.value.payload, "internal_event_id") == OptStrJson(req.internalEventId)
            && HeaderValue(fixed.sent.value.headers, "X-Internal-Event-Id") == req.internalEventId)
  {
    RequestHeadersSpec(req.internalEventId, req.correlationId, StrOr(None, env.token));
    var normalized := Or(req.normalizedPayload, Some(JObj([]))).value;
    var fs := if normalized.JObj? then normalized.fields else [];
    if req.internalEventId.None? {
      assert Lookup(Remove(fs, "internal_event_id"), "internal_event_id") == None by {
        LookupRemove(fs, "internal_event_id", "internal_event_id");
      }
    }
  }

  function OptStrJson(o: Option<string>): Option<Json> {
    if o.Some? then Some(JStr(o.value)) else None
  }

  /** Apart from the id, the forwarded payload keeps every field of the
      normalised payload. */
  lemma ForwardedPayloadFields(req: Request, k: string)
    requires req.normalizedPayload.Some? && req.normalizedPayload.value.JObj?
    requires k != "internal_event_id"
    ensures Get(ForwardedPayload(req), k) == Lookup(req.normalizedPayload.value.fields, k)
  {
    var fs := req.normalizedPayload.value.fields;
    assert Or(req.normalizedPayload, Some(JObj([]))) == req.normalizedPayload;
    if req.internalEventId.None? {
      LookupRemove(fs, "internal_event_id", k);
    }
  }
}
