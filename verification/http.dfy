/** The request and response shapes the Express middlewares and controllers
    work on. A middleware either hands the request on (`next()`), answers it
    (`res.status(..).json(..)`), or fails with an error that Express passes
    to the error handler. */
module Http {
  import opened Options
  import opened Text
  import opened Json

  /** A response body: a JSON document, a text body, or nothing (204). */
  datatype Body = NoBody | JsonBody(json: Json) | TextBody(text: string)

  datatype Reply = Reply(status: int, headers: seq<(string, string)>, body: Body)

  /** An error thrown by a stage; `status` and `statusCode` are the
      properties the error handler reads. */
  datatype Failure = Failure(message: Option<string>, status: Option<int>, statusCode: Option<int>)

  datatype Outcome = Next | Respond(reply: Reply) | Fail(failure: Failure)

  /** The parts of an Express request the core reads. Header names are kept
      in lower case, as Node stores them; `rawBody` is the captured body
      text, present (possibly empty) whenever the raw-body parser read it. */
  datatype Request = Request(
    verb: string,
    path: string,
    ip: string,
    headers: map<string, string>,
    rawBody: Option<string>,
    body: Option<Json>,
    normalizedPayload: Option<Json>,
    internalEventId: Option<string>,
    correlationId: Option<string>)

  /** `req.header(name)`: case-insensitive. */
  function Header(req: Request, name: string): (r: Option<string>)
    ensures r.Some? <==> Lower(name) in req.headers
    ensures r.Some? ==> r.value == req.headers[Lower(name)]
  {
    if Lower(name) in req.headers then Some(req.headers[Lower(name)]) else None
  }

  /** `req.header(name) || ''`. */
  function HeaderOr(req: Request, name: string): (r: string)
    ensures Lower(name) !in req.headers ==> r == ""
    ensures Lower(name) in req.headers ==> r == req.headers[Lower(name)]
  {
    Header(req, name).GetOr("")
  }

  /** `req.normalizedPayload || req.body || {}`. */
  function PayloadOrEmpty(req: Request): (r: Json)
    ensures Truthy(req.normalizedPayload) ==> r == req.normalizedPayload.value
    ensures !Truthy(req.normalizedPayload) && Truthy(req.body) ==> r == req.body.value
    ensures !Truthy(req.normalizedPayload) && !Truthy(req.body) ==> r == JObj([])
  {
    Or(Or(req.normalizedPayload, req.body), Some(JObj([]))).value
  }

  /** `res.status(status).json(j)`. */
  function JsonReply(status: int, j: Json): Reply {
    Reply(status, [], JsonBody(j))
  }

  /** The body `{ error: { message } }` every middleware answers errors with. */
  function ErrorBody(message: string): Json {
    JObj([("error", JObj([("message", JStr(message))]))])
  }

  function ErrorReply(status: int, message: string): Reply {
    JsonReply(status, ErrorBody(message))
  }

  /** `new Error(message)`, with no status property. */
  function Thrown(message: string): Failure {
    Failure(Some(message), None, None)
  }

  /** A status is a success status (2xx). */
  predicate Is2xx(status: int) {
    200 <= status < 300
  }

  /** A field of `req.body || {}`: destructuring a missing, falsy or
      non-object body yields `undefined`. */
  function BodyField(body: Option<Json>, k: string): (r: Option<Json>)
    ensures body.Some? && body.value.JObj? ==> r == Lookup(body.value.fields, k)
    ensures body.None? || !body.value.JObj? ==> r.None?
  {
    if body.Some? then Get(body.value, k) else None
  }
}
