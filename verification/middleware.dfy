/** The small middlewares around the routes: the IP block list, the
    internal-route guard (IP allowlist or bearer token), the correlation id
    and the error handler. */
module Middleware {
  import opened Options
  import opened Text
  import opened Json
  import opened Http

  /* ---------------------------------------------------------------------
     Comma-separated lists from the environment
     --------------------------------------------------------------------- */

  /** Some part trims to `e`. */
  predicate TrimsTo(parts: seq<string>, e: string) {
    exists p :: p in parts && Trim(p) == e
  }

  /** `parts.map(x => x.trim()).filter(Boolean)`. */
  function TrimmedNonEmpty(parts: seq<string>): (r: seq<string>)
    ensures forall i :: 0 <= i < |r| ==> r[i] != ""
    ensures |r| <= |parts|
  {
    if |parts| == 0 then []
    else
      var rest := TrimmedNonEmpty(parts[1..]);
      if Trim(parts[0]) == "" then rest else [Trim(parts[0])] + rest
  }

  /** The kept entries are exactly the non-empty trimmed parts. */
  lemma {:induction false} TrimmedMembership(parts: seq<string>, e: string)
    ensures e in TrimmedNonEmpty(parts) <==> e != "" && TrimsTo(parts, e)
    decreases |parts|
  {
    if |parts| > 0 {
      TrimmedMembership(parts[1..], e);
      assert TrimsTo(parts, e) <==> Trim(parts[0]) == e || TrimsTo(parts[1..], e) by {
        if TrimsTo(parts, e) {
          var p :| p in parts && Trim(p) == e;
          if p != parts[0] {
            assert p in parts[1..];
          }
        }
        if TrimsTo(parts[1..], e) {
          var p :| p in parts[1..] && Trim(p) == e;
          assert p in parts;
        }
      }
    }
  }

  /** When every part trims to nothing, nothing is kept. */
  lemma TrimmedAllBlank(parts: seq<string>)
    requires forall p :: p in parts ==> Trim(p) == ""
    ensures TrimmedNonEmpty(parts) == []
  {
    var r := TrimmedNonEmpty(parts);
    if r != [] {
      TrimmedMembership(parts, r[0]);
      assert false;
    }
  }

  /** The entries of a comma-separated setting: split on ',', trimmed, and
      empty entries dropped. */
  function CsvEntries(csv: string): (r: seq<string>)
    ensures forall e :: e in r <==> e != "" && TrimsTo(Split(csv, ','), e)
  {
    var parts := Split(csv, ',');
    assert forall e :: e in TrimmedNonEmpty(parts) <==> e != "" && TrimsTo(parts, e) by {
      forall e ensures e in TrimmedNonEmpty(parts) <==> e != "" && TrimsTo(parts, e) {
        TrimmedMembership(parts, e);
      }
    }
    TrimmedNonEmpty(parts)
  }

  /** A setting that is unset or holds only commas and blanks has no entries. */
  lemma CsvEntriesOfBlank(csv: string)
    requires forall i :: 0 <= i < |csv| ==> csv[i] == ',' || IsSpace(csv[i])
    ensures CsvEntries(csv) == []
  {
    var parts := Split(csv, ',');
    forall p | p in parts ensures Trim(p) == "" {
      SplitPartsAreBlank(csv, p);
    }
    TrimmedAllBlank(parts);
  }

  lemma {:induction false} SplitPartsAreBlank(csv: string, p: string)
    requires forall i :: 0 <= i < |csv| ==> csv[i] == ',' || IsSpace(csv[i])
    requires p in Split(csv, ',')
    ensures Trim(p) == ""
    decreases |csv|
  {
    var i := IndexOfChar(csv, ',');
    if i == |csv| {
      assert Split(csv, ',') == [csv];
      assert IsBlank(p);
      TrimEmptyIffBlank(p);
    } else {
      assert Split(csv, ',') == [csv[..i]] + Split(csv[i + 1..], ',');
      if p == csv[..i] {
        assert IsBlank(p);
        TrimEmptyIffBlank(p);
      } else {
        SplitPartsAreBlank(csv[i + 1..], p);
      }
    }
  }

  /** `req.ip || req.connection.remoteAddress || fallback`; the socket's
      address is the one `req.ip` already reports. */
  function ClientIp(req: Request, fallback: string): (r: string)
    ensures req.ip != "" ==> r == req.ip
    ensures r == "" <==> req.ip == "" && fallback == ""
  {
    if req.ip != "" then req.ip else fallback
  }

  /* ---------------------------------------------------------------------
     blockList
     --------------------------------------------------------------------- */

  const Forbidden: Reply := ErrorReply(403, "Forbidden")

  /** `blockList`: `blockedCsv` is BLOCKED_IPS_CSV; `stored` is the
      `blocked_ips` collection, `None` when the store cannot be reached. */
  function BlockList(blockedCsv: string, stored: Option<set<string>>, req: Request): (r: Outcome)
    ensures r == Next || r == Respond(Forbidden)
    ensures r == Respond(Forbidden) <==>
      ClientIp(req, "") in CsvEntries(blockedCsv) || (stored.Some? && ClientIp(req, "") in stored.value)
  {
    var ip := ClientIp(req, "");
    if ip in CsvEntries(blockedCsv) then Respond(Forbidden)
    else if stored.Some? && ip in stored.value then Respond(Forbidden)
    else Next
  }

  /** The store failing never blocks: the request is then judged by the
      environment list alone. */
  lemma BlockListFailsOpen(blockedCsv: string, stored: set<string>, req: Request)
    ensures BlockList(blockedCsv, None, req) == Respond(Forbidden) ==>
      BlockList(blockedCsv, Some(stored), req) == Respond(Forbidden)
    ensures BlockList(blockedCsv, None, req) == Next <==> ClientIp(req, "") !in CsvEntries(blockedCsv)
  {
  }

  /* ---------------------------------------------------------------------
     internalAuth
     --------------------------------------------------------------------- */

  /** `(ip || '').replace('::ffff:', '')`: the first occurrence goes. */
  function NormalizeIp(ip: string): (r: string)
    ensures StartsWith(ip, "::ffff:") ==> r == ip[7..]
    ensures !Contains(ip, "::ffff:") ==> r == ip
  {
    var r := ReplaceFirst(ip, "::ffff:", "");
    assert !Contains(ip, "::ffff:") ==> r == ip by {
      if !Contains(ip, "::ffff:") {
        NotContainedIndex(ip, "::ffff:");
      }
    }
    r
  }

  lemma {:induction false} NotContainedIndex(s: string, pat: string)
    requires |pat| > 0 && !Contains(s, pat)
    ensures IndexOf(s, pat) == |s|
    decreases |s|
  {
    if |s| > 0 {
      NotContainedIndex(s[1..], pat);
    }
  }

  /** Whether some allowlist entry matches the address. `cidrMatch(ip, c)`
      parses `c` as a CIDR range and matches the parsed `ip` against it; an
      entry that does not parse matches nothing. */
  function AnyRangeMatches(ip: string, cidrs: seq<string>, cidrMatch: (string, string) -> bool): (r: bool)
    ensures r <==> exists i :: 0 <= i < |cidrs| && cidrMatch(ip, cidrs[i])
  {
    if |cidrs| == 0 then false
    else if cidrMatch(ip, cidrs[0]) then true
    else
      var r := AnyRangeMatches(ip, cidrs[1..], cidrMatch);
      assert forall i :: 1 <= i < |cidrs| ==> cidrs[i] == cidrs[1..][i - 1];
      r
  }

  /** `isIpAllowed`. `parses` is whether the address parses (IPv4-mapped
      IPv6 addresses are matched as IPv4, inside `cidrMatch`). */
  function IsIpAllowed(allowlistCsv: string, ip: string, parses: string -> bool,
                       cidrMatch: (string, string) -> bool): (r: bool)
    ensures CsvEntries(allowlistCsv) == [] ==> !r
    ensures !parses(NormalizeIp(ip)) ==> !r
    ensures r <==> parses(NormalizeIp(ip))
                   && exists c :: c in CsvEntries(allowlistCsv) && cidrMatch(NormalizeIp(ip), c)
  {
    var cidrs := CsvEntries(allowlistCsv);
    if |cidrs| == 0 then false
    else
      var addr := NormalizeIp(ip);
      parses(addr) && AnyRangeMatches(addr, cidrs, cidrMatch)
  }

  /** The characters of the regular expression's `\s`: the same set `trim`
      removes. */
  predicate AllSpace(s: string) {
    forall i :: 0 <= i < |s| ==> IsSpace(s[i])
  }

  predicate NoLineTerminator(s: string) {
    forall i :: 0 <= i < |s| ==> !IsLineTerminator(s[i])
  }

  /** `^Bearer\s+(.+)$` matches with the whitespace run taking `w`
      characters. */
  predicate BearerSplit(h: string, w: nat) {
    StartsWith(h, "Bearer") && 1 <= w && 6 + w < |h|
    && AllSpace(h[6..6 + w]) && NoLineTerminator(h[6 + w..])
  }

  /** The number of leading whitespace characters. */
  function LeadingSpaces(s: string): (n: nat)
    ensures n <= |s|
    ensures AllSpace(s[..n])
    ensures n < |s| ==> !IsSpace(s[n])
  {
    if |s| == 0 || !IsSpace(s[0]) then 0
    else
      var n := 1 + LeadingSpaces(s[1..]);
      assert forall i :: 1 <= i < n ==> s[..n][i] == s[1..][..n - 1][i - 1];
      n
  }

  /** The captured group of `^Bearer\s+(.+)$`, if the header matches. The
      greedy `\s+` takes as much whitespace as it can while leaving at
      least one character for the group. */
  function BearerToken(h: string): (r: Option<string>)
    ensures r.Some? ==> StartsWith(h, "Bearer") && 0 < |r.value| <= |h| - 7 && r.value == h[|h| - |r.value|..]
    ensures r.Some? ==> NoLineTerminator(r.value)
  {
    if !StartsWith(h, "Bearer") || |h| < 8 then None
    else
      var rest := h[6..];
      var k := LeadingSpaces(rest);
      var w := if k < |rest| - 1 then k else |rest| - 1;
      if w >= 1 && NoLineTerminator(rest[w..]) then Some(rest[w..]) else None
  }

  /** The header matches exactly when some split of it does, and the token
      is what follows the longest whitespace run that can match. */
  lemma BearerTokenSpec(h: string)
    ensures BearerToken(h).Some? <==> exists w: nat :: BearerSplit(h, w)
    ensures BearerToken(h).Some? ==>
      exists w: nat :: BearerSplit(h, w) && BearerToken(h).value == h[6 + w..]
                  && forall v: nat :: w < v ==> !BearerSplit(h, v)
  {
    if |h| >= 8 && StartsWith(h, "Bearer") {
      var rest := h[6..];
      var k := LeadingSpaces(rest);
      var w: nat := if k < |rest| - 1 then k else |rest| - 1;
      assert h[6..6 + w] == rest[..w];
      assert AllSpace(rest[..w]) by {
        assert forall i :: 0 <= i < w ==> rest[..w][i] == rest[..k][i];
      }
      assert h[6 + w..] == rest[w..];
      forall v: nat | BearerSplit(h, v) ensures v <= w && NoLineTerminator(rest[w..]) && w >= 1 {
        assert forall i :: 0 <= i < |rest[w..]| ==> rest[w..][i] == h[6 + v..][i + w - v];
      }
      if BearerToken(h).Some? {
        assert BearerSplit(h, w);
      }
    } else {
      forall v: nat | BearerSplit(h, v) ensures false {
      }
    }
  }

  /** The library calls the token check relies on: `jwt.verify`, giving
      the decoded payload or `None` when it throws. */
  datatype AuthEnv = AuthEnv(
    allowlistCsv: string,
    n8nToken: Option<string>,
    jwtSecret: Option<string>,
    parses: string -> bool,
    cidrMatch: (string, string) -> bool,
    verify: (string, string) -> Option<Json>)

  /** `isTokenValid`. */
  function IsTokenValid(env: AuthEnv, authHeader: Option<string>): (r: bool)
    ensures authHeader.None? || authHeader.value == "" ==> !r
    ensures r ==> BearerToken(authHeader.value).Some?
    ensures r && !(env.n8nToken.Some? && env.n8nToken.value != "" && BearerToken(authHeader.value).value == env.n8nToken.value) ==>
      env.jwtSecret.Some? && env.jwtSecret.value != ""
      && env.verify(BearerToken(authHeader.value).value, env.jwtSecret.value).Some?
      && Get(env.verify(BearerToken(authHeader.value).value, env.jwtSecret.value).value, "iss") == Some(JStr("internal-backend"))
    ensures authHeader.Some? && BearerToken(authHeader.value).Some? && env.jwtSecret.Some? && env.jwtSecret.value != ""
      && env.verify(BearerToken(authHeader.value).value, env.jwtSecret.value).Some?
      && Get(env.verify(BearerToken(authHeader.value).value, env.jwtSecret.value).value, "iss") == Some(JStr("internal-backend"))
      ==> r
  {
    if authHeader.None? || authHeader.value == "" then false
    else
      match BearerToken(authHeader.value)
      case None => false
      case Some(token) =>
        if env.n8nToken.Some? && env.n8nToken.value != "" && token == env.n8nToken.value then true
        else if env.jwtSecret.None? || env.jwtSecret.value == "" then false
        else
          match env.verify(token, env.jwtSecret.value)
          case None => false
          case Some(decoded) => Get(decoded, "iss") == Some(JStr("internal-backend"))
  }

  /** The static token is accepted without any JWT check, even when no JWT
      secret is set. */
  lemma StaticTokenAccepted(env: AuthEnv, token: string)
    requires env.n8nToken == Some(token) && token != ""
    requires NoLineTerminator(token) && !IsSpace(token[0])
    ensures IsTokenValid(env, Some("Bearer " + token))
  {
    var h := "Bearer " + token;
    var rest := h[6..];
    assert rest == [' '] + token;
    assert rest[1] == token[0];
    assert LeadingSpaces(rest) == 1 by {
      assert LeadingSpaces(rest[1..]) == 0;
    }
    assert rest[1..] == token;
  }

  /** `internalAuth`: the request goes on when the address is allowed or
      the token is valid, and is answered 401 otherwise. */
  function InternalAuth(env: AuthEnv, req: Request): (r: Outcome)
    ensures r == Next <==>
      IsIpAllowed(env.allowlistCsv, req.ip, env.parses, env.cidrMatch) || IsTokenValid(env, Header(req, "authorization"))
    ensures r != Next ==> r == Respond(ErrorReply(401, "Unauthorized"))
  {
    if IsIpAllowed(env.allowlistCsv, req.ip, env.parses, env.cidrMatch) || IsTokenValid(env, Header(req, "authorization"))
    then Next
    else Respond(ErrorReply(401, "Unauthorized"))
  }

  /** With an empty allowlist only a token lets a request in. */
  lemma EmptyAllowlistNeedsToken(env: AuthEnv, req: Request)
    requires CsvEntries(env.allowlistCsv) == []
    ensures InternalAuth(env, req) == Next <==> IsTokenValid(env, Header(req, "authorization"))
  {
  }

  /* ---------------------------------------------------------------------
     correlationId
     --------------------------------------------------------------------- */

  datatype Correlated = Correlated(req: Request, responseHeader: (string, string), outcome: Outcome)

  /** `correlationId`; `generated` is the uuid it would generate. */
  function CorrelationId(generated: string, req: Request): (r: Correlated)
    ensures r.outcome == Next
    ensures r.req.correlationId.Some?
    ensures r.req == req.(correlationId := r.req.correlationId)
    ensures r.responseHeader == ("X-Correlation-Id", r.req.correlationId.value)
    ensures !IsBlank(HeaderOr(req, "x-correlation-id")) ==> r.req.correlationId == Some(HeaderOr(req, "x-correlation-id"))
    ensures IsBlank(HeaderOr(req, "x-correlation-id")) ==> r.req.correlationId == Some(generated)
  {
    var incoming := HeaderOr(req, "x-correlation-id");
    TrimEmptyIffBlank(incoming);
    var id := if incoming != "" && |Trim(incoming)| > 0 then incoming else generated;
    Correlated(req.(correlationId := Some(id)), ("X-Correlation-Id", id), Next)
  }

  /** A client that sends back the id it was answered with keeps it,
      whatever id would be generated the second time: an id that is not
      blank is echoed verbatim. */
  lemma CorrelationIdEchoed(generated: string, again: string, req: Request)
    requires !IsBlank(generated)
    ensures var first := CorrelationId(generated, req);
      var echoed := req.(headers := req.headers[Lower("x-correlation-id") := first.responseHeader.1]);
      CorrelationId(again, echoed).req.correlationId == first.req.correlationId
      && CorrelationId(again, echoed).responseHeader == first.responseHeader
  {
  }

  /** Only an absent or blank header makes the id depend on the generator. */
  lemma CorrelationIdFromHeader(g1: string, g2: string, req: Request)
    ensures CorrelationId(g1, req) == CorrelationId(g2, req) <==> g1 == g2 || !IsBlank(HeaderOr(req, "x-correlation-id"))
  {
    if IsBlank(HeaderOr(req, "x-correlation-id")) && CorrelationId(g1, req) == CorrelationId(g2, req) {
      assert CorrelationId(g1, req).req.correlationId == Some(g1);
    }
  }

  /* ---------------------------------------------------------------------
     errorHandler
     --------------------------------------------------------------------- */

  /** `n || fallback` on a possibly-undefined number; 0 is falsy. */
  function NumOr(n: Option<int>, fallback: int): (r: int)
    ensures n.Some? && n.value != 0 ==> r == n.value
    ensures !(n.Some? && n.value != 0) ==> r == fallback
  {
    if n.Some? && n.value != 0 then n.value else fallback
  }

  function ErrorStatus(err: Failure): int {
    NumOr(err.status, NumOr(err.statusCode, 500))
  }

  /** `errorHandler`: status from `err.status`, else `err.statusCode`, else
      500; the message, or 'Internal Server Error'; and the request's
      correlation id when it has one. */
  function ErrorHandler(err: Failure, req: Request): (r: Reply)
    ensures err.status.Some? && err.status.value != 0 ==> r.status == err.status.value
    ensures !(err.status.Some? && err.status.value != 0) && err.statusCode.Some? && err.statusCode.value != 0 ==>
      r.status == err.statusCode.value
    ensures !(err.status.Some? && err.status.value != 0) && !(err.statusCode.Some? && err.statusCode.value != 0) ==>
      r.status == 500
    ensures r.body.JsonBody? && r.body.json.JObj?
    ensures var e := Lookup(r.body.json.fields, "error");
      e.Some? && e.value.JObj?
      && Lookup(e.value.fields, "message") ==
           Some(JStr(if err.message.Some? && err.message.value != "" then err.message.value else "Internal Server Error"))
      && Lookup(e.value.fields, "correlationId") == (if req.correlationId.Some? then Some(JStr(req.correlationId.value)) else None)
  {
    var message := if err.message.Some? && err.message.value != "" then err.message.value else "Internal Server Error";
    var cid: seq<(string, Json)> := if req.correlationId.Some? then [("correlationId", JStr(req.correlationId.value))] else [];
    var inner := [("message", JStr(message))] + cid;
    LookupCons(("message", JStr(message)), cid, "correlationId");
    LookupCons(("message", JStr(message)), cid, "message");
    LookupCons(("error", JObj(inner)), [], "error");
    JsonReply(ErrorStatus(err), JObj([("error", JObj(inner))]))
  }

  /** The first of the candidate statuses that is set and not 0, or the
      fallback: JavaScript's `a || b || fallback` on numbers. */
  function FirstTruthy(candidates: seq<Option<int>>, fallback: int): (r: int)
    ensures r == fallback || exists i :: 0 <= i < |candidates| && candidates[i] == Some(r) && r != 0
  {
    if candidates == [] then fallback
    else if candidates[0].Some? && candidates[0].value != 0 then candidates[0].value
    else FirstTruthy(candidates[1..], fallback)
  }

  /** For every error and request: the status is `err.status`, then
      `err.statusCode`, then 500, whichever is first set and not 0, so it
      is never 0; the reply carries only the `error` member, whose
      correlation id is the request's. */
  lemma ErrorHandlerReply(err: Failure, req: Request)
    ensures var r := ErrorHandler(err, req);
      r.status == FirstTruthy([err.status, err.statusCode], 500) && r.status != 0
      && Keys(r.body.json.fields) == ["error"]
      && Get(r.body.json.fields[0].1, "correlationId") == (if req.correlationId.Some? then Some(JStr(req.correlationId.value)) else None)
  {
    var cs := [err.status, err.statusCode];
    assert cs[1..] == [err.statusCode];
    assert cs[1..][1..] == [];
  }

  /** An error thrown with `new Error(..)` is answered 500 with its message. */
  lemma PlainErrorIs500(message: string, req: Request)
    ensures ErrorHandler(Thrown(message), req).status == 500
  {
  }
}
