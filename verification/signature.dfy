/** `verifyHmacSignature`: the webhook's HMAC check. The signature header is
    trimmed and may carry an algorithm prefix ("sha256=<hex>"); the digest
    is HMAC-SHA256 of the raw body alone under the shared secret; an
    optional timestamp header must lie within 300 seconds of the clock. */
module Signature {
  import opened Options
  import opened Text
  import opened Json
  import opened Hmac
  import opened Http

  /** The drift allowed between the timestamp header and the clock, in
      seconds. The configured tolerance is not consulted. */
  const Tolerance: int := 300

  /** Building the middleware reads HMAC_SECRET and throws when it is unset
      or empty; otherwise the middleware uses that secret. */
  function SignatureSecret(hmacSecret: Option<string>): (r: Option<string>)
    ensures r.Some? <==> hmacSecret.Some? && hmacSecret.value != ""
    ensures r.Some? ==> r == hmacSecret
  {
    if hmacSecret.Some? && hmacSecret.value != "" then hmacSecret else None
  }

  /** The hex digits of a (trimmed) signature header: the part after '='
      when splitting on '=' gives exactly two parts, otherwise the first
      part. */
  function SignatureHex(sig: string): (r: string)
  {
    var parts := Split(sig, '=');
    if |parts| == 2 then parts[1] else parts[0]
  }

  function Abs(x: real): real {
    if x < 0.0 then -x else x
  }

  /** `Math.floor(Date.now() / 1000)`. */
  function NowSeconds(nowMs: int): int {
    nowMs / 1000
  }

  /** The timestamp rule: an empty (trimmed) header is not checked;
      otherwise `Number(ts)` must be finite (`toNumber` gives `None` for NaN
      and the infinities) and within the tolerance of the clock. */
  predicate TimestampOk(ts: string, nowMs: int, toNumber: string -> Option<real>) {
    ts == "" || (toNumber(ts).Some? && Abs(NowSeconds(nowMs) as real - toNumber(ts).value) <= Tolerance as real)
  }

  /** The middleware. `mac(secret, raw)` is HMAC-SHA256 of the raw body;
      its hex encoding is what the header is compared with. */
  function VerifySignature(secret: string, mac: (string, string) -> seq<Byte>,
                           toNumber: string -> Option<real>, nowMs: int, req: Request): (r: Outcome)
    ensures r.Next? || (r.Respond? && (r.reply.status == 400 || r.reply.status == 401))
    ensures r.Respond? && r.reply.status == 400 ==>
      r.reply == ErrorReply(400, "Missing raw body for signature verification")
  {
    var sig := Trim(HeaderOr(req, "X-Signature"));
    var ts := Trim(HeaderOr(req, "X-Timestamp"));
    if sig == "" then Respond(ErrorReply(401, "Missing signature"))
    else if req.rawBody.None? then Respond(ErrorReply(400, "Missing raw body for signature verification"))
    else if !TimestampOk(ts, nowMs, toNumber) then
      Respond(ErrorReply(401, "Signature timestamp out of allowed window"))
    else if !TimingSafeEqualHex(SignatureHex(sig), HexEncode(mac(secret, req.rawBody.value))) then
      Respond(ErrorReply(401, "Invalid signature"))
    else Next
  }

  /** What `hmacSha256Hex` throws when handed something other than a string
      or a Buffer: Node's `ERR_INVALID_ARG_TYPE` from `Hmac.update`, a
      TypeError with neither `status` nor `statusCode`. */
  const HmacArgumentError: Failure := Thrown(HmacArgumentMessage)

  const HmacArgumentMessage: string :=
    "The \"data\" argument must be of type string or an instance of Buffer, TypedArray, or DataView. Received an instance of Object"

  /** The middleware on a request whose `rawBody` is not a Buffer but the
      empty object the raw-body parser leaves on a request it did not read.
      That object is truthy, so the raw-body check lets it through and the
      MAC computation throws. */
  function VerifySignatureNoBuffer(toNumber: string -> Option<real>, nowMs: int, req: Request): (r: Outcome)
    ensures !r.Next?
    ensures r.Respond? ==> r.reply.status == 401
    ensures r.Fail? ==> r.failure == HmacArgumentError
  {
    var sig := Trim(HeaderOr(req, "X-Signature"));
    var ts := Trim(HeaderOr(req, "X-Timestamp"));
    if sig == "" then Respond(ErrorReply(401, "Missing signature"))
    else if !TimestampOk(ts, nowMs, toNumber) then
      Respond(ErrorReply(401, "Signature timestamp out of allowed window"))
    else Fail(HmacArgumentError)
  }

  /** Without a Buffer the middleware answers as it would with one up to the
      point where the MAC is computed; where a Buffer would be compared with
      the header (and accepted or refused as an invalid signature), the
      empty object throws instead. */
  lemma NoBufferThrowsAtMac(secret: string, mac: (string, string) -> seq<Byte>,
                            toNumber: string -> Option<real>, nowMs: int, req: Request, body: string)
    ensures var b := VerifySignature(secret, mac, toNumber, nowMs, req.(rawBody := Some(body)));
      var o := VerifySignatureNoBuffer(toNumber, nowMs, req);
      (o.Fail? <==> b.Next? || b == Respond(ErrorReply(401, "Invalid signature")))
      && (o.Respond? ==> o == b)
  {
    var req' := req.(rawBody := Some(body));
    assert HeaderOr(req', "X-Signature") == HeaderOr(req, "X-Signature");
    assert HeaderOr(req', "X-Timestamp") == HeaderOr(req, "X-Timestamp");
    assert ErrorReply(401, "Invalid signature") != ErrorReply(401, "Missing signature") by {
      assert "Invalid signature"[0] != "Missing signature"[0];
    }
    assert ErrorReply(401, "Invalid signature") != ErrorReply(401, "Signature timestamp out of allowed window") by {
      assert "Invalid signature"[0] != "Signature timestamp out of allowed window"[0];
    }
  }

  /** The request is handed on exactly when the signature header is not
      blank, a raw body was captured, the timestamp (if any) is within the
      window, and the header's hex decodes to the body's MAC. */
  lemma VerifySignatureAccepts(secret: string, mac: (string, string) -> seq<Byte>,
                               toNumber: string -> Option<real>, nowMs: int, req: Request)
    ensures VerifySignature(secret, mac, toNumber, nowMs, req).Next? <==>
      !IsBlank(HeaderOr(req, "X-Signature"))
      && req.rawBody.Some?
      && TimestampOk(Trim(HeaderOr(req, "X-Timestamp")), nowMs, toNumber)
      && HexDecode(SignatureHex(Trim(HeaderOr(req, "X-Signature")))) == mac(secret, req.rawBody.value)
  {
    TrimEmptyIffBlank(HeaderOr(req, "X-Signature"));
    if req.rawBody.Some? {
      HexRoundTrip(mac(secret, req.rawBody.value));
    }
  }

  /** A blank signature header is answered 401 before anything else is
      looked at, even when the body is missing too. */
  lemma MissingSignatureFirst(secret: string, mac: (string, string) -> seq<Byte>,
                              toNumber: string -> Option<real>, nowMs: int, req: Request)
    requires IsBlank(HeaderOr(req, "X-Signature"))
    ensures VerifySignature(secret, mac, toNumber, nowMs, req) == Respond(ErrorReply(401, "Missing signature"))
  {
    TrimEmptyIffBlank(HeaderOr(req, "X-Signature"));
  }

  predicate AllHexDigits(h: string) {
    forall i :: 0 <= i < |h| ==> IsHexDigit(h[i])
  }

  /** The prefixed form "sha256=<hex>" is read as its hex part. */
  lemma PrefixedHex(h: string)
    requires AllHexDigits(h)
    ensures Trim("sha256=" + h) == "sha256=" + h
    ensures SignatureHex("sha256=" + h) == h
  {
    var s := "sha256=" + h;
    HexHasNoSeparator(h);
    assert !IsSpace(s[|s| - 1]) by {
      if |h| > 0 {
        assert s[|s| - 1] == h[|h| - 1];
      }
    }
    TrimIdentity(s);
    assert IndexOfChar(s, '=') == 6 by {
      assert s[6] == '=';
      assert forall k :: 0 <= k < 6 ==> s[k] != '=';
    }
    assert s[..6] == "sha256" && s[7..] == h;
    SplitNoSeparator(h, '=');
    assert Split(s, '=') == [s[..6]] + Split(s[7..], '=');
  }

  lemma HexHasNoSeparator(h: string)
    requires AllHexDigits(h)
    ensures forall i :: 0 <= i < |h| ==> h[i] != '=' && !IsSpace(h[i])
  {
    forall i | 0 <= i < |h| ensures h[i] != '=' && !IsSpace(h[i]) {
      assert IsHexDigit(h[i]);
    }
  }

  /** A bare hex digest needs no trimming and is its own signature. */
  lemma BareHex(h: string)
    requires |h| > 0 && AllHexDigits(h)
    ensures Trim(h) == h
    ensures SignatureHex(h) == h
  {
    HexHasNoSeparator(h);
    TrimIdentity(h);
    SplitNoSeparator(h, '=');
  }

  /** Both header formats carrying the body's MAC are accepted when no
      timestamp is sent. */
  lemma CorrectSignatureAccepted(secret: string, mac: (string, string) -> seq<Byte>,
                                 toNumber: string -> Option<real>, nowMs: int, req: Request)
    requires req.rawBody.Some?
    requires "x-timestamp" !in req.headers
    requires "x-signature" in req.headers
    requires var d := mac(secret, req.rawBody.value);
      req.headers["x-signature"] == "sha256=" + HexEncode(d)
      || (|d| > 0 && req.headers["x-signature"] == HexEncode(d))
    ensures VerifySignature(secret, mac, toNumber, nowMs, req) == Next
  {
    var d := mac(secret, req.rawBody.value);
    var header := req.headers["x-signature"];
    HeaderNames();
    assert HeaderOr(req, "X-Signature") == header;
    assert HeaderOr(req, "X-Timestamp") == "";
    MacHeader(HexEncode(d), header);
    TrimEmptyIffBlank(header);
    HexRoundTrip(d);
    VerifySignatureAccepts(secret, mac, toNumber, nowMs, req);
  }

  lemma HeaderNames()
    ensures Lower("X-Signature") == "x-signature" && Lower("X-Timestamp") == "x-timestamp"
  {
  }

  /** A header carrying the MAC in either format is non-empty, needs no trimming and yields the MAC's hex. */
  lemma MacHeader(h: string, header: string)
    requires AllHexDigits(h)
    requires header == "sha256=" + h || (|h| > 0 && header == h)
    ensures header != "" && Trim(header) == header && SignatureHex(header) == h
  {
    if |h| > 0 && header == h {
      BareHex(h);
    } else {
      PrefixedHex(h);
    }
  }

  /** A timestamp exactly 300 seconds away is inside the window; one
      second further is outside. */
  lemma TimestampBoundary(nowMs: int, toNumber: string -> Option<real>, ts: string)
    requires ts != ""
    requires toNumber(ts).Some?
    ensures toNumber(ts).value == (NowSeconds(nowMs) - 300) as real ==> TimestampOk(ts, nowMs, toNumber)
    ensures toNumber(ts).value == (NowSeconds(nowMs) + 300) as real ==> TimestampOk(ts, nowMs, toNumber)
    ensures toNumber(ts).value == (NowSeconds(nowMs) + 301) as real ==> !TimestampOk(ts, nowMs, toNumber)
  {
  }
}
