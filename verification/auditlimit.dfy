/** `checkAuditRateLimit` and its middleware: at most five audit events of
    one type per IP in a one-minute window, counted in `audit_rate_limits`.
    Store failures let the event through. */
module AuditLimit {
  import opened Options
  import opened Json
  import opened Http

  const AuditRateLimit: int := 5
  const WindowMs: int := 60 * 1000

  datatype LimitRecord = LimitRecord(ip: string, eventType: string, count: int, windowStart: int, expiresAt: int)

  /** The collection, in natural order; it has no unique key. */
  type Limits = seq<LimitRecord>

  predicate InWindow(rec: LimitRecord, ip: string, eventType: string, nowMs: int) {
    rec.ip == ip && rec.eventType == eventType && rec.windowStart >= nowMs - WindowMs
  }

  /** `findOne` of a record of this IP and event type whose window started
      within the last minute: the first in natural order, or `|limits|`. */
  function FindWindow(limits: Limits, ip: string, eventType: string, nowMs: int): (i: nat)
    ensures i <= |limits|
    ensures i < |limits| ==> InWindow(limits[i], ip, eventType, nowMs)
    ensures forall j :: 0 <= j < i ==> !InWindow(limits[j], ip, eventType, nowMs)
  {
    if |limits| == 0 then 0
    else if InWindow(limits[0], ip, eventType, nowMs) then 0
    else 1 + FindWindow(limits[1..], ip, eventType, nowMs)
  }

  datatype Verdict = Verdict(allowed: bool, remaining: int)

  datatype Checked = Checked(verdict: Verdict, limits: Limits)

  /** `checkAuditRateLimit`. `storeFails` stands for any store operation
      throwing; nothing is then written. */
  function CheckAuditRateLimit(storeFails: bool, ip: string, eventType: string, nowMs: int, limits: Limits): (r: Checked)
    ensures storeFails ==> r == Checked(Verdict(true, AuditRateLimit), limits)
    ensures !r.verdict.allowed ==> r.verdict.remaining == 0 && r.limits == limits
    ensures !storeFails && FindWindow(limits, ip, eventType, nowMs) == |limits| ==>
      r == Checked(Verdict(true, AuditRateLimit - 1),
                   limits + [LimitRecord(ip, eventType, 1, nowMs, nowMs + WindowMs)])
    ensures !storeFails && FindWindow(limits, ip, eventType, nowMs) < |limits| ==>
      var i := FindWindow(limits, ip, eventType, nowMs);
      var c := limits[i].count;
      (c >= AuditRateLimit ==> r == Checked(Verdict(false, 0), limits))
      && (c < AuditRateLimit ==>
            r.verdict == Verdict(true, AuditRateLimit - c - 1)
            && r.limits == limits[i := limits[i].(count := c + 1, expiresAt := nowMs + WindowMs)])
  {
    if storeFails then Checked(Verdict(true, AuditRateLimit), limits)
    else
      var i := FindWindow(limits, ip, eventType, nowMs);
      if i < |limits| then
        var c := limits[i].count;
        if c >= AuditRateLimit then Checked(Verdict(false, 0), limits)
        else Checked(Verdict(true, AuditRateLimit - c - 1),
                     limits[i := limits[i].(count := c + 1, expiresAt := nowMs + WindowMs)])
      else Checked(Verdict(true, AuditRateLimit - 1), limits + [LimitRecord(ip, eventType, 1, nowMs, nowMs + WindowMs)])
  }

  /** Every stored count lies in [1, 5]. */
  predicate CountsBounded(limits: Limits) {
    forall i :: 0 <= i < |limits| ==> 1 <= limits[i].count <= AuditRateLimit
  }

  /** Checks one after another keep every count within [1, 5], and the
      remaining allowance reported is never negative. */
  lemma CheckKeepsBound(storeFails: bool, ip: string, eventType: string, nowMs: int, limits: Limits)
    requires CountsBounded(limits)
    ensures CountsBounded(CheckAuditRateLimit(storeFails, ip, eventType, nowMs, limits).limits)
    ensures 0 <= CheckAuditRateLimit(storeFails, ip, eventType, nowMs, limits).verdict.remaining <= AuditRateLimit
  {
  }

  /** The checks of one IP and event type at one instant, in sequence. */
  function CheckRepeatedly(n: nat, ip: string, eventType: string, nowMs: int, limits: Limits): (r: seq<Checked>)
    ensures |r| == n
    decreases n
  {
    if n == 0 then []
    else
      var first := CheckAuditRateLimit(false, ip, eventType, nowMs, limits);
      [first] + CheckRepeatedly(n - 1, ip, eventType, nowMs, first.limits)
  }

  /** Starting without a current window, the first five checks in a
      minute are allowed with 4, 3, 2, 1, 0 remaining and the sixth is
      denied. */
  lemma SixthDenied(ip: string, eventType: string, nowMs: int, limits: Limits)
    requires FindWindow(limits, ip, eventType, nowMs) == |limits|
    ensures var r := CheckRepeatedly(6, ip, eventType, nowMs, limits);
      (forall k :: 0 <= k < 5 ==> r[k].verdict == Verdict(true, 4 - k))
      && r[5].verdict == Verdict(false, 0)
  {
    var rec := LimitRecord(ip, eventType, 1, nowMs, nowMs + WindowMs);
    var l1 := limits + [rec];
    FindWindowAppend(limits, rec, ip, eventType, nowMs);
    var r := CheckRepeatedly(6, ip, eventType, nowMs, limits);
    assert r[0] == Checked(Verdict(true, 4), l1);
    assert r[1..] == CheckRepeatedly(5, ip, eventType, nowMs, l1);
    RepeatWithinWindow(5, ip, eventType, nowMs, l1, |limits|, 1);
    forall k | 1 <= k < 6 ensures r[k].verdict == Expected(1, k - 1) {
      assert r[k] == r[1..][k - 1];
    }
  }

  /** The verdict of the k-th of repeated checks against a current window
      whose count is `c`: allowed while c + k < 5, with 5 - c - k - 1
      remaining. */
  function Expected(c: int, k: int): Verdict {
    if c + k < AuditRateLimit then Verdict(true, AuditRateLimit - c - k - 1) else Verdict(false, 0)
  }

  predicate FollowsWindow(r: seq<Checked>, c: int) {
    forall k :: 0 <= k < |r| ==> r[k].verdict == Expected(c, k)
  }

  /** Repeated checks against a current window whose count is `c` follow
      `Expected`. */
  lemma {:induction false} RepeatWithinWindow(n: nat, ip: string, eventType: string, nowMs: int, limits: Limits, i: nat, c: int)
    requires i < |limits| && FindWindow(limits, ip, eventType, nowMs) == i
    requires limits[i] == LimitRecord(ip, eventType, c, nowMs, nowMs + WindowMs)
    requires 1 <= c <= AuditRateLimit
    ensures FollowsWindow(CheckRepeatedly(n, ip, eventType, nowMs, limits), c)
    decreases n
  {
    if n > 0 {
      var first := CheckAuditRateLimit(false, ip, eventType, nowMs, limits);
      var r := CheckRepeatedly(n, ip, eventType, nowMs, limits);
      var rest := CheckRepeatedly(n - 1, ip, eventType, nowMs, first.limits);
      assert r == [first] + rest;
      var c' := if c < AuditRateLimit then c + 1 else c;
      if c < AuditRateLimit {
        FindWindowSamePrefix(limits, first.limits, i, ip, eventType, nowMs);
      }
      assert first.verdict == Expected(c, 0);
      assert first.limits[i] == LimitRecord(ip, eventType, c', nowMs, nowMs + WindowMs);
      RepeatWithinWindow(n - 1, ip, eventType, nowMs, first.limits, i, c');
      forall k | 1 <= k < n ensures r[k].verdict == Expected(c, k) {
        assert r[k] == rest[k - 1];
        assert rest[k - 1].verdict == Expected(c', k - 1);
      }
    }
  }

  lemma {:induction false} FindWindowAppend(limits: Limits, rec: LimitRecord, ip: string, eventType: string, nowMs: int)
    requires FindWindow(limits, ip, eventType, nowMs) == |limits|
    requires InWindow(rec, ip, eventType, nowMs)
    ensures FindWindow(limits + [rec], ip, eventType, nowMs) == |limits|
    decreases |limits|
  {
    if |limits| > 0 {
      assert (limits + [rec])[1..] == limits[1..] + [rec];
      FindWindowAppend(limits[1..], rec, ip, eventType, nowMs);
    }
  }

  /** Records before position `i` decide the search alone when the one at
      `i` is in the window. */
  lemma {:induction false} FindWindowSamePrefix(a: Limits, b: Limits, i: nat, ip: string, eventType: string, nowMs: int)
    requires i < |a| && |a| == |b| && a[..i] == b[..i]
    requires FindWindow(a, ip, eventType, nowMs) == i
    requires InWindow(b[i], ip, eventType, nowMs)
    ensures FindWindow(b, ip, eventType, nowMs) == i
    decreases i
  {
    if i > 0 {
      assert a[0] == a[..i][0] == b[..i][0] == b[0];
      assert a[1..][..i - 1] == a[..i][1..] == b[..i][1..] == b[1..][..i - 1];
      FindWindowSamePrefix(a[1..], b[1..], i - 1, ip, eventType, nowMs);
    }
  }

  /** `req.ip || req.socket.remoteAddress || 'unknown'`. */
  function AuditIp(req: Request): string {
    if req.ip != "" then req.ip else "unknown"
  }

  const TooManyBody: Json :=
    JObj([("error", JObj([("message", JStr("Too many audit events")), ("code", JStr("AUDIT_RATE_LIMIT_EXCEEDED"))]))])

  datatype Limited = Limited(outcome: Outcome, remaining: Option<int>, limits: Limits)

  /** `auditRateLimitMiddleware(eventType)`: 429 when denied, otherwise the
      remaining allowance is attached and the request goes on. */
  function AuditRateLimitMiddleware(eventType: string, storeFails: bool, nowMs: int, req: Request, limits: Limits): (r: Limited)
    ensures var c := CheckAuditRateLimit(storeFails, AuditIp(req), eventType, nowMs, limits);
      r.limits == c.limits
      && (r.outcome == Next <==> c.verdict.allowed)
      && (r.outcome == Next ==> r.remaining == Some(c.verdict.remaining))
      && (r.outcome != Next ==> r.outcome == Respond(JsonReply(429, TooManyBody)) && r.remaining.None?)
  {
    var c := CheckAuditRateLimit(storeFails, AuditIp(req), eventType, nowMs, limits);
    if !c.verdict.allowed then Limited(Respond(JsonReply(429, TooManyBody)), None, c.limits)
    else Limited(Next, Some(c.verdict.remaining), c.limits)
  }

  /** `shouldLogAuditEvent`: the verdict of one check. */
  function ShouldLogAuditEvent(storeFails: bool, ip: string, eventType: string, nowMs: int, limits: Limits): (r: (bool, Limits))
    ensures r.0 <==> storeFails || FindWindow(limits, ip, eventType, nowMs) == |limits|
                     || limits[FindWindow(limits, ip, eventType, nowMs)].count < AuditRateLimit
    ensures r.1 == CheckAuditRateLimit(storeFails, ip, eventType, nowMs, limits).limits
  {
    var c := CheckAuditRateLimit(storeFails, ip, eventType, nowMs, limits);
    (c.verdict.allowed, c.limits)
  }
}
