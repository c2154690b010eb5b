/** The environment configuration (`src/config/env.ts`): the settings the
    core reads, with their defaults, the lower bounds on secret lengths,
    the boolean flags and the queue concurrency clamp. Loading fails as a
    whole when any setting is invalid. */
module Config {
  import opened Options
  import opened Text

  /** `Math.max(1, Math.min(50, v))`. */
  function Clamp(v: int): (r: int)
    ensures 1 <= r <= 50
    ensures 1 <= v <= 50 ==> r == v
    ensures v < 1 ==> r == 1
    ensures v > 50 ==> r == 50
  {
    if v < 1 then 1 else if v > 50 then 50 else v
  }

  lemma ClampIdempotent(v: int)
    ensures Clamp(Clamp(v)) == Clamp(v)
  {
  }

  /** `z.coerce.number().int()`: `Number(raw)` must be finite and
      integral; `toNumber` is `Number`, `None` for NaN and the infinities. */
  function CoerceInt(raw: string, toNumber: string -> Option<real>): (r: Option<int>)
    ensures r.Some? <==> toNumber(raw).Some? && toNumber(raw).value.Floor as real == toNumber(raw).value
    ensures r.Some? ==> r.value as real == toNumber(raw).value
  {
    var n := toNumber(raw);
    if n.Some? && n.value.Floor as real == n.value then Some(n.value.Floor) else None
  }

  /** An integer setting with a default; `positive` adds the `.positive()`
      check. `None` when the setting is invalid. */
  function IntSetting(raw: Option<string>, default: int, positive: bool, toNumber: string -> Option<real>): (r: Option<int>)
    ensures raw.None? ==> r == Some(default)
    ensures raw.Some? ==> (r.Some? <==> CoerceInt(raw.value, toNumber).Some? && (!positive || CoerceInt(raw.value, toNumber).value > 0))
    ensures raw.Some? && r.Some? ==> r == CoerceInt(raw.value, toNumber)
  {
    if raw.None? then Some(default)
    else
      var v := CoerceInt(raw.value, toNumber);
      if v.Some? && (!positive || v.value > 0) then v else None
  }

  /** An optional positive integer setting: `Some(None)` when absent,
      `None` when invalid. */
  function OptionalPositive(raw: Option<string>, toNumber: string -> Option<real>): (r: Option<Option<int>>)
    ensures raw.None? ==> r == Some(None)
    ensures raw.Some? ==> (r.Some? <==> CoerceInt(raw.value, toNumber).Some? && CoerceInt(raw.value, toNumber).value > 0)
    ensures raw.Some? && r.Some? ==> r.value == CoerceInt(raw.value, toNumber)
  {
    if raw.None? then Some(None)
    else
      var v := IntSetting(raw, 0, true, toNumber);
      if v.Some? then Some(v) else None
  }

  /** `z.enum(['true', 'false']).default('false').transform(v => v === 'true')`. */
  function Flag(raw: Option<string>): (r: Option<bool>)
    ensures raw.None? ==> r == Some(false)
    ensures r == Some(true) <==> raw == Some("true")
    ensures r.None? <==> raw.Some? && raw.value != "true" && raw.value != "false"
  {
    if raw.None? then Some(false)
    else if raw.value == "true" then Some(true)
    else if raw.value == "false" then Some(false)
    else None
  }

  /** A string setting with `.min(n)`: at least `n` UTF-16 code units. */
  predicate LongEnough(s: string, n: nat) {
    JsLength(s) >= n
  }

  /** `z.enum(allowed).default(default)`: the default when unset, the value
      when it is one of the allowed ones, `None` otherwise. */
  function Choice(raw: Option<string>, allowed: set<string>, default: string): (r: Option<string>)
    requires default in allowed
    ensures r.Some? ==> r.value in allowed
    ensures raw.None? ==> r == Some(default)
    ensures raw.Some? ==> (r.Some? <==> raw.value in allowed) && (r.Some? ==> r == raw)
  {
    if raw.None? then Some(default) else if raw.value in allowed then raw else None
  }

  /** An optional string setting with a format check (`.url()`,
      `.email()`): valid when unset or when the check accepts it. */
  predicate FormatOk(raw: Option<string>, check: string -> bool) {
    raw.None? || check(raw.value)
  }

  const NodeEnvs: set<string> := {"development", "test", "production"}
  const LogLevels: set<string> := {"error", "warn", "info", "http", "verbose", "debug", "silly"}

  datatype Settings = Settings(
    nodeEnv: string,
    logLevel: string,
    port: int,
    rateLimitPerMinute: Option<int>,
    pm2Instances: Option<int>,
    hmacSecret: string,
    jwtSecret: Option<string>,
    mongoUri: string,
    n8nIngestUrl: Option<string>,
    n8nToken: Option<string>,
    redisUrl: Option<string>,
    otpSendOnGenerate: bool,
    enableWorkers: bool,
    queueConcurrency: int,
    idempotencyTtlSec: int,
    enableIdempotencyMw: bool,
    signatureToleranceSec: int,
    enableRefunds: bool,
    refundLimitCents: int)

  function Var(vars: map<string, string>, name: string): Option<string> {
    if name in vars then Some(vars[name]) else None
  }

  /** Parsing the process environment. */
  function Load(vars: map<string, string>, toNumber: string -> Option<real>,
                isUrl: string -> bool, isEmail: string -> bool): (r: Option<Settings>)
    ensures r.Some? ==> r.value.nodeEnv in NodeEnvs && r.value.logLevel in LogLevels
    ensures r.Some? ==> Choice(Var(vars, "NODE_ENV"), NodeEnvs, "development") == Some(r.value.nodeEnv)
                        && Choice(Var(vars, "LOG_LEVEL"), LogLevels, "info") == Some(r.value.logLevel)
    ensures r.Some? ==> FormatOk(Var(vars, "N8N_INGEST_URL"), isUrl)
                        && FormatOk(Var(vars, "EMAIL_FROM"), isEmail) && FormatOk(Var(vars, "ALERT_EMAIL_TO"), isEmail)
    ensures r.Some? ==> LongEnough(r.value.hmacSecret, 32) && Var(vars, "HMAC_SECRET") == Some(r.value.hmacSecret)
    ensures "HMAC_SECRET" !in vars || !LongEnough(vars["HMAC_SECRET"], 32) ==> r.None?
    ensures r.Some? && r.value.jwtSecret.Some? ==> LongEnough(r.value.jwtSecret.value, 32)
    ensures r.Some? && r.value.n8nToken.Some? ==> LongEnough(r.value.n8nToken.value, 32)
    ensures r.Some? ==> 1 <= r.value.queueConcurrency <= 50
    ensures r.Some? ==> r.value.port > 0
    ensures r.Some? && r.value.rateLimitPerMinute.Some? ==> r.value.rateLimitPerMinute.value > 0
    ensures r.Some? ==> r.value.idempotencyTtlSec > 0 && r.value.signatureToleranceSec > 0 && r.value.refundLimitCents > 0
    ensures r.Some? ==> (r.value.enableIdempotencyMw <==> Var(vars, "ENABLE_IDEMPOTENCY_MW") == Some("true"))
    ensures r.Some? ==> (r.value.enableRefunds <==> Var(vars, "ENABLE_REFUNDS") == Some("true"))
    ensures r.Some? ==> (r.value.enableWorkers <==> Var(vars, "ENABLE_WORKERS") == Some("true"))
    ensures r.Some? ==> (r.value.otpSendOnGenerate <==> Var(vars, "OTP_SEND_ON_GENERATE") == Some("true"))
  {
    var port := IntSetting(Var(vars, "PORT"), 3000, true, toNumber);
    var perMinute := OptionalPositive(Var(vars, "RATE_LIMIT_PER_MINUTE"), toNumber);
    var instances := OptionalPositive(Var(vars, "PM2_INSTANCES"), toNumber);
    var hmac := Var(vars, "HMAC_SECRET");
    var jwt := Var(vars, "JWT_SECRET");
    var mongo := Var(vars, "MONGO_URI");
    var token := Var(vars, "N8N_TOKEN");
    var concurrency := IntSetting(Var(vars, "QUEUE_CONCURRENCY"), 5, false, toNumber);
    var ttl := IntSetting(Var(vars, "IDEMPOTENCY_TTL_SEC"), 3600, true, toNumber);
    var tolerance := IntSetting(Var(vars, "SIGNATURE_TOLERANCE_SEC"), 60, true, toNumber);
    var limit := IntSetting(Var(vars, "REFUND_LIMIT_CENTS"), 5000, true, toNumber);
    var otp := Flag(Var(vars, "OTP_SEND_ON_GENERATE"));
    var workers := Flag(Var(vars, "ENABLE_WORKERS"));
    var idem := Flag(Var(vars, "ENABLE_IDEMPOTENCY_MW"));
    var refunds := Flag(Var(vars, "ENABLE_REFUNDS"));
    var nodeEnv := Choice(Var(vars, "NODE_ENV"), NodeEnvs, "development");
    var logLevel := Choice(Var(vars, "LOG_LEVEL"), LogLevels, "info");
    if nodeEnv.None? || logLevel.None? then None
    else if hmac.None? || !LongEnough(hmac.value, 32) then None
    else if jwt.Some? && !LongEnough(jwt.value, 32) then None
    else if mongo.None? || !LongEnough(mongo.value, 1) then None
    else if token.Some? && !LongEnough(token.value, 32) then None
    else if port.None? || perMinute.None? || instances.None? then None
    else if concurrency.None? || ttl.None? || tolerance.None? || limit.None? then None
    else if otp.None? || workers.None? || idem.None? || refunds.None? then None
    else if !FormatOk(Var(vars, "N8N_INGEST_URL"), isUrl) then None
    else if !FormatOk(Var(vars, "EMAIL_FROM"), isEmail) || !FormatOk(Var(vars, "ALERT_EMAIL_TO"), isEmail) then None
    else Some(Settings(nodeEnv.value, logLevel.value, port.value, perMinute.value, instances.value, hmac.value, jwt, mongo.value, Var(vars, "N8N_INGEST_URL"), token, Var(vars, "REDIS_URL"),
                       otp.value, workers.value, Clamp(concurrency.value), ttl.value, idem.value,
                       tolerance.value, refunds.value, limit.value))
  }

  /** With only the required settings given, every other setting takes
      its default: concurrency 5, a one-hour idempotency TTL, a 60-second
      signature tolerance, a 5000-cent refund limit, and all flags off. */
  lemma Defaults(hmacSecret: string, mongoUri: string, toNumber: string -> Option<real>,
                 isUrl: string -> bool, isEmail: string -> bool)
    requires |hmacSecret| >= 32 && mongoUri != ""
    ensures var r := Load(map["HMAC_SECRET" := hmacSecret, "MONGO_URI" := mongoUri], toNumber, isUrl, isEmail);
      r.Some? && r.value.nodeEnv == "development" && r.value.logLevel == "info"
      && r.value.port == 3000 && r.value.rateLimitPerMinute.None?
      && r.value.queueConcurrency == 5 && r.value.idempotencyTtlSec == 3600
      && r.value.signatureToleranceSec == 60 && r.value.refundLimitCents == 5000
      && !r.value.otpSendOnGenerate && !r.value.enableWorkers && !r.value.enableIdempotencyMw && !r.value.enableRefunds
  {
    var vars := map["HMAC_SECRET" := hmacSecret, "MONGO_URI" := mongoUri];
    assert Var(vars, "HMAC_SECRET") == Some(hmacSecret);
    assert Var(vars, "MONGO_URI") == Some(mongoUri);
    assert "QUEUE_CONCURRENCY" !in vars && "IDEMPOTENCY_TTL_SEC" !in vars;
    assert "SIGNATURE_TOLERANCE_SEC" !in vars && "REFUND_LIMIT_CENTS" !in vars;
    assert "OTP_SEND_ON_GENERATE" !in vars && "ENABLE_WORKERS" !in vars;
    assert "ENABLE_IDEMPOTENCY_MW" !in vars && "ENABLE_REFUNDS" !in vars;
    assert "JWT_SECRET" !in vars && "N8N_TOKEN" !in vars;
    assert "PORT" !in vars && "RATE_LIMIT_PER_MINUTE" !in vars && "PM2_INSTANCES" !in vars;
    assert "NODE_ENV" !in vars && "LOG_LEVEL" !in vars;
    assert "N8N_INGEST_URL" !in vars && "EMAIL_FROM" !in vars && "ALERT_EMAIL_TO" !in vars;
    DefaultChoices();
  }

  /** An out-of-range concurrency is clamped rather than rejected: 0
      becomes 1 and 100 becomes 50. */
  lemma ConcurrencyClamped(vars: map<string, string>, toNumber: string -> Option<real>,
                           isUrl: string -> bool, isEmail: string -> bool)
    requires Load(vars, toNumber, isUrl, isEmail).Some?
    requires "QUEUE_CONCURRENCY" in vars
    ensures Load(vars, toNumber, isUrl, isEmail).value.queueConcurrency
      == Clamp(CoerceInt(vars["QUEUE_CONCURRENCY"], toNumber).value)
  {
  }

  lemma DefaultChoices()
    ensures "development" in NodeEnvs && "info" in LogLevels
  {
  }

  /** A secret of 32 characters outside the Basic Multilingual Plane is
      64 code units long, so sixteen of them already satisfy `.min(32)`. */
  lemma AstralSecretLength(c: char)
    requires (c as int) >= 0x10000
    ensures JsLength(Repeat(c, 16)) == 32 && LongEnough(Repeat(c, 16), 32)
  {
    AstralUnits(c, 16);
  }

  lemma {:induction false} AstralUnits(c: char, n: nat)
    requires (c as int) >= 0x10000
    ensures |Utf16(Repeat(c, n))| == 2 * n
  {
    if n > 0 {
      assert Repeat(c, n)[0] == c && Repeat(c, n)[1..] == Repeat(c, n - 1);
      AstralUnits(c, n - 1);
    }
  }

  /** Loading fails on a `NODE_ENV` or `LOG_LEVEL` outside its enum, and
      on an ingest URL or alert address its format check refuses. */
  lemma InvalidSettingRejected(vars: map<string, string>, toNumber: string -> Option<real>,
                               isUrl: string -> bool, isEmail: string -> bool)
    requires ("NODE_ENV" in vars && vars["NODE_ENV"] !in NodeEnvs)
          || ("LOG_LEVEL" in vars && vars["LOG_LEVEL"] !in LogLevels)
          || ("N8N_INGEST_URL" in vars && !isUrl(vars["N8N_INGEST_URL"]))
          || ("EMAIL_FROM" in vars && !isEmail(vars["EMAIL_FROM"]))
          || ("ALERT_EMAIL_TO" in vars && !isEmail(vars["ALERT_EMAIL_TO"]))
    ensures Load(vars, toNumber, isUrl, isEmail).None?
  {
  }
}
