/** The health endpoint (`src/controllers/healthController.ts`): the Redis
    `INFO` parser, and how the database, Redis and n8n probes combine into
    `ok` and the status. The probes themselves (a ping, a connect, an HTTP
    GET) are the network, so each is given by its outcome. */
module Health {
  import opened Options
  import opened Text
  import opened Json
  import opened Http

  /* ---------------------------------------------------------------- */
  /* `parseRedisInfo`                                                  */
  /* ---------------------------------------------------------------- */

  /** What one line of an `INFO` reply contributes: `[key, value] =
      line.split(':')`, kept when the key is non-empty and there is a
      value. Empty lines and `#` section headers contribute nothing. */
  function ParseLine(line: string): (kv: Option<(string, string)>)
    ensures kv.Some? ==> line != "" && line[0] != '#'
    ensures kv.Some? ==> kv.value.0 != "" && ':' !in kv.value.0 && ':' !in kv.value.1
    ensures ':' !in line ==> kv.None?
  {
    if line == "" || line[0] == '#' then None
    else
      var parts := Split(line, ':');
      assert ':' !in line ==> |parts| == 1 by { if ':' !in line { SplitNoSeparator(line, ':'); } }
      if |parts| >= 2 && parts[0] != "" then Some((parts[0], parts[1])) else None
  }

  /** Splitting at the first separator. */
  lemma SplitAtFirst(k: string, t: string, c: char)
    requires c !in k
    ensures Split(k + [c] + t, c) == [k] + Split(t, c)
  {
    var s := k + [c] + t;
    assert s[|k|] == c;
    assert forall i :: 0 <= i < |k| ==> s[i] == k[i] && s[i] != c;
    assert IndexOfChar(s, c) == |k|;
    assert s[..|k|] == k && s[|k| + 1..] == t;
  }

  /** `key:value` gives that key and value, and so does
      `key:value:more`: the value stops at the second colon. */
  lemma ParseKeyValue(k: string, v: string, more: string)
    requires k != "" && k[0] != '#' && ':' !in k && ':' !in v
    ensures ParseLine(k + ":" + v) == Some((k, v))
    ensures ParseLine(k + ":" + v + ":" + more) == Some((k, v))
  {
    SplitNoSeparator(v, ':');
    ParsePair(k, v, v);
    SplitAtFirst(v, more, ':');
    assert k + ":" + v + ":" + more == k + [':'] + (v + ":" + more);
    ParsePair(k, v, v + ":" + more);
  }

  /** A line `k:t` whose text after the first colon splits into a first
      part `v` and possibly more. */
  lemma ParsePair(k: string, v: string, t: string)
    requires k != "" && k[0] != '#' && ':' !in k
    requires Split(t, ':')[0] == v
    ensures ParseLine(k + [':'] + t) == Some((k, v))
  {
    SplitAtFirst(k, t, ':');
    assert (k + [':'] + t)[0] == k[0];
  }

  /** The record built from the lines in order: a later line for the same
      key overwrites an earlier one. */
  function Collect(lines: seq<string>): map<string, string>
    decreases |lines|
  {
    if |lines| == 0 then map[]
    else
      var m := Collect(lines[..|lines| - 1]);
      match ParseLine(lines[|lines| - 1])
      case Some(kv) => m[kv.0 := kv.1]
      case None => m
  }

  /** `parseRedisInfo`: the reply is split into CRLF-terminated lines. */
  function ParseRedisInfo(info: string): (r: map<string, string>)
    ensures forall k :: k in r ==> k != "" && ':' !in k && ':' !in r[k]
  {
    var lines := SplitOn(info, "\r\n");
    CollectKeys(lines);
    Collect(lines)
  }

  lemma {:induction false} CollectKeys(lines: seq<string>)
    ensures forall k :: k in Collect(lines) ==> k != "" && ':' !in k && ':' !in Collect(lines)[k]
    decreases |lines|
  {
    if |lines| > 0 { CollectKeys(lines[..|lines| - 1]); }
  }

  /** The position of the last line that names key `k`, or `-1`. */
  function LastLineFor(lines: seq<string>, k: string): (i: int)
    ensures -1 <= i < |lines|
    ensures i >= 0 ==> ParseLine(lines[i]).Some? && ParseLine(lines[i]).value.0 == k
    ensures forall j :: i < j < |lines| ==> ParseLine(lines[j]).None? || ParseLine(lines[j]).value.0 != k
    decreases |lines|
  {
    if |lines| == 0 then -1
    else
      var kv := ParseLine(lines[|lines| - 1]);
      if kv.Some? && kv.value.0 == k then |lines| - 1
      else
        var i := LastLineFor(lines[..|lines| - 1], k);
        assert forall j :: i < j < |lines| - 1 ==> lines[j] == lines[..|lines| - 1][j];
        if i >= 0 then assert lines[i] == lines[..|lines| - 1][i]; i else i
  }

  /** A key is in the record exactly when some line names it, and its
      value is the one on the last such line. */
  lemma {:induction false} CollectLastLine(lines: seq<string>, k: string)
    ensures k in Collect(lines) <==> LastLineFor(lines, k) >= 0
    ensures k in Collect(lines) ==> Collect(lines)[k] == ParseLine(lines[LastLineFor(lines, k)]).value.1
    decreases |lines|
  {
    if |lines| > 0 {
      var init := lines[..|lines| - 1];
      CollectLastLine(init, k);
      var kv := ParseLine(lines[|lines| - 1]);
      if !(kv.Some? && kv.value.0 == k) {
        var i := LastLineFor(init, k);
        assert LastLineFor(lines, k) == i;
        if i >= 0 { assert lines[i] == init[i]; }
      }
    }
  }

  /* ---------------------------------------------------------------- */
  /* `healthCheckController`                                           */
  /* ---------------------------------------------------------------- */

  /** The database probe: `getDb` and the ping succeeded, or one threw. */
  datatype DbProbe = DbUp(stats: Option<Json>) | DbDown(message: Option<string>)

  /** The three `INFO` sections (memory, persistence, server), or what
      reading them threw. */
  datatype InfoReply = InfoText(memory: string, persistence: string, server: string) | InfoThrew(message: Option<string>)

  /** The Redis probe: no client could be made, the ping answered, or the
      connect or the ping threw. */
  datatype RedisProbe = NoClient | Replied(pong: string, info: InfoReply) | RedisThrew(message: Option<string>)

  /** The n8n probe: every status resolves the request, or it threw. */
  datatype N8nProbe = Answered(status: int) | N8nThrew(message: Option<string>)

  /** `error: ${e?.message || 'unknown'}`. */
  function ErrorText(m: Option<string>): string {
    "error: " + (if Present(m) then m.value else "unknown")
  }

  /** A field copied from a parsed section; a missing key leaves it out. */
  function InfoField(name: string, section: map<string, string>, key: string): seq<(string, Json)> {
    if key in section then [(name, JStr(section[key]))] else []
  }

  /** `redis_info` in deep mode. `maxmemory_human` falls back to
      `'unlimited'` when missing or empty. */
  function RedisInfoJson(info: InfoReply): Json {
    match info
    case InfoThrew(m) => JStr("error: " + (if m.Some? then m.value else "undefined"))
    case InfoText(mem, per, srv) =>
      var memory := ParseRedisInfo(mem);
      var persistence := ParseRedisInfo(per);
      var server := ParseRedisInfo(srv);
      JObj(InfoField("version", server, "redis_version")
           + InfoField("used_memory_human", memory, "used_memory_human")
           + InfoField("used_memory_peak_human", memory, "used_memory_peak_human")
           + [("maxmemory_human", JStr(if "maxmemory_human" in memory && memory["maxmemory_human"] != ""
                                        then memory["maxmemory_human"] else "unlimited"))]
           + InfoField("rdb_last_save_time", persistence, "rdb_last_save_time")
           + InfoField("rdb_last_bgsave_status", persistence, "rdb_last_bgsave_status")
           + InfoField("aof_enabled", persistence, "aof_enabled")
           + InfoField("aof_current_rewrite_time_sec", persistence, "aof_current_rewrite_time_sec")
           + InfoField("connected_clients", server, "connected_clients"))
  }

  function DbChecks(deep: bool, db: DbProbe): seq<(string, Json)> {
    match db
    case DbUp(stats) => [("db", JStr("ok"))] + (if deep && stats.Some? then [("db_stats", stats.value)] else [])
    case DbDown(m) => [("db", JStr(ErrorText(m)))]
  }

  function RedisChecks(deep: bool, redisUrl: Option<string>, redis: RedisProbe): seq<(string, Json)> {
    if !Present(redisUrl) then [("redis", JStr("not_configured"))]
    else match redis
      case NoClient => [("redis", JStr("client_init_failed"))]
      case Replied(pong, info) =>
        [("redis", JStr(if pong == "PONG" then "ok" else "unexpected: " + pong))]
        + (if deep then [("redis_info", RedisInfoJson(info))] else [])
      case RedisThrew(m) => [("redis", JStr(ErrorText(m)))]
  }

  function N8nChecks(n8nUrl: Option<string>, n8n: N8nProbe): seq<(string, Json)> {
    if !Present(n8nUrl) then [("n8n", JStr("not_configured"))]
    else match n8n
      case Answered(status) => [("n8n", JStr("status:" + IntToString(status)))]
      case N8nThrew(m) => [("n8n", JStr(ErrorText(m)))]
  }

  /** The failures that make the service unhealthy: the database is down,
      a configured Redis threw, or a configured n8n threw or answered with
      a status of 500 or more. */
  predicate Unhealthy(db: DbProbe, redisUrl: Option<string>, redis: RedisProbe, n8nUrl: Option<string>, n8n: N8nProbe) {
    db.DbDown?
    || (Present(redisUrl) && redis.RedisThrew?)
    || (Present(n8nUrl) && (n8n.N8nThrew? || n8n.status >= 500))
  }

  /** `healthCheckController`. `workers` is what the worker module
      reported in deep mode (`None` when it could not be loaded). */
  function HealthCheck(deep: bool, db: DbProbe, redisUrl: Option<string>, redis: RedisProbe,
                       n8nUrl: Option<string>, n8n: N8nProbe, workers: Option<Json>, timestamp: string): (r: Reply)
    ensures r.status == 200 || r.status == 503
    ensures r.status == 200 <==>
      db.DbUp? && !(Present(redisUrl) && redis.RedisThrew?) && !(Present(n8nUrl) && (n8n.N8nThrew? || n8n.status >= 500))
    ensures r.body.JsonBody? && r.body.json.JObj?
    ensures Lookup(r.body.json.fields, "ok") == Some(JBool(r.status == 200))
  {
    var ok := !Unhealthy(db, redisUrl, redis, n8nUrl, n8n);
    var checks := DbChecks(deep, db) + RedisChecks(deep, redisUrl, redis) + N8nChecks(n8nUrl, n8n)
                  + (if deep then [("workers", if workers.Some? then workers.value else JStr("unavailable"))] else []);
    JsonReply(if ok then 200 else 503, JObj([("ok", JBool(ok)), ("checks", JObj(checks)), ("timestamp", JStr(timestamp))]))
  }

  /** A dependency that is not configured does not count, whatever its
      probe would have said; and deep mode only adds detail. */
  lemma UnconfiguredDoesNotCount(deep: bool, deep': bool, db: DbProbe, redisUrl: Option<string>, redis: RedisProbe,
                                 redis': RedisProbe, n8nUrl: Option<string>, n8n: N8nProbe, n8n': N8nProbe,
                                 workers: Option<Json>, workers': Option<Json>, timestamp: string, timestamp': string)
    requires !Present(redisUrl) || redis == redis'
    requires !Present(n8nUrl) || n8n == n8n'
    ensures HealthCheck(deep, db, redisUrl, redis, n8nUrl, n8n, workers, timestamp).status
         == HealthCheck(deep', db, redisUrl, redis', n8nUrl, n8n', workers', timestamp').status
  {
  }

  /** A Redis that answers anything, even not `PONG`, and a client that
      could not be made, leave the service healthy. */
  lemma RedisAnswerIsNotFailure(deep: bool, db: DbProbe, redisUrl: Option<string>, redis: RedisProbe,
                                n8nUrl: Option<string>, n8n: N8nProbe, workers: Option<Json>, timestamp: string)
    requires !redis.RedisThrew?
    ensures HealthCheck(deep, db, redisUrl, redis, n8nUrl, n8n, workers, timestamp).status
         == HealthCheck(deep, db, None, redis, n8nUrl, n8n, workers, timestamp).status
  {
  }
}
