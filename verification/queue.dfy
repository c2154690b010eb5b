/** The job queue front ends: the placeholder `enqueue` of
    `src/queue/index.ts`, and the BullMQ wrappers of `src/queue/processor.ts`
    (a per-name cache of queues, `enqueueJob` with a forced retry policy,
    and `closeAllQueues`). BullMQ itself is abstract: a queue is its name,
    connection and default job options, and `add` is a parameter. */
module Queues {
  import opened Options
  import opened Json
  import Text

  datatype EnqueueResult = EnqueueResult(ok: bool, queued: bool, reason: string)

  const QueueDisabled: string := "queue_disabled"
  const BackendNotConfigured: string := "backend_not_configured"

  /** `enqueue`: no backend is wired, so nothing is ever queued. */
  function Enqueue(redisUrl: Option<string>, enableWorkers: bool, jobName: string, data: Json): (r: EnqueueResult)
    ensures r.ok && !r.queued
    ensures r.reason == QueueDisabled <==> !Present(redisUrl) || !enableWorkers
    ensures r.reason == BackendNotConfigured <==> Present(redisUrl) && enableWorkers
  {
    assert QueueDisabled[0] != BackendNotConfigured[0];
    if !Present(redisUrl) || !enableWorkers then EnqueueResult(true, false, QueueDisabled)
    else EnqueueResult(true, false, BackendNotConfigured)
  }

  /** What an `enqueue` a controller calls answered: `id` is the job id
      when the job was queued, `reason` why it was not. */
  datatype EnqueueAnswer = EnqueueAnswer(ok: bool, queued: bool, id: Option<string>, reason: Option<string>)

  datatype Backoff = Backoff(kind: string, delay: int)

  /** Job options; a field left `None` is absent from the object. */
  datatype JobOptions = JobOptions(delay: Option<int>, priority: Option<int>, attempts: Option<int>, backoff: Option<Backoff>)

  const RetryBackoff: Backoff := Backoff("exponential", 1000)

  /** The defaults every queue is created with: three attempts, exponential
      backoff from one second, completed jobs kept a day (at most 1000),
      failed jobs kept a week. */
  datatype QueueDefaults = QueueDefaults(attempts: int, backoff: Backoff, completeAge: int, completeCount: int, failAge: int)

  const Defaults: QueueDefaults := QueueDefaults(3, RetryBackoff, 24 * 3600, 1000, 7 * 24 * 3600)

  /** The parts of a parsed Redis URL the connection uses. */
  datatype RedisUrl = RedisUrl(hostname: string, port: string, password: string, pathname: string)

  datatype Connection = Connection(host: string, port: Option<int>, password: Option<string>, db: Option<int>)

  datatype Queue = Queue(name: string, connection: Connection, defaults: QueueDefaults)

  type Cache = map<string, Queue>

  /** `getConnectionOptions` (with `parseInt('6379')` written as its value):
      the port defaults to 6379, an empty password
      is dropped, and the database is the path after its first character
      (0 when the path is empty). */
  function ConnectionOf(url: RedisUrl): (c: Connection)
    ensures url.port == "" ==> c.port == Some(6379)
    ensures c.password.None? <==> url.password == ""
    ensures url.pathname == "" ==> c.db == Some(0)
    ensures c.host == url.hostname
  {
    Connection(url.hostname,
               if url.port != "" then Text.ParseInt(url.port) else Some(6379),
               if url.password != "" then Some(url.password) else None,
               if url.pathname != "" then Text.ParseInt(url.pathname[1..]) else Some(0))
  }

  datatype Got = Got(queue: Option<Queue>, cache: Cache)

  /** Every cached queue is stored under its own name. */
  predicate WellKeyed(cache: Cache) {
    forall n :: n in cache ==> cache[n].name == n
  }

  /** `getQueue`. `parseUrl` is `new URL`, `None` when it throws; the
      constructor then fails and nothing is cached. */
  function GetQueue(name: string, redisUrl: Option<string>, parseUrl: string -> Option<RedisUrl>, cache: Cache): (r: Got)
    ensures !Present(redisUrl) ==> r == Got(None, cache)
    ensures Present(redisUrl) && name in cache ==> r == Got(Some(cache[name]), cache)
    ensures Present(redisUrl) && name !in cache ==>
      (r.queue.Some? <==> parseUrl(redisUrl.value).Some?)
      && (r.queue.Some? ==> r.queue.value == Queue(name, ConnectionOf(parseUrl(redisUrl.value).value), Defaults)
                             && r.cache == cache[name := r.queue.value])
      && (r.queue.None? ==> r.cache == cache)
    ensures WellKeyed(cache) ==> WellKeyed(r.cache)
  {
    if !Present(redisUrl) then Got(None, cache)
    else if name in cache then Got(Some(cache[name]), cache)
    else
      var url := parseUrl(redisUrl.value);
      if url.None? then Got(None, cache)
      else
        var q := Queue(name, ConnectionOf(url.value), Defaults);
        Got(Some(q), cache[name := q])
  }

  /** A second `getQueue` of the same name returns the same queue and
      leaves the cache as the first call left it. */
  lemma GetQueueCached(name: string, redisUrl: Option<string>, parseUrl: string -> Option<RedisUrl>, cache: Cache)
    requires GetQueue(name, redisUrl, parseUrl, cache).queue.Some?
    ensures var first := GetQueue(name, redisUrl, parseUrl, cache);
      GetQueue(name, redisUrl, parseUrl, first.cache) == first
  {
  }

  /** `queue.add`: `None` when it throws, otherwise the job's id (which may
      be undefined). */
  type Add = (Queue, string, Json, JobOptions) -> Option<Option<string>>

  datatype JobResult = JobResult(ok: bool, id: Option<string>, reason: Option<string>)

  /** The result, the options `add` was called with (if it was), and the
      cache afterwards. */
  datatype Enqueued = Enqueued(result: JobResult, added: Option<JobOptions>, cache: Cache)

  /** The caller's options with the retry policy forced over them. */
  function WithRetryPolicy(options: JobOptions): (o: JobOptions)
    ensures o.attempts == Some(3) && o.backoff == Some(RetryBackoff)
    ensures o.delay == options.delay && o.priority == options.priority
  {
    options.(attempts := Some(3), backoff := Some(RetryBackoff))
  }

  /** `enqueueJob`. */
  function EnqueueJob(queueName: string, data: Json, options: JobOptions, redisUrl: Option<string>,
                      parseUrl: string -> Option<RedisUrl>, add: Add, cache: Cache): (r: Enqueued)
    ensures var g := GetQueue(queueName, redisUrl, parseUrl, cache);
      r.cache == g.cache
      && (g.queue.None? ==> r.result == JobResult(true, None, Some(QueueDisabled)) && r.added.None?)
      && (g.queue.Some? ==>
            r.added == Some(WithRetryPolicy(options))
            && var outcome := add(g.queue.value, queueName, data, WithRetryPolicy(options));
               (outcome.None? ==> r.result == JobResult(false, None, Some("enqueue_failed")))
               && (outcome.Some? ==> r.result == JobResult(true, outcome.value, None)))
  {
    var g := GetQueue(queueName, redisUrl, parseUrl, cache);
    if g.queue.None? then Enqueued(JobResult(true, None, Some(QueueDisabled)), None, g.cache)
    else
      var opts := WithRetryPolicy(options);
      var outcome := add(g.queue.value, queueName, data, opts);
      if outcome.None? then Enqueued(JobResult(false, None, Some("enqueue_failed")), Some(opts), g.cache)
      else Enqueued(JobResult(true, outcome.value, None), Some(opts), g.cache)
  }

  /** Whatever the caller passes, the job is added with three attempts and
      exponential backoff from one second, and keeps the caller's delay
      and priority. */
  lemma RetryPolicyForced(queueName: string, data: Json, options: JobOptions, redisUrl: Option<string>,
                          parseUrl: string -> Option<RedisUrl>, add: Add, cache: Cache)
    requires EnqueueJob(queueName, data, options, redisUrl, parseUrl, add, cache).added.Some?
    ensures var o := EnqueueJob(queueName, data, options, redisUrl, parseUrl, add, cache).added.value;
      o.attempts == Some(3) && o.backoff == Some(Backoff("exponential", 1000))
      && o.delay == options.delay && o.priority == options.priority
  {
  }

  /** Without a Redis URL, `enqueueJob` reports a disabled queue as a
      success, never calls `add`, and leaves the cache alone. */
  lemma DisabledWithoutRedis(queueName: string, data: Json, options: JobOptions, redisUrl: Option<string>,
                             parseUrl: string -> Option<RedisUrl>, add: Add, cache: Cache)
    requires !Present(redisUrl)
    ensures EnqueueJob(queueName, data, options, redisUrl, parseUrl, add, cache)
         == Enqueued(JobResult(true, None, Some(QueueDisabled)), None, cache)
  {
  }

  datatype Closed = Closed(attempted: set<string>, cache: Cache)

  /** `closeAllQueues`: every cached queue is closed (errors are only
      logged) and the cache is emptied. */
  function CloseAllQueues(cache: Cache): (r: Closed)
    ensures r.attempted == cache.Keys
    ensures |r.cache| == 0
  {
    Closed(cache.Keys, map[])
  }

  /** After closing, a queue of any name is built afresh rather than
      taken from the cache. */
  lemma CloseThenRebuild(name: string, redisUrl: Option<string>, parseUrl: string -> Option<RedisUrl>, cache: Cache)
    requires Present(redisUrl) && parseUrl(redisUrl.value).Some?
    ensures var g := GetQueue(name, redisUrl, parseUrl, CloseAllQueues(cache).cache);
      g.queue == Some(Queue(name, ConnectionOf(parseUrl(redisUrl.value).value), Defaults))
      && g.cache == map[name := g.queue.value]
  {
  }
}
