/** The database helpers of `src/services/db.ts`: `withDb`, which retries
    an operation with exponential backoff, and `healthCheck`, which pings
    the server. Connecting and running the operation are one abstract
    attempt; sleeping is recorded as the list of delays waited. */
module Db {
  import opened Options
  import opened Json
  import opened Http

  /** One try of `getDb()` followed by `fn(db)`: its value, or the error
      either of them threw. */
  datatype Attempt<T> = Succeeded(value: T) | Threw(error: Failure)

  /** The `undefined` thrown when the loop runs no attempt at all. */
  const Undefined: Failure := Failure(None, None, None)

  function Pow2(i: nat): (p: nat)
    ensures p >= 1
  {
    if i == 0 then 1 else 2 * Pow2(i - 1)
  }

  /** The delay before retry `i + 1`: `100 * Math.pow(2, i)` ms. */
  function Backoff(i: nat): (ms: nat)
    ensures ms >= 100
  {
    100 * Pow2(i)
  }

  /** `withDb(fn, retries)`: `attempt(i)` is the outcome of try `i`. The
      result, the delays waited, and the number of tries made. */
  method WithDb<T>(attempt: nat -> Attempt<T>, retries: int) returns (r: Attempt<T>, waits: seq<nat>, tries: nat)
    ensures retries < 0 ==> r == Threw(Undefined) && waits == [] && tries == 0
    ensures retries >= 0 ==> 1 <= tries <= retries + 1 && r == attempt(tries - 1)
    ensures forall i :: 0 <= i < tries - 1 ==> attempt(i).Threw?
    ensures r.Threw? && retries >= 0 ==> tries == retries + 1
    ensures r.Succeeded? <==> exists i: nat :: i <= retries && attempt(i).Succeeded?
    ensures |waits| == if tries == 0 then 0 else tries - 1
    ensures forall i :: 0 <= i < |waits| ==> waits[i] == Backoff(i)
  {
    var lastErr := Undefined;
    waits := [];
    tries := 0;
    var i: nat := 0;
    while i <= retries
      invariant tries == i
      invariant retries >= 0 ==> i <= retries
      invariant retries < 0 ==> i == 0
      invariant forall j :: 0 <= j < i ==> attempt(j).Threw?
      invariant lastErr == if i == 0 then Undefined else attempt(i - 1).error
      invariant |waits| == i
      invariant forall j :: 0 <= j < |waits| ==> waits[j] == Backoff(j)
      decreases retries - i
    {
      tries := tries + 1;
      var a := attempt(i);
      if a.Succeeded? {
        r := a;
        return;
      }
      lastErr := a.error;
      if i < retries {
        waits := waits + [Backoff(i)];
        i := i + 1;
        continue;
      }
      r := a;
      return;
    }
    r := Threw(lastErr);
  }

  /** `withDb` with its default of two retries: at most three tries. */
  method WithDbDefault<T>(attempt: nat -> Attempt<T>) returns (r: Attempt<T>, waits: seq<nat>, tries: nat)
    ensures 1 <= tries <= 3 && r == attempt(tries - 1)
    ensures r.Succeeded? <==> attempt(0).Succeeded? || attempt(1).Succeeded? || attempt(2).Succeeded?
    ensures r.Threw? ==> waits == [100, 200]
  {
    r, waits, tries := WithDb(attempt, 2);
    if r.Succeeded? {
      var i: nat :| i <= 2 && attempt(i).Succeeded?;
    } else {
      assert waits == [Backoff(0), Backoff(1)];
      assert Backoff(1) == 200 by { assert Pow2(1) == 2; }
    }
  }

  /** What the ping produced: the command's reply (`None` when it is
      null or undefined), or the message of what `getDb` or the command
      threw. */
  datatype Ping = Replied(reply: Option<Json>) | PingThrew(message: Option<string>)

  datatype Health = Health(ok: bool, error: Option<string>)

  /** `healthCheck`: `res?.ok === 1`, a strict comparison with the number 1. */
  function HealthCheck(ping: Ping): (h: Health)
    ensures h.ok <==> ping.Replied? && ping.reply.Some? && Get(ping.reply.value, "ok") == Some(JNum(1))
    ensures ping.Replied? ==> h.error.None?
    ensures ping.PingThrew? ==> h.error == ping.message
  {
    match ping
    case Replied(reply) => Health(reply.Some? && Get(reply.value, "ok") == Some(JNum(1)), None)
    case PingThrew(message) => Health(false, message)
  }

  /** A healthy report never carries an error, and the comparison is
      strict: only the number 1 counts, not `true` or the string "1"; a
      null reply is unhealthy without an error. */
  lemma HealthStrict(ping: Ping)
    ensures HealthCheck(ping).ok ==> HealthCheck(ping).error.None?
    ensures HealthCheck(Replied(Some(JObj([("ok", JNum(1))])))) == Health(true, None)
    ensures HealthCheck(Replied(Some(JObj([("ok", JBool(true))])))) == Health(false, None)
    ensures HealthCheck(Replied(Some(JObj([("ok", JStr("1"))])))) == Health(false, None)
    ensures HealthCheck(Replied(None)) == Health(false, None)
  {
    LookupCons(("ok", JNum(1)), [], "ok");
    LookupCons(("ok", JBool(true)), [], "ok");
    LookupCons(("ok", JStr("1")), [], "ok");
  }
}
