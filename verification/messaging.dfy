/** Outbound messages (`src/services/messaging.ts`): one `messages` record
    per request, a primary attempt on the requested channel, and at most
    one fallback attempt. The SDKs of Twilio, SendGrid and Slack are one
    parameter `sdk`; template rendering is left out (the rendered text
    does not influence any decision). */
module Messaging {
  import opened Options
  import opened Json
  import opened Http

  /** The provider settings read from the environment. */
  datatype ProviderEnv = ProviderEnv(
    twilioAccountSid: Option<string>, twilioAuthToken: Option<string>, twilioServiceSid: Option<string>,
    sendgridApiKey: Option<string>, emailFrom: Option<string>,
    slackBotToken: Option<string>)

  /** What an SDK call did: it returned (Slack reports its own `ok`,
      `ts` and `error`; Twilio and SendGrid only an id) or it threw. */
  datatype SdkOutcome = SdkReturned(ok: bool, providerId: Option<string>, error: Option<string>) | SdkThrew(message: Option<string>)

  type Sdk = (string, string) -> SdkOutcome

  datatype SendResult = SendResult(ok: bool, providerId: Option<string>, error: Option<string>)

  predicate Configured(env: ProviderEnv, channel: string) {
    if channel == "sms" then Present(env.twilioAccountSid) && Present(env.twilioAuthToken) && Present(env.twilioServiceSid)
    else if channel == "email" then Present(env.sendgridApiKey) && Present(env.emailFrom)
    else if channel == "slack" then Present(env.slackBotToken)
    else false
  }

  function NotConfigured(channel: string): string {
    if channel == "sms" then "Twilio not configured"
    else if channel == "email" then "SendGrid not configured"
    else "Slack not configured"
  }

  /** Whether the SDK is called at all for this channel. */
  predicate CallsSdk(env: ProviderEnv, channel: string) {
    (channel == "sms" || channel == "email" || channel == "slack") && Configured(env, channel)
  }

  /** `attempt(channel, to)` without its store update: the provider
      function for the channel, with exceptions turned into failures. An
      unknown channel stays `{ ok: false }`. */
  function Attempt(env: ProviderEnv, sdk: Sdk, channel: string, to: string): (r: SendResult)
    ensures !CallsSdk(env, channel) ==> !r.ok
    ensures (channel == "sms" || channel == "email" || channel == "slack") && !Configured(env, channel) ==>
      r == SendResult(false, None, Some(NotConfigured(channel)))
    ensures CallsSdk(env, channel) && sdk(channel, to).SdkThrew? ==>
      r == SendResult(false, None, Some(if Present(sdk(channel, to).message) then sdk(channel, to).message.value else "Unknown error"))
    ensures CallsSdk(env, channel) && sdk(channel, to).SdkReturned? ==>
      (r.ok <==> channel != "slack" || sdk(channel, to).ok)
  {
    if !(channel == "sms" || channel == "email" || channel == "slack") then SendResult(false, None, None)
    else if !Configured(env, channel) then SendResult(false, None, Some(NotConfigured(channel)))
    else
      match sdk(channel, to)
      case SdkThrew(m) => SendResult(false, None, Some(if Present(m) then m.value else "Unknown error"))
      case SdkReturned(ok, id, error) =>
        if channel == "slack" then SendResult(ok, id, error) else SendResult(true, id, None)
  }

  /** A document of the `messages` collection. */
  datatype MessageRecord = MessageRecord(to: string, channel: string, templateId: string, params: Option<Json>,
                                         status: string, attempts: int, lastError: Option<string>, providerMessageId: Option<string>)

  /** The collection in insertion order; a record's `_id` is its position. */
  type Messages = seq<MessageRecord>

  datatype FallbackTarget = FallbackTarget(channel: Option<string>, to: Option<string>)

  datatype SendRequest = SendRequest(channel: string, to: string, templateId: string, params: Option<Json>,
                                     fallback: Option<FallbackTarget>, correlationId: Option<string>)

  /** What the call settles to, and the collection afterwards: the
      service's result, or the store error it rethrows. */
  datatype Sent = Sent(messageId: nat, channelUsed: string, ok: bool, messages: Messages)
                | SendThrew(error: Failure, messages: Messages)

  /** Where the store can reject: `Prepare` is `getDb`, `renderTemplate`
      or the `insertOne` of the pending record, none of which has written
      anything when it rejects; `PrimaryUpdate` and `FallbackUpdate` are
      the `updateOne` after the primary and the fallback attempt. */
  datatype SendStep = Prepare | PrimaryUpdate | FallbackUpdate

  predicate FaultAt(fault: Option<(SendStep, Failure)>, step: SendStep) {
    fault.Some? && fault.value.0 == step
  }

  /** The record inserted before the first attempt. */
  function Pending(req: SendRequest): MessageRecord {
    MessageRecord(req.to, req.channel, req.templateId, req.params, "pending", 0, None, None)
  }

  /** The store update after one attempt. */
  function Record(rec: MessageRecord, r: SendResult): (u: MessageRecord)
    ensures u.attempts == rec.attempts + 1
    ensures u.status == (if r.ok then "sent" else "failed")
    ensures u.to == rec.to && u.channel == rec.channel && u.templateId == rec.templateId && u.params == rec.params
  {
    rec.(status := if r.ok then "sent" else "failed", lastError := r.error, providerMessageId := r.providerId,
         attempts := rec.attempts + 1)
  }

  /** Whether a fallback is tried after the primary result. */
  predicate TriesFallback(req: SendRequest, primary: SendResult) {
    !primary.ok && req.fallback.Some? && Present(req.fallback.value.channel)
  }

  /** `sendMessageWithFallback`. `fault` is the store rejecting at one
      step; a fault at `FallbackUpdate` is never reached when no fallback
      is tried. Provider errors never escape `attempt`, so a store error
      is the only thing the call throws. */
  function SendMessageWithFallback(env: ProviderEnv, sdk: Sdk, req: SendRequest, fault: Option<(SendStep, Failure)>,
                                   messages: Messages): (r: Sent)
    ensures r.SendThrew? <==>
      FaultAt(fault, Prepare) || FaultAt(fault, PrimaryUpdate)
      || (FaultAt(fault, FallbackUpdate) && TriesFallback(req, Attempt(env, sdk, req.channel, req.to)))
    ensures r.SendThrew? ==> r.error == fault.value.1
    ensures |r.messages| == if FaultAt(fault, Prepare) then |messages| else |messages| + 1
    ensures r.messages[..|messages|] == messages
    ensures |r.messages| > |messages| ==>
      var rec := r.messages[|messages|];
      rec.to == req.to && rec.channel == req.channel && rec.templateId == req.templateId && rec.params == req.params
    ensures r.SendThrew? && FaultAt(fault, PrimaryUpdate) ==> r.messages[|messages|] == Pending(req)
    ensures r.SendThrew? && FaultAt(fault, FallbackUpdate) ==>
      r.messages[|messages|].status == "failed" && r.messages[|messages|].attempts == 1
    ensures r.Sent? ==>
      var rec := r.messages[|messages|];
      var primary := Attempt(env, sdk, req.channel, req.to);
      r.messageId == |messages|
      && (rec.attempts == if TriesFallback(req, primary) then 2 else 1)
      && (rec.status == "sent" <==> r.ok)
      && (rec.status == "sent" || rec.status == "failed")
    ensures var primary := Attempt(env, sdk, req.channel, req.to);
      r.Sent? && !TriesFallback(req, primary) ==> r.ok == primary.ok && r.channelUsed == req.channel
    ensures var primary := Attempt(env, sdk, req.channel, req.to);
      r.Sent? && TriesFallback(req, primary) ==>
        var target := req.fallback.value;
        var second := Attempt(env, sdk, target.channel.value, if Present(target.to) then target.to.value else req.to);
        r.ok == second.ok && r.channelUsed == (if second.ok then target.channel.value else req.channel)
  {
    if FaultAt(fault, Prepare) then SendThrew(fault.value.1, messages)
    else
      var id := |messages|;
      var primary := Attempt(env, sdk, req.channel, req.to);
      if FaultAt(fault, PrimaryUpdate) then SendThrew(fault.value.1, messages + [Pending(req)])
      else
        var afterPrimary := Record(Pending(req), primary);
        if TriesFallback(req, primary) then
          if FaultAt(fault, FallbackUpdate) then SendThrew(fault.value.1, messages + [afterPrimary])
          else
            var target := req.fallback.value;
            var fallbackTo := if Present(target.to) then target.to.value else req.to;
            var second := Attempt(env, sdk, target.channel.value, fallbackTo);
            Sent(id, if second.ok then target.channel.value else req.channel, second.ok, messages + [Record(afterPrimary, second)])
        else
          Sent(id, req.channel, primary.ok, messages + [afterPrimary])
  }

  /** With no provider configured for either channel, no SDK is called and
      the result fails on the primary channel, with the record marked
      failed. */
  lemma UnconfiguredNeverSends(env: ProviderEnv, sdk: Sdk, req: SendRequest, messages: Messages)
    requires !Configured(env, req.channel)
    requires req.fallback.Some? && Present(req.fallback.value.channel) ==> !Configured(env, req.fallback.value.channel.value)
    ensures var r := SendMessageWithFallback(env, sdk, req, None, messages);
      r.Sent? && !r.ok && r.channelUsed == req.channel && r.messages[|messages|].status == "failed"
  {
  }
}

/** The retry worker of `src/workers/messagingRetry.ts`: a message is
    retried at most five times. The imported `sendMessage` is not among
    the exports of `src/services/messaging.ts`; it is a parameter here. */
module MessagingRetry {
  import opened Options
  import opened Json

  const MaxRetries: int := 5

  /** The fields of a `messages` document the worker reads and writes,
      keyed by its `message_id`. */
  datatype RetryRecord = RetryRecord(status: string, retryCount: int, channel: Json, to: Json, templateId: Json,
                                     params: Option<Json>, fallback: Option<Json>,
                                     error: Option<string>, lastError: Option<string>, providerId: Option<string>)

  type Store = map<string, RetryRecord>

  /** What `sendMessage` did. */
  datatype SendOutcome = SendReturned(ok: bool, providerId: Option<string>, error: Option<string>) | SendThrew(message: Option<string>)

  datatype RetryResult = RetryResult(ok: bool, reason: Option<string>, messageId: Option<string>, providerId: Option<string>)

  /** The job's return value, or the message of the error it throws. */
  datatype Settled = Returned(result: RetryResult) | Threw(message: Option<string>)

  datatype Retried = Retried(settled: Settled, store: Store)

  predicate Delivered(rec: RetryRecord) {
    rec.status == "delivered" || rec.status == "sent"
  }

  /** Where the store can reject: `Fetch` is `getDb` or `findOne`,
      `GiveUp` the update that marks the message failed, `Bump` the update
      of the retry count before sending, and `Settle` the update after a
      send that returned. */
  datatype RetryStep = Fetch | GiveUp | Bump | Settle

  /** The store rejecting at `step`, with the message of its error. */
  predicate FaultAt(fault: Option<(RetryStep, Option<string>)>, step: RetryStep) {
    fault.Some? && fault.value.0 == step
  }

  /** The record as the count update leaves it. */
  function Bumped(rec: RetryRecord): RetryRecord {
    rec.(status := "retrying", retryCount := rec.retryCount + 1)
  }

  /** `processMessagingRetry`; `send` is called with the stored record and
      `fault` is the store rejecting at one step. The catch-all handler
      rethrows every error, so a store error settles the job as thrown,
      with the writes of the earlier steps in place. */
  function ProcessMessagingRetry(messageId: string, send: RetryRecord -> SendOutcome,
                                 fault: Option<(RetryStep, Option<string>)>, store: Store): (r: Retried)
    ensures FaultAt(fault, Fetch) ==> r == Retried(Threw(fault.value.1), store)
    ensures !FaultAt(fault, Fetch) && messageId !in store ==>
      r == Retried(Returned(RetryResult(false, Some("message_not_found"), None, None)), store)
    ensures !FaultAt(fault, Fetch) && messageId in store && Delivered(store[messageId]) ==>
      r == Retried(Returned(RetryResult(true, Some("already_delivered"), None, None)), store)
    ensures !FaultAt(fault, Fetch) && messageId in store && !Delivered(store[messageId])
            && store[messageId].retryCount >= MaxRetries ==>
      if FaultAt(fault, GiveUp) then r == Retried(Threw(fault.value.1), store)
      else r.settled == Returned(RetryResult(false, Some("max_retries_exceeded"), None, None))
           && r.store == store[messageId := store[messageId].(status := "failed", error := Some("Max retries exceeded"))]
    ensures !FaultAt(fault, Fetch) && messageId in store && !Delivered(store[messageId])
            && store[messageId].retryCount < MaxRetries && FaultAt(fault, Bump) ==>
      r == Retried(Threw(fault.value.1), store)
    ensures !FaultAt(fault, Fetch) && !FaultAt(fault, Bump) && messageId in store && !Delivered(store[messageId])
            && store[messageId].retryCount < MaxRetries ==>
      var rec := store[messageId];
      var bumped := Bumped(rec);
      r.store.Keys == store.Keys
      && r.store[messageId].retryCount == rec.retryCount + 1
      && (send(bumped).SendThrew? ==> r == Retried(Threw(send(bumped).message), store[messageId := bumped]))
      && (send(bumped).SendReturned? && FaultAt(fault, Settle) ==>
            r == Retried(Threw(fault.value.1), store[messageId := bumped]))
      && (send(bumped).SendReturned? && !FaultAt(fault, Settle) ==>
            (r.settled.Returned? <==> send(bumped).ok)
            && (r.settled.Returned? ==>
                  r.store[messageId].status == "delivered"
                  && r.settled.result == RetryResult(true, None, Some(messageId), send(bumped).providerId))
            && (!send(bumped).ok ==>
                  r.store[messageId].status == "retry_failed"
                  && r.settled == Threw(Some(if send(bumped).error.Some? && send(bumped).error.value != "" then send(bumped).error.value
                                             else "Message delivery failed"))))
    ensures forall id :: id in store && id != messageId ==> id in r.store && r.store[id] == store[id]
  {
    if FaultAt(fault, Fetch) then Retried(Threw(fault.value.1), store)
    else if messageId !in store then Retried(Returned(RetryResult(false, Some("message_not_found"), None, None)), store)
    else
      var rec := store[messageId];
      if Delivered(rec) then Retried(Returned(RetryResult(true, Some("already_delivered"), None, None)), store)
      else if rec.retryCount >= MaxRetries then
        if FaultAt(fault, GiveUp) then Retried(Threw(fault.value.1), store)
        else
          Retried(Returned(RetryResult(false, Some("max_retries_exceeded"), None, None)),
                  store[messageId := rec.(status := "failed", error := Some("Max retries exceeded"))])
      else if FaultAt(fault, Bump) then Retried(Threw(fault.value.1), store)
      else
        var bumped := Bumped(rec);
        match send(bumped)
        case SendThrew(m) => Retried(Threw(m), store[messageId := bumped])
        case SendReturned(ok, providerId, error) =>
          if FaultAt(fault, Settle) then Retried(Threw(fault.value.1), store[messageId := bumped])
          else if ok then
            Retried(Returned(RetryResult(true, None, Some(messageId), providerId)),
                    store[messageId := bumped.(status := "delivered", providerId := providerId)])
          else
            Retried(Threw(Some(if error.Some? && error.value != "" then error.value else "Message delivery failed")),
                    store[messageId := bumped.(status := "retry_failed", lastError := error)])
  }

  /** Every stored retry count lies in [0, 5]. */
  predicate RetriesBounded(store: Store) {
    forall id :: id in store ==> 0 <= store[id].retryCount <= MaxRetries
  }

  lemma RetryKeepsBound(messageId: string, send: RetryRecord -> SendOutcome,
                        fault: Option<(RetryStep, Option<string>)>, store: Store)
    requires RetriesBounded(store)
    ensures RetriesBounded(ProcessMessagingRetry(messageId, send, fault, store).store)
  {
  }

  /** Retry jobs for one message, one after another, each sending with the
      given outcome function while the store answers. */
  function RetryRun(messageId: string, sends: seq<RetryRecord -> SendOutcome>, store: Store): (r: Store)
    decreases |sends|
  {
    if sends == [] then store
    else RetryRun(messageId, sends[1..], ProcessMessagingRetry(messageId, sends[0], None, store).store)
  }

  /** A failed send that returns leaves the record undelivered, one retry
      further on. */
  ghost predicate FailsToSend(send: RetryRecord -> SendOutcome) {
    forall rec :: send(rec).SendThrew? || !send(rec).ok
  }

  /** However many failing retries run, a present, undelivered message with
      `c <= 5` retries ends with at most five, at `min(c + n, 5)`. */
  lemma {:induction false} FailingRetriesCap(messageId: string, sends: seq<RetryRecord -> SendOutcome>, store: Store)
    requires messageId in store && !Delivered(store[messageId]) && 0 <= store[messageId].retryCount <= MaxRetries
    requires forall i :: 0 <= i < |sends| ==> FailsToSend(sends[i])
    ensures var after := RetryRun(messageId, sends, store);
      var c := store[messageId].retryCount;
      messageId in after && !Delivered(after[messageId])
      && after[messageId].retryCount == if c + |sends| < MaxRetries then c + |sends| else MaxRetries
    decreases |sends|
  {
    if sends != [] {
      var rec := store[messageId];
      var next := ProcessMessagingRetry(messageId, sends[0], None, store).store;
      if rec.retryCount < MaxRetries {
        var bumped := Bumped(rec);
        assert sends[0](bumped).SendThrew? || !sends[0](bumped).ok;
      }
      FailingRetriesCap(messageId, sends[1..], next);
    }
  }

  /** After five failed retries the next job gives up without sending. */
  lemma GivesUpAfterFive(messageId: string, sends: seq<RetryRecord -> SendOutcome>, last: RetryRecord -> SendOutcome, store: Store)
    requires messageId in store && !Delivered(store[messageId]) && store[messageId].retryCount == 0
    requires |sends| == 5 && forall i :: 0 <= i < 5 ==> FailsToSend(sends[i])
    ensures var after := RetryRun(messageId, sends, store);
      ProcessMessagingRetry(messageId, last, None, after).settled == Returned(RetryResult(false, Some("max_retries_exceeded"), None, None))
  {
    FailingRetriesCap(messageId, sends, store);
  }
}
