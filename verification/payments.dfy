/** Refund requests by payment intent: the id check and `requestRefund` of
    `src/services/payments.ts`, and the controller of
    `src/controllers/payController.ts` in front of them. The refund id is
    a uuid and so a parameter; the approval alert is returned as the
    message request it would send, since its failures are swallowed. */
module Payments {
  import opened Options
  import opened Text
  import opened Json
  import opened Http
  import Refunds
  import Messaging

  const Prefix: string := "pi_"

  /** An ASCII letter or digit, the class `[A-Za-z0-9]`. */
  predicate IsAlnum(c: char) {
    IsAsciiLetter(c) || IsDigit(c)
  }

  predicate AllAlnum(s: string) {
    forall i :: 0 <= i < |s| ==> IsAlnum(s[i])
  }

  /** `isLikelyValidPaymentIntentId`: the pattern `^pi_[A-Za-z0-9]{8,}$`. */
  predicate IsLikelyValidPaymentIntentId(id: string) {
    |id| >= |Prefix| + 8 && id[..|Prefix|] == Prefix && AllAlnum(id[|Prefix|..])
  }

  /** The check accepts exactly the prefix followed by at least eight
      letters or digits. */
  lemma PaymentIntentIdShape(id: string)
    ensures IsLikelyValidPaymentIntentId(id) <==>
      exists w :: id == Prefix + w && |w| >= 8 && AllAlnum(w)
  {
    if IsLikelyValidPaymentIntentId(id) {
      var w := id[|Prefix|..];
      assert id == Prefix + w;
    }
    if exists w :: id == Prefix + w && |w| >= 8 && AllAlnum(w) {
      var w :| id == Prefix + w && |w| >= 8 && AllAlnum(w);
      assert id[..|Prefix|] == Prefix && id[|Prefix|..] == w;
    }
  }

  /** An underscore after the prefix is rejected, and so is an id of ten
      characters, although the comment beside the pattern allows both. */
  lemma PaymentIntentIdCommentDisagrees()
    ensures !IsLikelyValidPaymentIntentId("pi_abc_defgh")
    ensures !IsLikelyValidPaymentIntentId("pi_1234567")
    ensures IsLikelyValidPaymentIntentId("pi_1234abcd")
  {
    assert !IsAlnum("pi_abc_defgh"[6]);
    assert "pi_abc_defgh"[3..][3] == "pi_abc_defgh"[6];
    assert "pi_1234abcd"[..3] == Prefix;
  }

  datatype RefundRequest = RefundRequest(paymentIntentId: string, amountCents: real, correlationId: Option<string>)

  /** The result the service reports; every path of `requestRefund` sets
      `ok` to true. */
  datatype RequestResult = RequestResult(ok: bool, status: string, refundId: string)

  /** The result, the `refunds` collection afterwards, and the Slack alert
      to send (if any). */
  datatype Requested = Requested(result: RequestResult, refunds: Refunds.RefundStore, alert: Option<Messaging.SendRequest>)

  const PendingApproval: string := "pending_approval"
  const Accepted: string := "accepted"

  /** The alert for a refund that waits for approval. `numberText` is
      `String(n)` on numbers. */
  function ApprovalAlert(channel: string, refundId: string, input: RefundRequest, numberText: real -> string): Messaging.SendRequest {
    Messaging.SendRequest("slack", channel, "generic",
      Some(JObj([("message", JStr("Refund pending approval: " + refundId + " for " + numberText(input.amountCents)
                                  + " cents on " + input.paymentIntentId))])),
      None, input.correlationId)
  }

  /** The record `insertOne` writes. */
  function RequestRecord(input: RefundRequest, status: string): Refunds.RefundRecord {
    Refunds.Blank.(status := status, paymentIntentId := Some(input.paymentIntentId),
                   amountCents := Some(input.amountCents), correlationId := input.correlationId)
  }

  /** `requestRefund`. `refundId` is the uuid drawn and `fault` a rejection
      of `getDb` or of `insertOne` for a reason other than a taken id;
      neither has written anything when it rejects. `None` on a fault and
      when the insert throws on an existing `refund_id`, which the unique
      index forbids; the collection is then unchanged. */
  function RequestRefund(input: RefundRequest, limitCents: int, slackChannel: Option<string>, refundId: string,
                         numberText: real -> string, fault: Option<Failure>, refunds: Refunds.RefundStore): (r: Option<Requested>)
    ensures r.None? <==> fault.Some? || refundId in refunds
    ensures r.Some? ==>
      var needsApproval := input.amountCents > limitCents as real;
      r.value.result.ok && r.value.result.refundId == refundId
      && (r.value.result.status == PendingApproval <==> needsApproval)
      && (r.value.result.status == Accepted <==> !needsApproval)
      && r.value.refunds.Keys == refunds.Keys + {refundId}
      && r.value.refunds[refundId] == RequestRecord(input, r.value.result.status)
      && (forall id :: id in refunds ==> r.value.refunds[id] == refunds[id])
    ensures r.Some? ==>
      (r.value.alert.Some? <==> input.amountCents > limitCents as real && Present(slackChannel))
      && (r.value.alert.Some? ==> r.value.alert.value == ApprovalAlert(slackChannel.value, refundId, input, numberText))
  {
    if fault.Some? || refundId in refunds then None
    else
      var needsApproval := input.amountCents > limitCents as real;
      var status := if needsApproval then PendingApproval else Accepted;
      var stored := refunds[refundId := RequestRecord(input, status)];
      var alert := if needsApproval && Present(slackChannel)
                   then Some(ApprovalAlert(slackChannel.value, refundId, input, numberText)) else None;
      Some(Requested(RequestResult(true, status, refundId), stored, alert))
  }

  /** Every stored request record is either accepted or waiting for
      approval, and waits exactly when its amount exceeds the limit. */
  ghost predicate RequestsConsistent(refunds: Refunds.RefundStore, limitCents: int) {
    forall id :: id in refunds && refunds[id].paymentIntentId.Some? && refunds[id].amountCents.Some? ==>
      (refunds[id].status == PendingApproval <==> refunds[id].amountCents.value > limitCents as real)
      && (refunds[id].status == PendingApproval || refunds[id].status == Accepted)
  }

  /** `requestRefund` keeps every request record consistent with the limit,
      and never answers anything but `ok`. */
  lemma RequestKeepsConsistent(input: RefundRequest, limitCents: int, slackChannel: Option<string>, refundId: string,
                               numberText: real -> string, fault: Option<Failure>, refunds: Refunds.RefundStore)
    requires RequestsConsistent(refunds, limitCents)
    requires RequestRefund(input, limitCents, slackChannel, refundId, numberText, fault, refunds).Some?
    ensures var r := RequestRefund(input, limitCents, slackChannel, refundId, numberText, fault, refunds).value;
      RequestsConsistent(r.refunds, limitCents) && r.result.ok
  {
    var r := RequestRefund(input, limitCents, slackChannel, refundId, numberText, fault, refunds).value;
    forall id | id in r.refunds && r.refunds[id].paymentIntentId.Some? && r.refunds[id].amountCents.Some?
      ensures (r.refunds[id].status == PendingApproval <==> r.refunds[id].amountCents.value > limitCents as real)
              && (r.refunds[id].status == PendingApproval || r.refunds[id].status == Accepted)
    {
      if id != refundId {
        assert r.refunds[id] == refunds[id];
      }
    }
  }

  /** The audit event the controller logs after a request. */
  datatype PayAudit = PayAudit(action: string, correlationId: Option<string>, paymentIntentId: string, amountCents: real, status: string)

  /** The reply, the refunds afterwards, the alert, and the audit event. */
  datatype PayHandled = PayHandled(outcome: Outcome, refunds: Refunds.RefundStore,
                                   alert: Option<Messaging.SendRequest>, audit: Option<PayAudit>)

  /** The body the service result is serialised to. */
  function ResultJson(result: RequestResult): Json {
    JObj([("ok", JBool(result.ok)), ("status", JStr(result.status)), ("refund_id", JStr(result.refundId))])
  }

  /** `payment_intent_id` is a non-empty string. */
  predicate HasIntentId(body: Option<Json>) {
    var pi := BodyField(body, "payment_intent_id");
    pi.Some? && pi.value.JStr? && pi.value.s != ""
  }

  /** `Number(amount_cents)` is finite and positive. */
  predicate PositiveAmount(body: Option<Json>, toNumber: string -> Option<real>) {
    var amount := NumberOf(BodyField(body, "amount_cents"), toNumber);
    amount.Some? && amount.value > 0.0
  }

  /** `requestRefundController`. `toNumber` is `Number` on strings; a
      `fault` of the service propagates as it is, and an insert on a taken
      id as `insertError`. The service never reports `ok: false`, so the
      500 answer it would give is not reached. */
  function RequestRefundController(body: Option<Json>, correlationId: Option<string>, toNumber: string -> Option<real>,
                                   limitCents: int, slackChannel: Option<string>, refundId: string,
                                   numberText: real -> string, fault: Option<Failure>, insertError: Failure,
                                   refunds: Refunds.RefundStore): (r: PayHandled)
    ensures !HasIntentId(body) ==>
      r == PayHandled(Respond(ErrorReply(422, "payment_intent_id is required")), refunds, None, None)
    ensures HasIntentId(body) && !IsLikelyValidPaymentIntentId(BodyField(body, "payment_intent_id").value.s) ==>
      r == PayHandled(Respond(ErrorReply(422, "Invalid payment_intent_id")), refunds, None, None)
    ensures HasIntentId(body) && IsLikelyValidPaymentIntentId(BodyField(body, "payment_intent_id").value.s)
            && !PositiveAmount(body, toNumber) ==>
      r == PayHandled(Respond(ErrorReply(422, "amount_cents must be a positive number")), refunds, None, None)
    ensures r.refunds != refunds <==>
      HasIntentId(body) && IsLikelyValidPaymentIntentId(BodyField(body, "payment_intent_id").value.s)
      && PositiveAmount(body, toNumber) && fault.None? && refundId !in refunds
    ensures r.outcome.Respond? && r.outcome.reply.status != 422 ==>
      var amount := NumberOf(BodyField(body, "amount_cents"), toNumber).value;
      var pi := BodyField(body, "payment_intent_id").value.s;
      var status := if amount > limitCents as real then PendingApproval else Accepted;
      r.outcome.reply == JsonReply(if amount > limitCents as real then 202 else 200,
                                   ResultJson(RequestResult(true, status, refundId)))
      && r.audit == Some(PayAudit("refund_request", correlationId, pi, amount, status))
    ensures r.outcome.Fail? <==>
      HasIntentId(body) && IsLikelyValidPaymentIntentId(BodyField(body, "payment_intent_id").value.s)
      && PositiveAmount(body, toNumber) && (fault.Some? || refundId in refunds)
    ensures r.outcome.Fail? ==>
      r == PayHandled(Fail(if fault.Some? then fault.value else insertError), refunds, None, None)
  {
    var pi := BodyField(body, "payment_intent_id");
    if !HasIntentId(body) then PayHandled(Respond(ErrorReply(422, "payment_intent_id is required")), refunds, None, None)
    else if !IsLikelyValidPaymentIntentId(pi.value.s) then
      PayHandled(Respond(ErrorReply(422, "Invalid payment_intent_id")), refunds, None, None)
    else if !PositiveAmount(body, toNumber) then
      PayHandled(Respond(ErrorReply(422, "amount_cents must be a positive number")), refunds, None, None)
    else
      var amount := NumberOf(BodyField(body, "amount_cents"), toNumber).value;
      var requested := RequestRefund(RefundRequest(pi.value.s, amount, correlationId), limitCents, slackChannel,
                                     refundId, numberText, fault, refunds);
      if requested.None? then PayHandled(Fail(if fault.Some? then fault.value else insertError), refunds, None, None)
      else
        var result := requested.value.result;
        var code := if result.status == PendingApproval then 202 else 200;
        PayHandled(Respond(JsonReply(code, ResultJson(result))), requested.value.refunds, requested.value.alert,
                   Some(PayAudit("refund_request", correlationId, pi.value.s, amount, result.status)))
  }

  /** A well-formed request over the limit waits for approval (202) and
      one at or under it is accepted (200); either way the stored record
      carries the same status the reply reports. */
  lemma ApprovalMatchesReply(body: Option<Json>, correlationId: Option<string>, toNumber: string -> Option<real>,
                             limitCents: int, slackChannel: Option<string>, refundId: string,
                             numberText: real -> string, fault: Option<Failure>, insertError: Failure,
                             refunds: Refunds.RefundStore)
    requires HasIntentId(body) && IsLikelyValidPaymentIntentId(BodyField(body, "payment_intent_id").value.s)
    requires PositiveAmount(body, toNumber) && fault.None? && refundId !in refunds
    ensures var r := RequestRefundController(body, correlationId, toNumber, limitCents, slackChannel, refundId,
                                             numberText, fault, insertError, refunds);
      var amount := NumberOf(BodyField(body, "amount_cents"), toNumber).value;
      r.outcome.Respond?
      && (r.outcome.reply.status == 202 <==> amount > limitCents as real)
      && (r.outcome.reply.status == 200 <==> amount <= limitCents as real)
      && refundId in r.refunds
      && r.refunds[refundId].status == (if amount > limitCents as real then PendingApproval else Accepted)
  {
  }
}
