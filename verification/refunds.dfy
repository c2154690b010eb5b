/** Refunds by transaction: the request controller
    (`src/controllers/refundController.ts`), which checks the request and
    hands a job to the queue, and the executor worker
    (`src/workers/refundExecutor.ts`), which moves a refund record through
    processing to completed, marks the transaction refunded and writes one
    audit entry. No payment provider is called: the executor takes a fixed
    successful provider answer with a fresh `ref_` id. Uuid values are
    parameters. */
module Refunds {
  import opened Options
  import opened Json
  import opened Http
  import Queues

  /** A document of the `refunds` collection. Records are written by this
      worker and by the payment-intent refund service, so most fields are
      optional. */
  datatype RefundRecord = RefundRecord(
    status: string,
    transactionId: Option<string>,
    paymentIntentId: Option<string>,
    userId: Option<Json>,
    amountCents: Option<real>,
    reason: Option<Json>,
    metadata: Option<Json>,
    correlationId: Option<string>,
    rejectionReason: Option<string>,
    error: Option<string>,
    providerRefundId: Option<string>,
    providerStatus: Option<string>)

  /** The document an upsert starts from when no record matches. */
  const Blank: RefundRecord := RefundRecord("", None, None, None, None, None, None, None, None, None, None, None)

  /** The collection, keyed by its unique `refund_id`. */
  type RefundStore = map<string, RefundRecord>

  datatype Transaction = Transaction(userId: Option<Json>, refunded: bool, refundId: Option<string>, refundAmountCents: Option<int>)

  type Transactions = map<string, Transaction>

  datatype AuditEntry = AuditEntry(eventType: string, refundId: string, userId: Option<Json>, transactionId: string,
                                   amountCents: int, reason: Option<Json>, providerRefundId: string)

  /** The three collections the worker touches. */
  datatype Ledger = Ledger(refunds: RefundStore, transactions: Transactions, audit: seq<AuditEntry>)

  /** The record `updateOne(.., { upsert: true })` modifies. */
  function Existing(refunds: RefundStore, id: string): RefundRecord {
    if id in refunds then refunds[id] else Blank
  }

  /** `findOne({ transaction_id, status: 'completed' })` finds a record. */
  predicate AlreadyRefunded(refunds: RefundStore, transactionId: string) {
    exists id :: id in refunds && refunds[id].transactionId == Some(transactionId) && refunds[id].status == "completed"
  }

  datatype RefundJob = RefundJob(refundId: string, userId: Option<Json>, transactionId: string, amountCents: int,
                                 reason: Option<Json>, metadata: Option<Json>)

  datatype ExecResult = ExecResult(ok: bool, reason: Option<string>, providerRefundId: Option<string>)

  /** The job's value, or the message of the error it rethrows. */
  datatype Settled = Done(result: ExecResult) | Rethrown(message: Option<string>)

  datatype Executed = Executed(settled: Settled, ledger: Ledger)

  /** The store operations that can throw, in the order the worker reaches
      them. `FirstAccess` is the first one (the rejection upsert on the limit
      path, the transaction lookup otherwise). */
  datatype Step = FirstAccess | MarkProcessing | MarkCompleted | MarkTransaction | WriteAudit

  /** A store failure: where it happens, its message, and whether the
      best-effort "failed" update in the handler fails too. */
  datatype Crash = Crash(at: Step, message: Option<string>, recordFails: bool)

  predicate CrashesAt(crash: Option<Crash>, s: Step) {
    crash.Some? && crash.value.at == s
  }

  function Refused(reason: string): Settled {
    Done(ExecResult(false, Some(reason), None))
  }

  /** The `catch` block: the refund, if it exists, is marked failed with the
      error's message (not upserted), and the error is rethrown. */
  function Crashed(ledger: Ledger, refundId: string, c: Crash): (r: Executed)
    ensures r.settled == Rethrown(c.message)
    ensures r.ledger.transactions == ledger.transactions && r.ledger.audit == ledger.audit
    ensures r.ledger.refunds.Keys == ledger.refunds.Keys
    ensures refundId in ledger.refunds && !c.recordFails ==>
      r.ledger.refunds[refundId].status == "failed" && r.ledger.refunds[refundId].error == c.message
  {
    if refundId in ledger.refunds && !c.recordFails then
      Executed(Rethrown(c.message),
               ledger.(refunds := ledger.refunds[refundId := ledger.refunds[refundId].(status := "failed", error := c.message)]))
    else Executed(Rethrown(c.message), ledger)
  }

  /** The `$set` of the processing step. */
  function Processing(job: RefundJob, rec: RefundRecord): RefundRecord {
    rec.(status := "processing", userId := job.userId, transactionId := Some(job.transactionId),
         amountCents := Some(job.amountCents as real), reason := job.reason, metadata := job.metadata)
  }

  /** Everything `processRefundExecute` needs besides the job and the store. */
  datatype ExecEnv = ExecEnv(enableRefunds: bool, limitCents: int, providerUuid: string, crash: Option<Crash>)

  /** The id the placeholder provider call returns. */
  function ProviderRefundId(env: ExecEnv): string {
    "ref_" + env.providerUuid
  }

  /** Whether a job runs to the end: refunds on, within the limit, a known
      transaction without a completed refund, and no store failure. */
  predicate Succeeds(env: ExecEnv, job: RefundJob, ledger: Ledger) {
    env.enableRefunds && job.amountCents <= env.limitCents && env.crash.None?
    && job.transactionId in ledger.transactions && !AlreadyRefunded(ledger.refunds, job.transactionId)
  }

  /** `processRefundExecute`. */
  function ProcessRefundExecute(env: ExecEnv, job: RefundJob, ledger: Ledger): (r: Executed)
    ensures !env.enableRefunds ==> r == Executed(Refused("refunds_disabled"), ledger)
    ensures env.enableRefunds && job.amountCents > env.limitCents && env.crash.None? ==>
      r.settled == Refused("amount_exceeds_limit")
      && r.ledger == ledger.(refunds := ledger.refunds[job.refundId := Existing(ledger.refunds, job.refundId).(
                                          status := "rejected", rejectionReason := Some("amount_exceeds_limit"))])
    ensures r.settled.Done? && r.settled.result.ok <==> Succeeds(env, job, ledger)
    ensures Succeeds(env, job, ledger) ==>
      r.ledger.refunds.Keys == ledger.refunds.Keys + {job.refundId}
      && r.ledger.transactions.Keys == ledger.transactions.Keys
    ensures Succeeds(env, job, ledger) ==>
      var rec := r.ledger.refunds[job.refundId];
      var t := r.ledger.transactions[job.transactionId];
      r.settled.result.providerRefundId == Some(ProviderRefundId(env))
      && rec.status == "completed" && rec.transactionId == Some(job.transactionId)
      && rec.providerRefundId == Some(ProviderRefundId(env)) && rec.providerStatus == Some("succeeded")
      && t.refunded && t.refundId == Some(job.refundId) && t.refundAmountCents == Some(job.amountCents)
      && r.ledger.audit == ledger.audit + [AuditEntry("refund_executed", job.refundId, job.userId, job.transactionId,
                                                      job.amountCents, job.reason, ProviderRefundId(env))]
    ensures r.settled.Rethrown? ==> env.crash.Some? && r.settled == Rethrown(env.crash.value.message) && |r.ledger.audit| == |ledger.audit|
  {
    var id := job.refundId;
    var tid := job.transactionId;
    if !env.enableRefunds then Executed(Refused("refunds_disabled"), ledger)
    else if job.amountCents > env.limitCents then
      if CrashesAt(env.crash, FirstAccess) then Crashed(ledger, id, env.crash.value)
      else
        var rejected := Existing(ledger.refunds, id).(status := "rejected", rejectionReason := Some("amount_exceeds_limit"));
        Executed(Refused("amount_exceeds_limit"), ledger.(refunds := ledger.refunds[id := rejected]))
    else if CrashesAt(env.crash, FirstAccess) then Crashed(ledger, id, env.crash.value)
    else if tid !in ledger.transactions then
      var failed := Existing(ledger.refunds, id).(status := "failed", error := Some("transaction_not_found"));
      Executed(Refused("transaction_not_found"), ledger.(refunds := ledger.refunds[id := failed]))
    else if AlreadyRefunded(ledger.refunds, tid) then Executed(Refused("already_refunded"), ledger)
    else if CrashesAt(env.crash, MarkProcessing) then Crashed(ledger, id, env.crash.value)
    else
      var providerId := ProviderRefundId(env);
      var l1 := ledger.(refunds := ledger.refunds[id := Processing(job, Existing(ledger.refunds, id))]);
      if CrashesAt(env.crash, MarkCompleted) then Crashed(l1, id, env.crash.value)
      else
        var completed := l1.refunds[id].(status := "completed", providerRefundId := Some(providerId),
                                         providerStatus := Some("succeeded"));
        var l2 := l1.(refunds := l1.refunds[id := completed]);
        if CrashesAt(env.crash, MarkTransaction) then Crashed(l2, id, env.crash.value)
        else
          var t := l2.transactions[tid].(refunded := true, refundId := Some(id), refundAmountCents := Some(job.amountCents));
          var l3 := l2.(transactions := l2.transactions[tid := t]);
          if CrashesAt(env.crash, WriteAudit) then Crashed(l3, id, env.crash.value)
          else
            var entry := AuditEntry("refund_executed", id, job.userId, tid, job.amountCents, job.reason, providerId);
            Executed(Done(ExecResult(true, None, Some(providerId))), l3.(audit := l3.audit + [entry]))
  }

  /** The limit is checked before the transaction is looked up: an amount
      over the limit is rejected whatever the transactions hold, and an
      amount equal to the limit is not rejected. */
  lemma LimitCheckedFirst(env: ExecEnv, job: RefundJob, ledger: Ledger, other: Transactions)
    requires env.enableRefunds && env.crash.None?
    ensures job.amountCents > env.limitCents ==>
      ProcessRefundExecute(env, job, ledger).settled == ProcessRefundExecute(env, job, ledger.(transactions := other)).settled
      == Refused("amount_exceeds_limit")
    ensures job.amountCents == env.limitCents ==>
      ProcessRefundExecute(env, job, ledger).settled != Refused("amount_exceeds_limit")
  {
  }

  /** Once a refund of a transaction has completed, no later job refunds
      the same transaction again. */
  lemma NoDoubleRefund(env: ExecEnv, job: RefundJob, ledger: Ledger, env2: ExecEnv, job2: RefundJob)
    requires Succeeds(env, job, ledger)
    requires job2.transactionId == job.transactionId
    ensures var after := ProcessRefundExecute(env, job, ledger).ledger;
      !Succeeds(env2, job2, after)
      && (env2.enableRefunds && job2.amountCents <= env2.limitCents && env2.crash.None? ==>
            ProcessRefundExecute(env2, job2, after) == Executed(Refused("already_refunded"), after))
  {
    var after := ProcessRefundExecute(env, job, ledger).ledger;
    assert after.refunds[job.refundId].transactionId == Some(job.transactionId);
  }

  /** A store failure once the refund is marked processing leaves it
      marked failed with the error's message (unless that update fails
      too), and the error is rethrown. */
  lemma FailureAfterProcessingMarksFailed(env: ExecEnv, job: RefundJob, ledger: Ledger)
    requires env.enableRefunds && job.amountCents <= env.limitCents
    requires job.transactionId in ledger.transactions && !AlreadyRefunded(ledger.refunds, job.transactionId)
    requires env.crash.Some? && env.crash.value.at != FirstAccess && env.crash.value.at != MarkProcessing
    requires !env.crash.value.recordFails
    ensures var r := ProcessRefundExecute(env, job, ledger);
      r.settled == Rethrown(env.crash.value.message)
      && r.ledger.refunds[job.refundId].status == "failed"
      && r.ledger.refunds[job.refundId].error == env.crash.value.message
  {
  }

  datatype Created = Created(reply: Reply, job: Option<RefundJob>)

  /** `status: { $in: ['processing', 'completed'] }` finds a record. */
  predicate RefundUnderway(refunds: RefundStore, transactionId: string) {
    exists id :: id in refunds && refunds[id].transactionId == Some(transactionId)
                 && (refunds[id].status == "processing" || refunds[id].status == "completed")
  }

  /** Optional members of a reply object: `undefined` ones are dropped. */
  function OptField(k: string, v: Option<string>): seq<(string, Json)> {
    if v.Some? then [(k, JStr(v.value))] else []
  }

  const MissingFields := "transaction_id and amount_cents are required"
  const NotPositive := "amount_cents must be a positive number"

  /** The requested amount, when it is a positive number. */
  function PositiveAmount(amount: Option<Json>): (r: Option<int>)
    ensures r.Some? ==> r.value > 0
  {
    match amount
    case Some(JNum(n)) => if n > 0 then Some(n) else None
    case _ => None
  }

  /** The transaction to refund, when it is named by a non-empty string. */
  function TransactionRef(tid: Option<Json>): (r: Option<string>)
    ensures r.Some? ==> r.value != ""
  {
    match tid
    case Some(JStr(t)) => if t != "" then Some(t) else None
    case _ => None
  }

  /** `createRefundController`. `dbFails` stands for `getDb` or a lookup
      throwing; `enqueue` answers for the job built here. A non-string
      `transaction_id` is taken to match no transaction; Mongo would read
      an object such as `{"$ne": null}` as a query operator instead. */
  function CreateRefundController(body: Option<Json>, dbFails: bool, transactions: Transactions, refunds: RefundStore,
                                  refundId: string, enqueue: RefundJob -> Queues.EnqueueAnswer): (r: Created)
    ensures var tid := BodyField(body, "transaction_id");
      var amount := BodyField(body, "amount_cents");
      (!Truthy(tid) || !Truthy(amount) ==> r == Created(ErrorReply(400, MissingFields), None))
      && (Truthy(tid) && Truthy(amount) && !amount.value.JNum? ==>
            r == Created(ErrorReply(400, NotPositive), None))
    ensures var tid := TransactionRef(BodyField(body, "transaction_id"));
      var amount := PositiveAmount(BodyField(body, "amount_cents"));
      (r.job.Some? <==>
         !dbFails && amount.Some? && tid.Some? && tid.value in transactions && !RefundUnderway(refunds, tid.value))
      && (r.job.Some? ==>
            var job := r.job.value;
            job.refundId == refundId && job.transactionId == tid.value
            && job.userId == transactions[job.transactionId].userId && job.amountCents == amount.value
            && (enqueue(job).ok ==>
                  r.reply == JsonReply(202, JObj([("ok", JBool(true)), ("refund_id", JStr(refundId)), ("status", JStr("queued"))]
                                                 + OptField("job_id", if enqueue(job).queued then enqueue(job).id else None))))
            && (!enqueue(job).ok ==> r.reply.status == 500))
      && (r.reply.status == 409 <==>
            !dbFails && amount.Some? && tid.Some? && tid.value in transactions && RefundUnderway(refunds, tid.value))
  {
    CreateRefund(BodyField(body, "transaction_id"), BodyField(body, "amount_cents"), BodyField(body, "reason"),
                 BodyField(body, "metadata"), dbFails, transactions, refunds, refundId, enqueue)
  }

  /** The controller over the body's four fields. */
  function CreateRefund(tid: Option<Json>, amount: Option<Json>, reason: Option<Json>, metadata: Option<Json>, dbFails: bool,
                        transactions: Transactions, refunds: RefundStore, refundId: string,
                        enqueue: RefundJob -> Queues.EnqueueAnswer): (r: Created)
    ensures !Truthy(tid) || !Truthy(amount) ==> r == Created(ErrorReply(400, MissingFields), None)
    ensures Truthy(tid) && Truthy(amount) && !amount.value.JNum? ==>
      r == Created(ErrorReply(400, NotPositive), None)
    ensures r.job.Some? <==>
      !dbFails && PositiveAmount(amount).Some? && TransactionRef(tid).Some?
      && TransactionRef(tid).value in transactions && !RefundUnderway(refunds, TransactionRef(tid).value)
    ensures r.reply.status == 409 <==>
      !dbFails && PositiveAmount(amount).Some? && TransactionRef(tid).Some?
      && TransactionRef(tid).value in transactions && RefundUnderway(refunds, TransactionRef(tid).value)
    ensures r.job.Some? ==>
      r == QueueRefund(RefundJob(refundId, transactions[TransactionRef(tid).value].userId, TransactionRef(tid).value,
                                 PositiveAmount(amount).value, reason, metadata), enqueue)
  {
    if !Truthy(tid) || !Truthy(amount) then Created(ErrorReply(400, MissingFields), None)
    else if !amount.value.JNum? || amount.value.n <= 0 then Created(ErrorReply(400, NotPositive), None)
    else AdmitRefund(tid.value, amount.value.n, reason, metadata, dbFails, transactions, refunds, refundId, enqueue)
  }

  /** The controller once the body has passed validation: look up the
      transaction, refuse a second refund, and queue the job. */
  function AdmitRefund(tid: Json, amountCents: int, reason: Option<Json>, metadata: Option<Json>, dbFails: bool,
                       transactions: Transactions, refunds: RefundStore, refundId: string,
                       enqueue: RefundJob -> Queues.EnqueueAnswer): (r: Created)
    ensures r.job.Some? <==> !dbFails && tid.JStr? && tid.s in transactions && !RefundUnderway(refunds, tid.s)
    ensures r.reply.status == 409 <==> !dbFails && tid.JStr? && tid.s in transactions && RefundUnderway(refunds, tid.s)
    ensures r.job.Some? ==>
      r == QueueRefund(RefundJob(refundId, transactions[tid.s].userId, tid.s, amountCents, reason, metadata), enqueue)
  {
    if dbFails then Created(ErrorReply(500, "Internal server error"), None)
    else if !tid.JStr? || tid.s !in transactions then Created(ErrorReply(404, "Transaction not found"), None)
    else if RefundUnderway(refunds, tid.s) then
      Created(ErrorReply(409, "Transaction already has a pending or completed refund"), None)
    else
      var job := RefundJob(refundId, transactions[tid.s].userId, tid.s, amountCents, reason, metadata);
      QueueRefund(job, enqueue)
  }

  /** The answer once the refund job is built: `202 queued` when the
      enqueue went through, `500` when it did not. */
  function QueueRefund(job: RefundJob, enqueue: RefundJob -> Queues.EnqueueAnswer): (r: Created)
    ensures r.job == Some(job)
    ensures enqueue(job).ok ==>
      r.reply == JsonReply(202, JObj([("ok", JBool(true)), ("refund_id", JStr(job.refundId)), ("status", JStr("queued"))]
                                     + OptField("job_id", if enqueue(job).queued then enqueue(job).id else None)))
    ensures !enqueue(job).ok ==> r.reply.status == 500
  {
    var e := enqueue(job);
    if e.ok then
      Created(JsonReply(202, JObj([("ok", JBool(true)), ("refund_id", JStr(job.refundId)), ("status", JStr("queued"))]
                                  + OptField("job_id", if e.queued then e.id else None))), Some(job))
    else
      Created(JsonReply(500, JObj([("error", JObj([("message", JStr("Failed to queue refund"))] + OptField("reason", e.reason)))])),
              Some(job))
  }

  /** The `enqueue` the controller imports is the placeholder that never
      queues: every accepted request is answered 202 without a job id. */
  function PlaceholderEnqueue(redisUrl: Option<string>, enableWorkers: bool): RefundJob -> Queues.EnqueueAnswer {
    job =>
      var e := Queues.Enqueue(redisUrl, enableWorkers, "refund_execute", JNull);
      Queues.EnqueueAnswer(e.ok, e.queued, None, Some(e.reason))
  }

  lemma PlaceholderAlwaysAccepted(body: Option<Json>, transactions: Transactions, refunds: RefundStore,
                                  refundId: string, redisUrl: Option<string>, enableWorkers: bool)
    ensures var r := CreateRefundController(body, false, transactions, refunds, refundId, PlaceholderEnqueue(redisUrl, enableWorkers));
      r.job.Some? ==>
        r.reply == JsonReply(202, JObj([("ok", JBool(true)), ("refund_id", JStr(refundId)), ("status", JStr("queued"))]))
  {
    var enqueue := PlaceholderEnqueue(redisUrl, enableWorkers);
    var r := CreateRefundController(body, false, transactions, refunds, refundId, enqueue);
    if r.job.Some? {
      var e := enqueue(r.job.value);
      assert e.ok && !e.queued;
      var head := [("ok", JBool(true)), ("refund_id", JStr(refundId)), ("status", JStr("queued"))];
      assert head + OptField("job_id", if e.queued then e.id else None) == head;
    }
  }

  /** `getRefundStatusController`: `found` is what the lookup by
      `refund_id` returned, as a document. The reply carries the document
      without its `_id`. */
  function GetRefundStatusController(id: string, dbFails: bool, found: Option<seq<(string, Json)>>): (r: Reply)
    ensures id == "" ==> r == ErrorReply(400, "refund id is required")
    ensures id != "" && !dbFails && found.None? ==> r == ErrorReply(404, "Refund not found")
    ensures r.status == 200 <==> id != "" && !dbFails && found.Some?
    ensures r.status == 200 ==>
      r.body.JsonBody? && r.body.json.JObj? && |r.body.json.fields| == 1 && r.body.json.fields[0].0 == "refund"
      && var doc := r.body.json.fields[0].1;
         doc.JObj? && Lookup(doc.fields, "_id").None?
         && forall k :: k != "_id" ==> Lookup(doc.fields, k) == Lookup(found.value, k)
  {
    if id == "" then ErrorReply(400, "refund id is required")
    else if dbFails then ErrorReply(500, "Internal server error")
    else if found.None? then ErrorReply(404, "Refund not found")
    else
      var safe := Remove(found.value, "_id");
      assert forall k :: Lookup(safe, k) == if k == "_id" then None else Lookup(found.value, k) by {
        forall k ensures Lookup(safe, k) == if k == "_id" then None else Lookup(found.value, k) {
          LookupRemove(found.value, "_id", k);
        }
      }
      JsonReply(200, JObj([("refund", JObj(safe))]))
  }
}
