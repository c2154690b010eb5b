/** The flow endpoints of `src/controllers/flowController.ts`: starting a
    flow hands a `flow_execute` job to the queue; the status endpoint
    reads the execution record back. The flow id (built from the clock
    and `Math.random`) is a parameter. */
module Flows {
  import opened Options
  import opened Json
  import opened Http
  import opened Docs
  import Queues

  /** The job data of `flow_execute`. */
  datatype FlowJob = FlowJob(flowId: string, flowName: Json, steps: seq<Json>, context: Json, userId: Option<Json>)

  datatype Started = Started(reply: Reply, job: Option<FlowJob>)

  /** `flow_name` is truthy and `steps` is an array. */
  predicate ValidFlowRequest(body: Option<Json>) {
    Truthy(BodyField(body, "flow_name")) && BodyField(body, "steps").Some? && BodyField(body, "steps").value.JArr?
  }

  /** The reply to a job the queue took: `job_id` only when it was queued. */
  function AcceptedBody(flowId: string, e: Queues.EnqueueAnswer): Json {
    JObj([("ok", JBool(true)), ("flow_id", JStr(flowId))]
         + Defined("job_id", if e.queued && e.id.Some? then Some(JStr(e.id.value)) else None)
         + [("queued", JBool(e.queued))])
  }

  /** `executeFlowController`. */
  function ExecuteFlowController(body: Option<Json>, flowId: string, enqueue: FlowJob -> Queues.EnqueueAnswer): (r: Started)
    ensures !ValidFlowRequest(body) <==> r.reply == ErrorReply(400, "flow_name and steps (array) are required")
    ensures r.job.Some? <==> ValidFlowRequest(body)
    ensures r.job.Some? ==>
      var job := r.job.value;
      job.flowId == flowId
      && Some(job.flowName) == BodyField(body, "flow_name")
      && Some(JArr(job.steps)) == BodyField(body, "steps")
      && job.userId == BodyField(body, "user_id")
      && (Truthy(BodyField(body, "context")) ==> Some(job.context) == BodyField(body, "context"))
      && (!Truthy(BodyField(body, "context")) ==> job.context == JObj([]))
      && (enqueue(job).ok ==> r.reply == JsonReply(200, AcceptedBody(flowId, enqueue(job))))
      && (!enqueue(job).ok ==> r.reply.status == 500)
  {
    if !ValidFlowRequest(body) then Started(ErrorReply(400, "flow_name and steps (array) are required"), None)
    else
      var job := FlowJob(flowId, BodyField(body, "flow_name").value, BodyField(body, "steps").value.items,
                         Or(BodyField(body, "context"), Some(JObj([]))).value, BodyField(body, "user_id"));
      var e := enqueue(job);
      if e.ok then Started(JsonReply(200, AcceptedBody(flowId, e)), Some(job))
      else
        var reason := if e.reason.Some? then Some(JStr(e.reason.value)) else None;
        Started(JsonReply(500, JObj([("error", JObj([("message", JStr("Failed to enqueue flow"))] + Defined("reason", reason)))])),
                Some(job))
  }

  /** The `enqueue` the controller imports is the placeholder of
      `src/queue/index.ts`, which never queues. */
  function PlaceholderEnqueue(redisUrl: Option<string>, enableWorkers: bool): FlowJob -> Queues.EnqueueAnswer {
    job =>
      var e := Queues.Enqueue(redisUrl, enableWorkers, "flow_execute", JNull);
      Queues.EnqueueAnswer(e.ok, e.queued, None, Some(e.reason))
  }

  /** With the placeholder queue every valid request is answered 200 with
      `queued: false` and no job id. */
  lemma PlaceholderFlowAccepted(body: Option<Json>, flowId: string, redisUrl: Option<string>, enableWorkers: bool)
    requires ValidFlowRequest(body)
    ensures ExecuteFlowController(body, flowId, PlaceholderEnqueue(redisUrl, enableWorkers)).reply
         == JsonReply(200, JObj([("ok", JBool(true)), ("flow_id", JStr(flowId)), ("queued", JBool(false))]))
  {
    var enqueue := PlaceholderEnqueue(redisUrl, enableWorkers);
    var r := ExecuteFlowController(body, flowId, enqueue);
    var e := enqueue(r.job.value);
    assert e.ok && !e.queued;
    assert r.reply == JsonReply(200, AcceptedBody(flowId, e));
    assert Defined("job_id", None) == [];
    assert [("ok", JBool(true)), ("flow_id", JStr(flowId))] + [] + [("queued", JBool(false))]
        == [("ok", JBool(true)), ("flow_id", JStr(flowId)), ("queued", JBool(false))];
  }

  /** The execution fields the status endpoint shows. */
  const StatusKeys: seq<string> := ["flow_id", "flow_name", "status", "started_at", "completed_at", "failed_at", "error", "results"]

  /** `getFlowStatusController`; `dbFails` stands for `getDb` or the lookup
      throwing. */
  function GetFlowStatusController(id: string, dbFails: bool, executions: seq<Doc>): (r: Reply)
    ensures id == "" <==> r == ErrorReply(400, "flow id is required")
    ensures id != "" && dbFails ==> r == ErrorReply(500, "Internal server error")
    ensures id != "" && !dbFails ==>
      (r == ErrorReply(404, "Flow not found") <==> !exists i :: 0 <= i < |executions| && Matches(executions[i], [("flow_id", JStr(id))]))
    ensures r.status == 200 ==>
      var exec := FindOne(executions, [("flow_id", JStr(id))]).value;
      r.body.JsonBody? && r.body.json.JObj?
      && forall k :: Lookup(r.body.json.fields, k) == if k in StatusKeys then Lookup(exec, k) else None
  {
    if id == "" then ErrorReply(400, "flow id is required")
    else if dbFails then ErrorReply(500, "Internal server error")
    else
      var found := FindOne(executions, [("flow_id", JStr(id))]);
      if found.None? then ErrorReply(404, "Flow not found")
      else JsonReply(200, JObj(Project(found.value, StatusKeys)))
  }

  /** A found execution is answered with its projection. */
  lemma StatusIsProjection(id: string, executions: seq<Doc>)
    requires GetFlowStatusController(id, false, executions).status == 200
    ensures FindOne(executions, [("flow_id", JStr(id))]).Some?
    ensures GetFlowStatusController(id, false, executions)
         == JsonReply(200, JObj(Project(FindOne(executions, [("flow_id", JStr(id))]).value, StatusKeys)))
  {
  }

  /** None of the context, the user or the execution id is a status
      field. */
  lemma HiddenKeys()
    ensures "context" !in StatusKeys && "user_id" !in StatusKeys && "execution_id" !in StatusKeys
  {
  }

  /** The status endpoint never shows the execution's context or user:
      only the fixed projection leaves the store. */
  lemma StatusHidesContext(id: string, executions: seq<Doc>)
    requires GetFlowStatusController(id, false, executions).status == 200
    ensures var body := GetFlowStatusController(id, false, executions).body.json.fields;
      Lookup(body, "context").None? && Lookup(body, "user_id").None? && Lookup(body, "execution_id").None?
  {
    StatusIsProjection(id, executions);
    HiddenKeys();
  }
}
