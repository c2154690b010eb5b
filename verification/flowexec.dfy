/** The flow executor worker (`src/workers/flowExecutor.ts`): an execution
    record is inserted, the steps run in order against a shared context,
    and the record ends `completed` or `failed`. `{{word}}` placeholders in
    step configurations are filled from the context. The `http`, `db` and
    `delay` steps reach the network, the store and the clock, so they are
    one parameter `external`; the `condition` step and unknown step types
    are modelled. */
module FlowExec {
  import opened Options
  import opened Text
  import opened Json
  import opened Docs

  /* ---------------------------------------------------------------- */
  /* `replaceVariables`                                                */
  /* ---------------------------------------------------------------- */

  predicate IsWord(w: string) {
    forall i :: 0 <= i < |w| ==> IsWordChar(w[i])
  }

  /** The longest prefix of word characters. */
  function WordRun(s: string): (w: string)
    ensures w <= s && IsWord(w)
    ensures |w| < |s| ==> !IsWordChar(s[|w|])
  {
    if |s| > 0 && IsWordChar(s[0]) then [s[0]] + WordRun(s[1..]) else []
  }

  /** The word of the placeholder `{{word}}` that `s` starts with, if it
      starts with one. `\w+` is greedy and `}` is not a word character,
      so the word is the whole run of word characters after `{{`. */
  function PlaceholderAt(s: string): (key: Option<string>)
    ensures key.Some? ==> |key.value| > 0 && IsWord(key.value) && |s| >= |key.value| + 4
                          && s[..|key.value| + 4] == "{{" + key.value + "}}"
  {
    if |s| >= 2 && s[0] == '{' && s[1] == '{' then
      var w := WordRun(s[2..]);
      if |w| > 0 && |s| >= |w| + 4 && s[|w| + 2] == '}' && s[|w| + 3] == '}' then
        assert s[..|w| + 4] == "{{" + w + "}}" by {
          assert s[2..][..|w|] == w;
          forall i | 0 <= i < |w| + 4 ensures s[..|w| + 4][i] == ("{{" + w + "}}")[i] {
            if 2 <= i < |w| + 2 { assert s[i] == s[2..][i - 2]; }
          }
        }
        Some(w)
      else None
    else None
  }

  /** `context[key] || ''`, as the replacement text. */
  function ValueText(ctx: Doc, key: string): string {
    var v := Lookup(ctx, key);
    if Truthy(v) then ToStr(v.value) else ""
  }

  /** `s.replace(/\{\{(\w+)\}\}/g, ...)`: the text is scanned from the
      left; a placeholder is replaced and scanning resumes after it. */
  function Subst(s: string, ctx: Doc): (r: string)
    ensures '{' !in s ==> r == s
    decreases |s|
  {
    if |s| == 0 then ""
    else match PlaceholderAt(s)
      case Some(key) => ValueText(ctx, key) + Subst(s[|key| + 4..], ctx)
      case None => [s[0]] + Subst(s[1..], ctx)
  }

  /** A run of word characters followed by `}` stops before it. */
  lemma {:induction false} WordRunBefore(w: string, rest: string)
    requires IsWord(w) && |rest| > 0 && rest[0] == '}'
    ensures WordRun(w + rest) == w
    decreases |w|
  {
    var s := w + rest;
    if |w| == 0 {
      assert s == rest;
      assert !IsWordChar(s[0]);
    } else {
      assert s[0] == w[0] && IsWordChar(w[0]);
      assert s[1..] == w[1..] + rest;
      WordRunBefore(w[1..], rest);
      assert WordRun(s) == [w[0]] + WordRun(s[1..]);
      assert [w[0]] + w[1..] == w;
    }
  }

  /** A placeholder is replaced by the text of its context value. */
  lemma SubstPlaceholder(w: string, rest: string, ctx: Doc)
    requires |w| > 0 && IsWord(w)
    ensures Subst("{{" + w + "}}" + rest, ctx) == ValueText(ctx, w) + Subst(rest, ctx)
  {
    var s := "{{" + w + "}}" + rest;
    assert s[2..] == w + ("}}" + rest);
    WordRunBefore(w, "}}" + rest);
    assert s[|w| + 2] == '}' && s[|w| + 3] == '}';
    assert PlaceholderAt(s) == Some(w);
    assert s[|w| + 4..] == rest;
  }

  /** Text without `{` passes through unchanged, and what follows it is
      substituted on its own. */
  lemma {:induction false} SubstPlainPrefix(a: string, b: string, ctx: Doc)
    requires '{' !in a
    ensures Subst(a + b, ctx) == a + Subst(b, ctx)
    decreases |a|
  {
    if |a| > 0 {
      var s := a + b;
      assert s[0] == a[0] && s[0] != '{';
      assert PlaceholderAt(s).None?;
      assert Subst(s, ctx) == [s[0]] + Subst(s[1..], ctx);
      assert s[1..] == a[1..] + b;
      SubstPlainPrefix(a[1..], b, ctx);
      assert [a[0]] + a[1..] == a;
    } else {
      assert a + b == b;
    }
  }

  /** No string inside the value contains `{`. */
  predicate NoBraces(v: Json)
    decreases v
  {
    match v
    case JStr(s) => '{' !in s
    case JArr(items) => forall i :: 0 <= i < |items| ==> NoBraces(items[i])
    case JObj(fs) => forall i :: 0 <= i < |fs| ==> NoBraces(fs[i].1)
    case _ => true
  }

  /** `replaceVariables`: strings are substituted, arrays and objects are
      rebuilt element by element under the same keys, anything else is
      returned as it is. */
  function Replace(v: Json, ctx: Doc): (r: Json)
    decreases v
    ensures v.JStr? <==> r.JStr?
    ensures v.JArr? ==> r.JArr? && |r.items| == |v.items|
    ensures v.JObj? ==> r.JObj? && |r.fields| == |v.fields|
                        && forall i :: 0 <= i < |v.fields| ==> r.fields[i].0 == v.fields[i].0
    ensures !v.JStr? && !v.JArr? && !v.JObj? ==> r == v
  {
    match v
    case JStr(s) => JStr(Subst(s, ctx))
    case JArr(items) => JArr(seq(|items|, i requires 0 <= i < |items| => Replace(items[i], ctx)))
    case JObj(fs) => JObj(seq(|fs|, i requires 0 <= i < |fs| => (fs[i].0, Replace(fs[i].1, ctx))))
    case _ => v
  }

  /** A value without any `{` comes back unchanged. */
  lemma {:induction false} ReplaceWithoutBraces(v: Json, ctx: Doc)
    requires NoBraces(v)
    ensures Replace(v, ctx) == v
    decreases v
  {
    match v
    case JStr(s) =>
      SubstPlainPrefix(s, "", ctx);
      assert s + "" == s;
    case JArr(items) =>
      forall i | 0 <= i < |items| ensures Replace(items[i], ctx) == items[i] {
        ReplaceWithoutBraces(items[i], ctx);
      }
      assert Replace(v, ctx).items == items;
    case JObj(fs) =>
      forall i | 0 <= i < |fs| ensures Replace(fs[i].1, ctx) == fs[i].1 {
        ReplaceWithoutBraces(fs[i].1, ctx);
      }
      assert Replace(v, ctx).fields == fs;
    case _ =>
  }

  /* ---------------------------------------------------------------- */
  /* Conditions                                                        */
  /* ---------------------------------------------------------------- */

  /** `evaluateCondition`: the truthiness of `context[condition]`, the
      condition read as a property name. Placeholders in it are
      substituted, but the result is not used. */
  function EvaluateCondition(condition: Option<Json>, ctx: Doc): (met: bool)
    ensures condition.Some? && condition.value.JStr? ==> (met <==> Truthy(Lookup(ctx, condition.value.s)))
    ensures condition.None? ==> (met <==> Truthy(Lookup(ctx, "undefined")))
  {
    Truthy(Lookup(ctx, OptToStr(condition)))
  }

  /** The condition's text is the property name as it stands: its
      placeholders are substituted but the substitution is not used, so
      `{{w}}` asks for a property literally named `{{w}}`. */
  lemma ConditionNotSubstituted(w: string, ctx: Doc)
    requires |w| > 0 && IsWord(w) && Truthy(Lookup(ctx, w)) && Lookup(ctx, "{{" + w + "}}").None?
    ensures !EvaluateCondition(Some(JStr("{{" + w + "}}")), ctx)
    ensures Subst("{{" + w + "}}", ctx) == ToStr(Lookup(ctx, w).value)
  {
    SubstPlaceholder(w, "", ctx);
    assert "{{" + w + "}}" + "" == "{{" + w + "}}";
    assert Subst("", ctx) == "";
  }

  /** `executeConditionStep`: whether the condition was met, and the path
      taken (left out when the chosen path is undefined). */
  function ConditionStep(config: Json, ctx: Doc): (r: Json)
    ensures var met := EvaluateCondition(Get(config, "condition"), ctx);
      r.JObj?
      && Lookup(r.fields, "condition_met") == Some(JBool(met))
      && Lookup(r.fields, "path_taken") == (if met then Get(config, "true_path") else Get(config, "false_path"))
  {
    var met := EvaluateCondition(Get(config, "condition"), ctx);
    var path := if met then Get(config, "true_path") else Get(config, "false_path");
    LookupCons(("condition_met", JBool(met)), Defined("path_taken", path), "condition_met");
    LookupCons(("condition_met", JBool(met)), Defined("path_taken", path), "path_taken");
    JObj([("condition_met", JBool(met))] + Defined("path_taken", path))
  }

  /** The same result as the database driver writes it: an undefined
      `path_taken` becomes `null`. */
  function StoredCondition(config: Json, ctx: Doc): (r: Json)
    ensures var c := ConditionStep(config, ctx);
      r == if Lookup(c.fields, "path_taken").Some? then c else JObj(c.fields + [("path_taken", JNull)])
  {
    var met := EvaluateCondition(Get(config, "condition"), ctx);
    var path := if met then Get(config, "true_path") else Get(config, "false_path");
    JObj([("condition_met", JBool(met)), ("path_taken", Stored(path))])
  }

  /* ---------------------------------------------------------------- */
  /* Steps                                                             */
  /* ---------------------------------------------------------------- */

  /** A step's outcome: its result (as the worker holds it, and as the
      database driver writes it, with undefined members as `null`), or the
      message of what it threw. */
  datatype StepResult = StepOk(value: Json, stored: Json) | StepErr(message: Option<string>)

  /** The message of the `TypeError` a property read on `null` or
      `undefined` throws; its exact text is the engine's. */
  const TypeErrorMessage: string := "Cannot read properties of null"

  /** The kinds of step the worker hands to the outside world. */
  predicate IsExternalKind(kind: Option<Json>) {
    kind == Some(JStr("http")) || kind == Some(JStr("db")) || kind == Some(JStr("delay"))
  }

  /** One step, by its `type`. An unknown type is a step failure. A
      condition step with a `null` or missing `config` throws on
      destructuring it. */
  function ExecuteStep(step: Json, ctx: Doc, external: (string, Json, Doc) -> StepResult): (r: StepResult)
    ensures IsExternalKind(Get(step, "type")) ==> r == external(Get(step, "type").value.s, step, ctx)
    ensures !IsExternalKind(Get(step, "type")) && Get(step, "type") != Some(JStr("condition")) ==>
      r == StepErr(Some("Unknown step type: " + OptToStr(Get(step, "type"))))
  {
    var kind := Get(step, "type");
    if IsExternalKind(kind) then external(kind.value.s, step, ctx)
    else if kind == Some(JStr("condition")) then
      var config := Get(step, "config");
      if config.None? || config.value == JNull then StepErr(Some(TypeErrorMessage))
      else StepOk(ConditionStep(config.value, ctx), StoredCondition(config.value, ctx))
    else StepErr(Some("Unknown step type: " + OptToStr(kind)))
  }

  /** `step.on_error || 'stop'` is `'stop'`: a failure ends the flow. Any
      other value, `'continue'` and `'retry'` alike, goes on to the next
      step. */
  predicate Stops(step: Json) {
    var onError := Get(step, "on_error");
    !Truthy(onError) || onError == Some(JStr("stop"))
  }

  /** The context key a step's result is stored under: `step_${step_id}`. */
  function StepKey(step: Json): string {
    "step_" + OptToStr(Get(step, "step_id"))
  }

  /** One entry of `results`. */
  datatype StepRecord = StepRecord(stepId: Option<Json>, name: Option<Json>, succeeded: bool,
                                   result: Json, storedResult: Json, error: Option<string>, executedAt: Json)

  /** The members of an entry, `None` standing for `undefined`. */
  function RecordMembers(rec: StepRecord, stored: bool): seq<(string, Option<Json>)> {
    [("step_id", rec.stepId), ("name", rec.name),
     ("status", Some(JStr(if rec.succeeded then "success" else "failed")))]
    + (if rec.succeeded then [("result", Some(if stored then rec.storedResult else rec.result))]
       else [("error", if rec.error.Some? then Some(JStr(rec.error.value)) else None)])
    + [("executed_at", Some(rec.executedAt))]
  }

  /** An object with the undefined members left out, as `JSON.stringify`
      writes it. */
  function Dropped(ms: seq<(string, Option<Json>)>): (d: Doc)
    ensures forall k :: Lookup(d, k) == OptLookup(ms, k)
    ensures |d| <= |ms|
  {
    if ms == [] then []
    else if ms[0].1.None? then Dropped(ms[1..])
    else
      var rest := Dropped(ms[1..]);
      assert forall k :: Lookup([(ms[0].0, ms[0].1.value)] + rest, k) == OptLookup(ms, k) by {
        forall k ensures Lookup([(ms[0].0, ms[0].1.value)] + rest, k) == OptLookup(ms, k) {
          LookupCons((ms[0].0, ms[0].1.value), rest, k);
        }
      }
      [(ms[0].0, ms[0].1.value)] + rest
  }

  /** An object with the undefined members set to `null`, as the database
      driver writes it. */
  function Nulled(ms: seq<(string, Option<Json>)>): (d: Doc)
    ensures Keys(d) == seq(|ms|, i requires 0 <= i < |ms| => ms[i].0)
    ensures forall i :: 0 <= i < |ms| ==> d[i].1 == Stored(ms[i].1)
  {
    seq(|ms|, i requires 0 <= i < |ms| => (ms[i].0, Stored(ms[i].1)))
  }

  /** The first defined value given for `k`. */
  function OptLookup(ms: seq<(string, Option<Json>)>, k: string): Option<Json> {
    if ms == [] then None else if ms[0].0 == k && ms[0].1.Some? then ms[0].1 else OptLookup(ms[1..], k)
  }

  /** The entry as the job's return value carries it: undefined members
      are left out. */
  function RecordJson(rec: StepRecord): Json {
    JObj(Dropped(RecordMembers(rec, false)))
  }

  /** The entry as the execution record stores it: undefined members are
      `null`. */
  function StoredRecordJson(rec: StepRecord): Json {
    JObj(Nulled(RecordMembers(rec, true)))
  }

  /** The first defined value for a key no later member repeats. */
  lemma {:induction false} OptLookupFirst(ms: seq<(string, Option<Json>)>, i: nat, k: string)
    requires i < |ms| && ms[i].0 == k
    requires forall j :: 0 <= j < |ms| && j != i ==> ms[j].0 != k
    ensures OptLookup(ms, k) == ms[i].1
    decreases i
  {
    if i > 0 {
      OptLookupFirst(ms[1..], i - 1, k);
    } else if ms[0].1.None? {
      OptLookupAbsent(ms[1..], k);
    }
  }

  lemma {:induction false} OptLookupAbsent(ms: seq<(string, Option<Json>)>, k: string)
    requires forall j :: 0 <= j < |ms| ==> ms[j].0 != k
    ensures OptLookup(ms, k) == None
    decreases |ms|
  {
    if ms != [] {
      OptLookupAbsent(ms[1..], k);
    }
  }

  /** The stored entry has every member, an undefined step id, name or
      error written as `null`. */
  lemma StoredEntryForm(rec: StepRecord)
    ensures var stored := StoredRecordJson(rec).fields;
      Keys(stored) == ["step_id", "name", "status", if rec.succeeded then "result" else "error", "executed_at"]
      && stored[0].1 == Stored(rec.stepId) && stored[1].1 == Stored(rec.name)
      && (!rec.succeeded ==> stored[3].1 == Stored(if rec.error.Some? then Some(JStr(rec.error.value)) else None))
  {
    var ns := RecordMembers(rec, true);
    var keys := ["step_id", "name", "status", if rec.succeeded then "result" else "error", "executed_at"];
    assert forall j :: 0 <= j < 5 ==> ns[j].0 == keys[j];
  }

  /** The returned entry has only the defined members. */
  lemma KeptEntryForm(rec: StepRecord)
    ensures var kept := RecordJson(rec).fields;
      Lookup(kept, "step_id") == rec.stepId && Lookup(kept, "name") == rec.name
      && (!rec.succeeded ==> Lookup(kept, "error") == (if rec.error.Some? then Some(JStr(rec.error.value)) else None))
  {
    var ms := RecordMembers(rec, false);
    var keys := ["step_id", "name", "status", if rec.succeeded then "result" else "error", "executed_at"];
    assert forall j :: 0 <= j < 5 ==> ms[j].0 == keys[j];
    assert "step_id"[1] != "name"[1] && "step_id"[2] != "status"[2] && "step_id"[0] !in "re";
    OptLookupFirst(ms, 0, "step_id");
    assert "name"[0] !in "ser";
    OptLookupFirst(ms, 1, "name");
    if !rec.succeeded {
      assert "error"[0] !in "sn";
      OptLookupFirst(ms, 3, "error");
    }
  }

  /** The steps run so far: their entries, the context, and the error the
      run stopped with (`None` when every step was attempted). */
  datatype Run = Run(results: seq<StepRecord>, context: Doc, failure: Option<Option<string>>)

  /** How the worker runs one step against the context. */
  function Executor(external: (string, Json, Doc) -> StepResult): (Json, Doc) -> StepResult {
    (step, ctx) => ExecuteStep(step, ctx, external)
  }

  /** The entry of one attempted step: a thrown error is caught and
      recorded, a result is recorded as it is. */
  function Attempt(step: Json, ctx: Doc, exec: (Json, Doc) -> StepResult, now: Json): (rec: StepRecord)
    ensures rec.stepId == Get(step, "step_id") && rec.name == Get(step, "name") && rec.executedAt == now
    ensures rec.succeeded <==> exec(step, ctx).StepOk?
    ensures rec.succeeded ==> rec.result == exec(step, ctx).value && rec.storedResult == exec(step, ctx).stored
                              && rec.error.None?
    ensures !rec.succeeded ==> rec.error == exec(step, ctx).message
  {
    var id := Get(step, "step_id");
    var name := Get(step, "name");
    match exec(step, ctx)
    case StepOk(v, sv) => StepRecord(id, name, true, v, sv, None, now)
    case StepErr(m) => StepRecord(id, name, false, JNull, JNull, m, now)
  }

  /** The context after an entry: a success's result is stored under
      the step's key, a failure leaves it as it was. */
  function Advance(step: Json, rec: StepRecord, ctx: Doc): (next: Doc)
    ensures rec.succeeded ==> Lookup(next, StepKey(step)) == Some(rec.result)
    ensures rec.succeeded ==> forall m :: m != StepKey(step) ==> Lookup(next, m) == Lookup(ctx, m)
    ensures !rec.succeeded ==> next == ctx
  {
    if rec.succeeded then Put(ctx, StepKey(step), rec.result) else ctx
  }

  /** The step loop; `exec` runs one step. A step that is `null` throws on its first property
      read, before its own error handling, and ends the run without an
      entry. A failure rethrown under `stop` ends the run after its
      entry; otherwise the loop goes on, with a success's result added to
      the context. */
  function RunSteps(steps: seq<Json>, ctx: Doc, exec: (Json, Doc) -> StepResult, now: Json): (r: Run)
    decreases |steps|
    ensures |r.results| <= |steps|
    ensures r.failure.None? ==> |r.results| == |steps|
  {
    if |steps| == 0 then Run([], ctx, None)
    else if steps[0] == JNull then Run([], ctx, Some(Some(TypeErrorMessage)))
    else
      var rec := Attempt(steps[0], ctx, exec, now);
      if !rec.succeeded && Stops(steps[0]) then Run([rec], ctx, Some(rec.error))
      else
        var rest := RunSteps(steps[1..], Advance(steps[0], rec, ctx), exec, now);
        Run([rec] + rest.results, rest.context, rest.failure)
  }
  /** Entry `i` carries the id and name of step `i`. */
  predicate Follows(results: seq<StepRecord>, steps: seq<Json>)
    requires |results| <= |steps|
  {
    forall i :: 0 <= i < |results| ==>
      results[i].stepId == Get(steps[i], "step_id") && results[i].name == Get(steps[i], "name")
  }

  lemma FollowsCons(rec: StepRecord, results: seq<StepRecord>, steps: seq<Json>)
    requires 0 < |steps| && |results| < |steps| && Follows(results, steps[1..])
    requires rec.stepId == Get(steps[0], "step_id") && rec.name == Get(steps[0], "name")
    ensures Follows([rec] + results, steps)
  {
    var all := [rec] + results;
    forall i | 0 <= i < |all| ensures all[i].stepId == Get(steps[i], "step_id") && all[i].name == Get(steps[i], "name") {
      if i > 0 { assert all[i] == results[i - 1] && steps[i] == steps[1..][i - 1]; }
    }
  }

  /** The run ended early for one of two reasons: its last entry is a
      failure under `stop`, rethrown with the entry's message, or the step
      after the last entry is `null`. */
  predicate EndsAtCause(steps: seq<Json>, results: seq<StepRecord>, failure: Option<Option<string>>)
    requires |results| <= |steps|
  {
    failure.Some? ==>
      (|results| > 0 && !results[|results| - 1].succeeded && Stops(steps[|results| - 1])
       && failure.value == results[|results| - 1].error)
      || (|results| < |steps| && steps[|results|] == JNull && failure.value == Some(TypeErrorMessage))
  }

  lemma EndsAtCauseCons(rec: StepRecord, results: seq<StepRecord>, steps: seq<Json>, failure: Option<Option<string>>)
    requires 0 < |steps| && |results| < |steps| && EndsAtCause(steps[1..], results, failure)
    ensures EndsAtCause(steps, [rec] + results, failure)
  {
    var all := [rec] + results;
    var n := |results|;
    if failure.Some? {
      if n > 0 && !results[n - 1].succeeded && Stops(steps[1..][n - 1]) && failure.value == results[n - 1].error {
        assert all[n] == results[n - 1] && steps[n] == steps[1..][n - 1];
      } else {
        assert steps[n + 1] == steps[1..][n];
      }
    }
  }

  /** Every failed entry before the end is under an `on_error` that goes
      on. */
  predicate OnlyLastStops(steps: seq<Json>, results: seq<StepRecord>, failure: Option<Option<string>>)
    requires |results| <= |steps|
  {
    forall i :: 0 <= i < |results| && !results[i].succeeded && (failure.None? || i < |results| - 1) ==> !Stops(steps[i])
  }

  lemma OnlyLastStopsCons(rec: StepRecord, results: seq<StepRecord>, steps: seq<Json>, failure: Option<Option<string>>)
    requires 0 < |steps| && |results| < |steps| && OnlyLastStops(steps[1..], results, failure)
    requires !rec.succeeded ==> !Stops(steps[0])
    ensures OnlyLastStops(steps, [rec] + results, failure)
  {
    var all := [rec] + results;
    forall i | 0 <= i < |all| && !all[i].succeeded && (failure.None? || i < |all| - 1) ensures !Stops(steps[i]) {
      if i > 0 { assert all[i] == results[i - 1] && steps[i] == steps[1..][i - 1]; }
    }
  }

  /** What every run satisfies: entry `i` belongs to step `i`, the run
      stops early only for a `stop` failure or a `null` step, and any
      failure it goes past was under an `on_error` that goes on. */
  lemma {:induction false} RunShape(steps: seq<Json>, ctx: Doc, exec: (Json, Doc) -> StepResult, now: Json)
    ensures var r := RunSteps(steps, ctx, exec, now);
      Follows(r.results, steps) && EndsAtCause(steps, r.results, r.failure) && OnlyLastStops(steps, r.results, r.failure)
    decreases |steps|
  {
    var r := RunSteps(steps, ctx, exec, now);
    if |steps| > 0 && steps[0] != JNull {
      var rec := Attempt(steps[0], ctx, exec, now);
      if rec.succeeded || !Stops(steps[0]) {
        var ctx' := Advance(steps[0], rec, ctx);
        var rest := RunSteps(steps[1..], ctx', exec, now);
        assert r == Run([rec] + rest.results, rest.context, rest.failure);
        RunShape(steps[1..], ctx', exec, now);
        FollowsCons(rec, rest.results, steps);
        EndsAtCauseCons(rec, rest.results, steps, rest.failure);
        OnlyLastStopsCons(rec, rest.results, steps, rest.failure);
      } else {
        assert r == Run([rec], ctx, Some(rec.error));
        FollowsCons(rec, [], steps);
      }
    }
  }

  /** When no step stops on failure and none is `null`, every step is
      attempted and the run ends without error. */
  lemma {:induction false} NonStoppingStepsRunAll(steps: seq<Json>, ctx: Doc, exec: (Json, Doc) -> StepResult, now: Json)
    requires forall i :: 0 <= i < |steps| ==> steps[i] != JNull && !Stops(steps[i])
    ensures RunSteps(steps, ctx, exec, now).failure.None?
    decreases |steps|
  {
    if |steps| > 0 {
      var rec := Attempt(steps[0], ctx, exec, now);
      var ctx' := Advance(steps[0], rec, ctx);
      NonStoppingStepsRunAll(steps[1..], ctx', exec, now);
    }
  }

  /** A failing step without `on_error` ends the run with its error, after
      one entry. */
  lemma DefaultStopsAtFailure(steps: seq<Json>, ctx: Doc, exec: (Json, Doc) -> StepResult, now: Json)
    requires |steps| > 0 && steps[0] != JNull && Get(steps[0], "on_error").None?
    requires exec(steps[0], ctx).StepErr?
    ensures var r := RunSteps(steps, ctx, exec, now);
      |r.results| == 1 && r.failure == Some(exec(steps[0], ctx).message)
  {
  }

  /** A run that does not fail went past its first step. */
  lemma RunCompletes(steps: seq<Json>, ctx: Doc, exec: (Json, Doc) -> StepResult, now: Json)
    requires |steps| > 0 && RunSteps(steps, ctx, exec, now).failure.None?
    ensures var rec := Attempt(steps[0], ctx, exec, now);
      var rest := RunSteps(steps[1..], Advance(steps[0], rec, ctx), exec, now);
      RunSteps(steps, ctx, exec, now) == Run([rec] + rest.results, rest.context, rest.failure)
  {
  }

  /** A step that succeeds last leaves its result in the context under
      `step_<id>`. */
  lemma {:induction false} LastResultInContext(steps: seq<Json>, ctx: Doc, exec: (Json, Doc) -> StepResult, now: Json)
    requires var r := RunSteps(steps, ctx, exec, now);
      r.failure.None? && |steps| > 0 && r.results[|steps| - 1].succeeded
    ensures var r := RunSteps(steps, ctx, exec, now);
      Lookup(r.context, StepKey(steps[|steps| - 1])) == Some(r.results[|steps| - 1].result)
    decreases |steps|
  {
    var r := RunSteps(steps, ctx, exec, now);
    var rec := Attempt(steps[0], ctx, exec, now);
    var ctx' := Advance(steps[0], rec, ctx);
    var rest := RunSteps(steps[1..], ctx', exec, now);
    RunCompletes(steps, ctx, exec, now);
    if |steps| == 1 {
      assert rest == Run([], ctx', None);
      assert r.results[0] == rec;
    } else {
      assert r.results[|steps| - 1] == rest.results[|steps[1..]| - 1];
      assert steps[|steps| - 1] == steps[1..][|steps[1..]| - 1];
      LastResultInContext(steps[1..], ctx', exec, now);
    }
  }

  /* ---------------------------------------------------------------- */
  /* `processFlowExecute`                                              */
  /* ---------------------------------------------------------------- */

  /** The job data the worker reads; the context is an object. */
  datatype ExecJob = ExecJob(flowId: Json, flowName: Json, steps: seq<Json>, context: Doc, userId: Option<Json>)

  datatype FlowOutcome = FlowCompleted(result: Json) | FlowThrew(message: Option<string>)

  datatype Executed = Executed(outcome: FlowOutcome, executions: seq<Doc>)

  const ExecutionKeys: seq<string> := ["execution_id", "flow_id", "flow_name", "user_id", "status", "started_at", "context"]

  /** Field `n` of a new execution record; an undefined `user_id` is
      stored as `null`. */
  function ExecutionField(executionId: string, job: ExecJob, now: Json, n: string): Option<Json> {
    if n == "execution_id" then Some(JStr(executionId))
    else if n == "flow_id" then Some(job.flowId)
    else if n == "flow_name" then Some(job.flowName)
    else if n == "user_id" then Some(Stored(job.userId))
    else if n == "status" then Some(JStr("running"))
    else if n == "started_at" then Some(now)
    else Some(JObj(job.context))
  }

  /** The execution record inserted before the first step. */
  function ExecutionRecord(executionId: string, job: ExecJob, now: Json): (d: Doc)
    ensures Lookup(d, "execution_id") == Some(JStr(executionId))
    ensures Lookup(d, "status") == Some(JStr("running"))
  {
    var f := n => ExecutionField(executionId, job, now, n);
    BuildLookup(f, ExecutionKeys, "execution_id");
    BuildLookup(f, ExecutionKeys, "status");
    Build(f, ExecutionKeys)
  }

  /** The `results` array: as the job returns it, or as it is stored. */
  function ResultsJson(results: seq<StepRecord>, stored: bool): Json {
    JArr(seq(|results|, i requires 0 <= i < |results| =>
      if stored then StoredRecordJson(results[i]) else RecordJson(results[i])))
  }

  /** The `$set` that closes the execution. */
  function Closing(run: Run, now: Json): Doc {
    if run.failure.None? then
      [("status", JStr("completed")), ("completed_at", now), ("results", ResultsJson(run.results, true))]
    else
      var m := run.failure.value;
      [("status", JStr("failed")), ("failed_at", now),
       ("error", Stored(if m.Some? then Some(JStr(m.value)) else None)), ("results", ResultsJson(run.results, true))]
  }

  /** `processFlowExecute`. `dbError` is `getDb` throwing (with its
      message), `insertError` the insert of the execution record throwing;
      the execution id (built from the clock) and the time are
      parameters. */
  function ProcessFlowExecute(job: ExecJob, dbError: Option<Option<string>>, insertError: Option<Option<string>>,
                              external: (string, Json, Doc) -> StepResult, executionId: string, now: Json,
                              executions: seq<Doc>): (r: Executed)
    ensures dbError.Some? ==> r == Executed(FlowThrew(dbError.value), executions)
    ensures dbError.None? && insertError.Some? ==> r.outcome == FlowThrew(insertError.value)
    ensures dbError.None? && insertError.None? ==>
      var run := RunSteps(job.steps, job.context, Executor(external), now);
      (r.outcome.FlowCompleted? <==> run.failure.None?)
      && (run.failure.Some? ==> r.outcome == FlowThrew(run.failure.value))
      && (run.failure.None? ==> r.outcome.result == JObj([("ok", JBool(true)), ("execution_id", JStr(executionId)),
                                                          ("flow_id", job.flowId), ("results", ResultsJson(run.results, false))]))
      && r.executions == UpdateOne(executions + [ExecutionRecord(executionId, job, now)],
                                   [("execution_id", JStr(executionId))], Closing(run, now), false, JNull).docs
  {
    if dbError.Some? then Executed(FlowThrew(dbError.value), executions)
    else
      var filter := [("execution_id", JStr(executionId))];
      if insertError.Some? then
        var failed := Closing(Run([], job.context, Some(insertError.value)), now);
        Executed(FlowThrew(insertError.value), UpdateOne(executions, filter, failed, false, JNull).docs)
      else
        var run := RunSteps(job.steps, job.context, Executor(external), now);
        var docs := UpdateOne(executions + [ExecutionRecord(executionId, job, now)], filter, Closing(run, now), false, JNull).docs;
        if run.failure.None? then
          Executed(FlowCompleted(JObj([("ok", JBool(true)), ("execution_id", JStr(executionId)),
                                       ("flow_id", job.flowId), ("results", ResultsJson(run.results, false))])), docs)
        else Executed(FlowThrew(run.failure.value), docs)
  }

  /** The closing update's `status`. */
  lemma ClosingStatus(run: Run, now: Json)
    ensures Lookup(Closing(run, now), "status") == Some(JStr(if run.failure.None? then "completed" else "failed"))
    ensures DistinctKeys(Closing(run, now))
  {
    var c := Closing(run, now);
    LookupCons(c[0], c[1..], "status");
    assert c == [c[0]] + c[1..];
  }

  /** With a fresh execution id, the inserted record ends `completed` when
      every step was attempted and `failed` otherwise. */
  lemma ExecutionEndsSettled(job: ExecJob, external: (string, Json, Doc) -> StepResult, executionId: string, now: Json,
                             executions: seq<Doc>)
    requires forall i :: 0 <= i < |executions| ==> Lookup(executions[i], "execution_id") != Some(JStr(executionId))
    ensures var r := ProcessFlowExecute(job, None, None, external, executionId, now, executions);
      var run := RunSteps(job.steps, job.context, Executor(external), now);
      |r.executions| == |executions| + 1
      && Lookup(r.executions[|executions|], "status") == Some(JStr(if run.failure.None? then "completed" else "failed"))
  {
    var run := RunSteps(job.steps, job.context, Executor(external), now);
    var rec := ExecutionRecord(executionId, job, now);
    var filter := [("execution_id", JStr(executionId))];
    var fields := Closing(run, now);
    assert Matches(rec, filter);
    assert forall i :: 0 <= i < |executions| ==> !Matches(executions[i], filter) by {
      forall i | 0 <= i < |executions| ensures !Matches(executions[i], filter) {
        assert Lookup(executions[i], filter[0].0) != Some(filter[0].1);
      }
    }
    ClosingStatus(run, now);
    FindKeyPresent(fields, "status");
    UpdateAppended(executions, rec, filter, fields, "status");
  }

  /** An update whose only match is the record just appended sets its fields there. */
  lemma UpdateAppended(docs: seq<Doc>, rec: Doc, filter: Doc, fields: Doc, k: string)
    requires Matches(rec, filter) && DistinctKeys(fields) && k in Keys(fields)
    requires forall i :: 0 <= i < |docs| ==> !Matches(docs[i], filter)
    ensures var after := UpdateOne(docs + [rec], filter, fields, false, JNull).docs;
      |after| == |docs| + 1 && Lookup(after[|docs|], k) == Lookup(fields, k)
  {
    FindAppended(docs, rec, filter);
    var all := docs + [rec];
    assert all[|docs|] == rec;
    assert UpdateOne(all, filter, fields, false, JNull).docs == all[|docs| := SetAll(rec, fields)];
    SetAllLookup(rec, fields, k);
  }
}
