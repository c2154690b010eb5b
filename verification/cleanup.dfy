/** The daily cleanup worker (`src/workers/cleanupDaily.ts`): which records
    each collection loses, the archive of old audit entries, and the
    summary it returns. Dates are milliseconds since the epoch, and `now`
    is the clock's reading. */
module Cleanup {
  import opened Options
  import opened Json
  import opened Docs
  import Storage

  const HourMs: int := 60 * 60 * 1000
  const DayMs: int := 24 * HourMs

  /** `{ field: { $lt: cutoff } }`: the field holds a date before the
      cutoff. A missing field never matches. */
  predicate Before(d: Doc, field: string, cutoff: int) {
    var v := Lookup(d, field);
    v.Some? && v.value.JNum? && v.value.n < cutoff
  }

  predicate StatusIs(d: Doc, status: string) {
    Lookup(d, "status") == Some(JStr(status))
  }

  /** `job.data.retention_days || 90`: a missing or zero value gives 90. */
  function RetentionDays(days: Option<int>): (n: int)
    ensures days.None? || days.value == 0 ==> n == 90
    ensures days.Some? && days.value != 0 ==> n == days.value
  {
    if days.Some? && days.value != 0 then days.value else 90
  }

  /** The collections the job deletes from. */
  const Swept: set<string> :=
    {"processed_events", "idempotency_keys", "otps", "signature_replays", "audit_logs", "messages", "flow_executions", "refunds"}

  const Archive: string := "audit_logs_archive"

  /** The archive is not one of the swept collections: no swept name is
      as long. */
  lemma ArchiveNotSwept()
    ensures Archive !in Swept
  {
    assert |Archive| == 18;
    assert forall n :: n in Swept ==> |n| < 18;
  }

  /** Which records of collection `name` the job removes. */
  predicate Doomed(name: string, now: int, days: int, d: Doc) {
    if name == "processed_events" then Before(d, "created_at", now - 72 * HourMs)
    else if name == "idempotency_keys" || name == "otps" || name == "signature_replays" then Before(d, "expires_at", now)
    else if name == "audit_logs" then Before(d, "at", now - days * DayMs)
    else if name == "messages" then StatusIs(d, "delivered") && Before(d, "delivered_at", now - 30 * DayMs)
    else if name == "flow_executions" then Before(d, "completed_at", now - 60 * DayMs) && StatusIs(d, "completed")
    else if name == "refunds" then Before(d, "updated_at", now - 90 * DayMs) && (StatusIs(d, "completed") || StatusIs(d, "failed"))
    else false
  }

  /** The removal rule of collection `name` as a filter. */
  function Rule(name: string, now: int, days: int): Doc -> bool {
    d => Doomed(name, now, days, d)
  }

  /** The records `deleteMany` leaves, in their order. */
  function Keep(docs: seq<Doc>, doomed: Doc -> bool): (r: seq<Doc>)
    ensures |r| <= |docs|
    ensures forall d :: d in r <==> d in docs && !doomed(d)
    decreases |docs|
  {
    if |docs| == 0 then []
    else (if doomed(docs[0]) then [] else [docs[0]]) + Keep(docs[1..], doomed)
  }

  /** The records `find` returns for the same filter, in their order. */
  function Picked(docs: seq<Doc>, doomed: Doc -> bool): (r: seq<Doc>)
    ensures forall d :: d in r <==> d in docs && doomed(d)
    decreases |docs|
  {
    if |docs| == 0 then []
    else (if doomed(docs[0]) then [docs[0]] else []) + Picked(docs[1..], doomed)
  }

  /** Every record is either kept or picked, and none is both. */
  lemma {:induction false} KeepPickedSplit(docs: seq<Doc>, doomed: Doc -> bool)
    ensures multiset(docs) == multiset(Keep(docs, doomed)) + multiset(Picked(docs, doomed))
    ensures |Picked(docs, doomed)| == |docs| - |Keep(docs, doomed)|
    decreases |docs|
  {
    if |docs| > 0 {
      KeepPickedSplit(docs[1..], doomed);
      assert docs == [docs[0]] + docs[1..];
    }
  }

  /** A second sweep at the same time finds nothing more to remove. */
  lemma {:induction false} KeepIdempotent(docs: seq<Doc>, doomed: Doc -> bool)
    ensures Keep(Keep(docs, doomed), doomed) == Keep(docs, doomed)
    ensures Picked(Keep(docs, doomed), doomed) == []
    decreases |docs|
  {
    if |docs| > 0 {
      KeepIdempotent(docs[1..], doomed);
      var rest := Keep(docs[1..], doomed);
      if doomed(docs[0]) {
        assert Keep(docs, doomed) == [] + rest == rest;
      } else {
        var kept := [docs[0]] + rest;
        assert Keep(docs, doomed) == kept;
        assert kept[0] == docs[0] && kept[1..] == rest;
        assert Keep(kept, doomed) == [docs[0]] + Keep(rest, doomed);
        assert Picked(kept, doomed) == [] + Picked(rest, doomed);
      }
    }
  }

  /** The number of records the sweep removes from collection `name`. */
  function Removed(db: Storage.Database, name: string, now: int, days: int): nat {
    |Storage.Collection(db, name)| - |Keep(Storage.Collection(db, name), Rule(name, now, days))|
  }

  /** The database after the sweep: each swept collection keeps its
      records that are not due, and the archive gains the old audit
      entries after its own. */
  function AfterSweep(db: Storage.Database, now: int, days: int): (r: Storage.Database)
    ensures forall n :: n in Swept ==> Storage.Collection(r, n) == Keep(Storage.Collection(db, n), Rule(n, now, days))
    ensures Storage.Collection(r, Archive) == Storage.Collection(db, Archive) + Picked(Storage.Collection(db, "audit_logs"), Rule("audit_logs", now, days))
    ensures forall n :: n !in Swept && n != Archive ==> Storage.Collection(r, n) == Storage.Collection(db, n)
  {
    var r := map n | n in db.Keys + Swept + {Archive} :: SweptEntry(db, n, now, days);
    SweptEntries(db, now, days, r);
    r
  }

  lemma SweptEntries(db: Storage.Database, now: int, days: int, r: Storage.Database)
    requires r == map n | n in db.Keys + Swept + {Archive} :: SweptEntry(db, n, now, days)
    ensures forall n :: n in Swept ==> Storage.Collection(r, n) == Keep(Storage.Collection(db, n), Rule(n, now, days))
    ensures Storage.Collection(r, Archive) == Storage.Collection(db, Archive) + Picked(Storage.Collection(db, "audit_logs"), Rule("audit_logs", now, days))
    ensures forall n :: n !in Swept && n != Archive ==> Storage.Collection(r, n) == Storage.Collection(db, n)
  {
    ArchiveNotSwept();
    forall n | n in Swept ensures Storage.Collection(r, n) == Keep(Storage.Collection(db, n), Rule(n, now, days)) {
      assert n in r;
    }
    assert Archive in r;
    forall n | n !in Swept && n != Archive ensures Storage.Collection(r, n) == Storage.Collection(db, n) {
      if n in db { assert n in r; }
    }
  }

  /** What collection `n` holds after the sweep. */
  function SweptEntry(db: Storage.Database, n: string, now: int, days: int): seq<Doc> {
    if n in Swept then Keep(Storage.Collection(db, n), Rule(n, now, days))
    else if n == Archive then Storage.Collection(db, Archive) + Picked(Storage.Collection(db, "audit_logs"), Rule("audit_logs", now, days))
    else Storage.Collection(db, n)
  }

  /** The summary's counters, in the order the job writes them: the
      result field and the collection it counts. */
  const Counters: seq<(string, string)> := [
    ("expired_events_deleted", "processed_events"),
    ("expired_idempotency_deleted", "idempotency_keys"),
    ("expired_otps_deleted", "otps"),
    ("expired_replays_deleted", "signature_replays"),
    ("audit_logs_archived", "audit_logs"),
    ("old_messages_deleted", "messages"),
    ("old_flows_deleted", "flow_executions"),
    ("old_refunds_deleted", "refunds")]

  /** The value of counter `i`. The audit counter is `0` when no audit
      entry was old, and otherwise the count of the second delete. */
  function CounterValue(db: Storage.Database, now: int, days: int, i: nat): nat
    requires i < |Counters|
  {
    var name := Counters[i].1;
    if name == "audit_logs" && |Picked(Storage.Collection(db, name), Rule(name, now, days))| == 0 then 0
    else Removed(db, name, now, days)
  }

  /** `(a || 0) + (b || 0) + ...` over the counters from `i` on. */
  function Total(db: Storage.Database, now: int, days: int, i: nat): nat
    requires i <= |Counters|
    decreases |Counters| - i
  {
    if i == |Counters| then 0 else CounterValue(db, now, days, i) + Total(db, now, days, i + 1)
  }

  datatype CleanupOutcome = Summary(result: Json) | CleanupThrew(message: Option<string>)

  datatype Cleaned = Cleaned(outcome: CleanupOutcome, db: Storage.Database)

  /** `processDailyCleanup`. `dbError` is `getDb` throwing; the database
      statistics and the date text are the clock's and the server's, and
      are given. */
  function DailyCleanup(retentionDays: Option<int>, dbError: Option<Option<string>>, now: int,
                        dbSizeMb: Json, collections: Json, cleanupDate: string, db: Storage.Database): (r: Cleaned)
    ensures dbError.Some? ==> r == Cleaned(CleanupThrew(dbError.value), db)
    ensures dbError.None? ==> r.outcome.Summary? && r.db == AfterSweep(db, now, RetentionDays(retentionDays))
    ensures dbError.None? ==>
      var days := RetentionDays(retentionDays);
      r.outcome.result.JObj?
      && Lookup(r.outcome.result.fields, "total_records_cleaned") == Some(JNum(Total(db, now, days, 0)))
  {
    if dbError.Some? then Cleaned(CleanupThrew(dbError.value), db)
    else
      var days := RetentionDays(retentionDays);
      var counters := seq(|Counters|, i requires 0 <= i < |Counters| => (Counters[i].0, JNum(CounterValue(db, now, days, i))));
      var tail := [("db_size_mb", dbSizeMb), ("collections_count", collections), ("cleanup_date", JStr(cleanupDate)),
                   ("total_records_cleaned", JNum(Total(db, now, days, 0)))];
      SummaryTotal(counters, tail);
      Cleaned(Summary(JObj([("ok", JBool(true))] + counters + tail)), AfterSweep(db, now, days))
  }

  /** The total is found last in the summary, after fields with other
      names. */
  lemma SummaryTotal(counters: seq<(string, Json)>, tail: seq<(string, Json)>)
    requires |tail| == 4 && tail[3].0 == "total_records_cleaned"
    requires forall i :: 0 <= i < 3 ==> tail[i].0 != "total_records_cleaned"
    requires forall i :: 0 <= i < |counters| ==> counters[i].0 != "total_records_cleaned"
    ensures Lookup([("ok", JBool(true))] + counters + tail, "total_records_cleaned") == Some(tail[3].1)
  {
    var all := [("ok", JBool(true))] + counters + tail;
    var n := 1 + |counters|;
    assert all[n + 3] == tail[3];
    assert forall i :: 0 <= i < n + 3 ==> all[i].0 != "total_records_cleaned" by {
      forall i | 0 <= i < n + 3 ensures all[i].0 != "total_records_cleaned" {
        if 1 <= i < n { assert all[i] == counters[i - 1]; }
        else if n <= i { assert all[i] == tail[i - n]; }
      }
    }
    assert FindKey(all, "total_records_cleaned") == n + 3;
  }

  /** The audit counter is the number of entries moved to the archive. */
  lemma ArchivedCountIsMoved(db: Storage.Database, now: int, days: int)
    ensures CounterValue(db, now, days, 4) == |Picked(Storage.Collection(db, "audit_logs"), Rule("audit_logs", now, days))|
  {
    assert Counters[4].1 == "audit_logs";
    KeepPickedSplit(Storage.Collection(db, "audit_logs"), Rule("audit_logs", now, days));
  }

  /** No audit entry is lost: the ones leaving the log are exactly the
      ones added to the archive. */
  lemma AuditEntriesMoved(retentionDays: Option<int>, now: int, dbSizeMb: Json, collections: Json, cleanupDate: string,
                          db: Storage.Database)
    ensures var after := DailyCleanup(retentionDays, None, now, dbSizeMb, collections, cleanupDate, db).db;
      multiset(Storage.Collection(db, "audit_logs")) + multiset(Storage.Collection(db, Archive))
      == multiset(Storage.Collection(after, "audit_logs")) + multiset(Storage.Collection(after, Archive))
  {
    var days := RetentionDays(retentionDays);
    KeepPickedSplit(Storage.Collection(db, "audit_logs"), Rule("audit_logs", now, days));
  }

  /** Each counter reports how many records left its collection. */
  lemma {:induction false} TotalIsRecordsRemoved(db: Storage.Database, now: int, days: int, i: nat)
    requires i <= |Counters|
    ensures Total(db, now, days, i) == SumRemoved(db, now, days, i)
    decreases |Counters| - i
  {
    if i < |Counters| {
      TotalIsRecordsRemoved(db, now, days, i + 1);
      CounterIsRemoved(db, now, days, i);
    }
  }

  /** A counter is the number of records its collection lost: the audit
      counter's 0 for an empty archive batch is no exception. */
  lemma CounterIsRemoved(db: Storage.Database, now: int, days: int, i: nat)
    requires i < |Counters|
    ensures CounterValue(db, now, days, i) == Removed(db, Counters[i].1, now, days)
  {
    var name := Counters[i].1;
    KeepPickedSplit(Storage.Collection(db, name), Rule(name, now, days));
  }

  /** Every counter names a swept collection. */
  lemma CountersSwept(i: nat)
    requires i < |Counters|
    ensures Counters[i].1 in Swept
  {
  }

  lemma FinishedSwept()
    ensures "messages" in Swept && "flow_executions" in Swept && "refunds" in Swept
  {
  }

  /** The records removed from the counted collections, from counter `i`
      on. */
  function SumRemoved(db: Storage.Database, now: int, days: int, i: nat): nat
    requires i <= |Counters|
    decreases |Counters| - i
  {
    if i == |Counters| then 0 else Removed(db, Counters[i].1, now, days) + SumRemoved(db, now, days, i + 1)
  }

  /** Running the job again at the same time removes nothing, and its
      total is zero. */
  lemma CleanupIdempotent(retentionDays: Option<int>, now: int, dbSizeMb: Json, collections: Json, cleanupDate: string,
                          db: Storage.Database)
    ensures var days := RetentionDays(retentionDays);
      var once := DailyCleanup(retentionDays, None, now, dbSizeMb, collections, cleanupDate, db).db;
      (forall n :: n in Swept ==> Storage.Collection(AfterSweep(once, now, days), n) == Storage.Collection(once, n))
      && Total(once, now, days, 0) == 0
  {
    var days := RetentionDays(retentionDays);
    var once := AfterSweep(db, now, days);
    forall n | n in Swept ensures Storage.Collection(AfterSweep(once, now, days), n) == Storage.Collection(once, n) {
      KeepIdempotent(Storage.Collection(db, n), Rule(n, now, days));
    }
    TotalIsRecordsRemoved(once, now, days, 0);
    SumRemovedZero(db, now, days, 0);
  }

  lemma {:induction false} SumRemovedZero(db: Storage.Database, now: int, days: int, i: nat)
    requires i <= |Counters|
    ensures SumRemoved(AfterSweep(db, now, days), now, days, i) == 0
    decreases |Counters| - i
  {
    if i < |Counters| {
      var n := Counters[i].1;
      CountersSwept(i);
      KeepIdempotent(Storage.Collection(db, n), Rule(n, now, days));
      SumRemovedZero(db, now, days, i + 1);
    }
  }

  /** Records that are not finished stay, however old: a message not
      `delivered`, a flow execution not `completed`, a refund neither
      `completed` nor `failed`. */
  lemma UnfinishedRecordsStay(db: Storage.Database, now: int, days: int, d: Doc)
    ensures d in Storage.Collection(db, "messages") && !StatusIs(d, "delivered")
            ==> d in Storage.Collection(AfterSweep(db, now, days), "messages")
    ensures d in Storage.Collection(db, "flow_executions") && !StatusIs(d, "completed")
            ==> d in Storage.Collection(AfterSweep(db, now, days), "flow_executions")
    ensures d in Storage.Collection(db, "refunds") && !StatusIs(d, "completed") && !StatusIs(d, "failed")
            ==> d in Storage.Collection(AfterSweep(db, now, days), "refunds")
  {
    FinishedSwept();
    UnfinishedNotDoomed(now, days, d);
    if d in Storage.Collection(db, "messages") && !StatusIs(d, "delivered") {
      StaysIn(db, now, days, "messages", d);
    }
    if d in Storage.Collection(db, "flow_executions") && !StatusIs(d, "completed") {
      StaysIn(db, now, days, "flow_executions", d);
    }
    if d in Storage.Collection(db, "refunds") && !StatusIs(d, "completed") && !StatusIs(d, "failed") {
      StaysIn(db, now, days, "refunds", d);
    }
  }

  lemma UnfinishedNotDoomed(now: int, days: int, d: Doc)
    ensures !StatusIs(d, "delivered") ==> !Doomed("messages", now, days, d)
    ensures !StatusIs(d, "completed") ==> !Doomed("flow_executions", now, days, d)
    ensures !StatusIs(d, "completed") && !StatusIs(d, "failed") ==> !Doomed("refunds", now, days, d)
  {
  }

  /** A record its collection's rule does not select survives the sweep. */
  lemma StaysIn(db: Storage.Database, now: int, days: int, n: string, d: Doc)
    requires n in Swept && d in Storage.Collection(db, n) && !Doomed(n, now, days, d)
    ensures d in Storage.Collection(AfterSweep(db, now, days), n)
  {
    assert !Rule(n, now, days)(d);
  }
}
