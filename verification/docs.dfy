/** Documents of the business collections (users, flow executions, the
    collections the storage endpoint writes) and the few store operations
    the controllers use on them: equality filters, `findOne` as the first
    match in natural order, and `updateOne` with `$set`. Query operators
    and dotted paths are not modelled. */
module Docs {
  import opened Options
  import opened Json

  /** A stored document: its fields in insertion order. */
  type Doc = seq<(string, Json)>

  /** The document has every field of the equality filter, with an equal
      value. */
  predicate Matches(doc: Doc, filter: Doc) {
    forall i :: 0 <= i < |filter| ==> Lookup(doc, filter[i].0) == Some(filter[i].1)
  }

  /** Position of the first document matching `filter`, or `|docs|`. */
  function FindFirst(docs: seq<Doc>, filter: Doc): (i: nat)
    ensures i <= |docs|
    ensures i < |docs| ==> Matches(docs[i], filter)
    ensures forall j :: 0 <= j < i ==> !Matches(docs[j], filter)
  {
    if |docs| == 0 then 0
    else if Matches(docs[0], filter) then 0
    else 1 + FindFirst(docs[1..], filter)
  }

  /** A document appended after documents that do not match is the
      first match. */
  lemma FindAppended(docs: seq<Doc>, u: Doc, filter: Doc)
    requires Matches(u, filter)
    requires forall i :: 0 <= i < |docs| ==> !Matches(docs[i], filter)
    ensures FindFirst(docs + [u], filter) == |docs|
  {
    var all := docs + [u];
    assert all[|docs|] == u;
    assert FindFirst(all, filter) <= |docs|;
    assert forall j :: 0 <= j < |docs| ==> all[j] == docs[j];
  }

  /** `findOne(filter)`. */
  function FindOne(docs: seq<Doc>, filter: Doc): (r: Option<Doc>)
    ensures r.Some? <==> exists i :: 0 <= i < |docs| && Matches(docs[i], filter)
    ensures r.Some? ==> Matches(r.value, filter) && r.value in docs
  {
    var i := FindFirst(docs, filter);
    if i < |docs| then Some(docs[i]) else None
  }

  /** `{ $set: fields }` applied to one document. */
  function SetAll(doc: Doc, fields: Doc): (r: Doc)
    decreases |fields|
  {
    if |fields| == 0 then doc else SetAll(Put(doc, fields[0].0, fields[0].1), fields[1..])
  }

  lemma {:induction false} KeysTail<T>(fs: seq<(string, T)>, k: string)
    requires |fs| > 0
    ensures k in Keys(fs) <==> k == fs[0].0 || k in Keys(fs[1..])
  {
    assert Keys(fs) == [fs[0].0] + Keys(fs[1..]);
  }

  /** In an object without repeated keys, every entry is what its key
      reads. */
  lemma LookupDistinct(fs: Doc, i: nat)
    requires DistinctKeys(fs) && i < |fs|
    ensures Lookup(fs, fs[i].0) == Some(fs[i].1)
  {
    var j := FindKey(fs, fs[i].0);
    assert j == i;
  }

  /** After `$set`, a set field reads its new value and every other field
      reads as before. */
  lemma {:induction false} SetAllLookup(doc: Doc, fields: Doc, k: string)
    requires DistinctKeys(fields)
    ensures Lookup(SetAll(doc, fields), k) == if k in Keys(fields) then Lookup(fields, k) else Lookup(doc, k)
    decreases |fields|
  {
    if |fields| > 0 {
      var rest := fields[1..];
      var f := fields[0];
      assert DistinctKeys(rest);
      var d := Put(doc, f.0, f.1);
      assert SetAll(doc, fields) == SetAll(d, rest);
      SetAllLookup(d, rest, k);
      KeysTail(fields, k);
      assert fields == [f] + rest;
      LookupCons(f, rest, k);
      if k == f.0 {
        HeadNotInTail(fields);
        assert Lookup(SetAll(d, rest), k) == Lookup(d, k) == Some(f.1);
      } else {
        assert Lookup(d, k) == Lookup(doc, k);
        assert Lookup(fields, k) == Lookup(rest, k);
      }
    }
  }

  /** Without repeated keys, the first key does not occur again. */
  lemma HeadNotInTail(fs: Doc)
    requires DistinctKeys(fs) && |fs| > 0
    ensures fs[0].0 !in Keys(fs[1..])
  {
  }

  /** `$set` of values the document already holds changes nothing. */
  lemma {:induction false} SetAllHeld(doc: Doc, fields: Doc)
    requires DistinctKeys(fields)
    requires forall i :: 0 <= i < |fields| ==> Lookup(doc, fields[i].0) == Some(fields[i].1)
    ensures SetAll(doc, fields) == doc
    decreases |fields|
  {
    if |fields| > 0 {
      PutHeld(doc, fields[0].0, fields[0].1);
      var rest := fields[1..];
      assert DistinctKeys(rest);
      assert forall i :: 0 <= i < |rest| ==> Lookup(doc, rest[i].0) == Some(rest[i].1) by {
        assert forall i :: 0 <= i < |rest| ==> rest[i] == fields[i + 1];
      }
      SetAllHeld(doc, rest);
    }
  }

  /** Writing a field's own value leaves the object as it was. */
  lemma PutHeld(doc: Doc, k: string, v: Json)
    requires Lookup(doc, k) == Some(v)
    ensures Put(doc, k, v) == doc
  {
    FindKeyPresent(doc, k);
    var i := FindKey(doc, k);
    assert doc[i] == (k, v);
  }

  /** `{ k: v }` as `JSON.stringify` writes it: an undefined value drops
      the key. */
  function Defined(k: string, v: Option<Json>): (r: Doc)
    ensures Lookup(r, k) == v
    ensures |r| <= 1
  {
    if v.Some? then [(k, v.value)] else []
  }

  /** How the driver stores a possibly undefined value: as `null`. */
  function Stored(v: Option<Json>): Json {
    v.GetOr(JNull)
  }

  /** The document without `_id` and `password_hash`, as the user
      controllers return it. */
  function Public(doc: Doc): (r: Doc)
    ensures forall m :: Lookup(r, m) == if m == "_id" || m == "password_hash" then None else Lookup(doc, m)
  {
    RemovedLookup(doc);
    Remove(Remove(doc, "_id"), "password_hash")
  }

  lemma RemovedLookup(doc: Doc)
    ensures forall m :: Lookup(Remove(Remove(doc, "_id"), "password_hash"), m)
                        == if m == "_id" || m == "password_hash" then None else Lookup(doc, m)
  {
    forall m ensures Lookup(Remove(Remove(doc, "_id"), "password_hash"), m)
                     == if m == "_id" || m == "password_hash" then None else Lookup(doc, m) {
      LookupRemove(doc, "_id", m);
      LookupRemove(Remove(doc, "_id"), "password_hash", m);
    }
  }

  /** The named fields of `doc` in the given order, as an object literal
      `{ a: doc.a, b: doc.b }` is serialised: missing fields are left
      out. */
  function Project(doc: Doc, names: seq<string>): (r: Doc)
    ensures forall n :: Lookup(r, n) == if n in names then Lookup(doc, n) else None
  {
    ProjectLookup(doc, names);
    Build(n => Lookup(doc, n), names)
  }

  lemma ProjectLookup(doc: Doc, names: seq<string>)
    ensures forall n :: Lookup(Build(n => Lookup(doc, n), names), n) == if n in names then Lookup(doc, n) else None
  {
    forall n ensures Lookup(Build(n => Lookup(doc, n), names), n) == if n in names then Lookup(doc, n) else None {
      BuildLookup(n => Lookup(doc, n), names, n);
    }
  }

  /** The result of `updateOne`: the matched count, the `_id` of an
      upserted document, and the collection afterwards. */
  datatype Updated = Updated(matched: nat, upsertedId: Option<Json>, docs: seq<Doc>)

  /** The document an upsert starts from: the filter's fields, under the
      fresh `_id` unless the filter names one. */
  function UpsertBase(filter: Doc, newId: Json): (r: Doc)
    ensures "_id" in Keys(r)
  {
    if "_id" in Keys(filter) then filter
    else
      assert Keys([("_id", newId)] + filter)[0] == "_id";
      [("_id", newId)] + filter
  }

  /** `updateOne(filter, { $set: fields }, { upsert })`: the first match is
      updated; without one, an upsert appends a new document. */
  function UpdateOne(docs: seq<Doc>, filter: Doc, fields: Doc, upsert: bool, newId: Json): (r: Updated)
    ensures r.matched == 1 <==> exists i :: 0 <= i < |docs| && Matches(docs[i], filter)
    ensures r.matched <= 1
    ensures r.upsertedId.Some? <==> r.matched == 0 && upsert
    ensures r.matched == 0 && !upsert ==> r.docs == docs
    ensures |r.docs| == |docs| + (if r.upsertedId.Some? then 1 else 0)
    ensures forall j :: 0 <= j < |docs| && !Matches(docs[j], filter) ==> r.docs[j] == docs[j]
    ensures r.upsertedId.Some? ==>
      r.docs[|docs|] == SetAll(UpsertBase(filter, newId), fields)
      && r.upsertedId == Lookup(UpsertBase(filter, newId), "_id")
  {
    var i := FindFirst(docs, filter);
    if i < |docs| then Updated(1, None, docs[i := SetAll(docs[i], fields)])
    else if upsert then
      var base := UpsertBase(filter, newId);
      Updated(0, Lookup(base, "_id"), docs + [SetAll(base, fields)])
    else Updated(0, None, docs)
  }

  /** Every field of the update reads its new value in the document. */
  predicate Holds(doc: Doc, fields: Doc) {
    forall i :: 0 <= i < |fields| ==> Lookup(doc, fields[i].0) == Some(fields[i].1)
  }

  lemma SetAllHolds(doc: Doc, fields: Doc)
    requires DistinctKeys(fields)
    ensures Holds(SetAll(doc, fields), fields)
  {
    forall i | 0 <= i < |fields| ensures Lookup(SetAll(doc, fields), fields[i].0) == Some(fields[i].1) {
      SetAllLookup(doc, fields, fields[i].0);
      LookupDistinct(fields, i);
    }
  }

  /** After an upsert, or an update that found a document, some document
      holds every field that was set. */
  lemma UpdateEstablishes(docs: seq<Doc>, filter: Doc, fields: Doc, upsert: bool, newId: Json)
    requires DistinctKeys(fields)
    requires upsert || exists i :: 0 <= i < |docs| && Matches(docs[i], filter)
    ensures var r := UpdateOne(docs, filter, fields, upsert, newId);
      exists j :: 0 <= j < |r.docs| && Holds(r.docs[j], fields)
  {
    var r := UpdateOne(docs, filter, fields, upsert, newId);
    var i := FindFirst(docs, filter);
    if i < |docs| {
      SetAllHolds(docs[i], fields);
      assert Holds(r.docs[i], fields);
    } else {
      SetAllHolds(UpsertBase(filter, newId), fields);
      assert Holds(r.docs[|docs|], fields);
    }
  }

  /** The filter and the update give every key they share the same value. */
  predicate Agree(filter: Doc, fields: Doc) {
    forall i, j :: 0 <= i < |filter| && 0 <= j < |fields| && filter[i].0 == fields[j].0 ==> filter[i].1 == fields[j].1
  }

  /** A document the filter matched, or the upsert base, still matches
      after an update that agrees with the filter. */
  lemma UpdatedStillMatches(base: Doc, filter: Doc, fields: Doc)
    requires DistinctKeys(fields) && DistinctKeys(filter) && Agree(filter, fields)
    requires Matches(base, filter)
    ensures Matches(SetAll(base, fields), filter)
  {
    forall i | 0 <= i < |filter| ensures Lookup(SetAll(base, fields), filter[i].0) == Some(filter[i].1) {
      var k := filter[i].0;
      SetAllLookup(base, fields, k);
      if k in Keys(fields) {
        var j :| 0 <= j < |fields| && Keys(fields)[j] == k;
        LookupDistinct(fields, j);
      }
    }
  }

  lemma UpsertBaseMatches(filter: Doc, newId: Json)
    requires DistinctKeys(filter)
    ensures Matches(UpsertBase(filter, newId), filter)
  {
    forall i | 0 <= i < |filter| ensures Lookup(UpsertBase(filter, newId), filter[i].0) == Some(filter[i].1) {
      LookupDistinct(filter, i);
      if "_id" !in Keys(filter) {
        LookupCons(("_id", newId), filter, filter[i].0);
        assert Keys(filter)[i] == filter[i].0;
      }
    }
  }

  /** Repeating an update that agrees with its filter changes nothing
      more: the second call finds the document the first one wrote. */
  lemma UpdateIdempotent(docs: seq<Doc>, filter: Doc, fields: Doc, upsert: bool, newId: Json, newId2: Json)
    requires DistinctKeys(fields) && DistinctKeys(filter) && Agree(filter, fields)
    ensures var once := UpdateOne(docs, filter, fields, upsert, newId).docs;
      UpdateOne(once, filter, fields, upsert, newId2).docs == once
  {
    var once := UpdateOne(docs, filter, fields, upsert, newId).docs;
    var i := FindFirst(docs, filter);
    if i < |docs| {
      UpdatedStillMatches(docs[i], filter, fields);
      assert FindFirst(once, filter) == i by {
        assert Matches(once[i], filter);
        assert forall j :: 0 <= j < i ==> once[j] == docs[j];
      }
      SetAllHolds(docs[i], fields);
      SetAllHeld(once[i], fields);
    } else if upsert {
      var base := UpsertBase(filter, newId);
      UpsertBaseMatches(filter, newId);
      UpdatedStillMatches(base, filter, fields);
      assert FindFirst(once, filter) == |docs| by {
        assert Matches(once[|docs|], filter);
        assert forall j :: 0 <= j < |docs| ==> once[j] == docs[j];
      }
      SetAllHolds(base, fields);
      SetAllHeld(once[|docs|], fields);
    }
  }
}
