/** The signing helpers of the webhook gateway: the canonical JSON form that
    request fingerprints are computed over, its guard against objects reached
    twice, and the constant-time comparison of hexadecimal digests. The
    HMAC-SHA256 itself is a parameter wherever it is used. */
module Hmac {
  import opened Options
  import opened Text
  import opened KeyOrder
  import opened Json

  /** The fields of an object in the order the serialiser visits them:
      `Object.keys(val).sort()` and, for each key, `val[k]`. */
  function SortedEntries<T>(fs: seq<(string, T)>): (r: seq<(string, T)>)
    ensures |r| == |fs|
    ensures forall i :: 0 <= i < |r| ==> FindKey(fs, r[i].0) < |fs| && r[i] == fs[FindKey(fs, r[i].0)]
  {
    var ks := Sort(Keys(fs));
    assert forall i :: 0 <= i < |ks| ==> ks[i] in Keys(fs) by {
      forall i | 0 <= i < |ks| ensures ks[i] in Keys(fs) {
        assert ks[i] in multiset(ks);
      }
    }
    seq(|ks|, i requires 0 <= i < |ks| =>
      FindKeyPresent(fs, ks[i]);
      fs[FindKey(fs, ks[i])])
  }

  /** The visiting order is the sorted key order, and each key is read from
      its own (first) entry. */
  lemma SortedEntriesOrder<T>(fs: seq<(string, T)>)
    ensures Keys(SortedEntries(fs)) == Sort(Keys(fs))
  {
    var ks := Sort(Keys(fs));
    forall i | 0 <= i < |ks| ensures ks[i] in Keys(fs) {
      assert ks[i] in multiset(ks);
    }
    forall i | 0 <= i < |ks| ensures FindKey(fs, ks[i]) < |fs| {
      FindKeyPresent(fs, ks[i]);
    }
  }

  /** The canonical text of a JSON tree: primitives as `JSON.stringify`
      writes them, array elements in order, object keys sorted at every
      depth. */
  function Canonical(j: Json): string
    decreases j, 1
  {
    match j
    case JArr(_) => "[" + Join(ElementTexts(j), ",") + "]"
    case JObj(_) => "{" + Join(MemberTexts(j), ",") + "}"
    case _ => PrimitiveText(j)
  }

  /** The texts of an array's elements, in order. */
  function ElementTexts(j: Json): seq<string>
    requires j.JArr?
    decreases j, 0
  {
    seq(|j.items|, i requires 0 <= i < |j.items| => Canonical(j.items[i]))
  }

  /** The texts of an object's members, in sorted-key order. */
  function MemberTexts(j: Json): seq<string>
    requires j.JObj?
    decreases j, 0
  {
    var es := SortedEntries(j.fields);
    seq(|es|, i requires 0 <= i < |es| => EntryText(es[i]))
  }

  /** One member of an object: the quoted key, a colon, the value's text. */
  function EntryText(e: (string, Json)): string
    decreases e
  {
    Quote(e.0) + ":" + Canonical(e.1)
  }

  /* ---------------------------------------------------------------------
     Key-order independence
     --------------------------------------------------------------------- */

  /** `a` and `b` differ at most in the order of object keys, at any depth. */
  predicate SameUpToKeyOrder(a: Json, b: Json) {
    match a
    case JArr(xs) =>
      b.JArr? && |xs| == |b.items|
      && forall i :: 0 <= i < |xs| ==> SameUpToKeyOrder(xs[i], b.items[i])
    case JObj(fs) =>
      b.JObj? && multiset(Keys(fs)) == multiset(Keys(b.fields))
      && forall i :: 0 <= i < |fs| ==>
           var p, m := FindKey(fs, fs[i].0), FindKey(b.fields, fs[i].0);
           p < |fs| && m < |b.fields| && SameUpToKeyOrder(fs[p].1, b.fields[m].1)
    case _ => a == b
  }

  /** Sorting the keys at every depth makes the canonical text blind to the
      order keys were inserted in. */
  lemma {:induction false} CanonicalKeyOrder(a: Json, b: Json)
    requires SameUpToKeyOrder(a, b)
    ensures Canonical(a) == Canonical(b)
    decreases a
  {
    match a
    case JArr(xs) =>
      var ys := b.items;
      forall i | 0 <= i < |xs| ensures Canonical(xs[i]) == Canonical(ys[i]) {
        CanonicalKeyOrder(xs[i], ys[i]);
      }
      SameElementTexts(xs, ys);
    case JObj(fs) =>
      var ea := SortedEntries(fs);
      var eb := SortedEntries(b.fields);
      forall i | 0 <= i < |ea| ensures |eb| == |ea| && EntryText(ea[i]) == EntryText(eb[i]) {
        MatchingEntries(fs, b.fields, i);
        CanonicalKeyOrder(ea[i].1, eb[i].1);
      }
      SameMemberTexts(fs, b.fields);
    case _ =>
  }

  /** Arrays whose elements have pairwise equal texts have equal texts. */
  lemma SameElementTexts(xs: seq<Json>, ys: seq<Json>)
    requires |xs| == |ys|
    requires forall i :: 0 <= i < |xs| ==> Canonical(xs[i]) == Canonical(ys[i])
    ensures Canonical(JArr(xs)) == Canonical(JArr(ys))
  {
    assert ElementTexts(JArr(xs)) == ElementTexts(JArr(ys));
  }

  /** Objects whose visited members have pairwise equal texts have equal
      texts. */
  lemma SameMemberTexts(fs: seq<(string, Json)>, gs: seq<(string, Json)>)
    requires |SortedEntries(fs)| == |SortedEntries(gs)|
    requires forall i :: 0 <= i < |SortedEntries(fs)| ==>
      EntryText(SortedEntries(fs)[i]) == EntryText(SortedEntries(gs)[i])
    ensures Canonical(JObj(fs)) == Canonical(JObj(gs))
  {
    assert MemberTexts(JObj(fs)) == MemberTexts(JObj(gs));
  }

  /** The i-th members visited in two objects that differ only in key order
      carry the same key and values that again differ only in key order. */
  lemma MatchingEntries(fs: seq<(string, Json)>, gs: seq<(string, Json)>, i: nat)
    requires SameUpToKeyOrder(JObj(fs), JObj(gs))
    requires i < |fs|
    ensures |SortedEntries(gs)| == |fs|
    ensures SortedEntries(fs)[i].0 == SortedEntries(gs)[i].0
    ensures SameUpToKeyOrder(SortedEntries(fs)[i].1, SortedEntries(gs)[i].1)
  {
    var ea := SortedEntries(fs);
    var eb := SortedEntries(gs);
    SortedEntriesOrder(fs);
    SortedEntriesOrder(gs);
    SortPermutationInvariant(Keys(fs), Keys(gs));
    var k := ea[i].0;
    assert eb[i].0 == Keys(eb)[i] == Keys(ea)[i] == k;
    var p0 := FindKey(fs, k);
    assert ea[i] == fs[p0];
    assert fs[p0].0 == k;
    assert eb[i] == gs[FindKey(gs, k)];
  }

  lemma {:induction false} SameUpToKeyOrderReflexive(a: Json)
    ensures SameUpToKeyOrder(a, a)
    decreases a
  {
    match a
    case JArr(xs) =>
      forall i | 0 <= i < |xs| ensures SameUpToKeyOrder(xs[i], xs[i]) {
        SameUpToKeyOrderReflexive(xs[i]);
      }
    case JObj(fs) =>
      forall i | 0 <= i < |fs|
        ensures var p := FindKey(fs, fs[i].0); p < |fs| && SameUpToKeyOrder(fs[p].1, fs[p].1)
      {
        var p := FindKey(fs, fs[i].0);
        FindKeyPresent(fs, fs[i].0);
        assert Keys(fs)[i] == fs[i].0;
        SameUpToKeyOrderReflexive(fs[p].1);
      }
    case _ =>
  }

  lemma {:induction false} DistinctCount(s: seq<string>, x: string)
    requires forall i, j :: 0 <= i < j < |s| ==> s[i] != s[j]
    ensures multiset(s)[x] == if x in s then 1 else 0
  {
    if |s| > 0 {
      assert s == [s[0]] + s[1..];
      DistinctCount(s[1..], x);
    }
  }

  /** The same entries inserted in another order: the canonical text of the
      object does not change. */
  lemma CanonicalFieldPermutation(fs: seq<(string, Json)>, gs: seq<(string, Json)>)
    requires DistinctKeys(fs) && DistinctKeys(gs)
    requires forall p :: p in fs <==> p in gs
    ensures Canonical(JObj(fs)) == Canonical(JObj(gs))
  {
    assert forall k :: k in Keys(fs) <==> k in Keys(gs) by {
      forall k ensures k in Keys(fs) <==> k in Keys(gs) {
        if k in Keys(fs) {
          var i :| 0 <= i < |fs| && Keys(fs)[i] == k;
          assert fs[i] in gs;
          var m :| 0 <= m < |gs| && gs[m] == fs[i];
          assert Keys(gs)[m] == k;
        }
        if k in Keys(gs) {
          var i :| 0 <= i < |gs| && Keys(gs)[i] == k;
          assert gs[i] in fs;
          var m :| 0 <= m < |fs| && fs[m] == gs[i];
          assert Keys(fs)[m] == k;
        }
      }
    }
    assert multiset(Keys(fs)) == multiset(Keys(gs)) by {
      forall k ensures multiset(Keys(fs))[k] == multiset(Keys(gs))[k] {
        DistinctCount(Keys(fs), k);
        DistinctCount(Keys(gs), k);
      }
    }
    forall i | 0 <= i < |fs|
      ensures var p, m := FindKey(fs, fs[i].0), FindKey(gs, fs[i].0);
        p < |fs| && m < |gs| && SameUpToKeyOrder(fs[p].1, gs[m].1)
    {
      assert fs[i] in gs;
      var m :| 0 <= m < |gs| && gs[m] == fs[i];
      var p := FindKey(fs, fs[i].0);
      var f := FindKey(gs, fs[i].0);
      FindKeyPresent(fs, fs[i].0);
      FindKeyPresent(gs, fs[i].0);
      assert Keys(fs)[i] == fs[i].0;
      assert Keys(gs)[m] == fs[i].0;
      assert p == i;
      assert f == m;
      SameUpToKeyOrderReflexive(fs[i].1);
    }
    CanonicalKeyOrder(JObj(fs), JObj(gs));
  }

  /* ---------------------------------------------------------------------
     The `seen` set: objects in memory
     --------------------------------------------------------------------- */

  /** A JSON value as the serialiser meets it in memory, with the identity of
      every array and object. One id at two places is one object reached
      twice (a shared reference). `Again(id)` is an edge back to an object
      that encloses it, whose contents are written out at the enclosing
      place (a cycle). Leaves are primitives. */
  datatype Node =
    | Leaf(v: Json)
    | NArr(id: nat, items: seq<Node>)
    | NObj(id: nat, fields: seq<(string, Node)>)
    | Again(id: nat)

  /** The JSON value a node denotes, identities forgotten. */
  function Erase(n: Node): Json {
    match n
    case Leaf(v) => v
    case NArr(_, items) => JArr(seq(|items|, i requires 0 <= i < |items| => Erase(items[i])))
    case NObj(_, fs) => JObj(seq(|fs|, i requires 0 <= i < |fs| => (fs[i].0, Erase(fs[i].1))))
    case Again(_) => JNull
  }

  /** The walk of the inner `stringify`: `seen` grows at every array and
      object and is never cleared; meeting an object already in it throws
      (here `None`). */
  function Walk(n: Node, seen: set<nat>): Option<(string, set<nat>)>
    decreases n, 1, 0
  {
    match n
    case Leaf(v) => Some((Canonical(v), seen))
    case Again(_) => None
    case NArr(id, _) =>
      if id in seen then None
      else
        (match WalkItems(n, 0, seen + {id})
         case None => None
         case Some((parts, s)) => Some(("[" + Join(parts, ",") + "]", s)))
    case NObj(id, _) =>
      if id in seen then None
      else
        (match WalkFields(n, 0, seen + {id})
         case None => None
         case Some((parts, s)) => Some(("{" + Join(parts, ",") + "}", s)))
  }

  function WalkItems(parent: Node, i: nat, seen: set<nat>): Option<(seq<string>, set<nat>)>
    requires parent.NArr? && i <= |parent.items|
    decreases parent, 0, |parent.items| - i
  {
    if i == |parent.items| then Some(([], seen))
    else
      var head := Walk(parent.items[i], seen);
      if head.None? then None
      else
        var tail := WalkItems(parent, i + 1, head.value.1);
        if tail.None? then None else Some(([head.value.0] + tail.value.0, tail.value.1))
  }

  function WalkFields(parent: Node, i: nat, seen: set<nat>): Option<(seq<string>, set<nat>)>
    requires parent.NObj? && i <= |parent.fields|
    decreases parent, 0, |parent.fields| - i
  {
    var es := SortedEntries(parent.fields);
    if i == |es| then Some(([], seen))
    else
      var head := Walk(es[i].1, seen);
      if head.None? then None
      else
        var tail := WalkFields(parent, i + 1, head.value.1);
        if tail.None? then None
        else Some(([Quote(es[i].0) + ":" + head.value.0] + tail.value.0, tail.value.1))
  }

  const Circular: string := "\"[CIRCULAR]\""

  /** `canonicalStringify`: the walk's text, or the quoted marker when the
      walk met an object twice. */
  function CanonicalStringify(n: Node): string {
    match Walk(n, {})
    case Some((t, _)) => t
    case None => Circular
  }

  /** The ids of arrays and objects in the order the walk meets them. */
  function Ids(n: Node): seq<nat>
    decreases n, 1, 0
  {
    match n
    case NArr(id, _) => [id] + IdsItems(n, 0)
    case NObj(id, _) => [id] + IdsFields(n, 0)
    case _ => []
  }

  function IdsItems(parent: Node, i: nat): seq<nat>
    requires parent.NArr? && i <= |parent.items|
    decreases parent, 0, |parent.items| - i
  {
    if i == |parent.items| then [] else Ids(parent.items[i]) + IdsItems(parent, i + 1)
  }

  function IdsFields(parent: Node, i: nat): seq<nat>
    requires parent.NObj? && i <= |parent.fields|
    decreases parent, 0, |parent.fields| - i
  {
    var es := SortedEntries(parent.fields);
    if i == |es| then [] else Ids(es[i].1) + IdsFields(parent, i + 1)
  }

  /** No back edge among the values the walk visits. */
  predicate Acyclic(n: Node) {
    match n
    case Again(_) => false
    case Leaf(_) => true
    case NArr(_, items) => forall i :: 0 <= i < |items| ==> Acyclic(items[i])
    case NObj(_, fs) =>
      var es := SortedEntries(fs);
      forall i :: 0 <= i < |es| ==> Acyclic(es[i].1)
  }

  function Elems(s: seq<nat>): set<nat> {
    set i | 0 <= i < |s| :: s[i]
  }

  /** No id repeats and none is in `seen`. */
  predicate Fresh(ids: seq<nat>, seen: set<nat>) {
    (forall i, j :: 0 <= i < j < |ids| ==> ids[i] != ids[j])
    && forall i :: 0 <= i < |ids| ==> ids[i] !in seen
  }

  lemma FreshAppend(a: seq<nat>, b: seq<nat>, seen: set<nat>)
    ensures Fresh(a + b, seen) <==> Fresh(a, seen) && Fresh(b, seen + Elems(a))
    ensures Elems(a + b) == Elems(a) + Elems(b)
  {
    var ab := a + b;
    assert forall i :: 0 <= i < |a| ==> ab[i] == a[i];
    assert forall j :: 0 <= j < |b| ==> ab[|a| + j] == b[j];
    if Fresh(a, seen) && Fresh(b, seen + Elems(a)) {
      forall i, j | 0 <= i < j < |ab| ensures ab[i] != ab[j] {
        if j >= |a| && i < |a| {
          assert ab[i] in Elems(a);
        }
      }
    }
    assert Elems(ab) == Elems(a) + Elems(b) by {
      forall x | x in Elems(a) + Elems(b) ensures x in Elems(ab) {
        if x in Elems(a) {
          var i :| 0 <= i < |a| && a[i] == x;
          assert ab[i] == x;
        } else {
          var j :| 0 <= j < |b| && b[j] == x;
          assert ab[|a| + j] == x;
        }
      }
    }
  }

  lemma SortedEntriesErase(n: Node)
    requires n.NObj?
    ensures |SortedEntries(Erase(n).fields)| == |SortedEntries(n.fields)|
    ensures forall j :: 0 <= j < |SortedEntries(n.fields)| ==>
      SortedEntries(Erase(n).fields)[j]
        == (SortedEntries(n.fields)[j].0, Erase(SortedEntries(n.fields)[j].1))
  {
    var fs := n.fields;
    var gs := Erase(n).fields;
    assert Keys(gs) == Keys(fs);
    var es := SortedEntries(fs);
    var eg := SortedEntries(gs);
    SortedEntriesOrder(fs);
    SortedEntriesOrder(gs);
    forall j | 0 <= j < |es| ensures eg[j] == (es[j].0, Erase(es[j].1)) {
      var k := es[j].0;
      assert eg[j].0 == Keys(eg)[j] == Keys(es)[j] == k;
      FindKeySameKeys(gs, fs, k);
    }
  }

  /** The walk succeeds exactly when the value is acyclic and no object is
      met twice; it then writes the canonical text of the value it denotes
      and has added exactly the ids it met to `seen`. */
  lemma {:induction false} WalkSpec(n: Node, seen: set<nat>)
    ensures Walk(n, seen).Some? <==> Acyclic(n) && Fresh(Ids(n), seen)
    ensures Walk(n, seen).Some? ==>
      Walk(n, seen).value == (Canonical(Erase(n)), seen + Elems(Ids(n)))
    decreases n, 2, 0
  {
    match n
    case Leaf(v) =>
      assert Ids(n) == [] && Erase(n) == v;
      assert Elems(Ids(n)) == {};
      assert Walk(n, seen) == Some((Canonical(v), seen));
      assert seen + Elems(Ids(n)) == seen;
      assert Canonical(Erase(n)) == Canonical(v);
    case Again(_) =>
    case NArr(_, _) => WalkArraySpec(n, seen);
    case NObj(_, _) => WalkObjectSpec(n, seen);
  }

  lemma {:induction false} WalkArraySpec(n: Node, seen: set<nat>)
    requires n.NArr?
    ensures Walk(n, seen).Some? <==> Acyclic(n) && Fresh(Ids(n), seen)
    ensures Walk(n, seen).Some? ==>
      Walk(n, seen).value == (Canonical(Erase(n)), seen + Elems(Ids(n)))
    decreases n, 1, 0
  {
    var id := n.id;
    FreshAppend([id], IdsItems(n, 0), seen);
    assert Elems([id]) == {id} by { assert [id][0] == id; }
    assert Ids(n) == [id] + IdsItems(n, 0);
    assert Acyclic(n) <==> AcyclicItems(n, 0);
    if id in seen {
      assert Walk(n, seen).None?;
      assert !Fresh(Ids(n), seen) by { assert Ids(n)[0] == id; }
    } else {
      WalkItemsSpec(n, 0, seen + {id});
      var w := WalkItems(n, 0, seen + {id});
      if w.None? {
        assert Walk(n, seen).None?;
        assert !(AcyclicItems(n, 0) && Fresh(IdsItems(n, 0), seen + {id}));
      } else {
        assert Walk(n, seen) == Some(("[" + Join(w.value.0, ",") + "]", w.value.1));
        assert CanonItems(n, 0) == ElementTexts(Erase(n));
        assert Elems(Ids(n)) == {id} + Elems(IdsItems(n, 0));
        assert Walk(n, seen).value.0 == Canonical(Erase(n));
        assert Walk(n, seen).value.1 == seen + Elems(Ids(n));
      }
    }
  }

  lemma {:induction false} WalkObjectSpec(n: Node, seen: set<nat>)
    requires n.NObj?
    ensures Walk(n, seen).Some? <==> Acyclic(n) && Fresh(Ids(n), seen)
    ensures Walk(n, seen).Some? ==>
      Walk(n, seen).value == (Canonical(Erase(n)), seen + Elems(Ids(n)))
    decreases n, 1, 0
  {
    ObjectIds(n, seen);
    ObjectWalk(n, seen);
    if n.id !in seen {
      WalkFieldsSpec(n, 0, seen + {n.id});
      var w := WalkFields(n, 0, seen + {n.id});
      if w.Some? {
        assert w.value == (MemberTexts(Erase(n)), seen + {n.id} + Elems(IdsFields(n, 0)));
        assert Walk(n, seen).value.0 == Canonical(Erase(n));
        assert seen + {n.id} + Elems(IdsFields(n, 0)) == seen + Elems(Ids(n));
      }
    }
  }

  /** An object's ids are its own followed by its members'. */
  lemma ObjectIds(n: Node, seen: set<nat>)
    requires n.NObj?
    ensures Fresh(Ids(n), seen) <==> n.id !in seen && Fresh(IdsFields(n, 0), seen + {n.id})
    ensures Elems(Ids(n)) == {n.id} + Elems(IdsFields(n, 0))
    ensures Acyclic(n) <==> AcyclicFields(n, 0)
  {
    var id := n.id;
    FreshAppend([id], IdsFields(n, 0), seen);
    assert Elems([id]) == {id} by { assert [id][0] == id; }
    assert Ids(n) == [id] + IdsFields(n, 0);
  }

  /** A walk of an object not yet seen is the walk of its members, in braces. */
  lemma ObjectWalk(n: Node, seen: set<nat>)
    requires n.NObj?
    ensures n.id in seen ==> Walk(n, seen).None?
    ensures var w := if n.id in seen then None else WalkFields(n, 0, seen + {n.id});
      (Walk(n, seen).Some? <==> w.Some?)
      && (w.Some? ==> Walk(n, seen).value == ("{" + Join(w.value.0, ",") + "}", w.value.1))
    ensures CanonFields(n, 0) == MemberTexts(Erase(n))
    ensures Canonical(Erase(n)) == "{" + Join(MemberTexts(Erase(n)), ",") + "}"
  {
  }

  predicate AcyclicItems(parent: Node, i: nat)
    requires parent.NArr? && i <= |parent.items|
  {
    forall j :: i <= j < |parent.items| ==> Acyclic(parent.items[j])
  }

  predicate AcyclicFields(parent: Node, i: nat)
    requires parent.NObj? && i <= |parent.fields|
  {
    var es := SortedEntries(parent.fields);
    forall j :: i <= j < |es| ==> Acyclic(es[j].1)
  }

  /** The canonical texts of the elements from position `i` on. */
  function CanonItems(parent: Node, i: nat): (r: seq<string>)
    requires parent.NArr? && i <= |parent.items|
    ensures |r| == |parent.items| - i
  {
    ElementTexts(Erase(parent))[i..]
  }

  /** The members' texts, in sorted-key order, from position `i` on. */
  function CanonFields(parent: Node, i: nat): (r: seq<string>)
    requires parent.NObj? && i <= |parent.fields|
    ensures |r| == |parent.fields| - i
  {
    MemberTexts(Erase(parent))[i..]
  }

  lemma CanonItemsStep(parent: Node, i: nat)
    requires parent.NArr? && i < |parent.items|
    ensures CanonItems(parent, i) == [Canonical(Erase(parent.items[i]))] + CanonItems(parent, i + 1)
  {
    var t := ElementTexts(Erase(parent));
    assert t[i..] == [t[i]] + t[i + 1..];
  }

  lemma CanonFieldsStep(parent: Node, i: nat)
    requires parent.NObj? && i < |parent.fields|
    ensures var e := SortedEntries(parent.fields)[i];
      CanonFields(parent, i) == [Quote(e.0) + ":" + Canonical(Erase(e.1))] + CanonFields(parent, i + 1)
  {
    MemberTextErased(parent, i);
    SliceHead(MemberTexts(Erase(parent)), i);
  }

  lemma SliceHead(t: seq<string>, i: nat)
    requires i < |t|
    ensures t[i..] == [t[i]] + t[i + 1..]
  {
  }

  /** The `i`-th member text of the erased object, from the `i`-th sorted entry. */
  lemma MemberTextErased(parent: Node, i: nat)
    requires parent.NObj? && i < |parent.fields|
    ensures var e := SortedEntries(parent.fields)[i];
      MemberTexts(Erase(parent))[i] == Quote(e.0) + ":" + Canonical(Erase(e.1))
  {
    var e := SortedEntries(parent.fields)[i];
    SortedEntriesErase(parent);
    assert SortedEntries(Erase(parent).fields)[i] == (e.0, Erase(e.1));
  }

  lemma {:induction false} WalkItemsSpec(parent: Node, i: nat, seen: set<nat>)
    requires parent.NArr? && i <= |parent.items|
    ensures WalkItems(parent, i, seen).Some? <==>
      AcyclicItems(parent, i) && Fresh(IdsItems(parent, i), seen)
    ensures WalkItems(parent, i, seen).Some? ==>
      WalkItems(parent, i, seen).value == (CanonItems(parent, i), seen + Elems(IdsItems(parent, i)))
    decreases parent, 0, |parent.items| - i
  {
    if i < |parent.items| {
      var x := parent.items[i];
      var rest := IdsItems(parent, i + 1);
      assert IdsItems(parent, i) == Ids(x) + rest;
      assert AcyclicItems(parent, i) <==> Acyclic(x) && AcyclicItems(parent, i + 1);
      WalkSpec(x, seen);
      FreshAppend(Ids(x), rest, seen);
      var head := Walk(x, seen);
      if head.None? {
        assert WalkItems(parent, i, seen).None?;
      } else {
        var s1 := head.value.1;
        WalkItemsSpec(parent, i + 1, s1);
        var tail := WalkItems(parent, i + 1, s1);
        if tail.None? {
          assert WalkItems(parent, i, seen).None?;
          assert s1 == seen + Elems(Ids(x));
          assert !(AcyclicItems(parent, i + 1) && Fresh(rest, s1));
          assert !(AcyclicItems(parent, i) && Fresh(IdsItems(parent, i), seen));
        } else {
          assert WalkItems(parent, i, seen) == Some(([head.value.0] + tail.value.0, tail.value.1));
          assert head.value.0 == Canonical(Erase(x));
          CanonItemsStep(parent, i);
          assert tail.value.1 == seen + Elems(Ids(x)) + Elems(rest);
          assert Elems(IdsItems(parent, i)) == Elems(Ids(x)) + Elems(rest);
          assert tail.value.1 == seen + Elems(IdsItems(parent, i));
        }
      }
    } else {
      assert IdsItems(parent, i) == [];
      assert Elems(IdsItems(parent, i)) == {};
      assert CanonItems(parent, i) == [];
      assert WalkItems(parent, i, seen) == Some(([], seen));
      assert Fresh([], seen);
      assert AcyclicItems(parent, i);
      assert seen + Elems(IdsItems(parent, i)) == seen;
    }
  }

  lemma {:induction false} WalkFieldsSpec(parent: Node, i: nat, seen: set<nat>)
    requires parent.NObj? && i <= |parent.fields|
    ensures WalkFields(parent, i, seen).Some? <==>
      AcyclicFields(parent, i) && Fresh(IdsFields(parent, i), seen)
    ensures WalkFields(parent, i, seen).Some? ==>
      WalkFields(parent, i, seen).value == (CanonFields(parent, i), seen + Elems(IdsFields(parent, i)))
    decreases parent, 0, |parent.fields| - i
  {
    if i < |parent.fields| {
      var x := SortedEntries(parent.fields)[i].1;
      WalkSpec(x, seen);
      var head := Walk(x, seen);
      if head.Some? {
        WalkFieldsSpec(parent, i + 1, head.value.1);
      }
      WalkFieldsStep(parent, i, seen);
    } else {
      assert IdsFields(parent, i) == [];
      assert Elems(IdsFields(parent, i)) == {};
      assert CanonFields(parent, i) == [];
      assert WalkFields(parent, i, seen) == Some(([], seen));
      assert Fresh([], seen);
      assert AcyclicFields(parent, i);
      assert seen + Elems(IdsFields(parent, i)) == seen;
    }
  }

  /** The step of the walk over an object's members, given what the walk
      of the `i`-th value and of the members after it do. */
  lemma WalkFieldsStep(parent: Node, i: nat, seen: set<nat>)
    requires parent.NObj? && i < |parent.fields|
    requires var x := SortedEntries(parent.fields)[i].1;
      (Walk(x, seen).Some? <==> Acyclic(x) && Fresh(Ids(x), seen))
      && (Walk(x, seen).Some? ==> Walk(x, seen).value == (Canonical(Erase(x)), seen + Elems(Ids(x))))
    requires var x := SortedEntries(parent.fields)[i].1;
      var s1 := seen + Elems(Ids(x));
      Walk(x, seen).Some? ==>
        (WalkFields(parent, i + 1, s1).Some? <==>
           AcyclicFields(parent, i + 1) && Fresh(IdsFields(parent, i + 1), s1))
        && (WalkFields(parent, i + 1, s1).Some? ==>
           WalkFields(parent, i + 1, s1).value
             == (CanonFields(parent, i + 1), s1 + Elems(IdsFields(parent, i + 1))))
    ensures WalkFields(parent, i, seen).Some? <==>
      AcyclicFields(parent, i) && Fresh(IdsFields(parent, i), seen)
    ensures WalkFields(parent, i, seen).Some? ==>
      WalkFields(parent, i, seen).value == (CanonFields(parent, i), seen + Elems(IdsFields(parent, i)))
  {
    var x := SortedEntries(parent.fields)[i].1;
    var rest := IdsFields(parent, i + 1);
    assert IdsFields(parent, i) == Ids(x) + rest;
    assert AcyclicFields(parent, i) <==> Acyclic(x) && AcyclicFields(parent, i + 1);
    FreshAppend(Ids(x), rest, seen);
    if Walk(x, seen).None? {
      assert WalkFields(parent, i, seen).None?;
    } else {
      var s1 := seen + Elems(Ids(x));
      if WalkFields(parent, i + 1, s1).None? {
        assert WalkFields(parent, i, seen).None?;
      } else {
        WalkFieldsCons(parent, i, seen);
      }
    }
  }

  /** One member walked successfully, then the rest: the texts and the ids
      concatenate. */
  lemma WalkFieldsCons(parent: Node, i: nat, seen: set<nat>)
    requires parent.NObj? && i < |parent.fields|
    requires var x := SortedEntries(parent.fields)[i].1;
      Walk(x, seen) == Some((Canonical(Erase(x)), seen + Elems(Ids(x))))
    requires var x := SortedEntries(parent.fields)[i].1;
      var s1 := seen + Elems(Ids(x));
      WalkFields(parent, i + 1, s1) == Some((CanonFields(parent, i + 1), s1 + Elems(IdsFields(parent, i + 1))))
    ensures WalkFields(parent, i, seen) == Some((CanonFields(parent, i), seen + Elems(IdsFields(parent, i))))
  {
    var e := SortedEntries(parent.fields)[i];
    var x := e.1;
    var s1 := seen + Elems(Ids(x));
    var rest := IdsFields(parent, i + 1);
    assert Walk(x, seen).value == (Canonical(Erase(x)), s1);
    assert WalkFields(parent, i, seen)
      == Some(([Quote(e.0) + ":" + Canonical(Erase(x))] + CanonFields(parent, i + 1), s1 + Elems(rest)));
    assert IdsFields(parent, i) == Ids(x) + rest;
    FreshAppend(Ids(x), rest, seen);
    CanonFieldsStep(parent, i);
    assert [Quote(e.0) + ":" + Canonical(Erase(x))] + CanonFields(parent, i + 1) == CanonFields(parent, i);
    assert Elems(IdsFields(parent, i)) == Elems(Ids(x)) + Elems(rest);
    assert s1 + Elems(rest) == seen + Elems(IdsFields(parent, i));
  }

  /** `canonicalStringify` writes the canonical text of any value in which no
      object is reached twice, and the quoted `[CIRCULAR]` marker for every
      other value: cycles and acyclic shared references alike. */
  lemma CanonicalStringifySpec(n: Node)
    ensures CanonicalStringify(n)
      == if Acyclic(n) && Fresh(Ids(n), {}) then Canonical(Erase(n)) else Circular
  {
    WalkSpec(n, {});
  }

  /* ---------------------------------------------------------------------
     Hexadecimal digests
     --------------------------------------------------------------------- */

  type Byte = b: nat | b < 256

  /** `Buffer.from(h, 'hex')`: digit pairs are read from the left until the
      first pair that is not two hexadecimal digits; a lone last digit is
      dropped. It never fails. */
  function HexDecode(h: string): (r: seq<Byte>)
    ensures |r| <= |h| / 2
    decreases |h|
  {
    if |h| >= 2 && IsHexDigit(h[0]) && IsHexDigit(h[1]) then
      [16 * HexValue(h[0]) + HexValue(h[1])] + HexDecode(h[2..])
    else []
  }

  /** `digest('hex')`: two lower-case digits per byte. */
  function HexEncode(bs: seq<Byte>): (r: string)
    ensures |r| == 2 * |bs|
    ensures forall i :: 0 <= i < |r| ==> IsHexDigit(r[i])
  {
    if |bs| == 0 then ""
    else [HexChar(bs[0] / 16), HexChar(bs[0] % 16)] + HexEncode(bs[1..])
  }

  /** Decoding an encoded digest gives its bytes back. */
  lemma {:induction false} HexRoundTrip(bs: seq<Byte>)
    ensures HexDecode(HexEncode(bs)) == bs
  {
    if |bs| > 0 {
      var h := HexEncode(bs);
      assert h[2..] == HexEncode(bs[1..]);
      HexRoundTrip(bs[1..]);
      assert 16 * HexValue(h[0]) + HexValue(h[1]) == bs[0];
      assert bs == [bs[0]] + bs[1..];
    }
  }

  /** Whatever follows a complete digest is read only if it starts with two
      more hexadecimal digits: text after it that does not is ignored. */
  lemma {:induction false} HexDecodeSuffix(bs: seq<Byte>, g: string)
    ensures HexDecode(HexEncode(bs) + g) == bs + HexDecode(g)
  {
    if |bs| == 0 {
      assert HexEncode(bs) + g == g;
    } else {
      var h := HexEncode(bs);
      assert (h + g)[2..] == HexEncode(bs[1..]) + g;
      HexDecodeSuffix(bs[1..], g);
      assert 16 * HexValue(h[0]) + HexValue(h[1]) == bs[0];
      assert bs + HexDecode(g) == [bs[0]] + (bs[1..] + HexDecode(g));
    }
  }

  /** Upper-case digits decode to the same bytes as lower-case ones. */
  lemma {:induction false} HexDecodeUpper(h: string)
    ensures HexDecode(Upper(h)) == HexDecode(h)
    decreases |h|
  {
    var u := Upper(h);
    if |h| >= 2 {
      assert u[2..] == Upper(h[2..]);
      HexDecodeUpper(h[2..]);
    }
  }

  /** The number of positions at which two equally long byte strings
      differ; like `crypto.timingSafeEqual` it looks at every position. */
  function Mismatches(a: seq<Byte>, b: seq<Byte>): nat
    requires |a| == |b|
  {
    if |a| == 0 then 0 else (if a[0] != b[0] then 1 else 0) + Mismatches(a[1..], b[1..])
  }

  lemma {:induction false} MismatchesZero(a: seq<Byte>, b: seq<Byte>)
    requires |a| == |b|
    ensures Mismatches(a, b) == 0 <==> a == b
  {
    if |a| > 0 {
      MismatchesZero(a[1..], b[1..]);
      assert a == [a[0]] + a[1..] && b == [b[0]] + b[1..];
    }
  }

  /** `timingSafeEqualHex`: decoded lengths must agree, then every byte
      position is compared. */
  function TimingSafeEqualHex(aHex: string, bHex: string): (r: bool)
    ensures |HexDecode(aHex)| != |HexDecode(bHex)| ==> !r
    ensures r <==> HexDecode(aHex) == HexDecode(bHex)
  {
    var a := HexDecode(aHex);
    var b := HexDecode(bHex);
    if |a| != |b| then false
    else
      MismatchesZero(a, b);
      Mismatches(a, b) == 0
  }

  /** The comparison is reflexive and symmetric. */
  lemma TimingSafeEqualHexSymmetric(a: string, b: string)
    ensures TimingSafeEqualHex(a, a)
    ensures TimingSafeEqualHex(a, b) == TimingSafeEqualHex(b, a)
  {
  }

  /** A digest matches exactly its own encoding, in either case, and two
      digests match exactly when they are the same bytes. */
  lemma DigestComparison(d: seq<Byte>, e: seq<Byte>)
    ensures TimingSafeEqualHex(HexEncode(d), HexEncode(e)) <==> d == e
    ensures TimingSafeEqualHex(Upper(HexEncode(d)), HexEncode(d))
  {
    HexRoundTrip(d);
    HexRoundTrip(e);
    HexDecodeUpper(HexEncode(d));
  }

  /* ---------------------------------------------------------------------
     Examples
     --------------------------------------------------------------------- */

  /** `{b: {c: 2}, a: 1}` is written with its keys sorted. */
  lemma CanonicalExample()
    ensures Canonical(JObj([("b", JObj([("c", JNum(2))])), ("a", JNum(1))]))
      == "{" + ("\"a\":1" + "," + "\"b\":{\"c\":2}") + "}"
  {
    ExampleMembers();
    TwoMembers(JObj([("b", JObj([("c", JNum(2))])), ("a", JNum(1))]), "\"a\":1", "\"b\":{\"c\":2}");
  }

  /** An object with two members is written as both, comma-separated, in braces. */
  lemma TwoMembers(j: Json, a: string, b: string)
    requires j.JObj? && MemberTexts(j) == [a, b]
    ensures Canonical(j) == "{" + (a + "," + b) + "}"
  {
    assert [a, b][1..] == [b];
    assert Join([a, b], ",") == a + "," + b;
  }

  /** The members of `{b: {c: 2}, a: 1}`, in key order. */
  lemma ExampleMembers()
    ensures MemberTexts(JObj([("b", JObj([("c", JNum(2))])), ("a", JNum(1))])) == ["\"a\":1", "\"b\":{\"c\":2}"]
  {
    var inner := JObj([("c", JNum(2))]);
    var fs := [("b", inner), ("a", JNum(1))];
    ExampleEntryA();
    ExampleEntryB();
    SortedExample(fs);
  }

  lemma ExampleEntryA()
    ensures EntryText(("a", JNum(1))) == "\"a\":1"
  {
    QuoteLetter('a');
    assert Canonical(JNum(1)) == "1";
  }

  lemma ExampleEntryB()
    ensures EntryText(("b", JObj([("c", JNum(2))]))) == "\"b\":{\"c\":2}"
  {
    SingleMember('c', 2);
    assert [DigitChar(2)] == "2";
    QuoteLetter('b');
  }

  lemma SortedExample(fs: seq<(string, Json)>)
    requires |fs| == 2 && fs[0].0 == "b" && fs[1].0 == "a"
    ensures SortedEntries(fs) == [fs[1], fs[0]]
  {
    assert Keys(fs) == ["b", "a"];
    SortBA();
    SortedEntriesOrder(fs);
    var es := SortedEntries(fs);
    assert es[0].0 == "a" && es[1].0 == "b" by { assert Keys(es) == ["a", "b"]; }
    assert FindKey(fs, "a") == 1 && FindKey(fs, "b") == 0;
  }

  lemma SortBA()
    ensures Sort(["b", "a"]) == ["a", "b"]
  {
    assert Sort(["a"]) == ["a"];
    assert ["b", "a"][1..] == ["a"];
    assert !Le("b", "a");
  }

  /** An object with one member, a one-letter key and a number. */
  lemma SingleMember(c: char, v: nat)
    requires 'a' <= c <= 'z' && v < 10
    ensures Canonical(JObj([([c], JNum(v))])) == "{\"" + [c] + "\":" + [DigitChar(v)] + "}"
  {
    var j := JObj([([c], JNum(v))]);
    QuoteLetter(c);
    assert Canonical(JNum(v)) == [DigitChar(v)];
    assert Sort([[c]]) == [[c]];
    assert Keys(j.fields) == [[c]];
    assert SortedEntries(j.fields) == [([c], JNum(v))];
    assert MemberTexts(j) == [EntryText(([c], JNum(v)))];
  }

  /** A one-letter key is quoted as it stands. */
  lemma QuoteLetter(c: char)
    requires 'a' <= c <= 'z'
    ensures Quote([c]) == ['"', c, '"']
  {
    assert Escape([c]) == EscapeChar(c) + Escape([]);
  }

  /** One object reached twice, without any cycle, collapses the whole
      value to the marker. */
  lemma SharedReferenceExample()
    ensures CanonicalStringify(NObj(0, [("x", NObj(1, [])), ("y", NObj(1, []))])) == Circular
  {
    CanonicalStringifySpec(NObj(0, [("x", NObj(1, [])), ("y", NObj(1, []))]));
    SharedReferenceRepeats();
  }

  /** The walk meets the shared object twice. */
  lemma SharedReferenceRepeats()
    ensures !Fresh(Ids(NObj(0, [("x", NObj(1, [])), ("y", NObj(1, []))])), {})
  {
    var leaf := NObj(1, []);
    var n := NObj(0, [("x", leaf), ("y", leaf)]);
    var es := SortedEntries(n.fields);
    assert es[0].1 == leaf && es[1].1 == leaf;
    assert Ids(leaf) == [1] by { assert IdsFields(leaf, 0) == []; }
    assert IdsFields(n, 2) == [];
    assert IdsFields(n, 1) == [1];
    assert IdsFields(n, 0) == [1, 1];
    assert Ids(n) == [0, 1, 1];
    assert !Fresh(Ids(n), {}) by { assert Ids(n)[1] == Ids(n)[2]; }
  }

  /** An object that contains itself collapses to the marker. */
  lemma CycleExample()
    ensures CanonicalStringify(NObj(0, [("self", Again(0))])) == Circular
  {
    var n := NObj(0, [("self", Again(0))]);
    CanonicalStringifySpec(n);
    assert SortedEntries(n.fields) == [("self", Again(0))];
    assert !Acyclic(n);
  }
}
