/** JSON values as the service sees them after `JSON.parse` or before
    `JSON.stringify`: objects keep their insertion order, numbers are
    integers. Also JavaScript's truthiness and `String(x)` on such values,
    and the string quoting `JSON.stringify` performs. */
module Json {
  import opened Options
  import opened Text

  datatype Json =
    | JNull
    | JBool(b: bool)
    | JNum(n: int)
    | JStr(s: string)
    | JArr(items: seq<Json>)
    | JObj(fields: seq<(string, Json)>)

  predicate IsPrimitive(j: Json) {
    !j.JArr? && !j.JObj?
  }

  /** `Object.keys` of an object given by its fields. */
  function Keys<T>(fs: seq<(string, T)>): (ks: seq<string>)
    ensures |ks| == |fs|
    ensures forall i :: 0 <= i < |fs| ==> ks[i] == fs[i].0
  {
    seq(|fs|, i requires 0 <= i < |fs| => fs[i].0)
  }

  /** Position of key `k`, or `|fs|` when the object has no such key. */
  function FindKey<T>(fs: seq<(string, T)>, k: string): (i: nat)
    ensures i <= |fs|
    ensures i < |fs| ==> fs[i].0 == k
    ensures forall m :: 0 <= m < i ==> fs[m].0 != k
  {
    if |fs| == 0 then 0 else if fs[0].0 == k then 0 else 1 + FindKey(fs[1..], k)
  }

  lemma FindKeyPresent<T>(fs: seq<(string, T)>, k: string)
    ensures FindKey(fs, k) < |fs| <==> k in Keys(fs)
  {
    var i := FindKey(fs, k);
    if k in Keys(fs) {
      var m :| 0 <= m < |fs| && Keys(fs)[m] == k;
      assert fs[m].0 == k;
    }
  }

  /** Objects with the same key list find every key at the same position. */
  lemma {:induction false} FindKeySameKeys<A, B>(a: seq<(string, A)>, b: seq<(string, B)>, k: string)
    requires Keys(a) == Keys(b)
    ensures FindKey(a, k) == FindKey(b, k)
    decreases |a|
  {
    if |a| > 0 {
      assert a[0].0 == Keys(a)[0] == Keys(b)[0] == b[0].0;
      assert Keys(a[1..]) == Keys(a)[1..] && Keys(b[1..]) == Keys(b)[1..];
      FindKeySameKeys(a[1..], b[1..], k);
    } else {
      assert |b| == |Keys(b)| == 0;
    }
  }

  /** No key occurs twice, as in every JavaScript object. */
  predicate DistinctKeys<T>(fs: seq<(string, T)>) {
    forall i, j :: 0 <= i < j < |fs| ==> fs[i].0 != fs[j].0
  }

  /** `obj[k]`, with `None` for `undefined`. */
  function Lookup(fs: seq<(string, Json)>, k: string): (r: Option<Json>)
    ensures r.Some? <==> k in Keys(fs)
    ensures r.Some? ==> (k, r.value) in fs
  {
    FindKeyPresent(fs, k);
    var i := FindKey(fs, k);
    if i < |fs| then Some(fs[i].1) else None
  }

  /** `v[k]` on any value: only objects have named properties here. */
  function Get(v: Json, k: string): (r: Option<Json>)
    ensures !v.JObj? ==> r.None?
  {
    if v.JObj? then Lookup(v.fields, k) else None
  }

  /** `obj[k] = v`: an existing key keeps its position, a new key goes last. */
  function Put(fs: seq<(string, Json)>, k: string, v: Json): (r: seq<(string, Json)>)
    ensures Lookup(r, k) == Some(v)
    ensures forall m :: m != k ==> Lookup(r, m) == Lookup(fs, m)
    ensures k in Keys(fs) ==> Keys(r) == Keys(fs)
    ensures k !in Keys(fs) ==> Keys(r) == Keys(fs) + [k]
    ensures DistinctKeys(fs) ==> DistinctKeys(r)
  {
    FindKeyPresent(fs, k);
    var i := FindKey(fs, k);
    if i < |fs| then
      PutReplace(fs, k, v);
      fs[i := (k, v)]
    else
      PutAppend(fs, k, v);
      fs + [(k, v)]
  }

  lemma PutReplace(fs: seq<(string, Json)>, k: string, v: Json)
    requires FindKey(fs, k) < |fs|
    ensures var r := fs[FindKey(fs, k) := (k, v)];
      Lookup(r, k) == Some(v)
      && (forall m :: m != k ==> Lookup(r, m) == Lookup(fs, m))
      && Keys(r) == Keys(fs)
      && (DistinctKeys(fs) ==> DistinctKeys(r))
  {
    var i := FindKey(fs, k);
    var r := fs[i := (k, v)];
    assert Keys(r) == Keys(fs);
    forall m | m != k ensures Lookup(r, m) == Lookup(fs, m) {
      FindKeyFrom(r, fs, m, i);
    }
    FindKeyFrom(r, fs, k, i);
  }

  lemma PutAppend(fs: seq<(string, Json)>, k: string, v: Json)
    requires FindKey(fs, k) == |fs|
    ensures var r := fs + [(k, v)];
      Lookup(r, k) == Some(v)
      && (forall m :: m != k ==> Lookup(r, m) == Lookup(fs, m))
      && Keys(r) == Keys(fs) + [k]
      && (DistinctKeys(fs) ==> DistinctKeys(r))
  {
    FindKeyPresent(fs, k);
    var r := fs + [(k, v)];
    assert Keys(r) == Keys(fs) + [k];
    FindKeyAppend(fs, k, v, k);
    forall m | m != k ensures Lookup(r, m) == Lookup(fs, m) {
      FindKeyAppend(fs, k, v, m);
    }
  }

  /** Changing one entry's value leaves every key's position as it was. */
  lemma {:induction false} FindKeyFrom<T>(r: seq<(string, T)>, fs: seq<(string, T)>, m: string, i: nat)
    requires |r| == |fs| && i < |fs|
    requires forall j :: 0 <= j < |fs| ==> r[j].0 == fs[j].0
    ensures FindKey(r, m) == FindKey(fs, m)
    decreases |fs|
  {
    if |fs| > 0 && fs[0].0 != m {
      if i > 0 {
        FindKeyFrom(r[1..], fs[1..], m, i - 1);
      } else if |fs| > 1 {
        FindKeyFrom(r[1..], fs[1..], m, 0);
      }
    }
  }

  lemma {:induction false} FindKeyAppend<T>(fs: seq<(string, T)>, k: string, v: T, m: string)
    requires k !in Keys(fs)
    ensures FindKey(fs + [(k, v)], m) ==
      if m == k then |fs| else if FindKey(fs, m) < |fs| then FindKey(fs, m) else |fs| + 1
    decreases |fs|
  {
    if |fs| > 0 {
      assert (fs + [(k, v)])[1..] == fs[1..] + [(k, v)];
      assert (fs + [(k, v)])[0] == fs[0];
      assert fs[0].0 == Keys(fs)[0];
      assert k !in Keys(fs[1..]) by {
        assert forall i :: 0 <= i < |fs[1..]| ==> Keys(fs[1..])[i] == Keys(fs)[i + 1];
      }
      FindKeyAppend(fs[1..], k, v, m);
    }
  }

  /** `delete obj[k]`: the other entries keep their order. */
  function Remove(fs: seq<(string, Json)>, k: string): (r: seq<(string, Json)>)
    ensures k !in Keys(r)
    ensures forall p :: p in r <==> p in fs && p.0 != k
    ensures |r| <= |fs|
  {
    if |fs| == 0 then []
    else if fs[0].0 == k then Remove(fs[1..], k)
    else [fs[0]] + Remove(fs[1..], k)
  }

  /** Looking a key up in an object given as its first entry and the rest. */
  lemma LookupCons(x: (string, Json), t: seq<(string, Json)>, m: string)
    ensures Lookup([x] + t, m) == if x.0 == m then Some(x.1) else Lookup(t, m)
  {
    var fs := [x] + t;
    assert fs[1..] == t;
    if x.0 != m {
      assert FindKey(fs, m) == 1 + FindKey(t, m);
    }
  }

  /** After `delete obj[k]` the key is gone and every other key reads as
      before. */
  lemma {:induction false} LookupRemove(fs: seq<(string, Json)>, k: string, m: string)
    ensures Lookup(Remove(fs, k), m) == if m == k then None else Lookup(fs, m)
    decreases |fs|
  {
    if |fs| > 0 {
      LookupRemove(fs[1..], k, m);
      assert fs == [fs[0]] + fs[1..];
      LookupCons(fs[0], fs[1..], m);
      if fs[0].0 != k {
        LookupCons(fs[0], Remove(fs[1..], k), m);
      }
    } else {
      assert Keys(Remove(fs, k)) == [];
    }
  }

  /** JavaScript truthiness; `undefined` is falsy. */
  predicate Truthy(o: Option<Json>) {
    match o
    case None => false
    case Some(JNull) => false
    case Some(JBool(b)) => b
    case Some(JNum(n)) => n != 0
    case Some(JStr(s)) => s != ""
    case Some(_) => true
  }

  /** `a || b` on possibly undefined values. */
  function Or(a: Option<Json>, b: Option<Json>): (r: Option<Json>)
    ensures Truthy(a) ==> r == a
    ensures !Truthy(a) ==> r == b
  {
    if Truthy(a) then a else b
  }

  /** `String(v)`: arrays join their elements' strings with commas (null
      elements give the empty string), objects give "[object Object]". */
  function ToStr(v: Json): string {
    match v
    case JNull => "null"
    case JBool(b) => if b then "true" else "false"
    case JNum(n) => IntToString(n)
    case JStr(s) => s
    case JArr(items) =>
      Join(seq(|items|, i requires 0 <= i < |items| =>
        if items[i].JNull? then "" else ToStr(items[i])), ",")
    case JObj(_) => "[object Object]"
  }

  /** `String(x)` where `undefined` prints as "undefined". */
  function OptToStr(o: Option<Json>): string {
    match o
    case None => "undefined"
    case Some(v) => ToStr(v)
  }

  /** How `JSON.stringify` writes one character inside a string literal. */
  function EscapeChar(c: char): (r: string)
    ensures |r| > 0
    ensures c != '"' && c != '\\' && c as int >= 0x20 ==> r == [c]
  {
    if c == '"' then "\\\""
    else if c == '\\' then "\\\\"
    else if c == '\U{0008}' then "\\b"
    else if c == '\U{000C}' then "\\f"
    else if c == '\n' then "\\n"
    else if c == '\r' then "\\r"
    else if c == '\t' then "\\t"
    else if c as int < 0x20 then "\\u00" + [HexChar(c as int / 16), HexChar(c as int % 16)]
    else [c]
  }

  function Escape(s: string): string {
    if |s| == 0 then "" else EscapeChar(s[0]) + Escape(s[1..])
  }

  /** `JSON.stringify(s)` for a string. */
  function Quote(s: string): string {
    "\"" + Escape(s) + "\""
  }

  /** Reads back the body of a JSON string literal: the inverse of `Escape`. */
  function Unescape(t: string): (r: Option<string>)
    decreases |t|
  {
    if |t| == 0 then Some("")
    else if t[0] != '\\' then Prepend(t[0], Unescape(t[1..]))
    else if |t| < 2 then None
    else if t[1] == 'u' then
      if |t| < 6 || !IsHexDigit(t[2]) || !IsHexDigit(t[3]) || !IsHexDigit(t[4]) || !IsHexDigit(t[5]) then None
      else
        var code := HexValue(t[2]) * 4096 + HexValue(t[3]) * 256 + HexValue(t[4]) * 16 + HexValue(t[5]);
        if 0xD800 <= code < 0xE000 then None else Prepend(code as char, Unescape(t[6..]))
    else
      var c := t[1];
      var d := if c == 'b' then '\U{0008}' else if c == 'f' then '\U{000C}' else if c == 'n' then '\n'
               else if c == 'r' then '\r' else if c == 't' then '\t' else c;
      if c in "\"\\/bfnrt" then Prepend(d, Unescape(t[2..])) else None
  }

  function Prepend(c: char, o: Option<string>): Option<string> {
    if o.Some? then Some([c] + o.value) else None
  }

  lemma EscapeCharUnescape(c: char, t: string)
    ensures Unescape(EscapeChar(c) + t) == Prepend(c, Unescape(t))
  {
    var e := EscapeChar(c) + t;
    if c as int < 0x20 && c != '\U{0008}' && c != '\U{000C}' && c != '\n' && c != '\r' && c != '\t' {
      var hi := HexChar(c as int / 16);
      var lo := HexChar(c as int % 16);
      assert e[2..6] == ['0', '0', hi, lo];
      assert e[6..] == t;
    } else if |EscapeChar(c)| == 2 {
      assert e[2..] == t;
    } else {
      assert e[1..] == t;
    }
  }

  /** Every string survives quoting: escaping loses nothing. */
  lemma {:induction false} EscapeRoundTrip(s: string)
    ensures Unescape(Escape(s)) == Some(s)
  {
    if |s| > 0 {
      EscapeCharUnescape(s[0], Escape(s[1..]));
      EscapeRoundTrip(s[1..]);
      assert [s[0]] + s[1..] == s;
    }
  }

  /** `Quote` is injective, so distinct keys are written distinctly. */
  lemma QuoteInjective(a: string, b: string)
    requires Quote(a) == Quote(b)
    ensures a == b
  {
    var qa := Quote(a);
    assert Escape(a) == qa[1..|qa| - 1];
    assert Escape(b) == qa[1..|qa| - 1];
    EscapeRoundTrip(a);
    EscapeRoundTrip(b);
  }

  /** `JSON.stringify(v)` for a primitive. */
  function PrimitiveText(v: Json): string
    requires IsPrimitive(v)
  {
    match v
    case JNull => "null"
    case JBool(b) => if b then "true" else "false"
    case JNum(n) => IntToString(n)
    case JStr(s) => Quote(s)
  }

  /** `JSON.stringify(v)` with keys in insertion order. */
  function Stringify(v: Json): string {
    match v
    case JArr(items) =>
      "[" + Join(seq(|items|, i requires 0 <= i < |items| => Stringify(items[i])), ",") + "]"
    case JObj(fs) =>
      "{" + Join(seq(|fs|, i requires 0 <= i < |fs| => Quote(fs[i].0) + ":" + Stringify(fs[i].1)), ",") + "}"
    case _ => PrimitiveText(v)
  }

  /** `Number(v)` when it is finite; `None` for NaN and the infinities.
      `toNumber` is `Number` on strings. Arrays and objects convert
      through `String(v)`. */
  function NumberOf(v: Option<Json>, toNumber: string -> Option<real>): (r: Option<real>)
    ensures v.Some? && v.value.JNum? ==> r == Some(v.value.n as real)
    ensures v.Some? && v.value.JStr? ==> r == toNumber(v.value.s)
    ensures v.None? ==> r.None?
  {
    match v
    case None => None
    case Some(JNull) => Some(0.0)
    case Some(JBool(b)) => Some(if b then 1.0 else 0.0)
    case Some(JNum(n)) => Some(n as real)
    case Some(JStr(s)) => toNumber(s)
    case Some(other) => toNumber(ToStr(other))
  }

  /** An object with the named properties, in the given order, valued by
      `f`; names `f` has no value for are left out. Object schemas and
      the controllers build their outputs this way. */
  function Build(f: string -> Option<Json>, names: seq<string>): seq<(string, Json)>
  {
    if |names| == 0 then []
    else
      var rest := Build(f, names[1..]);
      if f(names[0]).Some? then [(names[0], f(names[0]).value)] + rest else rest
  }

  /** A built object reads `f` on the named keys and has nothing else. */
  lemma {:induction false} BuildLookup(f: string -> Option<Json>, names: seq<string>, n: string)
    ensures Lookup(Build(f, names), n) == if n in names then f(n) else None
    decreases |names|
  {
    if |names| == 0 {
      assert Keys(Build(f, names)) == [];
    } else {
      BuildLookup(f, names[1..], n);
      assert n in names <==> n == names[0] || n in names[1..];
      if f(names[0]).Some? {
        LookupCons((names[0], f(names[0]).value), Build(f, names[1..]), n);
      }
    }
  }

  /** No name occurs twice. */
  predicate Distinct(names: seq<string>) {
    forall i, j :: 0 <= i < j < |names| ==> names[i] != names[j]
  }

  /** Distinct names build an object without repeated keys. */
  lemma {:induction false} BuildDistinct(f: string -> Option<Json>, names: seq<string>)
    requires Distinct(names)
    ensures DistinctKeys(Build(f, names))
    decreases |names|
  {
    if |names| > 0 {
      var rest := Build(f, names[1..]);
      assert Distinct(names[1..]);
      BuildDistinct(f, names[1..]);
      if f(names[0]).Some? {
        var b := [(names[0], f(names[0]).value)] + rest;
        forall j | 0 <= j < |rest| ensures rest[j].0 != names[0] {
          BuildLookup(f, names[1..], rest[j].0);
          FindKeyPresent(rest, rest[j].0);
          assert Keys(rest)[j] == rest[j].0;
          assert rest[j].0 in names[1..];
        }
        assert forall i, j :: 0 <= i < j < |b| ==> b[i].0 != b[j].0 by {
          forall i, j | 0 <= i < j < |b| ensures b[i].0 != b[j].0 {
            if i > 0 { assert b[i] == rest[i - 1] && b[j] == rest[j - 1]; } else { assert b[j] == rest[j - 1]; }
          }
        }
      }
    }
  }
}
