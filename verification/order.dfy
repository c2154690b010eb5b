/** The order `Array.prototype.sort()` puts string keys in when no comparator
    is given: the strings' UTF-16 code units compared one by one, a proper
    prefix first. Then an insertion sort under it, and the fact that a
    sorted arrangement of a multiset of keys is unique — so the sorted key
    list depends only on which keys an object has, not on the order they
    were inserted in. */
module KeyOrder {
  import opened Text

  /** Where a character falls among the first code units of characters:
      below U+D800 a character is its own unit; a character above U+FFFF
      starts with a high surrogate (U+D800 to U+DBFF), so it sorts after
      those and before the rest of the Basic Multilingual Plane. */
  function Rank(c: char): int {
    var n := c as int;
    if n < 0xD800 then n else if n < 0x10000 then n + 0x100000 else n - 0x10000 + 0xD800
  }

  /** `a` sorts no later than `b`. */
  predicate Le(a: string, b: string) {
    |a| == 0 || (|b| > 0 && (Rank(a[0]) < Rank(b[0]) || (a[0] == b[0] && Le(a[1..], b[1..]))))
  }

  /** The comparison `sort()` makes: code units in order, a proper prefix
      first. */
  predicate UnitsLe(a: seq<int>, b: seq<int>) {
    |a| == 0 || (|b| > 0 && (a[0] < b[0] || (a[0] == b[0] && UnitsLe(a[1..], b[1..]))))
  }

  /** `Le` is exactly the comparison of the keys' UTF-16 code units. */
  lemma {:induction false} LeIsUnitOrder(a: string, b: string)
    ensures Le(a, b) <==> UnitsLe(Utf16(a), Utf16(b))
    decreases |a|
  {
    if |a| > 0 && |b| > 0 {
      LeIsUnitOrder(a[1..], b[1..]);
      if a[0] == b[0] {
        CommonUnits(Units(a[0]), Utf16(a[1..]), Utf16(b[1..]));
      } else {
        FirstCharDecides(a[0], b[0], Utf16(a[1..]), Utf16(b[1..]));
      }
    } else if |a| > 0 {
      assert |Utf16(a)| > 0;
    }
  }

  /** A shared prefix of code units does not change the comparison. */
  lemma {:induction false} CommonUnits(p: seq<int>, x: seq<int>, y: seq<int>)
    ensures UnitsLe(p + x, p + y) <==> UnitsLe(x, y)
    decreases |p|
  {
    if |p| > 0 {
      assert (p + x)[1..] == p[1..] + x;
      assert (p + y)[1..] == p[1..] + y;
      CommonUnits(p[1..], x, y);
    } else {
      assert p + x == x && p + y == y;
    }
  }

  /** Two different characters are told apart within their own code
      units, in the order their ranks give. */
  lemma FirstCharDecides(c: char, d: char, x: seq<int>, y: seq<int>)
    requires c != d
    ensures UnitsLe(Units(c) + x, Units(d) + y) <==> Rank(c) < Rank(d)
  {
    var u, v := Units(c) + x, Units(d) + y;
    assert u[0] == Units(c)[0] && v[0] == Units(d)[0];
    var n, m := c as int, d as int;
    if n >= 0x10000 && m >= 0x10000 && Units(c)[0] == Units(d)[0] {
      assert u[1..][0] == Units(c)[1] && v[1..][0] == Units(d)[1];
      assert (n - 0x10000) / 0x400 == (m - 0x10000) / 0x400;
      assert Units(c)[1] != Units(d)[1];
    }
  }

  lemma {:induction false} LeTotal(a: string, b: string)
    ensures Le(a, b) || Le(b, a)
  {
    if |a| > 0 && |b| > 0 && a[0] == b[0] {
      LeTotal(a[1..], b[1..]);
    }
  }

  lemma {:induction false} LeAntisymmetric(a: string, b: string)
    requires Le(a, b) && Le(b, a)
    ensures a == b
  {
    if |a| > 0 && |b| > 0 {
      LeAntisymmetric(a[1..], b[1..]);
      assert a == [a[0]] + a[1..];
      assert b == [b[0]] + b[1..];
    }
  }

  lemma {:induction false} LeTransitive(a: string, b: string, c: string)
    requires Le(a, b) && Le(b, c)
    ensures Le(a, c)
  {
    if |a| > 0 && |b| > 0 && |c| > 0 && a[0] == b[0] && b[0] == c[0] {
      LeTransitive(a[1..], b[1..], c[1..]);
    }
  }

  lemma {:induction false} LeReflexive(a: string)
    ensures Le(a, a)
  {
    if |a| > 0 {
      LeReflexive(a[1..]);
    }
  }

  predicate Sorted(s: seq<string>) {
    forall i, j :: 0 <= i < j < |s| ==> Le(s[i], s[j])
  }

  function Insert(x: string, s: seq<string>): (r: seq<string>)
    requires Sorted(s)
    ensures multiset(r) == multiset(s) + multiset{x}
    ensures Sorted(r)
  {
    if |s| == 0 then [x]
    else if Le(x, s[0]) then
      forall j | 0 < j < |s| ensures Le(x, s[j]) {
        LeTransitive(x, s[0], s[j]);
      }
      PrependSorted(x, s);
      [x] + s
    else
      var t := Insert(x, s[1..]);
      assert s == [s[0]] + s[1..];
      forall j | 0 <= j < |t| ensures Le(s[0], t[j]) {
        assert t[j] in multiset(t);
        if t[j] == x {
          LeTotal(x, s[0]);
        } else {
          assert t[j] in s[1..];
        }
      }
      PrependSorted(s[0], t);
      [s[0]] + t
  }

  /** A key no later than every key of a sorted sequence may go in front. */
  lemma PrependSorted(x: string, t: seq<string>)
    requires Sorted(t)
    requires forall j :: 0 <= j < |t| ==> Le(x, t[j])
    ensures Sorted([x] + t)
  {
    var r := [x] + t;
    forall i, j | 0 <= i < j < |r| ensures Le(r[i], r[j]) {
      if i > 0 {
        assert r[i] == t[i - 1] && r[j] == t[j - 1];
      } else {
        assert r[j] == t[j - 1];
      }
    }
  }

  /** `keys.sort()`: an ordered rearrangement of the keys. */
  function Sort(s: seq<string>): (r: seq<string>)
    ensures multiset(r) == multiset(s)
    ensures |r| == |s|
    ensures Sorted(r)
  {
    if |s| == 0 then []
    else
      assert s == [s[0]] + s[1..];
      Insert(s[0], Sort(s[1..]))
  }

  /** The first element of a sorted sequence is no later than any element. */
  lemma HeadIsLeast(s: seq<string>, y: string)
    requires Sorted(s) && |s| > 0 && y in s
    ensures Le(s[0], y)
  {
    var j :| 0 <= j < |s| && s[j] == y;
    if j == 0 {
      LeReflexive(y);
    }
  }

  /** Two sorted arrangements of the same keys are the same sequence. */
  lemma {:induction false} SortedUnique(a: seq<string>, b: seq<string>)
    requires Sorted(a) && Sorted(b) && multiset(a) == multiset(b)
    ensures a == b
    decreases |a|
  {
    if |a| > 0 {
      assert |b| == |a| by {
        assert |multiset(a)| == |a| && |multiset(b)| == |b|;
      }
      assert a[0] in multiset(b);
      assert b[0] in multiset(a);
      HeadIsLeast(a, b[0]);
      HeadIsLeast(b, a[0]);
      LeAntisymmetric(a[0], b[0]);
      assert a == [a[0]] + a[1..];
      assert b == [b[0]] + b[1..];
      assert multiset(a) == multiset{a[0]} + multiset(a[1..]);
      assert multiset(b) == multiset{b[0]} + multiset(b[1..]);
      assert forall x :: multiset(a[1..])[x] == multiset(b[1..])[x] by {
        forall x ensures multiset(a[1..])[x] == multiset(b[1..])[x] {
          assert multiset(a)[x] == multiset{a[0]}[x] + multiset(a[1..])[x];
          assert multiset(b)[x] == multiset{b[0]}[x] + multiset(b[1..])[x];
        }
      }
      assert multiset(a[1..]) == multiset(b[1..]);
      SortedUnique(a[1..], b[1..]);
    } else {
      assert |multiset(b)| == 0;
    }
  }

  /** Sorting depends only on the multiset of keys. */
  lemma SortPermutationInvariant(a: seq<string>, b: seq<string>)
    requires multiset(a) == multiset(b)
    ensures Sort(a) == Sort(b)
  {
    SortedUnique(Sort(a), Sort(b));
  }

  /** U+1F600 is stored as the units D83D DE00 and U+FF01 as FF01, so
      `sort()` puts the emoji key first although its code point is larger. */
  lemma AstralBeforeHighPlane()
    ensures Le("\U{1F600}", "\U{FF01}") && !Le("\U{FF01}", "\U{1F600}")
  {
    assert Rank('\U{1F600}') < Rank('\U{FF01}');
  }
}
