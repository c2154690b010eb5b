/** `maskPII` of `src/lib/logger.ts`: what the logger does to a value
    before writing it. Strings go through four regular-expression
    replacements in turn (e-mail addresses, phone numbers, API tokens,
    `Bearer` credentials); the first two are parameters here, the last
    two are modelled. Objects lose the values of sensitive keys, and
    everything else is masked recursively. */
module Logger {
  import opened Options
  import opened Text
  import opened Json

  /** The token body class `[a-zA-Z0-9_-]`. */
  predicate IsTokenChar(c: char) {
    IsAsciiLetter(c) || IsDigit(c) || c == '_' || c == '-'
  }

  /** The credential class `[a-zA-Z0-9._-]`. */
  predicate IsCredentialChar(c: char) {
    IsTokenChar(c) || c == '.'
  }

  /** The length of the longest prefix of `s` whose characters satisfy
      `p`: what a greedy `[...]+` or `\s+` consumes. */
  function RunOf(s: string, p: char -> bool): (n: nat)
    ensures n <= |s|
    ensures forall i :: 0 <= i < n ==> p(s[i])
    ensures n < |s| ==> !p(s[n])
    decreases |s|
  {
    if |s| > 0 && p(s[0]) then 1 + RunOf(s[1..], p) else 0
  }

  /** `s` starts with the lower-case ASCII text `p`, in any case: the
      `i` flag on an ASCII pattern. */
  predicate StartsWithAnyCase(s: string, p: string) {
    |p| <= |s| && Lower(s[..|p|]) == p
  }

  const TokenPrefixes: seq<string> := ["tok_", "sk_", "pk_", "key_", "secret_", "api_"]

  /** The length of the token prefix `(tok_|sk_|pk_|key_|secret_|api_)`
      that `s` starts with, in any case, or 0. At most one of the
      alternatives can match at a position, so their order does not
      matter. */
  function TokenPrefixAt(s: string): (n: nat)
    ensures n <= |s|
    ensures n > 0 ==> exists k :: 0 <= k < |TokenPrefixes| && |TokenPrefixes[k]| == n && StartsWithAnyCase(s, TokenPrefixes[k])
    ensures n == 0 ==> forall k :: 0 <= k < |TokenPrefixes| ==> !StartsWithAnyCase(s, TokenPrefixes[k])
  {
    if StartsWithAnyCase(s, "tok_") then assert TokenPrefixes[0] == "tok_"; 4
    else if StartsWithAnyCase(s, "sk_") then assert TokenPrefixes[1] == "sk_"; 3
    else if StartsWithAnyCase(s, "pk_") then assert TokenPrefixes[2] == "pk_"; 3
    else if StartsWithAnyCase(s, "key_") then assert TokenPrefixes[3] == "key_"; 4
    else if StartsWithAnyCase(s, "secret_") then assert TokenPrefixes[4] == "secret_"; 7
    else if StartsWithAnyCase(s, "api_") then assert TokenPrefixes[5] == "api_"; 4
    else 0
  }

  /** The length of `Bearer\s+` at the start of `s`, in any case, or 0. */
  function BearerPrefixAt(s: string): (n: nat)
    ensures n <= |s|
    ensures n > 0 ==> StartsWithAnyCase(s, "bearer") && n > 6 && forall i :: 6 <= i < n ==> IsSpace(s[i])
    ensures n > 0 && n < |s| ==> !IsSpace(s[n])
    ensures StartsWithAnyCase(s, "bearer") && |s| > 6 && IsSpace(s[6]) ==> n > 0
  {
    if StartsWithAnyCase(s, "bearer") then
      var w := RunOf(s[6..], IsSpace);
      assert forall i :: 6 <= i < 6 + w ==> s[i] == s[6..][i - 6];
      if w > 0 then 6 + w else 0
    else 0
  }

  /** `s.replace(/(P)[B]+/g, '$1***')` for a prefix pattern `P`, given by
      `prefixAt`, and a body class `B`: scanning from the left, a prefix
      followed by at least one body character keeps the prefix and has
      the body replaced by `***`; scanning resumes after the body. */
  function MaskAfter(s: string, prefixAt: string -> nat, body: char -> bool): (r: string)
    decreases |s|
  {
    if |s| == 0 then ""
    else
      var p := prefixAt(s);
      var n := if 0 < p <= |s| then RunOf(s[p..], body) else 0;
      if n > 0 then s[..p] + "***" + MaskAfter(s[p + n..], prefixAt, body)
      else [s[0]] + MaskAfter(s[1..], prefixAt, body)
  }

  /** A prefix and a body are replaced as one match. */
  lemma MaskAfterMatch(pre: string, b: string, rest: string, prefixAt: string -> nat, body: char -> bool)
    requires prefixAt(pre + b + rest) == |pre| > 0
    requires |b| > 0 && forall i :: 0 <= i < |b| ==> body(b[i])
    requires |rest| > 0 ==> !body(rest[0])
    ensures MaskAfter(pre + b + rest, prefixAt, body) == pre + "***" + MaskAfter(rest, prefixAt, body)
  {
    var s := pre + b + rest;
    var t := s[|pre|..];
    assert t == b + rest;
    RunOfExact(b, rest, body);
    assert s[..|pre|] == pre && s[|pre| + |b|..] == rest;
  }

  lemma {:induction false} RunOfExact(b: string, rest: string, body: char -> bool)
    requires forall i :: 0 <= i < |b| ==> body(b[i])
    requires |rest| > 0 ==> !body(rest[0])
    ensures RunOf(b + rest, body) == |b|
    decreases |b|
  {
    if |b| > 0 {
      assert (b + rest)[1..] == b[1..] + rest;
      RunOfExact(b[1..], rest, body);
    } else {
      assert b + rest == rest;
    }
  }

  /** Text in which no position starts a match comes back unchanged. */
  lemma {:induction false} MaskAfterNoMatch(s: string, prefixAt: string -> nat, body: char -> bool)
    requires forall i :: 0 <= i < |s| ==> var p := prefixAt(s[i..]); !(0 < p < |s| - i && body(s[i + p]))
    ensures MaskAfter(s, prefixAt, body) == s
    decreases |s|
  {
    if |s| > 0 {
      var p := prefixAt(s);
      assert s[0..] == s;
      if 0 < p <= |s| && p < |s| { assert s[p..][0] == s[p]; }
      forall i | 0 <= i < |s[1..]| ensures var q := prefixAt(s[1..][i..]); !(0 < q < |s[1..]| - i && body(s[1..][i + q])) {
        assert s[1..][i..] == s[i + 1..];
      }
      MaskAfterNoMatch(s[1..], prefixAt, body);
      assert [s[0]] + s[1..] == s;
    }
  }

  /** The token rule. */
  function MaskTokens(s: string): string {
    MaskAfter(s, TokenPrefixAt, IsTokenChar)
  }

  /** The `Bearer` rule. */
  function MaskBearer(s: string): string {
    MaskAfter(s, BearerPrefixAt, IsCredentialChar)
  }

  /** Every token prefix ends with an underscore, so text without one has
      no token to mask. */
  lemma TokensNeedUnderscore(s: string)
    requires '_' !in s
    ensures MaskTokens(s) == s
  {
    forall i, k | 0 <= i < |s| && 0 <= k < |TokenPrefixes| ensures !StartsWithAnyCase(s[i..], TokenPrefixes[k]) {
      PrefixHasUnderscore(s[i..], TokenPrefixes[k]);
    }
    MaskAfterNoMatch(s, TokenPrefixAt, IsTokenChar);
  }

  /** Text that starts with a token prefix, in any case, holds its
      underscore. */
  lemma PrefixHasUnderscore(t: string, pre: string)
    requires pre in TokenPrefixes
    ensures StartsWithAnyCase(t, pre) ==> '_' in t
  {
    if StartsWithAnyCase(t, pre) {
      var m := |pre| - 1;
      assert pre[m] == '_';
      assert Lower(t[..|pre|])[m] == LowerChar(t[m]);
      assert t[m] == '_';
    }
  }

  /** A token keeps its prefix and loses the rest: `sk_live_abc` is
      written `sk_***`. */
  lemma TokenMasked(pre: string, b: string, rest: string)
    requires pre in TokenPrefixes
    requires |b| > 0 && forall i :: 0 <= i < |b| ==> IsTokenChar(b[i])
    requires |rest| > 0 ==> !IsTokenChar(rest[0])
    ensures MaskTokens(pre + b + rest) == pre + "***" + MaskTokens(rest)
  {
    var s := pre + b + rest;
    assert s[..|pre|] == pre;
    assert Lower(pre) == pre;
    PrefixDecided(s, pre);
    MaskAfterMatch(pre, b, rest, TokenPrefixAt, IsTokenChar);
  }

  /** The token prefixes differ in their first two letters, so the one a
      text starts with is the one matched. */
  lemma PrefixDecided(s: string, pre: string)
    requires pre in TokenPrefixes && StartsWithAnyCase(s, pre)
    ensures TokenPrefixAt(s) == |pre|
  {
    assert |pre| >= 3;
    assert Lower(s[..|pre|])[0] == LowerChar(s[0]) && Lower(s[..|pre|])[1] == LowerChar(s[1]);
    forall q | q in TokenPrefixes && StartsWithAnyCase(s, q) ensures q == pre {
      assert Lower(s[..|q|])[0] == LowerChar(s[0]) && Lower(s[..|q|])[1] == LowerChar(s[1]);
    }
  }

  /** `Bearer <credential>` keeps `Bearer` and its spacing. */
  lemma BearerMasked(spaces: string, b: string, rest: string)
    requires |spaces| > 0 && forall i :: 0 <= i < |spaces| ==> IsSpace(spaces[i])
    requires |b| > 0 && forall i :: 0 <= i < |b| ==> IsCredentialChar(b[i])
    requires |rest| > 0 ==> !IsCredentialChar(rest[0])
    ensures MaskBearer("Bearer" + spaces + b + rest) == "Bearer" + spaces + "***" + MaskBearer(rest)
  {
    var pre := "Bearer" + spaces;
    var s := pre + b + rest;
    assert s == "Bearer" + spaces + b + rest;
    assert s[..6] == "Bearer";
    assert Lower("Bearer") == "bearer";
    RunOfExact(spaces, b + rest, IsSpace);
    assert s[6..] == spaces + (b + rest);
    assert BearerPrefixAt(s) == |pre|;
    MaskAfterMatch(pre, b, rest, BearerPrefixAt, IsCredentialChar);
  }

  /** The four replacements in the order the logger applies them. Text
      the e-mail and phone rules leave without an underscore has no token
      for the third rule. */
  function MaskString(s: string, maskEmail: string -> string, maskPhone: string -> string): (r: string)
    ensures '_' !in maskPhone(maskEmail(s)) ==> r == MaskBearer(maskPhone(maskEmail(s)))
  {
    var t := maskPhone(maskEmail(s));
    assert '_' !in t ==> MaskTokens(t) == t by {
      if '_' !in t { TokensNeedUnderscore(t); }
    }
    MaskBearer(MaskTokens(t))
  }

  /** Text with no `bearer`, in any case, has nothing for the Bearer rule. */
  lemma BearerNeedsWord(s: string)
    requires forall i :: 0 <= i < |s| ==> !StartsWithAnyCase(s[i..], "bearer")
    ensures MaskBearer(s) == s
  {
    MaskAfterNoMatch(s, BearerPrefixAt, IsCredentialChar);
  }

  /** Text that the e-mail and phone rules leave alone, with no
      underscore and no `bearer` in any case, is logged as it is. */
  lemma PlainTextUnchanged(s: string, maskEmail: string -> string, maskPhone: string -> string)
    requires maskPhone(maskEmail(s)) == s
    requires '_' !in s
    requires forall i :: 0 <= i < |s| ==> !StartsWithAnyCase(s[i..], "bearer")
    ensures MaskString(s, maskEmail, maskPhone) == s
  {
    BearerNeedsWord(s);
  }

  /** The keys whose values are always hidden: any containing `password`
      or `secret`, in any case, and `token` exactly, in any case. */
  predicate Sensitive(key: string) {
    var k := Lower(key);
    Contains(k, "password") || Contains(k, "secret") || k == "token"
  }

  /** `maskPII` on a defined value. */
  function Mask(v: Json, maskEmail: string -> string, maskPhone: string -> string): (r: Json)
    decreases v
    ensures v.JStr? ==> r == JStr(MaskString(v.s, maskEmail, maskPhone))
    ensures v.JArr? ==> r.JArr? && |r.items| == |v.items|
                        && forall i :: 0 <= i < |v.items| ==> r.items[i] == Mask(v.items[i], maskEmail, maskPhone)
    ensures v.JObj? ==> r.JObj? && Keys(r.fields) == Keys(v.fields)
    ensures v.JObj? ==> forall i :: 0 <= i < |v.fields| ==>
              r.fields[i].1 == if Sensitive(v.fields[i].0) then JStr("***") else Mask(v.fields[i].1, maskEmail, maskPhone)
    ensures IsPrimitive(v) && !v.JStr? ==> r == v
  {
    match v
    case JStr(s) => JStr(MaskString(s, maskEmail, maskPhone))
    case JArr(items) => JArr(seq(|items|, i requires 0 <= i < |items| => Mask(items[i], maskEmail, maskPhone)))
    case JObj(fs) =>
      JObj(seq(|fs|, i requires 0 <= i < |fs| =>
        (fs[i].0, if Sensitive(fs[i].0) then JStr("***") else Mask(fs[i].1, maskEmail, maskPhone))))
    case _ => v
  }

  /** `maskPII`: `undefined` stays `undefined`. */
  function MaskPII(v: Option<Json>, maskEmail: string -> string, maskPhone: string -> string): (r: Option<Json>)
    ensures v.None? <==> r.None?
    ensures v == Some(JNull) ==> r == v
  {
    if v.None? then None else Some(Mask(v.value, maskEmail, maskPhone))
  }

  /** A sensitive key's value is hidden wherever the object sits, and its
      own content never reaches the log. */
  lemma SensitiveValueHidden(fs: seq<(string, Json)>, k: string, maskEmail: string -> string, maskPhone: string -> string)
    requires Sensitive(k) && k in Keys(fs)
    ensures Lookup(Mask(JObj(fs), maskEmail, maskPhone).fields, k) == Some(JStr("***"))
  {
    var r := Mask(JObj(fs), maskEmail, maskPhone).fields;
    FindKeySameKeys(r, fs, k);
    FindKeyPresent(fs, k);
  }

  /** Masking never reaches into a value without strings: numbers,
      booleans and `null` pass, and so do arrays and objects of them
      whose keys are not sensitive. */
  predicate StringFree(v: Json)
    decreases v
  {
    match v
    case JStr(_) => false
    case JArr(items) => forall i :: 0 <= i < |items| ==> StringFree(items[i])
    case JObj(fs) => forall i :: 0 <= i < |fs| ==> !Sensitive(fs[i].0) && StringFree(fs[i].1)
    case _ => true
  }

  lemma {:induction false} StringFreeUnchanged(v: Json, maskEmail: string -> string, maskPhone: string -> string)
    requires StringFree(v)
    ensures Mask(v, maskEmail, maskPhone) == v
    decreases v
  {
    match v
    case JArr(items) =>
      forall i | 0 <= i < |items| ensures Mask(items[i], maskEmail, maskPhone) == items[i] {
        StringFreeUnchanged(items[i], maskEmail, maskPhone);
      }
      assert Mask(v, maskEmail, maskPhone).items == items;
    case JObj(fs) =>
      forall i | 0 <= i < |fs| ensures Mask(fs[i].1, maskEmail, maskPhone) == fs[i].1 {
        StringFreeUnchanged(fs[i].1, maskEmail, maskPhone);
      }
      assert Mask(v, maskEmail, maskPhone).fields == fs;
    case _ =>
  }
}
