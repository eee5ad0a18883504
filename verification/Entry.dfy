/** Cache entries: what may be stored, for how long, and under which key (src/cache.rs). */
module Entry {
  import opened Prelude
  import opened Text
  import opened Headers
  import opened Names

  const CACHE_VERSION: nat := 1

  const SUPPORTED_VARY_HEADERS: seq<string> := ["accept", "accept-language", "accept-encoding", "origin", "authorization"]

  /** The metadata file of an entry. */
  datatype CacheEntry = CacheEntry(
    version: nat, status: nat, headers: seq<(string, string)>, bodyLen: nat, createdAt: nat, lastAccess: nat,
    ttl: nat, revalidate: bool, etag: Option<string>, lastModified: Option<string>, vary: seq<string>,
    requestVariants: seq<(string, string)>)

  /** `Cache::is_fresh`. */
  predicate IsFresh(e: CacheEntry, now: nat) {
    !e.revalidate && SaturatingSub(now, e.createdAt) < e.ttl
  }

  /** `get(name).to_str()`: the first value, when it is visible text. */
  function FirstText(f: Fields, name: string): Option<string> {
    if Values(f, name) != [] && Visible(Values(f, name)[0]) then Some(Values(f, name)[0]) else None
  }

  // ---------- Lifetimes ----------

  function TrimQuotes(s: string): string
    decreases |s|
  {
    if s != [] && s[0] == '"' then TrimQuotes(s[1..])
    else if s != [] && s[|s| - 1] == '"' then TrimQuotes(s[..|s| - 1])
    else s
  }

  function DigitsValue(s: string): Option<nat> {
    if s == [] then Some(0)
    else if !('0' <= s[|s| - 1] <= '9') then None
    else match DigitsValue(s[..|s| - 1])
      case None => None
      case Some(v) => Some(10 * v + (s[|s| - 1] as int - '0' as int))
  }

  /** `parse::<u64>`: a decimal number that fits, with an optional plus sign. */
  function ParseU64(s: string): Option<nat> {
    var digits := if s != [] && s[0] == '+' then s[1..] else s;
    if digits == [] then None
    else match DigitsValue(digits)
      case None => None
      case Some(v) => if v > U64_MAX then None else Some(v)
  }

  /** The value of one `max-age=…` directive. */
  function MaxAgeDirective(directive: string): Option<nat> {
    match SplitOnce(Trim(directive), '=')
    case None => None
    case Some((name, value)) =>
      if Lower(Trim(name)) == "max-age" then ParseU64(TrimQuotes(Trim(value))) else None
  }

  function FirstMaxAge(directives: seq<string>): Option<nat> {
    if directives == [] then None
    else if MaxAgeDirective(directives[0]).Some? then MaxAgeDirective(directives[0])
    else FirstMaxAge(directives[1..])
  }

  /** The `max-age` an upstream response declares. */
  function UpstreamMaxAge(f: Fields): Option<nat> {
    match FirstText(f, "cache-control")
    case None => None
    case Some(text) => FirstMaxAge(Split(text, ','))
  }

  function AtMost(ttl: nat, bound: Option<nat>): nat {
    if bound.Some? then Min(ttl, bound.value) else ttl
  }

  /** `effective_ttl`; `expiresIn` is the readable Expires date in whole seconds from now, zero if past. */
  function EffectiveTtl(configured: nat, f: Fields, expiresIn: Option<nat>): nat {
    AtMost(AtMost(configured, UpstreamMaxAge(f)), expiresIn)
  }

  lemma EffectiveTtlIsTheLeastBound(configured: nat, f: Fields, expiresIn: Option<nat>)
    ensures var r := EffectiveTtl(configured, f, expiresIn);
            var bounds := {configured} + (if UpstreamMaxAge(f).Some? then {UpstreamMaxAge(f).value} else {})
                          + (if expiresIn.Some? then {expiresIn.value} else {});
            r in bounds && forall b :: b in bounds ==> r <= b
  {
  }

  // ---------- What may be stored ----------

  function Directives(f: Fields): seq<string> {
    match FirstText(f, "cache-control")
    case None => []
    case Some(text) => Tokens([text])
  }

  /** `cacheable_headers`. */
  predicate Cacheable(f: Fields) {
    "no-store" !in Directives(f) && "private" !in Directives(f) && Values(f, "set-cookie") == []
  }

  /** The first occurrences, in order. */
  function Distinct(tokens: seq<string>): seq<string> {
    if tokens == [] then [] else WithName(Distinct(tokens[..|tokens| - 1]), tokens[|tokens| - 1])
  }

  function WithName(names: seq<string>, name: string): seq<string> {
    if name in names then names else names + [name]
  }

  /** The place of a name's first occurrence. */
  function FirstAt(tokens: seq<string>, t: string): nat
    requires t in tokens
  {
    if tokens[0] == t then 0 else 1 + FirstAt(tokens[1..], t)
  }

  lemma {:induction false} DistinctNames(tokens: seq<string>)
    ensures forall t :: t in Distinct(tokens) <==> t in tokens
    ensures forall i, j :: 0 <= i < j < |Distinct(tokens)| ==> Distinct(tokens)[i] != Distinct(tokens)[j]
  {
    if tokens != [] {
      var n := |tokens| - 1;
      DistinctNames(tokens[..n]);
      assert tokens == tokens[..n] + [tokens[n]];
    }
  }

  lemma {:induction false} FirstAtOfPrefix(tokens: seq<string>, x: string, t: string)
    requires t in tokens + [x]
    ensures FirstAt(tokens + [x], t) == if t in tokens then FirstAt(tokens, t) else |tokens|
    ensures t in tokens ==> FirstAt(tokens, t) < |tokens|
    decreases |tokens|
  {
    if tokens != [] {
      assert (tokens + [x])[1..] == tokens[1..] + [x];
      assert tokens == [tokens[0]] + tokens[1..];
      if tokens[0] != t {
        FirstAtOfPrefix(tokens[1..], x, t);
      }
    }
  }

  /** The names kept are in the order of their first occurrences. */
  lemma {:induction false} DistinctInOrder(tokens: seq<string>)
    ensures forall t :: t in Distinct(tokens) ==> t in tokens
    ensures forall i, j :: 0 <= i < j < |Distinct(tokens)| ==>
              FirstAt(tokens, Distinct(tokens)[i]) < FirstAt(tokens, Distinct(tokens)[j])
    decreases |tokens|
  {
    DistinctNames(tokens);
    if tokens != [] {
      var n := |tokens| - 1;
      DistinctInOrder(tokens[..n]);
      DistinctNames(tokens[..n]);
      assert tokens == tokens[..n] + [tokens[n]];
      var d := Distinct(tokens);
      forall i, j | 0 <= i < j < |d| ensures FirstAt(tokens, d[i]) < FirstAt(tokens, d[j]) {
        FirstAtOfPrefix(tokens[..n], tokens[n], d[i]);
        FirstAtOfPrefix(tokens[..n], tokens[n], d[j]);
        assert d[i] == Distinct(tokens[..n])[i];
        assert j < |Distinct(tokens[..n])| ==> d[j] == Distinct(tokens[..n])[j];
      }
    }
  }

  lemma DistinctGrows(tokens: seq<string>, name: string)
    ensures Distinct(tokens + [name]) == WithName(Distinct(tokens), name)
  {
    assert (tokens + [name])[..|tokens|] == tokens;
  }

  predicate Supported(name: string) {
    name in SUPPORTED_VARY_HEADERS
  }

  /** `parse_vary`: `None` when a value is not text or a name is not supported (`*` is not). */
  method ParseVary(values: seq<string>) returns (vary: Option<seq<string>>)
    ensures vary.Some? <==> AllVisible(values) && forall t :: t in Tokens(values) ==> Supported(t)
    ensures vary.Some? ==> vary.value == Distinct(Tokens(values))
                           && (forall i :: 0 <= i < |vary.value| ==> Supported(vary.value[i]))
                           && (forall i, j :: 0 <= i < j < |vary.value| ==> vary.value[i] != vary.value[j])
  {
    var found := [];
    for i := 0 to |values|
      invariant AllVisible(values[..i]) && found == Distinct(Tokens(values[..i]))
      invariant forall t :: t in Tokens(values[..i]) ==> Supported(t)
    {
      TokensAppend(values, i);
      if !Visible(values[i]) {
        assert values[i] in values;
        return None;
      }
      var longer := AddNames(found, LowerAll(TrimmedParts(Split(values[i], ','))), Tokens(values[..i]));
      if longer.None? {
        TokensOfPrefix(values, i + 1);
        return None;
      }
      found := longer.value;
    }
    assert values[..|values|] == values;
    DistinctNames(Tokens(values));
    return Some(found);
  }

  /** The names of one Vary value, added to those found so far. */
  method AddNames(found: seq<string>, names: seq<string>, ghost tokens: seq<string>) returns (r: Option<seq<string>>)
    requires found == Distinct(tokens)
    ensures r.Some? <==> forall t :: t in names ==> Supported(t)
    ensures r.Some? ==> r.value == Distinct(tokens + names)
  {
    var longer := found;
    assert tokens + names[..0] == tokens;
    for j := 0 to |names|
      invariant longer == Distinct(tokens + names[..j])
      invariant forall t :: t in names[..j] ==> Supported(t)
    {
      if !Supported(names[j]) {
        return None;
      }
      DistinctGrows(tokens + names[..j], names[j]);
      assert tokens + names[..j + 1] == tokens + names[..j] + [names[j]];
      if names[j] !in longer {
        longer := longer + [names[j]];
      }
    }
    assert names[..|names|] == names;
    return Some(longer);
  }

  lemma {:induction false} TokensSplit(a: seq<string>, b: seq<string>)
    ensures Tokens(a + b) == Tokens(a) + Tokens(b)
  {
    if a == [] {
      assert a + b == b;
    } else {
      assert (a + b)[1..] == a[1..] + b;
      TokensSplit(a[1..], b);
    }
  }

  lemma TokensAppend(values: seq<string>, i: nat)
    requires i < |values|
    ensures Tokens(values[..i + 1]) == Tokens(values[..i])
            + if Visible(values[i]) then LowerAll(TrimmedParts(Split(values[i], ','))) else []
    ensures values[..i + 1] == values[..i] + [values[i]]
  {
    assert values[..i + 1] == values[..i] + [values[i]];
    TokensSplit(values[..i], [values[i]]);
    assert Tokens([values[i]]) == (if Visible(values[i]) then LowerAll(TrimmedParts(Split(values[i], ','))) else []) + Tokens([]);
  }

  lemma TokensOfPrefix(values: seq<string>, i: nat)
    requires i <= |values|
    ensures forall t :: t in Tokens(values[..i]) ==> t in Tokens(values)
  {
    assert values == values[..i] + values[i..];
    TokensSplit(values[..i], values[i..]);
  }

  /** The request values named by Vary that are text. */
  function RequestVariants(vary: seq<string>, request: Fields): seq<(string, string)> {
    if vary == [] then []
    else (match FirstText(request, vary[0]) case None => [] case Some(v) => [(vary[0], v)])
         + RequestVariants(vary[1..], request)
  }

  /** `begin_write`: the entry a response may start, before its body is known. `items` lists the response headers. */
  method BeginEntry(status: nat, response: Fields, items: seq<(string, string)>, request: Fields, planTtl: nat,
                    now: nat, access: nat, expiresIn: Option<nat>) returns (r: Option<CacheEntry>)
    ensures r.Some? <==>
              && 200 <= status < 300 && Cacheable(response)
              && AllVisible(Values(response, "vary"))
              && (forall t :: t in Tokens(Values(response, "vary")) ==> Supported(t))
              && Values(request, "authorization") == []
              && EffectiveTtl(planTtl, response, expiresIn) > 0
    ensures r.Some? ==> AdmittedDraft(r.value, planTtl, now)
                        && r.value.revalidate == ("no-cache" in Directives(response))
                        && r.value.status == status && r.value.headers == CacheHeaders(items)
                        && r.value.vary == Distinct(Tokens(Values(response, "vary")))
                        && r.value.requestVariants == RequestVariants(r.value.vary, request)
                        && r.value.ttl == EffectiveTtl(planTtl, response, expiresIn)
                        && r.value.bodyLen == 0 && r.value.lastAccess == access
                        && r.value.etag == FirstText(response, "etag")
                        && r.value.lastModified == FirstText(response, "last-modified")
  {
    if !(200 <= status < 300) || !Cacheable(response) {
      return None;
    }
    var vary := ParseVary(Values(response, "vary"));
    if vary.None? || Values(request, "authorization") != [] {
      return None;
    }
    var entry := CacheEntry(CACHE_VERSION, status, CacheHeaders(items), 0, now, access,
                            EffectiveTtl(planTtl, response, expiresIn), "no-cache" in Directives(response),
                            FirstText(response, "etag"), FirstText(response, "last-modified"), vary.value,
                            RequestVariants(vary.value, request));
    if entry.ttl == 0 {
      return None;
    }
    return Some(entry);
  }

  /** What every started entry satisfies. */
  ghost predicate AdmittedDraft(e: CacheEntry, planTtl: nat, now: nat) {
    && e.version == CACHE_VERSION && e.createdAt == now && 0 < e.ttl <= planTtl
    && forall i :: 0 <= i < |e.vary| ==> Supported(e.vary[i])
  }

  /** A validator after a 304: the response's when it sends one that is text, otherwise the old one. */
  function Renewed(validator: Option<string>, response: Fields, name: string): Option<string> {
    if FirstText(response, name).Some? then FirstText(response, name) else validator
  }

  /** `Cache::refresh` after a 304: a new age and lifetime, newer validators, the rest unchanged. */
  function Refreshed(e: CacheEntry, response: Fields, planTtl: nat, now: nat, expiresIn: Option<nat>): (r: CacheEntry)
    ensures r.createdAt == r.lastAccess == now && r.ttl <= planTtl
    ensures (r.etag, r.lastModified) == (Renewed(e.etag, response, "etag"), Renewed(e.lastModified, response, "last-modified"))
    ensures r.ttl == EffectiveTtl(planTtl, response, expiresIn)
    ensures r == e.(createdAt := now, lastAccess := now, ttl := r.ttl, etag := r.etag, lastModified := r.lastModified)
  {
    e.(createdAt := now, lastAccess := now, ttl := EffectiveTtl(planTtl, response, expiresIn),
       etag := Renewed(e.etag, response, "etag"), lastModified := Renewed(e.lastModified, response, "last-modified"))
  }

  // ---------- Keys ----------

  /** The first value of each supported header, empty when absent. */
  function Variants(f: Fields): (r: seq<string>)
    ensures |r| == |SUPPORTED_VARY_HEADERS|
  {
    seq(|SUPPORTED_VARY_HEADERS|, i requires 0 <= i < |SUPPORTED_VARY_HEADERS| =>
      if Values(f, SUPPORTED_VARY_HEADERS[i]) == [] then "" else Values(f, SUPPORTED_VARY_HEADERS[i])[0])
  }

  const NUL: char := '\0'

  /** What the headers contribute to the hashed text: each name and value, closed by a NUL. */
  function VariantText(names: seq<string>, variants: seq<string>): string
    requires |names| == |variants|
  {
    if names == [] then [] else names[0] + [NUL] + (variants[0] + [NUL] + VariantText(names[1..], variants[1..]))
  }

  /** The byte string that `cache_key` hashes. */
  function KeyText(subject: string, variants: seq<string>): string
    requires |variants| == |SUPPORTED_VARY_HEADERS|
  {
    subject + VariantText(SUPPORTED_VARY_HEADERS, variants)
  }

  /** `cache_key` up to the hash: the hasher's input, piece by piece. */
  method HashInput(subject: string, headers: Fields) returns (input: string)
    ensures input == KeyText(subject, Variants(headers))
  {
    ghost var variants := Variants(headers);
    var names := SUPPORTED_VARY_HEADERS;
    input := subject;
    for i := 0 to |names|
      invariant input + VariantText(names[i..], variants[i..]) == KeyText(subject, variants)
    {
      ghost var rest := VariantText(names[i + 1..], variants[i + 1..]);
      assert names[i..][1..] == names[i + 1..] && variants[i..][1..] == variants[i + 1..];
      PieceAppended(input, names[i], variants[i], rest);
      input := input + names[i];
      input := input + [NUL];
      if Values(headers, names[i]) != [] {
        input := input + Values(headers, names[i])[0];
      } else {
        assert input + variants[i] == input;
      }
      input := input + [NUL];
    }
  }

  lemma PieceAppended(before: string, name: string, value: string, rest: string)
    ensures before + name + [NUL] + value + [NUL] + rest == before + (name + [NUL] + (value + [NUL] + rest))
  {
  }

  ghost predicate NulFree(s: string) {
    NUL !in s
  }

  ghost predicate NulFreeAll(variants: seq<string>) {
    forall i :: 0 <= i < |variants| ==> NulFree(variants[i])
  }

  /** A field that ends at the first NUL is determined by the text. */
  lemma FirstFieldDetermined(a: string, x: string, b: string, y: string)
    requires NulFree(a) && NulFree(b) && a + [NUL] + x == b + [NUL] + y
    ensures a == b && x == y
  {
    var s, t := a + [NUL] + x, b + [NUL] + y;
    assert s[|a|] == NUL && t[|b|] == NUL;
    assert forall i :: 0 <= i < |a| ==> s[i] == a[i] != NUL;
    assert forall i :: 0 <= i < |b| ==> t[i] == b[i] != NUL;
    assert |a| == |b|;
    assert a == s[..|a|] && b == t[..|b|];
    assert x == s[|a| + 1..] && y == t[|b| + 1..];
  }

  lemma {:induction false} VariantTextInjective(names: seq<string>, a: seq<string>, b: seq<string>)
    requires |names| == |a| == |b| && NulFreeAll(names) && NulFreeAll(a) && NulFreeAll(b)
    requires VariantText(names, a) == VariantText(names, b)
    ensures a == b
  {
    if names != [] {
      var restA, restB := VariantText(names[1..], a[1..]), VariantText(names[1..], b[1..]);
      FirstFieldDetermined(names[0], a[0] + [NUL] + restA, names[0], b[0] + [NUL] + restB);
      FirstFieldDetermined(a[0], restA, b[0], restB);
      VariantTextInjective(names[1..], a[1..], b[1..]);
      assert a == [a[0]] + a[1..] && b == [b[0]] + b[1..];
    }
  }

  /** Subject and first header name run together up to the first NUL; the names are fixed, so both are determined. */
  lemma PrefixedTextInjective(names: seq<string>, s: string, a: seq<string>, t: string, b: seq<string>)
    requires |names| == |a| == |b| > 0 && NulFreeAll(names) && NulFreeAll(a) && NulFreeAll(b) && NulFree(s) && NulFree(t)
    requires s + VariantText(names, a) == t + VariantText(names, b)
    ensures s == t && a == b
  {
    var restA, restB := a[0] + [NUL] + VariantText(names[1..], a[1..]), b[0] + [NUL] + VariantText(names[1..], b[1..]);
    FieldAfterPrefix(s, names[0], restA);
    FieldAfterPrefix(t, names[0], restB);
    FirstFieldDetermined(s + names[0], restA, t + names[0], restB);
    PrefixDetermined(s, t, names[0]);
    VariantTextInjective(names, a, b);
  }

  lemma FieldAfterPrefix(s: string, name: string, rest: string)
    ensures s + (name + [NUL] + rest) == (s + name) + [NUL] + rest
  {
  }

  lemma PrefixDetermined(s: string, t: string, tail: string)
    requires s + tail == t + tail
    ensures s == t
  {
    assert |s + tail| == |t + tail|;
    assert s == (s + tail)[..|s|] && t == (t + tail)[..|t|];
  }

  lemma SupportedNamesAreNulFree()
    ensures NulFreeAll(SUPPORTED_VARY_HEADERS)
  {
  }

  /** The hashed text determines the subject and the first value of every supported header. */
  lemma KeyTextInjective(s: string, a: seq<string>, t: string, b: seq<string>)
    requires |a| == |b| == |SUPPORTED_VARY_HEADERS| && NulFreeAll(a) && NulFreeAll(b) && NulFree(s) && NulFree(t)
    ensures KeyText(s, a) == KeyText(t, b) <==> s == t && a == b
  {
    SupportedNamesAreNulFree();
    if KeyText(s, a) == KeyText(t, b) {
      PrefixedTextInjective(SUPPORTED_VARY_HEADERS, s, a, t, b);
    }
  }

  // ---------- What the readers of header text mean ----------

  function Zeros(k: nat): string {
    seq(k, _ => '0')
  }

  /** A decimal number, with any leading zeros. */
  ghost predicate Number(s: string, n: nat) {
    exists k :: 0 <= k <= |s| && s == Zeros(k) + Decimal(n)
  }

  lemma {:induction false} DigitsOfZeros(k: nat)
    ensures DigitsValue(Zeros(k)) == Some(0)
  {
    if k > 0 {
      assert Zeros(k)[..k - 1] == Zeros(k - 1);
      DigitsOfZeros(k - 1);
    }
  }

  /** The digit reader inverts the decimal notation. */
  lemma {:induction false} DigitsInvertDecimal(k: nat, n: nat)
    ensures DigitsValue(Zeros(k) + Decimal(n)) == Some(n)
    decreases n
  {
    var s := Zeros(k) + Decimal(n);
    var front := if n < 10 then Zeros(k) else Zeros(k) + Decimal(n / 10);
    assert s == front + [Digit(n % 10)];
    assert s[..|s| - 1] == front && s[|s| - 1] == Digit(n % 10);
    DigitIs(n % 10);
    hide Digit, Zeros;
    if n < 10 {
      DigitsOfZeros(k);
    } else {
      DigitsInvertDecimal(k, n / 10);
    }
  }

  lemma DigitIs(d: nat)
    requires d < 10
    ensures Digit(d) as int == 48 + d
  {
  }

  lemma {:induction false} DigitsAreNumber(s: string, n: nat)
    requires s != [] && DigitsValue(s) == Some(n)
    ensures Number(s, n)
    decreases |s|
  {
    var front, d := s[..|s| - 1], s[|s| - 1] as int - '0' as int;
    DigitOf(s[|s| - 1]);
    assert s == front + [Digit(d)];
    if front == [] {
      assert s == Zeros(0) + Decimal(n);
    } else {
      var v := DigitsValue(front).value;
      DigitsAreNumber(front, v);
      var k :| 0 <= k <= |front| && front == Zeros(k) + Decimal(v);
      hide DigitsValue, Number;
      MoreDigits(front, k, v, d);
    }
  }

  lemma DigitOf(c: char)
    requires '0' <= c <= '9'
    ensures Digit(c as int - '0' as int) == c
  {
  }

  lemma MoreDigits(front: string, k: nat, v: nat, d: nat)
    requires d < 10 && k <= |front| && front == Zeros(k) + Decimal(v)
    ensures Number(front + [Digit(d)], 10 * v + d)
  {
    var s := front + [Digit(d)];
    if v == 0 {
      assert front == Zeros(k + 1);
      assert s == Zeros(k + 1) + Decimal(d);
    } else {
      assert (10 * v + d) / 10 == v && (10 * v + d) % 10 == d;
      assert Decimal(10 * v + d) == Decimal(v) + [Digit(d)];
      assert s == Zeros(k) + Decimal(10 * v + d);
    }
  }

  lemma NumberIsDigits(s: string, n: nat)
    ensures Number(s, n) <==> s != [] && DigitsValue(s) == Some(n)
  {
    if Number(s, n) {
      var k :| 0 <= k <= |s| && s == Zeros(k) + Decimal(n);
      DigitsInvertDecimal(k, n);
    }
    if s != [] && DigitsValue(s) == Some(n) {
      DigitsAreNumber(s, n);
    }
  }

  /** Numbers are read when they fit, with or without a plus sign. */
  lemma ParseU64Means(s: string, n: nat)
    ensures ParseU64(s) == Some(n) <==> n <= U64_MAX && (Number(s, n) || (s != [] && s[0] == '+' && Number(s[1..], n)))
  {
    NumberIsDigits(s, n);
    if s != [] && s[0] == '+' {
      NumberIsDigits(s[1..], n);
      NoSignInside(s);
    }
  }

  lemma {:induction false} NoSignInside(s: string)
    requires s != [] && !('0' <= s[0] <= '9')
    ensures DigitsValue(s) == None
    decreases |s|
  {
    if |s| > 1 {
      NoSignInside(s[..|s| - 1]);
    }
  }

  ghost predicate Quotes(s: string) {
    forall i :: 0 <= i < |s| ==> s[i] as int == 34
  }

  /** `w` is what lies in `s` between quotation marks, if any, and has none at its ends. */
  ghost predicate QuotedAt(s: string, w: string, a: nat, b: nat) {
    a <= b <= |s| && w == s[a..b] && Quotes(s[..a]) && Quotes(s[b..]) && (w == [] || (w[0] as int != 34 && w[|w| - 1] as int != 34))
  }

  lemma {:induction false} QuotesAt(s: string) returns (a: nat, b: nat)
    ensures QuotedAt(s, TrimQuotes(s), a, b)
    decreases |s|
  {
    if s != [] && s[0] == '"' {
      var c, d := QuotesAt(s[1..]);
      a, b := c + 1, d + 1;
      QuoteInFront(s, TrimQuotes(s), c, d);
    } else if s != [] && s[|s| - 1] == '"' {
      a, b := QuotesAt(s[..|s| - 1]);
      QuoteBehind(s, TrimQuotes(s), a, b);
    } else {
      a, b := 0, |s|;
      assert s[0..|s|] == s;
    }
  }

  lemma QuoteInFront(s: string, w: string, c: nat, d: nat)
    requires s != [] && s[0] as int == 34 && QuotedAt(s[1..], w, c, d)
    ensures QuotedAt(s, w, c + 1, d + 1)
  {
    assert s[1..][c..d] == s[c + 1..d + 1] && s[..c + 1] == [s[0]] + s[1..][..c] && s[d + 1..] == s[1..][d..];
  }

  lemma QuoteBehind(s: string, w: string, a: nat, b: nat)
    requires s != [] && s[|s| - 1] as int == 34 && QuotedAt(s[..|s| - 1], w, a, b)
    ensures QuotedAt(s, w, a, b)
  {
    var front := s[..|s| - 1];
    assert front[a..b] == s[a..b] && s[..a] == front[..a] && s[b..] == front[b..] + [s[|s| - 1]];
  }

  lemma TrimQuotesMeans(s: string, w: string)
    ensures TrimQuotes(s) == w <==> exists a, b :: QuotedAt(s, w, a, b)
  {
    var a, b := QuotesAt(s);
    if c, d :| QuotedAt(s, w, c, d) {
      OnlyOneQuoting(s, TrimQuotes(s), a, b, w, c, d);
    }
  }

  lemma AroundQuoting(s: string, w: string, a: nat, b: nat)
    requires QuotedAt(s, w, a, b)
    ensures forall i :: 0 <= i < |s| && (i < a || b <= i) ==> s[i] as int == 34
    ensures a < b ==> s[a] as int != 34 && s[b - 1] as int != 34
  {
    forall i | 0 <= i < |s| && (i < a || b <= i) ensures s[i] as int == 34 {
      if i < a {
        assert s[..a][i] == s[i];
      } else {
        assert s[b..][i - b] == s[i];
      }
    }
  }

  lemma OnlyOneQuoting(s: string, v: string, a: nat, b: nat, w: string, c: nat, d: nat)
    requires QuotedAt(s, v, a, b) && QuotedAt(s, w, c, d)
    ensures v == w
  {
    AroundQuoting(s, v, a, b);
    AroundQuoting(s, w, c, d);
  }

  /** A directive that declares a `max-age` of `n`: the name in any case, the first `=`, and a number that fits,
      possibly in quotation marks; blanks around name and value. */
  ghost predicate DeclaresMaxAge(directive: string, n: nat) {
    exists p :: DeclaresAt(directive, p, n)
  }

  ghost predicate DeclaresAt(directive: string, p: nat, n: nat) {
    && p < |directive| && directive[p] == '=' && '=' !in directive[..p]
    && Lower(Trim(directive[..p])) == "max-age" && n <= U64_MAX && QuotedNumber(Trim(directive[p + 1..]), n)
  }

  /** A number, possibly signed with a plus, possibly in quotation marks. */
  ghost predicate QuotedNumber(value: string, n: nat) {
    exists number, a, b ::
      QuotedAt(value, number, a, b) && (Number(number, n) || (number != [] && number[0] == '+' && Number(number[1..], n)))
  }

  lemma QuotedNumberMeans(value: string, n: nat)
    ensures ParseU64(TrimQuotes(value)) == Some(n) <==> n <= U64_MAX && QuotedNumber(value, n)
  {
    hide TrimQuotes, ParseU64, Number;
    var w := TrimQuotes(value);
    var a, b := QuotesAt(value);
    ParseU64Means(w, n);
    if QuotedNumber(value, n) {
      var number, c, d :|
        QuotedAt(value, number, c, d) && (Number(number, n) || (number != [] && number[0] == '+' && Number(number[1..], n)));
      TrimQuotesMeans(value, number);
    }
  }

  /** Trimming before the split changes nothing that is trimmed after it. */
  lemma TrimBeforeSplit(d: string, p: nat)
    requires p < |d| && d[p] == '=' && '=' !in d[..p]
    ensures SplitOnce(Trim(d), '=').Some?
    ensures var (name, value) := SplitOnce(Trim(d), '=').value;
            Trim(name) == Trim(d[..p]) && Trim(value) == Trim(d[p + 1..]) && '=' !in name
  {
    hide Trim, SplitOnce;
    var a, b := TrimAt(d);
    var t := Trim(d);
    AroundTrimming(d, t, a, b);
    assert a <= p < b by { assert !IsSpace('='); }
    hide Blank, Tight, IsSpace;
    SplitInside(d, p, a, b);
    FirstSeparator(t, '=', p - a);
    BlankAround(d[..a], d[a..p], []);
    BlankAround([], d[p + 1..b], d[b..]);
  }

  lemma SplitInside(d: string, p: nat, a: nat, b: nat)
    requires a <= p < b <= |d| && d[p] == '=' && '=' !in d[..p]
    ensures d[a..b][p - a] == '=' && d[a..b][..p - a] == d[a..p] && d[a..b][p - a + 1..] == d[p + 1..b]
    ensures '=' !in d[a..p] && d[..p] == d[..a] + d[a..p] + [] && d[p + 1..] == [] + d[p + 1..b] + d[b..]
  {
    assert forall i :: a <= i < p ==> d[..p][i] == d[i];
  }

  lemma FirstSeparator(s: string, sep: char, k: nat)
    requires k < |s| && s[k] == sep && sep !in s[..k]
    ensures SplitOnce(s, sep) == Some((s[..k], s[k + 1..]))
  {
    hide SplitOnce;
    var (x, y) := SplitOnce(s, sep).value;
    assert s[|x|] == sep;
    assert forall i :: 0 <= i < |x| ==> s[i] == x[i] != sep;
    assert forall i :: 0 <= i < k ==> s[i] == s[..k][i] != sep;
    assert |x| == k;
    assert s[..k] == x && s[k + 1..] == y;
  }

  lemma BlankAround(pre: string, s: string, post: string)
    requires Blank(pre) && Blank(post)
    ensures Trim(pre + s + post) == Trim(s)
  {
    hide Trim;
    var a, b := TrimAt(s);
    var w, t := Trim(s), pre + s + post;
    assert t == (pre + s[..a]) + w + (s[b..] + post);
    TrimOf(pre + s[..a], w, s[b..] + post);
  }

  /** The directive reader reads exactly the declarations. */
  lemma MaxAgeDirectiveMeans(directive: string, n: nat)
    ensures MaxAgeDirective(directive) == Some(n) <==> DeclaresMaxAge(directive, n)
  {
    hide Trim, SplitOnce, TrimQuotes, ParseU64, Lower, QuotedNumber;
    if MaxAgeDirective(directive) == Some(n) {
      EqualsInside(directive);
      var p := FirstEquals(directive);
      TrimBeforeSplit(directive, p);
      QuotedNumberMeans(Trim(directive[p + 1..]), n);
      assert DeclaresAt(directive, p, n);
    }
    if DeclaresMaxAge(directive, n) {
      var p :| DeclaresAt(directive, p, n);
      TrimBeforeSplit(directive, p);
      QuotedNumberMeans(Trim(directive[p + 1..]), n);
    }
  }

  lemma EqualsInside(d: string)
    requires SplitOnce(Trim(d), '=').Some?
    ensures '=' in d
  {
    hide SplitOnce, Trim;
    var a, b := TrimAt(d);
    var (x, y) := SplitOnce(Trim(d), '=').value;
    assert Trim(d)[|x|] == '=' == d[a + |x|];
  }

  lemma FirstEquals(d: string) returns (p: nat)
    requires '=' in d
    ensures p < |d| && d[p] == '=' && '=' !in d[..p]
  {
    var (x, y) := SplitOnce(d, '=').value;
    p := |x|;
    assert d[..p] == x;
  }

  /** The plain form: any case of the name, any blanks, the number in quotation marks or not. */
  lemma PlainMaxAge(pre: string, name: string, mid: string, gap: string, quotes: string, n: nat, endQuotes: string, post: string)
    requires Blank(pre) && Blank(mid) && Blank(gap) && Blank(post) && Quotes(quotes) && Quotes(endQuotes)
    requires Lower(name) == "max-age" && n <= U64_MAX
    ensures DeclaresMaxAge(pre + name + mid + "=" + (gap + (quotes + Decimal(n) + endQuotes) + post), n)
  {
    hide Trim, Lower, Decimal;
    var before, value := pre + name + mid, quotes + Decimal(n) + endQuotes;
    var d := before + "=" + (gap + value + post);
    var p := |before|;
    NameHasNoEquals(name);
    assert forall i :: 0 <= i < |before| ==> before[i] != '=';
    assert d[..p] == before && d[p + 1..] == gap + value + post;
    TightName(name);
    TrimOf(pre, name, mid);
    QuotedDigitsAreTight(quotes, n, endQuotes);
    TrimOf(gap, value, post);
    var a, b := |quotes|, |quotes| + |Decimal(n)|;
    assert value[a..b] == Decimal(n) && value[..a] == quotes && value[b..] == endQuotes;
    assert d[p] == '=' && '=' !in d[..p];
    assert QuotedAt(value, Decimal(n), a, b);
    assert Decimal(n) == Zeros(0) + Decimal(n);
    assert Number(Decimal(n), n) && QuotedNumber(value, n);
    assert DeclaresAt(d, p, n);
  }

  lemma QuotedDigitsAreTight(quotes: string, n: nat, endQuotes: string)
    requires Quotes(quotes) && Quotes(endQuotes)
    ensures Tight(quotes + Decimal(n) + endQuotes)
    ensures Decimal(n)[0] as int != 34 && Decimal(n)[|Decimal(n)| - 1] as int != 34
  {
    hide Decimal;
    DecimalIsDigits(n);
    var value := quotes + Decimal(n) + endQuotes;
    assert forall i :: 0 <= i < |value| ==> value[i] as int == 34 || '0' <= value[i] <= '9';
    BlankChar(value[0]);
    BlankChar(value[|value| - 1]);
  }

  lemma NameHasNoEquals(name: string)
    requires Lower(name) == "max-age"
    ensures '=' !in name
  {
    assert |name| == 7;
    forall i | 0 <= i < |name| ensures name[i] != '=' {
      assert LowerChar(name[i]) == Lower(name)[i];
    }
  }

  lemma TightName(name: string)
    requires Lower(name) == "max-age"
    ensures Tight(name)
  {
    assert |name| == 7 && Lower(name)[0] == LowerChar(name[0]) == 'm' && Lower(name)[6] == LowerChar(name[6]) == 'e';
    BlankChar(name[0]);
    BlankChar(name[6]);
  }

  lemma {:induction false} FirstMaxAgeMeans(directives: seq<string>, k: nat, n: nat)
    requires k < |directives| && MaxAgeDirective(directives[k]) == Some(n)
    requires forall j :: 0 <= j < k ==> MaxAgeDirective(directives[j]).None?
    ensures FirstMaxAge(directives) == Some(n)
  {
    if k > 0 {
      FirstMaxAgeMeans(directives[1..], k - 1, n);
    }
  }

  lemma {:induction false} NoMaxAge(directives: seq<string>)
    requires forall j :: 0 <= j < |directives| ==> MaxAgeDirective(directives[j]).None?
    ensures FirstMaxAge(directives) == None
  {
    if directives != [] {
      NoMaxAge(directives[1..]);
    }
  }

  /** `r` is the least of a lifetime and up to two bounds. */
  ghost predicate LeastOf(r: nat, configured: nat, declared: Option<nat>, expires: Option<nat>) {
    && r <= configured && (declared.Some? ==> r <= declared.value) && (expires.Some? ==> r <= expires.value)
    && (r == configured || declared == Some(r) || expires == Some(r))
  }

  /** The first Cache-Control value, when it is text. */
  ghost predicate CacheControl(f: Fields, text: string) {
    "cache-control" in f && f["cache-control"] != [] && f["cache-control"][0] == text && PrintableText(text)
  }

  lemma ReadsCacheControl(f: Fields, text: string)
    ensures CacheControl(f, text) <==> FirstText(f, "cache-control") == Some(text)
  {
    if "cache-control" in f && f["cache-control"] != [] {
      VisibleMeans(f["cache-control"][0]);
    }
  }

  /** When the first readable declaration among the comma-separated directives is a `max-age` of `n`, the lifetime is
      the least of the configured one, `n` and the time to Expires. */
  lemma DeclaredLifetime(configured: nat, f: Fields, expiresIn: Option<nat>, text: string, parts: seq<string>, k: nat, n: nat)
    requires CacheControl(f, text) && parts != [] && text == Join(parts, ",") && forall p :: p in parts ==> ',' !in p
    requires k < |parts| && DeclaresMaxAge(parts[k], n)
    requires forall j, m :: 0 <= j < k ==> !DeclaresMaxAge(parts[j], m)
    ensures LeastOf(EffectiveTtl(configured, f, expiresIn), configured, Some(n), expiresIn)
  {
    hide MaxAgeDirective, DeclaresMaxAge, FirstMaxAge, CacheControl;
    ReadsCacheControl(f, text);
    JoinSplits(parts, ',');
    MaxAgeDirectiveMeans(parts[k], n);
    forall j | 0 <= j < k ensures MaxAgeDirective(parts[j]).None? {
      if MaxAgeDirective(parts[j]).Some? {
        MaxAgeDirectiveMeans(parts[j], MaxAgeDirective(parts[j]).value);
      }
    }
    FirstMaxAgeMeans(parts, k, n);
  }

  /** Without such a declaration the upstream's Cache-Control bounds nothing. */
  lemma UndeclaredLifetime(configured: nat, f: Fields, expiresIn: Option<nat>)
    requires forall text, j, m :: CacheControl(f, text) && 0 <= j < |Split(text, ',')| ==> !DeclaresMaxAge(Split(text, ',')[j], m)
    ensures LeastOf(EffectiveTtl(configured, f, expiresIn), configured, None, expiresIn)
  {
    hide MaxAgeDirective, DeclaresMaxAge, FirstMaxAge, CacheControl;
    if FirstText(f, "cache-control").Some? {
      var text := FirstText(f, "cache-control").value;
      ReadsCacheControl(f, text);
      var parts := Split(text, ',');
      forall j | 0 <= j < |parts| ensures MaxAgeDirective(parts[j]).None? {
        if MaxAgeDirective(parts[j]).Some? {
          MaxAgeDirectiveMeans(parts[j], MaxAgeDirective(parts[j]).value);
        }
      }
      NoMaxAge(parts);
    }
  }

  /** A directive of the first Cache-Control value. */
  ghost predicate HasDirective(f: Fields, word: string) {
    exists text, j :: CacheControl(f, text) && ListedAs(text, j, word)
  }

  lemma DirectivesMean(f: Fields, word: string)
    requires word != []
    ensures word in Directives(f) <==> HasDirective(f, word)
  {
    hide Tokens, CacheControl;
    if FirstText(f, "cache-control").Some? {
      var text := FirstText(f, "cache-control").value;
      ReadsCacheControl(f, text);
      TokensMean([text], word);
      if word in Directives(f) {
        var i, j :| 0 <= i < 1 && ListedAs([text][i], j, word);
        assert CacheControl(f, text) && ListedAs(text, j, word);
      }
    }
    if HasDirective(f, word) {
      var text, j :| CacheControl(f, text) && ListedAs(text, j, word);
      ReadsCacheControl(f, text);
      assert ListedAs([text][0], j, word);
    }
  }

  /** Which responses may be stored, in terms of their header text. */
  lemma CacheableMeans(f: Fields)
    ensures Cacheable(f) <==>
            !HasDirective(f, "no-store") && !HasDirective(f, "private") && !("set-cookie" in f && f["set-cookie"] != [])
  {
    DirectivesMean(f, "no-store");
    DirectivesMean(f, "private");
  }

  /** The headers that may vary a cached response. */
  lemma SupportedMeans(name: string)
    ensures Supported(name) <==>
            || name == "accept" || name == "accept-language" || name == "accept-encoding" || name == "origin"
            || name == "authorization"
  {
  }

  lemma {:induction false} RequestVariantsMean(vary: seq<string>, request: Fields, name: string)
    requires forall i, j :: 0 <= i < j < |vary| ==> vary[i] != vary[j]
    ensures Listed(RequestVariants(vary, request), name) ==
            if name in vary && Values(request, name) != [] && PrintableText(Values(request, name)[0])
            then [Values(request, name)[0]] else []
  {
    if vary != [] {
      RequestVariantsMean(vary[1..], request, name);
      var first := match FirstText(request, vary[0]) case None => [] case Some(v) => [(vary[0], v)];
      OneVariant(vary[0], request, name, first);
      ListedAppend(first, RequestVariants(vary[1..], request), name);
      assert RequestVariants(vary, request) == first + RequestVariants(vary[1..], request);
      assert vary == [vary[0]] + vary[1..];
      assert name == vary[0] ==> name !in vary[1..];
      hide FirstText, Listed, Visible, PrintableText, RequestVariants;
    }
  }

  lemma OneVariant(v: string, request: Fields, name: string, first: seq<(string, string)>)
    requires first == match FirstText(request, v) case None => [] case Some(text) => [(v, text)]
    ensures Listed(first, name) ==
            if name == v && Values(request, v) != [] && PrintableText(Values(request, v)[0]) then [Values(request, v)[0]] else []
  {
    if Values(request, v) != [] {
      VisibleMeans(Values(request, v)[0]);
    }
    assert first != [] ==> first[1..] == [];
  }

  /** A validator is taken from a 304 that sends it as text, and kept otherwise. */
  lemma RenewedMeans(validator: Option<string>, response: Fields, name: string)
    ensures Renewed(validator, response, name) ==
            if name in response && response[name] != [] && PrintableText(response[name][0]) then Some(response[name][0])
            else validator
  {
    if name in response && response[name] != [] {
      VisibleMeans(response[name][0]);
    }
  }

  // ---------- Keys and header maps ----------

  /** Two header maps agree on a name: the same first value, an absent one counting as empty. */
  ghost predicate SameFirst(f: Fields, g: Fields, name: string) {
    (if name in f && f[name] != [] then f[name][0] else "") == (if name in g && g[name] != [] then g[name][0] else "")
  }

  /** The first values hold no NUL. */
  ghost predicate NulFreeFirsts(f: Fields) {
    forall name :: name in f && f[name] != [] ==> NulFree(f[name][0])
  }

  ghost predicate SameVariants(f: Fields, g: Fields) {
    && SameFirst(f, g, "accept") && SameFirst(f, g, "accept-language") && SameFirst(f, g, "accept-encoding")
    && SameFirst(f, g, "origin") && SameFirst(f, g, "authorization")
  }

  lemma VariantAt(f: Fields, k: nat)
    requires k < |SUPPORTED_VARY_HEADERS|
    ensures var name := SUPPORTED_VARY_HEADERS[k];
            Variants(f)[k] == if name in f && f[name] != [] then f[name][0] else ""
  {
  }

  lemma VariantsMean(f: Fields, g: Fields)
    ensures Variants(f) == Variants(g) <==> SameVariants(f, g)
    ensures NulFreeFirsts(f) ==> NulFreeAll(Variants(f))
  {
    hide Variants;
    forall k | 0 <= k < 5
      ensures Variants(f)[k] == Variants(g)[k] <==> SameFirst(f, g, SUPPORTED_VARY_HEADERS[k])
      ensures NulFreeFirsts(f) ==> NulFree(Variants(f)[k])
    {
      VariantAt(f, k);
      VariantAt(g, k);
    }
    var v, w := Variants(f), Variants(g);
    assert v == w <==> forall k :: 0 <= k < 5 ==> v[k] == w[k];
    assert SUPPORTED_VARY_HEADERS[0] == "accept" && SUPPORTED_VARY_HEADERS[1] == "accept-language"
           && SUPPORTED_VARY_HEADERS[2] == "accept-encoding" && SUPPORTED_VARY_HEADERS[3] == "origin"
           && SUPPORTED_VARY_HEADERS[4] == "authorization";
  }

  /** What is hashed for two requests is the same exactly when subject and first header values are. */
  lemma HashedAlike(s: string, f: Fields, t: string, g: Fields)
    requires NulFree(s) && NulFree(t) && NulFreeFirsts(f) && NulFreeFirsts(g)
    ensures KeyText(s, Variants(f)) == KeyText(t, Variants(g)) <==> s == t && SameVariants(f, g)
  {
    hide KeyText, Variants;
    VariantsMean(f, g);
    VariantsMean(g, f);
    KeyTextInjective(s, Variants(f), t, Variants(g));
  }
}
