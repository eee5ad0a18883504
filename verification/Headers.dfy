/** Header multimaps, the headers the proxy strips, and the fresh and cached header paths
    (src/cors.rs, src/proxy.rs, src/cache.rs). */
module Headers {
  import opened Prelude
  import opened Text

  /** The values of every present name, in order; names are lower case. */
  type Fields = map<string, seq<string>>

  function Values(f: Fields, name: string): seq<string> {
    if name in f then f[name] else []
  }

  function Appended(f: Fields, name: string, value: string): Fields {
    f[name := Values(f, name) + [value]]
  }

  function Inserted(f: Fields, name: string, value: string): Fields {
    f[name := [value]]
  }

  function Removed(f: Fields, name: string): Fields {
    f - {name}
  }

  /** The values of `name` in a listing of name/value pairs. */
  function Listed(items: seq<(string, string)>, name: string): seq<string> {
    if items == [] then []
    else (if items[0].0 == name then [items[0].1] else []) + Listed(items[1..], name)
  }

  lemma {:induction false} ListedAppend(a: seq<(string, string)>, b: seq<(string, string)>, name: string)
    ensures Listed(a + b, name) == Listed(a, name) + Listed(b, name)
  {
    if a == [] {
      assert a + b == b;
    } else {
      assert (a + b)[1..] == a[1..] + b && (a + b)[0] == a[0];
      ListedAppend(a[1..], b, name);
      var first, u, v := if a[0].0 == name then [a[0].1] else [], Listed(a[1..], name), Listed(b, name);
      assert first + (u + v) == first + u + v;
    }
  }

  function Pairs(name: string, values: seq<string>): (r: seq<(string, string)>)
    ensures forall i :: 0 <= i < |r| ==> r[i].0 == name
  {
    if values == [] then [] else [(name, values[0])] + Pairs(name, values[1..])
  }

  lemma {:induction false} ListedPairs(name: string, values: seq<string>, n: string)
    ensures Listed(Pairs(name, values), n) == if n == name then values else []
  {
    if values != [] {
      assert Pairs(name, values)[1..] == Pairs(name, values[1..]);
      ListedPairs(name, values[1..], n);
    }
  }

  lemma ListedNothing()
    ensures forall name :: Listed([], name) == []
  {
  }

  lemma ListedGrows(items: seq<(string, string)>, name: string, values: seq<string>)
    ensures forall n :: Listed(items + Pairs(name, values), n) == Listed(items, n) + if n == name then values else []
  {
    forall n ensures Listed(items + Pairs(name, values), n) == Listed(items, n) + if n == name then values else [] {
      ListedAppend(items, Pairs(name, values), n);
      ListedPairs(name, values, n);
    }
  }

  ghost predicate ListsFields(items: seq<(string, string)>, f: Fields) {
    && (forall name :: Listed(items, name) == Values(f, name))
    && (forall i :: 0 <= i < |items| ==> items[i].0 in f)
  }

  class HeaderMap {
    var fields: Fields

    constructor ()
      ensures fields == map[]
    {
      fields := map[];
    }

    method Append(name: string, value: string)
      modifies this
      ensures fields == Appended(old(fields), name, value)
    {
      fields := fields[name := (if name in fields then fields[name] else []) + [value]];
    }

    method Insert(name: string, value: string)
      modifies this
      ensures fields == Inserted(old(fields), name, value)
    {
      fields := fields[name := [value]];
    }

    method Remove(name: string)
      modifies this
      ensures fields == Removed(old(fields), name)
    {
      fields := fields - {name};
    }

    /** Iteration: names in an arbitrary order, the values of each name in their order. */
    method Iter() returns (items: seq<(string, string)>)
      ensures ListsFields(items, fields)
    {
      hide Listed, Pairs;
      items := [];
      ListedNothing();
      var names := fields.Keys;
      while names != {}
        invariant names <= fields.Keys
        invariant forall name :: Listed(items, name) == if name in names then [] else Values(fields, name)
        invariant forall i :: 0 <= i < |items| ==> items[i].0 in fields
        decreases names
      {
        var name :| name in names;
        ListedGrows(items, name, fields[name]);
        var longer := items + Pairs(name, fields[name]);
        forall n ensures Listed(longer, n) == if n in names - {name} then [] else Values(fields, n) {
          assert Listed(items, n) == if n in names then [] else Values(fields, n);
        }
        items, names := longer, names - {name};
      }
    }
  }

  // ---------- Stripped headers ----------

  const HOP_BY_HOP_HEADERS: set<string> := {
    "connection", "keep-alive", "proxy-authenticate", "proxy-authorization", "te", "trailers",
    "transfer-encoding", "upgrade", "x-forwarded-for", "x-forwarded-host", "x-forwarded-proto",
    "x-forwarded-port", "x-real-ip", "forwarded"
  }

  const CORS_RESPONSE_HEADERS: set<string> := {
    "access-control-allow-origin", "access-control-allow-credentials", "access-control-allow-headers",
    "access-control-allow-methods", "access-control-max-age"
  }

  const CACHE_DIAGNOSTIC_HEADER: string := "x-cache"
  const CONTENT_LENGTH: string := "content-length"

  predicate IsHopByHop(name: string) {
    HasPrefix(Lower(name), "x-forwarded-") || Lower(name) in HOP_BY_HOP_HEADERS
  }

  predicate IsCorsResponseHeader(name: string) {
    Lower(name) in CORS_RESPONSE_HEADERS
  }

  /** `HeaderValue::to_str` succeeds: visible ASCII, space and tab. */
  predicate Visible(value: string) {
    forall i :: 0 <= i < |value| ==> ' ' <= value[i] <= '~' || value[i] == '\t'
  }

  function LowerAll(parts: seq<string>): seq<string> {
    if parts == [] then [] else [Lower(parts[0])] + LowerAll(parts[1..])
  }

  function TrimmedParts(parts: seq<string>): seq<string> {
    if parts == [] then []
    else (if Trim(parts[0]) == [] then [] else [Trim(parts[0])]) + TrimmedParts(parts[1..])
  }

  /** The nonempty comma-separated tokens of the visible values, in lower case. */
  function Tokens(values: seq<string>): seq<string> {
    if values == [] then []
    else (if Visible(values[0]) then LowerAll(TrimmedParts(Split(values[0], ','))) else []) + Tokens(values[1..])
  }

  /** The headers nominated by Connection. */
  function ConnectionHeaders(f: Fields): seq<string> {
    Tokens(Values(f, "connection"))
  }

  // ---------- The fresh path ----------

  predicate DroppedFresh(name: string, nominated: seq<string>, mayBeTruncated: bool) {
    IsHopByHop(name) || IsCorsResponseHeader(name) || name in nominated || (mayBeTruncated && name == CONTENT_LENGTH)
  }

  lemma ListedPrefixes(items: seq<(string, string)>, i: nat)
    requires i < |items|
    ensures forall name :: Listed(items[..i + 1], name)
                           == Listed(items[..i], name) + if items[i].0 == name then [items[i].1] else []
  {
    assert items[..i + 1] == items[..i] + [items[i]];
    forall name ensures Listed(items[..i + 1], name)
                        == Listed(items[..i], name) + if items[i].0 == name then [items[i].1] else []
    {
      ListedAppend(items[..i], [items[i]], name);
    }
  }

  /** Appends the listed pairs whose name is kept, in order. */
  method AppendKept(out: HeaderMap, items: seq<(string, string)>, keep: string -> bool)
    requires out.fields == map[]
    modifies out
    ensures forall name :: Values(out.fields, name) == if keep(name) then Listed(items, name) else []
  {
    hide Listed;
    ListedNothing();
    assert items[..0] == [];
    for i := 0 to |items|
      invariant forall name :: Values(out.fields, name) == if keep(name) then Listed(items[..i], name) else []
    {
      ListedPrefixes(items, i);
      if keep(items[i].0) {
        out.Append(items[i].0, items[i].1);
      }
    }
    assert items[..|items|] == items;
  }

  method CopyResponseHeaders(source: HeaderMap, mayBeTruncated: bool) returns (out: HeaderMap)
    ensures fresh(out)
    ensures forall name :: Values(out.fields, name) ==
                           if DroppedFresh(name, ConnectionHeaders(source.fields), mayBeTruncated) then []
                           else Values(source.fields, name)
  {
    out := new HeaderMap();
    var nominated := ConnectionHeaders(source.fields);
    var items := source.Iter();
    AppendKept(out, items, name => !DroppedFresh(name, nominated, mayBeTruncated));
  }

  // ---------- The cached path ----------

  predicate KeptInCache(name: string, value: string) {
    name != CACHE_DIAGNOSTIC_HEADER && !IsHopByHop(name) && !IsCorsResponseHeader(name) && name != "connection"
    && Visible(value)
  }

  /** `cache_headers`: what an entry stores. */
  function CacheHeaders(items: seq<(string, string)>): seq<(string, string)> {
    if items == [] then []
    else (if KeptInCache(items[0].0, items[0].1) then [items[0]] else []) + CacheHeaders(items[1..])
  }

  predicate IsTokenChar(c: char) {
    'a' <= c <= 'z' || 'A' <= c <= 'Z' || '0' <= c <= '9' || c in "!#$%&'*+-.^_`|~"
  }

  /** `HeaderName::from_bytes`: token characters only, normalised to lower case. */
  function HeaderName(s: string): Option<string> {
    if s != [] && forall i :: 0 <= i < |s| ==> IsTokenChar(s[i]) then Some(Lower(s)) else None
  }

  /** The values of `name` that one stored pair gives back: none when it is not a header any more. */
  function RestoredOne(item: (string, string), name: string): seq<string> {
    if HeaderName(item.0) == Some(name) && Visible(item.1) && !IsCorsResponseHeader(name) then [item.1] else []
  }

  function Restored(stored: seq<(string, string)>, name: string): seq<string> {
    if stored == [] then [] else RestoredOne(stored[0], name) + Restored(stored[1..], name)
  }

  lemma {:induction false} RestoredAppend(a: seq<(string, string)>, item: (string, string), name: string)
    ensures Restored(a + [item], name) == Restored(a, name) + RestoredOne(item, name)
  {
    if a == [] {
      assert a + [item] == [item] && [item][1..] == [];
    } else {
      assert (a + [item])[1..] == a[1..] + [item];
      RestoredAppend(a[1..], item, name);
    }
  }

  method RestoreOne(out: HeaderMap, item: (string, string))
    modifies out
    ensures forall name :: Values(out.fields, name) == Values(old(out.fields), name) + RestoredOne(item, name)
  {
    var name, value := HeaderName(item.0), item.1;
    if name.Some? && Visible(value) && !IsCorsResponseHeader(name.value) {
      out.Append(name.value, value);
    }
  }

  /** `headers_from_entry`. */
  method HeadersFromEntry(stored: seq<(string, string)>) returns (out: HeaderMap)
    ensures fresh(out)
    ensures forall name :: Values(out.fields, name) == Restored(stored, name)
  {
    out := new HeaderMap();
    for i := 0 to |stored|
      invariant fresh(out)
      invariant forall name :: Values(out.fields, name) == Restored(stored[..i], name)
    {
      assert stored[..i + 1] == stored[..i] + [stored[i]];
      forall name ensures Restored(stored[..i + 1], name) == Restored(stored[..i], name) + RestoredOne(stored[i], name) {
        RestoredAppend(stored[..i], stored[i], name);
      }
      RestoreOne(out, stored[i]);
    }
    assert stored[..|stored|] == stored;
  }

  /** Names as a header map holds them. */
  ghost predicate ProperName(name: string) {
    HeaderName(name) == Some(name)
  }

  ghost predicate ProperFields(f: Fields) {
    forall name :: name in f ==> ProperName(name) && f[name] != []
  }

  function VisibleOnes(values: seq<string>): seq<string> {
    if values == [] then [] else (if Visible(values[0]) then [values[0]] else []) + VisibleOnes(values[1..])
  }

  ghost predicate AllVisible(values: seq<string>) {
    forall v :: v in values ==> Visible(v)
  }

  lemma {:induction false} VisibleOnesOfAll(values: seq<string>)
    ensures |VisibleOnes(values)| <= |values|
    ensures VisibleOnes(values) == values <==> AllVisible(values)
  {
    if values != [] {
      VisibleOnesOfAll(values[1..]);
      if Visible(values[0]) {
        assert VisibleOnes(values)[1..] == VisibleOnes(values[1..]);
        assert values == [values[0]] + values[1..];
      }
    }
  }

  predicate DroppedCached(name: string) {
    name == CACHE_DIAGNOSTIC_HEADER || IsHopByHop(name) || IsCorsResponseHeader(name)
  }

  lemma StoreRestoreOne(item: (string, string), name: string)
    requires ProperName(item.0)
    ensures (if KeptInCache(item.0, item.1) then RestoredOne(item, name) else [])
            == if item.0 == name && !DroppedCached(name) && Visible(item.1) then [item.1] else []
  {
    ConnectionIsHopByHop();
  }

  lemma {:induction false} StoreRestore(items: seq<(string, string)>, name: string)
    requires forall i :: 0 <= i < |items| ==> ProperName(items[i].0)
    ensures Restored(CacheHeaders(items), name) == if DroppedCached(name) then [] else VisibleOnes(Listed(items, name))
  {
    if items != [] {
      StoreRestore(items[1..], name);
      StoreRestoreOne(items[0], name);
      var rest := CacheHeaders(items[1..]);
      assert ([items[0]] + rest)[1..] == rest && [] + rest == rest;
      var listed := Listed(items[1..], name);
      assert ([items[0].1] + listed)[1..] == listed && [] + listed == listed;
    }
  }

  // ---------- Fresh and cached headers side by side ----------

  /** `copy_response_headers` and the diagnostic header, before overrides. */
  method FreshHeaders(source: HeaderMap, resultMax: nat, status: string) returns (out: HeaderMap)
    ensures fresh(out)
    ensures forall name :: Values(out.fields, name) == FreshValues(source.fields, resultMax, status, name)
  {
    out := CopyResponseHeaders(source, resultMax != 0);
    out.Insert(CACHE_DIAGNOSTIC_HEADER, status);
  }

  function FreshValues(f: Fields, resultMax: nat, status: string, name: string): seq<string> {
    if name == CACHE_DIAGNOSTIC_HEADER then [status]
    else if DroppedFresh(name, ConnectionHeaders(f), resultMax != 0) then []
    else Values(f, name)
  }

  /** What a write stores and a later hit sends, before overrides. */
  method CachedHeaders(source: HeaderMap, resultMax: nat, status: string) returns (out: HeaderMap)
    requires ProperFields(source.fields)
    ensures fresh(out)
    ensures forall name :: Values(out.fields, name) == CachedValues(source.fields, resultMax, status, name)
  {
    var items := source.Iter();
    forall name ensures Restored(CacheHeaders(items), name) ==
                        if DroppedCached(name) then [] else VisibleOnes(Values(source.fields, name))
    {
      StoreRestore(items, name);
    }
    out := HeadersFromEntry(CacheHeaders(items));
    if resultMax != 0 {
      out.Remove(CONTENT_LENGTH);
    }
    out.Insert(CACHE_DIAGNOSTIC_HEADER, status);
  }

  function CachedValues(f: Fields, resultMax: nat, status: string, name: string): seq<string> {
    if name == CACHE_DIAGNOSTIC_HEADER then [status]
    else if DroppedCached(name) || (resultMax != 0 && name == CONTENT_LENGTH) then []
    else VisibleOnes(Values(f, name))
  }

  /** Exactly when a hit and the miss that stored it send the same values of a name. */
  lemma FreshAndCachedAgree(f: Fields, resultMax: nat, miss: string, hit: string, name: string)
    requires name != CACHE_DIAGNOSTIC_HEADER
    ensures FreshValues(f, resultMax, miss, name) == CachedValues(f, resultMax, hit, name) <==>
            || IsHopByHop(name) || IsCorsResponseHeader(name) || (resultMax != 0 && name == CONTENT_LENGTH)
            || (if name in ConnectionHeaders(f) then forall v :: v in Values(f, name) ==> !Visible(v)
                else AllVisible(Values(f, name)))
  {
    VisibleOnesOfAll(Values(f, name));
    NoVisibleOnes(Values(f, name));
  }

  lemma {:induction false} NoVisibleOnes(values: seq<string>)
    ensures VisibleOnes(values) == [] <==> forall v :: v in values ==> !Visible(v)
  {
    if values != [] {
      NoVisibleOnes(values[1..]);
      assert values == [values[0]] + values[1..];
    }
  }

  /** When Connection nominates no surviving header and all values are visible, hit and miss agree on
      every name but the diagnostic one, and neither carries a hop-by-hop or an upstream CORS header. */
  lemma HitSendsWhatMissSent(f: Fields, resultMax: nat, miss: string, hit: string, name: string)
    requires name != CACHE_DIAGNOSTIC_HEADER
    requires forall n :: n in f && n in ConnectionHeaders(f) ==> IsHopByHop(n) || IsCorsResponseHeader(n)
    requires forall n :: n in f ==> AllVisible(f[n])
    ensures FreshValues(f, resultMax, miss, name) == CachedValues(f, resultMax, hit, name)
    ensures IsHopByHop(name) || IsCorsResponseHeader(name) ==> FreshValues(f, resultMax, miss, name) == []
  {
    FreshAndCachedAgree(f, resultMax, miss, hit, name);
  }

  // ---------- Requests to the target ----------

  /** `forward_headers`: hop-by-hop and nominated headers are stripped, Host is the target's. */
  method ForwardHeaders(source: HeaderMap, host: Option<string>) returns (out: HeaderMap)
    ensures fresh(out)
    ensures forall name :: Values(out.fields, name) ==
                           if name == "host" then (if host.Some? then [host.value] else [])
                           else if IsHopByHop(name) || name in ConnectionHeaders(source.fields) then []
                           else Values(source.fields, name)
  {
    out := new HeaderMap();
    var nominated := ConnectionHeaders(source.fields);
    var items := source.Iter();
    AppendKept(out, items, name => !IsHopByHop(name) && name !in nominated && name != "host");
    if host.Some? {
      out.Insert("host", host.value);
    }
  }

  // ---------- Vary on the way out ----------

  predicate Nominates(values: seq<string>, field: string) {
    exists i :: 0 <= i < |values| && Visible(values[i]) &&
                exists j :: 0 <= j < |Split(values[i], ',')| && Lower(Trim(Split(values[i], ',')[j])) == Lower(field)
  }

  /** `add_vary_field` for a field that is a plain token: afterwards it is nominated, once more at most. */
  method AddVaryField(headers: HeaderMap, field: string)
    requires Visible(field) && Split(field, ',') == [field] && Trim(field) == field
    modifies headers
    ensures Nominates(Values(headers.fields, "vary"), field)
    ensures headers.fields == if Nominates(Values(old(headers.fields), "vary"), field) then old(headers.fields)
                              else Appended(old(headers.fields), "vary", field)
  {
    if Nominates(Values(headers.fields, "vary"), field) {
      return;
    }
    headers.Append("vary", field);
    var values := Values(headers.fields, "vary");
    assert values[|values| - 1] == field && Split(field, ',')[0] == field;
  }

  // ---------- What the tables and readers mean ----------

  /** The connection-specific headers of section 6.1 of RFC 7230, and those a proxy adds about the client. */
  ghost predicate HopByHopName(n: string) {
    || n == "connection" || n == "keep-alive" || n == "te" || n == "trailers" || n == "transfer-encoding" || n == "upgrade"
    || n == "proxy-authenticate" || n == "proxy-authorization"
    || "x-forwarded-" <= n || n == "x-real-ip" || n == "forwarded"
  }

  /** The response headers the CORS layer generates. */
  ghost predicate CorsName(n: string) {
    || n == "access-control-allow-origin" || n == "access-control-allow-credentials" || n == "access-control-max-age"
    || n == "access-control-allow-headers" || n == "access-control-allow-methods"
  }

  lemma StrippedNames(name: string)
    ensures IsHopByHop(name) <==> HopByHopName(Lower(name))
    ensures IsCorsResponseHeader(name) <==> CorsName(Lower(name))
  {
    var n := Lower(name);
    assert n == "x-forwarded-for" || n == "x-forwarded-host" || n == "x-forwarded-proto" || n == "x-forwarded-port" ==>
        "x-forwarded-" <= n;
  }

  /** Visible ASCII, spaces and tabs. */
  ghost predicate PrintableText(v: string) {
    forall i :: 0 <= i < |v| ==> 32 <= v[i] as int <= 126 || v[i] as int == 9
  }

  lemma VisibleMeans(v: string)
    ensures Visible(v) <==> PrintableText(v)
  {
  }

  /** A part of a comma-separated list, whatever its case and the blanks around it, in a value that is text. */
  ghost predicate ListedAs(value: string, j: nat, t: string) {
    PrintableText(value) && j < |Split(value, ',')| && Lower(Trim(Split(value, ',')[j])) == t
  }

  ghost predicate Nominated(values: seq<string>, t: string) {
    t != [] && exists i, j :: 0 <= i < |values| && ListedAs(values[i], j, t)
  }

  lemma {:induction false} PartsMean(parts: seq<string>, t: string)
    ensures t in LowerAll(TrimmedParts(parts)) <==> t != [] && exists j :: 0 <= j < |parts| && Lower(Trim(parts[j])) == t
  {
    if parts != [] {
      PartsMean(parts[1..], t);
      var w := Trim(parts[0]);
      var rest := TrimmedParts(parts[1..]);
      assert LowerAll([] + rest) == LowerAll(rest) by { assert [] + rest == rest; }
      assert LowerAll([w] + rest) == [Lower(w)] + LowerAll(rest) by { assert ([w] + rest)[1..] == rest; }
      if j :| 0 <= j < |parts| && Lower(Trim(parts[j])) == t {
        assert j > 0 ==> Lower(Trim(parts[1..][j - 1])) == t;
      }
      if j :| 0 <= j < |parts[1..]| && Lower(Trim(parts[1..][j])) == t {
        assert Lower(Trim(parts[j + 1])) == t;
      }
    }
  }

  /** A token list holds exactly the parts of its values that are text. */
  lemma {:induction false} TokensMean(values: seq<string>, t: string)
    ensures t in Tokens(values) <==> Nominated(values, t)
  {
    if values != [] {
      TokensMean(values[1..], t);
      PartsMean(Split(values[0], ','), t);
      VisibleMeans(values[0]);
      if j :| 0 <= j < |Split(values[0], ',')| && Lower(Trim(Split(values[0], ',')[j])) == t && PrintableText(values[0]) {
        assert ListedAs(values[0], j, t);
      }
      if i, j :| 0 <= i < |values| && ListedAs(values[i], j, t) {
        assert i > 0 ==> ListedAs(values[1..][i - 1], j, t);
      }
      if i, j :| 0 <= i < |values[1..]| && ListedAs(values[1..][i], j, t) {
        assert ListedAs(values[i + 1], j, t);
      }
    }
  }

  /** Which headers of a response go: in terms of the header text itself. */
  lemma FreshStripping(f: Fields, name: string, mayBeTruncated: bool)
    requires name != []
    ensures DroppedFresh(name, ConnectionHeaders(f), mayBeTruncated) <==>
            || HopByHopName(Lower(name)) || CorsName(Lower(name)) || Nominated(Values(f, "connection"), name)
            || (mayBeTruncated && name == "content-length")
  {
    hide Tokens, Nominated;
    StrippedNames(name);
    TokensMean(Values(f, "connection"), name);
  }

  /** Which headers of a response are not stored for later, or not restored. */
  lemma CachedStripping(name: string)
    ensures DroppedCached(name) <==> name == "x-cache" || HopByHopName(Lower(name)) || CorsName(Lower(name))
  {
    StrippedNames(name);
  }

  /** The headers of a miss and of a later hit, before overrides, in terms of the upstream's header text. */
  lemma SentHeaders(f: Fields, resultMax: nat, status: string, name: string)
    requires name != []
    ensures FreshValues(f, resultMax, status, name) ==
            if name == "x-cache" then [status]
            else if HopByHopName(Lower(name)) || CorsName(Lower(name)) || Nominated(Values(f, "connection"), name)
                    || (resultMax != 0 && name == "content-length") then []
            else Values(f, name)
    ensures CachedValues(f, resultMax, status, name) ==
            if name == "x-cache" then [status]
            else if HopByHopName(Lower(name)) || CorsName(Lower(name)) || (resultMax != 0 && name == "content-length") then []
            else VisibleOnes(Values(f, name))
  {
    FreshStripping(f, name, resultMax != 0);
    CachedStripping(name);
  }

  /** Which headers of a request go to the target. */
  lemma ForwardStripping(f: Fields, name: string)
    requires name != []
    ensures IsHopByHop(name) || name in ConnectionHeaders(f) <==>
            HopByHopName(Lower(name)) || Nominated(Values(f, "connection"), name)
  {
    hide Tokens, Nominated;
    StrippedNames(name);
    TokensMean(Values(f, "connection"), name);
  }

  /** A Vary list nominates a field when one of its parts is the field, in any case. */
  lemma NominatesMeans(values: seq<string>, field: string)
    requires field != []
    ensures Nominates(values, field) <==> Nominated(values, Lower(field))
  {
    if Nominates(values, field) {
      var i :| 0 <= i < |values| && Visible(values[i]) &&
               exists j :: 0 <= j < |Split(values[i], ',')| && Lower(Trim(Split(values[i], ',')[j])) == Lower(field);
      var j :| 0 <= j < |Split(values[i], ',')| && Lower(Trim(Split(values[i], ',')[j])) == Lower(field);
      VisibleMeans(values[i]);
      assert ListedAs(values[i], j, Lower(field));
    }
    if i, j :| 0 <= i < |values| && ListedAs(values[i], j, Lower(field)) {
      VisibleMeans(values[i]);
    }
  }

  /** The characters of a token in section 3.2.6 of RFC 7230. */
  ghost predicate IsToken(s: string) {
    s != [] && forall i :: 0 <= i < |s| ==> s[i] in UPPER || s[i] in LOWER || s[i] in "0123456789" || s[i] in "!#$%&'*+-.^_`|~"
  }

  /** A header name is any token, and is kept in lower case. */
  lemma HeaderNameMeans(s: string, n: string)
    ensures HeaderName(s) == Some(n) <==> IsToken(s) && n == Lower(s)
  {
    hide Lower;
    forall i | 0 <= i < |s|
      ensures IsTokenChar(s[i]) <==> s[i] in UPPER || s[i] in LOWER || s[i] in "0123456789" || s[i] in "!#$%&'*+-.^_`|~"
    {
      TokenChar(s[i]);
    }
  }

  lemma TokenChar(c: char)
    ensures 'A' <= c <= 'Z' <==> c in UPPER
    ensures 'a' <= c <= 'z' <==> c in LOWER
    ensures '0' <= c <= '9' <==> c in "0123456789"
  {
    Letters(c);
    Digits(c);
  }

  lemma Letters(c: char)
    ensures 'A' <= c <= 'Z' <==> c in UPPER
    ensures 'a' <= c <= 'z' <==> c in LOWER
  {
    forall k | 0 <= k < 26 ensures UPPER[k] as int == 65 + k && LOWER[k] as int == 97 + k {
      LetterAt(k);
    }
    LetterSet(UPPER, 65, c);
    LetterSet(LOWER, 97, c);
  }

  lemma LetterSet(letters: string, base: nat, c: char)
    requires |letters| == 26 && base < 1000 && forall k :: 0 <= k < 26 ==> letters[k] as int == base + k
    ensures base <= c as int < base + 26 <==> c in letters
  {
    if base <= c as int < base + 26 {
      assert letters[c as int - base] == c;
    }
  }

  lemma Digits(c: char)
    ensures '0' <= c <= '9' <==> c in "0123456789"
  {
    if '0' <= c <= '9' {
      assert "0123456789"[c as int - 48] == c;
    }
  }

  /** Which pairs an entry stores. */
  lemma StoredPairs(name: string, value: string)
    ensures KeptInCache(name, value) <==>
            name != "x-cache" && !HopByHopName(Lower(name)) && !CorsName(Lower(name)) && PrintableText(value)
  {
    hide IsHopByHop, HopByHopName, IsCorsResponseHeader, CorsName, Visible, PrintableText;
    StrippedNames(name);
    VisibleMeans(value);
    ConnectionIsHopByHop();
  }

  lemma ConnectionIsHopByHop()
    ensures IsHopByHop("connection")
  {
    assert Lower("connection") == "connection";
  }

  /** What one stored pair gives back, whatever wrote it: a visible value under its token, unless that is a CORS name. */
  lemma RestoredPairs(item: (string, string), name: string)
    ensures RestoredOne(item, name) ==
            if IsToken(item.0) && name == Lower(item.0) && PrintableText(item.1) && !CorsName(Lower(name)) then [item.1] else []
  {
    hide HeaderName, IsToken, Visible, PrintableText, IsCorsResponseHeader, CorsName;
    HeaderNameMeans(item.0, name);
    VisibleMeans(item.1);
    StrippedNames(name);
  }
}
