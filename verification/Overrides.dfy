/** Configured response-header overrides: what they may touch and what they leave (src/headers.rs). */
module Overrides {
  import opened Prelude
  import opened Text
  import opened Headers
  import opened Rules

  const FORBIDDEN_HEADER_NAMES: set<string> := {
    "content-length", "access-control-allow-origin", "access-control-allow-credentials",
    "access-control-allow-headers", "access-control-allow-methods", "access-control-max-age", "x-cache"
  }

  /** The headers managed by the proxy. */
  predicate Managed(name: string) {
    IsHopByHop(name) || Lower(name) in FORBIDDEN_HEADER_NAMES
  }

  type Pairs = seq<(string, string)>

  datatype OverrideConfig = OverrideConfig(site: string, remove: seq<string>, add: Pairs, replace: Pairs)

  datatype OverrideRule = OverrideRule(site: MatchEntry, remove: seq<string>, add: Pairs, replace: Pairs)

  datatype OverrideError = BadSite | BadName(name: string) | BadValue(name: string)

  // ---------- Compiling ----------

  /** `parse_header_name`. */
  function ParseHeaderName(name: string): Result<string, OverrideError> {
    var trimmed := Trim(name);
    if Managed(Lower(trimmed)) then Err(BadName(trimmed))
    else match HeaderName(trimmed)
      case None => Err(BadName(trimmed))
      case Some(n) => Ok(n)
  }

  function ParseNames(names: seq<string>): Result<seq<string>, OverrideError> {
    if names == [] then Ok([])
    else match ParseHeaderName(names[0])
      case Err(e) => Err(e)
      case Ok(name) =>
        match ParseNames(names[1..])
        case Err(e) => Err(e)
        case Ok(rest) => Ok([name] + rest)
  }

  /** `parse_header_pairs`; a header value must be visible text. */
  function ParsePairs(pairs: Pairs): Result<Pairs, OverrideError> {
    if pairs == [] then Ok([])
    else match ParseHeaderName(pairs[0].0)
      case Err(e) => Err(e)
      case Ok(name) =>
        if !Visible(Trim(pairs[0].1)) then Err(BadValue(pairs[0].0))
        else match ParsePairs(pairs[1..])
          case Err(e) => Err(e)
          case Ok(rest) => Ok([(name, Trim(pairs[0].1))] + rest)
  }

  ghost predicate Harmless(rule: OverrideRule) {
    && (forall i :: 0 <= i < |rule.remove| ==> !Managed(rule.remove[i]))
    && (forall i :: 0 <= i < |rule.add| ==> !Managed(rule.add[i].0))
    && (forall i :: 0 <= i < |rule.replace| ==> !Managed(rule.replace[i].0))
  }

  lemma ParsedNameIsHarmless(name: string)
    ensures ParseHeaderName(name).Ok? ==> !Managed(ParseHeaderName(name).value)
    ensures ParseHeaderName(name).Err? ==> ParseHeaderName(name).error.BadName?
  {
    LowerTwice(Trim(name));
  }

  lemma {:induction false} ParsedNamesAreHarmless(names: seq<string>)
    ensures ParseNames(names).Ok? ==>
              forall i :: 0 <= i < |ParseNames(names).value| ==> !Managed(ParseNames(names).value[i])
    ensures ParseNames(names).Err? ==> ParseNames(names).error.BadName?
  {
    if names != [] {
      ParsedNameIsHarmless(names[0]);
      ParsedNamesAreHarmless(names[1..]);
    }
  }

  lemma {:induction false} ParsedPairsAreHarmless(pairs: Pairs)
    ensures ParsePairs(pairs).Ok? ==>
              forall i :: 0 <= i < |ParsePairs(pairs).value| ==> !Managed(ParsePairs(pairs).value[i].0)
    ensures ParsePairs(pairs).Err? ==> !ParsePairs(pairs).error.BadSite?
  {
    if pairs != [] {
      ParsedNameIsHarmless(pairs[0].0);
      ParsedPairsAreHarmless(pairs[1..]);
    }
  }

  /** The configured rules that compile: site, names and values all parse. */
  ghost predicate Compiles(config: OverrideConfig, engine: Engine) {
    && EntryParses(config.site, engine)
    && ParseNames(config.remove).Ok? && ParsePairs(config.add).Ok? && ParsePairs(config.replace).Ok?
  }

  /** The compiled rule hits where the configured site means to, and does what is configured. */
  ghost predicate CompiledFrom(rule: OverrideRule, config: OverrideConfig, engine: Engine) {
    && (forall subject :: EntryMatches(rule.site, subject, engine) <==> EntryMeans(config.site, subject, engine))
    && ParseNames(config.remove) == Ok(rule.remove)
    && ParsePairs(config.add) == Ok(rule.add) && ParsePairs(config.replace) == Ok(rule.replace)
  }

  /** `HeaderOverrideRule::new`: a rule that compiles touches no managed header. */
  method NewRule(config: OverrideConfig, engine: Engine) returns (r: Result<OverrideRule, OverrideError>)
    ensures r.Ok? <==> Compiles(config, engine)
    ensures r.Ok? ==> Harmless(r.value) && CompiledFrom(r.value, config, engine)
    ensures r.Err? ==> (r.error == BadSite <==> !EntryParses(config.site, engine))
  {
    hide EntryParses, EntryMeans, EntryMatches, ParseNames, ParsePairs, Managed;
    ParsedNamesAreHarmless(config.remove);
    ParsedPairsAreHarmless(config.add);
    ParsedPairsAreHarmless(config.replace);
    var site := ParseEntry(config.site, engine);
    if site.Err? {
      return Err(BadSite);
    }
    var remove, add, replace := ParseNames(config.remove), ParsePairs(config.add), ParsePairs(config.replace);
    if remove.Err? {
      return Err(remove.error);
    }
    if add.Err? {
      return Err(add.error);
    }
    if replace.Err? {
      return Err(replace.error);
    }
    return Ok(OverrideRule(site.value, remove.value, add.value, replace.value));
  }

  /** `HeaderOverridePolicy::new`: all rules or the first error. */
  method CompilePolicy(configs: seq<OverrideConfig>, engine: Engine) returns (r: Result<seq<OverrideRule>, OverrideError>)
    ensures r.Ok? <==> forall i :: 0 <= i < |configs| ==> Compiles(configs[i], engine)
    ensures r.Ok? ==> |r.value| == |configs| &&
                      forall i :: 0 <= i < |configs| ==> Harmless(r.value[i]) && CompiledFrom(r.value[i], configs[i], engine)
  {
    hide Harmless, CompiledFrom, Compiles;
    var rules := [];
    for i := 0 to |configs|
      invariant |rules| == i
      invariant forall j :: 0 <= j < i ==>
                  Compiles(configs[j], engine) && Harmless(rules[j]) && CompiledFrom(rules[j], configs[j], engine)
    {
      var rule := NewRule(configs[i], engine);
      if rule.Err? {
        return Err(rule.error);
      }
      rules := rules + [rule.value];
    }
    return Ok(rules);
  }

  // ---------- Applying ----------

  datatype Op = Remove(name: string) | Add(name: string, value: string) | Set(name: string, value: string)

  function ApplyOp(f: Fields, op: Op): Fields {
    match op
    case Remove(name) => Removed(f, name)
    case Add(name, value) => Appended(f, name, value)
    case Set(name, value) => Inserted(f, name, value)
  }

  function ApplyOps(f: Fields, ops: seq<Op>): Fields
    decreases |ops|
  {
    if ops == [] then f else ApplyOps(ApplyOp(f, ops[0]), ops[1..])
  }

  function RemoveOps(names: seq<string>): seq<Op> {
    seq(|names|, i requires 0 <= i < |names| => Remove(names[i]))
  }

  function AddOps(pairs: Pairs): seq<Op> {
    seq(|pairs|, i requires 0 <= i < |pairs| => Add(pairs[i].0, pairs[i].1))
  }

  function SetOps(pairs: Pairs): seq<Op> {
    seq(|pairs|, i requires 0 <= i < |pairs| => Set(pairs[i].0, pairs[i].1))
  }

  function RuleOps(rule: OverrideRule): seq<Op> {
    RemoveOps(rule.remove) + AddOps(rule.add) + SetOps(rule.replace)
  }

  /** The operations of the rules that hit, in configuration order. */
  function PolicyOps(rules: seq<OverrideRule>, hits: seq<bool>): seq<Op>
    requires |hits| == |rules|
  {
    if rules == [] then []
    else PolicyOps(rules[..|rules| - 1], hits[..|rules| - 1])
         + if hits[|rules| - 1] then RuleOps(rules[|rules| - 1]) else []
  }

  lemma {:induction false} ApplyOpsAppend(f: Fields, a: seq<Op>, b: seq<Op>)
    ensures ApplyOps(f, a + b) == ApplyOps(ApplyOps(f, a), b)
    decreases |a|
  {
    if a == [] {
      assert a + b == b;
    } else {
      assert (a + b)[1..] == a[1..] + b;
      ApplyOpsAppend(ApplyOp(f, a[0]), a[1..], b);
    }
  }

  lemma ApplyOpsSnoc(f: Fields, ops: seq<Op>, i: nat)
    requires i < |ops|
    ensures ApplyOps(f, ops[..i + 1]) == ApplyOp(ApplyOps(f, ops[..i]), ops[i])
  {
    assert ops[..i + 1] == ops[..i] + [ops[i]];
    ApplyOpsAppend(f, ops[..i], [ops[i]]);
    assert ApplyOps(ApplyOps(f, ops[..i]), [ops[i]]) == ApplyOp(ApplyOps(f, ops[..i]), ops[i]);
  }

  lemma WholeProgram(f: Fields, ops: seq<Op>)
    ensures ApplyOps(f, ops[..0]) == f && ops[..|ops|] == ops
  {
  }

  /** `HeaderOverrideRule::apply`: removals, then additions, then replacements. */
  method ApplyRule(rule: OverrideRule, headers: HeaderMap)
    modifies headers
    ensures headers.fields == ApplyOps(old(headers.fields), RuleOps(rule))
  {
    hide ApplyOps, Appended, Inserted, Removed;
    ghost var f := headers.fields;
    ghost var removals, additions, sets := RemoveOps(rule.remove), AddOps(rule.add), SetOps(rule.replace);
    WholeProgram(f, removals);
    for i := 0 to |rule.remove|
      invariant headers.fields == ApplyOps(f, removals[..i])
    {
      ApplyOpsSnoc(f, removals, i);
      headers.Remove(rule.remove[i]);
    }
    ghost var g := headers.fields;
    WholeProgram(g, additions);
    for i := 0 to |rule.add|
      invariant headers.fields == ApplyOps(g, additions[..i])
    {
      ApplyOpsSnoc(g, additions, i);
      headers.Append(rule.add[i].0, rule.add[i].1);
    }
    ghost var h := headers.fields;
    WholeProgram(h, sets);
    for i := 0 to |rule.replace|
      invariant headers.fields == ApplyOps(h, sets[..i])
    {
      ApplyOpsSnoc(h, sets, i);
      headers.Insert(rule.replace[i].0, rule.replace[i].1);
    }
    ApplyOpsAppend(f, removals, additions);
    ApplyOpsAppend(f, removals + additions, sets);
  }

  /** Which rules hit: the site pattern matches the requested or the final URL. */
  function Hits(rules: seq<OverrideRule>, requested: string, final: string, engine: Engine): seq<bool> {
    seq(|rules|, i requires 0 <= i < |rules| =>
      EntryMatches(rules[i].site, requested, engine) || EntryMatches(rules[i].site, final, engine))
  }

  /** `HeaderOverridePolicy::apply`. */
  method ApplyPolicy(rules: seq<OverrideRule>, headers: HeaderMap, requested: string, final: string, engine: Engine)
    modifies headers
    ensures headers.fields == ApplyOps(old(headers.fields), PolicyOps(rules, Hits(rules, requested, final, engine)))
  {
    ghost var f := headers.fields;
    ghost var hits := Hits(rules, requested, final, engine);
    for i := 0 to |rules|
      invariant headers.fields == ApplyOps(f, PolicyOps(rules[..i], hits[..i]))
    {
      assert rules[..i + 1][..i] == rules[..i] && hits[..i + 1][..i] == hits[..i];
      if EntryMatches(rules[i].site, requested, engine) || EntryMatches(rules[i].site, final, engine) {
        ApplyOpsAppend(f, PolicyOps(rules[..i], hits[..i]), RuleOps(rules[i]));
        ApplyRule(rules[i], headers);
      } else {
        assert PolicyOps(rules[..i + 1], hits[..i + 1]) == PolicyOps(rules[..i], hits[..i]) + [];
        assert PolicyOps(rules[..i], hits[..i]) + [] == PolicyOps(rules[..i], hits[..i]);
      }
    }
    assert rules[..|rules|] == rules && hits[..|rules|] == hits;
  }

  // ---------- What a program of overrides does ----------

  function AddedValues(ops: seq<Op>, name: string): seq<string> {
    if ops == [] then []
    else (if ops[0].Add? && ops[0].name == name then [ops[0].value] else []) + AddedValues(ops[1..], name)
  }

  ghost predicate OnlyAdds(ops: seq<Op>, name: string) {
    forall i :: 0 <= i < |ops| && ops[i].name == name ==> ops[i].Add?
  }

  lemma {:induction false} AddsAppend(f: Fields, ops: seq<Op>, name: string)
    requires OnlyAdds(ops, name)
    ensures Values(ApplyOps(f, ops), name) == Values(f, name) + AddedValues(ops, name)
    decreases |ops|
  {
    if ops != [] {
      AddsAppend(ApplyOp(f, ops[0]), ops[1..], name);
    }
  }

  /** The last remove or set of a name, and the additions after it, decide the name's values. */
  lemma LastTouchDecides(f: Fields, ops: seq<Op>, name: string, i: nat)
    requires i < |ops| && ops[i].name == name && !ops[i].Add? && OnlyAdds(ops[i + 1..], name)
    ensures Values(ApplyOps(f, ops), name) ==
            (if ops[i].Set? then [ops[i].value] else []) + AddedValues(ops[i + 1..], name)
  {
    assert ops == ops[..i + 1] + ops[i + 1..];
    ApplyOpsAppend(f, ops[..i + 1], ops[i + 1..]);
    ApplyOpsSnoc(f, ops, i);
    AddsAppend(ApplyOps(f, ops[..i + 1]), ops[i + 1..], name);
  }

  lemma {:induction false} UntouchedStays(f: Fields, ops: seq<Op>, name: string)
    requires forall i :: 0 <= i < |ops| ==> ops[i].name != name
    ensures Values(ApplyOps(f, ops), name) == Values(f, name)
    decreases |ops|
  {
    if ops != [] {
      UntouchedStays(ApplyOp(f, ops[0]), ops[1..], name);
    }
  }

  lemma {:induction false} PolicyTouchesNoManaged(rules: seq<OverrideRule>, hits: seq<bool>)
    requires |hits| == |rules| && forall i :: 0 <= i < |rules| ==> Harmless(rules[i])
    ensures forall i :: 0 <= i < |PolicyOps(rules, hits)| ==> !Managed(PolicyOps(rules, hits)[i].name)
  {
    if rules != [] {
      var n := |rules| - 1;
      PolicyTouchesNoManaged(rules[..n], hits[..n]);
      RuleTouchesNoManaged(rules[n]);
    }
  }

  lemma RuleTouchesNoManaged(rule: OverrideRule)
    requires Harmless(rule)
    ensures forall i :: 0 <= i < |RuleOps(rule)| ==> !Managed(RuleOps(rule)[i].name)
  {
    hide Managed;
  }

  /** Whatever rules compiled and whichever of them hit, managed headers keep their values. */
  lemma ManagedHeadersStay(f: Fields, rules: seq<OverrideRule>, hits: seq<bool>, name: string)
    requires |hits| == |rules| && (forall i :: 0 <= i < |rules| ==> Harmless(rules[i])) && Managed(name)
    ensures Values(ApplyOps(f, PolicyOps(rules, hits)), name) == Values(f, name)
  {
    PolicyTouchesNoManaged(rules, hits);
    UntouchedStays(f, PolicyOps(rules, hits), name);
  }

  // ---------- What configured rules mean ----------

  lemma ManagedMeans(name: string)
    ensures Managed(name) <==>
            var n := Lower(name); HopByHopName(n) || CorsName(n) || n == "content-length" || n == "x-cache"
  {
    StrippedNames(name);
  }

  /** A configured name stands for the trimmed token in lower case, unless the proxy manages that header. */
  lemma ParseHeaderNameMeans(name: string, n: string)
    ensures ParseHeaderName(name) == Ok(n) <==>
            && IsToken(Trim(name)) && n == Lower(Trim(name))
            && !HopByHopName(n) && !CorsName(n) && n != "content-length" && n != "x-cache"
  {
    hide Managed, Lower, Trim, HopByHopName, CorsName;
    LowerTwice(Trim(name));
    ManagedMeans(Lower(Trim(name)));
    HeaderNameMeans(Trim(name), n);
  }

  lemma {:induction false} ParseNamesMean(names: seq<string>, r: seq<string>)
    ensures ParseNames(names) == Ok(r) <==>
            |r| == |names| && forall i :: 0 <= i < |names| ==> ParseHeaderName(names[i]) == Ok(r[i])
  {
    hide ParseHeaderName;
    if names != [] {
      if r != [] {
        ParseNamesMean(names[1..], r[1..]);
        assert r == [r[0]] + r[1..];
      }
      if ParseNames(names[1..]).Ok? {
        ParseNamesMean(names[1..], ParseNames(names[1..]).value);
      }
    }
  }

  /** A pair that parses: its name does, and its trimmed value is visible text. */
  ghost predicate ParsesTo(pair: (string, string), r: (string, string)) {
    ParseHeaderName(pair.0) == Ok(r.0) && r.1 == Trim(pair.1) && PrintableText(r.1)
  }

  lemma {:induction false} ParsePairsMean(pairs: Pairs, r: Pairs)
    ensures ParsePairs(pairs) == Ok(r) <==>
            |r| == |pairs| && forall i :: 0 <= i < |pairs| ==> ParsesTo(pairs[i], r[i])
  {
    hide ParseHeaderName, Trim, Visible, PrintableText;
    if pairs != [] {
      VisibleMeans(Trim(pairs[0].1));
      if r != [] {
        ParsePairsMean(pairs[1..], r[1..]);
        assert r == [r[0]] + r[1..];
      }
      if ParsePairs(pairs[1..]).Ok? {
        ParsePairsMean(pairs[1..], ParsePairs(pairs[1..]).value);
      }
    }
  }

  lemma {:induction false} RemovalsRemove(f: Fields, names: seq<string>, name: string)
    ensures Values(ApplyOps(f, RemoveOps(names)), name) == if name in names then [] else Values(f, name)
    decreases |names|
  {
    if names != [] {
      assert RemoveOps(names)[1..] == RemoveOps(names[1..]) && names == [names[0]] + names[1..];
      RemovalsRemove(Removed(f, names[0]), names[1..], name);
    }
  }

  lemma {:induction false} AdditionsAdd(f: Fields, pairs: Pairs, name: string)
    ensures Values(ApplyOps(f, AddOps(pairs)), name) == Values(f, name) + Listed(pairs, name)
    decreases |pairs|
  {
    if pairs != [] {
      assert AddOps(pairs)[1..] == AddOps(pairs[1..]);
      AdditionsAdd(Appended(f, pairs[0].0, pairs[0].1), pairs[1..], name);
    }
  }

  lemma {:induction false} SetsReplace(f: Fields, pairs: Pairs, name: string)
    ensures Values(ApplyOps(f, SetOps(pairs)), name) ==
            var sets := Listed(pairs, name); if sets == [] then Values(f, name) else [sets[|sets| - 1]]
    decreases |pairs|
  {
    if pairs != [] {
      assert SetOps(pairs)[1..] == SetOps(pairs[1..]);
      SetsReplace(Inserted(f, pairs[0].0, pairs[0].1), pairs[1..], name);
    }
  }

  /** A rule sets a name to the last value it sets, and otherwise removes what it removes and then adds what it adds. */
  lemma RuleMeans(f: Fields, rule: OverrideRule, name: string)
    ensures Values(ApplyOps(f, RuleOps(rule)), name) ==
            var values := Listed(rule.replace, name);
            if values != [] then [values[|values| - 1]]
            else (if name in rule.remove then [] else Values(f, name)) + Listed(rule.add, name)
  {
    hide ApplyOps, Listed;
    var removals, additions, sets := RemoveOps(rule.remove), AddOps(rule.add), SetOps(rule.replace);
    ApplyOpsAppend(f, removals, additions);
    ApplyOpsAppend(f, removals + additions, sets);
    RemovalsRemove(f, rule.remove, name);
    AdditionsAdd(ApplyOps(f, removals), rule.add, name);
    SetsReplace(ApplyOps(f, removals + additions), rule.replace, name);
  }

  /** Each rule acts on what the rules before it left, and does so exactly when its configured site means the
      requested or the final URL. */
  lemma PolicyMeans(f: Fields, rules: seq<OverrideRule>, configs: seq<OverrideConfig>, k: nat, requested: string,
                    final: string, engine: Engine)
    requires |rules| == |configs| && k < |rules| && CompiledFrom(rules[k], configs[k], engine)
    ensures var hits := Hits(rules, requested, final, engine);
            ApplyOps(f, PolicyOps(rules[..k + 1], hits[..k + 1])) ==
            var before := ApplyOps(f, PolicyOps(rules[..k], hits[..k]));
            if EntryMeans(configs[k].site, requested, engine) || EntryMeans(configs[k].site, final, engine)
            then ApplyOps(before, RuleOps(rules[k])) else before
  {
    hide ApplyOps, EntryMeans, EntryMatches;
    var hits := Hits(rules, requested, final, engine);
    assert rules[..k + 1][..k] == rules[..k] && hits[..k + 1][..k] == hits[..k];
    var before := PolicyOps(rules[..k], hits[..k]);
    ApplyOpsAppend(f, before, RuleOps(rules[k]));
    assert before + [] == before;
  }
}
