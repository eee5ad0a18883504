/** Compiled URL patterns: cache whitelist rules, and target/origin lists (src/cache.rs, src/matcher.rs). */
module Rules {
  import opened Prelude
  import opened Text
  import opened Glob

  datatype Flags = Flags(caseInsensitive: bool, multiLine: bool, dotAll: bool, verbose: bool)

  /** The regex engine for user-written expressions, and its simple case folding. */
  datatype Engine = Engine(compiles: (string, Flags) -> bool, search: (string, Flags, string) -> bool, fold: char -> char) {
    predicate SameFolded(a: char, b: char) {
      fold(a) == fold(b)
    }

    function IgnoreCase(): (char, char) -> bool {
      (a, b) => SameFolded(a, b)
    }
  }

  function CaseSensitive(): (char, char) -> bool {
    (a, b) => ExactChar(a, b)
  }

  const KNOWN_FLAGS: string := "imsx"

  /** Reads regex flags one by one; the first unknown flag is the error. */
  method ParseFlags(text: string) returns (r: Result<Flags, char>)
    ensures r.Ok? <==> forall c :: c in text ==> c in KNOWN_FLAGS
    ensures r.Ok? ==> r.value == Flags('i' in text, 'm' in text, 's' in text, 'x' in text)
    ensures r.Err? ==> exists k :: 0 <= k < |text| && text[k] == r.error && r.error !in KNOWN_FLAGS &&
                                   forall j :: 0 <= j < k ==> text[j] in KNOWN_FLAGS
  {
    var flags := Flags(false, false, false, false);
    for k := 0 to |text|
      invariant forall j :: 0 <= j < k ==> text[j] in KNOWN_FLAGS
      invariant flags == Flags('i' in text[..k], 'm' in text[..k], 's' in text[..k], 'x' in text[..k])
    {
      assert text[..k + 1] == text[..k] + [text[k]];
      match text[k] {
        case 'i' => flags := flags.(caseInsensitive := true);
        case 'm' => flags := flags.(multiLine := true);
        case 's' => flags := flags.(dotAll := true);
        case 'x' => flags := flags.(verbose := true);
        case _ =>
          assert text[k] !in KNOWN_FLAGS;
          return Err(text[k]);
      }
    }
    assert text[..|text|] == text;
    return Ok(flags);
  }

  function LastIndex(s: string, c: char): (r: Option<nat>)
    ensures r.Some? ==> r.value < |s| && s[r.value] == c && c !in s[r.value + 1..]
    ensures r.None? ==> c !in s
  {
    if s == [] then None
    else if s[|s| - 1] == c then Some(|s| - 1)
    else
      assert s == s[..|s| - 1] + [s[|s| - 1]];
      LastIndex(s[..|s| - 1], c)
  }

  /** The `/expression/flags` form: the position of the closing slash. */
  function RegexClose(s: string): (r: Option<nat>)
    ensures r.Some? ==> 0 < r.value < |s|
  {
    if |s| > 1 && s[0] == '/' && LastIndex(s, '/').Some? && LastIndex(s, '/').value > 0 then LastIndex(s, '/') else None
  }

  function StripScheme(s: string): string {
    if HasPrefix(s, "http://") then s[7..]
    else if HasPrefix(s, "https://") then s[8..]
    else s
  }

  // ---------- Cache whitelist rules ----------

  datatype CachePattern =
    | Exact(host: string, suffix: string)
    | Wildcard(host: string, path: string)
    | UserRegex(source: string, flags: Flags)

  datatype CompiledRule = CompiledRule(pattern: CachePattern, maxAge: nat)

  predicate IsMatch(p: CachePattern, subject: string, engine: Engine) {
    match p
    case UserRegex(source, flags) => engine.search(source, flags, subject)
    case Exact(host, suffix) => HasPrefix(subject, host) && subject[|host|..] == suffix
    case Wildcard(host, path) =>
      var parts := SplitOnce(subject, '/');
      parts.Some? && RegexMatches(host, parts.value.0, CaseSensitive())
                  && RegexMatches(path, "/" + parts.value.1, CaseSensitive())
  }

  /** Host and path patterns of a rule text without scheme. */
  function HostAndPath(text: string): (string, string) {
    match SplitOnce(text, '/')
    case None => (Lower(text), "/")
    case Some((host, suffix)) => (Lower(host), "/" + suffix)
  }

  function RuleParts(text: string): (string, string) {
    if text == "*" then ("*", "/*") else HostAndPath(text)
  }

  /** What a non-regex rule text means, in terms of globs on the host and the path of a subject. */
  ghost predicate RuleMeans(text: string, subject: string) {
    var (host, path) := RuleParts(text);
    if '*' in text then
      var parts := SplitOnce(subject, '/');
      parts.Some? && LineGlob(host, parts.value.0, CaseSensitive())
                  && LineGlob(path, "/" + parts.value.1, CaseSensitive())
    else subject == host + path
  }

  lemma StarSources()
    ensures AnchoredSource("*") == "^.*$"
    ensures AnchoredSource("/*") == "^/.*$"
  {
    assert "*"[1..] == "" && "/*"[1..] == "*";
    assert Split("*", '*') == [[]] + [[]] == [[], []];
    assert ['/'] + [] == "/";
    assert Split("/*", '*') == ["/", []];
    assert EscapeAll([[], []]) == [[], []] && EscapeAll(["/", []]) == ["/", []];
  }

  /** `CompiledRule::new`: the compiled rule accepts exactly the subjects the text means. */
  method NewRule(raw: string, maxAge: nat, engine: Engine) returns (r: Result<CompiledRule, string>)
    ensures Trim(raw) == [] ==> r.Err?
    ensures Trim(raw) != [] && RegexClose(Trim(raw)).None? ==>
              r.Ok? && r.value.maxAge == maxAge &&
              forall subject :: IsMatch(r.value.pattern, subject, engine) <==> RuleMeans(StripScheme(Trim(raw)), subject)
    ensures RegexClose(Trim(raw)).Some? ==>
              var close := RegexClose(Trim(raw)).value;
              var (source, flags) := (Trim(raw)[1..close], Trim(raw)[close + 1..]);
              if r.Ok? then
                && (forall c :: c in flags ==> c in KNOWN_FLAGS) && r.value.maxAge == maxAge
                && r.value.pattern == UserRegex(source, Flags('i' in flags, 'm' in flags, 's' in flags, 'x' in flags))
                && engine.compiles(source, r.value.pattern.flags)
                && (forall subject :: IsMatch(r.value.pattern, subject, engine) <==>
                                      engine.search(source, Flags('i' in flags, 'm' in flags, 's' in flags, 'x' in flags), subject))
              else
                (exists c :: c in flags && c !in KNOWN_FLAGS)
                || !engine.compiles(source, Flags('i' in flags, 'm' in flags, 's' in flags, 'x' in flags))
  {
    var text := Trim(raw);
    if text == [] {
      return Err("empty cache rule");
    }
    var close := RegexClose(text);
    if close.Some? {
      var flags := ParseFlags(text[close.value + 1..]);
      if flags.Err? {
        return Err("unknown regex flag");
      }
      var source := text[1..close.value];
      if !engine.compiles(source, flags.value) {
        return Err("invalid regex");
      }
      return Ok(CompiledRule(UserRegex(source, flags.value), maxAge));
    }
    text := StripScheme(text);
    if text == "*" {
      StarSources();
      r := Ok(CompiledRule(Wildcard("^.*$", "^/.*$"), maxAge));
      WildcardRuleMeans("*", "/*", engine);
      return;
    }
    var (host, path) := HostAndPath(text);
    if '*' in text {
      r := Ok(CompiledRule(Wildcard(AnchoredSource(host), AnchoredSource(path)), maxAge));
      WildcardRuleMeans(host, path, engine);
      return;
    }
    r := Ok(CompiledRule(Exact(host, path), maxAge));
  }

  lemma WildcardRuleMeans(host: string, path: string, engine: Engine)
    ensures forall subject :: IsMatch(Wildcard(AnchoredSource(host), AnchoredSource(path)), subject, engine) <==>
                              (var parts := SplitOnce(subject, '/');
                               parts.Some? && LineGlob(host, parts.value.0, CaseSensitive())
                                           && LineGlob(path, "/" + parts.value.1, CaseSensitive()))
  {
    forall subject
      ensures IsMatch(Wildcard(AnchoredSource(host), AnchoredSource(path)), subject, engine) <==>
              (var parts := SplitOnce(subject, '/');
               parts.Some? && LineGlob(host, parts.value.0, CaseSensitive())
                           && LineGlob(path, "/" + parts.value.1, CaseSensitive()))
    {
      var parts := SplitOnce(subject, '/');
      if parts.Some? {
        WildcardMeansGlob(host, parts.value.0, CaseSensitive());
        WildcardMeansGlob(path, "/" + parts.value.1, CaseSensitive());
      }
    }
  }

  /** A cache wildcard, matched on host and path separately, matches as one glob over the whole subject. */
  lemma HostAndPathImplyWhole(host: string, path: string, subject: string, engine: Engine)
    requires IsMatch(Wildcard(AnchoredSource(host), AnchoredSource(path)), subject, engine)
    ensures LineGlob(host + path, subject, CaseSensitive())
  {
    WildcardRuleMeans(host, path, engine);
    var (a, b) := SplitOnce(subject, '/').value;
    LineGlobConcat(host, path, a, "/" + b, CaseSensitive());
    assert a + ("/" + b) == subject;
  }

  // ---------- When the parts mean the whole ----------

  lemma {:induction false} LineGlobSplits(p: string, q: string, s: string, same: (char, char) -> bool)
    requires LineGlob(p + q, s, same)
    ensures exists k :: 0 <= k <= |s| && LineGlob(p, s[..k], same) && LineGlob(q, s[k..], same)
    decreases |p|
  {
    if p == [] {
      assert p + q == q && s[0..] == s && LineGlob(p, s[..0], same);
    } else {
      assert (p + q)[1..] == p[1..] + q;
      if p[0] == '*' {
        var m :| 0 <= m <= |s| && OneLine(s[..m]) && LineGlob(p[1..] + q, s[m..], same);
        LineGlobSplits(p[1..], q, s[m..], same);
        var k :| 0 <= k <= |s[m..]| && LineGlob(p[1..], s[m..][..k], same) && LineGlob(q, s[m..][k..], same);
        assert s[..m + k][m..] == s[m..][..k] && s[..m + k][..m] == s[..m] && s[m..][k..] == s[m + k..];
        assert LineGlob(p, s[..m + k], same);
      } else {
        LineGlobSplits(p[1..], q, s[1..], same);
        var k :| 0 <= k <= |s[1..]| && LineGlob(p[1..], s[1..][..k], same) && LineGlob(q, s[1..][k..], same);
        assert s[..k + 1][1..] == s[1..][..k] && s[1..][k..] == s[k + 1..];
        assert LineGlob(p, s[..k + 1], same);
      }
    }
  }

  lemma {:induction false} ShortestMatches(p: string)
    ensures LineGlob(p, Shortest(p), CaseSensitive())
  {
    if p != [] {
      ShortestMatches(p[1..]);
      var s := Shortest(p);
      if p[0] == '*' {
        assert s == Shortest(p[1..]) && s[0..] == s && OneLine(s[..0]);
      } else {
        assert s[1..] == Shortest(p[1..]);
      }
    }
  }

  lemma {:induction false} ShortestIsShortest(p: string, s: string)
    requires LineGlob(p, s, CaseSensitive())
    ensures |Shortest(p)| <= |s|
    decreases |p|
  {
    if p != [] {
      if p[0] == '*' {
        var k :| 0 <= k <= |s| && OneLine(s[..k]) && LineGlob(p[1..], s[k..], CaseSensitive());
        ShortestIsShortest(p[1..], s[k..]);
      } else {
        ShortestIsShortest(p[1..], s[1..]);
      }
    }
  }

  predicate AllStars(p: string) {
    forall i :: 0 <= i < |p| ==> p[i] == '*'
  }

  /** Stars, if any, come at the end. */
  predicate StarsTrail(p: string) {
    p == [] || (if p[0] == '*' then AllStars(p) else StarsTrail(p[1..]))
  }

  lemma {:induction false} AllStarsMatch(p: string, s: string)
    requires AllStars(p) && p != []
    ensures LineGlob(p, s, CaseSensitive()) <==> OneLine(s)
    decreases |p|
  {
    if p[1..] == [] {
      assert s[|s|..] == [] && s[..|s|] == s;
    } else {
      forall k | 0 <= k <= |s| ensures LineGlob(p[1..], s[k..], CaseSensitive()) <==> OneLine(s[k..]) {
        AllStarsMatch(p[1..], s[k..]);
      }
      assert s[0..] == s;
      assert forall k :: 0 <= k <= |s| ==> s == s[..k] + s[k..];
    }
  }

  /** A slash can only be in what a star matched; with trailing stars the text before it matches as well. */
  lemma {:induction false} CutAtSlash(p: string, s: string, f: nat)
    requires StarsTrail(p) && '/' !in p && f < |s| && s[f] == '/' && LineGlob(p, s, CaseSensitive())
    ensures '*' in p && LineGlob(p, s[..f], CaseSensitive()) && OneLine(s[f..])
    decreases |p|
  {
    if p[0] == '*' {
      AllStarsMatch(p, s);
      AllStarsMatch(p, s[..f]);
    } else {
      assert f > 0 by { assert p[0] != '/'; }
      assert s[1..][..f - 1] == s[..f][1..] && s[1..][f - 1..] == s[f..] && p == [p[0]] + p[1..];
      CutAtSlash(p[1..], s[1..], f - 1);
    }
  }

  /** The text before the first slash, and the rest with it. */
  lemma {:induction false} FirstSlash(s: string, f: nat)
    requires f < |s| && s[f] == '/' && '/' !in s[..f]
    ensures SplitOnce(s, '/') == Some((s[..f], s[f + 1..])) && "/" + s[f + 1..] == s[f..]
    decreases f
  {
    if f > 0 {
      assert s[0] == s[..f][0] && s[..f] == [s[0]] + s[1..][..f - 1];
      FirstSlash(s[1..], f - 1);
    }
  }

  lemma {:induction false} SlashPosition(s: string, k: nat) returns (f: nat)
    requires k < |s| && s[k] == '/'
    ensures f <= k && s[f] == '/' && '/' !in s[..f]
    decreases k
  {
    if '/' in s[..k] {
      var m :| 0 <= m < k && s[m] == '/';
      f := SlashPosition(s, m);
    } else {
      f := k;
    }
  }

  /** For these host and path patterns, the parts mean the whole. */
  predicate PartsSuffice(host: string, path: string) {
    '*' !in host || (StarsTrail(host) && |path| > 1 && path[1] == '*')
  }

  lemma {:induction false} NoStarTrails(p: string)
    requires '*' !in p
    ensures StarsTrail(p)
  {
    if p != [] {
      assert p == [p[0]] + p[1..];
      NoStarTrails(p[1..]);
    }
  }

  /** A star after the slash takes what the host's stars took beyond the first slash. */
  lemma StarTakesOver(path: string, v: string, t: string)
    requires |path| > 1 && path[0] == '/' && path[1] == '*' && v != [] && v[0] == '/' && OneLine(v)
    requires LineGlob(path, t, CaseSensitive())
    ensures LineGlob(path, v + t, CaseSensitive())
  {
    var same := CaseSensitive();
    var p, u := path[1..], (v + t)[1..];
    assert LineGlob(p, t[1..], same) && t[0] == '/';
    var k :| 0 <= k <= |t[1..]| && OneLine(t[1..][..k]) && LineGlob(p[1..], t[1..][k..], same);
    assert u[..|v| + k] == v[1..] + [t[0]] + t[1..][..k] && u[|v| + k..] == t[1..][k..];
    assert OneLine(u[..|v| + k]);
    assert LineGlob(p, u, same);
  }

  lemma PathStarts(path: string, t: string)
    requires path != [] && path[0] == '/' && LineGlob(path, t, CaseSensitive())
    ensures t != [] && t[0] == '/'
  {
  }

  lemma WholeSuffices(host: string, path: string, s: string)
    requires '/' !in host && path != [] && path[0] == '/' && PartsSuffice(host, path)
    requires LineGlob(host + path, s, CaseSensitive())
    ensures var parts := SplitOnce(s, '/');
            parts.Some? && LineGlob(host, parts.value.0, CaseSensitive()) && LineGlob(path, "/" + parts.value.1, CaseSensitive())
  {
    hide LineGlob, SplitOnce, StarsTrail;
    var same := CaseSensitive();
    LineGlobSplits(host, path, s, same);
    var k :| 0 <= k <= |s| && LineGlob(host, s[..k], same) && LineGlob(path, s[k..], same);
    PathStarts(path, s[k..]);
    assert s[k] == s[k..][0] == '/';
    var f := SlashPosition(s, k);
    FirstSlash(s, f);
    if f < k {
      if '*' !in host {
        NoStarTrails(host);
      }
      assert s[..k][..f] == s[..f] && s[..k][f] == '/';
      CutAtSlash(host, s[..k], f);
      StarTakesOver(path, s[..k][f..], s[k..]);
      assert s[..k][f..] + s[k..] == s[f..];
    }
  }

  lemma {:induction false} FirstStar(p: string) returns (n: nat)
    requires '*' in p
    ensures n < |p| && p[n] == '*' && '*' !in p[..n] && (StarsTrail(p) <==> AllStars(p[n..]))
  {
    if p[0] == '*' {
      n := 0;
      assert p[0..] == p;
    } else {
      assert p == [p[0]] + p[1..];
      var m := FirstStar(p[1..]);
      n := m + 1;
      assert p[..n] == [p[0]] + p[1..][..m] && p[n..] == p[1..][m..];
    }
  }

  lemma {:induction false} ShortestAppend(p: string, q: string)
    ensures Shortest(p + q) == Shortest(p) + Shortest(q)
  {
    if p == [] {
      assert p + q == q;
    } else {
      assert (p + q)[1..] == p[1..] + q;
      ShortestAppend(p[1..], q);
    }
  }

  lemma {:induction false} ShortestOf(p: string)
    ensures '*' !in p ==> Shortest(p) == p
    ensures Shortest(p) == [] <==> AllStars(p)
  {
    if p != [] {
      assert p == [p[0]] + p[1..];
      ShortestOf(p[1..]);
    }
  }

  /** A star takes any one-line text in front of what the rest matches at least. */
  lemma StarTakes(p: string, u: string)
    requires p != [] && p[0] == '*' && OneLine(u)
    ensures LineGlob(p, u + Shortest(p[1..]), CaseSensitive())
  {
    var s := u + Shortest(p[1..]);
    ShortestMatches(p[1..]);
    assert s[..|u|] == u && s[|u|..] == Shortest(p[1..]);
  }

  /** A subject on which the parts say no and the whole says yes. */
  ghost predicate Disagrees(host: string, path: string, s: string) {
    && LineGlob(host + path, s, CaseSensitive())
    && (var parts := SplitOnce(s, '/');
        parts.Some? && !(LineGlob(host, parts.value.0, CaseSensitive())
                         && LineGlob(path, "/" + parts.value.1, CaseSensitive())))
  }

  /** The host's first star takes `u`, everything else is as short as can be. */
  lemma StarredWhole(host: string, path: string, n: nat, u: string) returns (s: string)
    requires n < |host| && host[n] == '*' && '*' !in host[..n] && OneLine(u)
    ensures s == host[..n] + u + Shortest(host[n + 1..]) + Shortest(path)
    ensures LineGlob(host + path, s, CaseSensitive())
  {
    var same := CaseSensitive();
    var tail := host[n..];
    ShortestMatches(host[..n]);
    ShortestOf(host[..n]);
    StarTakes(tail, u);
    assert tail[1..] == host[n + 1..];
    LineGlobConcat(host[..n], tail, host[..n], u + Shortest(tail[1..]), same);
    assert host[..n] + tail == host;
    ShortestMatches(path);
    LineGlobConcat(host, path, host[..n] + (u + Shortest(tail[1..])), Shortest(path), same);
    s := host[..n] + (u + Shortest(tail[1..])) + Shortest(path);
    assert s == host[..n] + u + Shortest(host[n + 1..]) + Shortest(path);
  }

  /** Something but stars follows a star in the host: the star takes a slash too early. */
  lemma LiteralAfterStar(host: string, path: string) returns (s: string)
    requires '/' !in host && '*' in host && !StarsTrail(host)
    ensures Disagrees(host, path, s)
  {
    var n := FirstStar(host);
    s := StarredWhole(host, path, n, "/");
    assert s[n] == '/' && s[..n] == host[..n];
    FirstSlash(s, n);
    ShortestOf(host[..n]);
    ShortestOf(host[n..]);
    assert host == host[..n] + host[n..];
    ShortestAppend(host[..n], host[n..]);
    if LineGlob(host, s[..n], CaseSensitive()) {
      ShortestIsShortest(host, s[..n]);
    }
  }

  /** The host ends in stars but the path does not go on with one: a path segment is taken for the host. */
  lemma LiteralAfterSlash(host: string, path: string) returns (s: string)
    requires '/' !in host && '*' in host && StarsTrail(host)
    requires path != [] && path[0] == '/' && !(|path| > 1 && path[1] == '*')
    ensures Disagrees(host, path, s)
  {
    var n := FirstStar(host);
    var d := if |path| > 1 && path[1] == 'x' then 'y' else 'x';
    s := StarredWhole(host, path, n, ['/', d]);
    assert s[n] == '/' && s[n + 1] == d && s[..n] == host[..n];
    FirstSlash(s, n);
    var rest := s[n..];
    assert path[1..] != [] ==> path[1..][0] == path[1];
    assert rest[1..] != [] && rest[1..][0] == d;
    assert !LineGlob(path, rest, CaseSensitive()) by {
      assert !LineGlob(path[1..], rest[1..], CaseSensitive());
    }
  }

  /** A wildcard rule matches exactly the subjects its pattern matches as one glob if and only if the host has no
      star, or only stars at its end and the path goes on with a star; otherwise some subject is missed. */
  lemma PartsMeanWhole(host: string, path: string, engine: Engine)
    requires '/' !in host && path != [] && path[0] == '/'
    ensures PartsSuffice(host, path) <==>
            forall s :: IsMatch(Wildcard(AnchoredSource(host), AnchoredSource(path)), s, engine) <==>
                        LineGlob(host + path, s, CaseSensitive())
  {
    WildcardRuleMeans(host, path, engine);
    forall s | IsMatch(Wildcard(AnchoredSource(host), AnchoredSource(path)), s, engine)
      ensures LineGlob(host + path, s, CaseSensitive())
    {
      HostAndPathImplyWhole(host, path, s, engine);
    }
    if PartsSuffice(host, path) {
      forall s | LineGlob(host + path, s, CaseSensitive())
        ensures IsMatch(Wildcard(AnchoredSource(host), AnchoredSource(path)), s, engine)
      {
        WholeSuffices(host, path, s);
      }
    } else {
      var s;
      if StarsTrail(host) {
        s := LiteralAfterSlash(host, path);
      } else {
        s := LiteralAfterStar(host, path);
      }
      assert !IsMatch(Wildcard(AnchoredSource(host), AnchoredSource(path)), s, engine);
    }
  }

  /** For example, a lone star as host does not reach past the first slash of `a/b/c`. */
  lemma WholeDoesNotImplyHostAndPath(engine: Engine)
    ensures LineGlob("*" + "/c", "a/b/c", CaseSensitive())
    ensures !IsMatch(Wildcard(AnchoredSource("*"), AnchoredSource("/c")), "a/b/c", engine)
  {
    var same := CaseSensitive();
    var s := "a/b/c";
    assert ("*" + "/c")[1..] == "/c" && "/c"[1..] == "c" && "c"[1..] == "";
    assert s[3..] == "/c" && OneLine(s[..3]);
    assert LineGlob("/c", "/c", same);
    WildcardRuleMeans("*", "/c", engine);
    assert s[1..] == "/b/c" && SplitOnce("/b/c", '/') == Some(("", "/b/c"[1..]));
    assert ['a'] + "" == "a" && "/b/c"[1..] == "b/c";
    assert SplitOnce(s, '/') == Some(("a", "b/c"));
    assert ("/" + "b/c")[1..] == "b/c";
    assert !LineGlob("c", "b/c", same);
    assert !LineGlob("/c", "/" + "b/c", same);
  }

  lemma {:induction false} LiteralMeansItself(p: string, s: string)
    requires '*' !in p
    ensures LineGlob(p, s, CaseSensitive()) <==> s == p
  {
    if p != [] {
      assert p == [p[0]] + p[1..];
      if s != [] {
        assert s == [s[0]] + s[1..];
        LiteralMeansItself(p[1..], s[1..]);
      }
    }
  }

  lemma RulePartsShape(text: string)
    ensures var (host, path) := RuleParts(text);
            && '/' !in host && path != [] && path[0] == '/'
            && ('*' !in text ==> '*' !in host + path)
  {
    if text != "*" && SplitOnce(text, '/').Some? {
      var (host, suffix) := SplitOnce(text, '/').value;
      LowerKeeps(host, '/');
      LowerKeeps(host, '*');
    } else {
      LowerKeeps(text, '/');
      LowerKeeps(text, '*');
    }
  }

  lemma LowerKeeps(s: string, c: char)
    requires !('A' <= c <= 'Z') && !('a' <= c <= 'z')
    ensures c in Lower(s) <==> c in s
  {
    if c in s {
      var i :| 0 <= i < |s| && s[i] == c;
      assert Lower(s)[i] == c;
    }
    if c in Lower(s) {
      var i :| 0 <= i < |s| && Lower(s)[i] == c;
      assert s[i] == c;
    }
  }

  /** A rule text means its own glob over the whole subject exactly under that condition. */
  lemma RuleMeansItsGlob(text: string, engine: Engine)
    ensures var (host, path) := RuleParts(text);
            PartsSuffice(host, path) <==>
            forall s :: RuleMeans(text, s) <==> LineGlob(host + path, s, CaseSensitive())
  {
    var (host, path) := RuleParts(text);
    RulePartsShape(text);
    if '*' in text {
      PartsMeanWhole(host, path, engine);
      WildcardRuleMeans(host, path, engine);
    } else {
      forall s {
        LiteralMeansItself(host + path, s);
      }
      assert '*' !in host by { assert forall c :: c in host ==> c in host + path; }
    }
  }

  /** The last matching rule decides. */
  function LastMatch(rules: seq<CompiledRule>, subject: string, engine: Engine): Option<nat> {
    if rules == [] then None
    else if IsMatch(rules[|rules| - 1].pattern, subject, engine) then Some(rules[|rules| - 1].maxAge)
    else LastMatch(rules[..|rules| - 1], subject, engine)
  }

  /** The configured lifetime of a subject: none when no rule matches or when it comes out as zero. */
  function PlanTtl(rules: seq<CompiledRule>, maxAge: nat, subject: string, engine: Engine): (r: Option<nat>)
    ensures r.Some? ==> 0 < r.value <= maxAge
  {
    match LastMatch(rules, subject, engine)
    case None => None
    case Some(age) => if Min(age, maxAge) == 0 then None else Some(Min(age, maxAge))
  }

  /** The loop of `Cache::plan` over the rules. */
  method Plan(rules: seq<CompiledRule>, maxAge: nat, subject: string, engine: Engine) returns (r: Option<nat>)
    ensures r == PlanTtl(rules, maxAge, subject, engine)
  {
    var ttl := None;
    for i := 0 to |rules|
      invariant ttl == LastMatch(rules[..i], subject, engine)
    {
      assert rules[..i + 1][..i] == rules[..i];
      if IsMatch(rules[i].pattern, subject, engine) {
        ttl := Some(rules[i].maxAge);
      }
    }
    assert rules[..|rules|] == rules;
    if ttl.None? {
      return None;
    }
    var bounded := Min(ttl.value, maxAge);
    return if bounded == 0 then None else Some(bounded);
  }

  /** In a planned lifetime the last matching rule wins over every earlier one, and the global bound applies. */
  lemma {:induction false} LastRuleWins(rules: seq<CompiledRule>, maxAge: nat, subject: string, engine: Engine, ttl: nat)
    ensures PlanTtl(rules, maxAge, subject, engine) == Some(ttl) <==>
            exists i :: 0 <= i < |rules| && IsMatch(rules[i].pattern, subject, engine) &&
                        (forall j :: i < j < |rules| ==> !IsMatch(rules[j].pattern, subject, engine)) &&
                        ttl == Min(rules[i].maxAge, maxAge) && ttl > 0
  {
    if rules != [] {
      var n := |rules| - 1;
      var front := rules[..n];
      if !IsMatch(rules[n].pattern, subject, engine) {
        LastRuleWins(front, maxAge, subject, engine, ttl);
        assert forall i :: 0 <= i < n ==> front[i] == rules[i];
      }
    }
  }

  // ---------- Target and origin lists ----------

  datatype MatchEntry =
    | ExactHost(host: string)
    | WildcardHost(source: string)
    | RegexHost(source: string, flags: Flags)

  predicate EqIgnoreAsciiCase(a: string, b: string) {
    Lower(a) == Lower(b)
  }

  predicate EntryMatches(e: MatchEntry, subject: string, engine: Engine) {
    match e
    case ExactHost(host) => EqIgnoreAsciiCase(host, subject)
    case WildcardHost(source) => RegexMatches(source, subject, engine.IgnoreCase())
    case RegexHost(source, flags) => engine.search(source, flags, subject)
  }

  lemma {:induction false} LowerTwice(s: string)
    ensures Lower(Lower(s)) == Lower(s)
  {
    if s != [] {
      LowerTwice(s[1..]);
      assert Lower(s)[1..] == Lower(s[1..]);
    }
  }

  /** The regex form of a list entry, read: source and flags. */
  function RegexForm(raw: string): Option<(string, Flags, string)> {
    var text := Trim(raw);
    if RegexClose(text).None? then None
    else
      var close := RegexClose(text).value;
      var flags := text[close + 1..];
      Some((text[1..close], Flags('i' in flags, 'm' in flags, 's' in flags, 'x' in flags), flags))
  }

  /** The list entries that parse: all but those whose regex form has an unknown flag or does not compile. */
  ghost predicate EntryParses(raw: string, engine: Engine) {
    RegexForm(raw).Some? ==>
      var (source, parsed, flags) := RegexForm(raw).value;
      (forall c :: c in flags ==> c in KNOWN_FLAGS) && engine.compiles(source, parsed)
  }

  /** What a list entry means: its expression, its glob up to case, or itself ignoring ASCII case. */
  ghost predicate EntryMeans(raw: string, subject: string, engine: Engine) {
    if RegexForm(raw).Some? then engine.search(RegexForm(raw).value.0, RegexForm(raw).value.1, subject)
    else if '*' in Trim(raw) then LineGlob(Trim(raw), subject, engine.IgnoreCase())
    else EqIgnoreAsciiCase(Trim(raw), subject)
  }

  /** `MatchEntry::parse`: the parsed entry matches exactly the subjects the text means. */
  method ParseEntry(raw: string, engine: Engine) returns (r: Result<MatchEntry, string>)
    ensures r.Ok? <==> EntryParses(raw, engine)
    ensures r.Ok? ==> forall subject :: EntryMatches(r.value, subject, engine) <==> EntryMeans(raw, subject, engine)
  {
    var text := Trim(raw);
    var close := RegexClose(text);
    if close.Some? {
      var flags := ParseFlags(text[close.value + 1..]);
      if flags.Err? {
        return Err("unknown regex flag");
      }
      var source := text[1..close.value];
      if !engine.compiles(source, flags.value) {
        return Err("invalid regex");
      }
      return Ok(RegexHost(source, flags.value));
    }
    if '*' in text {
      var source := WildcardToRegex(text);
      forall subject {
        WildcardMeansGlob(text, subject, engine.IgnoreCase());
      }
      return Ok(WildcardHost(source));
    }
    LowerTwice(text);
    return Ok(ExactHost(Lower(text)));
  }

  datatype TargetList = TargetList(blacklist: seq<MatchEntry>, whitelist: seq<MatchEntry>) {
    predicate IsAllowed(subject: string, engine: Engine) {
      var blacklisted := exists e :: e in blacklist && EntryMatches(e, subject, engine);
      var whitelisted := exists e :: e in whitelist && EntryMatches(e, subject, engine);
      whitelisted || (!blacklisted && whitelist == [])
    }

    predicate HasWhitelist() {
      whitelist != []
    }
  }

  // ---------- How rule texts are read ----------

  /** The regex form: a slash in front, and the last slash, if it is another one, closes it. */
  lemma RegexCloseMeans(s: string, k: nat)
    ensures RegexClose(s) == Some(k) <==> s != [] && s[0] == '/' && 0 < k < |s| && s[k] == '/' && '/' !in s[k + 1..]
  {
    if s != [] && s[0] == '/' && 0 < k < |s| && s[k] == '/' && '/' !in s[k + 1..] {
      var last := LastIndex(s, '/');
      assert last.Some?;
      assert forall i :: last.value < i < |s| ==> s[last.value + 1..][i - last.value - 1] == s[i] != '/';
      assert forall i :: k < i < |s| ==> s[k + 1..][i - k - 1] == s[i] != '/';
    }
  }

  /** A rule may be written with an http or https scheme, which is dropped; nothing else is. */
  lemma StripSchemeMeans(text: string)
    ensures StripScheme("http://" + text) == text && StripScheme("https://" + text) == text
    ensures !("http://" <= text) && !("https://" <= text) ==> StripScheme(text) == text
  {
    assert ("http://" + text)[7..] == text && ("https://" + text)[8..] == text;
    assert ("https://" + text)[4] == 's' && "http://"[4] == ':';
  }

  lemma {:induction false} NoSeparator(s: string, sep: char)
    requires sep !in s
    ensures SplitOnce(s, sep) == None
  {
    if s != [] {
      assert s == [s[0]] + s[1..];
      NoSeparator(s[1..], sep);
    }
  }

  /** The host is what stands before the first slash, in lower case; the path is the rest, or a slash. */
  lemma HostAndPathMeans(host: string, rest: string)
    requires '/' !in host
    ensures HostAndPath(host + "/" + rest) == (Lower(host), "/" + rest)
    ensures HostAndPath(host) == (Lower(host), "/")
  {
    var text := host + "/" + rest;
    assert text[..|host|] == host && text[|host| + 1..] == rest;
    FirstSlash(text, |host|);
    assert SplitOnce(host, '/').None? by { NoSeparator(host, '/'); }
  }

  /** The same letter, one of them possibly a capital. */
  ghost predicate SameLetter(a: char, b: char) {
    a == b || exists k :: 0 <= k < 26 && ((a == UPPER[k] && b == LOWER[k]) || (a == LOWER[k] && b == UPPER[k]))
  }

  /** An exact list entry matches the texts of its length with the same characters up to ASCII case. */
  lemma ExactEntryMeans(text: string, subject: string)
    ensures EqIgnoreAsciiCase(text, subject) <==>
            |text| == |subject| && forall i :: 0 <= i < |text| ==> SameLetter(text[i], subject[i])
  {
    if |text| == |subject| {
      forall i | 0 <= i < |text| ensures Lower(text)[i] == Lower(subject)[i] <==> SameLetter(text[i], subject[i]) {
        LowerSame(text[i], subject[i]);
      }
      assert Lower(text) == Lower(subject) <==> forall i :: 0 <= i < |text| ==> Lower(text)[i] == Lower(subject)[i];
    }
  }

  lemma LowerSame(a: char, b: char)
    ensures LowerChar(a) == LowerChar(b) <==> SameLetter(a, b)
  {
    forall k | 0 <= k < 26 ensures UPPER[k] as int == 65 + k && LOWER[k] as int == 97 + k {
      LetterAt(k);
    }
    hide UPPER, LOWER;
    if 'A' <= a <= 'Z' && a != b && LowerChar(a) == LowerChar(b) {
      assert a == UPPER[a as int - 65] && b == LOWER[a as int - 65];
    }
    if 'A' <= b <= 'Z' && a != b && LowerChar(a) == LowerChar(b) {
      assert b == UPPER[b as int - 65] && a == LOWER[b as int - 65];
    }
  }

  /** The lone star allows every URL text. */
  lemma StarRuleMeansAll(subject: string)
    requires '/' in subject && OneLine(subject)
    ensures RuleMeans("*", subject)
  {
    hide LineGlob;
    assert SplitOnce(subject, '/').Some?;
    var (a, b) := SplitOnce(subject, '/').value;
    assert forall c :: c in a || c in b ==> c in subject;
    assert OneLine(a) && OneLine(b);
    StarTakesAll(a);
    StarTakesAll(b);
    assert "/*" == "/" + "*" && '*' in "*";
    LiteralMeansItself("/", "/");
    LineGlobConcat("/", "*", "/", b, CaseSensitive());
  }

  lemma StarTakesAll(s: string)
    requires OneLine(s)
    ensures LineGlob("*", s, CaseSensitive())
  {
    AllStarsMatch("*", s);
  }

  /** How characters are compared: exactly in cache rules, up to the engine's case folding in target and origin lists. */
  lemma ComparisonsMean(engine: Engine, a: char, b: char)
    ensures CaseSensitive()(a, b) <==> a == b
    ensures engine.IgnoreCase()(a, b) <==> engine.fold(a) == engine.fold(b)
  {
  }

  /** The regex form of a list entry is what stands between its slashes and after them. */
  lemma RegexFormMeans(raw: string, source: string, flags: string)
    requires Trim(raw) == "/" + source + "/" + flags && '/' !in flags
    ensures RegexForm(raw) == Some((source, Flags('i' in flags, 'm' in flags, 's' in flags, 'x' in flags), flags))
  {
    hide Trim, RegexClose;
    var text, k := Trim(raw), |source| + 1;
    assert text[k + 1..] == flags && text[1..k] == source && text[0] == '/' && text[k] == '/';
    RegexCloseMeans(text, k);
  }
}
