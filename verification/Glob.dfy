/** Wildcards as regular expressions: the literal/`.*` subset and its meaning (src/matcher.rs, src/cache.rs). */
module Glob {
  import opened Prelude
  import opened Text

  /** The characters `regex::escape` protects. */
  predicate IsMeta(c: char) {
    c in "\\.+*?()|[]{}^$#&-~"
  }

  /** `regex::escape`. */
  function Escape(s: string): string {
    if s == [] then [] else (if IsMeta(s[0]) then ['\\', s[0]] else [s[0]]) + Escape(s[1..])
  }

  function EscapeAll(parts: seq<string>): (r: seq<string>)
    ensures |r| == |parts|
  {
    if parts == [] then [] else [Escape(parts[0])] + EscapeAll(parts[1..])
  }

  /** The escape-and-join construction, as cache rules use it. */
  function AnchoredSource(pattern: string): string {
    "^" + Join(EscapeAll(Split(pattern, '*')), ".*") + "$"
  }

  lemma {:induction false} EscapeAllPrefix(parts: seq<string>, i: nat)
    requires i < |parts|
    ensures EscapeAll(parts)[..i + 1] == EscapeAll(parts)[..i] + [Escape(parts[i])]
  {
    if i > 0 {
      EscapeAllPrefix(parts[1..], i - 1);
    }
  }

  /** The push-then-truncate construction of target and origin lists gives the same expression. */
  method WildcardToRegex(pattern: string) returns (out: string)
    ensures out == AnchoredSource(pattern)
  {
    out := "^";
    var segments := Split(pattern, '*');
    ghost var escaped := EscapeAll(segments);
    for i := 0 to |segments|
      invariant i == 0 ==> out == "^"
      invariant i > 0 ==> out == "^" + Join(escaped[..i], ".*") + ".*"
    {
      EscapeAllPrefix(segments, i);
      if i > 0 {
        JoinAppend(escaped[..i], Escape(segments[i]), ".*");
      }
      if segments[i] != [] {
        out := out + Escape(segments[i]);
      }
      out := out + ".*";
    }
    assert escaped[..|segments|] == escaped;
    assert out[..|out| - 2] == "^" + Join(escaped, ".*");
    if HasSuffix(out, ".*") {
      out := out[..|out| - 2];
    }
    out := out + "$";
  }

  // ---------- Regular expressions of the subset ----------

  datatype Atom = Literal(c: char) | AnyRun

  function Cons(a: Atom, rest: Option<seq<Atom>>): Option<seq<Atom>> {
    if rest.Some? then Some([a] + rest.value) else None
  }

  /** Reads literals, escaped characters and `.*`; anything else is outside the subset. */
  function ParseBody(src: string): Option<seq<Atom>> {
    if src == [] then Some([])
    else if src[0] == '\\' then
      if |src| > 1 && IsMeta(src[1]) then Cons(Literal(src[1]), ParseBody(src[2..])) else None
    else if src[0] == '.' then
      if |src| > 1 && src[1] == '*' then Cons(AnyRun, ParseBody(src[2..])) else None
    else if IsMeta(src[0]) then None
    else Cons(Literal(src[0]), ParseBody(src[1..]))
  }

  /** An expression anchored at both ends. */
  function ParseRegex(src: string): Option<seq<Atom>> {
    if |src| >= 2 && src[0] == '^' && src[|src| - 1] == '$' then ParseBody(src[1..|src| - 1]) else None
  }

  /** Whether the atoms match the whole of `s`; `.` never matches a line feed. `same` compares characters. */
  predicate MatchAtoms(atoms: seq<Atom>, s: string, same: (char, char) -> bool)
    decreases |atoms| + |s|
  {
    if atoms == [] then s == []
    else match atoms[0]
      case Literal(c) => s != [] && same(c, s[0]) && MatchAtoms(atoms[1..], s[1..], same)
      case AnyRun => MatchAtoms(atoms[1..], s, same) ||
                     (s != [] && s[0] != '\n' && MatchAtoms(atoms, s[1..], same))
  }

  /** `Regex::is_match` on the subset. */
  predicate RegexMatches(src: string, s: string, same: (char, char) -> bool) {
    var atoms := ParseRegex(src);
    atoms.Some? && MatchAtoms(atoms.value, s, same)
  }

  predicate ExactChar(a: char, b: char) {
    a == b
  }

  // ---------- Globs ----------

  ghost predicate OneLine(s: string) {
    '\n' !in s
  }

  /** The glob relation: `*` stands for any run of characters. */
  ghost predicate GlobMatch(p: string, s: string, same: (char, char) -> bool)
    decreases |p|
  {
    if p == [] then s == []
    else if p[0] == '*' then exists k :: 0 <= k <= |s| && GlobMatch(p[1..], s[k..], same)
    else s != [] && same(p[0], s[0]) && GlobMatch(p[1..], s[1..], same)
  }

  /** The glob relation in which `*` stays within one line. */
  ghost predicate LineGlob(p: string, s: string, same: (char, char) -> bool)
    decreases |p|
  {
    if p == [] then s == []
    else if p[0] == '*' then exists k :: 0 <= k <= |s| && OneLine(s[..k]) && LineGlob(p[1..], s[k..], same)
    else s != [] && same(p[0], s[0]) && LineGlob(p[1..], s[1..], same)
  }

  function AtomsOf(p: string): seq<Atom> {
    if p == [] then [] else [if p[0] == '*' then AnyRun else Literal(p[0])] + AtomsOf(p[1..])
  }

  /** The expression written character by character. */
  function SourceOf(p: string): string {
    if p == [] then []
    else (if p[0] == '*' then ".*" else if IsMeta(p[0]) then ['\\', p[0]] else [p[0]]) + SourceOf(p[1..])
  }

  lemma {:induction false} JoinedIsSource(p: string)
    ensures Join(EscapeAll(Split(p, '*')), ".*") == SourceOf(p)
  {
    if p != [] {
      JoinedIsSource(p[1..]);
      var rest := Split(p[1..], '*');
      var parts := Split(p, '*');
      if p[0] == '*' {
        assert parts[1..] == rest;
        assert EscapeAll(parts) == [[]] + EscapeAll(rest);
        assert EscapeAll(parts)[1..] == EscapeAll(rest);
      } else {
        assert parts[0][1..] == rest[0] && parts[1..] == rest[1..];
        assert EscapeAll(parts)[1..] == EscapeAll(rest)[1..];
      }
    }
  }

  lemma {:induction false} SourceParses(p: string)
    ensures ParseBody(SourceOf(p)) == Some(AtomsOf(p))
  {
    if p != [] {
      SourceParses(p[1..]);
      var src := SourceOf(p);
      if p[0] == '*' || IsMeta(p[0]) {
        assert src[2..] == SourceOf(p[1..]);
      } else {
        assert src[1..] == SourceOf(p[1..]);
      }
    }
  }

  lemma {:induction false} AtomsMatchGlob(p: string, s: string, same: (char, char) -> bool)
    ensures MatchAtoms(AtomsOf(p), s, same) <==> LineGlob(p, s, same)
    decreases |p| + |s|
  {
    if p != [] {
      assert AtomsOf(p)[1..] == AtomsOf(p[1..]);
      if p[0] == '*' {
        StarStep(p, s, same);
        AtomsMatchGlob(p[1..], s, same);
        if s != [] {
          AtomsMatchGlob(p, s[1..], same);
        }
      } else if s != [] {
        AtomsMatchGlob(p[1..], s[1..], same);
      }
    }
  }

  /** A star takes nothing, or one character and then again what a star takes. */
  lemma StarStep(p: string, s: string, same: (char, char) -> bool)
    requires p != [] && p[0] == '*'
    ensures LineGlob(p, s, same) <==>
            LineGlob(p[1..], s, same) || (s != [] && s[0] != '\n' && LineGlob(p, s[1..], same))
  {
    assert s[0..] == s;
    if LineGlob(p[1..], s, same) {
      assert OneLine(s[..0]);
    }
    if s != [] {
      forall k | 0 <= k < |s| ensures s[1..][k..] == s[k + 1..] && (s[0] != '\n' ==> (OneLine(s[1..][..k]) <==> OneLine(s[..k + 1]))) {
        assert s[..k + 1] == [s[0]] + s[1..][..k];
      }
      if s[0] != '\n' && LineGlob(p, s[1..], same) {
        var k :| 0 <= k <= |s[1..]| && OneLine(s[1..][..k]) && LineGlob(p[1..], s[1..][k..], same);
        assert OneLine(s[..k + 1]) && LineGlob(p[1..], s[k + 1..], same);
      }
      if LineGlob(p, s, same) && !LineGlob(p[1..], s, same) {
        var k :| 0 <= k <= |s| && OneLine(s[..k]) && LineGlob(p[1..], s[k..], same);
        assert k > 0 && s[0] == s[..k][0];
        assert OneLine(s[1..][..k - 1]) && LineGlob(p[1..], s[1..][k - 1..], same);
      }
    }
  }

  /** The compiled wildcard means the glob, on every subject. */
  lemma WildcardMeansGlob(p: string, s: string, same: (char, char) -> bool)
    ensures RegexMatches(AnchoredSource(p), s, same) <==> LineGlob(p, s, same)
  {
    var src := AnchoredSource(p);
    assert src[1..|src| - 1] == Join(EscapeAll(Split(p, '*')), ".*");
    JoinedIsSource(p);
    SourceParses(p);
    AtomsMatchGlob(p, s, same);
  }

  lemma {:induction false} LineGlobOnOneLine(p: string, s: string, same: (char, char) -> bool)
    requires OneLine(s)
    ensures LineGlob(p, s, same) <==> GlobMatch(p, s, same)
    decreases |p|
  {
    if p != [] {
      if p[0] == '*' {
        forall k | 0 <= k <= |s|
          ensures OneLine(s[..k]) && (LineGlob(p[1..], s[k..], same) <==> GlobMatch(p[1..], s[k..], same))
        {
          LineGlobOnOneLine(p[1..], s[k..], same);
        }
      } else if s != [] {
        LineGlobOnOneLine(p[1..], s[1..], same);
      }
    }
  }

  /** On subjects without a line feed the compiled wildcard is the plain glob relation. */
  lemma WildcardMeansPlainGlob(p: string, s: string, same: (char, char) -> bool)
    requires OneLine(s)
    ensures RegexMatches(AnchoredSource(p), s, same) <==> GlobMatch(p, s, same)
  {
    WildcardMeansGlob(p, s, same);
    LineGlobOnOneLine(p, s, same);
  }

  function LineFeeds(s: string): nat {
    if s == [] then 0 else (if s[0] == '\n' then 1 else 0) + LineFeeds(s[1..])
  }

  lemma {:induction false} LineFeedsAppend(s: string, t: string)
    ensures LineFeeds(s + t) == LineFeeds(s) + LineFeeds(t)
    ensures OneLine(s) ==> LineFeeds(s) == 0
  {
    if s == [] {
      assert s + t == t;
    } else {
      assert (s + t)[1..] == s[1..] + t;
      LineFeedsAppend(s[1..], t);
    }
  }

  /** Every line feed of a matched subject stands in the pattern. */
  lemma {:induction false} LineFeedsAreLiteral(p: string, s: string)
    requires LineGlob(p, s, ExactChar)
    ensures LineFeeds(s) == LineFeeds(p)
    decreases |p|
  {
    if p != [] {
      if p[0] == '*' {
        var k :| 0 <= k <= |s| && OneLine(s[..k]) && LineGlob(p[1..], s[k..], ExactChar);
        LineFeedsAreLiteral(p[1..], s[k..]);
        LineFeedsAppend(s[..k], s[k..]);
        assert s == s[..k] + s[k..];
      } else {
        LineFeedsAreLiteral(p[1..], s[1..]);
      }
    }
  }

  /** What the glob matches when its first star takes a line feed and everything else as little as it can. */
  function WithLineFeed(p: string): string {
    if p == [] then []
    else if p[0] == '*' then ['\n'] + Shortest(p[1..])
    else [p[0]] + WithLineFeed(p[1..])
  }

  /** The pattern with its stars left out: the shortest text it matches. */
  function Shortest(p: string): string {
    if p == [] then [] else (if p[0] == '*' then [] else [p[0]]) + Shortest(p[1..])
  }

  lemma {:induction false} ShortestIsGlob(p: string)
    ensures GlobMatch(p, Shortest(p), ExactChar) && LineFeeds(Shortest(p)) == LineFeeds(p)
  {
    if p != [] {
      ShortestIsGlob(p[1..]);
      var s := Shortest(p);
      if p[0] == '*' {
        assert s[0..] == Shortest(p[1..]);
      } else {
        assert s[1..] == Shortest(p[1..]);
      }
    }
  }

  lemma {:induction false} WithLineFeedMatches(p: string)
    requires '*' in p
    ensures GlobMatch(p, WithLineFeed(p), ExactChar) && LineFeeds(WithLineFeed(p)) == LineFeeds(p) + 1
  {
    var s := WithLineFeed(p);
    if p[0] == '*' {
      ShortestIsGlob(p[1..]);
      assert s[1..] == Shortest(p[1..]);
    } else {
      assert p == [p[0]] + p[1..] && s[1..] == WithLineFeed(p[1..]);
      WithLineFeedMatches(p[1..]);
    }
  }

  lemma {:induction false} NoStarNoDifference(p: string, s: string)
    requires '*' !in p
    ensures LineGlob(p, s, ExactChar) <==> GlobMatch(p, s, ExactChar)
    decreases |p|
  {
    if p != [] && s != [] {
      assert p == [p[0]] + p[1..];
      NoStarNoDifference(p[1..], s[1..]);
    }
  }

  /** A compiled wildcard means its plain glob on all subjects if and only if it has no star: a star takes any
      character but a line feed. */
  lemma StarsStopAtLineFeeds(p: string)
    ensures '*' !in p <==> forall s :: RegexMatches(AnchoredSource(p), s, ExactChar) <==> GlobMatch(p, s, ExactChar)
  {
    hide AnchoredSource, RegexMatches;
    if '*' in p {
      var s := WithLineFeed(p);
      WithLineFeedMatches(p);
      WildcardMeansGlob(p, s, ExactChar);
      if LineGlob(p, s, ExactChar) {
        LineFeedsAreLiteral(p, s);
      }
    } else {
      forall s ensures RegexMatches(AnchoredSource(p), s, ExactChar) <==> GlobMatch(p, s, ExactChar) {
        WildcardMeansGlob(p, s, ExactChar);
        NoStarNoDifference(p, s);
      }
    }
  }

  lemma {:induction false} LineGlobConcat(p: string, q: string, s: string, t: string, same: (char, char) -> bool)
    requires LineGlob(p, s, same) && LineGlob(q, t, same)
    ensures LineGlob(p + q, s + t, same)
    decreases |p|
  {
    if p == [] {
      assert p + q == q && s + t == t;
    } else {
      assert (p + q)[1..] == p[1..] + q;
      if p[0] == '*' {
        var k :| 0 <= k <= |s| && OneLine(s[..k]) && LineGlob(p[1..], s[k..], same);
        LineGlobConcat(p[1..], q, s[k..], t, same);
        assert (s + t)[k..] == s[k..] + t && (s + t)[..k] == s[..k];
      } else {
        LineGlobConcat(p[1..], q, s[1..], t, same);
        assert (s + t)[1..] == s[1..] + t;
      }
    }
  }

  /** Every operator of the expression language is escaped, and nothing else. */
  lemma OperatorsAreEscaped(c: char)
    ensures Escape([c]) == (if c == '\\' || c == '.' || c == '+' || c == '*' || c == '?' || c == '(' || c == ')' || c == '|'
                               || c == '[' || c == ']' || c == '{' || c == '}' || c == '^' || c == '$' || c == '#'
                               || c == '&' || c == '-' || c == '~' then ['\\', c] else [c])
  {
    assert [c][1..] == [] && Escape([]) == [];
  }
}
