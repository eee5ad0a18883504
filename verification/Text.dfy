/** The string operations the proxy uses, on sequences of characters. */
module Text {
  import opened Prelude

  /** ASCII white space, as trimmed by `str::trim` on ASCII text. */
  predicate IsSpace(c: char) {
    c == ' ' || ('\t' <= c <= '\r')
  }

  function TrimStart(s: string): string {
    if s != [] && IsSpace(s[0]) then TrimStart(s[1..]) else s
  }

  function TrimEnd(s: string): string {
    if s != [] && IsSpace(s[|s| - 1]) then TrimEnd(s[..|s| - 1]) else s
  }

  function Trim(s: string): string {
    TrimEnd(TrimStart(s))
  }

  function LowerChar(c: char): char {
    if 'A' <= c <= 'Z' then c + ' ' else c
  }

  /** `to_ascii_lowercase`. */
  function Lower(s: string): (r: string)
    ensures |r| == |s| && forall i :: 0 <= i < |s| ==> r[i] == LowerChar(s[i])
  {
    if s == [] then [] else [LowerChar(s[0])] + Lower(s[1..])
  }

  predicate HasPrefix(s: string, p: string) {
    p <= s
  }

  predicate HasSuffix(s: string, p: string) {
    |p| <= |s| && s[|s| - |p|..] == p
  }

  /** `split(sep)`: always one part more than there are separators. */
  function Split(s: string, sep: char): (parts: seq<string>)
    ensures |parts| > 0
    ensures forall p :: p in parts ==> sep !in p
  {
    if s == [] then [[]]
    else
      var rest := Split(s[1..], sep);
      if s[0] == sep then [[]] + rest else [[s[0]] + rest[0]] + rest[1..]
  }

  /** `join(glue)`. */
  function Join(parts: seq<string>, glue: string): string {
    if parts == [] then []
    else if |parts| == 1 then parts[0]
    else parts[0] + glue + Join(parts[1..], glue)
  }

  /** `split_once(sep)`: the parts around the first separator. */
  function SplitOnce(s: string, sep: char): (r: Option<(string, string)>)
    ensures r.Some? ==> s == r.value.0 + [sep] + r.value.1 && sep !in r.value.0
    ensures r.None? ==> sep !in s
  {
    if s == [] then None
    else if s[0] == sep then Some(([], s[1..]))
    else match SplitOnce(s[1..], sep)
      case None => None
      case Some((a, b)) => Some(([s[0]] + a, b))
  }

  lemma {:induction false} JoinAppend(parts: seq<string>, last: string, glue: string)
    requires parts != []
    ensures Join(parts + [last], glue) == Join(parts, glue) + glue + last
  {
    if |parts| > 1 {
      assert (parts + [last])[1..] == parts[1..] + [last];
      JoinAppend(parts[1..], last, glue);
    }
  }

  // ---------- What these operations mean ----------

  ghost predicate Blank(s: string) {
    forall i :: 0 <= i < |s| ==> s[i] as int == 32 || 9 <= s[i] as int <= 13
  }

  /** No white space at either end. */
  ghost predicate Tight(s: string) {
    s == [] || (!Blank([s[0]]) && !Blank([s[|s| - 1]]))
  }

  /** `w` is what lies in `s` from `a` to `b`, with only white space around it and none at its ends. */
  ghost predicate TrimmedAt(s: string, w: string, a: nat, b: nat) {
    a <= b <= |s| && w == s[a..b] && Blank(s[..a]) && Blank(s[b..]) && Tight(w)
  }

  lemma BlankChar(c: char)
    ensures Blank([c]) <==> IsSpace(c)
  {
    assert [c][0] == c;
  }

  lemma {:induction false} TrimStartAt(s: string) returns (a: nat)
    ensures a <= |s| && TrimStart(s) == s[a..] && Blank(s[..a]) && (a < |s| ==> !IsSpace(s[a]))
    decreases |s|
  {
    if s != [] && IsSpace(s[0]) {
      var m := TrimStartAt(s[1..]);
      a := m + 1;
      assert s[..a] == [s[0]] + s[1..][..m];
    } else {
      a := 0;
    }
  }

  lemma {:induction false} TrimEndAt(s: string) returns (b: nat)
    ensures b <= |s| && TrimEnd(s) == s[..b] && Blank(s[b..]) && (b > 0 ==> !IsSpace(s[b - 1]))
    decreases |s|
  {
    if s != [] && IsSpace(s[|s| - 1]) {
      b := TrimEndAt(s[..|s| - 1]);
      assert s[b..] == s[..|s| - 1][b..] + [s[|s| - 1]];
    } else {
      b := |s|;
      assert s[..b] == s;
    }
  }

  lemma TrimAt(s: string) returns (a: nat, b: nat)
    ensures TrimmedAt(s, Trim(s), a, b)
  {
    a := TrimStartAt(s);
    var m := TrimEndAt(s[a..]);
    b := a + m;
    assert s[a..][..m] == s[a..b] && s[a..][m..] == s[b..];
    if m > 0 {
      BlankChar(s[a]);
      BlankChar(s[b - 1]);
    }
  }

  /** What lies outside a trimming is white space, character by character; what lies at its ends is not. */
  lemma AroundTrimming(s: string, w: string, a: nat, b: nat)
    requires TrimmedAt(s, w, a, b)
    ensures forall i :: 0 <= i < |s| && (i < a || b <= i) ==> IsSpace(s[i])
    ensures a < b ==> !IsSpace(s[a]) && !IsSpace(s[b - 1])
  {
    forall i | 0 <= i < |s| && (i < a || b <= i) ensures IsSpace(s[i]) {
      if i < a {
        assert s[..a][i] == s[i];
      } else {
        assert s[b..][i - b] == s[i];
      }
    }
    if a < b {
      BlankChar(s[a]);
      BlankChar(s[b - 1]);
    }
  }

  lemma OnlyOneTrimming(s: string, v: string, a: nat, b: nat, w: string, c: nat, d: nat)
    requires TrimmedAt(s, v, a, b) && TrimmedAt(s, w, c, d)
    ensures v == w
  {
    AroundTrimming(s, v, a, b);
    AroundTrimming(s, w, c, d);
  }

  /** Trimming takes off the white space at both ends, all of it, and nothing else. */
  lemma TrimMeans(s: string, w: string)
    ensures Trim(s) == w <==> exists a, b :: TrimmedAt(s, w, a, b)
  {
    var a, b := TrimAt(s);
    if c, d :| TrimmedAt(s, w, c, d) {
      OnlyOneTrimming(s, Trim(s), a, b, w, c, d);
    }
  }

  lemma TrimOf(pre: string, w: string, post: string)
    requires Blank(pre) && Blank(post) && Tight(w)
    ensures Trim(pre + w + post) == w
  {
    var s := pre + w + post;
    assert s[..|pre|] == pre && s[|pre|..|pre| + |w|] == w && s[|pre| + |w|..] == post;
    assert TrimmedAt(s, w, |pre|, |pre| + |w|);
    TrimMeans(s, w);
  }

  const UPPER: string := "ABCDEFGHIJKLMNOPQRSTUVWXYZ"
  const LOWER: string := "abcdefghijklmnopqrstuvwxyz"

  /** Lower case replaces each ASCII capital by its small letter and nothing else. */
  lemma LowerMeans(s: string, i: nat)
    requires i < |s|
    ensures forall k :: 0 <= k < 26 && s[i] == UPPER[k] ==> Lower(s)[i] == LOWER[k]
    ensures s[i] !in UPPER ==> Lower(s)[i] == s[i]
  {
    if 'A' <= s[i] <= 'Z' {
      var k := s[i] as int - 65;
      LetterAt(k);
      assert s[i] == UPPER[k];
    }
    forall k | 0 <= k < 26 && s[i] == UPPER[k] ensures Lower(s)[i] == LOWER[k] {
      LetterAt(k);
    }
  }

  lemma LetterAt(k: nat)
    requires k < 26
    ensures UPPER[k] as int == 65 + k && LOWER[k] as int == 97 + k
  {
  }

  /** Splitting and joining are inverse: the parts are the only texts without the separator that join to the text. */
  lemma {:induction false} SplitJoins(s: string, sep: char)
    ensures Join(Split(s, sep), [sep]) == s
  {
    if s != [] {
      SplitJoins(s[1..], sep);
      var rest := Split(s[1..], sep);
      var parts := Split(s, sep);
      if s[0] == sep {
        assert parts[1..] == rest;
      } else {
        assert parts[1..] == rest[1..];
      }
    }
  }

  lemma {:induction false} JoinSplits(parts: seq<string>, sep: char)
    requires parts != [] && forall p :: p in parts ==> sep !in p
    ensures Split(Join(parts, [sep]), sep) == parts
    decreases |parts|
  {
    if |parts| == 1 {
      SplitNothing(parts[0], sep);
    } else {
      JoinSplits(parts[1..], sep);
      SplitFirst(parts[0], Join(parts[1..], [sep]), sep);
    }
  }

  lemma {:induction false} SplitNothing(s: string, sep: char)
    requires sep !in s
    ensures Split(s, sep) == [s]
  {
    if s != [] {
      assert s == [s[0]] + s[1..];
      SplitNothing(s[1..], sep);
    }
  }

  lemma {:induction false} SplitFirst(p: string, rest: string, sep: char)
    requires sep !in p
    ensures Split(p + [sep] + rest, sep) == [p] + Split(rest, sep)
  {
    var s := p + [sep] + rest;
    if p == [] {
      assert s[1..] == rest;
    } else {
      assert s[1..] == p[1..] + [sep] + rest && p == [p[0]] + p[1..];
      SplitFirst(p[1..], rest, sep);
    }
  }
}
