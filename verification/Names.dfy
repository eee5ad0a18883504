/** File names in the cache directory: committed metadata and bodies, and temporary files (src/cache.rs). */
module Names {
  import opened Prelude
  import opened Text

  /** A directory entry by its extension; the key is the file stem. */
  datatype FileName = Meta(key: string) | Body(key: string) | Other(raw: string)

  /** The name on disk. */
  function Render(f: FileName): string {
    match f
    case Meta(key) => key + ".json"
    case Body(key) => key + ".body"
    case Other(raw) => raw
  }

  /** `Path::extension` is `ext`, and the stem before it: there must be something before the last dot. */
  function StemBefore(name: string, ext: string): Option<string> {
    if HasSuffix(name, ext) && |name| > |ext| then Some(name[..|name| - |ext|]) else None
  }

  /** How a directory scan sees a name. */
  function Classify(name: string): FileName {
    if StemBefore(name, ".json").Some? then Meta(StemBefore(name, ".json").value)
    else if StemBefore(name, ".body").Some? then Body(StemBefore(name, ".body").value)
    else Other(name)
  }

  ghost predicate Proper(f: FileName) {
    match f
    case Meta(key) => key != []
    case Body(key) => key != []
    case Other(raw) => StemBefore(raw, ".json").None? && StemBefore(raw, ".body").None?
  }

  /** Names and their classification are in bijection: no two files of the model share a name on disk. */
  lemma ClassifyInvertsRender(f: FileName)
    requires Proper(f)
    ensures Classify(Render(f)) == f
  {
    match f
    case Meta(key) =>
      assert Render(f)[|key|..] == ".json" && Render(f)[..|key|] == key;
    case Body(key) =>
      assert Render(f)[|key|..] == ".body" && Render(f)[..|key|] == key;
      assert ".json" != ".body" by { assert ".json"[1] != ".body"[1]; }
    case Other(_) =>
  }

  lemma RenderInvertsClassify(name: string)
    ensures Render(Classify(name)) == name && Proper(Classify(name))
  {
    var n := |name| - 5;
    if StemBefore(name, ".json").Some? {
      assert name == name[..n] + ".json";
    } else if StemBefore(name, ".body").Some? {
      assert name == name[..n] + ".body";
    }
  }

  // ---------- Temporary files ----------

  predicate At(s: string, part: string, i: nat) {
    i + |part| <= |s| && s[i..i + |part|] == part
  }

  /** `str::contains`. */
  predicate Contains(s: string, part: string) {
    exists i :: 0 <= i <= |s| && At(s, part, i)
  }

  const TEMP_MARK: string := ".tmp-"

  /** `is_cache_temp_file`. */
  predicate IsTemp(f: FileName) {
    Contains(Render(f), TEMP_MARK)
  }

  lemma MarkInFront(key: string, ext: string)
    requires |ext| == 5 && ext[0] == '.' && ext[1] != 't' && forall i :: 0 < i < 5 ==> ext[i] != '.'
    ensures Contains(key + ext, TEMP_MARK) <==> Contains(key, TEMP_MARK)
  {
    var s := key + ext;
    if Contains(key, TEMP_MARK) {
      var i :| 0 <= i <= |key| && At(key, TEMP_MARK, i);
      assert s[i..i + 5] == key[i..i + 5] && At(s, TEMP_MARK, i);
    }
    if Contains(s, TEMP_MARK) {
      var i :| 0 <= i <= |s| && At(s, TEMP_MARK, i);
      // The mark cannot reach into the extension, whose only dot is not followed by a `t`.
      assert forall k :: i <= k < i + 5 ==> s[k] == s[i..i + 5][k - i] == TEMP_MARK[k - i];
      assert forall j :: 0 < j < 5 ==> TEMP_MARK[j] != '.';
      assert s[|key|] == '.' && s[|key| + 1] == ext[1];
      assert s[i + 1] == TEMP_MARK[1] == 't' && i != |key|;
      assert !(i < |key| < i + 5);
      assert key[i..i + 5] == s[i..i + 5] && At(key, TEMP_MARK, i);
    }
  }

  /** A metadata file is temporary exactly when its body file is: both depend on the key alone. */
  lemma TempByKey(key: string)
    ensures IsTemp(Meta(key)) <==> Contains(key, TEMP_MARK)
    ensures IsTemp(Body(key)) <==> Contains(key, TEMP_MARK)
  {
    MarkInFront(key, ".json");
    MarkInFront(key, ".body");
  }

  function Digit(d: nat): char
    requires d < 10
  {
    "0123456789"[d]
  }

  function Decimal(n: nat): (r: string)
    ensures r != []
  {
    (if n < 10 then [] else Decimal(n / 10)) + [Digit(n % 10)]
  }

  ghost predicate AllDigits(s: string) {
    forall i :: 0 <= i < |s| ==> '0' <= s[i] <= '9'
  }

  lemma {:induction false} DecimalIsDigits(n: nat)
    ensures AllDigits(Decimal(n))
  {
    if n >= 10 {
      DecimalIsDigits(n / 10);
    }
  }

  lemma {:induction false} DecimalInjective(m: nat, n: nat)
    requires Decimal(m) == Decimal(n)
    ensures m == n
  {
    var a, b := Decimal(m), Decimal(n);
    assert a[|a| - 1] == b[|b| - 1];
    assert m % 10 == n % 10;
    assert a[..|a| - 1] == b[..|b| - 1];
    assert a[..|a| - 1] == if m < 10 then [] else Decimal(m / 10);
    assert b[..|b| - 1] == if n < 10 then [] else Decimal(n / 10);
    if m >= 10 && n >= 10 {
      DecimalInjective(m / 10, n / 10);
    }
  }

  datatype TempKind = TempBody | TempMeta

  /** The name of a temporary file of process `pid`. */
  function TempRaw(kind: TempKind, key: string, pid: nat, id: nat): string {
    "." + key + (if kind == TempBody then ".body.tmp-" else ".meta.tmp-") + Decimal(pid) + "-" + Decimal(id)
  }

  function Temp(kind: TempKind, key: string, pid: nat, id: nat): FileName {
    Other(TempRaw(kind, key, pid, id))
  }

  /** Texts that end in a number after a dash determine the number. */
  lemma LastNumber(a: string, b: string, m: nat, n: nat)
    requires a + "-" + Decimal(m) == b + "-" + Decimal(n)
    ensures m == n
  {
    hide Decimal;
    DecimalIsDigits(m);
    DecimalIsDigits(n);
    var s := a + "-" + Decimal(m);
    var t := b + "-" + Decimal(n);
    assert s[|a|] == '-' && t[|b|] == '-';
    assert forall i :: |a| < i < |s| ==> s[i] == Decimal(m)[i - |a| - 1] != '-';
    assert forall i :: |b| < i < |t| ==> t[i] == Decimal(n)[i - |b| - 1] != '-';
    assert |a| == |b|;
    assert s[|a| + 1..] == Decimal(m) && t[|b| + 1..] == Decimal(n);
    DecimalInjective(m, n);
  }

  /** Within one process, different counter values give different temporary names, whatever kind and key. */
  lemma TempsDiffer(kind: TempKind, key: string, pid: nat, id: nat, kind': TempKind, key': string, id': nat)
    requires id != id'
    ensures Temp(kind, key, pid, id) != Temp(kind', key', pid, id')
  {
    if TempRaw(kind, key, pid, id) == TempRaw(kind', key', pid, id') {
      var a := "." + key + (if kind == TempBody then ".body.tmp-" else ".meta.tmp-") + Decimal(pid);
      var b := "." + key' + (if kind' == TempBody then ".body.tmp-" else ".meta.tmp-") + Decimal(pid);
      LastNumber(a, b, id, id');
    }
  }

  /** Every temporary name is recognised as one by startup cleanup, and never as metadata or a body. */
  lemma TempsAreTemporary(kind: TempKind, key: string, pid: nat, id: nat)
    ensures IsTemp(Temp(kind, key, pid, id)) && Proper(Temp(kind, key, pid, id))
  {
    var raw := TempRaw(kind, key, pid, id);
    var front := "." + key + (if kind == TempBody then ".body" else ".meta");
    var back := Decimal(pid) + "-" + Decimal(id);
    assert raw == front + TEMP_MARK + back;
    MarkInside(front, back);
    DecimalIsDigits(id);
    var last := raw[|raw| - 1];
    assert last == Decimal(id)[|Decimal(id)| - 1];
    assert '0' <= last <= '9';
    assert last != ".json"[4] && last != ".body"[4];
  }

  lemma MarkInside(front: string, back: string)
    ensures Contains(front + TEMP_MARK + back, TEMP_MARK)
  {
    var s := front + TEMP_MARK + back;
    assert s[|front|..|front| + |TEMP_MARK|] == TEMP_MARK;
    assert At(s, TEMP_MARK, |front|);
  }
}
