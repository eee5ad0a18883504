/** The cache directory: lookup, startup cleanup and eviction, file by file (src/cache.rs). */
module CacheDir {
  import opened Prelude
  import opened Names
  import opened Entry
  import opened Lru

  type Disk = map<FileName, Bytes>

  /** The JSON text of metadata, as an abstract encoding. */
  datatype Codec = Codec(encode: CacheEntry -> Bytes, decode: Bytes -> Option<CacheEntry>)

  /** A temporary file, by key or raw name. */
  predicate TempName(f: FileName) {
    match f
    case Meta(key) => Contains(key, TEMP_MARK)
    case Body(key) => Contains(key, TEMP_MARK)
    case Other(raw) => Contains(raw, TEMP_MARK)
  }

  lemma TempNameIsTemp(f: FileName)
    ensures TempName(f) <==> IsTemp(f)
  {
    match f
    case Meta(key) => TempByKey(key);
    case Body(key) => TempByKey(key);
    case Other(_) =>
  }

  /** What the startup scan makes of a file. */
  datatype Verdict = TempFile | Ignored | Corrupt | Mismatched | Stale | Live(item: Item)

  function Judge(codec: Codec, d: Disk, name: FileName, now: nat): Verdict {
    if TempName(name) then TempFile
    else if !name.Meta? then Ignored
    else if name !in d then Corrupt
    else match codec.decode(d[name])
      case None => Corrupt
      case Some(e) =>
        if Body(name.key) !in d || |d[Body(name.key)]| != e.bodyLen then Mismatched
        else if e.version != CACHE_VERSION || e.revalidate || SaturatingSub(now, e.createdAt) >= e.ttl then Stale
        else Live(Item(e.lastAccess, name.key, SaturatingAdd(|d[name]|, |d[Body(name.key)]|)))
  }

  predicate IsLive(codec: Codec, d: Disk, key: string, now: nat) {
    Judge(codec, d, Meta(key), now).Live?
  }

  /** The live entries in the order of the scan. */
  function LiveItems(codec: Codec, d: Disk, listing: seq<FileName>, now: nat): seq<Item> {
    if listing == [] then []
    else
      var n := |listing| - 1;
      var verdict := Judge(codec, d, listing[n], now);
      LiveItems(codec, d, listing[..n], now) + if verdict.Live? then [verdict.item] else []
  }

  /** What `Cache::lookup` returns, apart from the new access time. */
  function LookupFinds(codec: Codec, d: Disk, key: string): Option<CacheEntry> {
    if Meta(key) !in d then None
    else match codec.decode(d[Meta(key)])
      case None => None
      case Some(e) =>
        if e.version != CACHE_VERSION || Body(key) !in d || |d[Body(key)]| != e.bodyLen then None else Some(e)
  }

  /** A request at `now` would be a hit. */
  predicate WouldHit(codec: Codec, d: Disk, key: string, now: nat) {
    LookupFinds(codec, d, key).Some? && IsFresh(LookupFinds(codec, d, key).value, now)
  }

  /** The two validity tests agree on every key that is not a temporary name. */
  lemma LiveIffHit(codec: Codec, d: Disk, key: string, now: nat)
    requires !Contains(key, TEMP_MARK)
    ensures IsLive(codec, d, key, now) <==> WouldHit(codec, d, key, now)
  {
  }

  // ---------- Files that only go ----------

  ghost predicate Shrunk(d: Disk, d': Disk) {
    forall f :: f in d' ==> f in d && d'[f] == d[f]
  }

  ghost function TotalBytes(d: Disk): nat {
    if d == map[] then 0 else
      var f :| f in d;
      |d[f]| + TotalBytes(d - {f})
  }

  lemma {:induction false} BytesWithout(d: Disk, f: FileName)
    requires f in d
    ensures TotalBytes(d) == |d[f]| + TotalBytes(d - {f})
    decreases |d|
  {
    var g :| g in d && TotalBytes(d) == |d[g]| + TotalBytes(d - {g});
    if g != f {
      BytesWithout(d - {g}, f);
      BytesWithout(d - {f}, g);
      assert d - {g} - {f} == d - {f} - {g};
    }
  }

  /** The files a scan verdict may remove. */
  ghost function Touched(codec: Codec, d: Disk, name: FileName, now: nat): set<FileName> {
    match Judge(codec, d, name, now)
    case TempFile => {name}
    case Corrupt => {name}
    case Mismatched => {name, Body(name.key)}
    case Stale => {name, Body(name.key)}
    case Ignored => {}
    case Live(_) => {}
  }

  ghost predicate Agree(d: Disk, d': Disk, f: FileName) {
    (f in d <==> f in d') && (f in d ==> d[f] == d'[f])
  }

  /** Judging a name does not disturb the verdict on another. */
  lemma VerdictStays(codec: Codec, d: Disk, d': Disk, done: FileName, name: FileName, now: nat)
    requires done != name && Shrunk(d, d')
    requires forall f :: f in d && f !in d' ==> f in Touched(codec, d, done, now)
    ensures Judge(codec, d', name, now) == Judge(codec, d, name, now)
  {
    if name.Meta? && !TempName(name) {
      assert Agree(d, d', name) && Agree(d, d', Body(name.key));
    }
  }

  datatype Summary = Summary(stale: nat, invalid: nat, orphaned: nat, temporary: nat, evictions: nat,
                             bytesRemoved: nat, errors: nat)

  function Counted(s: Summary, v: Verdict): Summary {
    match v
    case TempFile => s.(temporary := s.temporary + 1)
    case Corrupt => s.(invalid := s.invalid + 1)
    case Mismatched => s.(invalid := s.invalid + 1)
    case Stale => s.(stale := s.stale + 1)
    case Ignored => s
    case Live(_) => s
  }

  const NOTHING_DONE: Summary := Summary(0, 0, 0, 0, 0, 0, 0)

  /** The counters after a scan of `listing`. */
  function Tally(codec: Codec, d: Disk, listing: seq<FileName>, now: nat): Summary {
    if listing == [] then NOTHING_DONE
    else
      var n := |listing| - 1;
      Counted(Tally(codec, d, listing[..n], now), Judge(codec, d, listing[n], now))
  }

  lemma TallyStep(codec: Codec, d: Disk, listing: seq<FileName>, i: nat, now: nat, r: Summary, r': Summary)
    requires i < |listing| && SameCounts(r, Tally(codec, d, listing[..i], now))
    requires r' == Counted(r, Judge(codec, d, listing[i], now)).(bytesRemoved := r'.bytesRemoved, errors := r'.errors)
    ensures SameCounts(r', Tally(codec, d, listing[..i + 1], now))
    ensures r'.evictions == r.evictions && r'.orphaned == r.orphaned
    ensures LiveItems(codec, d, listing[..i + 1], now) == LiveItems(codec, d, listing[..i], now)
            + if Judge(codec, d, listing[i], now).Live? then [Judge(codec, d, listing[i], now).item] else []
  {
    hide Judge;
    assert listing[..i + 1][..i] == listing[..i];
  }

  ghost predicate SameCounts(r: Summary, s: Summary) {
    r.temporary == s.temporary && r.invalid == s.invalid && r.stale == s.stale
  }

  /** Between two points of a cleanup: files only go, and every byte gone is counted once. */
  ghost predicate Accounted(d: Disk, s: Summary, d': Disk, s': Summary) {
    Shrunk(d, d') && TotalBytes(d') + s'.bytesRemoved == TotalBytes(d) + s.bytesRemoved
  }

  ghost predicate Lists(listing: seq<FileName>, d: Disk) {
    && (forall f :: f in d <==> f in listing)
    && (forall i, j :: 0 <= i < j < |listing| ==> listing[i] != listing[j])
  }

  /** The files startup cleanup has a reason to remove, before any eviction. */
  ghost predicate Doomed(codec: Codec, d: Disk, f: FileName, now: nat) {
    TempName(f) || (!f.Other? && !IsLive(codec, d, f.key, now))
  }

  lemma TouchedIsDoomed(codec: Codec, d: Disk, name: FileName, f: FileName, now: nat)
    requires f in Touched(codec, d, name, now)
    ensures Doomed(codec, d, f, now)
  {
    if name.Meta? {
      assert name == Meta(name.key);
    }
  }

  ghost predicate HasKey(items: seq<Item>, key: string) {
    exists i :: 0 <= i < |items| && items[i].key == key
  }

  lemma {:induction false} LiveItemKeys(codec: Codec, d: Disk, listing: seq<FileName>, now: nat, key: string)
    ensures HasKey(LiveItems(codec, d, listing, now), key) <==> Meta(key) in listing && IsLive(codec, d, key, now)
  {
    if listing != [] {
      var n := |listing| - 1;
      LiveItemKeys(codec, d, listing[..n], now, key);
      assert listing == listing[..n] + [listing[n]];
      var items, front := LiveItems(codec, d, listing, now), LiveItems(codec, d, listing[..n], now);
      if HasKey(front, key) {
        var i :| 0 <= i < |front| && front[i].key == key;
        assert items[i] == front[i];
      }
      if Judge(codec, d, listing[n], now).Live? {
        assert listing[n] == Meta(listing[n].key);
        assert items[|items| - 1].key == listing[n].key;
      }
    }
  }

  lemma {:induction false} LiveItemsDistinct(codec: Codec, d: Disk, listing: seq<FileName>, now: nat)
    requires forall i, j :: 0 <= i < j < |listing| ==> listing[i] != listing[j]
    ensures DistinctItems(LiveItems(codec, d, listing, now))
  {
    if listing != [] {
      var n := |listing| - 1;
      LiveItemsDistinct(codec, d, listing[..n], now);
      var front := LiveItems(codec, d, listing[..n], now);
      if Judge(codec, d, listing[n], now).Live? {
        LiveItemKeys(codec, d, listing[..n], now, listing[n].key);
        assert !HasKey(front, listing[n].key);
      }
    }
  }

  lemma SortKeepsKeys(items: seq<Item>, key: string)
    ensures HasKey(StableSort(items), key) <==> HasKey(items, key)
  {
    StableSortSorted(items);
    if HasKey(items, key) {
      var i :| 0 <= i < |items| && items[i].key == key;
      assert items[i] in multiset(StableSort(items));
    }
    if HasKey(StableSort(items), key) {
      var i :| 0 <= i < |StableSort(items)| && StableSort(items)[i].key == key;
      assert StableSort(items)[i] in multiset(items);
    }
  }

  /** With distinct keys, every key is either dropped or kept by a cut. */
  lemma CutSplitsKeys(items: seq<Item>, k: nat, key: string)
    requires k <= |items| && DistinctItems(items)
    ensures HasKey(items, key) <==> HasKey(items[..k], key) || HasKey(items[k..], key)
    ensures !(HasKey(items[..k], key) && HasKey(items[k..], key))
  {
    if HasKey(items, key) {
      var i :| 0 <= i < |items| && items[i].key == key;
      if i < k {
        assert items[..k][i].key == key;
      } else {
        assert items[k..][i - k].key == key;
      }
    }
  }

  /** After `i` names: the rest is judged as at the start, and only doomed files are gone. */
  ghost predicate ScanState(codec: Codec, d: Disk, cur: Disk, listing: seq<FileName>, i: nat, now: nat) {
    && (forall j :: i <= j < |listing| ==> Judge(codec, cur, listing[j], now) == Judge(codec, d, listing[j], now))
    && (forall f :: f in d && f !in cur ==> Doomed(codec, d, f, now))
  }

  lemma NothingScanned(codec: Codec, d: Disk, listing: seq<FileName>, now: nat)
    ensures LiveItems(codec, d, listing[..0], now) == []
    ensures SameCounts(NOTHING_DONE, Tally(codec, d, listing[..0], now))
  {
  }

  lemma ScanStarts(codec: Codec, d: Disk, listing: seq<FileName>, now: nat)
    ensures ScanState(codec, d, d, listing, 0, now) && ScanClean(codec, d, d, [], now)
  {
  }

  lemma ScanStep(codec: Codec, d: Disk, cur: Disk, cur': Disk, listing: seq<FileName>, i: nat, now: nat)
    requires i < |listing| && forall j, k :: 0 <= j < k < |listing| ==> listing[j] != listing[k]
    requires ScanState(codec, d, cur, listing, i, now) && Shrunk(cur, cur')
    requires forall f :: f in cur && f !in cur' ==> f in Touched(codec, cur, listing[i], now)
    ensures ScanState(codec, d, cur', listing, i + 1, now)
  {
    forall j | i < j < |listing| ensures Judge(codec, cur', listing[j], now) == Judge(codec, d, listing[j], now) {
      VerdictStays(codec, cur, cur', listing[i], listing[j], now);
    }
    forall f | f in cur && f !in cur' ensures Doomed(codec, d, f, now) {
      assert Judge(codec, cur, listing[i], now) == Judge(codec, d, listing[i], now);
      TouchedIsDoomed(codec, d, listing[i], f, now);
    }
  }

  /** Of the scanned names, only live metadata and files outside the scan's business are left. */
  ghost predicate ScanClean(codec: Codec, d: Disk, cur: Disk, scanned: seq<FileName>, now: nat) {
    forall j :: 0 <= j < |scanned| && scanned[j] in cur ==>
      !TempName(scanned[j]) && (scanned[j].Meta? ==> IsLive(codec, d, scanned[j].key, now))
  }

  lemma ScanCleanStep(codec: Codec, d: Disk, cur: Disk, cur': Disk, listing: seq<FileName>, i: nat, now: nat)
    requires i < |listing| && ScanState(codec, d, cur, listing, i, now) && Shrunk(cur, cur')
    requires ScanClean(codec, d, cur, listing[..i], now)
    requires Touched(codec, cur, listing[i], now) !! cur'.Keys
    ensures ScanClean(codec, d, cur', listing[..i + 1], now)
  {
    forall j | 0 <= j <= i && listing[j] in cur'
      ensures !TempName(listing[j]) && (listing[j].Meta? ==> IsLive(codec, d, listing[j].key, now))
    {
      if j < i {
        assert listing[..i][j] == listing[j];
      } else if listing[j].Meta? {
        assert listing[j] == Meta(listing[j].key);
      }
    }
  }

  /** What is gone was removed for one of the names. */
  ghost predicate RemovedBy(codec: Codec, d: Disk, cur: Disk, names: seq<FileName>, now: nat) {
    forall f :: f in d && f !in cur ==> exists j :: 0 <= j < |names| && f in Touched(codec, d, names[j], now)
  }

  /** And all that was to be removed for them is gone. */
  ghost predicate AllRemoved(codec: Codec, d: Disk, cur: Disk, names: seq<FileName>, now: nat) {
    forall j, f :: 0 <= j < |names| && f in Touched(codec, d, names[j], now) ==> f !in cur
  }

  lemma NothingRemoved(codec: Codec, d: Disk, listing: seq<FileName>, now: nat)
    ensures RemovedBy(codec, d, d, listing[..0], now) && AllRemoved(codec, d, d, listing[..0], now)
  {
  }

  lemma RemovalStep(codec: Codec, d: Disk, cur: Disk, cur': Disk, listing: seq<FileName>, i: nat, now: nat)
    requires i < |listing| && ScanState(codec, d, cur, listing, i, now) && Shrunk(cur, cur')
    requires RemovedBy(codec, d, cur, listing[..i], now)
    requires forall f :: f in cur && f !in cur' ==> f in Touched(codec, cur, listing[i], now)
    ensures RemovedBy(codec, d, cur', listing[..i + 1], now)
    ensures AllRemoved(codec, d, cur, listing[..i], now) && Touched(codec, cur, listing[i], now) !! cur'.Keys ==>
              AllRemoved(codec, d, cur', listing[..i + 1], now)
  {
    hide Judge;
    assert Touched(codec, cur, listing[i], now) == Touched(codec, d, listing[i], now);
    assert listing[..i + 1] == listing[..i] + [listing[i]];
    var names := listing[..i + 1];
    forall f | f in d && f !in cur' ensures exists j :: 0 <= j < |names| && f in Touched(codec, d, names[j], now) {
      if f in cur {
        assert f in Touched(codec, d, names[i], now);
      } else {
        var j :| 0 <= j < i && f in Touched(codec, d, listing[..i][j], now);
        assert f in Touched(codec, d, names[j], now);
      }
    }
  }

  /** A body that no readable metadata goes with. */
  ghost predicate BodyAlone(codec: Codec, d: Disk, f: FileName) {
    && f in d && f.Body? && !TempName(f)
    && (Meta(f.key) in d ==> codec.decode(d[Meta(f.key)]).None?)
  }

  /** The bodies left for the second pass when the first removed all it was to. */
  lemma OrphansAreAlone(codec: Codec, d: Disk, listing: seq<FileName>, now: nat, scanned: Disk, live: set<string>)
    requires Lists(listing, d) && Shrunk(d, scanned)
    requires RemovedBy(codec, d, scanned, listing, now) && AllRemoved(codec, d, scanned, listing, now)
    requires forall key :: key in live <==> Meta(key) in listing && IsLive(codec, d, key, now)
    ensures (set f | f in scanned && f.Body? && f.key !in live) == set f | f in d && BodyAlone(codec, d, f)
  {
    forall f | f in d && f.Body? ensures f in scanned && f.key !in live <==> BodyAlone(codec, d, f) {
      OneBody(codec, d, listing, now, scanned, live, f);
    }
  }

  lemma OneBody(codec: Codec, d: Disk, listing: seq<FileName>, now: nat, scanned: Disk, live: set<string>, f: FileName)
    requires Lists(listing, d) && Shrunk(d, scanned) && f in d && f.Body?
    requires RemovedBy(codec, d, scanned, listing, now) && AllRemoved(codec, d, scanned, listing, now)
    requires forall key :: key in live <==> Meta(key) in listing && IsLive(codec, d, key, now)
    ensures f in scanned && f.key !in live <==> BodyAlone(codec, d, f)
  {
    hide Judge, Touched, TempName, Contains;
    var meta := Meta(f.key);
    var i :| 0 <= i < |listing| && listing[i] == f;
    BodyTouched(codec, d, f, f, now);
    BodyTouched(codec, d, meta, f, now);
    BodyVerdict(codec, d, f, now);
    if meta in d {
      var j :| 0 <= j < |listing| && listing[j] == meta;
      assert f in Touched(codec, d, meta, now) ==> f in Touched(codec, d, listing[j], now);
    }
    if f !in scanned {
      var j :| 0 <= j < |listing| && f in Touched(codec, d, listing[j], now);
      BodyTouched(codec, d, listing[j], f, now);
    }
    assert TempName(f) ==> f in Touched(codec, d, listing[i], now);
  }

  /** The first pass removes a body for its own name or for its metadata's. */
  lemma BodyTouched(codec: Codec, d: Disk, name: FileName, f: FileName, now: nat)
    requires f.Body?
    ensures f in Touched(codec, d, name, now) <==>
            || (name == f && TempName(f))
            || (name == Meta(f.key) && (Judge(codec, d, name, now).Mismatched? || Judge(codec, d, name, now).Stale?))
  {
    hide Contains;
  }

  lemma BodyVerdict(codec: Codec, d: Disk, f: FileName, now: nat)
    requires f.Body?
    ensures TempName(f) <==> TempName(Meta(f.key))
    ensures TempName(f) ==> Judge(codec, d, Meta(f.key), now).TempFile?
    ensures !TempName(f) && Meta(f.key) in d ==>
              (codec.decode(d[Meta(f.key)]).None? <==> Judge(codec, d, Meta(f.key), now).Corrupt?)
              && (Judge(codec, d, Meta(f.key), now).Corrupt? || Judge(codec, d, Meta(f.key), now).Mismatched?
                  || Judge(codec, d, Meta(f.key), now).Stale? || IsLive(codec, d, f.key, now))
    ensures IsLive(codec, d, f.key, now) ==> Judge(codec, d, Meta(f.key), now).Live?
  {
    hide Contains;
  }

  /** The files startup cleanup leaves: no temporary file, and of entries only the live ones that fit. */
  ghost predicate Kept(codec: Codec, d: Disk, listing: seq<FileName>, now: nat, max: nat, f: FileName) {
    !TempName(f) && (f.Other? || HasKey(Survivors(LiveItems(codec, d, listing, now), max), f.key))
  }

  ghost predicate CleanResult(codec: Codec, d: Disk, listing: seq<FileName>, now: nat, max: nat, d': Disk) {
    forall f :: f in d' <==> f in d && Kept(codec, d, listing, now, max, f)
  }

  /** Every file that is gone was temporary, invalid, stale, orphaned or evicted. */
  ghost predicate OnlyReasonableRemovals(codec: Codec, d: Disk, listing: seq<FileName>, now: nat, max: nat, d': Disk) {
    forall f :: f in d && f !in d' ==> !Kept(codec, d, listing, now, max, f)
  }

  ghost predicate Dropped(items: seq<Item>, max: nat, key: string) {
    HasKey(StableSort(items)[..Drops(StableSort(items), ScanTotal(items), max)], key)
  }

  lemma DroppedOrSurvives(items: seq<Item>, max: nat, key: string)
    requires DistinctItems(items)
    ensures HasKey(items, key) <==> Dropped(items, max, key) || HasKey(Survivors(items, max), key)
    ensures !(Dropped(items, max, key) && HasKey(Survivors(items, max), key))
  {
    DistinctAfterSort(items);
    SortKeepsKeys(items, key);
    CutSplitsKeys(StableSort(items), Drops(StableSort(items), ScanTotal(items), max), key);
  }

  lemma KeySet(items: seq<Item>, live: set<string>, key: string)
    requires live == set x | x in items :: x.key
    ensures key in live <==> HasKey(items, key)
  {
    if HasKey(items, key) {
      var i :| 0 <= i < |items| && items[i].key == key;
      assert items[i] in items;
    }
  }

  lemma LiveKeys(codec: Codec, d: Disk, listing: seq<FileName>, now: nat, items: seq<Item>, live: set<string>)
    requires items == LiveItems(codec, d, listing, now) && live == set x | x in items :: x.key
    ensures forall key :: key in live <==> Meta(key) in listing && IsLive(codec, d, key, now)
  {
    forall key ensures key in live <==> Meta(key) in listing && IsLive(codec, d, key, now) {
      KeySet(items, live, key);
      LiveItemKeys(codec, d, listing, now, key);
    }
  }

  /** What each pass removes has a reason. */
  lemma CleanupSteps(codec: Codec, d: Disk, listing: seq<FileName>, now: nat, max: nat, items: seq<Item>, live: set<string>,
                     scanned: Disk, paired: Disk, d': Disk)
    requires Lists(listing, d) && items == LiveItems(codec, d, listing, now) && live == set x | x in items :: x.key
    requires forall f :: f in d && f !in scanned ==> Doomed(codec, d, f, now)
    requires forall f :: f in scanned && f !in paired ==> f.Body? && f.key !in live
    requires forall f :: f in paired && f !in d' ==> !f.Other? && Dropped(items, max, f.key)
    ensures OnlyReasonableRemovals(codec, d, listing, now, max, d')
  {
    forall f | f in d && f !in d' ensures !Kept(codec, d, listing, now, max, f) {
      if !f.Other? {
        LiveItemsDistinct(codec, d, listing, now);
        DroppedOrSurvives(items, max, f.key);
        LiveItemKeys(codec, d, listing, now, f.key);
        KeySet(items, live, f.key);
      }
    }
  }

  /** When every removal succeeds, what is left is kept. */
  lemma CleanupLeaves(codec: Codec, d: Disk, listing: seq<FileName>, now: nat, max: nat, items: seq<Item>, live: set<string>,
                      scanned: Disk, paired: Disk, d': Disk)
    requires Lists(listing, d) && items == LiveItems(codec, d, listing, now) && live == set x | x in items :: x.key
    requires Shrunk(d, scanned) && Shrunk(scanned, paired) && Shrunk(paired, d')
    requires OnlyReasonableRemovals(codec, d, listing, now, max, d')
    requires ScanClean(codec, d, scanned, listing, now)
    requires forall f :: f in paired && f.Body? ==> f.key in live
    requires forall f :: f in d' && !f.Other? ==> !Dropped(items, max, f.key)
    ensures CleanResult(codec, d, listing, now, max, d')
  {
    forall f ensures f in d' <==> f in d && Kept(codec, d, listing, now, max, f) {
      if f in d' {
        assert f in listing;
        var j :| 0 <= j < |listing| && listing[j] == f;
        assert !TempName(listing[j]);
        if !f.Other? {
          LiveItemsDistinct(codec, d, listing, now);
          DroppedOrSurvives(items, max, f.key);
          LiveItemKeys(codec, d, listing, now, f.key);
          KeySet(items, live, f.key);
          assert f.Meta? ==> f == Meta(f.key);
        }
      }
    }
  }

  /** What the runtime eviction counts for a name: metadata that parses, with the body if there is one. */
  function StoredItem(codec: Codec, d: Disk, name: FileName): seq<Item> {
    if !name.Meta? || name !in d || codec.decode(d[name]).None? then []
    else
      var bodyLen := if Body(name.key) in d then |d[Body(name.key)]| else 0;
      [Item(codec.decode(d[name]).value.lastAccess, name.key, SaturatingAdd(|d[name]|, bodyLen))]
  }

  function StoredItems(codec: Codec, d: Disk, listing: seq<FileName>): seq<Item> {
    if listing == [] then []
    else StoredItems(codec, d, listing[..|listing| - 1]) + StoredItem(codec, d, listing[|listing| - 1])
  }

  function Orphans(names: seq<FileName>, live: set<string>): set<FileName> {
    set f | f in names && f.Body? && f.key !in live
  }

  lemma NoOrphansYet(names: seq<FileName>, live: set<string>)
    ensures Orphans(names[..0], live) == {}
  {
  }

  lemma AllOrphans(d: Disk, names: seq<FileName>, live: set<string>)
    requires Lists(names, d)
    ensures Orphans(names, live) == set f | f in d && f.Body? && f.key !in live
  {
  }

  lemma OrphansGrow(names: seq<FileName>, i: nat, live: set<string>)
    requires i < |names| && forall j, k :: 0 <= j < k < |names| ==> names[j] != names[k]
    ensures |Orphans(names[..i + 1], live)|
            == |Orphans(names[..i], live)| + if names[i].Body? && names[i].key !in live then 1 else 0
  {
    assert names[..i + 1] == names[..i] + [names[i]];
    assert names[i] !in names[..i];
    if names[i].Body? && names[i].key !in live {
      assert Orphans(names[..i + 1], live) == Orphans(names[..i], live) + {names[i]};
    } else {
      assert Orphans(names[..i + 1], live) == Orphans(names[..i], live);
    }
  }

  /** What an eviction in which every removal succeeded leaves: all but the files of the entries cut. */
  ghost predicate EvictResult(codec: Codec, d: Disk, listing: seq<FileName>, max: nat, d': Disk) {
    && Shrunk(d, d')
    && forall f :: f in d' <==> f in d && (f.Other? || !Dropped(StoredItems(codec, d, listing), max, f.key))
  }

  class CacheDirectory {
    var files: Disk
    /** Removal attempts so far; attempt `i` on an existing file fails exactly when `fails(i)`. */
    var attempts: nat
    const fails: nat -> bool
    const codec: Codec

    ghost predicate Reliable() {
      forall i :: !fails(i)
    }

    constructor (files: Disk, fails: nat -> bool, codec: Codec)
      ensures this.files == files && this.fails == fails && this.codec == codec && attempts == 0
    {
      this.files, this.fails, this.codec, attempts := files, fails, codec, 0;
    }

    /** The names in the directory, in the system's order. */
    method ReadDir() returns (listing: seq<FileName>)
      ensures Lists(listing, files)
    {
      listing := [];
      var rest := files.Keys;
      while rest != {}
        invariant rest <= files.Keys
        invariant forall f :: f in files <==> f in rest || f in listing
        invariant forall f :: f in listing ==> f !in rest
        invariant forall i, j :: 0 <= i < j < |listing| ==> listing[i] != listing[j]
        decreases rest
      {
        var f :| f in rest;
        listing, rest := listing + [f], rest - {f};
      }
    }

    method RemoveFile(name: FileName) returns (ok: bool)
      modifies this
      ensures ok <==> name in old(files) && !fails(old(attempts))
      ensures files == if ok then old(files) - {name} else old(files)
      ensures attempts == old(attempts) + 1
    {
      ok := name in files && !fails(attempts);
      attempts := attempts + 1;
      if ok {
        files := files - {name};
      }
    }

    /** `summary.bytes_removed += remove_cache_file(…)`. */
    method Discard(name: FileName, s: Summary) returns (r: Summary)
      modifies this
      ensures files == old(files) || files == old(files) - {name}
      ensures Reliable() ==> name !in files && r.errors == s.errors
      ensures Accounted(old(files), s, files, r)
      ensures r == s.(bytesRemoved := r.bytesRemoved, errors := r.errors)
      ensures r.errors == s.errors + if name in files then 1 else 0
    {
      if name !in files {
        return s;
      }
      var len := |files[name]|;
      BytesWithout(files, name);
      var ok := RemoveFile(name);
      r := if ok then s.(bytesRemoved := s.bytesRemoved + len) else s.(errors := s.errors + 1);
    }

    /** One name of the startup scan. */
    method ScanOne(name: FileName, now: nat, s: Summary) returns (item: Option<Item>, r: Summary)
      modifies this
      ensures Accounted(old(files), s, files, r)
      ensures forall f :: f in old(files) && f !in files ==> f in Touched(codec, old(files), name, now)
      ensures r.errors >= s.errors && (Reliable() ==> r.errors == s.errors)
      ensures r.errors == s.errors ==> Touched(codec, old(files), name, now) !! files.Keys
      ensures var v := Judge(codec, old(files), name, now);
              && item == (if v.Live? then Some(v.item) else None)
              && r == Counted(s, v).(bytesRemoved := r.bytesRemoved, errors := r.errors)
    {
      hide TotalBytes, Contains;
      item, r := None, s;
      if TempName(name) {
        r := Discard(name, r);
        r := r.(temporary := r.temporary + 1);
        return;
      }
      if !name.Meta? {
        return;
      }
      var body := Body(name.key);
      var entry := if name in files then codec.decode(files[name]) else None;
      if entry.None? {
        r := r.(invalid := r.invalid + 1);
        r := Discard(name, r);
        // The body, if any, is left to the orphan pass.
        return;
      }
      var e := entry.value;
      if body !in files || |files[body]| != e.bodyLen {
        r := r.(invalid := r.invalid + 1);
        r := Discard(name, r);
        r := Discard(body, r);
        return;
      }
      if e.version != CACHE_VERSION || e.revalidate || SaturatingSub(now, e.createdAt) >= e.ttl {
        r := r.(stale := r.stale + 1);
        r := Discard(name, r);
        r := Discard(body, r);
        return;
      }
      item := Some(Item(e.lastAccess, name.key, SaturatingAdd(|files[name]|, |files[body]|)));
    }

    /** The first pass: temporary, invalid and stale files go; the live entries are listed. */
    method ScanPass(listing: seq<FileName>, now: nat) returns (items: seq<Item>, r: Summary)
      requires Lists(listing, files)
      modifies this
      ensures Accounted(old(files), NOTHING_DONE, files, r) && r.evictions == r.orphaned == 0
      ensures SameCounts(r, Tally(codec, old(files), listing, now))
      ensures items == LiveItems(codec, old(files), listing, now)
      ensures forall f :: f in old(files) && f !in files ==> Doomed(codec, old(files), f, now)
      ensures RemovedBy(codec, old(files), files, listing, now)
      ensures r.errors == 0 ==> AllRemoved(codec, old(files), files, listing, now)
      ensures Reliable() ==> r.errors == 0
      ensures r.errors == 0 ==> ScanClean(codec, old(files), files, listing, now)
    {
      hide Judge, TotalBytes, Tally, LiveItems, SameCounts, Counted, RemovedBy, AllRemoved;
      items, r := [], NOTHING_DONE;
      NothingScanned(codec, files, listing, now);
      ghost var d := files;
      ScanStarts(codec, d, listing, now);
      NothingRemoved(codec, d, listing, now);
      for i := 0 to |listing|
        invariant Accounted(d, NOTHING_DONE, files, r) && r.evictions == r.orphaned == 0
        invariant SameCounts(r, Tally(codec, d, listing[..i], now))
        invariant items == LiveItems(codec, d, listing[..i], now)
        invariant ScanState(codec, d, files, listing, i, now)
        invariant RemovedBy(codec, d, files, listing[..i], now)
        invariant r.errors == 0 ==> AllRemoved(codec, d, files, listing[..i], now)
        invariant Reliable() ==> r.errors == 0
        invariant r.errors == 0 ==> ScanClean(codec, d, files, listing[..i], now)
      {
        ghost var before, counted := files, r;
        var item;
        item, r := ScanOne(listing[i], now, r);
        TallyStep(codec, d, listing, i, now, counted, r);
        RemovalStep(codec, d, before, files, listing, i, now);
        ScanStep(codec, d, before, files, listing, i, now);
        if r.errors == 0 {
          ScanCleanStep(codec, d, before, files, listing, i, now);
        }
        if item.Some? {
          items := items + [item.value];
        }
      }
      assert listing[..|listing|] == listing;
    }

    /** The second pass: bodies without a live entry. */
    method OrphanPass(live: set<string>, s: Summary) returns (r: Summary)
      modifies this
      ensures Accounted(old(files), s, files, r) && r.evictions == s.evictions && SameCounts(r, s)
      ensures forall f :: f in old(files) && f !in files ==> f.Body? && f.key !in live
      ensures r.errors >= s.errors && (Reliable() ==> r.errors == s.errors)
      ensures r.errors == s.errors ==> forall f :: f in files && f.Body? ==> f.key in live
      ensures r.orphaned == s.orphaned + |set f | f in old(files) && f.Body? && f.key !in live|
    {
      r := s;
      ghost var d := files;
      var listing := ReadDir();
      NoOrphansYet(listing, live);
      AllOrphans(d, listing, live);
      hide TotalBytes, Orphans;
      for i := 0 to |listing|
        invariant Accounted(d, s, files, r) && r.evictions == s.evictions && SameCounts(r, s)
        invariant forall f :: f in d && f !in files ==> f.Body? && f.key !in live
        invariant r.errors >= s.errors && (Reliable() ==> r.errors == s.errors)
        invariant r.errors == s.errors ==>
                    forall j :: 0 <= j < i && listing[j] in files && listing[j].Body? ==> listing[j].key in live
        invariant r.orphaned == s.orphaned + |Orphans(listing[..i], live)|
      {
        OrphansGrow(listing, i, live);
        if listing[i].Body? && listing[i].key !in live {
          r := r.(orphaned := r.orphaned + 1);
          r := Discard(listing[i], r);
        }
      }
      assert listing[..|listing|] == listing;
    }

    /** Metadata and body of a key. */
    method DiscardEntry(key: string, s: Summary) returns (r: Summary)
      modifies this
      ensures Accounted(old(files), s, files, r)
      ensures r.evictions == s.evictions && r.orphaned == s.orphaned && SameCounts(r, s)
      ensures forall f :: f in old(files) && f !in files ==> f == Meta(key) || f == Body(key)
      ensures r.errors >= s.errors && (Reliable() ==> r.errors == s.errors)
      ensures r.errors == s.errors ==> Meta(key) !in files && Body(key) !in files
    {
      hide TotalBytes;
      r := Discard(Meta(key), s);
      r := Discard(Body(key), r);
    }

    /** The eviction loop: entries go from the front of the order until the total fits. */
    method LruPass(items: seq<Item>, total: nat, max: nat, s: Summary) returns (r: Summary)
      modifies this
      ensures Accounted(old(files), s, files, r)
      ensures var dropped := items[..Drops(items, total, max)];
              && r.evictions == s.evictions + |dropped| && r.orphaned == s.orphaned && SameCounts(r, s)
              && (forall f :: f in old(files) && f !in files ==> !f.Other? && HasKey(dropped, f.key))
              && r.errors >= s.errors && (Reliable() ==> r.errors == s.errors)
              && (r.errors == s.errors ==> forall f :: f in files && !f.Other? ==> !HasKey(dropped, f.key))
    {
      hide TotalBytes;
      r := s;
      ghost var d := files;
      var left: nat, i: nat := total, 0;
      while i < |items| && left > max
        invariant i <= |items|
        invariant Drops(items, total, max) == i + Drops(items[i..], left, max)
        invariant Accounted(d, s, files, r)
        invariant r.evictions == s.evictions + i && r.orphaned == s.orphaned && SameCounts(r, s)
        invariant forall f :: f in d && f !in files ==> !f.Other? && HasKey(items[..i], f.key)
        invariant r.errors >= s.errors && (Reliable() ==> r.errors == s.errors)
        invariant r.errors == s.errors ==> forall f :: f in files && !f.Other? ==> !HasKey(items[..i], f.key)
      {
        var key := items[i].key;
        r := DiscardEntry(key, r.(evictions := r.evictions + 1));
        left := SaturatingSub(left, items[i].size);
        KeysGrow(items, i);
        assert items[i..][1..] == items[i + 1..];
        i := i + 1;
      }
    }

    /** `cleanup_startup`. The listing is the order in which the first scan saw the directory. */
    method CleanupStartup(now: nat, max: nat) returns (r: Summary, ghost listing: seq<FileName>)
      modifies this
      ensures Lists(listing, old(files))
      ensures Accounted(old(files), NOTHING_DONE, files, r)
      ensures OnlyReasonableRemovals(codec, old(files), listing, now, max, files)
      ensures SameCounts(r, Tally(codec, old(files), listing, now))
      ensures var items := LiveItems(codec, old(files), listing, now);
              r.evictions == Drops(StableSort(items), ScanTotal(items), max)
      ensures Reliable() ==> r.errors == 0
      ensures r.errors == 0 ==> CleanResult(codec, old(files), listing, now, max, files)
      ensures r.errors == 0 ==> r.orphaned == |set f | f in old(files) && BodyAlone(codec, old(files), f)|
    {
      hide Judge, TotalBytes, StableSort, Drops, ScanTotal, Tally;
      ghost var d := files;
      var names := ReadDir();
      listing := names;
      var items;
      items, r := ScanPass(names, now);
      ghost var scanned := files;
      var live := set x | x in items :: x.key;
      r := OrphanPass(live, r);
      ghost var paired := files;
      var sorted := StableSort(items);
      r := LruPass(sorted, ScanTotal(items), max, r);
      CleanupSteps(codec, d, listing, now, max, items, live, scanned, paired, files);
      if r.errors == 0 {
        LiveKeys(codec, d, listing, now, items, live);
        OrphansAreAlone(codec, d, listing, now, scanned, live);
        CleanupLeaves(codec, d, listing, now, max, items, live, scanned, paired, files);
      }
    }

    /** `evict`: over all readable metadata, whatever its age and whether or not its body is there. */
    method Evict(max: nat) returns (ghost listing: seq<FileName>)
      modifies this
      ensures Lists(listing, old(files)) && Shrunk(old(files), files)
      ensures forall f :: f in old(files) && f !in files ==>
                !f.Other? && Dropped(StoredItems(codec, old(files), listing), max, f.key)
      ensures Reliable() ==> EvictResult(codec, old(files), listing, max, files)
    {
      hide TotalBytes, StableSort, ScanTotal;
      ghost var d := files;
      var names := ReadDir();
      listing := names;
      var items := [];
      for i := 0 to |names|
        invariant files == d && items == StoredItems(codec, d, names[..i])
      {
        assert names[..i + 1][..i] == names[..i];
        items := items + StoredItem(codec, files, names[i]);
      }
      assert names[..|names|] == names;
      if ScanTotal(items) <= max {
        return;
      }
      var sorted := StableSort(items);
      var ignored := LruPass(sorted, ScanTotal(items), max, NOTHING_DONE);
    }

    /** `write_metadata`: the temporary file, then the rename. A failed write leaves some prefix behind. */
    method WriteMetadata(key: string, e: CacheEntry, temp: FileName, failsAfter: Option<nat>, renames: bool) returns (ok: bool)
      requires temp.Other?
      modifies this`files
      ensures ok <==> failsAfter.None? && renames
      ensures ok ==> files == (old(files) - {temp})[Meta(key) := codec.encode(e)]
      ensures !ok ==> files - {temp} == old(files) - {temp}
    {
      var data := codec.encode(e);
      if failsAfter.Some? {
        files := files[temp := data[..Min(failsAfter.value, |data|)]];
        return false;
      }
      files := files[temp := data];
      if !renames {
        return false;
      }
      files := (files - {temp})[Meta(key) := data];
      return true;
    }

    /** `lookup`: the entry with its access time renewed, on disk too when that write succeeds. */
    method Lookup(key: string, now: nat, temp: FileName, failsAfter: Option<nat>, renames: bool) returns (r: Option<CacheEntry>)
      requires temp.Other?
      modifies this
      ensures var found := LookupFinds(codec, old(files), key);
              && (r.Some? <==> found.Some?)
              && (r.Some? ==> r.value == found.value.(lastAccess := now))
      ensures r.Some? ==> if failsAfter.None? && renames
                          then files == (old(files) - {temp})[Meta(key) := codec.encode(r.value)]
                          else files - {temp} == old(files) - {temp}
      ensures r.None? ==> files == old(files) || files == old(files) - {Meta(key)}
      ensures r.None? && Meta(key) in old(files) && Reliable() ==> Meta(key) !in files
    {
      if Meta(key) !in files {
        return None;
      }
      var parsed := codec.decode(files[Meta(key)]);
      if parsed.None? {
        var ignored := RemoveFile(Meta(key));
        return None;
      }
      var entry := parsed.value;
      if entry.version != CACHE_VERSION || Body(key) !in files || |files[Body(key)]| != entry.bodyLen {
        var ignored := RemoveFile(Meta(key));
        return None;
      }
      entry := entry.(lastAccess := now);
      var saved := WriteMetadata(key, entry, temp, failsAfter, renames);
      return Some(entry);
    }

    /** `commit`: the body's rename, the metadata, then eviction. The first failure ends it. */
    method Commit(key: string, e: CacheEntry, tempBody: FileName, tempMeta: FileName, max: nat,
                  bodyRenames: bool, failsAfter: Option<nat>, metaRenames: bool) returns (ok: bool, ghost listing: seq<FileName>)
      requires tempBody.Other? && tempMeta.Other? && tempBody != tempMeta && tempBody in files
      modifies this
      ensures ok <==> bodyRenames && failsAfter.None? && metaRenames
      ensures !bodyRenames ==> files == old(files)
      ensures bodyRenames && !ok ==>
                files - {tempMeta} == (old(files) - {tempBody})[Body(key) := old(files)[tempBody]] - {tempMeta}
      ensures ok ==>
                var stored := (old(files) - {tempBody, tempMeta})[Body(key) := old(files)[tempBody]][Meta(key) := codec.encode(e)];
                && Lists(listing, stored) && Shrunk(stored, files)
                && (forall f :: f in stored && f !in files ==>
                      !f.Other? && Dropped(StoredItems(codec, stored, listing), max, f.key))
                && (Reliable() ==> EvictResult(codec, stored, listing, max, files))
    {
      ghost var d := files;
      listing := [];
      if !bodyRenames {
        return false, listing;
      }
      files := (files - {tempBody})[Body(key) := files[tempBody]];
      ok := WriteMetadata(key, e, tempMeta, failsAfter, metaRenames);
      if ok {
        assert files == (d - {tempBody, tempMeta})[Body(key) := d[tempBody]][Meta(key) := codec.encode(e)];
        listing := Evict(max);
      }
    }
  }

  lemma KeysGrow(items: seq<Item>, i: nat)
    requires i < |items|
    ensures forall key :: HasKey(items[..i + 1], key) <==> HasKey(items[..i], key) || items[i].key == key
  {
    forall key ensures HasKey(items[..i + 1], key) <==> HasKey(items[..i], key) || items[i].key == key {
      assert items[..i + 1][i] == items[i];
      if HasKey(items[..i], key) {
        var j :| 0 <= j < i && items[..i][j].key == key;
        assert items[..i + 1][j].key == key;
      }
      if HasKey(items[..i + 1], key) {
        var j :| 0 <= j < i + 1 && items[..i + 1][j].key == key;
        assert j < i ==> items[..i][j].key == key;
      }
    }
  }

  // ---------- What the counters count ----------

  /** Metadata that cannot be used: unreadable, or without a body of the recorded length. */
  ghost predicate Unusable(codec: Codec, d: Disk, f: FileName) {
    && f.Meta? && !IsTemp(f) && f in d
    && match codec.decode(d[f])
       case None => true
       case Some(e) => Body(f.key) !in d || |d[Body(f.key)]| != e.bodyLen
  }

  /** Usable metadata of another version, to be revalidated, or expired. */
  ghost predicate Outdated(codec: Codec, d: Disk, f: FileName, now: nat) {
    && f.Meta? && !IsTemp(f) && f in d && !Unusable(codec, d, f)
    && var e := codec.decode(d[f]).value; e.version != CACHE_VERSION || e.revalidate || e.createdAt + e.ttl <= now || e.ttl == 0
  }

  lemma VerdictMeans(codec: Codec, d: Disk, f: FileName, now: nat)
    requires f in d
    ensures Judge(codec, d, f, now).TempFile? <==> IsTemp(f)
    ensures Judge(codec, d, f, now).Corrupt? || Judge(codec, d, f, now).Mismatched? <==> Unusable(codec, d, f)
    ensures Judge(codec, d, f, now).Stale? <==> Outdated(codec, d, f, now)
  {
    TempNameIsTemp(f);
  }

  ghost function Temps(names: seq<FileName>): set<FileName> {
    set f | f in names && IsTemp(f)
  }

  ghost function Unusables(codec: Codec, d: Disk, names: seq<FileName>): set<FileName> {
    set f | f in names && Unusable(codec, d, f)
  }

  ghost function Outdateds(codec: Codec, d: Disk, names: seq<FileName>, now: nat): set<FileName> {
    set f | f in names && Outdated(codec, d, f, now)
  }

  /** The counters of a scan are the numbers of temporary files, of unusable metadata and of outdated metadata. */
  lemma {:induction false} TallyCounts(codec: Codec, d: Disk, names: seq<FileName>, now: nat)
    requires (forall i :: 0 <= i < |names| ==> names[i] in d) && forall i, j :: 0 <= i < j < |names| ==> names[i] != names[j]
    ensures var r := Tally(codec, d, names, now);
            && r.temporary == |Temps(names)| && r.invalid == |Unusables(codec, d, names)|
            && r.stale == |Outdateds(codec, d, names, now)|
  {
    hide Judge, IsTemp, Unusable, Outdated;
    if names != [] {
      var n := |names| - 1;
      var front, f := names[..n], names[n];
      TallyCounts(codec, d, front, now);
      VerdictMeans(codec, d, f, now);
      assert names == front + [f] && f !in front;
      GrowsByOne(Temps(front), Temps(names), f, IsTemp(f));
      GrowsByOne(Unusables(codec, d, front), Unusables(codec, d, names), f, Unusable(codec, d, f));
      GrowsByOne(Outdateds(codec, d, front, now), Outdateds(codec, d, names, now), f, Outdated(codec, d, f, now));
    }
  }

  lemma GrowsByOne(a: set<FileName>, b: set<FileName>, f: FileName, more: bool)
    requires f !in a && forall g :: g in b <==> g in a || (more && g == f)
    ensures |b| == |a| + if more then 1 else 0
  {
    assert b == a + if more then {f} else {};
  }

  /** What a lookup finds: readable metadata of this version with a body of the recorded length. */
  lemma LookupFindsMeans(codec: Codec, d: Disk, key: string, e: CacheEntry)
    ensures LookupFinds(codec, d, key) == Some(e) <==>
            && Meta(key) in d && codec.decode(d[Meta(key)]) == Some(e)
            && e.version == CACHE_VERSION && Body(key) in d && |d[Body(key)]| == e.bodyLen
  {
  }

  /** A request would be a hit on an entry found that is not to be revalidated and not expired. */
  lemma WouldHitMeans(codec: Codec, d: Disk, key: string, now: nat)
    ensures WouldHit(codec, d, key, now) <==>
            exists e :: LookupFinds(codec, d, key) == Some(e) && !e.revalidate && e.ttl > 0 && now < e.createdAt + e.ttl
  {
  }
}
