/** What a startup cleanup or an eviction leaves behind (src/cache.rs). */
module CleanupTheory {
  import opened Prelude
  import opened Names
  import opened Entry
  import opened Lru
  import opened CacheDir

  // ---------- Bytes of entries ----------

  /** Each item is an entry of the directory with its true size. */
  ghost predicate SizedIn(items: seq<Item>, d: Disk) {
    forall i :: 0 <= i < |items| ==>
      Meta(items[i].key) in d && Body(items[i].key) in d
      && items[i].size == |d[Meta(items[i].key)]| + |d[Body(items[i].key)]|
  }

  function Without(d: Disk, items: seq<Item>): Disk {
    if items == [] then d else Without(d - {Meta(items[0].key), Body(items[0].key)}, items[1..])
  }

  lemma {:induction false} EntriesAndRest(d: Disk, items: seq<Item>)
    requires SizedIn(items, d) && DistinctItems(items)
    ensures TotalBytes(d) == Sum(items) + TotalBytes(Without(d, items))
    decreases |items|
  {
    if items != [] {
      var m, b := Meta(items[0].key), Body(items[0].key);
      BytesWithout(d, m);
      BytesWithout(d - {m}, b);
      assert d - {m} - {b} == d - {m, b};
      EntriesAndRest(d - {m, b}, items[1..]);
    }
  }

  lemma {:induction false} WithoutMembers(d: Disk, items: seq<Item>, f: FileName)
    ensures f in Without(d, items) <==> f in d && !(!f.Other? && HasKey(items, f.key))
    decreases |items|
  {
    if items != [] {
      WithoutMembers(d - {Meta(items[0].key), Body(items[0].key)}, items[1..], f);
      assert items == [items[0]] + items[1..];
      if !f.Other? && HasKey(items, f.key) {
        var i :| 0 <= i < |items| && items[i].key == f.key;
        assert i > 0 ==> items[1..][i - 1].key == f.key;
      }
      if !f.Other? && HasKey(items[1..], f.key) {
        var i :| 0 <= i < |items[1..]| && items[1..][i].key == f.key;
        assert items[i + 1].key == f.key;
      }
    }
  }

  lemma PairFits(d: Disk, key: string)
    requires Meta(key) in d && Body(key) in d && TotalBytes(d) <= U64_MAX
    ensures SaturatingAdd(|d[Meta(key)]|, |d[Body(key)]|) == |d[Meta(key)]| + |d[Body(key)]|
  {
    BytesWithout(d, Meta(key));
    BytesWithout(d - {Meta(key)}, Body(key));
  }

  lemma {:induction false} LiveItemsSized(codec: Codec, d: Disk, listing: seq<FileName>, now: nat)
    requires TotalBytes(d) <= U64_MAX
    ensures SizedIn(LiveItems(codec, d, listing, now), d)
  {
    if listing != [] {
      var n := |listing| - 1;
      LiveItemsSized(codec, d, listing[..n], now);
      if Judge(codec, d, listing[n], now).Live? {
        assert listing[n] == Meta(listing[n].key);
        PairFits(d, listing[n].key);
      }
    }
  }

  lemma SortedSized(items: seq<Item>, d: Disk)
    requires SizedIn(items, d)
    ensures SizedIn(StableSort(items), d)
  {
    StableSortSorted(items);
    var s := StableSort(items);
    forall i | 0 <= i < |s| ensures Meta(s[i].key) in d && Body(s[i].key) in d
                                   && s[i].size == |d[Meta(s[i].key)]| + |d[Body(s[i].key)]| {
      assert s[i] in multiset(items);
    }
  }

  // ---------- After a cleanup in which every removal succeeded ----------

  /** All that is promised of a cleaned directory. */
  ghost predicate Clean(codec: Codec, d: Disk, now: nat, max: nat) {
    && (forall f :: f in d ==> !IsTemp(f))
    && (forall key :: Meta(key) in d ==> IsLive(codec, d, key, now))
    && (forall key :: Body(key) in d ==> Meta(key) in d)
    && TotalBytes(EntryFiles(d)) <= max
  }

  /** What a live key means: readable metadata of this version, to be served without revalidation and not
      expired, with a body of the recorded length. */
  lemma LiveMeans(codec: Codec, d: Disk, key: string, now: nat)
    ensures IsLive(codec, d, key, now) <==>
            && !IsTemp(Meta(key)) && Meta(key) in d && codec.decode(d[Meta(key)]).Some?
            && var e := codec.decode(d[Meta(key)]).value;
               && e.version == CACHE_VERSION && !e.revalidate && SaturatingSub(now, e.createdAt) < e.ttl
               && Body(key) in d && |d[Body(key)]| == e.bodyLen
  {
    TempByKey(key);
  }

  function EntryFiles(d: Disk): Disk {
    map f | f in d && !f.Other? :: d[f]
  }

  /** A key that survived is as live as before. */
  lemma SurvivorStaysLive(codec: Codec, d: Disk, listing: seq<FileName>, now: nat, max: nat, d': Disk, key: string)
    requires Lists(listing, d) && Shrunk(d, d') && CleanResult(codec, d, listing, now, max, d')
    requires HasKey(Survivors(LiveItems(codec, d, listing, now), max), key)
    ensures Meta(key) in d' && Body(key) in d' && Judge(codec, d', Meta(key), now) == Judge(codec, d, Meta(key), now)
    ensures IsLive(codec, d', key, now)
  {
    var items := LiveItems(codec, d, listing, now);
    LiveItemsDistinct(codec, d, listing, now);
    DroppedOrSurvives(items, max, key);
    LiveItemKeys(codec, d, listing, now, key);
  }

  lemma SuffixSized(s: seq<Item>, k: nat, d: Disk)
    requires k <= |s| && SizedIn(s, d) && DistinctItems(s)
    ensures SizedIn(s[k..], d) && DistinctItems(s[k..])
  {
    assert forall i :: 0 <= i < |s[k..]| ==> s[k..][i] == s[k + i];
  }

  lemma SurvivorsSized(codec: Codec, d: Disk, listing: seq<FileName>, now: nat, max: nat, d': Disk)
    requires Lists(listing, d) && Shrunk(d, d') && CleanResult(codec, d, listing, now, max, d')
    requires TotalBytes(d) <= U64_MAX
    ensures var r := Survivors(LiveItems(codec, d, listing, now), max); SizedIn(r, d') && DistinctItems(r)
  {
    hide Judge, StableSort, Drops, TotalBytes;
    var items := LiveItems(codec, d, listing, now);
    LiveItemsSized(codec, d, listing, now);
    LiveItemsDistinct(codec, d, listing, now);
    SortedSized(items, d);
    DistinctAfterSort(items);
    SuffixSized(StableSort(items), Drops(StableSort(items), ScanTotal(items), max), d);
    var r := Survivors(items, max);
    forall i | 0 <= i < |r| ensures Meta(r[i].key) in d' && Body(r[i].key) in d' {
      assert HasKey(r, r[i].key);
      SurvivorStaysLive(codec, d, listing, now, max, d', r[i].key);
    }
  }

  /** The entry files of a cleaned directory are exactly the survivors'. */
  lemma SurvivorFiles(codec: Codec, d: Disk, listing: seq<FileName>, now: nat, max: nat, d': Disk)
    requires Lists(listing, d) && Shrunk(d, d') && CleanResult(codec, d, listing, now, max, d')
    requires TotalBytes(d) <= U64_MAX
    ensures TotalBytes(EntryFiles(d')) == Sum(Survivors(LiveItems(codec, d, listing, now), max))
  {
    hide Judge, StableSort, Drops, LiveItems;
    var r := Survivors(LiveItems(codec, d, listing, now), max);
    SurvivorsSized(codec, d, listing, now, max, d');
    var e := EntryFiles(d');
    EntriesAndRest(e, r);
    forall f ensures f !in Without(e, r) {
      WithoutMembers(e, r, f);
    }
    assert Without(e, r) == map[];
  }

  lemma LiveSumFits(codec: Codec, d: Disk, listing: seq<FileName>, now: nat)
    requires Lists(listing, d) && TotalBytes(d) <= U64_MAX
    ensures Sum(LiveItems(codec, d, listing, now)) <= TotalBytes(d)
  {
    LiveItemsSized(codec, d, listing, now);
    LiveItemsDistinct(codec, d, listing, now);
    EntriesAndRest(d, LiveItems(codec, d, listing, now));
  }

  /** From an arbitrary directory, cleanup establishes `Clean`. */
  lemma CleanupCleans(codec: Codec, d: Disk, listing: seq<FileName>, now: nat, max: nat, d': Disk)
    requires Lists(listing, d) && Shrunk(d, d') && CleanResult(codec, d, listing, now, max, d')
    requires TotalBytes(d) <= U64_MAX
    ensures Clean(codec, d', now, max)
  {
    var items := LiveItems(codec, d, listing, now);
    LiveSumFits(codec, d, listing, now);
    SurvivorsExact(items, max);
    SurvivorFiles(codec, d, listing, now, max, d');
    forall f | f in d' ensures !IsTemp(f) {
      TempNameIsTemp(f);
    }
    forall key | Meta(key) in d' ensures IsLive(codec, d', key, now) {
      assert Kept(codec, d, listing, now, max, Meta(key));
      SurvivorStaysLive(codec, d, listing, now, max, d', key);
    }
    forall key | Body(key) in d' ensures Meta(key) in d' {
      assert Kept(codec, d, listing, now, max, Body(key));
      SurvivorStaysLive(codec, d, listing, now, max, d', key);
    }
  }

  lemma {:induction false} SumOfSized(a: seq<Item>, d: Disk, e: Disk)
    requires SizedIn(a, d) && DistinctItems(a) && (forall f :: f in e <==> f in d && !f.Other?)
    requires forall f :: f in e ==> e[f] == d[f]
    ensures Sum(a) <= TotalBytes(e)
  {
    EntriesAndRest(e, a);
  }

  lemma CleanNeedsNoEviction(codec: Codec, d: Disk, now: nat, max: nat, listing: seq<FileName>)
    requires Clean(codec, d, now, max) && TotalBytes(d) <= U64_MAX && Lists(listing, d)
    ensures ScanTotal(LiveItems(codec, d, listing, now)) <= max
  {
    hide Judge;
    var items := LiveItems(codec, d, listing, now);
    LiveItemsSized(codec, d, listing, now);
    LiveItemsDistinct(codec, d, listing, now);
    SumOfSized(items, d, EntryFiles(d));
    ScanTotalIsClamped(items);
  }

  lemma CleanFileIsKept(codec: Codec, d: Disk, now: nat, max: nat, listing: seq<FileName>, f: FileName)
    requires Clean(codec, d, now, max) && Lists(listing, d) && f in d
    requires ScanTotal(LiveItems(codec, d, listing, now)) <= max
    ensures Kept(codec, d, listing, now, max, f)
  {
    hide Judge, TotalBytes;
    TempNameIsTemp(f);
    if !f.Other? {
      assert IsLive(codec, d, f.key, now);
      assert Meta(f.key) in listing;
      LiveItemKeys(codec, d, listing, now, f.key);
      NothingDropped(LiveItems(codec, d, listing, now), max, f.key);
    }
  }

  /** A second cleanup at the same time removes nothing, whatever order it scans in. */
  lemma CleanupIsIdempotent(codec: Codec, d: Disk, now: nat, max: nat, listing: seq<FileName>, d': Disk)
    requires Clean(codec, d, now, max) && TotalBytes(d) <= U64_MAX
    requires Lists(listing, d) && Shrunk(d, d') && CleanResult(codec, d, listing, now, max, d')
    ensures d' == d
  {
    hide Clean, Kept, TotalBytes;
    CleanNeedsNoEviction(codec, d, now, max, listing);
    forall f | f in d ensures f in d' {
      CleanFileIsKept(codec, d, now, max, listing, f);
    }
  }

  lemma NothingDropped(items: seq<Item>, max: nat, key: string)
    requires ScanTotal(items) <= max
    ensures HasKey(Survivors(items, max), key) <==> HasKey(items, key)
  {
    SortKeepsKeys(items, key);
    assert StableSort(items)[0..] == StableSort(items);
  }

  // ---------- Cleanup and hits ----------

  /** When nothing has to be evicted, cleanup is invisible to hits, whichever removals fail. */
  lemma CleanupInvisibleToHits(codec: Codec, d: Disk, listing: seq<FileName>, now: nat, max: nat, d': Disk, key: string)
    requires Lists(listing, d) && Shrunk(d, d') && OnlyReasonableRemovals(codec, d, listing, now, max, d')
    requires ScanTotal(LiveItems(codec, d, listing, now)) <= max
    requires !Contains(key, TEMP_MARK)
    ensures WouldHit(codec, d, key, now) <==> WouldHit(codec, d', key, now)
    ensures WouldHit(codec, d, key, now) ==>
              LookupFinds(codec, d', key) == LookupFinds(codec, d, key) && d'[Body(key)] == d[Body(key)]
  {
    var items := LiveItems(codec, d, listing, now);
    if WouldHit(codec, d, key, now) {
      LiveIffHit(codec, d, key, now);
      LiveItemKeys(codec, d, listing, now, key);
      NothingDropped(items, max, key);
      assert Kept(codec, d, listing, now, max, Meta(key)) && Kept(codec, d, listing, now, max, Body(key));
    }
  }

  /** With an eviction, the hits that are lost are exactly those of the entries cut from the order. */
  lemma CleanupHits(codec: Codec, d: Disk, listing: seq<FileName>, now: nat, max: nat, d': Disk, key: string)
    requires Lists(listing, d) && Shrunk(d, d') && CleanResult(codec, d, listing, now, max, d')
    requires !Contains(key, TEMP_MARK)
    ensures WouldHit(codec, d', key, now) <==>
            WouldHit(codec, d, key, now) && !Dropped(LiveItems(codec, d, listing, now), max, key)
  {
    var items := LiveItems(codec, d, listing, now);
    LiveItemsDistinct(codec, d, listing, now);
    DroppedOrSurvives(items, max, key);
    LiveItemKeys(codec, d, listing, now, key);
    LiveIffHit(codec, d, key, now);
    LiveIffHit(codec, d', key, now);
    if WouldHit(codec, d', key, now) {
      assert Kept(codec, d, listing, now, max, Meta(key));
    } else if WouldHit(codec, d, key, now) && !Dropped(items, max, key) {
      SurvivorStaysLive(codec, d, listing, now, max, d', key);
    }
  }

  // ---------- Runtime eviction ----------

  lemma {:induction false} StoredItemAt(codec: Codec, d: Disk, listing: seq<FileName>, key: string)
    requires Meta(key) in listing && Meta(key) in d && codec.decode(d[Meta(key)]).Some?
    ensures StoredItem(codec, d, Meta(key))[0] in StoredItems(codec, d, listing)
  {
    var n := |listing| - 1;
    assert listing == listing[..n] + [listing[n]];
    if listing[n] != Meta(key) {
      StoredItemAt(codec, d, listing[..n], key);
    }
  }

  lemma {:induction false} StoredItemsDistinct(codec: Codec, d: Disk, listing: seq<FileName>)
    requires forall i, j :: 0 <= i < j < |listing| ==> listing[i] != listing[j]
    ensures DistinctItems(StoredItems(codec, d, listing))
    ensures forall x :: x in StoredItems(codec, d, listing) ==> Meta(x.key) in listing
  {
    if listing != [] {
      var n := |listing| - 1;
      StoredItemsDistinct(codec, d, listing[..n]);
      assert listing == listing[..n] + [listing[n]];
      var front := StoredItems(codec, d, listing[..n]);
      forall i | 0 <= i < |front| ensures Meta(front[i].key) in listing[..n] {
        assert front[i] in front;
      }
    }
  }

  /** An entry larger than the whole limit does not survive the eviction run by its own commit. */
  lemma OversizedEntryIsNotKept(codec: Codec, stored: Disk, listing: seq<FileName>, max: nat, after: Disk, key: string)
    requires Lists(listing, stored) && Sum(StoredItems(codec, stored, listing)) <= U64_MAX
    requires Meta(key) in stored && Body(key) in stored && codec.decode(stored[Meta(key)]).Some?
    requires max < |stored[Meta(key)]| + |stored[Body(key)]| <= U64_MAX
    requires forall f :: f in after && !f.Other? ==> !Dropped(StoredItems(codec, stored, listing), max, f.key)
    ensures Meta(key) !in after && Body(key) !in after
  {
    var items := StoredItems(codec, stored, listing);
    StoredItemAt(codec, stored, listing, key);
    StoredItemsDistinct(codec, stored, listing);
    var x := StoredItem(codec, stored, Meta(key))[0];
    var i :| 0 <= i < |items| && items[i] == x;
    OversizedGoes(items, max, x);
    DroppedOrSurvives(items, max, key);
    if HasKey(Survivors(items, max), key) {
      SurvivorIsItem(items, max, key, x);
    }
  }

  lemma SurvivorIsItem(items: seq<Item>, max: nat, key: string, x: Item)
    requires DistinctItems(items) && x in items && x.key == key && HasKey(Survivors(items, max), key)
    ensures x in Survivors(items, max)
  {
    var r := Survivors(items, max);
    var i :| 0 <= i < |r| && r[i].key == key;
    StableSortSorted(items);
    assert r[i] in StableSort(items);
    assert r[i] in multiset(items);
  }

  /** A commit larger than the limit takes every older entry with it, down to an empty cache when it is the newest. */
  lemma OversizedCommitTakesOlder(codec: Codec, stored: Disk, listing: seq<FileName>, max: nat, after: Disk, key: string, older: string)
    requires Lists(listing, stored) && Sum(StoredItems(codec, stored, listing)) <= U64_MAX
    requires Meta(key) in stored && Body(key) in stored && codec.decode(stored[Meta(key)]).Some?
    requires max < |stored[Meta(key)]| + |stored[Body(key)]| <= U64_MAX
    requires EvictResult(codec, stored, listing, max, after)
    requires Meta(older) in stored && codec.decode(stored[Meta(older)]).Some?
    requires codec.decode(stored[Meta(older)]).value.lastAccess < codec.decode(stored[Meta(key)]).value.lastAccess
    ensures Meta(older) !in after && Body(older) !in after
  {
    var items := StoredItems(codec, stored, listing);
    StoredItemAt(codec, stored, listing, key);
    StoredItemAt(codec, stored, listing, older);
    StoredItemsDistinct(codec, stored, listing);
    var x, y := StoredItem(codec, stored, Meta(key))[0], StoredItem(codec, stored, Meta(older))[0];
    OversizedTakesOlder(items, max, x);
    var i :| 0 <= i < |items| && items[i] == y;
    DroppedOrSurvives(items, max, older);
    if HasKey(Survivors(items, max), older) {
      SurvivorIsItem(items, max, older, y);
    }
  }

  // ---------- Two evictions ----------

  lemma {:induction false} StoredMembers(codec: Codec, d: Disk, listing: seq<FileName>, x: Item)
    ensures x in StoredItems(codec, d, listing) <==> Meta(x.key) in listing && StoredItem(codec, d, Meta(x.key)) == [x]
  {
    if listing != [] {
      var n := |listing| - 1;
      StoredMembers(codec, d, listing[..n], x);
      assert listing == listing[..n] + [listing[n]];
      var last := StoredItem(codec, d, listing[n]);
      if x in last {
        assert last == [x];
        assert listing[n] == Meta(x.key);
      }
    }
  }

  lemma SameFilesSameItems(codec: Codec, d: Disk, a: seq<FileName>, b: seq<FileName>)
    requires Lists(a, d) && Lists(b, d)
    ensures SameItems(StoredItems(codec, d, a), StoredItems(codec, d, b))
    ensures DistinctItems(StoredItems(codec, d, a)) && DistinctItems(StoredItems(codec, d, b))
  {
    StoredItemsDistinct(codec, d, a);
    StoredItemsDistinct(codec, d, b);
    forall x ensures x in StoredItems(codec, d, a) <==> x in StoredItems(codec, d, b) {
      StoredMembers(codec, d, a, x);
      StoredMembers(codec, d, b, x);
    }
  }

  /** A later scan lists the survivors of the first eviction. */
  lemma RescanFindsSurvivors(codec: Codec, d: Disk, listing: seq<FileName>, max: nat, d': Disk, rescan: seq<FileName>)
    requires Lists(listing, d) && EvictResult(codec, d, listing, max, d') && Lists(rescan, d')
    ensures forall x :: x in StoredItems(codec, d', rescan) <==> x in Survivors(StoredItems(codec, d, listing), max)
  {
    hide Dropped, Survivors, StoredItems;
    var items := StoredItems(codec, d, listing);
    StoredItemsDistinct(codec, d, listing);
    forall x ensures x in StoredItems(codec, d', rescan) <==> x in Survivors(items, max) {
      StoredMembers(codec, d, listing, x);
      StoredMembers(codec, d', rescan, x);
      DroppedOrSurvives(items, max, x.key);
      if x in items {
        var i :| 0 <= i < |items| && items[i] == x;
        if HasKey(Survivors(items, max), x.key) {
          SurvivorIsItem(items, max, x.key, x);
        }
      }
      if x in Survivors(items, max) {
        SurvivorsAreItems(items, max, x);
        var i :| 0 <= i < |Survivors(items, max)| && Survivors(items, max)[i] == x;
        assert HasKey(Survivors(items, max), x.key);
      }
    }
  }

  lemma SurvivorsAreItems(items: seq<Item>, max: nat, x: Item)
    requires x in Survivors(items, max)
    ensures x in items
  {
    StableSortSorted(items);
    assert x in StableSort(items);
    assert x in multiset(items);
  }

  /** When no two entries were last used at the same time, evicting to `m2` and then to `m1` leaves the directory that
      evicting to `m1` at once leaves, in whatever orders the three scans list it. */
  lemma EvictTwiceLeavesTheSame(codec: Codec, d: Disk, m1: nat, m2: nat, first: seq<FileName>, d1: Disk,
                                second: seq<FileName>, d2: Disk, once: seq<FileName>, e: Disk)
    requires Lists(first, d) && EvictResult(codec, d, first, m2, d1)
    requires Lists(second, d1) && EvictResult(codec, d1, second, m1, d2)
    requires Lists(once, d) && EvictResult(codec, d, once, m1, e)
    requires m1 <= m2 && Sum(StoredItems(codec, d, once)) <= U64_MAX && DistinctTimes(StoredItems(codec, d, once))
    ensures d2 == e
  {
    hide StoredItems, Survivors, Dropped, StableSort, Drops, ScanTotal;
    var xs, ys, zs := StoredItems(codec, d, once), StoredItems(codec, d, first), StoredItems(codec, d1, second);
    SameFilesSameItems(codec, d, once, first);
    ScanOrderIsIrrelevant(xs, ys, m2);
    RescanFindsSurvivors(codec, d, first, m2, d1, second);
    var kept := Filter(xs, x => x in Survivors(xs, m2));
    FilterMembers(xs, x => x in Survivors(xs, m2));
    forall x | x in Survivors(xs, m2) ensures x in xs {
      SurvivorsAreItems(xs, m2, x);
    }
    StoredItemsDistinct(codec, d1, second);
    ScanOrderIsIrrelevant(kept, zs, m1);
    EvictTwiceIsEvictOnce(xs, m1, m2);
    SurvivorsMonotone(xs, m1, m2);
    forall f ensures f in d2 <==> f in e {
      if !f.Other? {
        DroppedOrSurvives(xs, m1, f.key);
        DroppedOrSurvives(ys, m2, f.key);
        DroppedOrSurvives(zs, m1, f.key);
        SameKeys(xs, ys, f.key);
        SameKeys(zs, Survivors(ys, m2), f.key);
        SuffixKeys(Survivors(xs, m2), Survivors(xs, m1), f.key);
      }
    }
  }

  lemma SameKeys(xs: seq<Item>, ys: seq<Item>, key: string)
    requires SameItems(xs, ys)
    ensures HasKey(xs, key) <==> HasKey(ys, key)
  {
    if HasKey(xs, key) {
      var i :| 0 <= i < |xs| && xs[i].key == key;
      assert xs[i] in ys;
    }
    if HasKey(ys, key) {
      var i :| 0 <= i < |ys| && ys[i].key == key;
      assert ys[i] in xs;
    }
  }

  lemma SuffixKeys(xs: seq<Item>, ys: seq<Item>, key: string)
    requires exists d :: 0 <= d <= |xs| && ys == xs[d..]
    ensures HasKey(ys, key) ==> HasKey(xs, key)
  {
    if HasKey(ys, key) {
      var i :| 0 <= i < |ys| && ys[i].key == key;
      assert ys[i] in xs;
    }
  }

  // ---------- Which entries go, in terms of their metadata ----------

  /** Metadata a request could be served from at `now`. */
  ghost predicate Servable(codec: Codec, d: Disk, key: string, now: nat) {
    && !IsTemp(Meta(key)) && Readable(codec, d, key)
    && var e := MetaOf(codec, d, key);
       && e.version == CACHE_VERSION && !e.revalidate && e.ttl > 0 && now < e.createdAt + e.ttl
       && Body(key) in d && |d[Body(key)]| == e.bodyLen
  }

  ghost predicate Readable(codec: Codec, d: Disk, key: string) {
    Meta(key) in d && codec.decode(d[Meta(key)]).Some?
  }

  ghost function MetaOf(codec: Codec, d: Disk, key: string): CacheEntry
    requires Readable(codec, d, key)
  {
    codec.decode(d[Meta(key)]).value
  }

  lemma ServableIsLive(codec: Codec, d: Disk, key: string, now: nat)
    ensures Servable(codec, d, key, now) <==> IsLive(codec, d, key, now)
    ensures IsLive(codec, d, key, now) ==>
              var item := Judge(codec, d, Meta(key), now).item;
              item.key == key && item.access == MetaOf(codec, d, key).lastAccess
              && item.size <= |d[Meta(key)]| + |d[Body(key)]|
  {
    LiveMeans(codec, d, key, now);
  }

  /** Of two entries the one that is cut was last used no later than the one that survives. */
  lemma CutInOrder(items: seq<Item>, max: nat, x: Item, y: Item)
    requires DistinctItems(items) && x in items && y in items
    requires Dropped(items, max, x.key) && !Dropped(items, max, y.key)
    ensures x.access <= y.access
  {
    DroppedOrSurvives(items, max, y.key);
    var p :| 0 <= p < |items| && items[p] == y;
    hide Dropped;
    SurvivorIsItem(items, max, y.key, y);
    DroppedIsItem(items, max, x);
    StableSortSorted(items);
    var (s, k) := (StableSort(items), Drops(StableSort(items), ScanTotal(items), max));
    var i :| 0 <= i < |s[..k]| && s[..k][i] == x;
    var j :| 0 <= j < |s[k..]| && s[k..][j] == y;
    assert s[i] == x && s[k + j] == y;
  }

  lemma DroppedIsItem(items: seq<Item>, max: nat, x: Item)
    requires DistinctItems(items) && x in items && Dropped(items, max, x.key)
    ensures x in StableSort(items)[..Drops(StableSort(items), ScanTotal(items), max)]
  {
    var (s, k) := (StableSort(items), Drops(StableSort(items), ScanTotal(items), max));
    StableSortSorted(items);
    var i :| 0 <= i < |s[..k]| && s[..k][i].key == x.key;
    assert s[i] in multiset(items);
    var a :| 0 <= a < |items| && items[a] == s[i];
    var b :| 0 <= b < |items| && items[b] == x;
    assert a == b;
  }

  /** An entry is only cut when it and what was used no earlier do not fit together. */
  lemma CutForWant(items: seq<Item>, max: nat, x: Item) returns (rest: seq<Item>)
    requires DistinctItems(items) && Sum(items) <= U64_MAX && x in items && Dropped(items, max, x.key)
    ensures DistinctItems(rest) && Sum(rest) > max && forall y :: y in rest ==> y in items && x.access <= y.access
  {
    DroppedIsItem(items, max, x);
    SurvivorsExact(items, max);
    StableSortSorted(items);
    DistinctAfterSort(items);
    hide StableSort, Drops, ScanTotal, Sum, Dropped;
    var (s, k) := (StableSort(items), Drops(StableSort(items), ScanTotal(items), max));
    var i :| 0 <= i < |s[..k]| && s[..k][i] == x;
    rest := s[i..];
    FromThere(items, s, i);
  }

  lemma FromThere(items: seq<Item>, s: seq<Item>, i: nat)
    requires i < |s| && Sorted(s) && multiset(s) == multiset(items) && DistinctItems(s)
    ensures DistinctItems(s[i..]) && forall y :: y in s[i..] ==> y in items && s[i].access <= y.access
  {
    forall y | y in s[i..] ensures y in items && s[i].access <= y.access {
      var j :| 0 <= j < |s[i..]| && s[i..][j] == y;
      assert s[i + j] == y && y in multiset(s);
    }
  }

  /** The files of the readable entries that were used at `access` or later. */
  ghost function UsedSince(codec: Codec, d: Disk, access: nat): Disk {
    map f | f in d && !f.Other? && Readable(codec, d, f.key) && MetaOf(codec, d, f.key).lastAccess >= access :: d[f]
  }

  /** Each item is at most as large as its files. */
  ghost predicate AtMostFiles(items: seq<Item>, e: Disk) {
    forall i :: 0 <= i < |items| ==>
      Meta(items[i].key) in e
      && items[i].size <= |e[Meta(items[i].key)]| + if Body(items[i].key) in e then |e[Body(items[i].key)]| else 0
  }

  lemma {:induction false} ItemsFitTheirFiles(items: seq<Item>, e: Disk)
    requires AtMostFiles(items, e) && DistinctItems(items)
    ensures Sum(items) <= TotalBytes(e)
    decreases |items|
  {
    hide TotalBytes;
    if items != [] {
      var m, b := Meta(items[0].key), Body(items[0].key);
      BytesWithout(e, m);
      if b in e {
        BytesWithout(e - {m}, b);
      } else {
        assert e - {m} - {b} == e - {m};
      }
      ItemsFitTheirFiles(items[1..], e - {m} - {b});
    }
  }

  lemma LiveItemMembers(codec: Codec, d: Disk, listing: seq<FileName>, now: nat, key: string)
    requires Lists(listing, d) && Servable(codec, d, key, now)
    ensures Judge(codec, d, Meta(key), now).Live? && Judge(codec, d, Meta(key), now).item in LiveItems(codec, d, listing, now)
  {
    ServableIsLive(codec, d, key, now);
    LiveItemAt(codec, d, listing, now, key);
  }

  lemma {:induction false} LiveItemAt(codec: Codec, d: Disk, listing: seq<FileName>, now: nat, key: string)
    requires Meta(key) in listing && Judge(codec, d, Meta(key), now).Live?
    ensures Judge(codec, d, Meta(key), now).item in LiveItems(codec, d, listing, now)
  {
    hide Judge;
    var n := |listing| - 1;
    assert listing == listing[..n] + [listing[n]];
    if listing[n] != Meta(key) {
      LiveItemAt(codec, d, listing[..n], now, key);
    }
  }

  lemma {:induction false} LiveItemComesFrom(codec: Codec, d: Disk, listing: seq<FileName>, now: nat, x: Item)
    requires x in LiveItems(codec, d, listing, now)
    ensures Servable(codec, d, x.key, now) && x.access == MetaOf(codec, d, x.key).lastAccess
    ensures Body(x.key) in d && x.size <= |d[Meta(x.key)]| + |d[Body(x.key)]|
  {
    var n := |listing| - 1;
    var verdict := Judge(codec, d, listing[n], now);
    if verdict.Live? && x == verdict.item {
      assert listing[n] == Meta(x.key);
      ServableIsLive(codec, d, x.key, now);
    } else {
      LiveItemComesFrom(codec, d, listing[..n], now, x);
    }
  }

  /** Startup eviction goes by last use: a servable entry that is gone was last used no later than any entry left, and
      it went because it and the entries used no earlier are together over the limit. */
  lemma StartupEvictsLeastRecent(codec: Codec, d: Disk, listing: seq<FileName>, now: nat, max: nat, d': Disk, gone: string)
    requires Lists(listing, d) && Shrunk(d, d') && CleanResult(codec, d, listing, now, max, d') && TotalBytes(d) <= U64_MAX
    requires Servable(codec, d, gone, now) && Meta(gone) !in d'
    ensures forall left :: Meta(left) in d' ==>
              Readable(codec, d, left) && MetaOf(codec, d, gone).lastAccess <= MetaOf(codec, d, left).lastAccess
    ensures TotalBytes(UsedSince(codec, d, MetaOf(codec, d, gone).lastAccess)) > max
  {
    hide Judge, TotalBytes, StableSort, Drops, ScanTotal;
    var items := LiveItems(codec, d, listing, now);
    LiveItemsDistinct(codec, d, listing, now);
    LiveSumFits(codec, d, listing, now);
    LiveItemMembers(codec, d, listing, now, gone);
    ServableIsLive(codec, d, gone, now);
    var x := Judge(codec, d, Meta(gone), now).item;
    LiveItemKeys(codec, d, listing, now, gone);
    DroppedOrSurvives(items, max, gone);
    NotTempNotKept(codec, d, listing, now, max, d', gone);
    forall left | Meta(left) in d'
      ensures Readable(codec, d, left) && MetaOf(codec, d, gone).lastAccess <= MetaOf(codec, d, left).lastAccess
    {
      assert Kept(codec, d, listing, now, max, Meta(left));
      DroppedOrSurvives(items, max, left);
      LiveItemKeys(codec, d, listing, now, left);
      ServableIsLive(codec, d, left, now);
      LiveItemMembers(codec, d, listing, now, left);
      CutInOrder(items, max, x, Judge(codec, d, Meta(left), now).item);
    }
    var rest := CutForWant(items, max, x);
    var e := UsedSince(codec, d, x.access);
    forall i | 0 <= i < |rest|
      ensures Meta(rest[i].key) in e && Body(rest[i].key) in e
              && rest[i].size <= |e[Meta(rest[i].key)]| + |e[Body(rest[i].key)]|
    {
      assert rest[i] in rest;
      LiveItemComesFrom(codec, d, listing, now, rest[i]);
    }
    ItemsFitTheirFiles(rest, e);
  }

  lemma NotTempNotKept(codec: Codec, d: Disk, listing: seq<FileName>, now: nat, max: nat, d': Disk, key: string)
    requires CleanResult(codec, d, listing, now, max, d') && Meta(key) in d && Meta(key) !in d' && !IsTemp(Meta(key))
    ensures !HasKey(Survivors(LiveItems(codec, d, listing, now), max), key)
  {
    TempNameIsTemp(Meta(key));
    assert !Kept(codec, d, listing, now, max, Meta(key));
  }

  lemma StoredItemMeans(codec: Codec, d: Disk, key: string)
    requires Readable(codec, d, key)
    ensures var items := StoredItem(codec, d, Meta(key));
            |items| == 1 && items[0].key == key && items[0].access == MetaOf(codec, d, key).lastAccess
            && items[0].size <= |d[Meta(key)]| + if Body(key) in d then |d[Body(key)]| else 0
  {
  }

  lemma {:induction false} StoredItemComesFrom(codec: Codec, d: Disk, listing: seq<FileName>, x: Item)
    requires x in StoredItems(codec, d, listing)
    ensures Readable(codec, d, x.key) && StoredItem(codec, d, Meta(x.key)) == [x]
  {
    var n := |listing| - 1;
    if x in StoredItem(codec, d, listing[n]) {
      assert listing[n] == Meta(x.key);
    } else {
      StoredItemComesFrom(codec, d, listing[..n], x);
    }
  }

  /** So does the eviction of every commit. */
  lemma EvictionTakesLeastRecent(codec: Codec, d: Disk, listing: seq<FileName>, max: nat, d': Disk, gone: string)
    requires Lists(listing, d) && EvictResult(codec, d, listing, max, d') && Sum(StoredItems(codec, d, listing)) <= U64_MAX
    requires Readable(codec, d, gone) && Meta(gone) !in d'
    ensures forall left :: Meta(left) in d' && Readable(codec, d, left) ==>
              MetaOf(codec, d, gone).lastAccess <= MetaOf(codec, d, left).lastAccess
    ensures TotalBytes(UsedSince(codec, d, MetaOf(codec, d, gone).lastAccess)) > max
  {
    hide TotalBytes, StableSort, Drops, ScanTotal, Dropped, StoredItems, StoredItem, Sum;
    var items := StoredItems(codec, d, listing);
    StoredItemsDistinct(codec, d, listing);
    StoredItemAt(codec, d, listing, gone);
    StoredItemMeans(codec, d, gone);
    var x := StoredItem(codec, d, Meta(gone))[0];
    forall left | Meta(left) in d' && Readable(codec, d, left)
      ensures MetaOf(codec, d, gone).lastAccess <= MetaOf(codec, d, left).lastAccess
    {
      StoredItemAt(codec, d, listing, left);
      StoredItemMeans(codec, d, left);
      CutInOrder(items, max, x, StoredItem(codec, d, Meta(left))[0]);
    }
    var rest := CutForWant(items, max, x);
    var e := UsedSince(codec, d, x.access);
    forall i | 0 <= i < |rest|
      ensures Meta(rest[i].key) in e
              && rest[i].size <= |e[Meta(rest[i].key)]| + if Body(rest[i].key) in e then |e[Body(rest[i].key)]| else 0
    {
      assert rest[i] in rest;
      StoredItemComesFrom(codec, d, listing, rest[i]);
      StoredItemMeans(codec, d, rest[i].key);
    }
    ItemsFitTheirFiles(rest, e);
  }
}
