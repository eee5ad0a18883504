/** Least-recently-used eviction: the stable order, the cut, and its laws (src/cache.rs). */
module Lru {
  import opened Prelude

  datatype Item = Item(access: nat, key: string, size: nat)

  function Sum(xs: seq<Item>): nat {
    if xs == [] then 0 else xs[0].size + Sum(xs[1..])
  }

  /** The running `saturating_add` total of a scan. */
  function ScanTotal(xs: seq<Item>): nat {
    if xs == [] then 0 else SaturatingAdd(ScanTotal(xs[..|xs| - 1]), xs[|xs| - 1].size)
  }

  lemma {:induction false} SumAppend(a: seq<Item>, b: seq<Item>)
    ensures Sum(a + b) == Sum(a) + Sum(b)
  {
    if a == [] {
      assert a + b == b;
    } else {
      assert (a + b)[1..] == a[1..] + b;
      SumAppend(a[1..], b);
    }
  }

  /** The scan total is the true sum, clamped to 64 bits. */
  lemma {:induction false} ScanTotalIsClamped(xs: seq<Item>)
    ensures ScanTotal(xs) == Min(Sum(xs), U64_MAX)
  {
    if xs != [] {
      var n := |xs| - 1;
      ScanTotalIsClamped(xs[..n]);
      assert xs == xs[..n] + [xs[n]];
      SumAppend(xs[..n], [xs[n]]);
      assert Sum([xs[n]]) == xs[n].size;
    }
  }

  // ---------- The stable order ----------

  function Place(x: Item, s: seq<Item>): (r: seq<Item>)
    ensures r != []
  {
    if s == [] || x.access <= s[0].access then [x] + s else [s[0]] + Place(x, s[1..])
  }

  /** `sort_by_key(last_access)`. */
  function StableSort(xs: seq<Item>): seq<Item> {
    if xs == [] then [] else Place(xs[0], StableSort(xs[1..]))
  }

  ghost predicate Sorted(xs: seq<Item>) {
    forall i, j :: 0 <= i < j < |xs| ==> xs[i].access <= xs[j].access
  }

  function Filter(xs: seq<Item>, p: Item -> bool): seq<Item> {
    if xs == [] then [] else (if p(xs[0]) then [xs[0]] else []) + Filter(xs[1..], p)
  }

  lemma {:induction false} PlaceKeeps(x: Item, s: seq<Item>)
    ensures multiset(Place(x, s)) == multiset(s) + multiset{x}
  {
    if !(s == [] || x.access <= s[0].access) {
      PlaceKeeps(x, s[1..]);
      assert s == [s[0]] + s[1..];
    }
  }

  lemma {:induction false} PlaceSorted(x: Item, s: seq<Item>)
    requires Sorted(s)
    ensures Sorted(Place(x, s))
    ensures Place(x, s)[0].access == if s == [] then x.access else Min(x.access, s[0].access)
  {
    if !(s == [] || x.access <= s[0].access) {
      PlaceSorted(x, s[1..]);
      var rest := Place(x, s[1..]);
      assert s[0].access <= rest[0].access;
      assert Sorted(rest) && Sorted([s[0]] + rest);
    }
  }

  lemma {:induction false} StableSortSorted(xs: seq<Item>)
    ensures Sorted(StableSort(xs)) && multiset(StableSort(xs)) == multiset(xs)
  {
    if xs != [] {
      StableSortSorted(xs[1..]);
      PlaceSorted(xs[0], StableSort(xs[1..]));
      PlaceKeeps(xs[0], StableSort(xs[1..]));
      assert xs == [xs[0]] + xs[1..];
    }
  }

  lemma {:induction false} PlaceFiltered(x: Item, s: seq<Item>, p: Item -> bool)
    requires Sorted(s)
    ensures Filter(Place(x, s), p) == if p(x) then Place(x, Filter(s, p)) else Filter(s, p)
  {
    if s == [] || x.access <= s[0].access {
      assert ([x] + s)[1..] == s;
      FilterAccess(s, p, x.access);
      assert p(x) ==> Place(x, Filter(s, p)) == [x] + Filter(s, p);
    } else {
      PlaceFiltered(x, s[1..], p);
      assert Place(x, s)[1..] == Place(x, s[1..]);
      var rest, placed := Filter(s[1..], p), Filter(Place(x, s[1..]), p);
      assert ([s[0]] + rest)[1..] == rest && [] + rest == rest && [] + placed == placed;
    }
  }

  lemma {:induction false} FilterAccess(s: seq<Item>, p: Item -> bool, a: nat)
    requires forall i :: 0 <= i < |s| ==> a <= s[i].access
    ensures forall i :: 0 <= i < |Filter(s, p)| ==> a <= Filter(s, p)[i].access
  {
    if s != [] {
      FilterAccess(s[1..], p, a);
    }
  }

  /** Sorting commutes with selecting: in particular entries of equal age keep their scan order. */
  lemma {:induction false} SortFiltered(xs: seq<Item>, p: Item -> bool)
    ensures StableSort(Filter(xs, p)) == Filter(StableSort(xs), p)
  {
    if xs != [] {
      SortFiltered(xs[1..], p);
      StableSortSorted(xs[1..]);
      PlaceFiltered(xs[0], StableSort(xs[1..]), p);
      var rest := Filter(xs[1..], p);
      assert p(xs[0]) ==> ([xs[0]] + rest)[1..] == rest;
      assert [] + rest == rest;
    }
  }

  // ---------- The cut ----------

  /** How many entries the eviction loop removes from the front of the order. */
  function Drops(xs: seq<Item>, total: nat, max: nat): (k: nat)
    ensures k <= |xs|
  {
    if xs == [] || total <= max then 0 else 1 + Drops(xs[1..], SaturatingSub(total, xs[0].size), max)
  }

  /** `xs[k..]` is the longest suffix that fits. */
  ghost predicate LongestFit(xs: seq<Item>, max: nat, k: nat) {
    k <= |xs| && Sum(xs[k..]) <= max && forall j :: 0 <= j < k ==> Sum(xs[j..]) > max
  }

  lemma {:induction false} DropsIsLongestFit(xs: seq<Item>, max: nat)
    ensures LongestFit(xs, max, Drops(xs, Sum(xs), max))
  {
    assert xs[0..] == xs;
    if xs != [] && Sum(xs) > max {
      DropsIsLongestFit(xs[1..], max);
      LongestFitTail(xs, max, Drops(xs, Sum(xs), max));
    }
  }

  lemma LongestFitTail(xs: seq<Item>, max: nat, k: nat)
    requires xs != [] && Sum(xs) > max && k > 0 && LongestFit(xs[1..], max, k - 1)
    ensures LongestFit(xs, max, k)
  {
    hide Sum;
    assert xs[0..] == xs;
    assert xs[k..] == xs[1..][k - 1..];
    forall j | 0 < j < k ensures Sum(xs[j..]) > max {
      assert xs[j..] == xs[1..][j - 1..];
    }
  }

  lemma LongestFitUnique(xs: seq<Item>, max: nat, j: nat, k: nat)
    requires LongestFit(xs, max, j) && LongestFit(xs, max, k)
    ensures j == k
  {
  }

  lemma SmallerLimitCutsMore(xs: seq<Item>, m1: nat, m2: nat, k1: nat, k2: nat)
    requires m1 <= m2 && LongestFit(xs, m1, k1) && LongestFit(xs, m2, k2)
    ensures k2 <= k1
  {
  }

  /** What an eviction to `max` keeps of a scan, oldest first. */
  function Survivors(xs: seq<Item>, max: nat): seq<Item> {
    var s := StableSort(xs);
    s[Drops(s, ScanTotal(xs), max)..]
  }

  lemma {:induction false} PlaceSum(x: Item, s: seq<Item>)
    ensures Sum(Place(x, s)) == x.size + Sum(s)
  {
    if s == [] || x.access <= s[0].access {
      assert ([x] + s)[1..] == s;
    } else {
      PlaceSum(x, s[1..]);
      assert Place(x, s)[1..] == Place(x, s[1..]);
    }
  }

  lemma {:induction false} SortedSum(xs: seq<Item>)
    ensures Sum(StableSort(xs)) == Sum(xs)
  {
    if xs != [] {
      SortedSum(xs[1..]);
      PlaceSum(xs[0], StableSort(xs[1..]));
    }
  }

  /** When the sum fits in 64 bits, the survivors are exactly the longest suffix of the stable order that fits. */
  lemma SurvivorsExact(xs: seq<Item>, max: nat)
    requires Sum(xs) <= U64_MAX
    ensures var s := StableSort(xs); var k := Drops(s, ScanTotal(xs), max);
            Survivors(xs, max) == s[k..] && LongestFit(s, max, k)
  {
    SortedSum(xs);
    ScanTotalIsClamped(xs);
    DropsIsLongestFit(StableSort(xs), max);
  }

  /** Evicting to less keeps less. */
  lemma SurvivorsMonotone(xs: seq<Item>, m1: nat, m2: nat)
    requires Sum(xs) <= U64_MAX && m1 <= m2
    ensures exists d :: 0 <= d <= |Survivors(xs, m2)| && Survivors(xs, m1) == Survivors(xs, m2)[d..]
  {
    SurvivorsExact(xs, m1);
    SurvivorsExact(xs, m2);
    var s := StableSort(xs);
    var k1, k2 := Drops(s, ScanTotal(xs), m1), Drops(s, ScanTotal(xs), m2);
    SmallerLimitCutsMore(s, m1, m2, k1, k2);
    assert s[k1..] == s[k2..][k1 - k2..];
  }

  ghost predicate DistinctItems(xs: seq<Item>) {
    forall i, j :: 0 <= i < j < |xs| ==> xs[i].key != xs[j].key
  }

  lemma {:induction false} FilterAll(xs: seq<Item>, p: Item -> bool)
    ensures (forall i :: 0 <= i < |xs| ==> p(xs[i])) ==> Filter(xs, p) == xs
    ensures (forall i :: 0 <= i < |xs| ==> !p(xs[i])) ==> Filter(xs, p) == []
  {
    if xs != [] {
      FilterAll(xs[1..], p);
      assert xs == [xs[0]] + xs[1..];
    }
  }

  lemma {:induction false} FilterAppend(a: seq<Item>, b: seq<Item>, p: Item -> bool)
    ensures Filter(a + b, p) == Filter(a, p) + Filter(b, p)
  {
    if a == [] {
      assert a + b == b;
    } else {
      assert (a + b)[1..] == a[1..] + b;
      FilterAppend(a[1..], b, p);
      var u, v := Filter(a[1..], p), Filter(b, p);
      assert [a[0]] + (u + v) == [a[0]] + u + v && [] + (u + v) == [] + u + v;
    }
  }

  lemma {:induction false} FilterSum(xs: seq<Item>, p: Item -> bool)
    ensures Sum(Filter(xs, p)) <= Sum(xs)
  {
    if xs != [] {
      FilterSum(xs[1..], p);
      var rest := Filter(xs[1..], p);
      assert ([xs[0]] + rest)[1..] == rest && [] + rest == rest;
    }
  }

  lemma DistinctAfterSort(xs: seq<Item>)
    requires DistinctItems(xs)
    ensures DistinctItems(StableSort(xs))
  {
    var s := StableSort(xs);
    StableSortSorted(xs);
    forall i, j | 0 <= i < j < |s| ensures s[i].key != s[j].key {
      if s[i].key == s[j].key {
        assert s[i] in multiset(xs) && s[j] in multiset(xs);
        assert s[i] == s[j];
        TwiceInSeq(s, i, j);
        OnceWhenDistinct(xs, s[i]);
        assert false;
      }
    }
  }

  lemma TwiceInSeq(s: seq<Item>, i: nat, j: nat)
    requires i < j < |s| && s[i] == s[j]
    ensures multiset(s)[s[i]] >= 2
  {
    assert s == s[..i] + [s[i]] + s[i + 1..j] + [s[j]] + s[j + 1..];
  }

  lemma {:induction false} OnceWhenDistinct(xs: seq<Item>, x: Item)
    requires DistinctItems(xs)
    ensures multiset(xs)[x] <= 1
  {
    if xs != [] {
      OnceWhenDistinct(xs[1..], x);
      assert xs == [xs[0]] + xs[1..];
      if x == xs[0] {
        assert x !in xs[1..];
      }
    }
  }

  /** The entries kept by the first eviction, in scan order, sort to exactly its survivors. */
  lemma SurvivorsRescanned(xs: seq<Item>, max: nat)
    requires DistinctItems(xs)
    ensures StableSort(Filter(xs, x => x in Survivors(xs, max))) == Survivors(xs, max)
  {
    var s, p := StableSort(xs), x => x in Survivors(xs, max);
    var k := Drops(s, ScanTotal(xs), max);
    DistinctAfterSort(xs);
    SortFiltered(xs, p);
    SelectSuffix(s, k, p);
  }

  lemma NotInSuffix(s: seq<Item>, k: nat, i: nat)
    requires i < k <= |s| && DistinctItems(s)
    ensures s[i] !in s[k..] && s[..k][i] == s[i]
  {
    assert forall j :: 0 <= j < |s[k..]| ==> s[k..][j] == s[k + j];
  }

  lemma SelectSuffix(s: seq<Item>, k: nat, p: Item -> bool)
    requires k <= |s| && DistinctItems(s) && forall i :: 0 <= i < |s| ==> (p(s[i]) <==> s[i] in s[k..])
    ensures Filter(s, p) == s[k..]
  {
    hide Filter, Sum;
    assert s == s[..k] + s[k..];
    FilterAppend(s[..k], s[k..], p);
    assert forall i :: 0 <= i < k ==> !p(s[..k][i]) by {
      forall i | 0 <= i < k ensures !p(s[..k][i]) {
        NotInSuffix(s, k, i);
      }
    }
    FilterAll(s[..k], p);
    forall i | 0 <= i < |s[k..]| ensures p(s[k..][i]) {
      assert s[k..][i] == s[k + i];
    }
    FilterAll(s[k..], p);
  }

  /** Evicting to `m2` and then, after a rescan in the same order, to `m1` is evicting to `m1` at once. */
  lemma EvictTwiceIsEvictOnce(xs: seq<Item>, m1: nat, m2: nat)
    requires Sum(xs) <= U64_MAX && m1 <= m2 && DistinctItems(xs)
    ensures Survivors(Filter(xs, x => x in Survivors(xs, m2)), m1) == Survivors(xs, m1)
  {
    var s := StableSort(xs);
    var kept := Filter(xs, x => x in Survivors(xs, m2));
    var k1, k2 := Drops(s, ScanTotal(xs), m1), Drops(s, ScanTotal(xs), m2);
    SurvivorsExact(xs, m1);
    SurvivorsExact(xs, m2);
    SmallerLimitCutsMore(s, m1, m2, k1, k2);
    SurvivorsRescanned(xs, m2);
    FilterSum(xs, x => x in Survivors(xs, m2));
    SurvivorsExact(kept, m1);
    SuffixFit(s, m1, k2, k1);
    LongestFitUnique(s[k2..], m1, Drops(StableSort(kept), ScanTotal(kept), m1), k1 - k2);
    assert s[k1..] == s[k2..][k1 - k2..];
  }

  lemma SuffixFit(s: seq<Item>, max: nat, d: nat, k: nat)
    requires LongestFit(s, max, k) && d <= k
    ensures LongestFit(s[d..], max, k - d)
  {
    assert s[d..][k - d..] == s[k..];
    forall j | 0 <= j < k - d ensures Sum(s[d..][j..]) > max {
      assert s[d..][j..] == s[d + j..];
    }
  }

  lemma {:induction false} MemberAtMostSum(xs: seq<Item>, i: nat)
    requires i < |xs|
    ensures xs[i].size <= Sum(xs)
  {
    if i > 0 {
      MemberAtMostSum(xs[1..], i - 1);
    }
  }

  /** An entry larger than the limit never survives. */
  lemma OversizedGoes(xs: seq<Item>, max: nat, x: Item)
    requires Sum(xs) <= U64_MAX && x.size > max
    ensures x !in Survivors(xs, max)
  {
    SurvivorsExact(xs, max);
    var r := Survivors(xs, max);
    if x in r {
      var i :| 0 <= i < |r| && r[i] == x;
      MemberAtMostSum(r, i);
      assert false;
    }
  }

  /** An entry larger than the limit takes every older entry with it: what survives is at least as recent. */
  lemma OversizedTakesOlder(xs: seq<Item>, max: nat, x: Item)
    requires Sum(xs) <= U64_MAX && x in xs && x.size > max
    ensures forall y :: y in Survivors(xs, max) ==> x.access <= y.access
  {
    SurvivorsExact(xs, max);
    StableSortSorted(xs);
    hide StableSort, Drops, ScanTotal, Sum;
    var s := StableSort(xs);
    var k := Drops(s, ScanTotal(xs), max);
    assert x in multiset(s);
    var i :| 0 <= i < |s| && s[i] == x;
    if k <= i {
      MemberAtMostSum(s[k..], i - k);
      assert false;
    }
    LaterIsNewer(s, i, k);
  }

  lemma LaterIsNewer(s: seq<Item>, i: nat, k: nat)
    requires Sorted(s) && i < k <= |s|
    ensures forall y :: y in s[k..] ==> s[i].access <= y.access
  {
    forall y | y in s[k..] ensures s[i].access <= y.access {
      var j :| 0 <= j < |s[k..]| && s[k..][j] == y;
      assert s[k + j] == y;
    }
  }

  // ---------- Scans in different orders ----------

  /** No two entries were last used at the same time. */
  ghost predicate DistinctTimes(xs: seq<Item>) {
    forall x, y :: x in xs && y in xs && x.access == y.access ==> x == y
  }

  ghost predicate SameItems(xs: seq<Item>, ys: seq<Item>) {
    forall x :: x in xs <==> x in ys
  }

  ghost predicate StrictlySorted(xs: seq<Item>) {
    forall i, j :: 0 <= i < j < |xs| ==> xs[i].access < xs[j].access
  }

  lemma SortsStrictly(xs: seq<Item>)
    requires DistinctItems(xs) && DistinctTimes(xs)
    ensures StrictlySorted(StableSort(xs)) && SameItems(StableSort(xs), xs)
  {
    StableSortSorted(xs);
    DistinctAfterSort(xs);
    var s := StableSort(xs);
    forall x ensures x in s <==> x in xs {
      assert x in s <==> x in multiset(s);
    }
    hide StableSort;
    forall i, j | 0 <= i < j < |s| ensures s[i].access < s[j].access {
      assert s[i] in s && s[j] in s;
    }
  }

  lemma {:induction false} StrictOrderIsUnique(a: seq<Item>, b: seq<Item>)
    requires StrictlySorted(a) && StrictlySorted(b) && SameItems(a, b)
    ensures a == b
  {
    assert a != [] ==> a[0] in b;
    assert b != [] ==> b[0] in a;
    if a != [] {
      assert a[0] == b[0];
      assert a == [a[0]] + a[1..] && b == [b[0]] + b[1..];
      forall x ensures x in a[1..] <==> x in b[1..] {
        assert x in a[1..] <==> x in a && x != a[0];
        assert x in b[1..] <==> x in b && x != b[0];
      }
      StrictOrderIsUnique(a[1..], b[1..]);
    }
  }

  /** With distinct access times, the outcome of an eviction does not depend on the order of its scan. */
  lemma ScanOrderIsIrrelevant(xs: seq<Item>, ys: seq<Item>, max: nat)
    requires DistinctItems(xs) && DistinctItems(ys) && DistinctTimes(xs) && SameItems(xs, ys)
    ensures StableSort(xs) == StableSort(ys) && ScanTotal(xs) == ScanTotal(ys) && Sum(xs) == Sum(ys)
    ensures Survivors(xs, max) == Survivors(ys, max)
  {
    SortsStrictly(xs);
    SortsStrictly(ys);
    StrictOrderIsUnique(StableSort(xs), StableSort(ys));
    SortedSum(xs);
    SortedSum(ys);
    ScanTotalIsClamped(xs);
    ScanTotalIsClamped(ys);
  }

  lemma {:induction false} FilterMembers(xs: seq<Item>, p: Item -> bool)
    ensures forall x :: x in Filter(xs, p) <==> x in xs && p(x)
    ensures DistinctItems(xs) ==> DistinctItems(Filter(xs, p))
  {
    if xs != [] {
      FilterMembers(xs[1..], p);
      assert xs == [xs[0]] + xs[1..];
      var rest := Filter(xs[1..], p);
      if DistinctItems(xs) {
        forall i | 0 <= i < |rest| ensures rest[i].key != xs[0].key {
          assert rest[i] in xs[1..];
        }
      }
    }
  }

  lemma {:induction false} EqualTimesStay(xs: seq<Item>, a: nat)
    requires forall x :: x in xs ==> x.access == a
    ensures StableSort(xs) == xs
  {
    if xs != [] {
      EqualTimesStay(xs[1..], a);
      assert xs == [xs[0]] + xs[1..];
      assert xs[1..] != [] ==> xs[1..][0] in xs;
    }
  }

  /** Entries of equal age keep the order of the scan. */
  lemma TiesKeepScanOrder(xs: seq<Item>, a: nat)
    ensures Filter(StableSort(xs), (x: Item) => x.access == a) == Filter(xs, (x: Item) => x.access == a)
  {
    var p := (x: Item) => x.access == a;
    SortFiltered(xs, p);
    FilterMembers(xs, p);
    EqualTimesStay(Filter(xs, p), a);
  }
}
