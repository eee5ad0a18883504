/** What whole runs of charges guarantee: tiers and buckets do not interfere, the
    counter is exact, and any sliding interval is bounded. */
module LimitTheory {
  import opened Prelude
  import opened Limit

  // ---------- One tier, one bucket, alone ----------

  function Step(o: Option<Counter>, w: Window, e: TierCharge): Option<Counter> {
    Some(Charged(Current(o, e), w, e))
  }

  function Run(o: Option<Counter>, w: Window, es: seq<TierCharge>): Option<Counter>
    decreases |es|
  {
    if es == [] then o else Run(Step(o, w, es[0]), w, es[1..])
  }

  /** The bytes the tier accepted at the charge `e`. */
  function Accepted(o: Option<Counter>, w: Window, e: TierCharge): nat {
    if Fits(Current(o, e), w, e) then e.n else 0
  }

  /** The bytes accepted at clock readings in `[from, to)` during the run `es`. */
  function AcceptedIn(o: Option<Counter>, w: Window, es: seq<TierCharge>, from: nat, to: nat): nat
    decreases |es|
  {
    if es == [] then 0 else
      (if from <= es[0].now < to then Accepted(o, w, es[0]) else 0)
      + AcceptedIn(Step(o, w, es[0]), w, es[1..], from, to)
  }

  ghost predicate Ordered(es: seq<TierCharge>) {
    && (forall i :: 0 <= i < |es| ==> es[i].born <= es[i].now)
    && (forall i, j :: 0 <= i < j < |es| ==> es[i].now <= es[j].born)
  }

  ghost predicate Within(o: Option<Counter>, w: Window) {
    o.Some? ==> o.value.used <= w.max
  }

  // ---------- Decomposition of the whole limiter ----------

  ghost predicate Covered(cs: seq<Charge>, tiers: nat) {
    forall j :: 0 <= j < |cs| ==> cs[j].Covers(tiers)
  }

  ghost function RunTables(ts: Tables, ws: seq<Window>, cs: seq<Charge>): (r: Tables)
    requires |ts| == |ws| && Covered(cs, |ws|)
    ensures |r| == |ws|
    decreases |cs|
  {
    if cs == [] then ts else RunTables(ChargeTables(ts, ws, cs[0]), ws, cs[1..])
  }

  /** What tier `i` sees of bucket `k` in a run. */
  ghost function Projection(cs: seq<Charge>, ws: seq<Window>, i: nat, k: string): seq<TierCharge>
    requires Covered(cs, |ws|) && i < |ws|
    decreases |cs|
  {
    if cs == [] then [] else
      (if cs[0].bucket == k then [cs[0].At(i)] else []) + Projection(cs[1..], ws, i, k)
  }

  lemma {:induction false} TiersAndBucketsAreIndependent(ts: Tables, ws: seq<Window>, cs: seq<Charge>, i: nat, k: string)
    requires |ts| == |ws| && i < |ws| && Covered(cs, |ws|)
    ensures Lookup(RunTables(ts, ws, cs)[i], k) == Run(Lookup(ts[i], k), ws[i], Projection(cs, ws, i, k))
    decreases |cs|
  {
    if cs != [] {
      var next := ChargeTables(ts, ws, cs[0]);
      TiersAndBucketsAreIndependent(next, ws, cs[1..], i, k);
      var rest := Projection(cs[1..], ws, i, k);
      if cs[0].bucket == k {
        assert ([cs[0].At(i)] + rest)[1..] == rest;
        assert Lookup(next[i], k) == Step(Lookup(ts[i], k), ws[i], cs[0].At(i));
      } else {
        assert Projection(cs, ws, i, k) == rest;
        assert Lookup(next[i], k) == Lookup(ts[i], k);
      }
    }
  }

  // ---------- The counter is exact and never over the cap ----------

  lemma {:induction false} NeverOverCap(o: Option<Counter>, w: Window, es: seq<TierCharge>)
    requires Within(o, w)
    ensures Within(Run(o, w, es), w)
    decreases |es|
  {
    if es != [] {
      NeverOverCap(Step(o, w, es[0]), w, es[1..]);
    }
  }

  /** From a counter whose window started no later than the run: the final count is what the
      current window accepted, plus the initial count if the window never rolled over. */
  lemma {:induction false} CountFrom(c: Counter, w: Window, es: seq<TierCharge>, to: nat)
    requires w.secs > 0 && w.max < U64_MAX && c.used <= w.max && Ordered(es)
    requires forall i :: 0 <= i < |es| ==> c.windowStart <= es[i].now < to
    ensures var r := Run(Some(c), w, es);
            && r.Some? && (r.value.windowStart == c.windowStart || r.value.windowStart >= c.windowStart + w.Period())
            && r.value.used == AcceptedIn(Some(c), w, es, r.value.windowStart, to)
                               + (if r.value.windowStart == c.windowStart then c.used else 0)
    decreases |es|
  {
    if es != [] {
      CountFrom(Charged(c, w, es[0]), w, es[1..], to);
    }
  }

  lemma UsedIsExact(w: Window, es: seq<TierCharge>, to: nat)
    requires w.secs > 0 && w.max < U64_MAX && Ordered(es) && es != []
    requires forall e :: e in es ==> e.now < to
    ensures var r := Run(None, w, es);
            r.Some? && r.value.used == AcceptedIn(None, w, es, r.value.windowStart, to) <= w.max
  {
    var c := Counter(0, es[0].born);
    CountFrom(c, w, es, to);
    assert Run(None, w, es) == Run(Some(c), w, es);
    assert forall x :: AcceptedIn(None, w, es, x, to) == AcceptedIn(Some(c), w, es, x, to);
    NeverOverCap(None, w, es);
  }

  // ---------- Sliding intervals ----------

  /** The ceiling of `x / p`. */
  function CeilDiv(x: nat, p: nat): nat
    requires p > 0
  {
    if x == 0 then 0 else 1 + CeilDiv(SaturatingSub(x, p), p)
  }

  lemma {:induction false} CeilDivIsTheCeiling(x: nat, p: nat)
    requires p > 0
    ensures x <= CeilDiv(x, p) * p < x + p
  {
    if x > p {
      CeilDivIsTheCeiling(x - p, p);
      assert CeilDiv(x, p) * p == CeilDiv(x - p, p) * p + p;
    }
  }

  /** How many more windows can open in `[a, b)` when the current one started at `start`. */
  function Openings(start: nat, p: nat, a: nat, b: nat): nat
    requires p > 0
  {
    var first := Max(a, start + p);
    if first < b then CeilDiv(b - first, p) else 0
  }

  lemma {:induction false} CeilDivMonotone(x: nat, y: nat, p: nat)
    requires p > 0 && x <= y
    ensures CeilDiv(x, p) <= CeilDiv(y, p)
  {
    if x > 0 {
      CeilDivMonotone(SaturatingSub(x, p), SaturatingSub(y, p), p);
    }
  }

  /** Opening a window at `t` uses up one of the openings. */
  lemma OpeningUsesOne(start: nat, p: nat, a: nat, b: nat, t: nat)
    requires p > 0 && start + p <= t && a <= t < b
    ensures Openings(t, p, a, b) + 1 <= Openings(start, p, a, b)
  {
    var first := Max(a, start + p);
    CeilDivMonotone(b - t, b - first, p);
    assert CeilDiv(b - t, p) == 1 + CeilDiv(SaturatingSub(b - t, p), p);
  }

  lemma OpeningsAreFew(start: nat, p: nat, a: nat, len: nat)
    requires p > 0
    ensures Openings(start, p, a, a + len) <= CeilDiv(len, p)
  {
    var first := Max(a, start + p);
    if first < a + len {
      CeilDivMonotone(a + len - first, len, p);
    }
  }

  /** Inside the interval: what is left in the current window plus one full window per opening. */
  lemma {:induction false} BoundInside(c: Counter, w: Window, es: seq<TierCharge>, a: nat, b: nat)
    requires w.secs > 0 && w.max < U64_MAX && c.used <= w.max && Ordered(es)
    requires forall i :: 0 <= i < |es| ==> a <= es[i].now
    ensures AcceptedIn(Some(c), w, es, a, b) <= w.max - c.used + w.max * Openings(c.windowStart, w.Period(), a, b)
    decreases |es|
  {
    if es != [] {
      var e := es[0];
      BoundInside(Charged(c, w, e), w, es[1..], a, b);
      if e.now < b {
        if SaturatingSub(e.now, c.windowStart) >= w.Period() {
          OpeningUsesOne(c.windowStart, w.Period(), a, b, e.now);
          ScaledStep(w.max, Openings(e.now, w.Period(), a, b), Openings(c.windowStart, w.Period(), a, b));
        }
      } else {
        NothingAfter(Some(c), w, es, a, b);
      }
    }
  }

  lemma {:induction false} ScaledStep(m: nat, x: nat, y: nat)
    requires x + 1 <= y
    ensures m + m * x <= m * y
    decreases y
  {
    if x + 1 == y {
      assert m * y == m * x + m;
    } else {
      ScaledStep(m, x, y - 1);
      assert m * y == m * (y - 1) + m;
    }
  }

  lemma {:induction false} NothingAfter(o: Option<Counter>, w: Window, es: seq<TierCharge>, a: nat, b: nat)
    requires Ordered(es) && (es != [] ==> b <= es[0].now)
    ensures AcceptedIn(o, w, es, a, b) == 0
    decreases |es|
  {
    if es != [] {
      NothingAfter(Step(o, w, es[0]), w, es[1..], a, b);
    }
  }

  /** A run that lies wholly after `a`, from an existing counter. */
  lemma BoundFrom(c: Counter, w: Window, es: seq<TierCharge>, a: nat, len: nat)
    requires w.secs > 0 && w.max < U64_MAX && c.used <= w.max && Ordered(es)
    requires forall i :: 0 <= i < |es| ==> a <= es[i].now
    ensures AcceptedIn(Some(c), w, es, a, a + len) <= w.max * (CeilDiv(len, w.Period()) + 1)
  {
    BoundInside(c, w, es, a, a + len);
    OpeningsAreFew(c.windowStart, w.Period(), a, len);
    ScaledStep(w.max, Openings(c.windowStart, w.Period(), a, a + len), CeilDiv(len, w.Period()) + 1);
  }

  /** In every half-open interval of length `len`, a tier accepts at most
      `ceil(len / period) + 1` times its cap, from whatever state it starts in. */
  lemma {:induction false} SlidingBound(o: Option<Counter>, w: Window, es: seq<TierCharge>, a: nat, len: nat)
    requires w.secs > 0 && w.max < U64_MAX && Within(o, w) && Ordered(es)
    ensures AcceptedIn(o, w, es, a, a + len) <= w.max * (CeilDiv(len, w.Period()) + 1)
    decreases |es|
  {
    if es == [] {
      ScaledStep(w.max, 0, CeilDiv(len, w.Period()) + 1);
    } else if es[0].now < a {
      SlidingBound(Step(o, w, es[0]), w, es[1..], a, len);
    } else {
      BoundFrom(Current(o, es[0]), w, es, a, len);
    }
  }

  /** Calls one after the other on a clock that does not go back, tier by tier. */
  ghost predicate InClockOrder(cs: seq<Charge>, tiers: nat)
    requires Covered(cs, tiers)
  {
    && (forall j, i :: 0 <= j < |cs| && 0 <= i < tiers ==> cs[j].born[i] <= cs[j].now[i])
    && (forall j, k, i :: 0 <= j < k < |cs| && 0 <= i < tiers ==> cs[j].now[i] <= cs[k].born[i])
  }

  lemma {:induction false} ProjectionComesFrom(cs: seq<Charge>, ws: seq<Window>, i: nat, k: string, e: TierCharge)
    requires Covered(cs, |ws|) && i < |ws| && e in Projection(cs, ws, i, k)
    ensures exists j :: 0 <= j < |cs| && cs[j].At(i) == e
    decreases |cs|
  {
    var rest := Projection(cs[1..], ws, i, k);
    if e in rest {
      ProjectionComesFrom(cs[1..], ws, i, k, e);
      var j :| 0 <= j < |cs[1..]| && cs[1..][j].At(i) == e;
      assert cs[j + 1].At(i) == e;
    } else {
      assert cs[0].At(i) == e;
    }
  }

  lemma {:induction false} ProjectionOrdered(cs: seq<Charge>, ws: seq<Window>, i: nat, k: string)
    requires Covered(cs, |ws|) && i < |ws| && InClockOrder(cs, |ws|)
    ensures Ordered(Projection(cs, ws, i, k))
    decreases |cs|
  {
    if cs != [] {
      ProjectionOrdered(cs[1..], ws, i, k);
      var rest := Projection(cs[1..], ws, i, k);
      forall m | 0 <= m < |rest| ensures cs[0].At(i).now <= rest[m].born {
        ProjectionComesFrom(cs[1..], ws, i, k, rest[m]);
        var j :| 0 <= j < |cs[1..]| && cs[1..][j].At(i) == rest[m];
        assert cs[1..][j] == cs[j + 1];
      }
    }
  }

  /** The same bound for any tier and bucket of the whole limiter. */
  lemma LimiterSlidingBound(ts: Tables, ws: seq<Window>, cs: seq<Charge>, i: nat, k: string, a: nat, len: nat)
    requires |ts| == |ws| && i < |ws| && Covered(cs, |ws|)
    requires ws[i].secs > 0 && ws[i].max < U64_MAX && Within(Lookup(ts[i], k), ws[i])
    requires InClockOrder(cs, |ws|)
    ensures AcceptedIn(Lookup(ts[i], k), ws[i], Projection(cs, ws, i, k), a, a + len)
            <= ws[i].max * (CeilDiv(len, ws[i].Period()) + 1)
    ensures len == ws[i].Period() ==>
              AcceptedIn(Lookup(ts[i], k), ws[i], Projection(cs, ws, i, k), a, a + len) <= 2 * ws[i].max
  {
    ProjectionOrdered(cs, ws, i, k);
    SlidingBound(Lookup(ts[i], k), ws[i], Projection(cs, ws, i, k), a, len);
    if len == ws[i].Period() {
      assert CeilDiv(len, len) == 1 + CeilDiv(0, len) == 1;
    }
  }

  /** The factor two is reached by every window: a burst just before and one just after the roll-over. */
  function Burst(w: Window): seq<TierCharge>
    requires w.secs > 0
  {
    var p := w.Period();
    [TierCharge(0, 0, 0), TierCharge(p - 1, p - 1, w.max), TierCharge(p, p, w.max)]
  }

  lemma SlidingBoundIsReached(w: Window)
    requires w.secs > 0 && w.max < U64_MAX
    ensures Ordered(Burst(w))
    ensures AcceptedIn(None, w, Burst(w), w.Period() - 1, w.Period() - 1 + w.Period()) == 2 * w.max
  {
    var p := w.Period();
    var es := Burst(w);
    var c1 := Step(None, w, es[0]);
    assert c1 == Some(Counter(0, 0));
    var c2 := Step(c1, w, es[1]);
    assert c2 == Some(Counter(w.max, 0));
    var c3 := Step(c2, w, es[2]);
    assert AcceptedIn(c3, w, [], p - 1, p - 1 + p) == 0;
    assert es[1..][1..] == [es[2]] && [es[2]][1..] == [];
    assert AcceptedIn(c2, w, [es[2]], p - 1, p - 1 + p) == w.max;
    assert AcceptedIn(c1, w, es[1..], p - 1, p - 1 + p) == 2 * w.max;
  }

  // ---------- Which charges are accepted, from the charges alone ----------

  /** When the window that is open at the last charge started: a charge opens a new window when the one before it has
      lasted its seconds on the nanosecond clock. */
  ghost function StartAt(es: seq<TierCharge>, w: Window): nat
    requires es != []
    decreases |es|
  {
    var n := |es| - 1;
    var before := if n == 0 then es[0].born else StartAt(es[..n], w);
    if es[n].now >= before + w.secs * 1_000_000_000 then es[n].now else before
  }

  /** The bytes of the charges accepted at readings from `from` on. */
  ghost function AcceptedSince(es: seq<TierCharge>, w: Window, from: nat): nat
    decreases |es|, 1
  {
    if es == [] then 0
    else AcceptedSince(es[..|es| - 1], w, from)
         + if es[|es| - 1].now >= from && LastAccepted(es, w) then es[|es| - 1].n else 0
  }

  /** The last charge is accepted when it fits beside what its window has accepted before. */
  ghost predicate LastAccepted(es: seq<TierCharge>, w: Window)
    requires es != []
    decreases |es|, 0
  {
    AcceptedSince(es[..|es| - 1], w, StartAt(es, w)) + es[|es| - 1].n <= w.max
  }

  lemma {:induction false} RunSnoc(o: Option<Counter>, w: Window, es: seq<TierCharge>, e: TierCharge)
    ensures Run(o, w, es + [e]) == Step(Run(o, w, es), w, e)
    decreases |es|
  {
    if es == [] {
      assert es + [e] == [e] && [e][1..] == [];
    } else {
      assert (es + [e])[1..] == es[1..] + [e];
      RunSnoc(Step(o, w, es[0]), w, es[1..], e);
    }
  }

  /** The open window has not lasted its time at the last charge, and does not start later. */
  lemma {:induction false} StartIsRecent(es: seq<TierCharge>, w: Window)
    requires es != [] && w.secs > 0 && Ordered(es)
    ensures StartAt(es, w) <= es[|es| - 1].now < StartAt(es, w) + w.secs * 1_000_000_000
    decreases |es|
  {
    var n := |es| - 1;
    if n > 0 {
      StartIsRecent(es[..n], w);
    }
  }

  lemma {:induction false} NothingSince(es: seq<TierCharge>, w: Window, from: nat)
    requires forall i :: 0 <= i < |es| ==> es[i].now < from
    ensures AcceptedSince(es, w, from) == 0
    decreases |es|
  {
    if es != [] {
      NothingSince(es[..|es| - 1], w, from);
    }
  }

  lemma StartSnoc(front: seq<TierCharge>, e: TierCharge, w: Window)
    ensures StartAt(front + [e], w) ==
            var before := if front == [] then e.born else StartAt(front, w);
            if e.now >= before + w.secs * 1_000_000_000 then e.now else before
  {
    assert (front + [e])[..|front|] == front;
  }

  lemma SinceSnoc(front: seq<TierCharge>, e: TierCharge, w: Window, from: nat)
    ensures AcceptedSince(front + [e], w, from) ==
            AcceptedSince(front, w, from) + if e.now >= from && LastAccepted(front + [e], w) then e.n else 0
    ensures LastAccepted(front + [e], w) <==> AcceptedSince(front, w, StartAt(front + [e], w)) + e.n <= w.max
  {
    assert (front + [e])[..|front|] == front;
  }

  /** One charge on a counter that holds the account. */
  lemma ChargeOnAccount(w: Window, front: seq<TierCharge>, e: TierCharge, c: Counter)
    requires w.secs > 0 && w.max < U64_MAX && Ordered(front + [e])
    requires c == if front == [] then Counter(0, e.born) else Counter(AcceptedSince(front, w, StartAt(front, w)), StartAt(front, w))
    ensures Fits(c, w, e) <==> LastAccepted(front + [e], w)
    ensures Charged(c, w, e) == Counter(AcceptedSince(front + [e], w, StartAt(front + [e], w)), StartAt(front + [e], w))
  {
    var es := front + [e];
    assert es[|front|] == e;
    OrderedFront(front, e);
    StartSnoc(front, e, w);
    SinceSnoc(front, e, w, StartAt(es, w));
    if front != [] {
      StartIsRecent(front, w);
      if e.now >= StartAt(front, w) + w.secs * 1_000_000_000 {
        AllBefore(front, e.now);
        NothingSince(front, w, e.now);
      }
    }
    hide AcceptedSince, StartAt, LastAccepted, Ordered;
  }

  lemma OrderedFront(front: seq<TierCharge>, e: TierCharge)
    requires Ordered(front + [e])
    ensures Ordered(front) && e.born <= e.now && (front != [] ==> front[|front| - 1].now <= e.born)
  {
    var es := front + [e];
    assert forall i :: 0 <= i < |front| ==> es[i] == front[i];
    assert es[|front|] == e;
  }

  /** The counter of the code is exactly this account. */
  lemma {:induction false} CounterIsTheAccount(w: Window, es: seq<TierCharge>)
    requires es != [] && w.secs > 0 && w.max < U64_MAX && Ordered(es)
    ensures Run(None, w, es) == Some(Counter(AcceptedSince(es, w, StartAt(es, w)), StartAt(es, w)))
    ensures var n := |es| - 1; Fits(Current(Run(None, w, es[..n]), es[n]), w, es[n]) <==> LastAccepted(es, w)
    decreases |es|
  {
    hide AcceptedSince, StartAt, LastAccepted, Fits, Charged, Ordered;
    var n := |es| - 1;
    var front, e := es[..n], es[n];
    assert es == front + [e];
    OrderedFront(front, e);
    RunSnoc(None, w, front, e);
    if n > 0 {
      CounterIsTheAccount(w, front);
    }
    ChargeOnAccount(w, front, e, Current(Run(None, w, front), e));
  }

  lemma AllBefore(es: seq<TierCharge>, now: nat)
    requires Ordered(es) && (es != [] ==> es[|es| - 1].now < now)
    ensures forall i :: 0 <= i < |es| ==> es[i].now < now
  {
    var n := |es| - 1;
    assert forall i :: 0 <= i < n ==> es[i].now <= es[n].born <= es[n].now;
  }

  /** For every ordered run of charges from an empty table: the next charge is accepted if and only if its bytes and
      those its window has accepted so far are together within the cap. */
  lemma {:induction false} AcceptedExactly(w: Window, es: seq<TierCharge>, e: TierCharge)
    requires w.secs > 0 && w.max < U64_MAX && Ordered(es + [e])
    ensures Fits(Current(Run(None, w, es), e), w, e) <==> LastAccepted(es + [e], w)
  {
    CounterIsTheAccount(w, es + [e]);
    assert (es + [e])[..|es|] == es;
  }

  lemma {:induction false} ProjectionSnoc(cs: seq<Charge>, c: Charge, ws: seq<Window>, i: nat)
    requires Covered(cs + [c], |ws|) && i < |ws|
    ensures Covered(cs, |ws|) && c.Covers(|ws|)
    ensures Projection(cs + [c], ws, i, c.bucket) == Projection(cs, ws, i, c.bucket) + [c.At(i)]
    decreases |cs|
  {
    assert (cs + [c])[|cs|] == c;
    forall j | 0 <= j < |cs| ensures cs[j].Covers(|ws|) {
      assert (cs + [c])[j] == cs[j];
    }
    if cs == [] {
      assert cs + [c] == [c] && [c][1..] == [];
      assert Projection([c], ws, i, c.bucket) == [c.At(i)] + Projection([], ws, i, c.bucket);
    } else {
      assert (cs + [c])[1..] == cs[1..] + [c];
      ProjectionSnoc(cs[1..], c, ws, i);
    }
  }

  /** For the whole limiter, from the empty tables it is built with and for every sequence of calls in clock order: the
      next call fails at a tier exactly when that tier's window cannot take its bytes beside those it has accepted for
      the same bucket. */
  lemma {:induction false} LimiterAcceptsExactly(ws: seq<Window>, cs: seq<Charge>, c: Charge, i: nat)
    requires i < |ws| && ws[i].secs > 0 && ws[i].max < U64_MAX
    requires Covered(cs + [c], |ws|) && InClockOrder(cs + [c], |ws|)
    ensures Covered(cs, |ws|) && c.Covers(|ws|)
    ensures Projection(cs + [c], ws, i, c.bucket) != []
    ensures var empty := seq(|ws|, _ => map[]);
            TierFails(RunTables(empty, ws, cs), ws, c, i) <==> !LastAccepted(Projection(cs + [c], ws, i, c.bucket), ws[i])
  {
    hide Fits, LastAccepted;
    var empty := seq(|ws|, _ => map[]);
    ProjectionSnoc(cs, c, ws, i);
    ProjectionOrdered(cs + [c], ws, i, c.bucket);
    TiersAndBucketsAreIndependent(empty, ws, cs, i, c.bucket);
    AcceptedExactly(ws[i], Projection(cs, ws, i, c.bucket), c.At(i));
  }
}
