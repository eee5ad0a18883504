/** Fixed-window byte accounting: one counter per tier and bucket (src/limit.rs). */
module Limit {
  import opened Prelude

  const NANOS_PER_SECOND: nat := 1_000_000_000

  datatype Window = Window(secs: nat, max: nat) {
    /** The window length on the nanosecond clock. */
    function Period(): nat {
      secs * NANOS_PER_SECOND
    }
  }

  datatype BandwidthError =
    | ResultExceeded(used: nat, max: nat)
    | ConnectionExceeded(max: nat, secs: nat)

  /** The value of one window counter. */
  datatype Counter = Counter(used: nat, windowStart: nat)

  /** One charge as a tier sees it: the clock reading that would create a missing
      counter, the reading taken by the charge itself, and the bytes. */
  datatype TierCharge = TierCharge(born: nat, now: nat, n: nat)

  function Rolled(c: Counter, w: Window, now: nat): Counter {
    if SaturatingSub(now, c.windowStart) >= w.Period() then Counter(0, now) else c
  }

  predicate Fits(c: Counter, w: Window, e: TierCharge) {
    SaturatingAdd(Rolled(c, w, e.now).used, e.n) <= w.max
  }

  function Charged(c: Counter, w: Window, e: TierCharge): Counter {
    var r := Rolled(c, w, e.now);
    if Fits(c, w, e) then r.(used := SaturatingAdd(r.used, e.n)) else r
  }

  function Current(o: Option<Counter>, e: TierCharge): Counter {
    if o.Some? then o.value else Counter(0, e.born)
  }

  class WindowState {
    var used: nat
    var windowStart: nat
    /** The one place in the limiter's tables that holds this object. */
    ghost const slot: (nat, string)

    function Value(): Counter
      reads this
    {
      Counter(used, windowStart)
    }

    constructor (born: nat, ghost slot: (nat, string))
      ensures Value() == Counter(0, born) && this.slot == slot
    {
      used, windowStart := 0, born;
      this.slot := slot;
    }

    method Charge(e: TierCharge, window: Window) returns (r: Result<(), BandwidthError>)
      modifies this
      ensures Value() == Charged(old(Value()), window, e)
      ensures r == if Fits(old(Value()), window, e) then Ok(())
                   else Err(ConnectionExceeded(window.max, window.secs))
    {
      if SaturatingSub(e.now, windowStart) >= window.Period() {
        windowStart := e.now;
        used := 0;
      }
      var newUsed := SaturatingAdd(used, e.n);
      if newUsed > window.max {
        return Err(ConnectionExceeded(window.max, window.secs));
      }
      used := newUsed;
      return Ok(());
    }
  }

  /** A call of `BandwidthLimiter::charge`: every tier reads the clock for itself. */
  datatype Charge = Charge(bucket: string, n: nat, born: seq<nat>, now: seq<nat>) {
    predicate Covers(tiers: nat) {
      |born| == |now| == tiers
    }

    function At(i: nat): TierCharge
      requires i < |born| && i < |now|
    {
      TierCharge(born[i], now[i], n)
    }
  }

  /** All tiers' tables: tier index, then bucket. */
  type Tables = seq<map<string, Counter>>

  function Lookup(t: map<string, Counter>, bucket: string): Option<Counter> {
    if bucket in t then Some(t[bucket]) else None
  }

  function ChargeTable(t: map<string, Counter>, w: Window, bucket: string, e: TierCharge): map<string, Counter> {
    t[bucket := Charged(Current(Lookup(t, bucket), e), w, e)]
  }

  function ChargeTables(ts: Tables, ws: seq<Window>, c: Charge): Tables
    requires |ts| == |ws| && c.Covers(|ws|)
  {
    seq(|ts|, i requires 0 <= i < |ts| => ChargeTable(ts[i], ws[i], c.bucket, c.At(i)))
  }

  ghost predicate TierFails(ts: Tables, ws: seq<Window>, c: Charge, i: nat)
    requires |ts| == |ws| && c.Covers(|ws|) && i < |ws|
  {
    !Fits(Current(Lookup(ts[i], c.bucket), c.At(i)), ws[i], c.At(i))
  }

  class BandwidthLimiter {
    const windows: seq<Window>
    var tiers: seq<map<string, WindowState>>
    ghost var Repr: set<object>

    ghost predicate Valid()
      reads this, Repr
      ensures Valid() ==> this in Repr
    {
      && this in Repr
      && |tiers| == |windows|
      && (forall i, k :: 0 <= i < |tiers| && k in tiers[i] ==>
                           tiers[i][k] in Repr && tiers[i][k].slot == (i, k))
    }

    ghost function Table(i: nat): map<string, Counter>
      requires Valid() && i < |tiers|
      reads this, Repr
    {
      map k | k in tiers[i] :: tiers[i][k].Value()
    }

    ghost function Contents(): Tables
      requires Valid()
      reads this, Repr
    {
      seq(|tiers|, i requires 0 <= i < |tiers| reads this, Repr requires Valid() => Table(i))
    }

    constructor (windows: seq<Window>)
      ensures Valid() && fresh(Repr)
      ensures this.windows == windows
      ensures Contents() == seq(|windows|, _ => map[])
    {
      this.windows := windows;
      tiers := seq(|windows|, _ => map[]);
      Repr := {this};
    }

    /** `entry(bucket).or_insert_with(WindowState::new)`. */
    method EntryOrInsert(i: nat, bucket: string, born: nat)
      requires Valid() && i < |windows|
      modifies this
      ensures Valid() && fresh(Repr - old(Repr)) && bucket in tiers[i]
      ensures Table(i) == if bucket in old(Table(i)) then old(Table(i)) else old(Table(i))[bucket := Counter(0, born)]
      ensures forall j :: 0 <= j < |windows| && j != i ==> Table(j) == old(Table(j))
    {
      if bucket !in tiers[i] {
        var state := new WindowState(born, (i, bucket));
        tiers := tiers[i := tiers[i][bucket := state]];
        Repr := Repr + {state};
      }
    }

    /** The charge of one tier, under that tier's entry lock. */
    method ChargeTier(i: nat, bucket: string, e: TierCharge) returns (r: Result<(), BandwidthError>)
      requires Valid() && i < |windows|
      modifies Repr
      ensures Valid() && fresh(Repr - old(Repr))
      ensures Table(i) == ChargeTable(old(Table(i)), windows[i], bucket, e)
      ensures forall j :: 0 <= j < |windows| && j != i ==> Table(j) == old(Table(j))
      ensures r == if Fits(Current(Lookup(old(Table(i)), bucket), e), windows[i], e) then Ok(())
                   else Err(ConnectionExceeded(windows[i].max, windows[i].secs))
    {
      EntryOrInsert(i, bucket, e.born);
      ghost var c := Current(Lookup(old(Table(i)), bucket), e);
      assert tiers[i][bucket].Value() == Table(i)[bucket] == c;
      r := tiers[i][bucket].Charge(e, windows[i]);
    }

    /** Every tier is charged, also after one has failed; the error is the first failing tier's. */
    method Charge(c: Charge) returns (r: Result<(), BandwidthError>)
      requires Valid() && c.Covers(|windows|)
      modifies Repr
      ensures Valid() && fresh(Repr - old(Repr))
      ensures Contents() == ChargeTables(old(Contents()), windows, c)
      ensures r.Ok? <==> forall i :: 0 <= i < |windows| ==> !TierFails(old(Contents()), windows, c, i)
      ensures r.Err? ==>
                exists i :: 0 <= i < |windows| && TierFails(old(Contents()), windows, c, i) &&
                            (forall j :: 0 <= j < i ==> !TierFails(old(Contents()), windows, c, j)) &&
                            r.error == ConnectionExceeded(windows[i].max, windows[i].secs)
    {
      hide Fits, Charged, Lookup;
      var firstError := None;
      ghost var before := Contents();
      var i := 0;
      while i < |windows|
        invariant 0 <= i <= |windows|
        invariant Valid() && fresh(Repr - old(Repr))
        invariant forall j :: 0 <= j < i ==> Table(j) == ChargeTable(before[j], windows[j], c.bucket, c.At(j))
        invariant forall j :: i <= j < |windows| ==> Table(j) == before[j]
        invariant firstError.None? <==> forall j :: 0 <= j < i ==> !TierFails(before, windows, c, j)
        invariant firstError.Some? ==>
                    exists f :: 0 <= f < i && TierFails(before, windows, c, f) &&
                                (forall j :: 0 <= j < f ==> !TierFails(before, windows, c, j)) &&
                                firstError.value == ConnectionExceeded(windows[f].max, windows[f].secs)
      {
        var outcome := ChargeTier(i, c.bucket, c.At(i));
        assert outcome.Err? <==> TierFails(before, windows, c, i);
        if outcome.Err? && firstError.None? {
          firstError := Some(outcome.error);
        }
        i := i + 1;
      }
      r := if firstError.Some? then Err(firstError.value) else Ok(());
    }
  }
}
