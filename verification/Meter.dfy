/** The metered body stream: a hard cap on one result, soft connection tiers (src/limit.rs). */
module Meter {
  import opened Prelude
  import opened Limit

  datatype UpstreamItem = Chunk(bytes: Bytes) | Fault(message: string)

  datatype MeteredError = Upstream(message: string) | OverResult(used: nat, max: nat)

  datatype MeteredItem = Data(bytes: Bytes) | Failed(error: MeteredError)

  class ResultSizeGuard {
    var used: nat
    const max: nat

    constructor (max: nat)
      ensures this.max == max && used == 0
    {
      this.max := max;
      used := 0;
    }

    method Charge(n: nat) returns (r: Result<(), BandwidthError>)
      modifies this
      ensures used == GuardCount(old(used), max, n)
      ensures r == if GuardStops(old(used), max, n) then Err(ResultExceeded(used, max)) else Ok(())
    {
      if max == 0 {
        return Ok(());
      }
      used := SaturatingAdd(used, n);
      if used > max {
        return Err(ResultExceeded(used, max));
      }
      return Ok(());
    }
  }

  function GuardCount(used: nat, max: nat, n: nat): nat {
    if max == 0 then used else SaturatingAdd(used, n)
  }

  predicate GuardStops(used: nat, max: nat, n: nat) {
    max != 0 && SaturatingAdd(used, n) > max
  }

  /** The early check against an announced length. */
  predicate WouldExceed(max: nat, n: nat) {
    max != 0 && n > max
  }

  /** Everything the metered stream yields for the upstream items still to come. */
  function MeteredOutput(items: seq<UpstreamItem>, used: nat, max: nat): seq<MeteredItem> {
    if items == [] then []
    else match items[0]
      case Fault(message) => [Failed(Upstream(message))]
      case Chunk(bytes) =>
        var used' := GuardCount(used, max, |bytes|);
        if GuardStops(used, max, |bytes|) then [Failed(OverResult(used', max))]
        else [Data(bytes)] + MeteredOutput(items[1..], used', max)
  }

  class MeteredStream {
    const inner: seq<UpstreamItem>
    const limiter: BandwidthLimiter
    const bucket: string
    const guard: ResultSizeGuard
    var pos: nat
    var stopped: bool

    ghost predicate Valid()
      reads this, guard, limiter, limiter.Repr
    {
      && pos <= |inner|
      && limiter.Valid()
      && guard as object !in limiter.Repr + {this}
      && this !in limiter.Repr
    }

    ghost function Remaining(): seq<MeteredItem>
      requires Valid()
      reads this, guard, limiter, limiter.Repr
    {
      if stopped then [] else MeteredOutput(inner[pos..], guard.used, guard.max)
    }

    constructor (inner: seq<UpstreamItem>, limiter: BandwidthLimiter, bucket: string, guard: ResultSizeGuard)
      requires limiter.Valid() && guard as object !in limiter.Repr
      ensures Valid() && fresh(this)
      ensures this.limiter == limiter && this.bucket == bucket && this.guard == guard
      ensures Remaining() == MeteredOutput(inner, guard.used, guard.max)
    {
      this.inner, this.limiter, this.bucket, this.guard := inner, limiter, bucket, guard;
      pos, stopped := 0, false;
    }

    /** One poll of the stream. What it yields does not depend on the connection tiers,
        which are charged exactly for the chunks yielded. */
    method Next(born: seq<nat>, now: seq<nat>) returns (item: Option<MeteredItem>)
      requires Valid() && |born| == |now| == |limiter.windows|
      modifies this, guard, limiter.Repr
      ensures Valid() && fresh(limiter.Repr - old(limiter.Repr))
      ensures if old(Remaining()) == [] then item == None && Remaining() == []
              else item == Some(old(Remaining())[0]) && Remaining() == old(Remaining())[1..]
      ensures limiter.Contents() ==
              if item.Some? && item.value.Data?
              then ChargeTables(old(limiter.Contents()), limiter.windows, Charge(bucket, |item.value.bytes|, born, now))
              else old(limiter.Contents())
    {
      if stopped || pos == |inner| {
        return None;
      }
      var next := inner[pos];
      pos := pos + 1;
      match next {
        case Fault(message) =>
          stopped := true;
          return Some(Failed(Upstream(message)));
        case Chunk(bytes) =>
          var verdict := guard.Charge(|bytes|);
          if verdict.Err? {
            stopped := true;
            return Some(Failed(OverResult(verdict.error.used, verdict.error.max)));
          }
          // Over a connection tier the chunk is still yielded.
          var soft := limiter.Charge(Charge(bucket, |bytes|, born, now));
          return Some(Data(bytes));
      }
    }
  }

  // ---------- What the stream yields, without the loop ----------

  function Total(cs: seq<Bytes>): nat {
    if cs == [] then 0 else |cs[0]| + Total(cs[1..])
  }

  function Concat(cs: seq<Bytes>): (r: Bytes)
    ensures |r| == Total(cs)
  {
    if cs == [] then [] else cs[0] + Concat(cs[1..])
  }

  /** The chunks before the first upstream fault. */
  function LeadingChunks(items: seq<UpstreamItem>): (r: seq<Bytes>)
    ensures |r| <= |items|
    ensures forall i :: 0 <= i < |r| ==> items[i] == Chunk(r[i])
    ensures |r| < |items| ==> items[|r|].Fault?
  {
    if items == [] || items[0].Fault? then [] else [items[0].bytes] + LeadingChunks(items[1..])
  }

  function Datas(cs: seq<Bytes>): seq<MeteredItem> {
    seq(|cs|, i requires 0 <= i < |cs| => Data(cs[i]))
  }

  function Chunks(cs: seq<Bytes>): seq<UpstreamItem> {
    seq(|cs|, i requires 0 <= i < |cs| => Chunk(cs[i]))
  }

  /** With `used` bytes counted already, `k` is where a cap cuts the chunks: all that fit, and not one more. */
  ghost predicate CutAt(cs: seq<Bytes>, used: nat, max: nat, k: nat) {
    && k <= |cs|
    && (max != 0 ==> used + Total(cs[..k]) <= max)
    && (k < |cs| ==> max != 0 && used + Total(cs[..k + 1]) > max)
  }

  function Ending(items: seq<UpstreamItem>, cs: seq<Bytes>, used: nat, max: nat, k: nat): seq<MeteredItem>
    requires k <= |cs| <= |items| && (|cs| < |items| ==> items[|cs|].Fault?)
  {
    if k < |cs| then [Failed(OverResult(SaturatingAdd(used + Total(cs[..k]), |cs[k]|), max))]
    else if |cs| < |items| then [Failed(Upstream(items[|cs|].message))]
    else []
  }

  lemma {:induction false} TotalAppend(a: seq<Bytes>, b: seq<Bytes>)
    ensures Total(a + b) == Total(a) + Total(b)
    ensures Concat(a + b) == Concat(a) + Concat(b)
  {
    if a == [] {
      assert a + b == b;
    } else {
      assert (a + b)[1..] == a[1..] + b;
      TotalAppend(a[1..], b);
    }
  }

  lemma TotalPrefixes(cs: seq<Bytes>, i: nat, j: nat)
    requires i <= j <= |cs|
    ensures Total(cs[..i]) <= Total(cs[..j])
  {
    assert cs[..j] == cs[..i] + cs[i..j];
    TotalAppend(cs[..i], cs[i..j]);
  }

  lemma CutIsUnique(cs: seq<Bytes>, max: nat, j: nat, k: nat)
    requires CutAt(cs, 0, max, j) && CutAt(cs, 0, max, k)
    ensures j == k
  {
    if j < k {
      TotalPrefixes(cs, j + 1, k);
    } else if k < j {
      TotalPrefixes(cs, k + 1, j);
    }
  }

  lemma CutLeavesRoom(cs: seq<Bytes>, used: nat, max: nat, k: nat)
    requires CutAt(cs, used, max, k) && k > 0 && max < U64_MAX
    ensures !GuardStops(used, max, |cs[0]|)
  {
    assert cs[..k][0] == cs[0];
  }

  lemma CutOfTail(cs: seq<Bytes>, used: nat, max: nat, k: nat)
    requires CutAt(cs, used, max, k) && k > 0
    ensures CutAt(cs[1..], used + |cs[0]|, max, k - 1)
    ensures Total(cs[..k]) == |cs[0]| + Total(cs[1..][..k - 1])
    ensures Datas(cs[..k]) == [Data(cs[0])] + Datas(cs[1..][..k - 1])
  {
    assert cs[..k][1..] == cs[1..][..k - 1];
    if k < |cs| {
      assert cs[..k + 1][1..] == cs[1..][..k];
    }
  }

  lemma OutputStep(items: seq<UpstreamItem>, used: nat, max: nat)
    requires items != [] && items[0].Chunk? && !GuardStops(used, max, |items[0].bytes|)
    ensures MeteredOutput(items, used, max)
            == [Data(items[0].bytes)] + MeteredOutput(items[1..], GuardCount(used, max, |items[0].bytes|), max)
    ensures LeadingChunks(items)[1..] == LeadingChunks(items[1..]) && LeadingChunks(items)[0] == items[0].bytes
  {
  }

  lemma ShapeAtOnce(items: seq<UpstreamItem>, used: nat, max: nat)
    requires max < U64_MAX && CutAt(LeadingChunks(items), used, max, 0)
    ensures MeteredOutput(items, used, max) == Ending(items, LeadingChunks(items), used, max, 0)
  {
    var cs := LeadingChunks(items);
    assert cs[..0] == [] && Total(cs[..0]) == 0;
    if cs != [] {
      assert cs[..1] == [cs[0]] && Total([cs[0]]) == |cs[0]|;
    }
  }

  /** For every upstream and cap, resumed at any count: the chunks that fit, in order and unchanged,
      then at most one error. */
  lemma {:induction false} MeteredStreamShape(items: seq<UpstreamItem>, used: nat, max: nat, k: nat)
    requires max < U64_MAX && (max == 0 ==> used == 0)
    requires CutAt(LeadingChunks(items), used, max, k)
    ensures var cs := LeadingChunks(items);
            MeteredOutput(items, used, max) == Datas(cs[..k]) + Ending(items, cs, used, max, k)
    decreases k
  {
    hide MeteredOutput, LeadingChunks, Total;
    var cs := LeadingChunks(items);
    if k == 0 {
      ShapeAtOnce(items, used, max);
      assert Datas(cs[..0]) == [];
    } else {
      CutOfTail(cs, used, max, k);
      CutLeavesRoom(cs, used, max, k);
      OutputStep(items, used, max);
      var used' := GuardCount(used, max, |cs[0]|);
      MeteredStreamShape(items[1..], used', max, k - 1);
      assert Ending(items, cs, used, max, k) == Ending(items[1..], cs[1..], used', max, k - 1);
    }
  }

  lemma {:induction false} CutExists(cs: seq<Bytes>, max: nat, i: nat) returns (k: nat)
    requires i <= |cs| && (max != 0 ==> Total(cs[..i]) <= max)
    ensures CutAt(cs, 0, max, k)
    decreases |cs| - i
  {
    if i < |cs| && (max == 0 || Total(cs[..i + 1]) <= max) {
      k := CutExists(cs, max, i + 1);
    } else {
      k := i;
    }
  }

  ghost predicate HitsCap(out: seq<MeteredItem>) {
    exists i :: 0 <= i < |out| && out[i].Failed? && out[i].error.OverResult?
  }

  /** The early check on the announced length and the streaming cap decide alike, for every chunking. */
  lemma CapsAgree(cs: seq<Bytes>, max: nat)
    requires max < U64_MAX
    ensures HitsCap(MeteredOutput(Chunks(cs), 0, max)) <==> WouldExceed(max, Total(cs))
    ensures !WouldExceed(max, Total(cs)) ==> MeteredOutput(Chunks(cs), 0, max) == Datas(cs)
  {
    var items := Chunks(cs);
    assert |LeadingChunks(items)| == |items|;
    assert LeadingChunks(items) == cs;
    var k := CutExists(cs, max, 0);
    MeteredStreamShape(items, 0, max, k);
    var out := MeteredOutput(items, 0, max);
    assert cs[..|cs|] == cs;
    if k < |cs| {
      TotalPrefixes(cs, k + 1, |cs|);
      assert out[k].Failed? && out[k].error.OverResult?;
    }
  }
}
