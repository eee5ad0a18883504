/** The tee of a fresh body into the cache, and the replay of a cached one (src/proxy.rs). */
module Tee {
  import opened Prelude
  import opened Limit
  import opened Meter

  /** An open temporary body. Write `i` fails exactly when `fails(i)`, possibly after `partial(i)` bytes. */
  class CacheWriter {
    var file: Bytes
    var bodyLen: nat
    var writes: nat
    const fails: nat -> bool
    const partial: nat -> nat

    ghost predicate Fresh()
      reads this
    {
      file == [] && bodyLen == 0 && writes == 0
    }

    constructor (fails: nat -> bool, partial: nat -> nat)
      ensures Fresh() && this.fails == fails && this.partial == partial
    {
      this.fails, this.partial := fails, partial;
      file, bodyLen, writes := [], 0, 0;
    }

    method Write(bytes: Bytes) returns (ok: bool)
      modifies this
      ensures ok <==> !fails(old(writes))
      ensures writes == old(writes) + 1
      ensures ok ==> file == old(file) + bytes && bodyLen == SaturatingAdd(old(bodyLen), |bytes|)
      ensures !ok ==> old(file) <= file <= old(file) + bytes && bodyLen == old(bodyLen)
    {
      var failed := fails(writes);
      writes := writes + 1;
      if failed {
        file := file + bytes[..Min(partial(writes - 1), |bytes|)];
        return false;
      }
      file := file + bytes;
      bodyLen := SaturatingAdd(bodyLen, |bytes|);
      return true;
    }
  }

  datatype ClientItem = Piece(bytes: Bytes) | Broken

  /** What became of the cache write: a whole body handed to `commit`, a removed temporary file,
      a temporary file left behind, a failed flush, or no write at all. */
  datatype Fate = Uncached | Finished(body: Bytes, len: nat) | Discarded | Abandoned | FlushFailed

  function Delivered(item: MeteredItem): ClientItem {
    if item.Data? then Piece(item.bytes) else Broken
  }

  function ClientView(out: seq<MeteredItem>): seq<ClientItem> {
    if out == [] then [] else [Delivered(out[0])] + ClientView(out[1..])
  }

  ghost predicate AllData(out: seq<MeteredItem>) {
    forall i :: 0 <= i < |out| ==> out[i].Data?
  }

  /** The bytes a client has received. */
  function Received(client: seq<ClientItem>): Bytes {
    if client == [] then [] else
      (if client[0].Piece? then client[0].bytes else []) + Received(client[1..])
  }

  lemma {:induction false} ReceivedAppend(client: seq<ClientItem>, item: ClientItem)
    ensures Received(client + [item]) == Received(client) + if item.Piece? then item.bytes else []
  {
    if client != [] {
      assert (client + [item])[1..] == client[1..] + [item];
      ReceivedAppend(client[1..], item);
    }
  }

  lemma {:induction false} ClientViewGrows(out: seq<MeteredItem>, i: nat)
    requires i < |out|
    ensures ClientView(out[..i + 1]) == ClientView(out[..i]) + [Delivered(out[i])]
  {
    if i > 0 {
      assert out[..i + 1][1..] == out[1..][..i] && out[..i][1..] == out[1..][..i - 1];
      ClientViewGrows(out[1..], i - 1);
    } else {
      assert out[..1][1..] == [] && out[..0] == [];
    }
  }

  ghost predicate OnlyLastFails(out: seq<MeteredItem>) {
    |out| <= 1 || (out[0].Data? && OnlyLastFails(out[1..]))
  }

  lemma {:induction false} MeteredStreamStopsAtFailure(items: seq<UpstreamItem>, used: nat, max: nat)
    ensures OnlyLastFails(MeteredOutput(items, used, max))
  {
    if items != [] && items[0].Chunk? && !GuardStops(used, max, |items[0].bytes|) {
      MeteredStreamStopsAtFailure(items[1..], GuardCount(used, max, |items[0].bytes|), max);
      assert MeteredOutput(items, used, max)[1..] == MeteredOutput(items[1..], GuardCount(used, max, |items[0].bytes|), max);
    }
  }

  /** Copies one chunk into the open cache body, giving the body up when the write fails. */
  method TeeChunk(writer: CacheWriter?, bytes: Bytes) returns (kept: CacheWriter?)
    modifies writer
    ensures kept == if writer == null || writer.fails(old(writer.writes)) then null else writer
    ensures kept != null ==> writer.writes == old(writer.writes) + 1 && writer.file == old(writer.file) + bytes
                             && writer.bodyLen == SaturatingAdd(old(writer.bodyLen), |bytes|)
  {
    kept := writer;
    if writer != null {
      var ok := writer.Write(bytes);
      if !ok {
        kept := null;
      }
    }
  }

  /** When the tee of `out` hands a body to the commit: the client polled to the end, every item was data,
      and no write and no flush failed. */
  ghost predicate TeeFinishes(out: seq<MeteredItem>, fails: nat -> bool, polls: nat, flushOk: bool) {
    flushOk && polls > |out| && AllData(out) && forall i :: 0 <= i < |out| ==> !fails(i)
  }

  /** When the tee gives its copy up: a polled item failed, or a write did. */
  ghost predicate GivesUp(out: seq<MeteredItem>, fails: nat -> bool, polls: nat) {
    exists i :: 0 <= i < polls && i < |out| && (out[i].Failed? || fails(i))
  }

  lemma RemainingStopsAtFailure(stream: MeteredStream)
    requires stream.Valid()
    ensures OnlyLastFails(stream.Remaining())
  {
    MeteredStreamStopsAtFailure(stream.inner[stream.pos..], stream.guard.used, stream.guard.max);
  }

  /** The clock readings of the connection tiers at each poll. */
  ghost predicate Timed(clock: nat -> (seq<nat>, seq<nat>), tiers: nat) {
    forall i :: |clock(i).0| == |clock(i).1| == tiers
  }

  /** The copy after `i` chunks: given up after a failed write, or complete so far. */
  ghost predicate Copying(cacheWriter: CacheWriter?, writer: CacheWriter?, i: nat, client: seq<ClientItem>)
    reads cacheWriter
  {
    if writer == null then cacheWriter == null || exists j :: 0 <= j < i && cacheWriter.fails(j)
    else
      && writer == cacheWriter && (forall j :: 0 <= j < i ==> !writer.fails(j))
      && writer.writes == i && writer.file == Received(client) && writer.bodyLen == Min(|writer.file|, U64_MAX)
  }

  /** The first `i` items were data and reached the client. */
  ghost predicate Passed(out: seq<MeteredItem>, i: nat, client: seq<ClientItem>) {
    i <= |out| && OnlyLastFails(out[i..]) && AllData(out[..i]) && client == ClientView(out[..i])
  }

  lemma PassedNothing(out: seq<MeteredItem>)
    requires OnlyLastFails(out)
    ensures Passed(out, 0, []) && Received([]) == [] && out[0..] == out
  {
  }

  lemma LastFailureOrMore(out: seq<MeteredItem>)
    requires OnlyLastFails(out) && out != []
    ensures if out[0].Data? then OnlyLastFails(out[1..]) else |out| == 1
  {
  }

  lemma PassNext(out: seq<MeteredItem>, i: nat, client: seq<ClientItem>)
    requires Passed(out, i, client) && i < |out|
    ensures var client' := client + [Delivered(out[i])];
            if out[i].Data? then Passed(out, i + 1, client')
               else |out| == i + 1 && client' == ClientView(out) && !AllData(out)
  {
    hide ClientView, OnlyLastFails;
    ClientViewGrows(out, i);
    LastFailureOrMore(out[i..]);
    assert out[..i + 1] == out[..i] + [out[i]];
    assert out[i..][1..] == out[i + 1..];
    if out[i].Failed? {
      assert out[..i + 1] == out;
    }
  }

  lemma PassedAll(out: seq<MeteredItem>, client: seq<ClientItem>, polls: nat)
    requires Passed(out, |client|, client) && (|client| == polls || (|client| == |out| && |client| <= polls))
    ensures client == ClientView(out[..Min(polls, |out|)]) && (|client| == |out| ==> AllData(out))
  {
    assert out[..|out|] == out;
  }

  lemma Settled(out: seq<MeteredItem>, client: seq<ClientItem>, cacheWriter: CacheWriter, writer: CacheWriter?, polls: nat)
    requires Passed(out, |client|, client) && Copying(cacheWriter, writer, |client|, client)
    requires |client| == polls || (|client| == |out| && |client| <= polls)
    ensures GivesUp(out, cacheWriter.fails, polls) <==> writer == null
  {
    assert forall i :: 0 <= i < |client| ==> out[..|client|][i] == out[i];
  }

  /** One poll of the client: the next metered item, copied into the open cache body when it is data. */
  method PollOnce(stream: MeteredStream, writer: CacheWriter?, client: seq<ClientItem>, born: seq<nat>, now: seq<nat>,
                  ghost out: seq<MeteredItem>, ghost cacheWriter: CacheWriter?)
    returns (item: Option<MeteredItem>, kept: CacheWriter?, client': seq<ClientItem>)
    requires stream.Valid() && |born| == |now| == |stream.limiter.windows|
    requires writer != null ==> writer !in stream.limiter.Repr
    requires |client| <= |out| && stream.Remaining() == out[|client|..]
    requires Passed(out, |client|, client) && Copying(cacheWriter, writer, |client|, client)
    modifies stream, stream.guard, stream.limiter.Repr, writer
    ensures stream.Valid() && fresh(stream.limiter.Repr - old(stream.limiter.Repr))
    ensures kept != null ==> kept !in stream.limiter.Repr && kept == writer
    ensures if |client| == |out| then item == None && client' == client && Copying(cacheWriter, kept, |client|, client)
            else item == Some(out[|client|]) && client' == client + [Delivered(out[|client|])]
    ensures stream.Remaining() == out[|client'|..]
    ensures item.Some? ==>
              if item.value.Data?
              then Passed(out, |client'|, client') && Copying(cacheWriter, kept, |client'|, client')
              else kept == null && |client'| == |out| && client' == ClientView(out) && !AllData(out)
  {
    hide MeteredOutput, MeteredStream.Remaining, Passed, ClientView;
    kept, client' := writer, client;
    assert out[|client|..] != [] ==> out[|client|..][1..] == out[|client| + 1..];
    item := stream.Next(born, now);
    if item.Some? {
      PassNext(out, |client|, client);
      ReceivedAppend(client, Delivered(item.value));
      client' := client + [Delivered(item.value)];
      match item.value {
        case Data(bytes) => kept := TeeChunk(writer, bytes);
        case Failed(_) => kept := null;
      }
    }
  }

  /** Streams the metered items to a client that polls at most `polls` times, copying them into the cache
      on their way, and settles the cache write. */
  method TeeBody(stream: MeteredStream, cacheWriter: CacheWriter?, polls: nat, flushOk: bool,
                 clock: nat -> (seq<nat>, seq<nat>)) returns (client: seq<ClientItem>, fate: Fate)
    requires stream.Valid() && Timed(clock, |stream.limiter.windows|)
    requires cacheWriter != null ==> cacheWriter.Fresh() && cacheWriter !in stream.limiter.Repr
    modifies stream, stream.guard, stream.limiter.Repr, cacheWriter
    ensures stream.Valid()
    ensures var out := old(stream.Remaining());
            && client == ClientView(out[..Min(polls, |out|)])
            && |client| <= |out| && stream.Remaining() == out[|client|..]
            && (fate.Finished? <==> cacheWriter != null && TeeFinishes(out, cacheWriter.fails, polls, flushOk))
    ensures fate.Finished? ==> fate.body == Received(client) && fate.len == Min(|fate.body|, U64_MAX)
    ensures fate.Uncached? <==> cacheWriter == null
    ensures fate.Discarded? <==> cacheWriter != null && GivesUp(old(stream.Remaining()), cacheWriter.fails, polls)
    ensures fate.FlushFailed? <==>
              cacheWriter != null && !flushOk && TeeFinishes(old(stream.Remaining()), cacheWriter.fails, polls, true)
  {
    client, fate := [], if cacheWriter == null then Uncached else Discarded;
    var writer := cacheWriter;
    ghost var out := stream.Remaining();
    RemainingStopsAtFailure(stream);
    PassedNothing(out);
    hide MeteredOutput, MeteredStream.Remaining, Received, ClientView, Passed, AllData, OnlyLastFails;
    while |client| < polls
      invariant |client| <= polls && |client| <= |out| && Passed(out, |client|, client)
      invariant stream.Valid() && fresh(stream.limiter.Repr - old(stream.limiter.Repr)) && stream.Remaining() == out[|client|..]
      invariant writer != null ==> writer !in stream.limiter.Repr && writer == cacheWriter
      invariant Copying(cacheWriter, writer, |client|, client)
    {
      var (born, now) := clock(|client|);
      var next;
      next, writer, client := PollOnce(stream, writer, client, born, now, out, cacheWriter);
      if next.None? {
        PassedAll(out, client, polls);
        if cacheWriter != null {
          Settled(out, client, cacheWriter, writer, polls);
        }
        if writer != null {
          fate := if flushOk then Finished(writer.file, writer.bodyLen) else FlushFailed;
        }
        return;
      }
      if next.value.Failed? {
        assert out[..|out|] == out;
        return;
      }
    }
    PassedAll(out, client, polls);
    if cacheWriter != null {
      Settled(out, client, cacheWriter, writer, polls);
    }
    if writer != null {
      fate := Abandoned;
    }
  }

  const READ_BUFFER: nat := 64 * 1024

  /** `file_stream`: read `i` returns at most the buffer size, at least one byte before the end,
      and otherwise as many bytes as the system chooses (`size(i)`). */
  method FileStream(contents: Bytes, size: nat -> nat) returns (chunks: seq<Bytes>)
    ensures Concat(chunks) == contents
    ensures forall c :: c in chunks ==> 0 < |c| <= READ_BUFFER
  {
    chunks := [];
    var offset, i := 0, 0;
    while true
      invariant offset <= |contents|
      invariant Concat(chunks) == contents[..offset]
      invariant forall c :: c in chunks ==> 0 < |c| <= READ_BUFFER
      decreases |contents| - offset
    {
      var read := Min(Max(size(i), 1), Min(READ_BUFFER, |contents| - offset));
      if read == 0 {
        break;
      }
      var chunk := contents[offset..offset + read];
      TotalAppend(chunks, [chunk]);
      assert contents[..offset + read] == contents[..offset] + chunk;
      chunks := chunks + [chunk];
      offset, i := offset + read, i + 1;
    }
  }

  lemma {:induction false} ReceivedDatas(cs: seq<Bytes>)
    ensures Received(ClientView(Datas(cs))) == Concat(cs)
  {
    if cs != [] {
      assert Datas(cs)[1..] == Datas(cs[1..]);
      assert ClientView(Datas(cs))[1..] == ClientView(Datas(cs[1..]));
      ReceivedDatas(cs[1..]);
    }
  }

  lemma {:induction false} UncappedOutput(cs: seq<Bytes>, used: nat, max: nat)
    requires max != 0 ==> used + Total(cs) <= Min(max, U64_MAX)
    ensures MeteredOutput(Chunks(cs), used, max) == Datas(cs)
  {
    if cs != [] {
      assert Chunks(cs)[1..] == Chunks(cs[1..]);
      assert Datas(cs) == [Data(cs[0])] + Datas(cs[1..]);
      UncappedOutput(cs[1..], GuardCount(used, max, |cs[0]|), max);
    }
  }

  lemma EndingIsNoData(items: seq<UpstreamItem>, cs: seq<Bytes>, max: nat, k: nat)
    requires k <= |cs| <= |items| && (|cs| < |items| ==> items[|cs|].Fault?)
    ensures k < |items| ==> !AllData(Datas(cs[..k]) + Ending(items, cs, 0, max, k))
  {
    var out := Datas(cs[..k]) + Ending(items, cs, 0, max, k);
    assert k < |items| ==> out[k].Failed?;
  }

  /** A stream that ends without an error has passed on every byte of an upstream that had no fault. */
  lemma {:induction false} AllDataIsWhole(items: seq<UpstreamItem>, used: nat, max: nat)
    requires AllData(MeteredOutput(items, used, max))
    ensures items == Chunks(LeadingChunks(items))
    ensures Received(ClientView(MeteredOutput(items, used, max))) == Concat(LeadingChunks(items))
  {
    if items != [] {
      var out := MeteredOutput(items, used, max);
      assert out[0].Data?;
      var rest := MeteredOutput(items[1..], GuardCount(used, max, |items[0].bytes|), max);
      assert out[1..] == rest;
      assert forall i :: 0 <= i < |rest| ==> rest[i] == out[i + 1];
      AllDataIsWhole(items[1..], GuardCount(used, max, |items[0].bytes|), max);
      assert items == [items[0]] + items[1..];
    }
  }

  /** A committed body is exactly the upstream's body, which the client got in full. */
  lemma FinishedBodyIsWhole(items: seq<UpstreamItem>, max: nat, client: seq<ClientItem>, body: Bytes)
    requires var out := MeteredOutput(items, 0, max); AllData(out) && client == ClientView(out)
    requires body == Received(client)
    ensures items == Chunks(LeadingChunks(items))
    ensures body == Concat(LeadingChunks(items)) && (max < U64_MAX ==> !WouldExceed(max, |body|))
  {
    var cs := LeadingChunks(items);
    AllDataIsWhole(items, 0, max);
    if max < U64_MAX {
      var k := CutExists(cs, max, 0);
      MeteredStreamShape(items, 0, max, k);
      EndingIsNoData(items, cs, max, k);
      assert cs[..k] == cs;
    }
  }

  /** A hit that passes the early cap check streams the committed bytes, whole and in order,
      whatever the read sizes and the connection tiers. */
  lemma HitReplaysBody(body: Bytes, fileChunks: seq<Bytes>, max: nat)
    requires max <= U64_MAX && Concat(fileChunks) == body && !WouldExceed(max, |body|)
    ensures var out := MeteredOutput(Chunks(fileChunks), 0, max);
            AllData(out) && Received(ClientView(out)) == body
  {
    UncappedOutput(fileChunks, 0, max);
    ReceivedDatas(fileChunks);
  }

  // ---------- What a client can tell ----------

  lemma {:induction false} ClientViewAt(out: seq<MeteredItem>)
    ensures |ClientView(out)| == |out| && forall i :: 0 <= i < |out| ==> ClientView(out)[i] == Delivered(out[i])
  {
    if out != [] {
      ClientViewAt(out[1..]);
    }
  }

  /** A client gets the chunks that fit under the cap, unchanged and in order, and then the end of the stream when
      these are the whole of a fault-free upstream, or a broken stream when they are not. */
  lemma ClientSeesTheEnd(items: seq<UpstreamItem>, max: nat, k: nat)
    requires max < U64_MAX && CutAt(LeadingChunks(items), 0, max, k)
    ensures var view := ClientView(MeteredOutput(items, 0, max));
            && k <= |view| && (forall i :: 0 <= i < k ==> view[i] == Piece(LeadingChunks(items)[i]))
            && (|view| == k <==> k == |items|) && (|view| != k ==> |view| == k + 1 && view[k] == Broken)
  {
    hide MeteredOutput, LeadingChunks, CutAt;
    var cs, out := LeadingChunks(items), MeteredOutput(items, 0, max);
    assert k <= |cs| <= |items| by { CutInside(cs, max, k); }
    MeteredStreamShape(items, 0, max, k);
    ClientViewAt(out);
    assert forall i :: 0 <= i < k ==> out[i] == Data(cs[..k][i]);
  }

  lemma CutInside(cs: seq<Bytes>, max: nat, k: nat)
    requires CutAt(cs, 0, max, k)
    ensures k <= |cs|
  {
  }
}
