/** Undisturbed runs of the concurrent model: they end where the sequential methods end (src/cache.rs, src/proxy.rs). */
module Undisturbed {
  import opened Prelude
  import opened Names
  import opened Entry
  import opened Lru
  import opened CacheDir
  import opened Meter
  import opened Tee
  import opened Machine
  import opened MachineSafety

  lemma {:induction false} RunAppend(cfg: Config, s: State, a: seq<Action>, b: seq<Action>)
    ensures Run(cfg, s, a + b) == Run(cfg, Run(cfg, s, a), b)
    decreases |a|
  {
    hide Step;
    if a == [] {
      assert a + b == b;
    } else {
      assert (a + b)[1..] == a[1..] + b;
      RunAppend(cfg, Step(cfg, s, a[0]), a[1..], b);
    }
  }

  // ---------- Lookup and saving ----------

  /** The file steps of one lookup; steps that do not apply change nothing. */
  function LookupActions(i: nat, length: nat): seq<Action> {
    [Move(i, ReadMeta(true)), Move(i, StatBody(true)), Move(i, OpenMeta(true)), Move(i, SaveSome(length)),
     Move(i, RenameMeta(true, [])), Move(i, DropMeta(true))]
  }

  lemma RunLookup(cfg: Config, s: State, i: nat, n: nat)
    ensures Run(cfg, s, LookupActions(i, n)) ==
            Step(cfg, Step(cfg, Step(cfg, Step(cfg, Step(cfg, Step(cfg, s, Move(i, ReadMeta(true))), Move(i, StatBody(true))),
              Move(i, OpenMeta(true))), Move(i, SaveSome(n))), Move(i, RenameMeta(true, []))), Move(i, DropMeta(true)))
  {
    hide Step;
    var actions := LookupActions(i, n);
    RunCons(cfg, s, actions);
    var s1 := Step(cfg, s, actions[0]);
    RunCons(cfg, s1, actions[1..]);
    var s2 := Step(cfg, s1, actions[1]);
    RunCons(cfg, s2, actions[2..]);
    var s3 := Step(cfg, s2, actions[2]);
    RunCons(cfg, s3, actions[3..]);
    var s4 := Step(cfg, s3, actions[3]);
    RunCons(cfg, s4, actions[4..]);
    var s5 := Step(cfg, s4, actions[4]);
    RunCons(cfg, s5, actions[5..]);
    RunCons(cfg, s, actions);
  }

  lemma RunCons(cfg: Config, s: State, actions: seq<Action>)
    requires actions != []
    ensures Run(cfg, s, actions) == Run(cfg, Step(cfg, s, actions[0]), actions[1..])
    ensures |actions| == 1 ==> Run(cfg, s, actions) == Step(cfg, s, actions[0])
    ensures |actions| > 1 ==> actions[1..][0] == actions[1] && actions[1..][1..] == actions[2..]
  {
    hide Step;
  }

  const NO_ENTRY: CacheEntry := CacheEntry(CACHE_VERSION, 200, [], 0, 0, 0, 1, false, None, None, [], [])

  /** The entry a lookup saves, if it finds one. */
  function LookedUp(cfg: Config, s: State, i: nat): CacheEntry
    requires i in s.ops
  {
    var found := LookupFinds(cfg.codec, s.disk, cfg.key(s.ops[i].req));
    if found.Some? then Accessed(found.value, s.ops[i].started) else NO_ENTRY
  }

  function Accessed(entry: CacheEntry, now: nat): CacheEntry {
    entry.(lastAccess := now)
  }

  /** Undisturbed, the model's lookup is `CacheDirectory.Lookup`: same result, same directory. */
  lemma LookupAlone(cfg: Config, s: State, i: nat)
    requires Inv(cfg, s) && i in s.ops && s.ops[i].pc.Reading?
    ensures var op := s.ops[i];
            var key := cfg.key(op.req);
            var found := LookupFinds(cfg.codec, s.disk, key);
            var entry := LookedUp(cfg, s, i);
            var s' := Run(cfg, s, LookupActions(i, |cfg.codec.encode(entry)|));
            i in s'.ops &&
            if found.Some? then
              && Meta(key) in s.origin && Body(key) in s.origin
              && s'.ops[i].pc == Found(entry, s.origin[Meta(key)], Seen(s.disk[Body(key)], s.origin[Body(key)].write))
              && s'.origin == s.origin && s'.log == s.log
              && s'.disk == (s.disk - {MetaTemp(cfg, s, op, s.nextTemp)})[Meta(key) := cfg.codec.encode(entry)]
            else s'.ops[i].pc.Missed? && s'.disk == s.disk - {Meta(key)}
    ensures var s' := Run(cfg, s, LookupActions(i, |cfg.codec.encode(LookedUp(cfg, s, i))|));
            && s'.ops - {i} == s.ops - {i} && s'.ops[i].req == s.ops[i].req && s'.now == s.now && s'.pid == s.pid
            && s'.log == s.log
  {
    hide Inv;
    var op := s.ops[i];
    var key := cfg.key(op.req);
    InvFiles(cfg, s, key);
    var found := LookupFinds(cfg.codec, s.disk, key);
    var entry := LookedUp(cfg, s, i);
    var n := |cfg.codec.encode(entry)|;
    RunLookup(cfg, s, i, n);
    hide Run, EntryOk;
    var s1 := Step(cfg, s, Move(i, ReadMeta(true)));
    var s2 := Step(cfg, s1, Move(i, StatBody(true)));
    if found.Some? {
      assert s2.ops[i].pc.Opening? && s2.ops[i].pc.entry == entry && s2.ops[i].pc.saver.ByLookup?;
      assert s2.ops[i].pc.saver.seen.body == s.disk[Body(key)];
      SaveAlone(cfg, s2, i, []);
    } else {
      assert s2.disk == s.disk && (s2.ops[i].pc.Missed? || s2.ops[i].pc.Dropping?);
    }
  }

  /** Undisturbed, metadata is saved under its key and the temporary file is gone. */
  lemma SaveAlone(cfg: Config, s: State, i: nat, victims: seq<string>)
    requires i in s.ops && s.ops[i].pc.Opening?
    ensures var (op, pc) := (s.ops[i], s.ops[i].pc);
            var data := cfg.codec.encode(pc.entry);
            var s' := Step(cfg, Step(cfg, Step(cfg, s, Move(i, OpenMeta(true))), Move(i, SaveSome(|data|))),
                           Move(i, RenameMeta(true, victims)));
            && s'.disk == (s.disk - {MetaTemp(cfg, s, op, s.nextTemp)})[Meta(cfg.key(op.req)) := data]
            && (pc.saver.ByLookup? ==> i in s'.ops && s'.ops[i].pc == Found(pc.entry, pc.origin, pc.saver.seen))
            && (pc.saver.ByLookup? ==> s'.ops[i].req == op.req && s'.log == s.log)
            && (pc.saver.ByRefresh? ==> i !in s'.ops && s'.log == Recorded(s, Served(op.req, s.now, pc.entry, pc.origin, pc.saver.seen, true)).log)
            && s'.log.served == s.log.served + (if pc.saver.ByRefresh? then {Served(op.req, s.now, pc.entry, pc.origin, pc.saver.seen, true)} else {})
            && s'.ops - {i} == s.ops - {i} && s'.now == s.now
  {
    var op, pc := s.ops[i], s.ops[i].pc;
    var data := cfg.codec.encode(pc.entry);
    var temp := MetaTemp(cfg, s, op, s.nextTemp);
    assert data[..|data|] == data;
    var s2 := Step(cfg, Step(cfg, s, Move(i, OpenMeta(true))), Move(i, SaveSome(|data|)));
    assert s2.disk == s.disk[temp := data] && s2.ops[i] == op.(pc := Saving(pc.entry, pc.origin, pc.saver, s.nextTemp));
    assert s2.disk - {temp} == s.disk - {temp};
  }

  // ---------- The tee ----------

  /** The steps of a tee, item by item, from item `c` on; the write of item `k` fails when `fails(k)`. */
  function TeeMoves(i: nat, fails: nat -> bool, c: nat, n: nat): seq<Action>
    decreases n
  {
    if n == 0 then [] else [Move(i, TeeNext(!fails(c)))] + TeeMoves(i, fails, c + 1, n - 1)
  }

  /** The transfer after `n` more items. */
  function Passing(t: Transfer, n: nat): Transfer
    requires |t.client| + n <= |t.Output()|
    decreases n
  {
    if n == 0 then t else Passing(t.Passing(t.Output()[|t.client|]), n - 1)
  }

  ghost predicate Smooth(t: Transfer, fails: nat -> bool, n: nat)
    requires |t.client| + n <= |t.Output()|
  {
    forall k :: |t.client| <= k < |t.client| + n ==> t.Output()[k].Data? && !fails(k)
  }

  lemma {:induction false} RemovingStays(cfg: Config, s: State, i: nat, fails: nat -> bool, c: nat, n: nat)
    requires i in s.ops && s.ops[i].pc.Removing?
    ensures Run(cfg, s, TeeMoves(i, fails, c, n)) == s
    decreases n
  {
    if n > 0 {
      assert Step(cfg, s, TeeMoves(i, fails, c, n)[0]) == s;
      assert TeeMoves(i, fails, c, n)[1..] == TeeMoves(i, fails, c + 1, n - 1);
      RemovingStays(cfg, s, i, fails, c + 1, n - 1);
    }
  }

  /** The pc of a tee after some items: still writing what the client got, or given up. */
  function TeedPc(pc: Pc, smooth: bool, t: Transfer): Pc
    requires pc.Writing?
  {
    if smooth then Writing(pc.id, pc.draft, pc.event, Received(t.client), t) else Removing(pc.id)
  }

  lemma OneItem(cfg: Config, s: State, i: nat, ok: bool)
    requires i in s.ops && s.ops[i].pc.Writing? && !s.ops[i].pc.transfer.Drained()
    requires s.ops[i].pc.written == Received(s.ops[i].pc.transfer.client)
    ensures var (pc, t) := (s.ops[i].pc, s.ops[i].pc.transfer); var item := t.Output()[|t.client|];
            Step(cfg, s, Move(i, TeeNext(ok))) == Goto(s, i, TeedPc(pc, item.Data? && ok, t.Passing(item)))
  {
    var t := s.ops[i].pc.transfer;
    ReceivedAppend(t.client, Delivered(t.Output()[|t.client|]));
  }

  lemma {:induction false} TeeRuns(cfg: Config, s: State, i: nat, fails: nat -> bool, n: nat)
    requires i in s.ops && s.ops[i].pc.Writing? && s.ops[i].pc.written == Received(s.ops[i].pc.transfer.client)
    requires |s.ops[i].pc.transfer.client| + n <= |s.ops[i].pc.transfer.Output()|
    ensures var (pc, t) := (s.ops[i].pc, s.ops[i].pc.transfer);
            Run(cfg, s, TeeMoves(i, fails, |t.client|, n)) == Goto(s, i, TeedPc(pc, Smooth(t, fails, n), Passing(t, n)))
    decreases n
  {
    hide Step, MeteredOutput, Received;
    var pc, t := s.ops[i].pc, s.ops[i].pc.transfer;
    var c := |t.client|;
    if n == 0 {
      assert s.ops[i := s.ops[i]] == s.ops;
    } else {
      var item := t.Output()[c];
      var s1 := Step(cfg, s, Move(i, TeeNext(!fails(c))));
      OneItem(cfg, s, i, !fails(c));
      assert TeeMoves(i, fails, c, n)[1..] == TeeMoves(i, fails, c + 1, n - 1);
      if item.Data? && !fails(c) {
        TeeRuns(cfg, s1, i, fails, n - 1);
      } else {
        RemovingStays(cfg, s1, i, fails, c + 1, n - 1);
      }
    }
  }

  lemma {:induction false} PassingIsView(t: Transfer, n: nat)
    requires |t.client| + n <= |t.Output()| && t.client == ClientView(t.Output()[..|t.client|])
    ensures Passing(t, n) == Transfer(t.items, t.max, ClientView(t.Output()[..|t.client| + n]))
    decreases n
  {
    hide MeteredOutput, ClientView;
    if n > 0 {
      ClientViewGrows(t.Output(), |t.client|);
      ViewLength(t.Output()[..|t.client| + 1]);
      PassingIsView(t.Passing(t.Output()[|t.client|]), n - 1);
    }
  }

  lemma {:induction false} ViewLength(out: seq<MeteredItem>)
    ensures |ClientView(out)| == |out|
  {
    if out != [] {
      ViewLength(out[1..]);
    }
  }

  /** A tee as `Tee.TeeBody` runs it: `polls` polls, and the flush when they went past the end. */
  function TeeActions(i: nat, out: seq<MeteredItem>, fails: nat -> bool, polls: nat, flushOk: bool): seq<Action> {
    TeeMoves(i, fails, 0, Min(polls, |out|))
    + if flushOk && polls > |out| then [Move(i, Drain(|Received(ClientView(out))|)), Move(i, Flush)] else []
  }

  /** A request whose response has just begun to stream. */
  ghost predicate Streaming(s: State, i: nat) {
    i in s.ops && s.ops[i].pc.Writing? && s.ops[i].pc.written == [] && s.ops[i].pc.transfer.client == []
  }

  /** The tee of the model is the one of `TeeBody`: it hands a body to the commit under the same condition,
      and the body is what the client received. */
  lemma TeeAlone(cfg: Config, s: State, i: nat, fails: nat -> bool, polls: nat, flushOk: bool)
    requires Streaming(s, i)
    ensures var op := s.ops[i]; var (t, w) := (op.pc.transfer, s.log.nextWrite);
            var out := t.Output(); var body := Received(ClientView(out));
            var s' := Run(cfg, s, TeeActions(i, out, fails, polls, flushOk));
            && i in s'.ops && (s'.ops[i].pc.Committing? <==> TeeFinishes(out, fails, polls, flushOk))
            && (s'.ops[i].pc.Committing? ==> Handed(cfg, s, i, s', Write(op.req, op.pc.draft, body, Transfer(t.items, t.max, ClientView(out)))))
  {
    hide Run, MeteredOutput, Received, ClientView;
    var op := s.ops[i];
    var t := op.pc.transfer;
    var out := t.Output();
    var n := Min(polls, |out|);
    NothingViewed(out);
    TeeRuns(cfg, s, i, fails, n);
    PassingIsView(t, n);
    var teed := Run(cfg, s, TeeMoves(i, fails, 0, n));
    var ending := if flushOk && polls > |out| then [Move(i, Drain(|Received(ClientView(out))|)), Move(i, Flush)] else [];
    RunAppend(cfg, s, TeeMoves(i, fails, 0, n), ending);
    assert out[..|out|] == out;
    if ending == [] {
      RunNothing(cfg, teed);
    } else {
      assert Smooth(t, fails, n) <==> TeeFinishes(out, fails, polls, flushOk);
      RunTwo(cfg, teed, ending[0], ending[1]);
      ViewLength(out);
      if Smooth(t, fails, n) {
        FlushAlone(cfg, teed, i, s);
      }
    }
  }

  lemma NothingViewed(out: seq<MeteredItem>)
    ensures ClientView(out[..0]) == [] && Received([]) == []
  {
  }

  lemma RunNothing(cfg: Config, s: State)
    ensures Run(cfg, s, []) == s
  {
  }

  lemma RunTwo(cfg: Config, s: State, a: Action, b: Action)
    ensures Run(cfg, s, [a, b]) == Step(cfg, Step(cfg, s, a), b)
  {
    hide Step;
    RunCons(cfg, s, [a, b]);
    RunCons(cfg, Step(cfg, s, a), [a, b][1..]);
  }

  /** The write `w` was recorded as finished, its body is in the temporary file, and nothing else happened. */
  ghost predicate Handed(cfg: Config, s: State, i: nat, s': State, w: Write) {
    && i in s.ops && s.ops[i].pc.Writing? && i in s'.ops && s'.ops[i].pc.Committing?
    && s'.log == s.log.(writes := s.log.writes[s.log.nextWrite := w], nextWrite := s.log.nextWrite + 1)
    && s'.ops[i] == Op(s.ops[i].req, s.ops[i].started,
                       Committing(s.ops[i].pc.id, Sized(w.draft, |w.body|), Origin(s.log.nextWrite, s.ops[i].pc.event)))
    && s'.ops - {i} == s.ops - {i} && s'.now == s.now && s'.pid == s.pid && s'.nextTemp == s.nextTemp && s'.origin == s.origin
    && s'.disk == s.disk[BodyTemp(cfg, s, s.ops[i], s.ops[i].pc.id) := w.body]
  }

  function Sized(draft: CacheEntry, length: nat): CacheEntry {
    draft.(bodyLen := length)
  }

  lemma FlushAlone(cfg: Config, teed: State, i: nat, s: State)
    requires i in s.ops && s.ops[i].pc.Writing? && i in teed.ops && teed.ops[i].pc.Writing? && teed.ops[i].pc.transfer.Drained()
    requires teed == Goto(s, i, Writing(s.ops[i].pc.id, s.ops[i].pc.draft, s.ops[i].pc.event, teed.ops[i].pc.written, teed.ops[i].pc.transfer))
    ensures var pc := teed.ops[i].pc;
            var s' := Step(cfg, Step(cfg, teed, Move(i, Drain(|pc.written|))), Move(i, Flush));
            Handed(cfg, s, i, s', Write(s.ops[i].req, pc.draft, pc.written, pc.transfer))
  {
    hide MeteredOutput;
    var pc := teed.ops[i].pc;
    assert pc.written[..|pc.written|] == pc.written;
  }

  // ---------- The commit ----------

  /** Both removals of one victim after the other. */
  function EvictMoves(i: nat, n: nat): seq<Action> {
    if n == 0 then [] else [Move(i, EvictMeta(true)), Move(i, EvictBody(true))] + EvictMoves(i, n - 1)
  }

  lemma OneVictim(cfg: Config, s: State, i: nat)
    requires i in s.ops && s.ops[i].pc.Evicting? && !s.ops[i].pc.bodyNext && s.ops[i].pc.victims != []
    ensures var victims := s.ops[i].pc.victims;
            var s' := Step(cfg, Step(cfg, s, Move(i, EvictMeta(true))), Move(i, EvictBody(true)));
            && s'.disk == s.disk - {Meta(victims[0])} - {Body(victims[0])}
            && s'.ops == s.ops[i := Op(s.ops[i].req, s.ops[i].started, Evicting(victims[1..], false))]
            && s'.origin == s.origin && s'.log == s.log && s'.now == s.now && s'.pid == s.pid
  {
  }

  lemma {:induction false} EvictsAll(cfg: Config, s: State, i: nat)
    requires i in s.ops && s.ops[i].pc.Evicting? && !s.ops[i].pc.bodyNext
    ensures var victims := s.ops[i].pc.victims;
            var s' := Run(cfg, s, EvictMoves(i, |victims|));
            && Shrunk(s.disk, s'.disk) && (forall f :: f in s'.disk <==> f in s.disk && (f.Other? || f.key !in victims))
            && s'.ops == s.ops[i := Op(s.ops[i].req, s.ops[i].started, Evicting([], false))]
            && s'.origin == s.origin && s'.log == s.log && s'.now == s.now && s'.pid == s.pid
    decreases |s.ops[i].pc.victims|
  {
    var victims := s.ops[i].pc.victims;
    if victims == [] {
      assert s.ops[i := s.ops[i]] == s.ops;
    } else {
      var moves := EvictMoves(i, |victims|);
      var s1 := Step(cfg, s, moves[0]);
      var s2 := Step(cfg, s1, moves[1]);
      assert moves[1..][0] == moves[1] && moves[1..][1..] == EvictMoves(i, |victims[1..]|);
      RunCons(cfg, s, moves);
      RunCons(cfg, s1, moves[1..]);
      OneVictim(cfg, s, i);
      hide Step;
      EvictsAll(cfg, s2, i);
      assert victims == [victims[0]] + victims[1..];
    }
  }

  /** The keys an eviction to `max` removes, oldest first. */
  function VictimsOf(items: seq<Item>, max: nat): seq<string> {
    var n := Drops(StableSort(items), ScanTotal(items), max);
    seq(n, k requires 0 <= k < n => StableSort(items)[k].key)
  }

  lemma VictimsAreDropped(items: seq<Item>, max: nat, key: string)
    ensures key in VictimsOf(items, max) <==> Dropped(items, max, key)
  {
    hide StableSort, Drops, ScanTotal;
    var (s, n) := (StableSort(items), Drops(StableSort(items), ScanTotal(items), max));
    if key in VictimsOf(items, max) {
      var k :| 0 <= k < n && VictimsOf(items, max)[k] == key;
      assert s[..n][k].key == key;
    }
    if Dropped(items, max, key) {
      var k :| 0 <= k < n && s[..n][k].key == key;
      assert VictimsOf(items, max)[k] == key;
    }
  }

  /** The file steps of one commit with its eviction. */
  function CommitActions(i: nat, length: nat, victims: seq<string>): seq<Action> {
    [Move(i, RenameBody(true)), Move(i, OpenMeta(true)), Move(i, SaveSome(length)), Move(i, RenameMeta(true, victims))]
    + EvictMoves(i, |victims|)
  }

  /** The directory between a commit's second rename and its eviction. */
  function Stored(cfg: Config, s: State, i: nat): Disk
    requires i in s.ops && s.ops[i].pc.Committing? && BodyTemp(cfg, s, s.ops[i], s.ops[i].pc.id) in s.disk
  {
    var op := s.ops[i];
    var (key, body) := (cfg.key(op.req), BodyTemp(cfg, s, op, op.pc.id));
    (s.disk - {body, MetaTemp(cfg, s, op, s.nextTemp)})
      [Body(key) := s.disk[body]][Meta(key) := cfg.codec.encode(op.pc.entry)]
  }

  lemma RenamesAlone(cfg: Config, s: State, i: nat, victims: seq<string>)
    requires i in s.ops && s.ops[i].pc.Committing? && BodyTemp(cfg, s, s.ops[i], s.ops[i].pc.id) in s.disk
    ensures var n := |cfg.codec.encode(s.ops[i].pc.entry)|;
            var s' := Run(cfg, s, CommitActions(i, n, victims)[..4]);
            && s'.disk == Stored(cfg, s, i)
            && s'.ops == s.ops[i := Op(s.ops[i].req, s.ops[i].started, Evicting(victims, false))] && s'.now == s.now
            && s'.log.served == s.log.served
  {
    hide Run;
    var op := s.ops[i];
    var body, meta := BodyTemp(cfg, s, op, op.pc.id), MetaTemp(cfg, s, op, s.nextTemp);
    var n := |cfg.codec.encode(op.pc.entry)|;
    var actions := CommitActions(i, n, victims)[..4];
    var s1 := Step(cfg, s, actions[0]);
    var s2 := Step(cfg, s1, actions[1]);
    var s3 := Step(cfg, s2, actions[2]);
    RunCons(cfg, s, actions);
    RunCons(cfg, s1, actions[1..]);
    RunCons(cfg, s2, actions[2..]);
    RunCons(cfg, s3, actions[3..]);
    SaveAlone(cfg, s1, i, victims);
    assert s1.disk - {meta} == (s.disk - {body, meta})[Body(cfg.key(op.req)) := s.disk[body]];
  }

  /** Undisturbed, a commit and its eviction end in the directory that `CacheDirectory.Commit` leaves. */
  lemma CommitAlone(cfg: Config, s: State, i: nat, listing: seq<FileName>, max: nat)
    requires i in s.ops && s.ops[i].pc.Committing? && BodyTemp(cfg, s, s.ops[i], s.ops[i].pc.id) in s.disk
    ensures var victims := VictimsOf(StoredItems(cfg.codec, Stored(cfg, s, i), listing), max);
            var s' := Run(cfg, s, CommitActions(i, |cfg.codec.encode(s.ops[i].pc.entry)|, victims));
            && EvictResult(cfg.codec, Stored(cfg, s, i), listing, max, s'.disk)
            && s'.ops == s.ops[i := Op(s.ops[i].req, s.ops[i].started, Evicting([], false))] && s'.now == s.now
            && s'.log.served == s.log.served
  {
    hide Run, Step, StoredItems, Stored, Dropped, VictimsOf;
    var items := StoredItems(cfg.codec, Stored(cfg, s, i), listing);
    var victims := VictimsOf(items, max);
    var actions := CommitActions(i, |cfg.codec.encode(s.ops[i].pc.entry)|, victims);
    RenamesAlone(cfg, s, i, victims);
    var renamed := Run(cfg, s, actions[..4]);
    EvictsAll(cfg, renamed, i);
    RunAppend(cfg, s, actions[..4], EvictMoves(i, |victims|));
    assert actions == actions[..4] + EvictMoves(i, |victims|);
    forall f: FileName | !f.Other? ensures f.key in victims <==> Dropped(items, max, f.key) {
      VictimsAreDropped(items, max, f.key);
    }
  }

  // ---------- A miss, its commit, and the next request ----------

  /** Request `i` ends, and request `j` comes `d` seconds later. */
  function Handover(i: nat, j: nat, req: Request, d: nat): seq<Action> {
    [Leave(i), Tick(d), Arrive(j, req)]
  }

  function NextRequest(i: nat, j: nat, req: Request, d: nat, length: nat): seq<Action> {
    Handover(i, j, req, d) + LookupActions(j, length)
  }

  lemma ArrivesAlone(cfg: Config, s: State, i: nat, j: nat, req: Request, d: nat)
    requires j !in s.ops - {i} && cfg.ttl(req.subject) > 0
    ensures Run(cfg, s, Handover(i, j, req, d)) == s.(ops := (s.ops - {i})[j := Op(req, s.now + d, Reading)], now := s.now + d)
  {
    var actions := Handover(i, j, req, d);
    RunCons(cfg, s, actions);
    RunTwo(cfg, Step(cfg, s, Leave(i)), Tick(d), Arrive(j, req));
    assert actions[1..] == [Tick(d), Arrive(j, req)];
  }

  lemma CommittingEntry(cfg: Config, s: State, i: nat)
    requires Inv(cfg, s) && i in s.ops && s.ops[i].pc.Committing? && BodyTemp(cfg, s, s.ops[i], s.ops[i].pc.id) in s.disk
    ensures var e := s.ops[i].pc.entry;
            e.version == CACHE_VERSION && e.bodyLen == |s.disk[BodyTemp(cfg, s, s.ops[i], s.ops[i].pc.id)]|
  {
    hide Inv, IdsOk, LogOk;
    InvOp(cfg, s, i);
  }

  lemma FoundAfterCommit(cfg: Config, s: State, i: nat, listing: seq<FileName>, max: nat, after: Disk)
    requires Sound(cfg) && Inv(cfg, s) && i in s.ops && s.ops[i].pc.Committing?
    requires BodyTemp(cfg, s, s.ops[i], s.ops[i].pc.id) in s.disk
    requires EvictResult(cfg.codec, Stored(cfg, s, i), listing, max, after)
    ensures var op := s.ops[i]; var key := cfg.key(op.req);
            if Dropped(StoredItems(cfg.codec, Stored(cfg, s, i), listing), max, key)
            then LookupFinds(cfg.codec, after, key) == None
            else LookupFinds(cfg.codec, after, key) == Some(op.pc.entry)
                 && after[Body(key)] == s.disk[BodyTemp(cfg, s, op, op.pc.id)]
  {
    hide Inv, Dropped, StoredItems;
    CommittingEntry(cfg, s, i);
    var entry := s.ops[i].pc.entry;
    assert cfg.codec.decode(cfg.codec.encode(entry)) == Some(entry);
  }

  /** A lookup found the entry, and saved it. */
  ghost predicate Saved(cfg: Config, s: State, i: nat, e: CacheEntry) {
    && i in s.ops && s.ops[i].pc.Found? && s.ops[i].pc.entry == e
    && Meta(cfg.key(s.ops[i].req)) in s.disk && s.disk[Meta(cfg.key(s.ops[i].req))] == cfg.codec.encode(e)
  }

  /** Commit, then look up `d` seconds later: the next request for the key finds the committed entry, with exactly the
      committed bytes, unless the commit's own eviction cut it; the entry is fresh exactly when it was not to be
      revalidated and has not expired by then. */
  lemma CommitThenLookUp(cfg: Config, s: State, i: nat, j: nat, listing: seq<FileName>, max: nat, d: nat)
    requires Sound(cfg) && Inv(cfg, s) && i in s.ops && j !in s.ops && s.ops[i].pc.Committing?
    requires BodyTemp(cfg, s, s.ops[i], s.ops[i].pc.id) in s.disk && cfg.ttl(s.ops[i].req.subject) > 0
    ensures var op := s.ops[i];
            var items := StoredItems(cfg.codec, Stored(cfg, s, i), listing);
            var commit := CommitActions(i, |cfg.codec.encode(op.pc.entry)|, VictimsOf(items, max));
            var next := NextRequest(i, j, op.req, d, |cfg.codec.encode(Accessed(op.pc.entry, s.now + d))|);
            var s' := Run(cfg, s, commit + next);
            && j in s'.ops && s'.ops - {j} == s.ops - {i} && s'.ops[j].req == op.req && s'.now == s.now + d
            && s'.log.served == s.log.served
            && if Dropped(items, max, cfg.key(op.req)) then s'.ops[j].pc.Missed?
               else
                 && Saved(cfg, s', j, Accessed(op.pc.entry, s.now + d))
                 && s'.ops[j].pc.seen.body == s.disk[BodyTemp(cfg, s, op, op.pc.id)]
                 && (IsFresh(s'.ops[j].pc.entry, s'.now) <==> IsFresh(op.pc.entry, s.now + d))
  {
    hide Inv, Run, Step, StoredItems, VictimsOf, Stored, Dropped, EvictResult;
    var op := s.ops[i];
    var items := StoredItems(cfg.codec, Stored(cfg, s, i), listing);
    var commit := CommitActions(i, |cfg.codec.encode(op.pc.entry)|, VictimsOf(items, max));
    var n := |cfg.codec.encode(Accessed(op.pc.entry, s.now + d))|;
    var s2 := Run(cfg, s, commit);
    CommitAlone(cfg, s, i, listing, max);
    FoundAfterCommit(cfg, s, i, listing, max, s2.disk);
    var s4 := Run(cfg, s2, Handover(i, j, op.req, d));
    ArrivesAlone(cfg, s2, i, j, op.req, d);
    RunKeeps(cfg, s, commit);
    RunKeeps(cfg, s2, Handover(i, j, op.req, d));
    RunAppend(cfg, s, commit, NextRequest(i, j, op.req, d, n));
    RunAppend(cfg, s2, Handover(i, j, op.req, d), LookupActions(j, n));
    LookupAlone(cfg, s4, j);
    if LookupFinds(cfg.codec, s4.disk, cfg.key(op.req)) == None {
      LookupLength(cfg, s4, j, n);
    }
  }

  /** A lookup that finds nothing saves nothing, whatever length it would write. */
  lemma LookupLength(cfg: Config, s: State, i: nat, n: nat)
    requires Inv(cfg, s) && i in s.ops && s.ops[i].pc.Reading? && LookupFinds(cfg.codec, s.disk, cfg.key(s.ops[i].req)) == None
    ensures Run(cfg, s, LookupActions(i, n)) == Run(cfg, s, LookupActions(i, |cfg.codec.encode(LookedUp(cfg, s, i))|))
  {
    hide Inv;
    InvFiles(cfg, s, cfg.key(s.ops[i].req));
    RunLookup(cfg, s, i, n);
    RunLookup(cfg, s, i, |cfg.codec.encode(LookedUp(cfg, s, i))|);
    hide Run, EntryOk;
  }

  /** The tee of a client that polls to the end, with no failed write. */
  function WholeTee(i: nat, out: seq<MeteredItem>): seq<Action> {
    TeeActions(i, out, _ => false, |out| + 1, true)
  }

  /** The run from a whole response to the lookup of the next request, `d` seconds after its end. */
  function StoreAndLookUp(cfg: Config, i: nat, j: nat, req: Request, out: seq<MeteredItem>, entry: CacheEntry,
                          victims: seq<string>, d: nat, at: nat): seq<Action>
  {
    WholeTee(i, out) + CommitActions(i, |cfg.codec.encode(entry)|, victims)
    + NextRequest(i, j, req, d, |cfg.codec.encode(Accessed(entry, at))|)
  }

  /** Store, then look up: when the upstream's body passes the cap, a tee that runs to its end commits what the
      client got, and unless the commit's own eviction cuts it, the next request for the key finds these bytes. */
  lemma StoreThenHit(cfg: Config, s: State, i: nat, j: nat, listing: seq<FileName>, max: nat, d: nat)
    requires Sound(cfg) && Inv(cfg, s) && Streaming(s, i) && AllData(s.ops[i].pc.transfer.Output())
    requires j !in s.ops && cfg.ttl(s.ops[i].req.subject) > 0
    ensures var out := s.ops[i].pc.transfer.Output(); var s1 := Run(cfg, s, WholeTee(i, out));
            i in s1.ops && s1.ops[i].pc.Committing? && BodyTemp(cfg, s1, s1.ops[i], s1.ops[i].pc.id) in s1.disk
    ensures var (draft, req, out) := (s.ops[i].pc.draft, s.ops[i].req, s.ops[i].pc.transfer.Output());
            var (body, s1) := (Received(ClientView(out)), Run(cfg, s, WholeTee(i, out)));
            var entry := Sized(draft, |body|);
            var items := StoredItems(cfg.codec, Stored(cfg, s1, i), listing);
            var s' := Run(cfg, s, StoreAndLookUp(cfg, i, j, req, out, entry, VictimsOf(items, max), d, s.now + d));
            && j in s'.ops && s'.ops - {j} == s.ops - {i} && s'.ops[j].req == req && s'.now == s.now + d
            && s'.log.served == s.log.served
            && if Dropped(items, max, cfg.key(req)) then s'.ops[j].pc.Missed?
               else
                 && Saved(cfg, s', j, Accessed(entry, s.now + d)) && s'.ops[j].pc.seen.body == body
                 && (IsFresh(s'.ops[j].pc.entry, s'.now) <==> IsFresh(draft, s.now + d))
  {
    hide Inv, Run, StoredItems, VictimsOf, Stored, Dropped, MeteredOutput, Received, ClientView;
    var req, out := s.ops[i].req, s.ops[i].pc.transfer.Output();
    var s1 := Run(cfg, s, WholeTee(i, out));
    TeeAlone(cfg, s, i, _ => false, |out| + 1, true);
    RunKeeps(cfg, s, WholeTee(i, out));
    assert j in s1.ops ==> j in s1.ops - {i};
    CommitThenLookUp(cfg, s1, i, j, listing, max, d);
    var items := StoredItems(cfg.codec, Stored(cfg, s1, i), listing);
    var commit := CommitActions(i, |cfg.codec.encode(s1.ops[i].pc.entry)|, VictimsOf(items, max));
    var next := NextRequest(i, j, req, d, |cfg.codec.encode(Accessed(s1.ops[i].pc.entry, s.now + d))|);
    RunAppend(cfg, s, WholeTee(i, out), commit + next);
    assert WholeTee(i, out) + (commit + next) == WholeTee(i, out) + commit + next;
  }

  /** And it is sent to that request, as a hit with these bytes, exactly when the entry was not cut, the response did
      not ask for revalidation, and fewer seconds than its lifetime have passed since it was dated. */
  lemma StoredThenServed(cfg: Config, s: State, i: nat, j: nat, listing: seq<FileName>, max: nat, d: nat)
    requires Sound(cfg) && Inv(cfg, s) && Streaming(s, i) && AllData(s.ops[i].pc.transfer.Output())
    requires j !in s.ops && cfg.ttl(s.ops[i].req.subject) > 0
    ensures var out := s.ops[i].pc.transfer.Output(); var s1 := Run(cfg, s, WholeTee(i, out));
            i in s1.ops && s1.ops[i].pc.Committing? && BodyTemp(cfg, s1, s1.ops[i], s1.ops[i].pc.id) in s1.disk
    ensures var (draft, req, out) := (s.ops[i].pc.draft, s.ops[i].req, s.ops[i].pc.transfer.Output());
            var (body, s1) := (Received(ClientView(out)), Run(cfg, s, WholeTee(i, out)));
            var entry := Sized(draft, |body|);
            var items := StoredItems(cfg.codec, Stored(cfg, s1, i), listing);
            var run := StoreAndLookUp(cfg, i, j, req, out, entry, VictimsOf(items, max), d, s.now + d);
            var s' := Run(cfg, s, run + [Move(j, Serve)]);
            if !Dropped(items, max, cfg.key(req)) && !draft.revalidate && s.now + d < draft.createdAt + draft.ttl
            then exists r :: r in s'.log.served && s'.log.served == s.log.served + {r} && r.req == req && r.at == s.now + d
                             && r.entry == Accessed(entry, s.now + d) && r.seen.body == body && !r.validated
            else s'.log.served == s.log.served
  {
    hide Inv, Run, StoredItems, VictimsOf, Stored, Dropped, MeteredOutput, Received, ClientView, StoreAndLookUp;
    StoreThenHit(cfg, s, i, j, listing, max, d);
    var draft, out := s.ops[i].pc.draft, s.ops[i].pc.transfer.Output();
    var s1 := Run(cfg, s, WholeTee(i, out));
    var items := StoredItems(cfg.codec, Stored(cfg, s1, i), listing);
    var entry := Sized(draft, |Received(ClientView(out))|);
    var run := StoreAndLookUp(cfg, i, j, s.ops[i].req, out, entry, VictimsOf(items, max), d, s.now + d);
    var s2 := Run(cfg, s, run);
    RunAppend(cfg, s, run, [Move(j, Serve)]);
    RunCons(cfg, s2, [Move(j, Serve)]);
    DraftedBefore(cfg, s, i);
    assert IsFresh(draft, s.now + d) <==> !draft.revalidate && s.now + d < draft.createdAt + draft.ttl;
    ServeAlone(cfg, s2, j);
    if s2.ops[j].pc.Found? && IsFresh(s2.ops[j].pc.entry, s2.now) {
      var pc := s2.ops[j].pc;
      var r := Served(s2.ops[j].req, s2.now, pc.entry, pc.origin, pc.seen, false);
      assert r in Run(cfg, s, run + [Move(j, Serve)]).log.served;
    }
  }

  lemma DraftedBefore(cfg: Config, s: State, i: nat)
    requires Inv(cfg, s) && i in s.ops && s.ops[i].pc.Writing?
    ensures s.ops[i].pc.draft.createdAt <= s.now
  {
    InvOp(cfg, s, i);
  }

  lemma ServeAlone(cfg: Config, s: State, i: nat)
    requires i in s.ops && (s.ops[i].pc.Found? || s.ops[i].pc.Missed?)
    ensures var (op, s') := (s.ops[i], Step(cfg, s, Move(i, Serve)));
            s'.log.served == s.log.served +
              if op.pc.Found? && IsFresh(op.pc.entry, s.now)
              then {Served(op.req, s.now, op.pc.entry, op.pc.origin, op.pc.seen, false)} else {}
  {
  }

  // ---------- A revalidation, and a copy given up ----------

  /** The steps after a 304: the new metadata is saved, then the response is sent. */
  function RefreshActions(i: nat, entry: CacheEntry, length: nat): seq<Action> {
    [Move(i, NotModified(entry)), Move(i, OpenMeta(true)), Move(i, SaveSome(length)), Move(i, RenameMeta(true, []))]
  }

  /** Undisturbed, a 304 leaves the refreshed metadata on disk, dated now, and the response is sent as validated, with
      the body the lookup measured. */
  lemma RefreshAlone(cfg: Config, s: State, i: nat, entry: CacheEntry)
    requires i in s.ops && s.ops[i].pc.Found? && RefreshOf(s.ops[i].pc.entry, entry, cfg.ttl(s.ops[i].req.subject), s.now)
    ensures var op := s.ops[i]; var event := Event(op.req, s.now);
            var s' := Run(cfg, s, RefreshActions(i, entry, |cfg.codec.encode(entry)|));
            && s'.ops == s.ops - {i} && s'.now == s.now && event in s'.log.events
            && s'.disk == (s.disk - {MetaTemp(cfg, s, op, s.nextTemp)})[Meta(cfg.key(op.req)) := cfg.codec.encode(entry)]
            && s'.log.served == s.log.served + {Served(op.req, s.now, entry, Origin(op.pc.origin.write, event), op.pc.seen, true)}
  {
    hide Run;
    var actions := RefreshActions(i, entry, |cfg.codec.encode(entry)|);
    var s1 := Step(cfg, s, actions[0]);
    var s2 := Step(cfg, s1, actions[1]);
    var s3 := Step(cfg, s2, actions[2]);
    RunCons(cfg, s, actions);
    RunCons(cfg, s1, actions[1..]);
    RunCons(cfg, s2, actions[2..]);
    RunCons(cfg, s3, actions[3..]);
    SaveAlone(cfg, s1, i, []);
    var s4 := Step(cfg, s3, actions[3]);
    assert s4.ops == s4.ops - {i};
    assert s1.ops - {i} == s.ops - {i};
  }

  /** A copy that is given up leaves no temporary file. */
  lemma DiscardAlone(cfg: Config, s: State, i: nat, ok: bool)
    requires i in s.ops && s.ops[i].pc.Writing? && !s.ops[i].pc.transfer.Drained()
    requires !ok || s.ops[i].pc.transfer.Output()[|s.ops[i].pc.transfer.client|].Failed?
    ensures var s' := Run(cfg, s, [Move(i, TeeNext(ok)), Move(i, RemoveTemp(true))]);
            s'.ops == s.ops - {i} && s'.disk == s.disk - {BodyTemp(cfg, s, s.ops[i], s.ops[i].pc.id)} && s'.log == s.log
  {
    hide MeteredOutput;
    RunTwo(cfg, s, Move(i, TeeNext(ok)), Move(i, RemoveTemp(true)));
  }

  /** A restart ends every request, starts the counter again, and leaves of the directory what is kept. */
  lemma RestartAlone(cfg: Config, s: State, pid: nat, kept: set<FileName>)
    ensures var s' := Step(cfg, s, Restart(pid, kept));
            && s'.ops == map[] && s'.nextTemp == 0 && s'.pid == pid && s'.now == s.now && s'.log == s.log
            && Shrunk(s.disk, s'.disk) && forall f :: f in s'.disk <==> f in s.disk && f in kept
  {
  }

  // ---------- Steps that fail ----------

  /** A failed read of the metadata is a miss, an unreadable body has the metadata dropped, and so on: what an operation
      goes on with when a file step fails, the files being as they were. */
  lemma FailedSteps(cfg: Config, s: State, i: nat)
    requires i in s.ops
    ensures var pc := s.ops[i].pc;
            && (pc.Reading? ==> Step(cfg, s, Move(i, ReadMeta(false))) == Goto(s, i, Missed))
            && (pc.Dropping? ==> Step(cfg, s, Move(i, DropMeta(false))) == Goto(s, i, Missed))
            && (pc.Stating? ==> Step(cfg, s, Move(i, StatBody(false))) == Goto(s, i, Dropping))
            && (pc.Committing? ==> Step(cfg, s, Move(i, RenameBody(false))) == Gone(s, i))
            && (pc.Removing? ==> Step(cfg, s, Move(i, RemoveTemp(false))) == Gone(s, i))
            && (pc.Saving? ==>
                  Step(cfg, s, Move(i, SaveFails)) ==
                  if pc.saver.ByLookup? then Goto(s, i, Found(pc.entry, pc.origin, pc.saver.seen)) else Gone(s, i))
            && (pc.Opening? ==>
                  Step(cfg, s, Move(i, OpenMeta(false))) ==
                  var counted := s.(nextTemp := s.nextTemp + 1);
                  if pc.saver.ByLookup? then Goto(counted, i, Found(pc.entry, pc.origin, pc.saver.seen)) else Gone(counted, i))
  {
  }
}
