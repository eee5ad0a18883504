/** Commits cut between their two renames: the one case in which metadata and body do not belong together (src/cache.rs). */
module CutCommits {
  import opened Prelude
  import opened Names
  import opened Entry
  import opened CacheDir
  import opened Meter
  import opened Tee
  import opened Machine
  import opened MachineSafety
  import opened Pairing
  import opened Undisturbed

  // ---------- Metadata belongs to a write whose commit got that far ----------

  /** The write a commit has in hand before its metadata is in place. */
  function Pending(pc: Pc): Option<nat> {
    match pc
    case Committing(_, _, o) => Some(o.write)
    case Opening(_, o, saver) => if saver.ByCommit? then Some(o.write) else None
    case Saving(_, o, saver, _) => if saver.ByCommit? then Some(o.write) else None
    case _ => None
  }

  /** The write whose metadata an operation has read. */
  function Read(pc: Pc): Option<nat> {
    match pc
    case Stating(_, o) => Some(o.write)
    case Found(_, o, _) => Some(o.write)
    case Opening(_, o, saver) => if saver.ByCommit? then None else Some(o.write)
    case Saving(_, o, saver, _) => if saver.ByCommit? then None else Some(o.write)
    case _ => None
  }

  ghost predicate PcIndexed(log: Log, pc: Pc) {
    && (Read(pc).Some? ==> Read(pc).value in log.indexed)
    && (Pending(pc).Some? ==> Pending(pc).value !in log.indexed && Pending(pc).value < log.nextWrite)
  }

  ghost predicate OwnWrites(ops: map<nat, Machine.Op>) {
    forall i, j :: i in ops && j in ops && i != j && Pending(ops[i].pc).Some? ==> Pending(ops[i].pc) != Pending(ops[j].pc)
  }

  ghost predicate IndexInv(s: State) {
    && (forall f :: f in s.origin && f.Meta? ==> s.origin[f].write in s.log.indexed)
    && (forall w :: w in s.log.indexed ==> w < s.log.nextWrite)
    && (forall i :: i in s.ops ==> PcIndexed(s.log, s.ops[i].pc))
    && OwnWrites(s.ops)
  }

  /** One operation moves on or goes, and indexes at most its own pending write. */
  ghost predicate OneMoves(s: State, i: nat, s': State) {
    && s'.ops - {i} == s.ops - {i}
    && s.log.nextWrite <= s'.log.nextWrite && s.log.indexed <= s'.log.indexed
    && (forall w :: w in s'.log.indexed ==> w in s.log.indexed || (i in s.ops && Pending(s.ops[i].pc) == Some(w)))
    && (forall f :: f in s'.origin && f.Meta? ==>
          (f in s.origin && s'.origin[f] == s.origin[f]) || s'.origin[f].write in s'.log.indexed)
    && (i in s'.ops ==> PcIndexed(s'.log, s'.ops[i].pc))
    && (i in s'.ops && Pending(s'.ops[i].pc).Some? ==>
          (i in s.ops && Pending(s'.ops[i].pc) == Pending(s.ops[i].pc)) || Pending(s'.ops[i].pc) == Some(s.log.nextWrite))
  }

  lemma OneMovesKeeps(s: State, i: nat, s': State)
    requires IndexInv(s) && OneMoves(s, i, s')
    ensures IndexInv(s')
  {
    hide PcIndexed, Pending, Read;
    assert i in s.ops && Pending(s.ops[i].pc).Some? ==> PcIndexed(s.log, s.ops[i].pc);
    forall j | j in s'.ops ensures PcIndexed(s'.log, s'.ops[j].pc) {
      if j != i {
        OtherStays(s, i, j, s');
      }
    }
    assert forall w :: w in s'.log.indexed ==> w < s'.log.nextWrite by {
      if i in s.ops && Pending(s.ops[i].pc).Some? {
        PendingIsOld(s, i);
      }
    }
    forall j, k | j in s'.ops && k in s'.ops && j != k && Pending(s'.ops[j].pc).Some?
      ensures Pending(s'.ops[j].pc) != Pending(s'.ops[k].pc)
    {
      if j == i {
        OtherStays(s, i, k, s');
        assert i in s.ops ==> Pending(s.ops[i].pc).None? || Pending(s.ops[i].pc) != Pending(s.ops[k].pc);
      } else {
        OtherStays(s, i, j, s');
        if k == i {
          assert i in s.ops ==> Pending(s.ops[j].pc) != Pending(s.ops[i].pc);
        } else {
          OtherStays(s, i, k, s');
        }
      }
    }
  }

  lemma PendingIsOld(s: State, i: nat)
    requires IndexInv(s) && i in s.ops && Pending(s.ops[i].pc).Some?
    ensures Pending(s.ops[i].pc).value < s.log.nextWrite
  {
    assert PcIndexed(s.log, s.ops[i].pc);
  }

  lemma OtherStays(s: State, i: nat, j: nat, s': State)
    requires IndexInv(s) && OneMoves(s, i, s') && j in s'.ops && j != i
    ensures j in s.ops && s'.ops[j] == s.ops[j] && PcIndexed(s'.log, s'.ops[j].pc)
    ensures Pending(s.ops[j].pc).Some? ==> Pending(s.ops[j].pc).value < s.log.nextWrite
  {
    assert j in s'.ops - {i};
  }

  lemma LookupMoves(cfg: Config, s: State, i: nat, move: Move)
    requires i in s.ops && PcIndexed(s.log, s.ops[i].pc) && (move.ReadMeta? || move.DropMeta? || move.StatBody?)
    requires forall f :: f in s.origin && f.Meta? ==> s.origin[f].write in s.log.indexed
    ensures OneMoves(s, i, Do(cfg, s, i, move))
  {
    hide MeteredOutput, IsFresh;
  }

  lemma SavingMoves(cfg: Config, s: State, i: nat, move: Move)
    requires i in s.ops && PcIndexed(s.log, s.ops[i].pc) && (move.OpenMeta? || move.SaveSome? || move.SaveFails?)
    requires forall f :: f in s.origin && f.Meta? ==> s.origin[f].write in s.log.indexed
    ensures OneMoves(s, i, Do(cfg, s, i, move))
  {
    hide MeteredOutput, IsFresh;
  }

  lemma HandlerMoves(cfg: Config, s: State, i: nat, move: Move)
    requires i in s.ops && PcIndexed(s.log, s.ops[i].pc) && (move.Serve? || move.NotModified? || move.Store?)
    requires forall f :: f in s.origin && f.Meta? ==> s.origin[f].write in s.log.indexed
    ensures OneMoves(s, i, Do(cfg, s, i, move))
  {
    hide MeteredOutput, IsFresh;
  }

  lemma WriterMoves(cfg: Config, s: State, i: nat, move: Move)
    requires i in s.ops && PcIndexed(s.log, s.ops[i].pc) && (move.TeeNext? || move.Drain? || move.Flush? || move.RemoveTemp?)
    requires forall w :: w in s.log.indexed ==> w < s.log.nextWrite
    requires forall f :: f in s.origin && f.Meta? ==> s.origin[f].write in s.log.indexed
    ensures OneMoves(s, i, Do(cfg, s, i, move))
  {
    hide MeteredOutput, IsFresh;
  }

  lemma RenameMoves(cfg: Config, s: State, i: nat, move: Move)
    requires i in s.ops && PcIndexed(s.log, s.ops[i].pc) && (move.RenameBody? || move.RenameMeta?)
    requires forall f :: f in s.origin && f.Meta? ==> s.origin[f].write in s.log.indexed
    ensures OneMoves(s, i, Do(cfg, s, i, move))
  {
    hide MeteredOutput, IsFresh;
  }

  lemma RemovalMoves(cfg: Config, s: State, i: nat, move: Move)
    requires i in s.ops && PcIndexed(s.log, s.ops[i].pc) && (move.EvictMeta? || move.EvictBody?)
    requires forall f :: f in s.origin && f.Meta? ==> s.origin[f].write in s.log.indexed
    ensures OneMoves(s, i, Do(cfg, s, i, move))
  {
    hide MeteredOutput, IsFresh;
  }

  lemma MoveIsOneMove(cfg: Config, s: State, i: nat, move: Move)
    requires IndexInv(s) && i in s.ops
    ensures OneMoves(s, i, Do(cfg, s, i, move))
  {
    hide Do, OneMoves;
    assert PcIndexed(s.log, s.ops[i].pc);
    hide PcIndexed;
    if move.ReadMeta? || move.DropMeta? || move.StatBody? {
      LookupMoves(cfg, s, i, move);
    } else if move.OpenMeta? || move.SaveSome? || move.SaveFails? {
      SavingMoves(cfg, s, i, move);
    } else if move.Serve? || move.NotModified? || move.Store? {
      HandlerMoves(cfg, s, i, move);
    } else if move.TeeNext? || move.Drain? || move.Flush? || move.RemoveTemp? {
      WriterMoves(cfg, s, i, move);
    } else if move.RenameBody? || move.RenameMeta? {
      RenameMoves(cfg, s, i, move);
    } else {
      RemovalMoves(cfg, s, i, move);
    }
  }

  lemma StepIndexes(cfg: Config, s: State, a: Action)
    requires IndexInv(s)
    ensures IndexInv(Step(cfg, s, a))
  {
    hide Do;
    match a
    case Move(i, move) =>
      if i in s.ops {
        MoveIsOneMove(cfg, s, i, move);
        OneMovesKeeps(s, i, Do(cfg, s, i, move));
      }
    case Arrive(i, _) => OneMovesKeeps(s, i, Step(cfg, s, a));
    case Leave(i) => OneMovesKeeps(s, i, Step(cfg, s, a));
    case Tick(_) =>
    case Restart(_, _) =>
  }

  lemma {:induction false} RunIndexes(cfg: Config, s: State, actions: seq<Action>)
    requires IndexInv(s)
    ensures IndexInv(Run(cfg, s, actions))
    decreases |actions|
  {
    hide Step, IndexInv;
    if actions != [] {
      StepIndexes(cfg, s, actions[0]);
      RunIndexes(cfg, Step(cfg, s, actions[0]), actions[1..]);
    }
  }

  /** Under all interleavings, metadata on disk is never of a write whose commit is still before its second rename. */
  lemma MetadataIsNotPending(cfg: Config, s: State, i: nat, key: string)
    requires Reachable(cfg, s) && i in s.ops && Pending(s.ops[i].pc).Some? && Meta(key) in s.origin
    ensures s.origin[Meta(key)].write != Pending(s.ops[i].pc).value
  {
    hide Run;
    var pid, now, actions :| s == Run(cfg, Start(pid, now), actions);
    RunIndexes(cfg, Start(pid, now), actions);
    assert PcIndexed(s.log, s.ops[i].pc);
  }

  // ---------- The exception is real ----------

  /** A commit cut after its body rename, by a dropped connection or a crash, and the next request for the key. */
  function CutAndLookUp(i: nat, j: nat, req: Request): seq<Action> {
    [Move(i, RenameBody(true)), Leave(i), Arrive(j, req), Move(j, ReadMeta(true)), Move(j, StatBody(true))]
  }

  lemma CutThenLookUp(cfg: Config, s: State, i: nat, j: nat)
    requires Sound(cfg) && Inv(cfg, s) && i in s.ops && j !in s.ops && s.ops[i].pc.Committing?
    requires cfg.ttl(s.ops[i].req.subject) > 0 && BodyTemp(cfg, s, s.ops[i], s.ops[i].pc.id) in s.disk
    requires Meta(cfg.key(s.ops[i].req)) in s.disk
    ensures Meta(cfg.key(s.ops[i].req)) in s.origin
    ensures var req := s.ops[i].req;
            var (m, w) := (s.origin[Meta(cfg.key(req))].write, s.ops[i].pc.origin.write);
            var s' := Run(cfg, s, CutAndLookUp(i, j, req));
            && m in s.log.writes && w in s.log.writes && j in s'.ops && s'.ops[j].req == req
            && cfg.codec.decode(s.disk[Meta(cfg.key(req))]).Some?
            && cfg.codec.decode(s.disk[Meta(cfg.key(req))]).value.bodyLen == |s.log.writes[m].body|
            && (if |s.log.writes[m].body| == |s.log.writes[w].body|
                then s'.ops[j].pc.Opening? && s'.ops[j].pc.origin.write == m && s'.ops[j].pc.saver == ByLookup(Seen(s.log.writes[w].body, w))
                     && s'.ops[j].pc.entry == Accessed(cfg.codec.decode(s.disk[Meta(cfg.key(req))]).value, s.now)
                else s'.ops[j].pc.Dropping?)
  {
    hide Inv, IsFresh, LogOk, IdsOk;
    var op := s.ops[i];
    var key := cfg.key(op.req);
    InvOp(cfg, s, i);
    InvFiles(cfg, s, key);
    var s1 := Step(cfg, s, Move(i, RenameBody(true)));
    var s2 := Step(cfg, s1, Leave(i));
    var s3 := Step(cfg, s2, Arrive(j, op.req));
    var s4 := Step(cfg, s3, Move(j, ReadMeta(true)));
    var s5 := Step(cfg, s4, Move(j, StatBody(true)));
    assert s4.ops[j].pc == Stating(cfg.codec.decode(s.disk[Meta(key)]).value, s.origin[Meta(key)]);
    RunFive(cfg, s, Move(i, RenameBody(true)), Leave(i), Arrive(j, op.req), Move(j, ReadMeta(true)), Move(j, StatBody(true)));
  }

  lemma RunFive(cfg: Config, s: State, a: Action, b: Action, c: Action, d: Action, e: Action)
    ensures Run(cfg, s, [a, b, c, d, e]) == Step(cfg, Step(cfg, Step(cfg, Step(cfg, Step(cfg, s, a), b), c), d), e)
  {
    hide Step;
    RunTwo(cfg, s, a, b);
    RunTwo(cfg, Run(cfg, s, [a, b]), c, d);
    assert [a, b, c, d, e] == [a, b] + ([c, d] + [e]);
    RunAppend(cfg, s, [a, b], [c, d] + [e]);
    RunAppend(cfg, Run(cfg, s, [a, b]), [c, d], [e]);
    RunCons(cfg, Run(cfg, Run(cfg, s, [a, b]), [c, d]), [e]);
  }

  /** In every reachable state: a commit of write `w`, cut right after its body rename over existing metadata, of
      write `m`, leaves two different writes in place. The next request for the key takes the mixed pair exactly
      when both bodies have the same length, and drops the metadata otherwise. */
  lemma CutCommitMixes(cfg: Config, s: State, i: nat, j: nat)
    requires Sound(cfg) && Reachable(cfg, s) && i in s.ops && j !in s.ops && s.ops[i].pc.Committing?
    requires cfg.ttl(s.ops[i].req.subject) > 0 && BodyTemp(cfg, s, s.ops[i], s.ops[i].pc.id) in s.disk
    requires Meta(cfg.key(s.ops[i].req)) in s.disk
    ensures Meta(cfg.key(s.ops[i].req)) in s.origin
    ensures var req := s.ops[i].req;
            var (m, w) := (s.origin[Meta(cfg.key(req))].write, s.ops[i].pc.origin.write);
            var s' := Run(cfg, s, CutAndLookUp(i, j, req));
            && m != w && m in s.log.writes && w in s.log.writes && j in s'.ops
            && (if |s.log.writes[m].body| == |s.log.writes[w].body|
                then s'.ops[j].pc.Opening? && s'.ops[j].pc.origin.write == m && s'.ops[j].pc.saver == ByLookup(Seen(s.log.writes[w].body, w))
                else s'.ops[j].pc.Dropping?)
  {
    hide Run, Reachable, Inv;
    ReachableIsSound(cfg, s);
    CutThenLookUp(cfg, s, i, j);
    MetadataIsNotPending(cfg, s, i, cfg.key(s.ops[i].req));
  }

  // ---------- A whole run that ends in the mixed pair ----------

  lemma {:induction false} SerialAppend(cfg: Config, s: State, a: seq<Action>, b: seq<Action>)
    requires SerialRun(cfg, s, a) && SerialRun(cfg, Run(cfg, s, a), b)
    ensures SerialRun(cfg, s, a + b)
    decreases |a|
  {
    hide Step, SerialStep;
    if a == [] {
      assert a + b == b;
    } else {
      assert (a + b)[1..] == a[1..] + b;
      SerialAppend(cfg, Step(cfg, s, a[0]), a[1..], b);
    }
  }

  ghost predicate NoArrival(actions: seq<Action>) {
    forall k :: 0 <= k < |actions| ==> !actions[k].Arrive?
  }

  lemma {:induction false} NoArrivalIsSerial(cfg: Config, s: State, actions: seq<Action>)
    requires NoArrival(actions)
    ensures SerialRun(cfg, s, actions)
    decreases |actions|
  {
    hide Step;
    if actions != [] {
      NoArrivalIsSerial(cfg, Step(cfg, s, actions[0]), actions[1..]);
    }
  }

  /** A request that arrives when the only other one has left. */
  lemma NextIsSerial(cfg: Config, s: State, i: nat, j: nat, req: Request, rest: seq<Action>)
    requires s.ops - {i} == map[] && NoArrival(rest)
    ensures SerialRun(cfg, s, [Leave(i), Arrive(j, req)] + rest)
  {
    var actions := [Leave(i), Arrive(j, req)] + rest;
    var s1 := Step(cfg, s, Leave(i));
    assert actions[1..][0] == Arrive(j, req) && actions[1..][1..] == rest;
    NoArrivalIsSerial(cfg, Step(cfg, s1, Arrive(j, req)), rest);
    assert SerialRun(cfg, s1, actions[1..]);
  }

  lemma HandoverIsSerial(cfg: Config, s: State, i: nat, j: nat, req: Request, d: nat, rest: seq<Action>)
    requires s.ops - {i} == map[] && NoArrival(rest)
    ensures SerialRun(cfg, s, Handover(i, j, req, d) + rest)
  {
    var actions := Handover(i, j, req, d) + rest;
    var s2 := Step(cfg, Step(cfg, s, Leave(i)), Tick(d));
    assert actions[1..][1..][0] == Arrive(j, req) && actions[1..][1..][1..] == rest && actions[1..][0] == Tick(d);
    NoArrivalIsSerial(cfg, Step(cfg, s2, Arrive(j, req)), rest);
    assert SerialRun(cfg, s2, actions[1..][1..]);
    assert SerialRun(cfg, Step(cfg, s, Leave(i)), actions[1..]);
  }

  function PlainDraft(now: nat): CacheEntry {
    CacheEntry(CACHE_VERSION, 200, [], 0, now, now, 1, false, None, None, [], [])
  }

  function BeginStore(i: nat, now: nat, cs: seq<Bytes>): Action {
    Move(i, Store(PlainDraft(now), Chunks(cs), 0, true))
  }

  lemma StoreBegins(cfg: Config, s: State, i: nat, cs: seq<Bytes>)
    requires i in s.ops && (s.ops[i].pc.Missed? || s.ops[i].pc.Found?) && cfg.ttl(s.ops[i].req.subject) > 0
    ensures var s' := Step(cfg, s, BeginStore(i, s.now, cs));
            && Streaming(s', i) && s'.ops[i].req == s.ops[i].req && s'.ops[i].pc.draft == PlainDraft(s.now)
            && s'.ops[i].pc.transfer.Output() == Datas(cs) && Received(ClientView(Datas(cs))) == Concat(cs)
            && s'.ops - {i} == s.ops - {i} && s'.now == s.now
            && s'.disk == s.disk[BodyTemp(cfg, s, s.ops[i], s.nextTemp) := []]
  {
    hide MeteredOutput;
    UncappedOutput(cs, 0, 0);
    ReceivedDatas(cs);
  }

  lemma ReachesOn(cfg: Config, s: State, actions: seq<Action>)
    requires Reachable(cfg, s)
    ensures Reachable(cfg, Run(cfg, s, actions))
  {
    hide Run;
    var pid, now, before :| s == Run(cfg, Start(pid, now), before);
    RunAppend(cfg, Start(pid, now), before, actions);
  }

  /** A first request: nothing is there, and its response is to be stored. */
  function FirstMiss(req: Request, now: nat, cs: seq<Bytes>): seq<Action> {
    [Arrive(0, req), Move(0, ReadMeta(true))] + [BeginStore(0, now, cs)]
  }

  /** The response of request `i` begun at `now` is stored, and the next request, `j`, looks it up. */
  function StoreAndFind(cfg: Config, i: nat, j: nat, req: Request, now: nat, cs: seq<Bytes>): seq<Action> {
    var entry := Sized(PlainDraft(now), |Concat(cs)|);
    WholeTee(i, Datas(cs)) + CommitActions(i, |cfg.codec.encode(entry)|, [])
    + NextRequest(i, j, req, 0, |cfg.codec.encode(Accessed(entry, now))|)
  }

  /** Request `i`, revalidating, gets a new response, whose commit is cut; request `j` comes next. */
  function StoreAndCut(i: nat, j: nat, req: Request, now: nat, cs: seq<Bytes>): seq<Action> {
    [BeginStore(i, now, cs)] + WholeTee(i, Datas(cs)) + CutAndLookUp(i, j, req)
  }

  lemma FirstMissRuns(cfg: Config, pid: nat, now: nat, req: Request, cs: seq<Bytes>)
    requires cfg.ttl(req.subject) > 0
    ensures SerialRun(cfg, Start(pid, now), FirstMiss(req, now, cs))
    ensures var s := Run(cfg, Start(pid, now), FirstMiss(req, now, cs));
            && Streaming(s, 0) && s.ops[0].req == req && s.ops[0].pc.draft == PlainDraft(now) && s.now == now
            && s.ops[0].pc.transfer.Output() == Datas(cs) && s.ops - {0} == map[]
  {
    hide Run, MeteredOutput, Received, ClientView;
    var start := Start(pid, now);
    var arrived := Run(cfg, start, [Arrive(0, req), Move(0, ReadMeta(true))]);
    RunTwo(cfg, start, Arrive(0, req), Move(0, ReadMeta(true)));
    assert arrived.ops == map[0 := Op(req, now, Missed)] && arrived.now == now;
    StoreBegins(cfg, arrived, 0, cs);
    RunAppend(cfg, start, [Arrive(0, req), Move(0, ReadMeta(true))], [BeginStore(0, now, cs)]);
    RunCons(cfg, arrived, [BeginStore(0, now, cs)]);
    NoArrivalIsSerial(cfg, Step(cfg, start, Arrive(0, req)), FirstMiss(req, now, cs)[1..]);
  }

  lemma {:induction false} TeeMovesDoNotArrive(i: nat, fails: nat -> bool, c: nat, n: nat)
    ensures NoArrival(TeeMoves(i, fails, c, n))
    decreases n
  {
    if n > 0 {
      TeeMovesDoNotArrive(i, fails, c + 1, n - 1);
    }
  }

  lemma StoringIsSerial(cfg: Config, s: State, i: nat, out: seq<MeteredItem>, length: nat)
    ensures NoArrival(WholeTee(i, out)) && NoArrival(CommitActions(i, length, []))
  {
    TeeMovesDoNotArrive(i, _ => false, 0, |out|);
  }

  lemma NothingListed(codec: Codec, d: Disk, key: string)
    ensures VictimsOf(StoredItems(codec, d, []), 0) == [] && !Dropped(StoredItems(codec, d, []), 0, key)
  {
    VictimsAreDropped([], 0, key);
  }

  lemma StoreAndFindRuns(cfg: Config, s: State, i: nat, j: nat, cs: seq<Bytes>)
    requires Sound(cfg) && Inv(cfg, s) && Streaming(s, i) && s.ops - {i} == map[] && i != j
    requires s.ops[i].pc.draft == PlainDraft(s.now) && s.ops[i].pc.transfer.Output() == Datas(cs)
    requires cfg.ttl(s.ops[i].req.subject) > 0
    ensures SerialRun(cfg, s, StoreAndFind(cfg, i, j, s.ops[i].req, s.now, cs))
    ensures var s' := Run(cfg, s, StoreAndFind(cfg, i, j, s.ops[i].req, s.now, cs));
            && Saved(cfg, s', j, Sized(PlainDraft(s.now), |Concat(cs)|)) && s'.ops[j].req == s.ops[i].req
            && s'.ops - {j} == map[] && s'.now == s.now
  {
    hide Run, Inv, MeteredOutput, Received, ClientView, StoredItems, VictimsOf, Dropped, Stored, Step;
    ReceivedDatas(cs);
    assert j !in s.ops - {i};
    StoreThenHit(cfg, s, i, j, [], 0, 0);
    var s1 := Run(cfg, s, WholeTee(i, Datas(cs)));
    NothingListed(cfg.codec, Stored(cfg, s1, i), cfg.key(s.ops[i].req));
    StoreAndFindIsSerial(cfg, s, i, j, cs);
  }

  lemma StoreAndFindIsSerial(cfg: Config, s: State, i: nat, j: nat, cs: seq<Bytes>)
    requires Streaming(s, i) && s.ops - {i} == map[] && s.ops[i].pc.transfer.Output() == Datas(cs)
    ensures SerialRun(cfg, s, StoreAndFind(cfg, i, j, s.ops[i].req, s.now, cs))
  {
    hide Run, MeteredOutput, Received, ClientView, Step;
    var entry := Sized(PlainDraft(s.now), |Concat(cs)|);
    var n := |cfg.codec.encode(entry)|;
    var tee, commit := WholeTee(i, Datas(cs)), CommitActions(i, n, []);
    StoringIsSerial(cfg, s, i, Datas(cs), n);
    NoArrivalIsSerial(cfg, s, tee + commit);
    TeeAlone(cfg, s, i, _ => false, |Datas(cs)| + 1, true);
    var s1 := Run(cfg, s, tee);
    RunAppend(cfg, s, tee, commit);
    OthersStay(cfg, s1, i, commit);
    HandoverIsSerial(cfg, Run(cfg, s, tee + commit), i, j, s.ops[i].req, 0, LookupActions(j, |cfg.codec.encode(Accessed(entry, s.now))|));
    SerialAppend(cfg, s, tee + commit, NextRequest(i, j, s.ops[i].req, 0, |cfg.codec.encode(Accessed(entry, s.now))|));
  }

  /** The two states have the same operations but for `i`. */
  ghost predicate Beside(s: State, i: nat, s': State) {
    s'.ops - {i} == s.ops - {i}
  }

  lemma ChangedOnlyAt(s: State, s': State, i: nat)
    requires i in s.ops
    ensures s'.ops == s.ops || s'.ops == s.ops - {i} || (i in s'.ops && s'.ops == s.ops[i := s'.ops[i]]) ==> Beside(s, i, s')
  {
  }

  lemma MoveIsOwn(cfg: Config, s: State, i: nat, move: Move)
    requires i in s.ops
    ensures Beside(s, i, Do(cfg, s, i, move))
  {
    if move.OpenMeta? || move.SaveSome? || move.SaveFails? || move.RenameMeta? || move.NotModified? || move.Serve? {
      SaveMoveIsOwn(cfg, s, i, move);
    } else {
      hide MeteredOutput, IsFresh, Beside;
      ChangedOnlyAt(s, Do(cfg, s, i, move), i);
    }
  }

  lemma SaveMoveIsOwn(cfg: Config, s: State, i: nat, move: Move)
    requires i in s.ops
    requires move.OpenMeta? || move.SaveSome? || move.SaveFails? || move.RenameMeta? || move.NotModified? || move.Serve?
    ensures Beside(s, i, Do(cfg, s, i, move))
  {
    hide IsFresh, Beside;
    ChangedOnlyAt(s, Do(cfg, s, i, move), i);
  }

  /** The moves of one operation leave the others alone. */
  lemma {:induction false} OthersStay(cfg: Config, s: State, i: nat, actions: seq<Action>)
    requires forall k :: 0 <= k < |actions| ==> actions[k].Move? && actions[k].i == i
    ensures Run(cfg, s, actions).ops - {i} == s.ops - {i}
    decreases |actions|
  {
    hide Do;
    if actions != [] {
      if i in s.ops {
        MoveIsOwn(cfg, s, i, actions[0].move);
      }
      OthersStay(cfg, Step(cfg, s, actions[0]), i, actions[1..]);
    }
  }

  lemma StoreAndCutRuns(cfg: Config, s: State, i: nat, j: nat, cs: seq<Bytes>, e: CacheEntry)
    requires Sound(cfg) && Reachable(cfg, s) && Saved(cfg, s, i, e) && s.ops - {i} == map[] && i != j
    requires cfg.ttl(s.ops[i].req.subject) > 0
    ensures SerialRun(cfg, s, StoreAndCut(i, j, s.ops[i].req, s.now, cs))
    ensures var s' := Run(cfg, s, StoreAndCut(i, j, s.ops[i].req, s.now, cs));
            && j in s'.ops
            && if e.bodyLen == |Concat(cs)|
               then
                 && s'.ops[j].pc.Opening? && s'.ops[j].pc.saver.ByLookup? && s'.ops[j].pc.saver.seen.body == Concat(cs)
                 && s'.ops[j].pc.origin.write != s'.ops[j].pc.saver.seen.write && s'.ops[j].pc.entry == Accessed(e, s.now)
               else s'.ops[j].pc.Dropping?
  {
    hide Run, MeteredOutput, Received, ClientView, Reachable, Inv;
    var req := s.ops[i].req;
    var begin, tee := BeginStore(i, s.now, cs), WholeTee(i, Datas(cs));
    var s1 := Run(cfg, s, [begin]);
    RunCons(cfg, s, [begin]);
    StoreBegins(cfg, s, i, cs);
    hide Step;
    var s2 := Run(cfg, s1, tee);
    TeeAlone(cfg, s1, i, _ => false, |Datas(cs)| + 1, true);
    RunAppend(cfg, s, [begin], tee);
    RunAppend(cfg, s, [begin] + tee, CutAndLookUp(i, j, req));
    ReachesOn(cfg, s, [begin] + tee);
    assert j !in s2.ops by { assert j in s2.ops ==> j in s2.ops - {i}; }
    CutCommitMixes(cfg, s2, i, j);
    ReachableIsSound(cfg, s2);
    CutThenLookUp(cfg, s2, i, j);
    StoringIsSerial(cfg, s, i, Datas(cs), 0);
    NoArrivalIsSerial(cfg, s, [begin] + tee);
    CutIsSerial(cfg, s2, i, j, req);
    SerialAppend(cfg, s, [begin] + tee, CutAndLookUp(i, j, req));
  }

  lemma CutIsSerial(cfg: Config, s: State, i: nat, j: nat, req: Request)
    requires s.ops - {i} == map[]
    ensures SerialRun(cfg, s, CutAndLookUp(i, j, req))
  {
    hide Step;
    var rest := [Move(j, ReadMeta(true)), Move(j, StatBody(true))];
    var cut := [Move(i, RenameBody(true))];
    NoArrivalIsSerial(cfg, s, cut);
    OthersStay(cfg, s, i, cut);
    NextIsSerial(cfg, Run(cfg, s, cut), i, j, req, rest);
    SerialAppend(cfg, s, cut, [Leave(i), Arrive(j, req)] + rest);
    assert cut + ([Leave(i), Arrive(j, req)] + rest) == CutAndLookUp(i, j, req);
  }

  /** Two responses for one request, the commit of the second cut, and a third request that goes through. */
  function MixingRun(cfg: Config, req: Request, now: nat, cs1: seq<Bytes>, cs2: seq<Bytes>): seq<Action> {
    FirstMiss(req, now, cs1) + StoreAndFind(cfg, 0, 1, req, now, cs1) + StoreAndCut(1, 2, req, now, cs2)
    + [Move(2, OpenMeta(true)), Move(2, SaveSome(|cfg.codec.encode(Sized(PlainDraft(now), |Concat(cs1)|))|)), Move(2, RenameMeta(true, []))]
  }

  /** The exception happens: for every request, and any two upstream bodies of one length, this serial run from an
      empty directory gives the third request metadata and body of different writes. With different lengths the
      same run ends in the metadata being dropped. */
  lemma MixedPairHappens(cfg: Config, pid: nat, now: nat, req: Request, cs1: seq<Bytes>, cs2: seq<Bytes>)
    requires Sound(cfg) && cfg.ttl(req.subject) > 0
    ensures SerialRun(cfg, Start(pid, now), MixingRun(cfg, req, now, cs1, cs2))
    ensures var s := Run(cfg, Start(pid, now), MixingRun(cfg, req, now, cs1, cs2));
            && 2 in s.ops
            && if |Concat(cs1)| == |Concat(cs2)|
               then s.ops[2].pc.Found? && s.ops[2].pc.origin.write != s.ops[2].pc.seen.write
                    && s.ops[2].pc.seen.body == Concat(cs2)
               else s.ops[2].pc.Dropping?
  {
    hide Run, Step, Inv, Reachable, MeteredOutput, SerialRun, Saved;
    var start, e := Start(pid, now), Sized(PlainDraft(now), |Concat(cs1)|);
    var a, b, c := FirstMiss(req, now, cs1), StoreAndFind(cfg, 0, 1, req, now, cs1), StoreAndCut(1, 2, req, now, cs2);
    var d := [Move(2, OpenMeta(true)), Move(2, SaveSome(|cfg.codec.encode(e)|)), Move(2, RenameMeta(true, []))];
    StartReaches(cfg, pid, now);
    FirstMissRuns(cfg, pid, now, req, cs1);
    var s1 := Run(cfg, start, a);
    ReachesOn(cfg, start, a);
    ReachableIsSound(cfg, s1);
    StoreAndFindRuns(cfg, s1, 0, 1, cs1);
    var s2 := Run(cfg, s1, b);
    ReachesOn(cfg, s1, b);
    SavedRequest(cfg, s2, 1, e);
    StoreAndCutRuns(cfg, s2, 1, 2, cs2, e);
    var s3 := Run(cfg, s2, c);
    SavingAfterCut(cfg, s3, 2, e);
    NoArrivalIsSerial(cfg, s3, d);
    RunAppend(cfg, start, a, b);
    RunAppend(cfg, start, a + b, c);
    RunAppend(cfg, start, a + b + c, d);
    SerialAppend(cfg, start, a, b);
    SerialAppend(cfg, start, a + b, c);
    SerialAppend(cfg, start, a + b + c, d);
  }

  lemma SavedRequest(cfg: Config, s: State, i: nat, e: CacheEntry)
    requires Saved(cfg, s, i, e)
    ensures i in s.ops
  {
  }

  lemma StartReaches(cfg: Config, pid: nat, now: nat)
    ensures Reachable(cfg, Start(pid, now))
  {
    assert Run(cfg, Start(pid, now), []) == Start(pid, now);
  }

  /** A lookup saves the entry it found; one that has to drop metadata has nothing to save. */
  lemma SavingAfterCut(cfg: Config, s: State, i: nat, e: CacheEntry)
    requires i in s.ops && (s.ops[i].pc.Dropping? || (s.ops[i].pc.Opening? && s.ops[i].pc.saver.ByLookup? && s.ops[i].pc.entry == e))
    ensures var s' := Run(cfg, s, [Move(i, OpenMeta(true)), Move(i, SaveSome(|cfg.codec.encode(e)|)), Move(i, RenameMeta(true, []))]);
            i in s'.ops && if s.ops[i].pc.Dropping? then s'.ops[i].pc.Dropping?
                           else s'.ops[i].pc == Found(e, s.ops[i].pc.origin, s.ops[i].pc.saver.seen)
  {
    hide Run;
    var a, b, c := Move(i, OpenMeta(true)), Move(i, SaveSome(|cfg.codec.encode(e)|)), Move(i, RenameMeta(true, []));
    assert [a, b, c] == [a, b] + [c];
    RunAppend(cfg, s, [a, b], [c]);
    RunTwo(cfg, s, a, b);
    RunCons(cfg, Run(cfg, s, [a, b]), [c]);
    if s.ops[i].pc.Opening? {
      SaveAlone(cfg, s, i, []);
    }
  }
}
