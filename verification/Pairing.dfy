/** Metadata and body of one entry belong together, when requests for a key come one at a time (src/cache.rs). */
module Pairing {
  import opened Prelude
  import opened Names
  import opened Entry
  import opened CacheDir
  import opened Machine
  import opened MachineSafety

  // ---------- One request at a time ----------

  /** An operation that only evicts no longer counts as a request in progress. */
  predicate Busy(op: Op) {
    !op.pc.Evicting?
  }

  /** No request arrives while another one for the same key is in progress. */
  ghost predicate SerialStep(s: State, a: Action) {
    a.Arrive? ==> forall j :: j in s.ops && s.ops[j].req == a.req ==> !Busy(s.ops[j])
  }

  ghost predicate SerialRun(cfg: Config, s: State, actions: seq<Action>)
    decreases |actions|
  {
    actions == [] || (SerialStep(s, actions[0]) && SerialRun(cfg, Step(cfg, s, actions[0]), actions[1..]))
  }

  // ---------- The invariant ----------

  /** The commit of write `b` renamed its body over metadata of write `m`, and never its own metadata. */
  ghost predicate CutOver(log: Log, m: nat, b: nat) {
    b in log.over && log.over[b] == Some(m) && b !in log.indexed
  }

  ghost predicate Paired(log: Log, m: nat, b: nat) {
    m == b || CutOver(log, m, b)
  }

  ghost predicate FilesPaired(s: State, key: string) {
    Meta(key) in s.disk && Body(key) in s.disk && Meta(key) in s.origin && Body(key) in s.origin ==>
      Paired(s.log, s.origin[Meta(key)].write, s.origin[Body(key)].write)
  }

  /** Metadata in hand, of write `m`, still belongs to the body on disk. */
  ghost predicate InHand(cfg: Config, s: State, req: Request, m: nat) {
    var body := Body(cfg.key(req));
    body in s.disk && body in s.origin ==> Paired(s.log, m, s.origin[body].write)
  }

  /** During a commit between its renames, the body on disk is its own. */
  ghost predicate OwnBody(cfg: Config, s: State, req: Request, w: nat) {
    var body := Body(cfg.key(req));
    w !in s.log.indexed && (body in s.disk && body in s.origin ==> s.origin[body].write == w)
  }

  ghost predicate SaverPaired(cfg: Config, s: State, req: Request, o: Origin, saver: Saver) {
    match saver
    case ByLookup(seen) => InHand(cfg, s, req, o.write) && SeenPaired(s, o, seen)
    case ByRefresh(_) => InHand(cfg, s, req, o.write)
    case ByCommit => OwnBody(cfg, s, req, o.write)
  }

  ghost predicate SeenPaired(s: State, o: Origin, seen: Seen) {
    seen.write in s.log.over && Paired(s.log, o.write, seen.write)
  }

  ghost predicate OpPaired(cfg: Config, s: State, op: Op) {
    match op.pc
    case Stating(_, o) => InHand(cfg, s, op.req, o.write)
    case Opening(_, o, saver) => SaverPaired(cfg, s, op.req, o, saver)
    case Saving(_, o, saver, _) => SaverPaired(cfg, s, op.req, o, saver)
    case Found(_, o, seen) => InHand(cfg, s, op.req, o.write) && SeenPaired(s, o, seen)
    case Committing(_, _, o) => o.write !in s.log.over && o.write !in s.log.indexed
    case _ => true
  }

  ghost predicate OneAtATime(s: State) {
    forall i, j :: i in s.ops && j in s.ops && i != j && Busy(s.ops[i]) && Busy(s.ops[j]) ==> s.ops[i].req != s.ops[j].req
  }

  /** Bodies on disk were renamed there; the bookkeeping names finished writes only. */
  ghost predicate Booked(s: State) {
    && (forall key :: Body(key) in s.disk && Body(key) in s.origin ==> s.origin[Body(key)].write in s.log.over)
    && s.log.over.Keys <= s.log.writes.Keys && s.log.indexed <= s.log.writes.Keys
  }

  ghost predicate PairInv(cfg: Config, s: State) {
    && (forall key :: FilesPaired(s, key))
    && (forall i :: i in s.ops ==> OpPaired(cfg, s, s.ops[i]))
    && OneAtATime(s) && Booked(s)
  }

  // ---------- Elementary changes ----------

  /** Files only go, temporary files may change, the log gains events and writes. */
  ghost predicate Quiet(s: State, s': State) {
    && s'.ops == s.ops && s'.origin == s.origin
    && s'.log.over == s.log.over && s'.log.indexed == s.log.indexed && s.log.writes.Keys <= s'.log.writes.Keys
    && forall f :: f in s'.disk && !f.Other? ==> f in s.disk
  }

  lemma OpStaysPaired(cfg: Config, s: State, s': State, op: Op)
    requires Quiet(s, s') && OpPaired(cfg, s, op)
    ensures OpPaired(cfg, s', op)
  {
  }

  lemma QuietKeeps(cfg: Config, s: State, s': State)
    requires PairInv(cfg, s) && Quiet(s, s')
    ensures PairInv(cfg, s')
  {
    forall key ensures FilesPaired(s', key) {
      assert FilesPaired(s, key);
    }
    forall i | i in s'.ops ensures OpPaired(cfg, s', s'.ops[i]) {
      OpStaysPaired(cfg, s, s', s.ops[i]);
    }
  }

  lemma GotoPairs(cfg: Config, s: State, i: nat, pc: Pc)
    requires PairInv(cfg, s) && i in s.ops && OpPaired(cfg, s, s.ops[i].(pc := pc))
    requires pc.Evicting? || Busy(s.ops[i])
    ensures PairInv(cfg, Goto(s, i, pc))
  {
    hide Paired, InHand, OwnBody;
    var s' := Goto(s, i, pc);
    forall key ensures FilesPaired(s', key) {
      assert FilesPaired(s, key);
    }
    forall j | j in s'.ops ensures OpPaired(cfg, s', s'.ops[j]) {
      SameFilesSamePairs(cfg, s, s', s'.ops[j]);
    }
  }

  lemma SameFilesSamePairs(cfg: Config, s: State, s': State, op: Op)
    requires s'.disk == s.disk && s'.origin == s.origin && s'.log == s.log
    ensures OpPaired(cfg, s, op) <==> OpPaired(cfg, s', op)
  {
    hide Paired;
  }

  lemma GonePairs(cfg: Config, s: State, i: nat)
    requires PairInv(cfg, s)
    ensures PairInv(cfg, Gone(s, i))
  {
    hide Paired, InHand, OwnBody;
    var s' := Gone(s, i);
    forall key ensures FilesPaired(s', key) {
      assert FilesPaired(s, key);
    }
    forall j | j in s'.ops ensures OpPaired(cfg, s', s'.ops[j]) {
      SameFilesSamePairs(cfg, s, s', s.ops[j]);
    }
  }

  lemma PairOp(cfg: Config, s: State, i: nat)
    requires PairInv(cfg, s) && i in s.ops
    ensures OpPaired(cfg, s, s.ops[i]) && FilesPaired(s, cfg.key(s.ops[i].req)) && Booked(s)
  {
  }

  /** New metadata that belongs to the body on disk. */
  lemma PutMetaPairs(cfg: Config, s: State, key: string, data: Bytes, o: Origin)
    requires PairInv(cfg, s)
    requires Body(key) in s.disk && Body(key) in s.origin ==> Paired(s.log, o.write, s.origin[Body(key)].write)
    ensures PairInv(cfg, s.(disk := s.disk[Meta(key) := data], origin := s.origin[Meta(key) := o]))
  {
    hide Paired;
    var s' := s.(disk := s.disk[Meta(key) := data], origin := s.origin[Meta(key) := o]);
    forall k ensures FilesPaired(s', k) {
      assert FilesPaired(s, k);
    }
    forall j | j in s'.ops ensures OpPaired(cfg, s', s'.ops[j]) {
      assert OpPaired(cfg, s, s.ops[j]);
    }
  }

  /** The key of a write in hand. */
  lemma WriteInHand(cfg: Config, s: State, i: nat, w: nat)
    requires Inv(cfg, s) && i in s.ops
    requires match s.ops[i].pc
             case Committing(_, _, o) => o.write == w
             case Opening(_, o, saver) => o.write == w || (saver.ByLookup? && saver.seen.write == w)
             case Saving(_, o, saver, _) => o.write == w || (saver.ByLookup? && saver.seen.write == w)
             case Found(_, _, seen) => seen.write == w
             case _ => false
    ensures w in s.log.writes && cfg.key(s.log.writes[w].req) == cfg.key(s.ops[i].req)
  {
    InvOp(cfg, s, i);
  }

  lemma BodyWrite(cfg: Config, s: State, key: string)
    requires Inv(cfg, s) && Body(key) in s.disk && Body(key) in s.origin
    ensures var w := s.origin[Body(key)].write; w in s.log.writes && cfg.key(s.log.writes[w].req) == key
  {
    InvFiles(cfg, s, key);
  }

  /** Another busy operation has nothing to do with the writes of this one's key. */
  lemma OtherKey(cfg: Config, s: State, i: nat, j: nat)
    requires Sound(cfg) && OneAtATime(s) && i in s.ops && j in s.ops && i != j && Busy(s.ops[i]) && Busy(s.ops[j])
    ensures cfg.key(s.ops[i].req) != cfg.key(s.ops[j].req)
  {
  }

  /** A write becomes indexed when its own metadata and body are both in place. */
  lemma IndexPairs(cfg: Config, s: State, i: nat, w: nat, victims: seq<string>)
    requires Sound(cfg) && Inv(cfg, s) && PairInv(cfg, s) && i in s.ops && s.ops[i].pc.Saving?
    requires s.ops[i].pc.saver.ByCommit? && s.ops[i].pc.origin.write == w
    requires var meta := Meta(cfg.key(s.ops[i].req)); meta in s.origin && s.origin[meta].write == w
    ensures PairInv(cfg, Goto(s.(log := s.log.(indexed := s.log.indexed + {w})), i, Evicting(victims, false)))
  {
    hide Inv;
    var key := cfg.key(s.ops[i].req);
    var s' := Goto(s.(log := s.log.(indexed := s.log.indexed + {w})), i, Evicting(victims, false));
    WriteInHand(cfg, s, i, w);
    PairOp(cfg, s, i);
    forall k ensures FilesPaired(s', k) {
      assert FilesPaired(s, k);
      if Body(k) in s.disk && Body(k) in s.origin {
        BodyWrite(cfg, s, k);
      }
    }
    forall j | j in s'.ops ensures OpPaired(cfg, s', s'.ops[j]) {
      if j != i && Busy(s.ops[j]) {
        IndexLeavesOther(cfg, s, i, j, w, s');
      }
    }
  }

  lemma IndexLeavesOther(cfg: Config, s: State, i: nat, j: nat, w: nat, s': State)
    requires Sound(cfg) && Inv(cfg, s) && PairInv(cfg, s) && i in s.ops && j in s.ops && i != j
    requires Busy(s.ops[i]) && Busy(s.ops[j])
    requires w in s.log.writes && cfg.key(s.log.writes[w].req) == cfg.key(s.ops[i].req)
    requires s'.disk == s.disk && s'.origin == s.origin && s'.log == s.log.(indexed := s.log.indexed + {w})
    ensures OpPaired(cfg, s', s.ops[j])
  {
    hide Inv;
    var op := s.ops[j];
    PairOp(cfg, s, j);
    OtherKey(cfg, s, i, j);
    if Body(cfg.key(op.req)) in s.disk && Body(cfg.key(op.req)) in s.origin {
      BodyWrite(cfg, s, cfg.key(op.req));
    }
    match op.pc
    case Committing(_, _, o) => WriteInHand(cfg, s, j, o.write);
    case Opening(_, o, saver) =>
      WriteInHand(cfg, s, j, o.write);
      if saver.ByLookup? {
        WriteInHand(cfg, s, j, saver.seen.write);
      }
    case Saving(_, o, saver, _) =>
      WriteInHand(cfg, s, j, o.write);
      if saver.ByLookup? {
        WriteInHand(cfg, s, j, saver.seen.write);
      }
    case Found(_, _, seen) => WriteInHand(cfg, s, j, seen.write);
    case _ =>
  }

  lemma RenameBodyFiles(cfg: Config, s: State, i: nat, s': State)
    requires PairInv(cfg, s) && i in s.ops && s.ops[i].pc.Committing?
    requires BodyTemp(cfg, s, s.ops[i], s.ops[i].pc.id) in s.disk && s' == DoRenameBody(cfg, s, i, true)
    ensures forall k :: FilesPaired(s', k)
  {
    PairOp(cfg, s, i);
    forall k ensures FilesPaired(s', k) {
      assert FilesPaired(s, k);
    }
  }

  lemma RenameBodyBooked(cfg: Config, s: State, i: nat, s': State)
    requires Inv(cfg, s) && PairInv(cfg, s) && i in s.ops && s.ops[i].pc.Committing?
    requires BodyTemp(cfg, s, s.ops[i], s.ops[i].pc.id) in s.disk && s' == DoRenameBody(cfg, s, i, true)
    ensures OneAtATime(s') && Booked(s')
    ensures OpPaired(cfg, s', s'.ops[i])
  {
    hide Inv, FilesPaired;
    WriteInHand(cfg, s, i, s.ops[i].pc.origin.write);
    PairOp(cfg, s, i);
  }

  /** A commit's body rename, over whatever metadata is there. */
  lemma RenameBodyPairs(cfg: Config, s: State, i: nat, ok: bool)
    requires Sound(cfg) && Inv(cfg, s) && PairInv(cfg, s) && i in s.ops
    ensures PairInv(cfg, DoRenameBody(cfg, s, i, ok))
  {
    hide Inv, FilesPaired, InHand;
    var op := s.ops[i];
    var s' := DoRenameBody(cfg, s, i, ok);
    PairOp(cfg, s, i);
    if op.pc.Committing? {
      var Committing(id, entry, o) := op.pc;
      if !ok || BodyTemp(cfg, s, op, id) !in s.disk {
        GonePairs(cfg, s, i);
      } else {
        WriteInHand(cfg, s, i, o.write);
        RenameBodyFiles(cfg, s, i, s');
        RenameBodyBooked(cfg, s, i, s');
        hide OneAtATime, Booked;
        forall j | j in s'.ops && j != i ensures OpPaired(cfg, s', s'.ops[j]) {
          if Busy(s.ops[j]) {
            RenameLeavesOther(cfg, s, i, j, s');
          }
        }
        hide OpPaired;
      }
    }
  }

  lemma RenameLeavesOther(cfg: Config, s: State, i: nat, j: nat, s': State)
    requires Sound(cfg) && Inv(cfg, s) && PairInv(cfg, s) && i in s.ops && j in s.ops && i != j
    requires s.ops[i].pc.Committing? && Busy(s.ops[j])
    requires var (w, body) := (s.ops[i].pc.origin.write, Body(cfg.key(s.ops[i].req)));
             && (forall f :: f in s'.disk && !f.Other? && f != body ==> f in s.disk)
             && (forall f :: f in s'.origin && f != body ==> f in s.origin && s'.origin[f] == s.origin[f])
             && (forall b :: b in s.log.over ==> b in s'.log.over && s'.log.over[b] == s.log.over[b])
             && s'.log.over.Keys == s.log.over.Keys + {w} && s'.log.indexed == s.log.indexed
    ensures OpPaired(cfg, s', s.ops[j])
  {
    hide Inv, OneAtATime, Booked, FilesPaired;
    var op, w := s.ops[j], s.ops[i].pc.origin.write;
    PairOp(cfg, s, j);
    OtherKey(cfg, s, i, j);
    WriteInHand(cfg, s, i, w);
    if op.pc.Committing? {
      WriteInHand(cfg, s, j, op.pc.origin.write);
    }
  }

  // ---------- Every serial step keeps the invariant ----------

  lemma LookupPairs(cfg: Config, s: State, i: nat, move: Move)
    requires Inv(cfg, s) && PairInv(cfg, s) && i in s.ops && (move.ReadMeta? || move.DropMeta? || move.StatBody?)
    ensures PairInv(cfg, Do(cfg, s, i, move))
  {
    hide Inv, PairInv;
    var s' := Do(cfg, s, i, move);
    PairOp(cfg, s, i);
    if s' != s {
      var shrunk := s.(disk := s'.disk);
      QuietKeeps(cfg, s, shrunk);
      GotoPairs(cfg, shrunk, i, s'.ops[i].pc);
    }
  }

  lemma SaveFailedPairs(cfg: Config, s: State, i: nat, e: CacheEntry, o: Origin, saver: Saver)
    requires PairInv(cfg, s) && i in s.ops && SaverPaired(cfg, s, s.ops[i].req, o, saver) && Busy(s.ops[i])
    ensures PairInv(cfg, SaveFailed(s, i, e, o, saver))
  {
    hide PairInv;
    if saver.ByLookup? {
      GotoPairs(cfg, s, i, Found(e, o, saver.seen));
    } else {
      GonePairs(cfg, s, i);
    }
  }

  lemma SavePairs(cfg: Config, s: State, i: nat, move: Move)
    requires PairInv(cfg, s) && i in s.ops && (move.OpenMeta? || move.SaveSome? || move.SaveFails?)
    ensures PairInv(cfg, Do(cfg, s, i, move))
  {
    hide PairInv;
    var op := s.ops[i];
    var s' := Do(cfg, s, i, move);
    PairOp(cfg, s, i);
    if s' != s {
      var written := s.(disk := s'.disk, nextTemp := s'.nextTemp);
      QuietKeeps(cfg, s, written);
      OpStaysPaired(cfg, s, written, op);
      if move.OpenMeta? && move.ok {
        GotoPairs(cfg, written, i, s'.ops[i].pc);
      } else if !move.SaveSome? {
        SaveFailedPairs(cfg, written, i, op.pc.entry, op.pc.origin, op.pc.saver);
      }
    }
  }

  lemma RenameMetaPairs(cfg: Config, s: State, i: nat, ok: bool, victims: seq<string>)
    requires Sound(cfg) && Inv(cfg, s) && PairInv(cfg, s) && i in s.ops
    ensures PairInv(cfg, DoRenameMeta(cfg, s, i, ok, victims))
  {
    hide Inv, PairInv;
    var op := s.ops[i];
    var s' := DoRenameMeta(cfg, s, i, ok, victims);
    PairOp(cfg, s, i);
    if op.pc.Saving? && s' != s {
      var Saving(e, o, saver, id) := op.pc;
      if !ok {
        SaveFailedPairs(cfg, s, i, e, o, saver);
      } else {
        var temp, key := MetaTemp(cfg, s, op, id), cfg.key(op.req);
        var without := s.(disk := s.disk - {temp});
        var saved := s.(disk := (s.disk - {temp})[Meta(key) := s.disk[temp]], origin := s.origin[Meta(key) := o]);
        QuietKeeps(cfg, s, without);
        PutMetaPairs(cfg, without, key, s.disk[temp], o);
        PairOp(cfg, saved, i);
        match saver
        case ByLookup(seen) => GotoPairs(cfg, saved, i, Found(e, o, seen));
        case ByRefresh(seen) =>
          var recorded := Recorded(saved, Served(op.req, s.now, e, o, seen, true));
          QuietKeeps(cfg, saved, recorded);
          GonePairs(cfg, recorded, i);
        case ByCommit =>
          SavedKeepsInv(cfg, s, i);
          IndexPairs(cfg, saved, i, o.write, victims);
      }
    }
  }

  /** The safety invariant between the metadata rename and what follows it. */
  lemma SavedKeepsInv(cfg: Config, s: State, i: nat)
    requires Sound(cfg) && Inv(cfg, s) && i in s.ops && s.ops[i].pc.Saving?
    requires var pc := s.ops[i].pc; var temp := MetaTemp(cfg, s, s.ops[i], pc.id);
             temp in s.disk && s.disk[temp] == cfg.codec.encode(pc.entry)
    ensures var (pc, key) := (s.ops[i].pc, cfg.key(s.ops[i].req)); var temp := MetaTemp(cfg, s, s.ops[i], pc.id);
            Inv(cfg, s.(disk := (s.disk - {temp})[Meta(key) := s.disk[temp]], origin := s.origin[Meta(key) := pc.origin]))
  {
    hide Inv;
    var pc, key := s.ops[i].pc, cfg.key(s.ops[i].req);
    var temp := MetaTemp(cfg, s, s.ops[i], pc.id);
    InvOp(cfg, s, i);
    ShrinkKeeps(cfg, s, s.disk - {temp});
    PutMetaKeeps(cfg, s.(disk := s.disk - {temp}), key, pc.entry, pc.origin);
  }

  lemma HandlerPairs(cfg: Config, s: State, i: nat, move: Move)
    requires PairInv(cfg, s) && i in s.ops && (move.Serve? || move.NotModified? || move.Store?)
    ensures PairInv(cfg, Do(cfg, s, i, move))
  {
    hide PairInv;
    var s' := Do(cfg, s, i, move);
    PairOp(cfg, s, i);
    if s' != s {
      var between := s.(disk := s'.disk, nextTemp := s'.nextTemp, log := s'.log);
      QuietKeeps(cfg, s, between);
      OpStaysPaired(cfg, s, between, s.ops[i]);
      if i in s'.ops {
        GotoPairs(cfg, between, i, s'.ops[i].pc);
      } else {
        GonePairs(cfg, between, i);
      }
    }
  }

  lemma WriterPairs(cfg: Config, s: State, i: nat, move: Move)
    requires PairInv(cfg, s) && i in s.ops && (move.TeeNext? || move.Drain? || move.RemoveTemp?)
    ensures PairInv(cfg, Do(cfg, s, i, move))
  {
    hide PairInv;
    var s' := Do(cfg, s, i, move);
    if s' != s {
      var between := s.(disk := s'.disk);
      QuietKeeps(cfg, s, between);
      if i !in s'.ops {
        GonePairs(cfg, between, i);
      } else if s'.ops[i] != s.ops[i] {
        GotoPairs(cfg, between, i, s'.ops[i].pc);
      }
    }
  }

  lemma FlushPairs(cfg: Config, s: State, i: nat)
    requires Inv(cfg, s) && PairInv(cfg, s) && i in s.ops
    ensures PairInv(cfg, DoFlush(cfg, s, i))
  {
    hide Inv, PairInv;
    var s' := DoFlush(cfg, s, i);
    if s' != s {
      InvOp(cfg, s, i);
      PairOp(cfg, s, i);
      var between := s.(log := s'.log);
      QuietKeeps(cfg, s, between);
      GotoPairs(cfg, between, i, s'.ops[i].pc);
    }
  }

  lemma EvictPairs(cfg: Config, s: State, i: nat, move: Move)
    requires PairInv(cfg, s) && i in s.ops && (move.EvictMeta? || move.EvictBody?)
    ensures PairInv(cfg, Do(cfg, s, i, move))
  {
    hide PairInv;
    var s' := Do(cfg, s, i, move);
    if s' != s {
      var shrunk := s.(disk := s'.disk);
      QuietKeeps(cfg, s, shrunk);
      GotoPairs(cfg, shrunk, i, s'.ops[i].pc);
    }
  }

  lemma MovePairs(cfg: Config, s: State, i: nat, move: Move)
    requires Sound(cfg) && Inv(cfg, s) && PairInv(cfg, s) && i in s.ops
    ensures PairInv(cfg, Do(cfg, s, i, move))
  {
    hide Inv, PairInv;
    match move
    case ReadMeta(_) => LookupPairs(cfg, s, i, move);
    case DropMeta(_) => LookupPairs(cfg, s, i, move);
    case StatBody(_) => LookupPairs(cfg, s, i, move);
    case OpenMeta(_) => SavePairs(cfg, s, i, move);
    case SaveSome(_) => SavePairs(cfg, s, i, move);
    case SaveFails => SavePairs(cfg, s, i, move);
    case RenameMeta(ok, victims) => RenameMetaPairs(cfg, s, i, ok, victims);
    case Serve => HandlerPairs(cfg, s, i, move);
    case NotModified(_) => HandlerPairs(cfg, s, i, move);
    case Store(_, _, _, _) => HandlerPairs(cfg, s, i, move);
    case Flush => FlushPairs(cfg, s, i);
    case RenameBody(ok) => RenameBodyPairs(cfg, s, i, ok);
    case EvictMeta(_) => EvictPairs(cfg, s, i, move);
    case EvictBody(_) => EvictPairs(cfg, s, i, move);
    case _ => WriterPairs(cfg, s, i, move);
  }

  lemma ArrivePairs(cfg: Config, s: State, i: nat, req: Request)
    requires PairInv(cfg, s) && i !in s.ops && SerialStep(s, Arrive(i, req))
    ensures PairInv(cfg, s.(ops := s.ops[i := Op(req, s.now, Reading)]))
  {
    hide Paired, InHand, OwnBody;
    var s' := s.(ops := s.ops[i := Op(req, s.now, Reading)]);
    forall key ensures FilesPaired(s', key) {
      assert FilesPaired(s, key);
    }
    forall j | j in s'.ops ensures OpPaired(cfg, s', s'.ops[j]) {
      if j != i {
        SameFilesSamePairs(cfg, s, s', s.ops[j]);
      }
    }
  }

  lemma RestartPairs(cfg: Config, s: State, pid: nat, kept: set<FileName>)
    requires PairInv(cfg, s)
    ensures PairInv(cfg, Step(cfg, s, Restart(pid, kept)))
  {
    hide Paired;
    var s' := Step(cfg, s, Restart(pid, kept));
    forall key ensures FilesPaired(s', key) {
      assert FilesPaired(s, key);
    }
  }

  lemma StepPairs(cfg: Config, s: State, a: Action)
    requires Sound(cfg) && Inv(cfg, s) && PairInv(cfg, s) && SerialStep(s, a)
    ensures PairInv(cfg, Step(cfg, s, a))
  {
    hide Inv, PairInv, Do;
    match a
    case Move(i, move) =>
      if i in s.ops {
        MovePairs(cfg, s, i, move);
      }
    case Arrive(i, req) =>
      if i !in s.ops {
        ArrivePairs(cfg, s, i, req);
      }
    case Leave(i) => GonePairs(cfg, s, i);
    case Tick(d) => QuietKeeps(cfg, s, s.(now := s.now + d));
    case Restart(pid, kept) => RestartPairs(cfg, s, pid, kept);
  }

  lemma {:induction false} SerialRunPairs(cfg: Config, s: State, actions: seq<Action>)
    requires Sound(cfg) && Inv(cfg, s) && PairInv(cfg, s) && SerialRun(cfg, s, actions)
    ensures Inv(cfg, Run(cfg, s, actions)) && PairInv(cfg, Run(cfg, s, actions))
    decreases |actions|
  {
    hide Inv, PairInv, Step, SerialStep;
    if actions != [] {
      StepKeeps(cfg, s, actions[0]);
      StepPairs(cfg, s, actions[0]);
      SerialRunPairs(cfg, Step(cfg, s, actions[0]), actions[1..]);
    }
  }

  /** With one request at a time for each key, crashes, failures and foreign evictions allowed: a lookup's
      metadata and body come from the same write, except after a commit that was cut between its two
      renames over existing metadata of exactly the same body length. */
  lemma LookupsArePaired(cfg: Config, pid: nat, now: nat, actions: seq<Action>, i: nat)
    requires Sound(cfg) && SerialRun(cfg, Start(pid, now), actions)
    requires var s := Run(cfg, Start(pid, now), actions); i in s.ops && s.ops[i].pc.Found?
    ensures var s := Run(cfg, Start(pid, now), actions);
            var (meta, body) := (s.ops[i].pc.origin.write, s.ops[i].pc.seen.write);
            && meta in s.log.writes && body in s.log.writes
            && (meta == body || (CutOver(s.log, meta, body) && |s.log.writes[meta].body| == |s.log.writes[body].body|))
  {
    hide Inv, PairInv, Run, SerialRun;
    var s := Run(cfg, Start(pid, now), actions);
    StartIsSound(cfg, pid, now);
    assert PairInv(cfg, Start(pid, now)) by { StartIsPaired(cfg, pid, now); }
    SerialRunPairs(cfg, Start(pid, now), actions);
    InvOp(cfg, s, i);
    PairOp(cfg, s, i);
  }

  lemma StartIsPaired(cfg: Config, pid: nat, now: nat)
    ensures PairInv(cfg, Start(pid, now))
  {
  }
}
