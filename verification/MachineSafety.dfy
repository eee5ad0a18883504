/** What every reachable state of the cache satisfies, under all interleavings, failures and crashes. */
module MachineSafety {
  import opened Prelude
  import opened Names
  import opened Entry
  import opened CacheDir
  import opened Meter
  import opened Tee
  import opened Machine

  // ---------- The invariant ----------

  ghost predicate WriteOk(cfg: Config, log: Log, key: string, o: Origin) {
    o.write in log.writes && cfg.key(log.writes[o.write].req) == key
  }

  /** Metadata descends from its write: only age, lifetime, access time and validators may differ. */
  ghost predicate Descends(e: CacheEntry, w: Write) {
    && e.version == CACHE_VERSION && e.bodyLen == |w.body|
    && e.status == w.draft.status && e.headers == w.draft.headers && e.vary == w.draft.vary
    && e.revalidate == w.draft.revalidate && e.requestVariants == w.draft.requestVariants
  }

  ghost predicate EntryOk(cfg: Config, log: Log, key: string, e: CacheEntry, o: Origin) {
    && WriteOk(cfg, log, key, o) && Descends(e, log.writes[o.write])
    && o.event in log.events && cfg.key(o.event.req) == key
    && e.createdAt == o.event.at && e.ttl <= cfg.ttl(o.event.req.subject)
  }

  ghost predicate MetaOk(cfg: Config, s: State, key: string) {
    Meta(key) in s.disk ==>
      && Meta(key) in s.origin && cfg.codec.decode(s.disk[Meta(key)]).Some?
      && EntryOk(cfg, s.log, key, cfg.codec.decode(s.disk[Meta(key)]).value, s.origin[Meta(key)])
  }

  ghost predicate BodyOk(cfg: Config, s: State, key: string) {
    Body(key) in s.disk ==>
      && Body(key) in s.origin && WriteOk(cfg, s.log, key, s.origin[Body(key)])
      && s.disk[Body(key)] == s.log.writes[s.origin[Body(key)].write].body
  }

  /** The lookup measured the whole body of a finished write, of the recorded length. */
  ghost predicate SeenOk(cfg: Config, log: Log, key: string, e: CacheEntry, seen: Seen) {
    && seen.write in log.writes && cfg.key(log.writes[seen.write].req) == key
    && seen.body == log.writes[seen.write].body && |seen.body| == e.bodyLen
  }

  ghost predicate SaverOk(cfg: Config, log: Log, key: string, e: CacheEntry, saver: Saver) {
    saver.ByCommit? || SeenOk(cfg, log, key, e, saver.seen)
  }

  ghost predicate DraftOk(cfg: Config, log: Log, req: Request, draft: CacheEntry, event: Event) {
    && event.req == req && event in log.events
    && draft.version == CACHE_VERSION && draft.createdAt == event.at && draft.ttl <= cfg.ttl(req.subject)
    && VarySupported(draft)
  }

  ghost predicate VarySupported(e: CacheEntry) {
    forall i :: 0 <= i < |e.vary| ==> Supported(e.vary[i])
  }

  /** The client got exactly the items passed on so far, all of them data, and the copy is what it got. */
  ghost predicate TransferOk(t: Transfer, written: Bytes) {
    var (out, n) := (t.Output(), |t.client|);
    n <= |out| && AllData(out[..n]) && t.client == ClientView(out[..n]) && written == Received(t.client)
  }

  ghost predicate WholeCopy(w: Write) {
    TransferOk(w.transfer, w.body) && w.transfer.Drained()
  }

  ghost predicate PcOk(cfg: Config, log: Log, key: string, req: Request, pc: Pc) {
    match pc
    case Stating(e, o) => EntryOk(cfg, log, key, e, o)
    case Opening(e, o, saver) => EntryOk(cfg, log, key, e, o) && SaverOk(cfg, log, key, e, saver)
    case Saving(e, o, saver, _) => EntryOk(cfg, log, key, e, o) && SaverOk(cfg, log, key, e, saver)
    case Found(e, o, seen) => EntryOk(cfg, log, key, e, o) && SeenOk(cfg, log, key, e, seen)
    case Writing(_, draft, event, written, t) => DraftOk(cfg, log, req, draft, event) && TransferOk(t, written)
    case Committing(_, e, o) => EntryOk(cfg, log, key, e, o)
    case _ => true
  }

  /** The counter value of the temporary file an operation works on. */
  function IdOf(pc: Pc): Option<nat> {
    match pc
    case Saving(_, _, _, id) => Some(id)
    case Writing(id, _, _, _, _) => Some(id)
    case Removing(id) => Some(id)
    case Committing(id, _, _) => Some(id)
    case _ => None
  }

  /** A body waiting for its rename is complete. */
  ghost predicate TempOk(cfg: Config, s: State, op: Op) {
    op.pc.Committing? ==>
      var temp := BodyTemp(cfg, s, op, op.pc.id);
      temp in s.disk ==> WriteOk(cfg, s.log, cfg.key(op.req), op.pc.origin)
                         && s.disk[temp] == s.log.writes[op.pc.origin.write].body
  }

  ghost predicate OpOk(cfg: Config, s: State, op: Op) {
    PcOk(cfg, s.log, cfg.key(op.req), op.req, op.pc) && TempOk(cfg, s, op)
  }

  ghost predicate IdsOk(s: State) {
    && (forall i :: i in s.ops && IdOf(s.ops[i].pc).Some? ==> IdOf(s.ops[i].pc).value < s.nextTemp)
    && (forall i, j :: i in s.ops && j in s.ops && i != j && IdOf(s.ops[i].pc).Some? ==>
                         IdOf(s.ops[i].pc) != IdOf(s.ops[j].pc))
  }

  ghost predicate LogOk(s: State) {
    && (forall event :: event in s.log.events ==> event.at <= s.now)
    && (forall w :: w in s.log.writes ==>
          w < s.log.nextWrite && VarySupported(s.log.writes[w].draft) && WholeCopy(s.log.writes[w]))
  }

  /** A response sent from the cache descends from a write for its request and had a whole body; one that was not
      just validated was neither expired nor to be revalidated. */
  ghost predicate ServedOk(cfg: Config, log: Log, r: Served) {
    && EntryOk(cfg, log, cfg.key(r.req), r.entry, r.origin) && SeenOk(cfg, log, cfg.key(r.req), r.entry, r.seen)
    && r.entry.createdAt <= r.at
    && (!r.validated ==> !r.entry.revalidate && r.at < r.entry.createdAt + r.entry.ttl)
  }

  ghost predicate AllServedOk(cfg: Config, log: Log) {
    forall r :: r in log.served ==> ServedOk(cfg, log, r)
  }

  ghost predicate Inv(cfg: Config, s: State) {
    && (forall key :: MetaOk(cfg, s, key))
    && (forall key :: BodyOk(cfg, s, key))
    && (forall i :: i in s.ops ==> OpOk(cfg, s, s.ops[i]))
    && IdsOk(s) && LogOk(s) && AllServedOk(cfg, s.log)
  }

  // ---------- The elementary changes a step is made of ----------

  ghost predicate LogGrows(log: Log, log': Log) {
    && log.events <= log'.events && log.writes.Keys <= log'.writes.Keys
    && forall w :: w in log.writes ==> log'.writes[w] == log.writes[w]
  }

  /** The invariant of one operation, for the state it is in. */
  lemma InvOp(cfg: Config, s: State, i: nat)
    requires Inv(cfg, s) && i in s.ops
    ensures OpOk(cfg, s, s.ops[i]) && IdsOk(s) && LogOk(s)
  {
  }

  lemma InvFiles(cfg: Config, s: State, key: string)
    requires Inv(cfg, s)
    ensures MetaOk(cfg, s, key) && BodyOk(cfg, s, key)
  {
  }

  /** No operation but `i` uses the counter value. */
  ghost predicate Own(s: State, i: nat, id: nat) {
    id < s.nextTemp && forall j :: j in s.ops && j != i ==> IdOf(s.ops[j].pc) != Some(id)
  }

  lemma GotoKeeps(cfg: Config, s: State, i: nat, pc: Pc)
    requires Inv(cfg, s) && i in s.ops && OpOk(cfg, s, s.ops[i].(pc := pc))
    requires IdOf(pc).Some? ==> Own(s, i, IdOf(pc).value)
    ensures Inv(cfg, Goto(s, i, pc))
  {
    hide EntryOk, SeenOk, WriteOk, DraftOk;
    var s' := Goto(s, i, pc);
    forall key ensures MetaOk(cfg, s', key) && BodyOk(cfg, s', key) {
      InvFiles(cfg, s, key);
    }
    forall j | j in s'.ops ensures OpOk(cfg, s', s'.ops[j]) {
      assert j != i ==> OpOk(cfg, s, s.ops[j]);
    }
  }

  lemma GoneKeeps(cfg: Config, s: State, i: nat)
    requires Inv(cfg, s)
    ensures Inv(cfg, Gone(s, i))
  {
    hide EntryOk, SeenOk, WriteOk, DraftOk;
    var s' := Gone(s, i);
    forall key ensures MetaOk(cfg, s', key) && BodyOk(cfg, s', key) {
      InvFiles(cfg, s, key);
    }
    forall j | j in s'.ops ensures OpOk(cfg, s', s'.ops[j]) {
      assert OpOk(cfg, s, s.ops[j]);
    }
  }

  /** Losing files, as removals and crashes do, breaks nothing. */
  lemma ShrinkKeeps(cfg: Config, s: State, disk: Disk)
    requires Inv(cfg, s) && Shrunk(s.disk, disk)
    ensures Inv(cfg, s.(disk := disk))
  {
    hide EntryOk, SeenOk, WriteOk, DraftOk;
    var s' := s.(disk := disk);
    forall key ensures MetaOk(cfg, s', key) && BodyOk(cfg, s', key) {
      InvFiles(cfg, s, key);
    }
    forall j | j in s'.ops ensures OpOk(cfg, s', s'.ops[j]) {
      assert OpOk(cfg, s, s.ops[j]);
    }
  }

  lemma CountKeeps(cfg: Config, s: State)
    requires Inv(cfg, s)
    ensures Inv(cfg, s.(nextTemp := s.nextTemp + 1))
  {
    hide EntryOk, SeenOk, WriteOk, DraftOk;
    var s' := s.(nextTemp := s.nextTemp + 1);
    forall key ensures MetaOk(cfg, s', key) && BodyOk(cfg, s', key) {
      InvFiles(cfg, s, key);
    }
    forall j | j in s'.ops ensures OpOk(cfg, s', s'.ops[j]) {
      assert OpOk(cfg, s, s.ops[j]);
    }
  }

  lemma EntryStaysOk(cfg: Config, log: Log, log': Log, key: string, e: CacheEntry, o: Origin)
    requires LogGrows(log, log') && EntryOk(cfg, log, key, e, o)
    ensures EntryOk(cfg, log', key, e, o)
  {
  }

  lemma OpStaysOk(cfg: Config, s: State, log: Log, op: Op)
    requires LogGrows(s.log, log) && OpOk(cfg, s, op)
    ensures OpOk(cfg, s.(log := log), op)
  {
  }

  lemma LogKeeps(cfg: Config, s: State, log: Log)
    requires Inv(cfg, s) && LogGrows(s.log, log) && LogOk(s.(log := log))
    requires forall r :: r in log.served ==> r in s.log.served || ServedOk(cfg, log, r)
    ensures Inv(cfg, s.(log := log))
  {
    hide EntryOk, SeenOk, DraftOk, OpOk;
    var s' := s.(log := log);
    forall key ensures MetaOk(cfg, s', key) && BodyOk(cfg, s', key) {
      InvFiles(cfg, s, key);
      if Meta(key) in s.disk {
        EntryStaysOk(cfg, s.log, log, key, cfg.codec.decode(s.disk[Meta(key)]).value, s.origin[Meta(key)]);
      }
    }
    forall j | j in s'.ops ensures OpOk(cfg, s', s'.ops[j]) {
      OpStaysOk(cfg, s, log, s.ops[j]);
    }
    forall r | r in log.served ensures ServedOk(cfg, log, r) {
      if r in s.log.served {
        ServedStaysOk(cfg, s.log, log, r);
      }
    }
  }

  lemma ServedStaysOk(cfg: Config, log: Log, log': Log, r: Served)
    requires LogGrows(log, log') && ServedOk(cfg, log, r)
    ensures ServedOk(cfg, log', r)
  {
  }

  /** What an operation sends from the cache is recorded. */
  lemma RecordKeeps(cfg: Config, s: State, r: Served)
    requires Inv(cfg, s) && ServedOk(cfg, s.log, r)
    ensures Inv(cfg, Recorded(s, r))
  {
    hide MetaOk, BodyOk, OpOk, EntryOk, SeenOk, TransferOk, MeteredOutput;
    var log := s.log.(served := s.log.served + {r});
    ServedStaysOk(cfg, s.log, log, r);
    LogKeeps(cfg, s, log);
  }

  /** Writing a temporary file disturbs no operation that works on another one. */
  lemma TempWriteKeeps(cfg: Config, s: State, i: nat, kind: TempKind, key: string, id: nat, data: Bytes)
    requires Inv(cfg, s) && Own(s, i, id) && (i in s.ops ==> !s.ops[i].pc.Committing?)
    ensures Inv(cfg, s.(disk := s.disk[Temp(kind, key, s.pid, id) := data]))
  {
    hide EntryOk, SeenOk, WriteOk, DraftOk;
    var s' := s.(disk := s.disk[Temp(kind, key, s.pid, id) := data]);
    forall k ensures MetaOk(cfg, s', k) && BodyOk(cfg, s', k) {
      InvFiles(cfg, s, k);
    }
    forall j | j in s'.ops ensures OpOk(cfg, s', s'.ops[j]) {
      var op := s.ops[j];
      assert OpOk(cfg, s, op);
      if op.pc.Committing? {
        assert IdOf(op.pc) == Some(op.pc.id) && j != i;
        TempsDiffer(kind, key, s.pid, id, TempBody, cfg.key(op.req), op.pc.id);
      }
    }
  }

  lemma PutMetaKeeps(cfg: Config, s: State, key: string, e: CacheEntry, o: Origin)
    requires Sound(cfg) && Inv(cfg, s) && EntryOk(cfg, s.log, key, e, o)
    ensures Inv(cfg, s.(disk := s.disk[Meta(key) := cfg.codec.encode(e)], origin := s.origin[Meta(key) := o]))
  {
    hide EntryOk, SeenOk, WriteOk, DraftOk;
    var s' := s.(disk := s.disk[Meta(key) := cfg.codec.encode(e)], origin := s.origin[Meta(key) := o]);
    assert cfg.codec.decode(cfg.codec.encode(e)) == Some(e);
    forall k ensures MetaOk(cfg, s', k) && BodyOk(cfg, s', k) {
      InvFiles(cfg, s, k);
    }
    forall j | j in s'.ops ensures OpOk(cfg, s', s'.ops[j]) {
      assert OpOk(cfg, s, s.ops[j]);
    }
  }

  lemma PutBodyKeeps(cfg: Config, s: State, key: string, o: Origin)
    requires Inv(cfg, s) && WriteOk(cfg, s.log, key, o)
    ensures Inv(cfg, s.(disk := s.disk[Body(key) := s.log.writes[o.write].body], origin := s.origin[Body(key) := o]))
  {
    hide EntryOk, SeenOk, DraftOk;
    var s' := s.(disk := s.disk[Body(key) := s.log.writes[o.write].body], origin := s.origin[Body(key) := o]);
    forall k ensures MetaOk(cfg, s', k) && BodyOk(cfg, s', k) {
      InvFiles(cfg, s, k);
    }
    forall j | j in s'.ops ensures OpOk(cfg, s', s'.ops[j]) {
      assert OpOk(cfg, s, s.ops[j]);
    }
  }

  // ---------- Every step keeps the invariant ----------

  lemma ReadMetaKeeps(cfg: Config, s: State, i: nat, ok: bool)
    requires Inv(cfg, s) && i in s.ops
    ensures Inv(cfg, DoReadMeta(cfg, s, i, ok))
  {
    hide Inv;
    var meta := Meta(cfg.key(s.ops[i].req));
    if s.ops[i].pc.Reading? {
      InvFiles(cfg, s, cfg.key(s.ops[i].req));
      var pc := if !ok || meta !in s.disk || meta !in s.origin then Missed
                else Stating(cfg.codec.decode(s.disk[meta]).value, s.origin[meta]);
      GotoKeeps(cfg, s, i, pc);
    }
  }

  lemma DropMetaKeeps(cfg: Config, s: State, i: nat, ok: bool)
    requires Inv(cfg, s) && i in s.ops
    ensures Inv(cfg, DoDropMeta(cfg, s, i, ok))
  {
    hide Inv;
    if s.ops[i].pc.Dropping? {
      var erased := Erase(s, Meta(cfg.key(s.ops[i].req)), ok);
      ShrinkKeeps(cfg, s, erased.disk);
      GotoKeeps(cfg, erased, i, Missed);
    }
  }

  lemma StatBodyKeeps(cfg: Config, s: State, i: nat, ok: bool)
    requires Inv(cfg, s) && i in s.ops
    ensures Inv(cfg, DoStatBody(cfg, s, i, ok))
  {
    hide Inv;
    var op := s.ops[i];
    if op.pc.Stating? {
      InvOp(cfg, s, i);
      InvFiles(cfg, s, cfg.key(op.req));
      GotoKeeps(cfg, s, i, DoStatBody(cfg, s, i, ok).ops[i].pc);
    }
  }

  lemma SaveFailedKeeps(cfg: Config, s: State, i: nat, e: CacheEntry, o: Origin, saver: Saver)
    requires Inv(cfg, s) && i in s.ops
    requires var key := cfg.key(s.ops[i].req); EntryOk(cfg, s.log, key, e, o) && SaverOk(cfg, s.log, key, e, saver)
    ensures Inv(cfg, SaveFailed(s, i, e, o, saver))
  {
    hide Inv;
    if saver.ByLookup? {
      GotoKeeps(cfg, s, i, Found(e, o, saver.seen));
    } else {
      GoneKeeps(cfg, s, i);
    }
  }

  lemma FreshIdIsOwn(cfg: Config, s: State, i: nat)
    requires Inv(cfg, s)
    ensures Own(s.(nextTemp := s.nextTemp + 1), i, s.nextTemp)
  {
    hide MetaOk, BodyOk, OpOk;
  }

  lemma OpenMetaKeeps(cfg: Config, s: State, i: nat, ok: bool)
    requires Inv(cfg, s) && i in s.ops
    ensures Inv(cfg, DoOpenMeta(cfg, s, i, ok))
  {
    hide Inv, EntryOk;
    var op := s.ops[i];
    if op.pc.Opening? {
      InvOp(cfg, s, i);
      var Opening(e, o, saver) := op.pc;
      var counted := s.(nextTemp := s.nextTemp + 1);
      CountKeeps(cfg, s);
      if ok {
        FreshIdIsOwn(cfg, s, i);
        TempWriteKeeps(cfg, counted, i, TempMeta, cfg.key(op.req), s.nextTemp, []);
        var filling := counted.(disk := s.disk[MetaTemp(cfg, s, op, s.nextTemp) := []]);
        GotoKeeps(cfg, filling, i, Saving(e, o, saver, s.nextTemp));
      } else {
        SaveFailedKeeps(cfg, counted, i, e, o, saver);
      }
    }
  }

  /** The operation's own counter value. */
  lemma OwnId(cfg: Config, s: State, i: nat)
    requires Inv(cfg, s) && i in s.ops && IdOf(s.ops[i].pc).Some?
    ensures Own(s, i, IdOf(s.ops[i].pc).value)
  {
    hide MetaOk, BodyOk, OpOk;
  }

  lemma SaveSomeKeeps(cfg: Config, s: State, i: nat, n: nat)
    requires Inv(cfg, s) && i in s.ops
    ensures Inv(cfg, DoSaveSome(cfg, s, i, n))
  {
    hide Inv;
    var op := s.ops[i];
    if op.pc.Saving? {
      OwnId(cfg, s, i);
      var data := cfg.codec.encode(op.pc.entry);
      TempWriteKeeps(cfg, s, i, TempMeta, cfg.key(op.req), op.pc.id, data[..Min(n, |data|)]);
    }
  }

  lemma SaveFailsKeeps(cfg: Config, s: State, i: nat)
    requires Inv(cfg, s) && i in s.ops
    ensures Inv(cfg, DoSaveFails(s, i))
  {
    hide Inv;
    var pc := s.ops[i].pc;
    if pc.Saving? {
      InvOp(cfg, s, i);
      SaveFailedKeeps(cfg, s, i, pc.entry, pc.origin, pc.saver);
    }
  }

  lemma RenameMetaKeeps(cfg: Config, s: State, i: nat, ok: bool, victims: seq<string>)
    requires Sound(cfg) && Inv(cfg, s) && i in s.ops
    ensures Inv(cfg, DoRenameMeta(cfg, s, i, ok, victims))
  {
    hide Inv, EntryOk, SeenOk;
    var op := s.ops[i];
    var s' := DoRenameMeta(cfg, s, i, ok, victims);
    if op.pc.Saving? && s' != s {
      InvOp(cfg, s, i);
      var Saving(e, o, saver, id) := op.pc;
      if !ok {
        SaveFailedKeeps(cfg, s, i, e, o, saver);
      } else {
        var temp, key := MetaTemp(cfg, s, op, id), cfg.key(op.req);
        ShrinkKeeps(cfg, s, s.disk - {temp});
        PutMetaKeeps(cfg, s.(disk := s.disk - {temp}), key, e, o);
        var saved := s.(disk := (s.disk - {temp})[Meta(key) := s.disk[temp]], origin := s.origin[Meta(key) := o]);
        match saver
        case ByLookup(seen) => GotoKeeps(cfg, saved, i, Found(e, o, seen));
        case ByRefresh(seen) =>
          var r := Served(op.req, s.now, e, o, seen, true);
          DatedBefore(cfg, s, i);
          RecordKeeps(cfg, saved, r);
          GoneKeeps(cfg, Recorded(saved, r), i);
        case ByCommit =>
          var log := s.log.(indexed := s.log.indexed + {o.write});
          LogKeeps(cfg, saved, log);
          GotoKeeps(cfg, saved.(log := log), i, Evicting(victims, false));
      }
    }
  }

  /** An entry in hand was dated by an event that has happened. */
  lemma DatedBefore(cfg: Config, s: State, i: nat)
    requires Inv(cfg, s) && i in s.ops && (s.ops[i].pc.Found? || s.ops[i].pc.Saving?)
    ensures s.ops[i].pc.entry.createdAt <= s.now
  {
    InvOp(cfg, s, i);
  }

  lemma ServeKeeps(cfg: Config, s: State, i: nat)
    requires Inv(cfg, s) && i in s.ops
    ensures Inv(cfg, DoServe(s, i))
  {
    hide Inv, EntryOk, SeenOk;
    var op := s.ops[i];
    if op.pc.Found? && IsFresh(op.pc.entry, s.now) {
      InvOp(cfg, s, i);
      DatedBefore(cfg, s, i);
      var r := Served(op.req, s.now, op.pc.entry, op.pc.origin, op.pc.seen, false);
      RecordKeeps(cfg, s, r);
      GoneKeeps(cfg, Recorded(s, r), i);
    }
  }

  lemma LoggedKeeps(cfg: Config, s: State, req: Request)
    requires Inv(cfg, s)
    ensures Inv(cfg, Logged(s, Event(req, s.now)))
  {
    hide MetaOk, BodyOk, OpOk;
    LogKeeps(cfg, s, s.log.(events := s.log.events + {Event(req, s.now)}));
  }

  lemma NotModifiedKeeps(cfg: Config, s: State, i: nat, entry: CacheEntry)
    requires Inv(cfg, s) && i in s.ops
    ensures Inv(cfg, DoNotModified(cfg, s, i, entry))
  {
    hide Inv;
    var op := s.ops[i];
    var event := Event(op.req, s.now);
    if op.pc.Found? && RefreshOf(op.pc.entry, entry, cfg.ttl(op.req.subject), s.now) {
      InvOp(cfg, s, i);
      LoggedKeeps(cfg, s, op.req);
      GotoKeeps(cfg, Logged(s, event), i, Opening(entry, Origin(op.pc.origin.write, event), ByRefresh(op.pc.seen)));
    }
  }

  lemma StoreKeeps(cfg: Config, s: State, i: nat, draft: CacheEntry, items: seq<UpstreamItem>, max: nat, ok: bool)
    requires Inv(cfg, s) && i in s.ops
    ensures Inv(cfg, DoStore(cfg, s, i, draft, items, max, ok))
  {
    hide Inv;
    var op := s.ops[i];
    var event := Event(op.req, s.now);
    if (op.pc.Missed? || op.pc.Found?) && AdmittedDraft(draft, cfg.ttl(op.req.subject), s.now) {
      if ok {
        var logged := Logged(s, event);
        var counted := logged.(nextTemp := s.nextTemp + 1);
        LoggedKeeps(cfg, s, op.req);
        CountKeeps(cfg, logged);
        FreshIdIsOwn(cfg, logged, i);
        TempWriteKeeps(cfg, counted, i, TempBody, cfg.key(op.req), s.nextTemp, []);
        GotoKeeps(cfg, counted.(disk := s.disk[BodyTemp(cfg, s, op, s.nextTemp) := []]), i,
                  Writing(s.nextTemp, draft, event, [], Transfer(items, max, [])));
      } else {
        CountKeeps(cfg, s);
        GoneKeeps(cfg, s.(nextTemp := s.nextTemp + 1), i);
      }
    }
  }

  lemma TransferGrows(t: Transfer, written: Bytes)
    requires TransferOk(t, written) && !t.Drained() && t.Output()[|t.client|].Data?
    ensures var item := t.Output()[|t.client|]; TransferOk(t.Passing(item), written + item.bytes)
  {
    var (out, n) := (t.Output(), |t.client|);
    hide MeteredOutput, ClientView, Received;
    ClientViewGrows(out, n);
    ReceivedAppend(t.client, Delivered(out[n]));
    assert out[..n + 1] == out[..n] + [out[n]];
  }

  lemma TeeNextKeeps(cfg: Config, s: State, i: nat, ok: bool)
    requires Inv(cfg, s) && i in s.ops
    ensures Inv(cfg, DoTeeNext(s, i, ok))
  {
    hide Inv, TransferOk, MeteredOutput, DraftOk;
    var (op, s') := (s.ops[i], DoTeeNext(s, i, ok));
    if op.pc.Writing? && !op.pc.transfer.Drained() {
      InvOp(cfg, s, i);
      hide LogOk, IdsOk;
      OwnId(cfg, s, i);
      if op.pc.transfer.Output()[|op.pc.transfer.client|].Data? {
        TransferGrows(op.pc.transfer, op.pc.written);
      }
      GotoKeeps(cfg, s, i, s'.ops[i].pc);
    }
  }

  lemma TempBodyKeeps(cfg: Config, s: State, i: nat, move: Move)
    requires Inv(cfg, s) && i in s.ops && (move.Drain? || move.RemoveTemp?)
    ensures Inv(cfg, Do(cfg, s, i, move))
  {
    hide Inv, EntryOk;
    var op := s.ops[i];
    InvOp(cfg, s, i);
    hide IdsOk, LogOk, OpOk;
    if op.pc.Writing? {
      OwnId(cfg, s, i);
      if move.Drain? && move.n <= |op.pc.written| {
        TempWriteKeeps(cfg, s, i, TempBody, cfg.key(op.req), op.pc.id, op.pc.written[..move.n]);
      }
    } else if op.pc.Removing? && move.RemoveTemp? {
      var erased := Erase(s, BodyTemp(cfg, s, op, op.pc.id), move.ok);
      ShrinkKeeps(cfg, s, erased.disk);
      GoneKeeps(cfg, erased, i);
    }
  }

  lemma FlushKeeps(cfg: Config, s: State, i: nat)
    requires Inv(cfg, s) && i in s.ops
    ensures Inv(cfg, DoFlush(cfg, s, i))
  {
    hide Inv, TransferOk, MeteredOutput;
    var op := s.ops[i];
    var s' := DoFlush(cfg, s, i);
    InvOp(cfg, s, i);
    if op.pc.Writing? && s'.ops != s.ops {
      OwnId(cfg, s, i);
      LogKeeps(cfg, s, s'.log);
      GotoKeeps(cfg, s.(log := s'.log), i, s'.ops[i].pc);
    }
  }

  lemma RenameBodyKeeps(cfg: Config, s: State, i: nat, ok: bool)
    requires Inv(cfg, s) && i in s.ops
    ensures Inv(cfg, DoRenameBody(cfg, s, i, ok))
  {
    hide Inv;
    var op := s.ops[i];
    var s' := DoRenameBody(cfg, s, i, ok);
    InvOp(cfg, s, i);
    if op.pc.Committing? {
      var Committing(id, entry, o) := op.pc;
      var temp, key := BodyTemp(cfg, s, op, id), cfg.key(op.req);
      if !ok || temp !in s.disk {
        GoneKeeps(cfg, s, i);
      } else {
        ShrinkKeeps(cfg, s, s.disk - {temp});
        var renamed := s.(disk := (s.disk - {temp})[Body(key) := s.disk[temp]], origin := s.origin[Body(key) := o]);
        PutBodyKeeps(cfg, s.(disk := s.disk - {temp}), key, o);
        LogKeeps(cfg, renamed, s'.log);
        GotoKeeps(cfg, renamed.(log := s'.log), i, Opening(entry, o, ByCommit));
      }
    }
  }

  lemma EvictKeeps(cfg: Config, s: State, i: nat, move: Move)
    requires Inv(cfg, s) && i in s.ops && (move.EvictMeta? || move.EvictBody?)
    ensures Inv(cfg, Do(cfg, s, i, move))
  {
    hide Inv;
    var s' := Do(cfg, s, i, move);
    if s' != s {
      ShrinkKeeps(cfg, s, s'.disk);
      GotoKeeps(cfg, s.(disk := s'.disk), i, s'.ops[i].pc);
    }
  }

  lemma MoveKeeps(cfg: Config, s: State, i: nat, move: Move)
    requires Sound(cfg) && Inv(cfg, s) && i in s.ops
    ensures Inv(cfg, Do(cfg, s, i, move))
  {
    hide Inv;
    match move
    case ReadMeta(ok) => ReadMetaKeeps(cfg, s, i, ok);
    case DropMeta(ok) => DropMetaKeeps(cfg, s, i, ok);
    case StatBody(ok) => StatBodyKeeps(cfg, s, i, ok);
    case OpenMeta(ok) => OpenMetaKeeps(cfg, s, i, ok);
    case SaveSome(n) => SaveSomeKeeps(cfg, s, i, n);
    case SaveFails => SaveFailsKeeps(cfg, s, i);
    case RenameMeta(ok, victims) => RenameMetaKeeps(cfg, s, i, ok, victims);
    case Serve => ServeKeeps(cfg, s, i);
    case NotModified(entry) => NotModifiedKeeps(cfg, s, i, entry);
    case Store(draft, items, max, ok) => StoreKeeps(cfg, s, i, draft, items, max, ok);
    case TeeNext(ok) => TeeNextKeeps(cfg, s, i, ok);
    case Flush => FlushKeeps(cfg, s, i);
    case RenameBody(ok) => RenameBodyKeeps(cfg, s, i, ok);
    case EvictMeta(_) => EvictKeeps(cfg, s, i, move);
    case EvictBody(_) => EvictKeeps(cfg, s, i, move);
    case _ => TempBodyKeeps(cfg, s, i, move);
  }

  lemma ArriveKeeps(cfg: Config, s: State, i: nat, req: Request)
    requires Inv(cfg, s) && i !in s.ops
    ensures Inv(cfg, s.(ops := s.ops[i := Op(req, s.now, Reading)]))
  {
    hide EntryOk, SeenOk, WriteOk, DraftOk;
    var s' := s.(ops := s.ops[i := Op(req, s.now, Reading)]);
    forall key ensures MetaOk(cfg, s', key) && BodyOk(cfg, s', key) {
      InvFiles(cfg, s, key);
    }
    forall j | j in s'.ops ensures OpOk(cfg, s', s'.ops[j]) {
      assert j != i ==> OpOk(cfg, s, s.ops[j]);
    }
  }

  lemma TickKeeps(cfg: Config, s: State, d: nat)
    requires Inv(cfg, s)
    ensures Inv(cfg, s.(now := s.now + d))
  {
    hide EntryOk, SeenOk, WriteOk, DraftOk;
    var s' := s.(now := s.now + d);
    forall key ensures MetaOk(cfg, s', key) && BodyOk(cfg, s', key) {
      InvFiles(cfg, s, key);
    }
    forall j | j in s'.ops ensures OpOk(cfg, s', s'.ops[j]) {
      assert OpOk(cfg, s, s.ops[j]);
    }
  }

  /** A restart keeps any part of the directory, no operation, and nothing of the counter. */
  lemma RestartKeeps(cfg: Config, s: State, pid: nat, kept: set<FileName>)
    requires Inv(cfg, s)
    ensures Inv(cfg, Step(cfg, s, Restart(pid, kept)))
  {
    hide EntryOk, SeenOk, WriteOk, DraftOk;
    var s' := Step(cfg, s, Restart(pid, kept));
    forall key ensures MetaOk(cfg, s', key) && BodyOk(cfg, s', key) {
      InvFiles(cfg, s, key);
    }
  }

  lemma StepKeeps(cfg: Config, s: State, a: Action)
    requires Sound(cfg) && Inv(cfg, s)
    ensures Inv(cfg, Step(cfg, s, a))
  {
    hide Inv, Do;
    match a
    case Move(i, move) =>
      if i in s.ops {
        MoveKeeps(cfg, s, i, move);
      }
    case Arrive(i, req) =>
      if i !in s.ops {
        ArriveKeeps(cfg, s, i, req);
      }
    case Leave(i) => GoneKeeps(cfg, s, i);
    case Tick(d) => TickKeeps(cfg, s, d);
    case Restart(pid, kept) => RestartKeeps(cfg, s, pid, kept);
  }

  lemma {:induction false} RunKeeps(cfg: Config, s: State, actions: seq<Action>)
    requires Sound(cfg) && Inv(cfg, s)
    ensures Inv(cfg, Run(cfg, s, actions))
    decreases |actions|
  {
    hide Inv, Step;
    if actions != [] {
      StepKeeps(cfg, s, actions[0]);
      RunKeeps(cfg, Step(cfg, s, actions[0]), actions[1..]);
    }
  }

  lemma StartIsSound(cfg: Config, pid: nat, now: nat)
    ensures Inv(cfg, Start(pid, now))
  {
  }

  // ---------- What the invariant gives ----------

  /** A state the cache can reach from its first start on an empty directory. */
  ghost predicate Reachable(cfg: Config, s: State) {
    exists pid, now, actions :: s == Run(cfg, Start(pid, now), actions)
  }

  lemma ReachableIsSound(cfg: Config, s: State)
    requires Sound(cfg) && Reachable(cfg, s)
    ensures Inv(cfg, s)
  {
    hide Inv, Run;
    var pid, now, actions :| s == Run(cfg, Start(pid, now), actions);
    StartIsSound(cfg, pid, now);
    RunKeeps(cfg, Start(pid, now), actions);
  }

  /** The upstream sent its whole body without a fault and within the cap, the client of the write got all
      of it, and the write is exactly these bytes. */
  ghost predicate UpstreamBody(w: Write) {
    var (items, max, client) := (w.transfer.items, w.transfer.max, w.transfer.client);
    && items == Chunks(LeadingChunks(items)) && (max < U64_MAX ==> !WouldExceed(max, |w.body|))
    && client == ClientView(MeteredOutput(items, 0, max))
    && w.body == Received(client) && w.body == Concat(LeadingChunks(items))
  }

  lemma WritesAreWhole(cfg: Config, s: State, w: nat)
    requires Sound(cfg) && Reachable(cfg, s) && w in s.log.writes
    ensures UpstreamBody(s.log.writes[w])
  {
    hide Inv, MetaOk, BodyOk, OpOk, MeteredOutput;
    ReachableIsSound(cfg, s);
    assert LogOk(s) by { InvLog(cfg, s); }
    var write := s.log.writes[w];
    var out := write.transfer.Output();
    assert out[..|out|] == out;
    FinishedBodyIsWhole(write.transfer.items, write.transfer.max, write.transfer.client, write.body);
  }

  lemma InvLog(cfg: Config, s: State)
    requires Inv(cfg, s)
    ensures LogOk(s)
  {
  }

  /** Every committed body is, byte for byte, a whole upstream body that a client asking for its key got in full. */
  lemma BodiesAreWhole(cfg: Config, s: State, key: string)
    requires Sound(cfg) && Reachable(cfg, s) && Body(key) in s.disk
    ensures exists w :: && w in s.log.writes && cfg.key(s.log.writes[w].req) == key
                        && s.disk[Body(key)] == s.log.writes[w].body && UpstreamBody(s.log.writes[w])
  {
    hide UpstreamBody;
    ReachableIsSound(cfg, s);
    InvFiles(cfg, s, key);
    var w := s.origin[Body(key)].write;
    assert w in s.log.writes;
    WritesAreWhole(cfg, s, w);
  }

  /** A lookup that found an entry measured such a body, of exactly the recorded length. */
  lemma LookupsSeeWholeBodies(cfg: Config, s: State, i: nat)
    requires Sound(cfg) && Reachable(cfg, s) && i in s.ops && s.ops[i].pc.Found?
    ensures var Found(e, _, seen) := s.ops[i].pc;
            && |seen.body| == e.bodyLen && seen.write in s.log.writes
            && s.log.writes[seen.write].req == s.ops[i].req && s.log.writes[seen.write].body == seen.body
            && UpstreamBody(s.log.writes[seen.write])
  {
    hide UpstreamBody;
    ReachableIsSound(cfg, s);
    InvOp(cfg, s, i);
    WritesAreWhole(cfg, s, s.ops[i].pc.seen.write);
  }

  /** An entry for a request descends from a write for the very same request, was dated by a store or refresh for it,
      and lives no longer from then than the request's subject may. */
  ghost predicate Backed(cfg: Config, log: Log, req: Request, e: CacheEntry, o: Origin) {
    && o.event in log.events && o.event.req == req && e.createdAt == o.event.at && e.ttl <= cfg.ttl(req.subject)
    && o.write in log.writes && log.writes[o.write].req == req
    && log.writes[o.write].draft.revalidate == e.revalidate && log.writes[o.write].draft.headers == e.headers
    && log.writes[o.write].draft.status == e.status
  }

  lemma EntryIsBacked(cfg: Config, log: Log, req: Request, e: CacheEntry, o: Origin)
    requires Sound(cfg) && EntryOk(cfg, log, cfg.key(req), e, o)
    ensures Backed(cfg, log, req, e, o)
  {
  }

  lemma FoundIsBacked(cfg: Config, s: State, i: nat)
    requires Sound(cfg) && Reachable(cfg, s) && i in s.ops && s.ops[i].pc.Found?
    ensures Backed(cfg, s.log, s.ops[i].req, s.ops[i].pc.entry, s.ops[i].pc.origin)
    ensures s.ops[i].pc.entry.createdAt <= s.now
  {
    hide Inv, EntryOk, Backed, Reachable;
    ReachableIsSound(cfg, s);
    InvOp(cfg, s, i);
    DatedBefore(cfg, s, i);
    EntryIsBacked(cfg, s.log, s.ops[i].req, s.ops[i].pc.entry, s.ops[i].pc.origin);
  }

  lemma ServedIsOk(cfg: Config, s: State, r: Served)
    requires Sound(cfg) && Reachable(cfg, s) && r in s.log.served
    ensures ServedOk(cfg, s.log, r)
  {
    hide MetaOk, BodyOk, OpOk, IdsOk, LogOk, ServedOk, Reachable;
    ReachableIsSound(cfg, s);
  }

  /** Every response sent from the cache is backed, and had the whole body of a write for its request. */
  lemma ServedIsBacked(cfg: Config, s: State, r: Served)
    requires Sound(cfg) && Reachable(cfg, s) && r in s.log.served
    ensures Backed(cfg, s.log, r.req, r.entry, r.origin) && r.origin.event.at <= r.at
    ensures && r.seen.write in s.log.writes && s.log.writes[r.seen.write].req == r.req
            && s.log.writes[r.seen.write].body == r.seen.body && |r.seen.body| == r.entry.bodyLen
            && UpstreamBody(s.log.writes[r.seen.write])
  {
    hide EntryOk, Backed, Reachable, UpstreamBody;
    ServedIsOk(cfg, s, r);
    EntryIsBacked(cfg, s.log, r.req, r.entry, r.origin);
    WritesAreWhole(cfg, s, r.seen.write);
    BackedDate(cfg, s.log, r.req, r.entry, r.origin);
  }

  lemma BackedDate(cfg: Config, log: Log, req: Request, e: CacheEntry, o: Origin)
    requires Backed(cfg, log, req, e, o)
    ensures e.createdAt == o.event.at
  {
  }

  /** Freshness over whole runs: every hit that was ever sent came less than the configured lifetime after a store or
      refresh for the very same request, and not from a response marked for revalidation. */
  lemma HitsAreFresh(cfg: Config, s: State, r: Served)
    requires Sound(cfg) && Reachable(cfg, s) && r in s.log.served && !r.validated
    ensures var event := r.origin.event;
            && event in s.log.events && event.req == r.req && event.at <= r.at < event.at + cfg.ttl(r.req.subject)
            && r.origin.write in s.log.writes && s.log.writes[r.origin.write].req == r.req
            && !s.log.writes[r.origin.write].draft.revalidate
            && s.log.writes[r.origin.write].draft.headers == r.entry.headers
  {
    hide Reachable, UpstreamBody, EntryOk, SeenOk;
    ServedIsOk(cfg, s, r);
    ServedIsBacked(cfg, s, r);
  }

  /** And a lookup's entry is sent as a hit exactly when it is not to be revalidated and has not expired; anything else
      is not sent. */
  lemma ServesExactlyTheFresh(cfg: Config, s: State, i: nat)
    requires Sound(cfg) && Reachable(cfg, s) && i in s.ops && s.ops[i].pc.Found?
    ensures var Found(e, o, seen) := s.ops[i].pc;
            Step(cfg, s, Move(i, Serve)) ==
            if !e.revalidate && s.now < e.createdAt + e.ttl
            then Gone(Recorded(s, Served(s.ops[i].req, s.now, e, o, seen, false)), i) else s
  {
    hide Reachable, Backed;
    FoundIsBacked(cfg, s, i);
  }

  /** The write agrees with a request on the subject and on the first value of every header Vary names, and Vary names
      supported headers only. */
  ghost predicate VaryAgrees(w: Write, vary: seq<string>, req: Request) {
    && w.draft.vary == vary && w.req.subject == req.subject
    && forall v :: v in vary ==>
         exists k :: 0 <= k < |SUPPORTED_VARY_HEADERS| && SUPPORTED_VARY_HEADERS[k] == v
                     && w.req.variants[k] == req.variants[k]
  }

  lemma EntryAgrees(cfg: Config, s: State, req: Request, e: CacheEntry, o: Origin)
    requires Sound(cfg) && LogOk(s) && EntryOk(cfg, s.log, cfg.key(req), e, o)
    ensures o.write in s.log.writes && s.log.writes[o.write].req == req && VaryAgrees(s.log.writes[o.write], e.vary, req)
  {
    var w := s.log.writes[o.write];
    assert w.req == req;
    forall v | v in e.vary
      ensures exists k :: 0 <= k < |SUPPORTED_VARY_HEADERS| && SUPPORTED_VARY_HEADERS[k] == v && w.req.variants[k] == req.variants[k]
    {
      assert VarySupported(w.draft);
      var k :| 0 <= k < |e.vary| && e.vary[k] == v;
      assert Supported(e.vary[k]);
    }
  }

  lemma FoundRespectsVary(cfg: Config, s: State, i: nat)
    requires Sound(cfg) && Reachable(cfg, s) && i in s.ops && s.ops[i].pc.Found?
    ensures var Found(e, o, _) := s.ops[i].pc;
            o.write in s.log.writes && VaryAgrees(s.log.writes[o.write], e.vary, s.ops[i].req)
  {
    hide Reachable, VaryAgrees, EntryOk;
    ReachableIsSound(cfg, s);
    InvOp(cfg, s, i);
    EntryAgrees(cfg, s, s.ops[i].req, s.ops[i].pc.entry, s.ops[i].pc.origin);
  }

  /** Every response sent from the cache was stored by a request that agrees with it in this sense. */
  lemma VaryIsRespected(cfg: Config, s: State, r: Served)
    requires Sound(cfg) && Reachable(cfg, s) && r in s.log.served
    ensures r.origin.write in s.log.writes && VaryAgrees(s.log.writes[r.origin.write], r.entry.vary, r.req)
  {
    hide Reachable, VaryAgrees, EntryOk;
    ServedIsOk(cfg, s, r);
    ReachableIsSound(cfg, s);
    InvLog(cfg, s);
    EntryAgrees(cfg, s, r.req, r.entry, r.origin);
  }
}
