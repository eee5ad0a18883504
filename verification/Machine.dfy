/** The cache under concurrency and crashes: one file operation at a time (src/cache.rs, src/proxy.rs).

    Every request is an operation that moves through the file steps of lookup, refresh, tee, commit and
    eviction; steps of different operations interleave freely, any step may fail, any operation may be
    abandoned, and the process may crash and restart between any two steps. */
module Machine {
  import opened Prelude
  import opened Names
  import opened Entry
  import opened CacheDir
  import opened Meter
  import opened Tee

  datatype RawRequest = RawRequest(subject: string, variants: seq<string>)

  /** A request as the cache sees it: normalised URL and first values of the supported headers. */
  type Request = r: RawRequest |
      |r.variants| == |SUPPORTED_VARY_HEADERS| && NulFreeAll(r.variants) && NulFree(r.subject)
    ghost witness RawRequest("", ["", "", "", "", ""])

  /** Cache key, configured lifetime (zero when not cacheable) and metadata encoding. */
  datatype Config = Config(key: Request -> string, ttl: string -> nat, codec: Codec)

  ghost predicate Sound(cfg: Config) {
    && (forall a, b :: cfg.key(a) == cfg.key(b) ==> a == b)
    && (forall e :: cfg.codec.decode(cfg.codec.encode(e)) == Some(e))
  }

  // ---------- State ----------

  /** An upstream answer that set an entry's age: a store or a refresh. */
  datatype Event = Event(req: Request, at: nat)

  /** Where a file's contents come from: the write that produced the entry, the event that dated it. */
  datatype Origin = Origin(write: nat, event: Event)

  /** A body on its way from the upstream to a client: what the upstream will send, the cap of the result,
      and what the tee has passed on so far. */
  datatype Transfer = Transfer(items: seq<UpstreamItem>, max: nat, client: seq<ClientItem>) {
    /** Everything the metered stream yields. */
    function Output(): seq<MeteredItem> {
      MeteredOutput(items, 0, max)
    }

    predicate Drained() {
      |client| >= |Output()|
    }

    function Passing(item: MeteredItem): Transfer {
      Transfer(items, max, client + [Delivered(item)])
    }
  }

  /** A finished write: what the tee flushed, and the transfer it copied. */
  datatype Write = Write(req: Request, draft: CacheEntry, body: Bytes, transfer: Transfer)

  /** The body file a lookup measured. */
  datatype Seen = Seen(body: Bytes, write: nat)

  /** A response sent from the cache: to whom, when, what, and whether the upstream has just validated it with a 304. */
  datatype Served = Served(req: Request, at: nat, entry: CacheEntry, origin: Origin, seen: Seen, validated: bool)

  /** What has happened: events, finished writes, writes whose own commit put metadata in place, whose metadata a
      body rename found, and responses sent from the cache. No file operation reads it. */
  datatype Log = Log(events: set<Event>, writes: map<nat, Write>, indexed: set<nat>, over: map<nat, Option<nat>>,
                     nextWrite: nat, served: set<Served>)

  /** Who is saving metadata: a lookup, a refresh or a commit. */
  datatype Saver = ByLookup(seen: Seen) | ByRefresh(seen: Seen) | ByCommit

  datatype Pc =
    | Reading
    | Dropping
    | Stating(entry: CacheEntry, origin: Origin)
    | Missed
    | Opening(entry: CacheEntry, origin: Origin, saver: Saver)
    | Saving(entry: CacheEntry, origin: Origin, saver: Saver, id: nat)
    | Found(entry: CacheEntry, origin: Origin, seen: Seen)
    | Writing(id: nat, draft: CacheEntry, event: Event, written: Bytes, transfer: Transfer)
    | Removing(id: nat)
    | Committing(id: nat, entry: CacheEntry, origin: Origin)
    | Evicting(victims: seq<string>, bodyNext: bool)

  datatype Op = Op(req: Request, started: nat, pc: Pc)

  datatype State = State(disk: Disk, origin: map<FileName, Origin>, ops: map<nat, Op>, nextTemp: nat, pid: nat,
                         now: nat, log: Log)

  /** The first start, on an empty directory. */
  function Start(pid: nat, now: nat): State {
    State(map[], map[], map[], 0, pid, now, Log({}, map[], {}, map[], 0, {}))
  }

  // ---------- Steps ----------

  /** One file step, or one decision, of an operation. */
  datatype Move =
    | ReadMeta(ok: bool)
    | DropMeta(ok: bool)
    | StatBody(ok: bool)
    | OpenMeta(ok: bool)
    | SaveSome(n: nat)
    | SaveFails
    | RenameMeta(ok: bool, victims: seq<string>)
    | Serve
    | NotModified(entry: CacheEntry)
    | Store(draft: CacheEntry, items: seq<UpstreamItem>, max: nat, ok: bool)
    | TeeNext(ok: bool)
    | Drain(n: nat)
    | Flush
    | RemoveTemp(ok: bool)
    | RenameBody(ok: bool)
    | EvictMeta(ok: bool)
    | EvictBody(ok: bool)

  datatype Action =
    | Arrive(i: nat, req: Request)
    | Move(i: nat, move: Move)
    | Leave(i: nat)
    | Tick(d: nat)
    | Restart(pid: nat, kept: set<FileName>)

  function Goto(s: State, i: nat, pc: Pc): State
    requires i in s.ops
  {
    s.(ops := s.ops[i := s.ops[i].(pc := pc)])
  }

  function Gone(s: State, i: nat): State {
    s.(ops := s.ops - {i})
  }

  function Erase(s: State, f: FileName, ok: bool): State {
    if ok then s.(disk := s.disk - {f}) else s
  }

  function BodyTemp(cfg: Config, s: State, op: Op, id: nat): FileName {
    Temp(TempBody, cfg.key(op.req), s.pid, id)
  }

  function MetaTemp(cfg: Config, s: State, op: Op, id: nat): FileName {
    Temp(TempMeta, cfg.key(op.req), s.pid, id)
  }

  /** After metadata could not be saved: a lookup goes on, a refresh or commit ends in an error. */
  function SaveFailed(s: State, i: nat, entry: CacheEntry, origin: Origin, saver: Saver): State
    requires i in s.ops
  {
    if saver.ByLookup? then Goto(s, i, Found(entry, origin, saver.seen)) else Gone(s, i)
  }

  /** A 304 changes age, lifetime and validators, nothing else. */
  predicate RefreshOf(e: CacheEntry, e': CacheEntry, ttl: nat, now: nat) {
    e' == e.(createdAt := now, lastAccess := now, ttl := e'.ttl, etag := e'.etag, lastModified := e'.lastModified)
    && e'.ttl <= ttl
  }

  function Recorded(s: State, r: Served): State {
    s.(log := s.log.(served := s.log.served + {r}))
  }

  // Lookup: read the metadata, drop it when unusable, measure the body.

  function DoReadMeta(cfg: Config, s: State, i: nat, ok: bool): State
    requires i in s.ops
  {
    var meta := Meta(cfg.key(s.ops[i].req));
    if !s.ops[i].pc.Reading? then s
    else if !ok || meta !in s.disk || meta !in s.origin then Goto(s, i, Missed)
    else
      var parsed := cfg.codec.decode(s.disk[meta]);
      Goto(s, i, if parsed.None? then Dropping else Stating(parsed.value, s.origin[meta]))
  }

  function DoDropMeta(cfg: Config, s: State, i: nat, ok: bool): State
    requires i in s.ops
  {
    if s.ops[i].pc.Dropping? then Goto(Erase(s, Meta(cfg.key(s.ops[i].req)), ok), i, Missed) else s
  }

  function DoStatBody(cfg: Config, s: State, i: nat, ok: bool): State
    requires i in s.ops
  {
    var op := s.ops[i];
    var body := Body(cfg.key(op.req));
    if !op.pc.Stating? then s
    else
      var e := op.pc.entry;
      if e.version != CACHE_VERSION || !ok || body !in s.disk || body !in s.origin || |s.disk[body]| != e.bodyLen
      then Goto(s, i, Dropping)
      else Goto(s, i, Opening(e.(lastAccess := op.started), op.pc.origin,
                              ByLookup(Seen(s.disk[body], s.origin[body].write))))
  }

  // Saving metadata: create the temporary file, fill it, rename it.

  function DoOpenMeta(cfg: Config, s: State, i: nat, ok: bool): State
    requires i in s.ops
  {
    var op := s.ops[i];
    if !op.pc.Opening? then s
    else
      var Opening(e, o, saver) := op.pc;
      var counted := s.(nextTemp := s.nextTemp + 1);
      if !ok then SaveFailed(counted, i, e, o, saver)
      else Goto(counted.(disk := s.disk[MetaTemp(cfg, s, op, s.nextTemp) := []]), i, Saving(e, o, saver, s.nextTemp))
  }

  function DoSaveSome(cfg: Config, s: State, i: nat, n: nat): State
    requires i in s.ops
  {
    var op := s.ops[i];
    if !op.pc.Saving? then s
    else
      var data := cfg.codec.encode(op.pc.entry);
      s.(disk := s.disk[MetaTemp(cfg, s, op, op.pc.id) := data[..Min(n, |data|)]])
  }

  function DoSaveFails(s: State, i: nat): State
    requires i in s.ops
  {
    var pc := s.ops[i].pc;
    if !pc.Saving? then s else SaveFailed(s, i, pc.entry, pc.origin, pc.saver)
  }

  function DoRenameMeta(cfg: Config, s: State, i: nat, ok: bool, victims: seq<string>): State
    requires i in s.ops
  {
    var op := s.ops[i];
    if !op.pc.Saving? then s
    else
      var Saving(e, o, saver, id) := op.pc;
      var temp, meta := MetaTemp(cfg, s, op, id), Meta(cfg.key(op.req));
      if temp !in s.disk || s.disk[temp] != cfg.codec.encode(e) then s
      else if !ok then SaveFailed(s, i, e, o, saver)
      else
        var saved := s.(disk := (s.disk - {temp})[meta := s.disk[temp]], origin := s.origin[meta := o]);
        match saver
        case ByLookup(seen) => Goto(saved, i, Found(e, o, seen))
        case ByRefresh(seen) => Gone(Recorded(saved, Served(op.req, s.now, e, o, seen, true)), i)
        case ByCommit =>
          Goto(saved.(log := s.log.(indexed := s.log.indexed + {o.write})), i, Evicting(victims, false))
  }

  // The handler: a hit, a revalidation, or a store.

  function Logged(s: State, event: Event): State {
    s.(log := s.log.(events := s.log.events + {event}))
  }

  function DoServe(s: State, i: nat): State
    requires i in s.ops
  {
    var op := s.ops[i];
    if op.pc.Found? && IsFresh(op.pc.entry, s.now)
    then Gone(Recorded(s, Served(op.req, s.now, op.pc.entry, op.pc.origin, op.pc.seen, false)), i)
    else s
  }

  function DoNotModified(cfg: Config, s: State, i: nat, entry: CacheEntry): State
    requires i in s.ops
  {
    var op := s.ops[i];
    var event := Event(op.req, s.now);
    if op.pc.Found? && RefreshOf(op.pc.entry, entry, cfg.ttl(op.req.subject), s.now)
    then Goto(Logged(s, event), i, Opening(entry, Origin(op.pc.origin.write, event), ByRefresh(op.pc.seen)))
    else s
  }

  ghost function DoStore(cfg: Config, s: State, i: nat, draft: CacheEntry, items: seq<UpstreamItem>, max: nat, ok: bool): State
    requires i in s.ops
  {
    var op := s.ops[i];
    var event := Event(op.req, s.now);
    if !(op.pc.Missed? || op.pc.Found?) || !AdmittedDraft(draft, cfg.ttl(op.req.subject), s.now) then s
    else if !ok then Gone(s.(nextTemp := s.nextTemp + 1), i)
    else
      var counted := Logged(s, event).(nextTemp := s.nextTemp + 1);
      Goto(counted.(disk := s.disk[BodyTemp(cfg, s, op, s.nextTemp) := []]), i,
           Writing(s.nextTemp, draft, event, [], Transfer(items, max, [])))
  }

  // The tee and the body's commit. Written bytes reach the file with a delay, at the latest with the flush.
  // A failed write or a failed item gives the copy up; the flush comes only when the stream has ended.

  function DoTeeNext(s: State, i: nat, ok: bool): State
    requires i in s.ops
  {
    var pc := s.ops[i].pc;
    if !pc.Writing? || pc.transfer.Drained() then s
    else
      var item := pc.transfer.Output()[|pc.transfer.client|];
      if item.Data? && ok
      then Goto(s, i, Writing(pc.id, pc.draft, pc.event, pc.written + item.bytes, pc.transfer.Passing(item)))
      else Goto(s, i, Removing(pc.id))
  }

  function DoDrain(cfg: Config, s: State, i: nat, n: nat): State
    requires i in s.ops
  {
    var op := s.ops[i];
    if !op.pc.Writing? || n > |op.pc.written| then s
    else s.(disk := s.disk[BodyTemp(cfg, s, op, op.pc.id) := op.pc.written[..n]])
  }

  function DoFlush(cfg: Config, s: State, i: nat): State
    requires i in s.ops
  {
    var op := s.ops[i];
    if !op.pc.Writing? then s
    else
      var Writing(id, draft, event, written, transfer) := op.pc;
      var temp := BodyTemp(cfg, s, op, id);
      if !transfer.Drained() || temp !in s.disk || s.disk[temp] != written then s
      else
        var w := s.log.nextWrite;
        var log := s.log.(writes := s.log.writes[w := Write(op.req, draft, written, transfer)], nextWrite := w + 1);
        Goto(s.(log := log), i, Committing(id, draft.(bodyLen := |written|), Origin(w, event)))
  }

  function DoRemoveTemp(cfg: Config, s: State, i: nat, ok: bool): State
    requires i in s.ops
  {
    var op := s.ops[i];
    if op.pc.Removing? then Gone(Erase(s, BodyTemp(cfg, s, op, op.pc.id), ok), i) else s
  }

  function DoRenameBody(cfg: Config, s: State, i: nat, ok: bool): State
    requires i in s.ops
  {
    var op := s.ops[i];
    if !op.pc.Committing? then s
    else
      var Committing(id, entry, o) := op.pc;
      var temp, body, meta := BodyTemp(cfg, s, op, id), Body(cfg.key(op.req)), Meta(cfg.key(op.req));
      if !ok || temp !in s.disk then Gone(s, i)
      else
        var found := if meta in s.disk && meta in s.origin then Some(s.origin[meta].write) else None;
        Goto(s.(disk := (s.disk - {temp})[body := s.disk[temp]], origin := s.origin[body := o],
                log := s.log.(over := s.log.over[o.write := found])),
             i, Opening(entry, o, ByCommit))
  }

  // The removals of one eviction. The victims are whatever the scan listed while others were at work.

  function DoEvictMeta(s: State, i: nat, ok: bool): State
    requires i in s.ops
  {
    var pc := s.ops[i].pc;
    if !pc.Evicting? || pc.victims == [] || pc.bodyNext then s
    else Goto(Erase(s, Meta(pc.victims[0]), ok), i, Evicting(pc.victims, true))
  }

  function DoEvictBody(s: State, i: nat, ok: bool): State
    requires i in s.ops
  {
    var pc := s.ops[i].pc;
    if !pc.Evicting? || pc.victims == [] || !pc.bodyNext then s
    else Goto(Erase(s, Body(pc.victims[0]), ok), i, Evicting(pc.victims[1..], false))
  }

  ghost function Do(cfg: Config, s: State, i: nat, move: Move): State
    requires i in s.ops
  {
    match move
    case ReadMeta(ok) => DoReadMeta(cfg, s, i, ok)
    case DropMeta(ok) => DoDropMeta(cfg, s, i, ok)
    case StatBody(ok) => DoStatBody(cfg, s, i, ok)
    case OpenMeta(ok) => DoOpenMeta(cfg, s, i, ok)
    case SaveSome(n) => DoSaveSome(cfg, s, i, n)
    case SaveFails => DoSaveFails(s, i)
    case RenameMeta(ok, victims) => DoRenameMeta(cfg, s, i, ok, victims)
    case Serve => DoServe(s, i)
    case NotModified(entry) => DoNotModified(cfg, s, i, entry)
    case Store(draft, items, max, ok) => DoStore(cfg, s, i, draft, items, max, ok)
    case TeeNext(ok) => DoTeeNext(s, i, ok)
    case Drain(n) => DoDrain(cfg, s, i, n)
    case Flush => DoFlush(cfg, s, i)
    case RemoveTemp(ok) => DoRemoveTemp(cfg, s, i, ok)
    case RenameBody(ok) => DoRenameBody(cfg, s, i, ok)
    case EvictMeta(ok) => DoEvictMeta(s, i, ok)
    case EvictBody(ok) => DoEvictBody(s, i, ok)
  }

  /** One step of the whole system; an action that is not possible changes nothing. */
  ghost function Step(cfg: Config, s: State, a: Action): State {
    match a
    case Arrive(i, req) =>
      if i in s.ops || cfg.ttl(req.subject) == 0 then s else s.(ops := s.ops[i := Op(req, s.now, Reading)])
    case Move(i, move) => if i in s.ops then Do(cfg, s, i, move) else s
    case Leave(i) => Gone(s, i)
    case Tick(d) => s.(now := s.now + d)
    case Restart(pid, kept) =>
      s.(ops := map[], nextTemp := 0, pid := pid, disk := map f | f in s.disk && f in kept :: s.disk[f])
  }

  ghost function Run(cfg: Config, s: State, actions: seq<Action>): State
    decreases |actions|
  {
    if actions == [] then s else Run(cfg, Step(cfg, s, actions[0]), actions[1..])
  }
}
