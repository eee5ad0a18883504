/** The concurrent model instantiated: real keys and lifetimes, and the undisturbed runs of lookup, tee and commit. */
module CacheSystem {
  import opened Prelude
  import opened Names
  import opened Entry
  import opened Headers
  import opened Rules
  import opened Lru
  import opened CacheDir
  import opened CleanupTheory
  import opened Meter
  import opened Tee
  import opened Machine
  import opened MachineSafety

  // ---------- Keys and lifetimes ----------

  datatype Setup = Setup(hash: string -> string, codec: Codec, rules: seq<CompiledRule>, maxAge: nat, engine: Engine)

  function Ttl(setup: Setup, subject: string): nat {
    match PlanTtl(setup.rules, setup.maxAge, subject, setup.engine) case None => 0 case Some(ttl) => ttl
  }

  function ConfigOf(setup: Setup): Config {
    Config((r: Request) => setup.hash(KeyText(r.subject, r.variants)), subject => Ttl(setup, subject), setup.codec)
  }

  /** The cache key of a request. */
  function PlanKey(setup: Setup, subject: string, headers: Fields): string {
    setup.hash(KeyText(subject, Variants(headers)))
  }

  /** The whole of `Cache::plan`: key and lifetime of a request, or none when it may not use the cache. */
  method PlanRequest(setup: Setup, subject: string, headers: Fields) returns (r: Option<(string, nat)>)
    ensures r.Some? <==>
              && Values(headers, "authorization") == [] && Values(headers, "cookie") == [] && Values(headers, "range") == []
              && Ttl(setup, subject) > 0
    ensures r.Some? ==> r.value == (PlanKey(setup, subject, headers), Ttl(setup, subject))
  {
    if Values(headers, "authorization") != [] || Values(headers, "cookie") != [] || Values(headers, "range") != [] {
      return None;
    }
    var ttl := Plan(setup.rules, setup.maxAge, subject, setup.engine);
    if ttl.None? {
      return None;
    }
    var input := HashInput(subject, headers);
    return Some((setup.hash(input), ttl.value));
  }

  /** With a collision-free hash and an encoding that can be read back, keys tell requests apart. */
  lemma SetupIsSound(setup: Setup)
    requires forall a, b :: setup.hash(a) == setup.hash(b) ==> a == b
    requires forall e :: setup.codec.decode(setup.codec.encode(e)) == Some(e)
    ensures Sound(ConfigOf(setup))
  {
    var cfg := ConfigOf(setup);
    forall a, b | cfg.key(a) == cfg.key(b) ensures a == b {
      KeyTextInjective(a.subject, a.variants, b.subject, b.variants);
    }
  }

  /** Every hit ever sent is younger than the last matching rule's `max_age` and than the global one. */
  lemma HitsRespectTheRules(setup: Setup, s: State, r: Served)
    requires forall a, b :: setup.hash(a) == setup.hash(b) ==> a == b
    requires forall e :: setup.codec.decode(setup.codec.encode(e)) == Some(e)
    requires Reachable(ConfigOf(setup), s) && r in s.log.served && !r.validated
    ensures var event := r.origin.event;
            && event in s.log.events && event.req == r.req && event.at <= r.at
            && exists k ::
              && 0 <= k < |setup.rules| && IsMatch(setup.rules[k].pattern, r.req.subject, setup.engine)
              && (forall l :: k < l < |setup.rules| ==> !IsMatch(setup.rules[l].pattern, r.req.subject, setup.engine))
              && r.at - event.at < setup.rules[k].maxAge && r.at - event.at < setup.maxAge
  {
    hide IsMatch, Inv, Reachable;
    var cfg := ConfigOf(setup);
    SetupIsSound(setup);
    HitsAreFresh(cfg, s, r);
    var ttl := Ttl(setup, r.req.subject);
    LastRuleWins(setup.rules, setup.maxAge, r.req.subject, setup.engine, ttl);
    var k :| 0 <= k < |setup.rules| && IsMatch(setup.rules[k].pattern, r.req.subject, setup.engine) &&
             (forall l :: k < l < |setup.rules| ==> !IsMatch(setup.rules[l].pattern, r.req.subject, setup.engine)) &&
             ttl == Min(setup.rules[k].maxAge, setup.maxAge) && ttl > 0;
  }

  /** The request the cache sees, made from a normalised URL and the headers. */
  ghost function RequestOf(subject: string, headers: Fields): Request
    requires NulFree(subject) && NulFreeFirsts(headers)
  {
    VariantsMean(headers, headers);
    RawRequest(subject, Variants(headers))
  }

  /** Two planned requests share a key exactly when they agree on the subject and on the first value of every header
      that may vary a response. */
  lemma KeysTellRequestsApart(setup: Setup, s: string, f: Fields, t: string, g: Fields)
    requires forall a, b :: setup.hash(a) == setup.hash(b) ==> a == b
    requires NulFree(s) && NulFree(t) && NulFreeFirsts(f) && NulFreeFirsts(g)
    ensures PlanKey(setup, s, f) == PlanKey(setup, t, g) <==> s == t && SameVariants(f, g)
    ensures PlanKey(setup, s, f) == ConfigOf(setup).key(RequestOf(s, f))
  {
    hide KeyText, Variants, SameVariants;
    VariantsMean(f, f);
    HashedAlike(s, f, t, g);
  }

  /** Vary on header maps: when a response sent from the cache for one request was stored by another, both have the
      same URL and the same first value of every header the stored response's Vary names. */
  lemma VaryHoldsForHeaders(setup: Setup, s: State, r: Served, subject: string, f: Fields, storedSubject: string, g: Fields)
    requires forall a, b :: setup.hash(a) == setup.hash(b) ==> a == b
    requires forall e :: setup.codec.decode(setup.codec.encode(e)) == Some(e)
    requires Reachable(ConfigOf(setup), s) && r in s.log.served
    requires NulFree(subject) && NulFreeFirsts(f) && NulFree(storedSubject) && NulFreeFirsts(g)
    requires r.req == RequestOf(subject, f)
    requires r.origin.write in s.log.writes && s.log.writes[r.origin.write].req == RequestOf(storedSubject, g)
    ensures subject == storedSubject && s.log.writes[r.origin.write].draft.vary == r.entry.vary
    ensures forall v :: v in r.entry.vary ==> SameFirst(f, g, v)
  {
    hide Reachable, Variants;
    SetupIsSound(setup);
    ServedIsBacked(ConfigOf(setup), s, r);
    VaryIsRespected(ConfigOf(setup), s, r);
    VariantsMean(f, g);
    forall v | v in r.entry.vary ensures SameFirst(f, g, v) {
      var k :| 0 <= k < |SUPPORTED_VARY_HEADERS| && SUPPORTED_VARY_HEADERS[k] == v;
      SupportedMeans(v);
    }
  }

  /** `refresh` makes a change the model admits. */
  lemma RefreshedIsRefresh(e: CacheEntry, response: Fields, ttl: nat, now: nat, expiresIn: Option<nat>)
    ensures RefreshOf(e, Refreshed(e, response, ttl, now, expiresIn), ttl, now)
  {
    hide EffectiveTtl;
  }

  /** Startup cleanup, complete or cut short, with or without failures, is one of the model's restarts. */
  lemma CleanupIsARestart(cfg: Config, s: State, cleaned: Disk, pid: nat)
    requires Shrunk(s.disk, cleaned)
    ensures Step(cfg, s, Restart(pid, cleaned.Keys)).disk == cleaned
  {
  }

  ghost predicate Hexadecimal(s: string) {
    forall i :: 0 <= i < |s| ==> s[i] in "0123456789abcdef"
  }

  /** Keys as `cache_key` prints them, in hexadecimal, are never temporary names. */
  lemma HexKeysAreNotTemporary(key: string)
    requires Hexadecimal(key)
    ensures !Contains(key, TEMP_MARK)
  {
    assert forall i: nat :: At(key, TEMP_MARK, i) ==> key[i] == key[i..i + |TEMP_MARK|][0] == '.';
  }

  /** Startup cleanup is invisible to requests: without an eviction, and whatever removals fail, a request is a hit
      after it exactly when it was one before, with the same entry and body; an eviction costs exactly the hits of
      the entries it cuts. */
  lemma RequestsSurviveCleanup(setup: Setup, req: Request, d: Disk, listing: seq<FileName>, now: nat, max: nat, d': Disk)
    requires forall text :: Hexadecimal(setup.hash(text))
    requires Lists(listing, d) && Shrunk(d, d') && OnlyReasonableRemovals(setup.codec, d, listing, now, max, d')
    ensures var (codec, key) := (setup.codec, ConfigOf(setup).key(req));
            var items := LiveItems(codec, d, listing, now);
            && (ScanTotal(items) <= max ==>
                  && (WouldHit(codec, d, key, now) <==> WouldHit(codec, d', key, now))
                  && (WouldHit(codec, d, key, now) ==>
                        LookupFinds(codec, d', key) == LookupFinds(codec, d, key) && d'[Body(key)] == d[Body(key)]))
            && (CleanResult(codec, d, listing, now, max, d') ==>
                  (WouldHit(codec, d', key, now) <==> WouldHit(codec, d, key, now) && !Dropped(items, max, key)))
  {
    var key := ConfigOf(setup).key(req);
    assert key == setup.hash(KeyText(req.subject, req.variants));
    HexKeysAreNotTemporary(key);
    hide Contains, LiveItems, ScanTotal, Dropped, WouldHit, LookupFinds, Kept;
    if ScanTotal(LiveItems(setup.codec, d, listing, now)) <= max {
      CleanupInvisibleToHits(setup.codec, d, listing, now, max, d', key);
    }
    if CleanResult(setup.codec, d, listing, now, max, d') {
      CleanupHits(setup.codec, d, listing, now, max, d', key);
    }
  }

  // ---------- End to end ----------

  /** Whatever happened in between, every response sent from the cache carries what the miss that stored its body sent:
      the whole body of a fault-free upstream, as a client that asked for the same key got it, in whatever pieces the
      file is read. */
  lemma HitReplaysMiss(cfg: Config, s: State, r: Served, fileChunks: seq<Bytes>, hitMax: nat)
    requires Sound(cfg) && Reachable(cfg, s) && r in s.log.served
    requires Concat(fileChunks) == r.seen.body
    requires hitMax <= U64_MAX && !WouldExceed(hitMax, r.entry.bodyLen)
    ensures var w := r.seen.write;
            && w in s.log.writes && s.log.writes[w].req == r.req
            && var t := s.log.writes[w].transfer; var hit := MeteredOutput(Chunks(fileChunks), 0, hitMax);
               && AllData(hit) && Received(ClientView(hit)) == Received(t.client) == Concat(LeadingChunks(t.items))
               && t.client == ClientView(MeteredOutput(t.items, 0, t.max)) && t.items == Chunks(LeadingChunks(t.items))
  {
    hide Reachable, MeteredOutput, Backed;
    ServedIsBacked(cfg, s, r);
    HitReplaysBody(r.seen.body, fileChunks, hitMax);
  }
}
