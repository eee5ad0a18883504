# A verified model of the corsget proxy

corsget is a caching CORS proxy. This project models the parts of it that carry state or transform data,
and proves what they promise:

- **The disk cache under concurrency and crashes** (`Machine`, `MachineSafety`, `Pairing`, `CutCommits`,
  `Undisturbed`, `CacheSystem`). The directory is a map from file names to bytes. Every request is an operation
  that moves through the single file steps of lookup, refresh, tee, commit and eviction. Steps of different
  requests interleave freely, each may fail, a request may be abandoned at any point, and the process may crash and
  restart between any two steps, keeping any part of the directory. Proved for every run: a committed body is always the whole body of
  a fault-free upstream, exactly as a client got it; every response sent from the cache carries these bytes
  again; every hit that was sent is backed by a store or refresh of the same request younger than the configured
  lifetime, and agrees with it on every header the entry's Vary names; and, with one request at a time per key,
  metadata and body come from the same write, with one exact exception, which a whole run shows to happen.
- **Startup cleanup and LRU eviction** (`CacheDir`, `CleanupTheory`, `Lru`, `Names`), as loops over a mutable
  directory with an arbitrary pattern of removal failures: byte conservation, the state left behind, the exact
  cut of the eviction order, and agreement of the two validity tests.
- **Bandwidth accounting and the metered stream** (`Limit`, `LimitTheory`, `Meter`).
- **The tee and the replay of a hit** (`Tee`, step by step in `Machine`, and end to end in `CacheSystem`).
- **The redirect loop** (`Redirect`).
- **Wildcards compiled to regular expressions** (`Glob`, `Rules`).
- **Header multimaps**: stripping, storing, restoring, overriding (`Headers`, `Overrides`), and entries, lifetimes
  and keys (`Entry`). `Prelude` and `Text` hold the shared vocabulary.

Objects the program updates in place are classes whose methods are proved against functions of the old
contents; what the program promises is proved about those functions. The interleavings are a state machine on
values, one function per file step. Undisturbed runs of its lookup, its tee and its commit with the eviction are
proved to end where the sequential methods `CacheDirectory.Lookup`, `Tee.TeeBody` and `CacheDirectory.Commit`
end, and every outcome of `CacheDirectory.CleanupStartup`, complete or not, is one of its restarts. What the program
reads from header texts, rule texts and metadata is in addition stated on these texts themselves, in the lemmas whose
names end in `Means` and their neighbours.

## How the steps follow the source

The functions of `Machine` have no contract of their own; they model these lines, and the lemmas in the table
below are about them.

- `DoReadMeta`, `DoDropMeta`, `DoStatBody`: `lookup`, src/cache.rs:249-278.
- `DoOpenMeta`, `DoSaveSome`, `DoSaveFails`, `DoRenameMeta`: `write_metadata`, src/cache.rs:406-417, and what its
  three callers do with its result (src/cache.rs:276-277, 302, 399-400).
- `DoServe`, `DoNotModified`: the hit and the 304 branch, src/proxy.rs:296-312 and 342-364; `refresh`,
  src/cache.rs:281-303.
- `DoStore`, `DoTeeNext`, `DoDrain`, `DoFlush`, `DoRemoveTemp`: `begin_write` and `CacheWriter`,
  src/cache.rs:322-392 and 613-629, driven by the tee, src/proxy.rs:462-493. A store fixes what the upstream will
  send and the cap of the result; `DoTeeNext` takes the next metered item; the flush is possible only when the
  stream has ended. `DoDrain` is the delay between a buffered write and the file, which ends at the latest with
  the flush.
- `DoRenameBody`: the first rename of `commit`, src/cache.rs:394-397.
- `DoEvictMeta`, `DoEvictBody`: the removals of `evict`, src/cache.rs:571-582. Which keys are removed is left
  arbitrary, because the scan races with other requests.
- `Restart`: a crash, a new process (the process id may repeat and the counter starts again at zero), and any
  outcome of `cleanup_startup`, src/cache.rs:421-537.

Lifetimes, drafts and keys enter the machine through `CacheSystem.ConfigOf` (`Cache::plan`, src/cache.rs:227-247;
`cache_key`, src/cache.rs:758-770), `Entry.AdmittedDraft` and `Machine.RefreshOf`.

## Where code and documentation differ

- The head of src/cache.rs says that metadata is written only after the body is in place, so that incomplete
  writes are ignored. When metadata of an older write is already there, a commit cut between its two renames
  leaves the old metadata over the new body, and with equal lengths the pair is served. The model follows the
  code: `CutCommits.MixedPairHappens` gives the whole run from an empty directory, for every request and every two
  bodies of one length; `CutCommits.CutCommitMixes` shows that in every reachable state such a cut mixes two
  different writes exactly when the lengths are equal; and `Pairing.LookupsArePaired` that there is no other way.
- README.md:348-349 says that entries larger than the limit are not stored. The code stores them and lets the
  eviction of the same commit remove them (`CleanupTheory.OversizedEntryIsNotKept`). As eviction goes oldest first,
  every older entry goes before it (`CleanupTheory.OversizedCommitTakesOlder`): one oversized response empties the
  cache.
- src/matcher.rs:8-10 says that `*` matches any characters. The compiled expression does not let it match a line
  feed: `Glob.StarsStopAtLineFeeds` shows that every pattern with a star differs on some subject, and
  `Glob.WildcardMeansGlob` is exact about it. Hosts and the texts of parsed URLs hold no line feed, so
  `Glob.WildcardMeansPlainGlob` covers every subject the proxy can form.
- README.md:327-328 says that rules match the normalised `host/path?query`. A wildcard rule is matched in two parts,
  around the first slash of the subject. `Rules.PartsMeanWhole` and `Rules.RuleMeansItsGlob` show for which patterns
  that is the same: the host has no star, or has stars only at its end and the path goes on with a star. For every
  other pattern some subject that the pattern matches as a whole is missed.

## Model

| member | source | states |
|---|---|---|
| Limit.WindowState.constructor | src/limit.rs:60-65 | a new counter has used nothing and its window starts at the reading |
| Limit.WindowState.Charge | src/limit.rs:69-85 | the counter rolls over when the period has elapsed; a charge over the cap leaves it unchanged and is an error that names the tier |
| Limit.BandwidthLimiter.constructor | src/limit.rs:98-112 | every configured tier starts with an empty table |
| Limit.BandwidthLimiter.EntryOrInsert | src/limit.rs:119-121 | a missing counter is created for that tier and bucket alone, an existing one is kept |
| Limit.BandwidthLimiter.ChargeTier | src/limit.rs:118-124 | one tier's table changes at the bucket only, all other tiers stay |
| Limit.BandwidthLimiter.Charge | src/limit.rs:116-127 | every tier is charged whether or not earlier ones failed, and the error is that of the first failing tier |
| LimitTheory.TiersAndBucketsAreIndependent | src/limit.rs:116-127 | after any run, the counter of tier i and bucket k is that of a lone one-tier limiter fed only k's charges |
| LimitTheory.NeverOverCap | src/limit.rs:75-84 | no run brings a counter over its cap |
| LimitTheory.UsedIsExact | src/limit.rs:69-85 | below the 64-bit cap, the counter is exactly the sum of the bytes accepted since its window started |
| LimitTheory.StartIsRecent | src/limit.rs:70-74 | the window open at a charge has not lasted its seconds on the nanosecond clock |
| LimitTheory.CounterIsTheAccount | src/limit.rs:69-85 | after every ordered run the counter is the sum of the bytes accepted since its window started, window and sum read off the charges alone |
| LimitTheory.AcceptedExactly | src/limit.rs:75-84 | after every ordered run the next charge is accepted if and only if its bytes and those its window has accepted are together within the cap |
| LimitTheory.LimiterAcceptsExactly | src/limit.rs:116-127 | the same for every tier of the whole limiter and the bucket of the call |
| LimitTheory.SlidingBound | src/limit.rs:69-85 | in every half-open interval of length L, from any state and for any ordered run, at most (ceil(L/period)+1) times the cap is accepted |
| LimitTheory.ProjectionOrdered | src/limit.rs:116-124 | calls in clock order reach every tier and bucket in clock order |
| LimitTheory.LimiterSlidingBound | src/limit.rs:69-127 | the same bound for any tier and bucket of the whole limiter when the calls are in clock order, and twice the cap for one period |
| LimitTheory.SlidingBoundIsReached | src/limit.rs:69-85 | for every window a run reaches twice the cap within one period |
| Meter.ResultSizeGuard.constructor | src/limit.rs:142-144 | a new guard has counted nothing |
| Meter.ResultSizeGuard.Charge | src/limit.rs:153-166 | no cap means no error and no counting; otherwise the running total, saturating, fails once it exceeds the cap |
| Meter.MeteredStream.constructor | src/limit.rs:208-217 | a new stream has all of its output before it |
| Meter.MeteredStream.Next | src/limit.rs:218-243 | each poll yields the next item of an output that depends on the upstream and the cap only, and charges the tiers exactly for the chunks it yields |
| Meter.MeteredStreamShape | src/limit.rs:208-244 | for every upstream and cap the output is the chunks that fit, in order and unchanged, then at most one error: the cap at the first overflowing chunk, or the upstream's |
| Meter.CutIsUnique | src/limit.rs:228-232 | there is only one place where a cap can cut a body |
| Meter.CapsAgree | src/limit.rs:148-166 | for every chunking, the stream fails on the cap exactly when the early check rejects the total length, and otherwise yields all chunks |
| Tee.CacheWriter.Write | src/cache.rs:614-618 | a successful write appends all bytes and counts them, a failed one may leave a part and counts nothing |
| Tee.TeeChunk | src/proxy.rs:468-475 | a failed cache write gives the writer up, a successful one keeps it with the chunk appended |
| Tee.MeteredStreamStopsAtFailure | src/limit.rs:219-232 | a metered stream yields nothing after an error |
| Tee.PollOnce | src/proxy.rs:465-487 | one poll takes the next item of the metered stream, copies a chunk before it is passed on, and gives the copy up at a failed item or a failed write |
| Tee.TeeBody | src/proxy.rs:462-493 | polling the metered stream, the client gets its items whatever happens to the cache; the copy is finished exactly when the client polled past the end, every item was data, no write and no flush failed, and then with the bytes the client received; it is discarded exactly when a polled item or write failed |
| Tee.FileStream | src/cache.rs:597-611 | the pieces read from a file are nonempty, at most 64 KiB, and together its contents |
| Tee.AllDataIsWhole | src/limit.rs:219-242 | a stream that ends without an error has passed on every byte of an upstream without a fault |
| Tee.FinishedBodyIsWhole | src/proxy.rs:462-493 | a finished body is the upstream's whole body, and passes the cap |
| Tee.HitReplaysBody | src/proxy.rs:56-69 | a hit that passes the early cap check streams exactly the stored bytes, for every way the file is read |
| Tee.ClientSeesTheEnd | src/proxy.rs:465-487 | a client gets the chunks that fit, unchanged, then the end of the stream when they are a whole fault-free body, and a broken stream when they are not |
| Text.TrimMeans | src/cache.rs:820-821 | trimming takes off all white space at both ends and nothing else |
| Text.LowerMeans | src/cors.rs:49-49 | lower case replaces each ASCII capital and nothing else |
| Text.SplitJoins | src/cache.rs:685-689 | the parts of a split text join to it |
| Text.JoinSplits | src/cache.rs:685-689 | and are the only parts without the separator that do |
| Glob.WildcardToRegex | src/matcher.rs:121-137 | the push-then-truncate loop builds the same expression as escape-and-join |
| Glob.JoinedIsSource | src/cache.rs:685-694 | splitting, escaping and joining is the character-by-character translation |
| Glob.OperatorsAreEscaped | src/matcher.rs:126-126 | each operator of the expression language is escaped, and no other character |
| Glob.SourceParses | src/matcher.rs:118-132 | the escaped source reads back as the literals and stars of the pattern |
| Glob.WildcardMeansGlob | src/matcher.rs:121-137 | on every subject, and for every notion of equal characters, the compiled wildcard matches exactly when the glob relation with one-line stars holds |
| Glob.WildcardMeansPlainGlob | src/matcher.rs:121-137 | on subjects without a line feed that is the plain glob relation |
| Glob.StarsStopAtLineFeeds | src/matcher.rs:121-137 | a pattern's compiled form means its plain glob on all subjects if and only if it has no star |
| Glob.LineGlobConcat | src/cache.rs:716-722 | globs that match two parts match their concatenation |
| Rules.ParseFlags | src/matcher.rs:64-86 | flags are accepted exactly when all are known, each sets its option, and the error is the first unknown one |
| Rules.RegexCloseMeans | src/cache.rs:637-640 | the regex form begins with a slash and is closed by the last one, if that is another |
| Rules.RegexFormMeans | src/matcher.rs:56-62 | the expression of a list entry is what stands between its slashes, the flags what follows |
| Rules.StarRuleMeansAll | src/cache.rs:669-677 | the lone star allows every URL text |
| Rules.ComparisonsMean | src/matcher.rs:94-97 | cache rules compare characters exactly, list entries up to the engine's case folding |
| Rules.StripSchemeMeans | src/cache.rs:733-738 | an http or https scheme is dropped, and nothing else |
| Rules.HostAndPathMeans | src/cache.rs:678-683 | the host is the lower-cased text before the first slash, the path the rest from it on, or a slash |
| Rules.ExactEntryMeans | src/matcher.rs:111-111 | an exact list entry matches the same characters up to ASCII case |
| Rules.NewRule | src/cache.rs:632-706 | a compiled cache rule accepts exactly the subjects its text means: a host glob before the first slash and a path glob from it on, or host and path literally; regex rules keep source and flags |
| Rules.WildcardRuleMeans | src/cache.rs:685-700 | a wildcard rule's two expressions mean the host and path globs around the first slash |
| Rules.HostAndPathImplyWhole | src/cache.rs:716-722 | matching host and path apart implies a glob match of the whole pattern |
| Rules.LineGlobSplits | src/cache.rs:685-694 | a text that a joined glob matches splits into matches of its two parts |
| Rules.PartsMeanWhole | src/cache.rs:716-722 | matching host and path apart is matching the whole, on all subjects, if and only if the host has no star, or stars only at its end and the path goes on with a star |
| Rules.RuleMeansItsGlob | src/cache.rs:678-722 | so a rule text means its own glob exactly under that condition |
| Rules.WholeDoesNotImplyHostAndPath | src/cache.rs:716-722 | a concrete pattern and subject on which they differ |
| Rules.PlanTtl | src/cache.rs:241-244 | a planned lifetime is positive and at most the global one |
| Rules.Plan | src/cache.rs:235-244 | the loop over the rules computes the planned lifetime |
| Rules.LastRuleWins | src/cache.rs:235-244 | the lifetime is that of the last matching rule, bounded by the global one, and there is none when that is zero or nothing matches |
| Rules.ParseEntry | src/matcher.rs:53-106 | an entry parses exactly when its regex form, if any, has known flags and compiles; it then matches exactly what its text means: the expression, its glob up to case folding, or itself ignoring ASCII case |
| Redirect.ValidateIsPermitted | src/proxy.rs:190-227 | the check accepts exactly the URLs that scheme, target list and origin list permit |
| Redirect.Fetch | src/proxy.rs:249-391 | for every upstream: at most max_redirects+1 requests, each permitted before it was sent, each relative Location resolved against the previous hop, the final URL the last requested, and each outcome explained by the last answer |
| Redirect.FetchIsDetermined | src/proxy.rs:333-391 | these promises determine requests and outcome completely |
| Redirect.RunFollowsLocations | src/proxy.rs:340-391 | hop by hop: every request but the first is where the Location before leads, absolute or joined to the URL answered; what is passed on is no redirect; every failure at a redirect has its reason |
| Redirect.RefusalMeans | src/proxy.rs:190-227 | a URL is refused for its scheme, then its host, then the target list, then the origin list |
| Headers.CopyResponseHeaders | src/proxy.rs:170-188 | a name keeps all its values in order unless it is hop-by-hop, CORS, nominated by Connection, or Content-Length under a cap |
| Headers.HeadersFromEntry | src/cache.rs:903-915 | stored pairs come back under their names in order, except invalid ones and CORS names |
| Headers.StoreRestoreOne | src/cache.rs:884-915 | one stored pair comes back exactly when its name is not dropped and its value is text |
| Headers.StoreRestore | src/cache.rs:884-915 | storing and restoring keeps, for every name that is not dropped, exactly the values that are text, in order |
| Headers.FreshHeaders | src/proxy.rs:417-428 | the per-name values a miss sends before overrides |
| Headers.CachedHeaders | src/proxy.rs:45-49 | the per-name values a hit sends before overrides |
| Headers.FreshAndCachedAgree | src/cache.rs:884-915 | a miss and its later hits agree on a name if and only if it is stripped on both paths, or is not nominated by Connection and has only text values, or is nominated and has none |
| Headers.HitSendsWhatMissSent | src/proxy.rs:170-188 | without surviving nominated names and with visible values they agree on all names, and neither has hop-by-hop or upstream CORS headers |
| Headers.ForwardHeaders | src/proxy.rs:131-165 | requests to the target carry every header but hop-by-hop and nominated ones, and the target's Host |
| Headers.StrippedNames | src/cors.rs:29-61 | the hop-by-hop, forwarding and CORS names, in any case |
| Headers.TokensMean | src/cors.rs:64-72 | a token list holds exactly the nonempty trimmed comma parts of the values that are text |
| Headers.FreshStripping | src/proxy.rs:175-186 | which response headers go, in terms of the header text |
| Headers.SentHeaders | src/proxy.rs:417-428 | the values a miss and a later hit send for each name, in terms of the header text |
| Headers.ForwardStripping | src/proxy.rs:136-142 | which request headers go, in terms of the header text |
| Headers.StoredPairs | src/cache.rs:888-898 | which pairs an entry stores |
| Headers.RestoredPairs | src/cache.rs:905-912 | what one stored pair gives back, whatever wrote it |
| Headers.NominatesMeans | src/cors.rs:137-147 | a Vary list nominates a field when a part of a value that is text is the field, in any case |
| Headers.HeaderNameMeans | src/cache.rs:907-907 | a header name is a token and is kept in lower case |
| Headers.AddVaryField | src/cors.rs:136-156 | afterwards the field is nominated, and it is appended only when it was not |
| Overrides.ParsedNameIsHarmless | src/headers.rs:128-147 | a name that parses is not managed by the proxy, however it was written |
| Overrides.ParsedNamesAreHarmless | src/headers.rs:86-90 | the same for a list of names |
| Overrides.ParsedPairsAreHarmless | src/headers.rs:150-166 | the same for the names of value pairs |
| Overrides.ManagedMeans | src/headers.rs:28-43 | which headers the proxy manages |
| Overrides.ParseHeaderNameMeans | src/headers.rs:128-147 | a configured name stands for its trimmed token in lower case, unless it is managed |
| Overrides.ParseNamesMean | src/headers.rs:86-90 | a list of names parses exactly when each does, name by name |
| Overrides.ParsePairsMean | src/headers.rs:150-166 | pairs parse exactly when each name does and each trimmed value is visible text |
| Overrides.NewRule | src/headers.rs:80-102 | a rule compiles exactly when site, names and values parse; it then hits where the configured site means to, does what is configured and touches no managed header |
| Overrides.CompilePolicy | src/headers.rs:177-184 | a policy is accepted exactly when every rule compiles; each rule comes from its configuration and is harmless |
| Overrides.ApplyRule | src/headers.rs:114-124 | the three loops run the removals, then the additions, then the replacements |
| Overrides.ApplyPolicy | src/headers.rs:194-201 | the rules that hit run in configuration order |
| Overrides.RuleMeans | src/headers.rs:114-124 | a rule leaves a name with the last value it sets, or else with what it does not remove and then what it adds |
| Overrides.PolicyMeans | src/headers.rs:106-110 | each rule acts on what the ones before it left, exactly when its configured site means the requested or the final URL |
| Overrides.AddsAppend | src/headers.rs:118-120 | additions append to the values that are there |
| Overrides.LastTouchDecides | src/headers.rs:114-124 | a name's values are decided by the last remove or set that touches it and the additions after it |
| Overrides.UntouchedStays | src/headers.rs:114-124 | a name no action touches keeps its values |
| Overrides.ManagedHeadersStay | src/headers.rs:35-43 | whatever rules compiled and whichever hit, hop-by-hop, Content-Length, CORS and X-Cache headers keep their values |
| Entry.EffectiveTtlIsTheLeastBound | src/cache.rs:836-870 | the lifetime is the least of the configured one, the upstream's max-age and the time to Expires |
| Entry.DigitsInvertDecimal | src/cache.rs:849-849 | the digit reader inverts decimal notation, leading zeros included |
| Entry.ParseU64Means | src/cache.rs:849-849 | a number is read exactly when it is decimal, possibly with a plus sign, and fits in 64 bits |
| Entry.MaxAgeDirectiveMeans | src/cache.rs:844-850 | a directive is read exactly when it is max-age in any case, an equals sign and such a number, possibly quoted, with blanks around |
| Entry.PlainMaxAge | src/cache.rs:844-850 | every usual way to write a max-age is such a directive |
| Entry.DeclaredLifetime | src/cache.rs:836-870 | the lifetime is the least of the configured one, the first max-age the header text declares, and the time to Expires |
| Entry.UndeclaredLifetime | src/cache.rs:836-870 | without a declared max-age only the configured lifetime and Expires count |
| Entry.CacheableMeans | src/cache.rs:799-813 | which responses may be stored, in terms of the header text |
| Entry.DirectivesMean | src/cache.rs:806-809 | a directive is there when a comma part of the first Cache-Control value is it, in any case |
| Entry.SupportedMeans | src/cache.rs:825-825 | the headers a stored response may vary on |
| Entry.RequestVariantsMean | src/cache.rs:338-346 | a stored request value is the first value of a Vary name, when it is text |
| Entry.RenewedMeans | src/cache.rs:290-301 | a validator is taken from a 304 that sends it as text, and kept otherwise |
| Entry.DistinctInOrder | src/cache.rs:828-830 | the Vary names are kept in the order of their first occurrences |
| Entry.DistinctNames | src/cache.rs:828-830 | Vary names are kept once, none is lost |
| Entry.ParseVary | src/cache.rs:815-834 | exactly the responses whose Vary is text and names supported headers only are accepted, with their distinct names in order |
| Entry.AddNames | src/cache.rs:819-831 | one Vary value is accepted exactly when all its names are supported |
| Entry.BeginEntry | src/cache.rs:322-375 | exactly which responses may be stored, and every field of the entry they start: age, bounded positive lifetime, revalidation mark, validators, Vary and the request values it names |
| Entry.Refreshed | src/cache.rs:281-303 | a refresh sets the age, takes the bounded lifetime and the validators the response sends, keeps the other validators, and changes nothing else |
| Entry.HashInput | src/cache.rs:758-770 | the loop feeds the hasher the subject, then each supported name and its first value, NUL-terminated |
| Entry.FirstFieldDetermined | src/cache.rs:763-767 | a NUL-terminated field is determined by the text |
| Entry.KeyTextInjective | src/cache.rs:758-770 | the hashed text determines the subject and every first value, with absent identified with empty |
| Entry.HashedAlike | src/cache.rs:758-770 | on header maps: what is hashed for two requests is the same exactly when the subjects and the first values of all supported headers are |
| Names.ClassifyInvertsRender | src/cache.rs:447-456 | distinct files of the model have distinct names on disk |
| Names.RenderInvertsClassify | src/cache.rs:447-456 | every name on disk is one file of the model |
| Names.TempByKey | src/cache.rs:780-782 | a metadata file counts as temporary exactly when its body file does |
| Names.TempsDiffer | src/cache.rs:372-377 | within one process, two counter values never give the same temporary name, whatever kind and key |
| Names.TempsAreTemporary | src/cache.rs:408-413 | every temporary name is recognised by cleanup and is never metadata or a body |
| Lru.ScanTotalIsClamped | src/cache.rs:499-500 | the saturating scan total is the true sum clamped to 64 bits |
| Lru.StableSortSorted | src/cache.rs:525-525 | the order is sorted by last access and keeps all entries |
| Lru.SortFiltered | src/cache.rs:525-525 | sorting commutes with selecting, so entries of equal age keep their scan order |
| Lru.TiesKeepScanOrder | src/cache.rs:525-525 | entries of equal age keep the order of the scan |
| Lru.DropsIsLongestFit | src/cache.rs:526-534 | the loop cuts the order at the longest suffix that fits, and nowhere else |
| Lru.SurvivorsExact | src/cache.rs:571-582 | when the sum fits in 64 bits the survivors are exactly that suffix |
| Lru.SurvivorsMonotone | src/cache.rs:571-582 | evicting to a smaller limit leaves a suffix of what the larger leaves |
| Lru.EvictTwiceIsEvictOnce | src/cache.rs:571-582 | evicting to m2 and then, rescanning in the same order, to m1 is evicting to m1 |
| Lru.ScanOrderIsIrrelevant | src/cache.rs:574-574 | with distinct access times the outcome does not depend on the order of the scan |
| Lru.OversizedTakesOlder | src/cache.rs:571-582 | nothing older than an entry over the limit survives |
| Lru.OversizedGoes | src/cache.rs:571-582 | an entry larger than the limit never survives |
| CacheDir.LiveIffHit | src/cache.rs:466-501 | the scan's validity test and lookup with the freshness test agree |
| CacheDir.LookupFindsMeans | src/cache.rs:252-271 | a lookup finds readable metadata of this version with a body of the recorded length |
| CacheDir.WouldHitMeans | src/cache.rs:305-307 | and it is a hit when it is not to be revalidated and has not expired |
| CacheDir.VerdictMeans | src/cache.rs:448-496 | which files the scan takes for temporary, unusable and outdated |
| CacheDir.TallyCounts | src/cache.rs:448-496 | the counters are the numbers of these files |
| CacheDir.OrphansAreAlone | src/cache.rs:504-519 | the bodies the second pass finds are those without readable metadata |
| CacheDir.BytesWithout | src/cache.rs:785-797 | removing a file takes exactly its bytes off the directory |
| CacheDir.VerdictStays | src/cache.rs:443-502 | handling one name of the scan does not change the verdict on another |
| CacheDir.CacheDirectory.Discard | src/cache.rs:785-797 | a removal is counted with the file's bytes when it succeeds and as an error when it fails |
| CacheDir.CacheDirectory.ScanOne | src/cache.rs:443-502 | one name of the scan: the verdict decides what is removed, counted and listed |
| CacheDir.CacheDirectory.ScanPass | src/cache.rs:443-502 | the first pass removes temporary, invalid and stale files only and lists the live entries in scan order |
| CacheDir.CacheDirectory.OrphanPass | src/cache.rs:504-523 | the second pass removes exactly the bodies without a live entry, and counts them |
| CacheDir.CacheDirectory.LruPass | src/cache.rs:526-534 | the eviction loop removes exactly the entries before the cut |
| CacheDir.CacheDirectory.CleanupStartup | src/cache.rs:421-537 | for every directory and pattern of failures: bytes before equal bytes after plus bytes removed, every file gone has a reason, counters match the verdicts; when no error is counted, and so whenever all removals succeed, exactly the kept files remain and the orphans counted are the bodies without readable metadata |
| CacheDir.CacheDirectory.Evict | src/cache.rs:539-583 | the runtime eviction counts all readable metadata with its body and removes exactly what the cut drops |
| CacheDir.CacheDirectory.WriteMetadata | src/cache.rs:406-417 | on success the metadata is replaced as a whole, on failure only the temporary file is affected |
| CacheDir.CacheDirectory.Lookup | src/cache.rs:249-278 | the entry found is the valid one on disk with its access time renewed; unusable metadata is removed and nothing else |
| CacheDir.CacheDirectory.Commit | src/cache.rs:394-404 | body and metadata take their final names, then the eviction runs over that directory; a failed body rename changes nothing, failed metadata leaves the new body over what metadata there was |
| CleanupTheory.LiveMeans | src/cache.rs:466-495 | what makes an entry live, spelled out |
| CleanupTheory.SurvivorFiles | src/cache.rs:498-534 | the bytes of the entry files left are the sum of the survivors' sizes |
| CleanupTheory.CleanupCleans | src/cache.rs:421-537 | from an arbitrary directory: no temporary files, only live metadata, every body with its metadata, and a total within the limit |
| CleanupTheory.CleanupIsIdempotent | src/cache.rs:421-537 | a second cleanup at the same time removes nothing, in whatever order it scans |
| CleanupTheory.CleanupInvisibleToHits | src/cache.rs:466-501 | without eviction, whatever removals fail, a key is a hit before exactly when it is after, with the same entry and body |
| CleanupTheory.CleanupHits | src/cache.rs:466-534 | with eviction, the hits lost are exactly those of the entries cut |
| CleanupTheory.StartupEvictsLeastRecent | src/cache.rs:501-534 | a servable entry that cleanup evicts was last used no later than any entry left, and it and what was used no earlier are together over the limit |
| CleanupTheory.EvictionTakesLeastRecent | src/cache.rs:559-582 | the same for the eviction of a commit |
| CleanupTheory.OversizedCommitTakesOlder | src/cache.rs:571-582 | and it takes every older entry with it |
| CleanupTheory.RescanFindsSurvivors | src/cache.rs:546-570 | the scan after an eviction lists exactly its survivors |
| CleanupTheory.EvictTwiceLeavesTheSame | src/cache.rs:539-583 | with distinct access times, evicting to m2 and then to m1 leaves the directory of evicting to m1, in whatever orders the scans list it |
| CleanupTheory.OversizedEntryIsNotKept | src/cache.rs:394-404 | an entry larger than the limit does not survive the eviction of its own commit |
| MachineSafety.TempWriteKeeps | src/cache.rs:372-384 | writing one temporary file disturbs no other operation's file |
| MachineSafety.ReadMetaKeeps | src/cache.rs:252-263 | reading metadata keeps the invariant |
| MachineSafety.StatBodyKeeps | src/cache.rs:264-275 | measuring the body keeps the invariant |
| MachineSafety.OpenMetaKeeps | src/cache.rs:406-415 | creating temporary metadata keeps it |
| MachineSafety.RenameMetaKeeps | src/cache.rs:416-416 | the metadata rename keeps it, for lookup, refresh and commit |
| MachineSafety.NotModifiedKeeps | src/cache.rs:281-303 | a refresh keeps it |
| MachineSafety.StoreKeeps | src/cache.rs:322-392 | beginning a write keeps it |
| MachineSafety.TransferGrows | src/proxy.rs:467-477 | a chunk passed on and written leaves the copy equal to what the client got |
| MachineSafety.TeeNextKeeps | src/proxy.rs:465-487 | the next metered item, written or not, keeps it |
| MachineSafety.TempBodyKeeps | src/cache.rs:614-629 | buffered writes reaching the file, and discarding it, keep it |
| MachineSafety.FlushKeeps | src/cache.rs:620-624 | finishing a write keeps it |
| MachineSafety.RenameBodyKeeps | src/cache.rs:397-397 | the body rename keeps it |
| MachineSafety.EvictKeeps | src/cache.rs:579-580 | evicting any keys at any moment keeps it |
| MachineSafety.RestartKeeps | src/cache.rs:421-537 | a crash and a restart that keeps any part of the directory keep it |
| MachineSafety.StepKeeps | src/cache.rs:249-629 | every step of every operation keeps the invariant |
| MachineSafety.RunKeeps | src/cache.rs:249-629 | so does every run |
| MachineSafety.WritesAreWhole | src/proxy.rs:462-493 | every finished write is the whole body of its fault-free upstream, within the cap, and what its client received |
| MachineSafety.BodiesAreWhole | src/cache.rs:394-404 | in every reachable state each committed body is, byte for byte, such a whole upstream body of a write for its key |
| MachineSafety.LookupsSeeWholeBodies | src/cache.rs:264-278 | a lookup that found an entry measured such a body, of exactly the recorded length |
| MachineSafety.ServeKeeps | src/proxy.rs:296-312 | sending a hit keeps the invariant, the record of what was sent included |
| MachineSafety.ServesExactlyTheFresh | src/proxy.rs:299-312 | in every reachable state the entry of a lookup is sent as a hit exactly when it is not to be revalidated and has not expired |
| MachineSafety.FoundIsBacked | src/cache.rs:252-278 | an entry found descends from a write for the same request and was dated by a store or refresh for it |
| MachineSafety.ServedIsBacked | src/proxy.rs:346-361 | so does every entry ever sent, validated ones included, and its body was the whole body of a write for the request |
| MachineSafety.HitsAreFresh | src/proxy.rs:296-312 | every hit ever sent came less than the configured lifetime after a store or refresh for the same request, and never from a response that asked for revalidation |
| MachineSafety.FoundRespectsVary | src/cache.rs:332-346 | an entry found was stored by a request that agrees on the subject and on every header its Vary names |
| MachineSafety.VaryIsRespected | src/cache.rs:332-346 | so was every entry ever sent |
| Pairing.StepPairs | src/cache.rs:394-417 | with one request per key at a time, every step keeps metadata and body paired up to cut commits |
| Pairing.LookupsArePaired | src/cache.rs:264-271 | then a lookup's metadata and body come from one write, except after a commit cut between its renames over existing metadata of equal body length |
| CutCommits.StepIndexes | src/cache.rs:394-417 | in all interleavings, metadata in place or in hand is of a write whose commit passed its second rename |
| CutCommits.MetadataIsNotPending | src/cache.rs:394-399 | so metadata on disk never belongs to a write whose commit is still before that rename |
| CutCommits.CutCommitMixes | src/cache.rs:397-399 | in every reachable state, such a cut leaves metadata and body of two different writes; the next request takes the mixed pair if and only if the lengths are equal, and drops the metadata otherwise |
| CutCommits.MixedPairHappens | src/cache.rs:394-417 | for every request and any two bodies, a serial run from an empty directory ends in a mixed pair found, when the lengths are equal, or in metadata dropped |
| CacheSystem.PlanRequest | src/cache.rs:227-247 | a request is planned exactly when it has no Authorization, Cookie or Range and its subject a positive lifetime; the plan is the hash of its key text and that lifetime |
| CacheSystem.SetupIsSound | src/cache.rs:758-770 | with a collision-free hash and readable metadata, keys tell requests apart |
| CacheSystem.KeysTellRequestsApart | src/cache.rs:758-770 | two planned requests share a key exactly when they have the same URL and the same first value of every header a response may vary on |
| CacheSystem.VaryHoldsForHeaders | src/cache.rs:332-346 | on header maps: a response sent and the request that stored it have the same URL and the same first value of every header its Vary names |
| CacheSystem.HitsRespectTheRules | src/cache.rs:227-247 | every hit ever sent is younger than the last matching rule's lifetime and than the global one |
| CacheSystem.RefreshedIsRefresh | src/cache.rs:281-303 | the real refresh is one the concurrent model admits |
| CacheSystem.CleanupIsARestart | src/cache.rs:421-537 | every outcome of startup cleanup is one the concurrent model admits |
| CacheSystem.HexKeysAreNotTemporary | src/cache.rs:758-782 | keys printed in hexadecimal are never temporary names |
| CacheSystem.RequestsSurviveCleanup | src/cache.rs:421-537 | so startup cleanup keeps every request's hit, whatever removals fail, when nothing is evicted, and otherwise costs exactly the hits of the entries cut |
| CacheSystem.HitReplaysMiss | src/proxy.rs:34-83 | every response ever sent from the cache carries what the client of the miss received, which is the whole body of a fault-free upstream |
| Undisturbed.LookupAlone | src/cache.rs:249-278 | undisturbed, the steps of a lookup give the result and directory of the sequential method |
| Undisturbed.SaveAlone | src/cache.rs:406-417 | undisturbed, the steps of saving metadata leave it under its key and no temporary file |
| Undisturbed.TeeRuns | src/proxy.rs:465-487 | after any number of polls the tee has copied what it passed on, or has given up at a failed item or write |
| Undisturbed.TeeAlone | src/proxy.rs:462-493 | the steps of the tee hand a body to the commit under the very condition of `TeeBody`, with what the client received as body and its length recorded |
| Undisturbed.EvictsAll | src/cache.rs:575-582 | the eviction steps remove both files of every victim and nothing else |
| Undisturbed.CommitAlone | src/cache.rs:394-404 | undisturbed, a commit with its eviction ends in the directory that the sequential method leaves |
| Undisturbed.CommitThenLookUp | src/cache.rs:249-404 | the next request finds the committed entry and exactly the committed bytes, unless the commit's own eviction cut it, and is a hit exactly when the entry is fresh |
| Undisturbed.StoreThenHit | src/cache.rs:249-404 | the same from the start of the response: what a client got in full is what the next request finds, however much later |
| Undisturbed.StoredThenServed | src/proxy.rs:288-312 | and what it is sent as a hit, exactly when the entry was not cut, did not ask for revalidation, and has not expired by then |
| Undisturbed.RefreshAlone | src/proxy.rs:342-361 | undisturbed, a 304 leaves the refreshed metadata on disk and sends the entry as validated with the body measured |
| Undisturbed.DiscardAlone | src/cache.rs:626-628 | a copy given up leaves no temporary file |
| Undisturbed.FailedSteps | src/cache.rs:252-277 | what each operation goes on with when a file step fails |
| Undisturbed.RestartAlone | src/cache.rs:421-427 | a restart ends every request, starts the counter again and keeps part of the directory |

## Left out

- HTTP serving, the upstream client, DNS, TLS, logging, signals, configuration decoding and validation: input and output. The upstream is an arbitrary sequence of chunks, or an arbitrary function from requests to answers.
- Request-count rate limiting: the logic is in a library that is not part of this model.
- SHA-256, JSON text, URL parsing, HTTP dates and user-written regular expressions: abstract functions. The hash is collision-free by assumption, metadata can be read back, and a date enters as seconds from now.
- Power loss and missing fsync: a crash is a process crash, renames are atomic, and what was written stays.
- Directory entries that are not regular files or whose names are not UTF-8, and failures to list or read the directory during cleanup. Removal failures are modelled for every attempt.
- Counters that would have to pass 2^64 (temporary file numbers, cleanup counters, file lengths) are unbounded. Saturating sums are modelled as such where the code saturates: tier counters, result guard, eviction totals, body lengths.
- White space and case: `Text.Trim` and `Text.Lower` cover ASCII; Unicode white space and the Unicode lower case of exact list entries are not modelled.
- LimitTheory.TiersAndBucketsAreIndependent: charges of the whole limiter happen one after the other; two charges that overlap in time may reach different tiers in different orders, but each tier still sees some sequence, to which the one-tier lemmas apply.
- What a failed write leaves in a temporary body is not followed by the concurrent model, because the next step removes the file and nothing reads it; `Tee.CacheWriter.Write` says what may be there.
- The headers module is about per-name values in order; the order of different names is left open, as the header map leaves it.
- Streaming a hit reads the file after the lookup; if another request replaces or evicts it meanwhile the client may see another body or an error. `CacheSystem.HitReplaysMiss` is about the file as it was measured.
