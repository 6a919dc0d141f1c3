# A verified model of the blocklist pipeline, its device side, and the plan tools

The project models, in Dafny 4.11, four things the repository does.

* **The life of a blocklist.** Raw source lines are merged into rules, swept for liveness, compiled into a signed
  map of reversed names, published into two slots, loaded on a device, and consulted under a deadline.
* **The stores under the sweep**: the liveness cache with its write buffer, and the scratch file of merged entries.
* **The DNS question reader** and the refusal it synthesizes.
* **The plan ledger and its driver**: scheduling steps, finding cycles, validating, choosing, and running them.

Code that changes things step by step is an imperative method or a class whose contract ties it to a function of the
old state; the properties are lemmas about those functions, about every run of a transition system, or about every
reachable state.

| file | what it models |
|---|---|
| `Orders`, `Graphs`, `Histories`, `Names`, `Wrappers`, `Bytes`, `BlocklistTypes` | tuple order, walks, recorded runs, label reversal, shared types |
| `Merge`, `FstBuild`, `Artifact` | raw lines to rules, rules to a signed artifact, loading and matching |
| `Lru`, `Recency` | the cache, and what it holds after any operations |
| `LookupProtocol`, `LateRequests`, `LookupOutcomes`, `DeviceAnswer` | the concurrent lookup, when it asks twice, how each call ends, and what an answer means |
| `Liveness`, `CacheStore`, `EntriesStore`, `Sweep`, `SweepDurability`, `SweepStreaming`, `SweepCadence`, `SweepHistory`, `LivenessRun` | the sweep, its stores, and the stage around it |
| `Slots`, `Gates`, `Pipeline` | publishing step by step, the gates, one pipeline run |
| `Dns` | the question reader and the refusal |
| `Scheduling`, `Cycles`, `Ledger`, `LedgerCheck`, `Driver` | the plan tools |

What lies outside enters as a parameter: name normalization and the Public Suffix List (`NameLibrary`), hashing and
signatures (`Crypto`), the record serializer (`Codec`), UTF-8 decoding, the corroborated verdict of each domain, the
outcome of each canary pass, which disk commits succeed, the order in which concurrent checks finish, and the
driver's surroundings (`Site`). A time-out is a step that may happen whenever a caller waits.

`Worker::handle_lookup` caches an answer before clearing the in-flight table, so that a call arriving between the two
steps is not asked for again.  That holds (`BetweenTheSteps`).  A call that read the cache before the answer was stored
and registers after the table was cleared does ask again; `SecondRequestIff` says exactly when, and
`SecondRequestPossible` that it happens.

Where the code and its own comments disagree, the model follows the code:

* `publish` says a rebuild never destroys the fallback slot. Over a `current` torn between its two files it would
  (`TornCurrentCostsTheFallback`); what prevents it is that `load_previous` refuses such a slot (`RefusesIff`).
* `EntryReader::next` says a truncated file is never read as fewer entries. A cut that leaves fewer than eight bytes
  of a record is (`TruncationSeenIff` says exactly which cuts are seen).
* The quarantine check demands `quarantine >= 2 * ttl`. What two dead observations need is exactly
  `quarantine >= ttl` with a positive quarantine (`TwiceDeadIff`); `ttl = quarantine = 0` passes the check and prunes
  on one look. The pruning predicate's comment says the entry comes from before the sweep's update; the callers pass
  the updated one, and the model does as the callers do.
* The name reader checks the 255-octet limit of section 2.3.4 of RFC 1035 without the root octet, so it accepts one
  octet more (`RootOctetIsNotCounted`).

## Model

| member | source | states |
|---|---|---|
| `Names.ReverseKeyInvolution` | packages/domain-blocklist/src/fst_build.rs:136-140 | reversing the labels of any string twice gives the string back, so the device and the build can share one function |
| `Names.SuffixIsBoundaryPrefix` | packages/domain-blocklist/src/fst_build.rs:130-140 | one name is a label-boundary suffix of another if and only if its reversed key is a label-boundary prefix of the other's |
| `Merge.Merge` | packages/domain-blocklist/src/merge.rs:96-160 | the loop's output is a merge of the lines: sorted, one entry per kept name, its sources and categories exactly those of the lines behind it, apex if any of them is, and one count per drop reason |
| `Merge.EntriesMean` | packages/domain-blocklist/src/merge.rs:96-160 | line by line: an entry for every name a line survives under; a source or category listed exactly when such a line has it; apex exactly when one is a wildcard line for a registrable name |
| `Merge.ReportMeans` | packages/domain-blocklist/src/merge.rs:105-119 | which counter a dropped line moves: no normal form, else an address, else on the denylist |
| `Merge.MergeOrderIndependent` | packages/domain-blocklist/src/merge.rs:96-160 | permuting the raw lines changes neither entries nor counts |
| `Merge.MergeConcat` | packages/domain-blocklist/src/merge.rs:120-144 | merging a concatenation is the pointwise join of the two merges (union of sources and categories, wider scope), and the counts add |
| `Merge.MergeAccounts` | packages/domain-blocklist/src/merge.rs:105-144 | every line is either in exactly one drop counter or behind exactly one output entry |
| `FstBuild.AssignProvenance` | packages/domain-blocklist/src/fst_build.rs:162-201 | the sorted table lists each combination once, and each reversed name maps to its entry's combination |
| `FstBuild.ProvenanceMeans` | packages/domain-blocklist/src/fst_build.rs:162-201 | each name leads to the sources, categories and scope of its own entry; nothing else is in the table; the table is ordered by sources, then categories, then scope, in declaration order |
| `FstBuild.ProvenanceDetermined` | packages/domain-blocklist/src/fst_build.rs:180-201 | table and ids depend on the set of entries only, so builds can be compared |
| `FstBuild.Build` | packages/domain-blocklist/src/fst_build.rs:244-297 | without keys it refuses; otherwise count, digest, table and one signature per key over the unsigned manifest are as promised |
| `FstBuild.EntryCountIsDomainCount` | packages/domain-blocklist/src/fst_build.rs:256-263 | the manifest's entry count is the number of domains, and un-reversing the stored keys gives exactly those domains |
| `FstBuild.VerifyManifest` | packages/domain-blocklist/src/fst_build.rs:305-324 | the loop accepts exactly when some signature is good, over everything but the signatures, under the first trusted key listed with its key id |
| `FstBuild.BuiltVerifies` | packages/domain-blocklist/src/fst_build.rs:222-324 | a device that trusts any one of the signing keys accepts the build |
| `Artifact.Load` | packages/net-shield/src/blocklist.rs:109-171 | what is loaded is a signed manifest and the map of its digest, from current if it holds such a pair, else from previous; an error only if neither does, and then the first thing wrong with the first slot that has files, the signature before the digest before the decoding |
| `Artifact.Lookup` | packages/net-shield/src/blocklist.rs:190-216 | blocks exactly when some label-boundary prefix of the reversed query is stored with apex scope, or the whole of it with any scope |
| `Artifact.CompiledCovers` | packages/net-shield/src/blocklist.rs:190-216 | the compiled matcher and a naive scan over the merged entries block the same queries |
| `Artifact.EndToEnd` | packages/net-shield/src/blocklist.rs:109-216 | merge, prune, build, load, lookup: a query is blocked if and only if some surviving raw line whose name was not pruned names it, or is wildcard-hinted, apex-eligible and a label suffix of it |
| `Artifact.BuildReproducible` | packages/domain-blocklist/src/fst_build.rs:160-201 | the signed artifact does not depend on the order source lines came in, whatever is pruned |
| `Artifact.Allowlist.Insert` | packages/net-shield/src/blocklist.rs:245-251 | keeps exactly the entries that normalize |
| `Artifact.Allowlist.Contains` | packages/net-shield/src/blocklist.rs:254-265 | true exactly for kept names and names ending in one at a label boundary |
| `Artifact.AllowlistAgreesWithLookup` | packages/net-shield/src/blocklist.rs:254-265 | the allowlist covers exactly what an all-apex artifact of the same names blocks |
| `Lru.LruCache.GetValue` | packages/net-shield/src/blocklist.rs:583-587 | map and order list together behave as a recency list: a hit moves its key to the recent end, a miss changes nothing |
| `Lru.LruCache.PutValue` | packages/net-shield/src/blocklist.rs:589-606 | the same for insertion: within capacity, keys of the map equal to the duplicate-free order, oldest out when full |
| `Lru.LargerCacheKeepsEveryHit` | packages/net-shield/src/blocklist.rs:566-608 | after any operations a smaller cache's list is a subsequence of a larger one's, and every hit in it is a hit with the same value in the larger |
| `Recency.HitRefreshes` | packages/net-shield/src/blocklist.rs:583-587 | a hit answers with the value of its key and moves it to the recent end, the other keys keeping their order |
| `Recency.HoldsTheFreshest` | packages/net-shield/src/blocklist.rs:566-608 | after any operations the cache holds the keys used last (put, or read with a hit), at most its capacity of them, ordered by last use |
| `Recency.HoldsTheLastPut` | packages/net-shield/src/blocklist.rs:566-608 | and each under the value put last |
| `LookupProtocol.InvOnEveryRun` | packages/net-shield/src/blocklist.rs:372-551 | on every interleaving of callers, queue and worker the token, waiter, truth and counter invariants hold |
| `LookupProtocol.OneOutstandingRequest` | packages/net-shield/src/blocklist.rs:500-534 | a name is in the in-flight table exactly when one request token for it exists, and there is never more than one; the queue stays within its bound |
| `LookupProtocol.QuiescentIsClean` | packages/net-shield/src/blocklist.rs:396-405 | when no request is outstanding the table is empty and every waiting caller has been answered or disconnected |
| `LookupProtocol.FinishedLookup` | packages/net-shield/src/blocklist.rs:498-551 | a lookup returns Block or Proxy; Block only for names the artifact blocks; Proxy for such a name only after this call counted a fallback or a panic was counted for the name |
| `LookupOutcomes.HowItEnded` | packages/net-shield/src/blocklist.rs:498-551 | on every run each finished call was ended by one of four steps, with that step's result: a cache hit, an answer received, a request that could not be sent, or, exactly when its wait has expired, its late cache read |
| `LookupOutcomes.ExpiredLookup` | packages/net-shield/src/blocklist.rs:536-549 | a call whose wait expired returns what the cache holds for its name at its late read, else the default; without a counted panic it lets a blocked name through exactly when the cache had nothing |
| `LookupOutcomes.ExpiredReturns` | packages/net-shield/src/blocklist.rs:539-549 | from any such moment two steps are left: the event is counted once, and the cache is read |
| `LookupOutcomes.RefusedReturns` | packages/net-shield/src/blocklist.rs:535-546 | a call whose request could not be sent clears its entry, counts the event and returns the default |
| `LookupOutcomes.SendsIff` | packages/net-shield/src/blocklist.rs:535-538 | a request is queued unless 1024 are, and is refused then |
| `LookupOutcomes.ReturnsInSixSteps` | packages/net-shield/src/blocklist.rs:498-551 | from every reachable state a call can return by at most six steps of its own, waiting for nobody |
| `LookupOutcomes.ChannelStep` | packages/net-shield/src/blocklist.rs:396-405 | an answer reaches exactly the caller it is sent to, a disconnect exactly the callers of an entry given up, and nothing takes either back |
| `LookupOutcomes.OthersLeaveIt` | packages/net-shield/src/blocklist.rs:498-551 | no step but its own moves a call on, renames it or counts a fallback for it |
| `LookupOutcomes.DecideStep` | packages/net-shield/src/blocklist.rs:372-384 | the worker decides Block exactly for a blocked name whose lookup did not panic; a panic is counted, and means no rule |
| `LookupOutcomes.RequestsInOrder` | packages/net-shield/src/blocklist.rs:345-351 | the worker has taken, and the queue holds, exactly what was sent, in that order |
| `LookupOutcomes.CacheHoldsTheFreshest` | packages/net-shield/src/blocklist.rs:566-608 | on every run the cache holds the names decided or hit last, at most the configured number, each with the decision stored last |
| `LookupProtocol.AnsweredAfterCounted` | packages/net-shield/src/blocklist.rs:366-405 | an answer comes from a request for that very name which the processed counter already includes |
| `LookupProtocol.MetricsAreExact` | packages/net-shield/src/blocklist.rs:434-451 | fallbacks equal the calls that fell back, panics the panicked lookups, and processed requests lag the taken ones by at most the current one |
| `LateRequests.BetweenTheSteps` | packages/net-shield/src/blocklist.rs:362-403 | a call that reads the cache after the worker stored the answer for its name, and before it has sent it, gets that very answer and registers nothing |
| `LateRequests.CachedIffStoredSinceRead` | packages/net-shield/src/blocklist.rs:500-534 | on every run, a call that missed finds its name in the cache when it comes to register if and only if an answer for it was stored after its read and not pushed out since |
| `LateRequests.SecondRequestIff` | packages/net-shield/src/blocklist.rs:362-403 | registering sends a request for a name whose answer is cached if and only if the name is not in flight and the answer was stored after the call's cache read |
| `LateRequests.SecondRequestPossible` | packages/net-shield/src/blocklist.rs:362-403 | and such a run exists for every name: the worker is asked twice although the first answer never left the cache |
| `DeviceAnswer.PublishedBlocksRawLines` | packages/net-shield/src/blocklist.rs:109-216 | the disk a finished publish leaves: a device trusting one signing key loads that version, and it blocks exactly what the unpruned raw lines cover |
| `DeviceAnswer.AnswerMeansRawLines` | packages/net-shield/src/blocklist.rs:498-551 | from raw lines over that disk to an answer under a deadline: Block only for covered names, Proxy for a covered name only with a counted fallback or panic |
| `Liveness.CheckControlWithRetry` | packages/domain-blocklist/src/sweep.rs:208-221 | returns the answer of the first attempt that is as expected or a real answer, the third at the latest |
| `Liveness.RetryNeverHidesAnAnswer` | packages/domain-blocklist/src/sweep.rs:192-221 | a control passes if and only if one of the first three answers is as expected and all before it were time-outs or transport failures |
| `Liveness.CanaryPassBoth` | packages/domain-blocklist/src/sweep.rs:226-264 | both resolvers must find every live control alive and every dead one dead in that sense, and the primary is blamed first |
| `CacheStore.CacheStore.Get` | packages/domain-blocklist/src/cache_store.rs:436-477 | reads the database overlaid by the buffer; a database that cannot be read is counted and read as a miss |
| `CacheStore.CacheStore.Set` | packages/domain-blocklist/src/cache_store.rs:479-481 | updates that view at one key, leaves the database alone, and is recorded |
| `CacheStore.CacheStore.Flush` | packages/domain-blocklist/src/cache_store.rs:483-515 | a successful flush keeps the view and makes it the database; a failed one loses the buffer and keeps the database; either is recorded |
| `CacheStore.FailedFlushHarmlessIff` | packages/domain-blocklist/src/cache_store.rs:488-490 | losing the buffer leaves the view unchanged exactly when the buffer repeated the database |
| `CacheStore.CacheStore.ForEach` | packages/domain-blocklist/src/cache_store.rs:526-547 | visits exactly the rows of the view, in key order, unless the flush failed or the rows cannot be read |
| `CacheStore.ListsOnce` | packages/domain-blocklist/src/cache_store.rs:526-547 | such a visit meets each key exactly once |
| `EntriesStore.EntryReader.Next` | packages/domain-blocklist/src/entries_store.rs:87-102 | delivers the record at the cursor, the end, or the two hard errors, and moves the cursor past what it read |
| `EntriesStore.WriteThenRead` | packages/domain-blocklist/src/entries_store.rs:52-102 | reading a written file gives the entries in order and a clean end, for any serializer that gives these entries back |
| `EntriesStore.EveryCorpusHasACodec` | packages/domain-blocklist/src/entries_store.rs:52-102 | what is asked of the serializer can be met for every corpus |
| `EntriesStore.TruncationSeenIff` | packages/domain-blocklist/src/entries_store.rs:84-97 | a cut file yields exactly the whole records before the cut, and passes for complete exactly when fewer than eight bytes of the cut record remain |
| `EntriesStore.ReadAllMeans` | packages/domain-blocklist/src/entries_store.rs:84-102 | over any bytes: what is delivered is what the length-prefixed records there decode to, one after the other, and the pass ends exactly where no record can be read, cleanly only if fewer than eight bytes are left |
| `EntriesStore.LittleEndian` | packages/domain-blocklist/src/entries_store.rs:52-97 | the eight length bytes count from the least significant |
| `Sweep.ProcessBatch` | packages/domain-blocklist/src/sweep.rs:300-346 | whatever order the checks finish in, every domain of the batch gets one updated entry and nothing else changes |
| `Sweep.RunSweepInMemory` | packages/domain-blocklist/src/sweep.rs:359-437 | outcome, pruned set, count and every error, checkpoint errors included, are exactly those of the chunked computation over the list of due domains |
| `SweepCadence.ResidentCadence` | packages/domain-blocklist/src/sweep.rs:376-437 | counted in names and the configured interval: every due name is checked, a canary passes after each interval of them and after the last; the only errors are the first canary or the first due save that fails, each with the count it came at |
| `SweepCadence.StreamCadence` | packages/domain-blocklist/src/sweep.rs:452-537 | the same of the streaming sweep, which may also fail to read its file |
| `SweepCadence.ChunksInUnits` | packages/domain-blocklist/src/sweep.rs:465-499 | every chunk it checks has as many names as the canary interval says (one, if that is zero), but perhaps the last |
| `Sweep.SweepsAgree` | packages/domain-blocklist/src/sweep.rs:376-530 | deciding what is due up front or entry by entry between updates makes no difference for a duplicate-free corpus: same outcome or same error at the same count, but for the streaming sweep's final write |
| `SweepStreaming.RunSweepStreaming` | packages/domain-blocklist/src/sweep.rs:452-564 | exact result for any file bytes; begun with nothing buffered, every state the store is recorded to have been in has on disk the verdicts of the first so many chunks, each followed by a passed canary, and in the buffer only names of later ones, at most one checkpoint interval rounded up to a multiple of the canary interval; a completed sweep loses nothing |
| `SweepDurability.ChunksAreChecked` | packages/domain-blocklist/src/sweep.rs:480-530 | those chunks are what a sweep that gets through has checked, every name of them and no other |
| `SweepStreaming.DriversAgree` | packages/domain-blocklist/src/sweep.rs:359-564 | the streaming sweep over the written file ends as the in-memory sweep over the corpus |
| `SweepDurability.RoundUpIsLeast` | packages/domain-blocklist/src/cli.rs:121-129 | the rounding in that bound is the least multiple of the canary interval that is not below the checkpoint interval |
| `LivenessRun.ReadKept` | packages/domain-blocklist/src/main.rs:800-810 | the second reading keeps the entries that were not pruned, in order, and fails exactly on a file that does not end cleanly |
| `BlocklistTypes.KeepsOrder` | packages/domain-blocklist/src/main.rs:800-810 | one entry more to read is one more kept, in its place, exactly when it is not pruned |
| `LivenessRun.RunLiveness` | packages/domain-blocklist/src/main.rs:727-817 | from merged entries through scratch file, sweep and re-reading: what is kept and cached is what the in-memory sweep over the entries says, and no other error arises but a failed last write |
| `LivenessRun.KeptIff` | packages/domain-blocklist/src/main.rs:800-810 | after any history of sweeps exactly those entries are dropped whose name is not special-use and whose current dead streak began a quarantine ago or earlier |
| `SweepHistory.CacheTellsTheStreak` | packages/domain-blocklist/src/sweep.rs:325-344 | after any history the cached entry is the last observation, and the streak start is set exactly when that is dead, to the first check of the current dead run |
| `SweepHistory.PrunedIff` | packages/domain-blocklist/src/sweep.rs:539-557 | a finished sweep prunes exactly the listed names, special-use ones apart, whose current dead streak began a quarantine ago or earlier |
| `SweepHistory.PrunedWasTwiceDead` | packages/domain-blocklist/src/cli.rs:194-206 | with a positive quarantine no shorter than the TTL every pruned domain was seen dead at least twice running, first a quarantine ago, last within one TTL |
| `SweepHistory.TwiceDeadIff` | packages/domain-blocklist/src/cli.rs:194-206 | that condition on the two settings is exact: otherwise some history prunes on a single look |
| `Slots.Disk.Do` | packages/domain-blocklist/src/slots.rs:178-205 | one file-system step, recorded; every recorded state is one step from the one before |
| `Slots.PossibleIff` | packages/domain-blocklist/src/slots.rs:151-205 | a file moves or goes only if it is there, a directory takes a new name only if that is free, and goes only when no file is left in it |
| `Slots.StepMeans` | packages/domain-blocklist/src/slots.rs:151-205 | file by file: what a step moves, writes and removes, and that it leaves every other file alone |
| `Slots.ClearDir` | packages/domain-blocklist/src/slots.rs:180-186 | removes a directory file by file in any order; every intermediate state only lacks files of that directory |
| `Slots.RotateCurrentIntoPrevious` | packages/domain-blocklist/src/slots.rs:151-176 | runs through the phases of rotation in order and leaves the old current as previous, or everything as it was if current was empty |
| `Slots.Publish` | packages/domain-blocklist/src/slots.rs:116-128 | every state on the way belongs to a phase, the phases come in order and each occurs; at the end current is the new build and previous what was retired |
| `Slots.NeverMixed` | packages/domain-blocklist/src/slots.rs:116-205 | over any sequence of publishes from an empty disk, each cut in any phase, no slot holds files of two builds |
| `Slots.RecordedIsReachable` | packages/domain-blocklist/src/slots.rs:116-205 | every file-system state a publish records, begun on what any such sequence left, is one such a sequence can leave, and mixes no builds |
| `Slots.LoaderRunsThrough` | packages/domain-blocklist/src/slots.rs:116-205 | over two loadable slots a start-up finds, in this order and each at least once, current v1, previous v0, nothing, previous v1, current v2 |
| `Pipeline.LoadPrevious` | packages/domain-blocklist/src/slots.rs:55-106 | first build only if both files are missing; otherwise the verified manifest and the un-reversed keys, or a refusal |
| `Pipeline.FoundMeans` | packages/domain-blocklist/src/slots.rs:55-106 | a build is found exactly when a signed manifest and the map of its digest are there, with the map's keys un-reversed for its domains; each refusal has its own flaw |
| `Pipeline.RefusesIff` | packages/domain-blocklist/src/slots.rs:55-106 | on any reachable disk of accepted builds the next run refuses exactly when one of current's two files is missing |
| `Pipeline.RunPipeline` | packages/domain-blocklist/src/main.rs:442-592 | what each run comes to: the loader's refusal, a version not above the one found, no signing keys, gates not passed, a dry run that changes nothing, or exactly the build of its entries published under the version asked for or the next one, retiring what was current |
| `Pipeline.GatesPassIff` | packages/domain-blocklist/src/main.rs:465-517 | the gates together: valid fractions, the floor, the two shares over an earlier build, and the verdict of the others |
| `Pipeline.NextRunFinds` | packages/domain-blocklist/src/slots.rs:55-106 | what the run after a crash finds, phase by phase |
| `Pipeline.VersionsGrow` | packages/domain-blocklist/src/main.rs:445-463 | over any sequence of runs that finish, published, dry or refused, whatever each asks for and trusts, published versions strictly grow |
| `Pipeline.GrowsOverLoadedIff` | packages/domain-blocklist/src/main.rs:446-463 | on any disk, crashed or not: a run that goes on publishes above what devices load from it exactly when current holds a file, or the version taken on an empty current is above it anyway |
| `Pipeline.VersionRestartsAfterCrash` | packages/domain-blocklist/src/main.rs:446-455 | a crash after rotation leaves such a disk: the count starts at 1 again although devices still load the old build |
| `Pipeline.FallbackKeptIff` | packages/domain-blocklist/src/slots.rs:116-176 | after a completed publish the fallback loads exactly when what was retired into it loaded |
| `Pipeline.TornCurrentCostsTheFallback` | packages/domain-blocklist/src/slots.rs:108-128 | publishing over a torn current would leave nothing loadable until the end and no fallback after |
| `Gates.ShrinkagePassesIff` | packages/domain-blocklist/src/gates.rs:72-110 | passes exactly when the threshold is a fraction, the floor is kept and at least the remaining share of the old count is there |
| `Gates.GrowthPassesIff` | packages/domain-blocklist/src/gates.rs:118-149 | passes exactly when the threshold is a fraction and the new names are at most that share of the old ones, or there were none |
| `Gates.RefusalsMean` | packages/domain-blocklist/src/gates.rs:72-149 | which refusal a gate gives and with which number |
| `Gates.ChurnBound` | packages/domain-blocklist/src/gates.rs:72-149 | if both gates pass, at most the sum of the two allowances of the previous domains disappear |
| `Gates.ChurnBoundIsTight` | packages/domain-blocklist/src/gates.rs:72-149 | the bound is reached |
| `Pipeline.PipelineChurn` | packages/domain-blocklist/src/main.rs:442-479 | the bound as a run meets it: against the manifest's count and the keys read back from the previous build |
| `Dns.ReadName` | packages/net-shield/src/dns.rs:117-151 | the loop reads exactly the labels at the position, or rejects them |
| `Dns.NameReadIff` | packages/net-shield/src/dns.rs:117-151 | a name is read if and only if the encoding of a legal label list stands there |
| `Dns.RootOctetIsNotCounted` | packages/net-shield/src/dns.rs:129-143 | a whole name of 256 octets is accepted |
| `Dns.OverLimitIff` | packages/net-shield/src/dns.rs:129-143 | an accepted name takes more than 255 octets if and only if its labels alone take 255 |
| `Dns.ParsesEncoded` | packages/net-shield/src/dns.rs:70-109 | parsing inverts encoding up to the case of the name, whatever follows |
| `Dns.QuestionMeans` | packages/net-shield/src/dns.rs:70-151 | octet by octet: identifier, type and class are big-endian pairs, the name is the decoded labels with a dot between two and ASCII letters lower-cased |
| `Dns.ParsedIsEncoded` | packages/net-shield/src/dns.rs:70-109 | every message that parses is such an encoding and something more |
| `Dns.ExtensionsIgnored` | packages/net-shield/src/dns.rs:70-109 | any message with the same question part parses alike |
| `Dns.TruncationsRejected` | packages/net-shield/src/dns.rs:70-109 | nothing cut before the reported end parses |
| `Dns.NxdomainResponse` | packages/net-shield/src/dns.rs:161-179 | the refusal is, octet for octet, identifier, QR with the query's opcode and RD, RA with code 3, the question count, six zeros and the question |
| `Dns.RefusalEchoes` | packages/net-shield/src/dns.rs:161-179 | it is never parsed as a query, and with the flags octet of the query it parses as the very same question |
| `Scheduling.OrderIsUnique` | tools/plan/ledger.py:141-170 | a graph with distinct keys has one schedule |
| `Scheduling.DependenciesFirst` | tools/plan/ledger.py:156-170 | each node of the ordered part follows all it depends on |
| `Scheduling.TailIff` | tools/plan/ledger.py:160-165 | the tail is exactly the nodes from which a cycle can be reached |
| `Scheduling.OrderIsLeast` | tools/plan/ledger.py:141-170 | no legal order of the same length is smaller by key at the first place they differ |
| `Scheduling.OrderIsLongest` | tools/plan/ledger.py:156-170 | no legal order is longer or has a node the ordered part lacks |
| `Ledger.KeyIsTupleOrder` | tools/plan/ledger.py:151-152 | comparing the keys is comparing the tuples: bugs, then milestone steps, then grouped ones by group, then by id |
| `Orders.CodesInOrder` | tools/plan/ledger.py:151-152 | and strings compare by their characters: a proper prefix first, otherwise by the first that differs |
| `Ledger.OrderSteps` | tools/plan/ledger.py:141-170 | the loop gives the schedule of the steps' graph |
| `Ledger.LastWins` | tools/plan/ledger.py:146-148 | in which an id stands for the last step that has it |
| `Ledger.ScheduleMeans` | tools/plan/ledger.py:141-170 | for steps: a permutation, known dependencies first, the ordered part the longest of all legal orders and the least of its length, the tail exactly the steps that reach a cycle, by key |
| `Ledger.ScheduleIgnoresInputOrder` | tools/plan/ledger.py:146-148 | the order does not depend on input order |
| `Cycles.CycleFinder.Visit` | tools/plan/ledger.py:372-384 | terminates as white nodes become fewer, keeps grey nodes equal to the stack, reports only closed walks with distinct inner nodes, and leaves earlier colours alone |
| `Cycles.FindCycles` | tools/plan/ledger.py:367-388 | reports nothing if and only if no cycle exists, self-dependencies included |
| `LedgerCheck.Validate` | tools/plan/ledger.py:308-364 | reports every fault there is and no other, cycles apart, and some cycle exactly when there is one; no problem means clean |
| `LedgerCheck.DuplicateIff` | tools/plan/ledger.py:312-315 | an id is reported twice over exactly when two steps have it |
| `LedgerCheck.FieldFaultsMean` | tools/plan/ledger.py:316-329 | a bad status, acceptance, kind, difficulty or milestone, and done without evidence, exactly for the steps that have it |
| `LedgerCheck.LabelFaultsMean` | tools/plan/ledger.py:326-331 | a bad group exactly when some character is no lower-case letter, digit or hyphen; an unknown regressed step exactly when no step has that id |
| `LedgerCheck.SelfDependencyMeans` | tools/plan/ledger.py:345-361 | exactly the steps that depend on themselves |
| `LedgerCheck.UnknownDependencyMeans` | tools/plan/ledger.py:345-361 | exactly the edges to an id no step has |
| `LedgerCheck.DoneBeforeMeans` | tools/plan/ledger.py:345-361 | exactly the edges of a done step to a step that is there and is not done |
| `LedgerCheck.MilestoneWaitsMeans` | tools/plan/ledger.py:345-361 | exactly the edges of an unfinished milestone step to an unfinished one outside any milestone |
| `LedgerCheck.MarkerFaultsMean` | tools/plan/ledger.py:334-341 | a marker is reported exactly when it occurs at two places, or when no step has its id |
| `LedgerCheck.NextPlan` | tools/plan/ledger.py:396-418 | the first ready pending step, or which of the three other answers and why; a blocked answer lists every pending step in order with exactly its unfinished dependencies |
| `LedgerCheck.CleanIsInOrder` | tools/plan/ledger.py:130-170 | a clean manifest is listed in dependency order from beginning to end, every step once |
| `LedgerCheck.Progress` | tools/plan/ledger.py:396-418 | over a clean manifest with a pending step, none waiting directly on a step at a pull request, the planner offers a pending step with all dependencies done |
| `Driver.SkipIds` | tools/plan/driver.py:120-133 | exactly the steps with a run merged, left open or parked, or with two others, and no release since |
| `Driver.Candidates` | tools/plan/driver.py:93-109 | exactly the eligible steps in manifest order, milestone bugs before other bugs before other milestone steps before the rest |
| `Driver.Choose` | tools/plan/driver.py:461-478 | the first of them that has no open pull request and is the one asked for, if one was; none only if there is no such step |
| `Driver.ReleaseClosed` | tools/plan/driver.py:426-437 | releases exactly the steps whose latest run left an open pull request that was closed |
| `Driver.ReleasableIff` | tools/plan/driver.py:426-437 | which are those whose last run left a pull request open that is closed now, with no release after it |
| `Driver.AttemptsBounded` | tools/plan/driver.py:120-133 | in any log the driver can grow, each step has had at most two runs since its last release and only the last of them settled |
| `Driver.NoThirdRun` | tools/plan/driver.py:120-133 | so between any three runs of a step there is a release |
| `Driver.NoRunAfterSettled` | tools/plan/driver.py:120-133 | and between a settled run and any later one |
| `Driver.RunLoop` | tools/plan/driver.py:440-498 | releases what was closed, then turn by turn runs the step picked and logs its start and its session's result; makes no run only for one of five reasons: enough runs, too many failures, the budget, a failed preflight, nothing to pick; changes nothing on a dry run |
| `Driver.RestrainedMeans` | tools/plan/driver.py:490-497 | every run, the first too with a budget and a failure limit above zero, is started with spend below the budget and short of the failure limit |

## Left out

- Ed25519, SHA-256, bincode, the FST byte format, redb and mmap: functions of the caller or plain maps; a 32-bit provenance id is an unbounded number.
- UTS #46 normalization, the Public Suffix List and the special-use-name test: parameters, with no property assumed of them.
- Resolver queries, the combination of A and AAAA answers and the corroboration of two resolvers: one verdict per domain and sweep.
- Sweep.ProcessBatch: the sweeps read the cache with the database readable; one read that fails is a miss (`CacheStore.Get`), its effect on a whole sweep is not stated.
- LivenessRun.RunLiveness: a dry run's read-only snapshot and the negative-outcome report after the sweep are not part of it.
- Output licence, source snapshots and the build report: not fields of the modelled manifest.
- The license, false-positive and size gates, and the review queue: one Boolean of a run.
- Gates.ShrinkagePassesIff: fractions are exact reals, so rounding, infinities and NaN thresholds do not appear.
- Gates.GrowthPassesIff: the same.
- Gates.ChurnBound: the bound is for exact fractions; the source's rounding may shift it by its last digit.
- Pipeline.PipelineChurn: the same.
- Slots.Disk.Do: steps reach the disk in program order; reordering by the file system without a sync is not modelled.
- Pacing, retry gaps, task scheduling, worker tear-down and poisoned locks; a dead worker is a queue that is never read.
- The precedence table above the artifact, keyword rules, the domain filter trie and overlay rules: single-branch cases.
- Driver.Candidates: an unreadable manifest is an absent package.
- Driver.RunLoop: what a dry run prints, and the digest line after each run.
- Ledger.OrderSteps: titles and the verify text of a step play no part and are not fields; blank evidence is a Boolean.
- File layout checks, migration, rendering, session prompts and outcome parsing of the plan tools: text handling.
- Proxy, FFI, desktop, certificate and image packages: input and output plumbing with no state of their own to verify.
