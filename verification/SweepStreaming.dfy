/**
 The sweep that reads its corpus from the scratch file and writes its verdicts to the cache store.
 */
module SweepStreaming {
  import opened Wrappers
  import opened BlocklistTypes
  import opened Bytes
  import opened FstBuild
  import opened Liveness
  import opened Orders
  import opened CacheStore
  import opened EntriesStore
  import opened Sweep
  import opened SweepDurability

  // -------------------------------------------------------------------------
  // The driver
  // -------------------------------------------------------------------------

  /** A gathering interrupted after `taken` entries with `batch` in hand, then finished. */
  ghost function Resumed(cfg: SweepConfig, w: World, cache: Table, entries: seq<MergedEntry>, batch: seq<string>,
                         taken: nat)
    : (seq<string>, nat)
    requires taken <= |entries| && |batch| <= CanaryEvery(cfg)
  {
    var (more, used) := Gather(cfg, w, cache, entries[taken..], CanaryEvery(cfg) - |batch|);
    (batch + more, taken + used)
  }

  lemma ResumedDone(cfg: SweepConfig, w: World, cache: Table, entries: seq<MergedEntry>, batch: seq<string>, taken: nat)
    requires taken <= |entries| && |batch| <= CanaryEvery(cfg)
    requires |batch| == CanaryEvery(cfg) || entries[taken..] == []
    ensures Resumed(cfg, w, cache, entries, batch, taken) == (batch, taken)
  {
    assert batch + [] == batch;
  }

  lemma ResumeStep(cfg: SweepConfig, w: World, cache: Table, entries: seq<MergedEntry>, batch: seq<string>, taken: nat)
    requires taken < |entries| && |batch| < CanaryEvery(cfg)
    ensures var d := entries[taken].domain;
            var batch' := if Due(cfg, w, cache, d) then batch + [d] else batch;
            Resumed(cfg, w, cache, entries, batch, taken) == Resumed(cfg, w, cache, entries, batch', taken + 1)
  {
    var d := entries[taken].domain;
    assert entries[taken..][0] == entries[taken] && entries[taken..][1..] == entries[taken + 1..];
    if Due(cfg, w, cache, d) {
      var more := Gather(cfg, w, cache, entries[taken + 1..], CanaryEvery(cfg) - |batch| - 1).0;
      assert batch + ([d] + more) == (batch + [d]) + more;
    }
  }

  /** What reading one batch from `pos` must give, and how far it must get. */
  ghost predicate ReadsBatch(codec: Codec, cfg: SweepConfig, w: World, cache: Table, file: seq<byte>, pos: nat,
                             r: Result<(seq<string>, bool), SweepError>, after: nat)
    requires pos <= |file| && after <= |file|
  {
    var (entries, clean) := ReadAll(codec, file, pos);
    var (batch, used) := Gather(cfg, w, cache, entries, CanaryEvery(cfg));
    if |batch| < CanaryEvery(cfg) && !clean then r == Err(EntriesReadFailed)
    else
      && r == Ok((batch, |batch| < CanaryEvery(cfg)))
      && ReadAll(codec, file, after) == (entries[used..], clean)
      && (used > 0 ==> after > pos)
  }

  /** Reading from `start` has come to `pos`, past `taken` entries, with `batch` in hand. */
  ghost predicate Reading(codec: Codec, cfg: SweepConfig, w: World, cache: Table, file: seq<byte>, start: nat, pos: nat,
                          batch: seq<string>, taken: nat)
  {
    && start + taken <= pos <= |file| && |batch| <= CanaryEvery(cfg)
    && var (entries, clean) := ReadAll(codec, file, start);
       && taken <= |entries| && ReadAll(codec, file, pos) == (entries[taken..], clean)
       && Gather(cfg, w, cache, entries, CanaryEvery(cfg)) == Resumed(cfg, w, cache, entries, batch, taken)
  }

  lemma ReadingStarts(codec: Codec, cfg: SweepConfig, w: World, cache: Table, file: seq<byte>, start: nat)
    requires start <= |file|
    ensures Reading(codec, cfg, w, cache, file, start, start, [], 0)
  {
    var (entries, clean) := ReadAll(codec, file, start);
    var all := Gather(cfg, w, cache, entries, CanaryEvery(cfg)).0;
    assert entries[0..] == entries && [] + all == all;
  }

  lemma ReadingGoesOn(codec: Codec, cfg: SweepConfig, w: World, cache: Table, file: seq<byte>, start: nat, pos: nat,
                      batch: seq<string>, taken: nat, e: MergedEntry, next: nat)
    requires Reading(codec, cfg, w, cache, file, start, pos, batch, taken) && |batch| < CanaryEvery(cfg)
    requires ReadAt(codec, file, pos) == (Ok(Some(e)), next)
    ensures Reading(codec, cfg, w, cache, file, start, next,
                    if Due(cfg, w, cache, e.domain) then batch + [e.domain] else batch, taken + 1)
    ensures taken < |ReadAll(codec, file, start).0|
  {
    var (entries, clean) := ReadAll(codec, file, start);
    var rest := entries[taken..];
    assert rest == [e] + ReadAll(codec, file, next).0;
    assert rest[0] == entries[taken] && rest[1..] == entries[taken + 1..];
    ResumeStep(cfg, w, cache, entries, batch, taken);
  }

  lemma ReadingEnds(codec: Codec, cfg: SweepConfig, w: World, cache: Table, file: seq<byte>, start: nat, pos: nat,
                    batch: seq<string>, taken: nat)
    requires Reading(codec, cfg, w, cache, file, start, pos, batch, taken)
    ensures |batch| == CanaryEvery(cfg) ==> ReadsBatch(codec, cfg, w, cache, file, start, Ok((batch, false)), pos)
    ensures |batch| < CanaryEvery(cfg) && ReadAt(codec, file, pos).0 == Ok(None) ==>
              ReadsBatch(codec, cfg, w, cache, file, start, Ok((batch, true)), ReadAt(codec, file, pos).1)
    ensures |batch| < CanaryEvery(cfg) && ReadAt(codec, file, pos).0.Err? ==>
              ReadsBatch(codec, cfg, w, cache, file, start, Err(EntriesReadFailed), ReadAt(codec, file, pos).1)
  {
    var (entries, clean) := ReadAll(codec, file, start);
    if |batch| == CanaryEvery(cfg) || entries[taken..] == [] {
      ResumedDone(cfg, w, cache, entries, batch, taken);
    }
  }

  /** Reads one record into the batch, or ends the reading. */
  method ReadOne(codec: Codec, cfg: SweepConfig, w: World, reader: EntryReader, store: CacheStore, batch: seq<string>,
                 ghost start: nat, ghost taken: nat)
    returns (ended: Option<Result<(seq<string>, bool), SweepError>>, more: seq<string>)
    requires Reading(codec, cfg, w, store.View(), reader.file, start, reader.pos, batch, taken)
    requires |batch| < CanaryEvery(cfg)
    modifies reader`pos, store`errorCount
    ensures start <= reader.pos <= |reader.file|
    ensures ended.Some? ==> ReadsBatch(codec, cfg, w, store.View(), reader.file, start, ended.value, reader.pos)
    ensures ended == None ==>
              && Reading(codec, cfg, w, store.View(), reader.file, start, reader.pos, more, taken + 1)
              && reader.pos > old(reader.pos)
  {
    more := batch;
    ghost var at, cache := reader.pos, store.View();
    ReadingEnds(codec, cfg, w, cache, reader.file, start, at, batch, taken);
    var next := reader.Next(codec);
    if next.Err? {
      return Some(Err(EntriesReadFailed)), batch;
    }
    if next.value == None {
      return Some(Ok((batch, true))), batch;
    }
    var entry := next.value.value;
    ReadingGoesOn(codec, cfg, w, cache, reader.file, start, at, batch, taken, entry, reader.pos);
    var before := store.Get(entry.domain, true);
    if DueForCheck(before, w.now, cfg.ttl) {
      more := batch + [entry.domain];
    }
    return None, more;
  }

  /** Reads on until the batch is full, the file ends, or a record cannot be read. */
  method NextBatch(codec: Codec, cfg: SweepConfig, w: World, reader: EntryReader, store: CacheStore)
    returns (r: Result<(seq<string>, bool), SweepError>)
    requires reader.pos <= |reader.file|
    modifies reader`pos, store`errorCount
    ensures reader.pos <= |reader.file|
    ensures ReadsBatch(codec, cfg, w, store.View(), reader.file, old(reader.pos), r, reader.pos)
  {
    var batch: seq<string> := [];
    ghost var start, taken: nat := reader.pos, 0;
    ReadingStarts(codec, cfg, w, store.View(), reader.file, start);
    while |batch| < CanaryEvery(cfg)
      invariant start <= reader.pos <= |reader.file|
      invariant Reading(codec, cfg, w, store.View(), reader.file, start, reader.pos, batch, taken)
      decreases |reader.file| - reader.pos
    {
      var ended, more := ReadOne(codec, cfg, w, reader, store, batch, start, taken);
      if ended.Some? {
        return ended.value;
      }
      batch := more;
      taken := taken + 1;
    }
    ReadingEnds(codec, cfg, w, store.View(), reader.file, start, reader.pos, batch, taken);
    return Ok((batch, false));
  }

  /** The rest of a streaming sweep, from file position `pos`. */
  function Left(codec: Codec, file: seq<byte>, pos: nat, cfg: SweepConfig, w: World, p: Progress)
    : Result<Progress, SweepError>
    requires pos <= |file|
  {
    var (entries, clean) := ReadAll(codec, file, pos);
    StreamChunks(cfg, w, entries, clean, p)
  }

  function Continued(codec: Codec, file: seq<byte>, pos: nat, cfg: SweepConfig, w: World,
                     r: Result<Progress, SweepError>)
    : Result<Progress, SweepError>
    requires pos <= |file|
  {
    if r.Err? then r else Left(codec, file, pos, cfg, w, r.value)
  }

  lemma LeftStep(codec: Codec, file: seq<byte>, pos: nat, cfg: SweepConfig, w: World, p: Progress,
                 r: Result<(seq<string>, bool), SweepError>, after: nat)
    requires pos <= |file| && after <= |file| && ReadsBatch(codec, cfg, w, p.cache, file, pos, r, after)
    ensures r.Err? ==> Left(codec, file, pos, cfg, w, p) == Err(r.error)
    ensures r.Ok? && r.value.0 == [] ==> Left(codec, file, pos, cfg, w, p) == Ok(p)
    ensures r.Ok? && r.value.0 != [] ==>
              Left(codec, file, pos, cfg, w, p) == Continued(codec, file, after, cfg, w, Chunk(cfg, w, r.value.0, p))
    ensures r.Ok? && r.value.1 ==> ReadAll(codec, file, after) == ([], true)
    ensures r.Ok? ==> |r.value.0| <= CanaryEvery(cfg) && (r.value.1 <==> |r.value.0| < CanaryEvery(cfg))
    ensures r.Ok? && !r.value.1 ==> after > pos
  {
    var (entries, clean) := ReadAll(codec, file, pos);
    assert entries[|entries|..] == [];
  }

  /** The chunks still before a sweep at file position `pos`. */
  function ChunksLeft(codec: Codec, file: seq<byte>, pos: nat, cfg: SweepConfig, w: World, cache: Table)
    : seq<seq<string>>
    requires pos <= |file|
  {
    var (entries, clean) := ReadAll(codec, file, pos);
    ChunksOf(cfg, w, entries, clean, cache)
  }

  /** What is still to come from `pos` on, in outcome and in chunks. */
  ghost predicate Ahead(codec: Codec, file: seq<byte>, pos: nat, job: Job, done: nat, p: Progress,
                        goal: Result<Progress, SweepError>)
  {
    && pos <= |file| && done <= |job.chunks|
    && Left(codec, file, pos, job.cfg, job.w, p) == goal
    && job.chunks[done..] == ChunksLeft(codec, file, pos, job.cfg, job.w, p.cache)
  }

  /** `batch` is the next chunk and has been read up to `after`; it remains to run it. */
  ghost predicate HasRead(codec: Codec, file: seq<byte>, after: nat, job: Job, done: nat, p: Progress,
                          goal: Result<Progress, SweepError>, batch: seq<string>)
  {
    && after <= |file| && done < |job.chunks| && job.chunks[done] == batch
    && job.chunks[done + 1..] == ChunksLeft(codec, file, after, job.cfg, job.w, Swept(job.w, p.cache, Elements(batch)))
    && goal == Continued(codec, file, after, job.cfg, job.w, Chunk(job.cfg, job.w, batch, p))
  }

  lemma AheadReads(codec: Codec, file: seq<byte>, pos: nat, job: Job, done: nat, p: Progress,
                   goal: Result<Progress, SweepError>, batch: seq<string>, eof: bool, after: nat)
    requires Ahead(codec, file, pos, job, done, p, goal) && after <= |file| && batch != []
    requires ReadsBatch(codec, job.cfg, job.w, p.cache, file, pos, Ok((batch, eof)), after)
    ensures HasRead(codec, file, after, job, done, p, goal, batch)
  {
    LeftStep(codec, file, pos, job.cfg, job.w, p, Ok((batch, eof)), after);
    assert job.chunks[done..] != [];
    assert job.chunks[done..][0] == job.chunks[done] && job.chunks[done..][1..] == job.chunks[done + 1..];
  }

  lemma AheadEnds(codec: Codec, file: seq<byte>, pos: nat, job: Job, done: nat, p: Progress,
                  goal: Result<Progress, SweepError>, r: Result<(seq<string>, bool), SweepError>, after: nat)
    requires Ahead(codec, file, pos, job, done, p, goal) && after <= |file|
    requires ReadsBatch(codec, job.cfg, job.w, p.cache, file, pos, r, after)
    ensures r.Err? ==> goal == Err(r.error)
    ensures r.Ok? && r.value.0 == [] ==> goal == Ok(p)
    ensures r.Ok? && r.value.1 ==> ReadAll(codec, file, after) == ([], true)
    ensures r.Ok? ==> |r.value.0| <= CanaryEvery(job.cfg) && (r.value.1 <==> |r.value.0| < CanaryEvery(job.cfg))
    ensures r.Ok? && !r.value.1 ==> after > pos
  {
    LeftStep(codec, file, pos, job.cfg, job.w, p, r, after);
  }

  lemma ChunksEnd(codec: Codec, file: seq<byte>, pos: nat, job: Job, done: nat, p: Progress,
                  goal: Result<Progress, SweepError>, after: nat)
    requires Ahead(codec, file, pos, job, done, p, goal) && after <= |file|
    requires ReadsBatch(codec, job.cfg, job.w, p.cache, file, pos, Ok(([], true)), after)
    ensures job.chunks[done..] == []
  {}

  /** At the end of a clean file nothing is ahead. */
  lemma NothingAhead(codec: Codec, file: seq<byte>, pos: nat, cfg: SweepConfig, w: World, p: Progress)
    requires pos <= |file| && ReadAll(codec, file, pos) == ([], true)
    ensures Left(codec, file, pos, cfg, w, p) == Ok(p) && ChunksLeft(codec, file, pos, cfg, w, p.cache) == []
  {}

  // -------------------------------------------------------------------------
  // One turn of the loop
  // -------------------------------------------------------------------------

  function At(cache: Table, c: Counts, dirty: bool): Progress {
    Progress(cache, c.passes, c.checked, c.since, c.saves, dirty)
  }

  function Ended(r: Result<Counts, SweepError>, view: Table, dirty: bool): Result<Progress, SweepError> {
    if r.Err? then Err(r.error) else Ok(At(view, r.value, dirty))
  }

  lemma OneMoreDurable(job: Job, history: seq<Snapshot>, s: Snapshot)
    requires Durable(job, s)
    ensures AllDurable(job, history + [s], |history|)
  {}

  /** A flush, whether it succeeds or not, goes to a durable state; `clean`: nothing was buffered at the start. */
  method FlushAll(store: CacheStore, commits: bool, ghost job: Job, ghost clean: bool, ghost m: Mark) returns (ok: bool)
    requires store.Valid() && Passed(job, m) && (clean ==> Holds(job, m, Snapshot(store.db, store.pending)))
    modifies store
    ensures store.Valid() && old(store.history) <= store.history && store.pending == map[]
    ensures ok <==> commits || old(store.pending) == map[]
    ensures ok ==> store.View() == old(store.View()) == store.db
    ensures !ok ==> store.View() == old(store.db)
    ensures clean ==> AllDurable(job, store.history, |old(store.history)|)
    ensures ok && clean ==> Holds(job, Mark(m.done, m.done), Snapshot(store.db, store.pending))
  {
    ghost var recorded, view, db := store.history, store.View(), store.db;
    if clean {
      AllSaved(job, m, Snapshot(store.db, store.pending));
      BufferLost(job, m, Snapshot(store.db, store.pending));
      OneMoreDurable(job, recorded, Snapshot(view, map[]));
      OneMoreDurable(job, recorded, Snapshot(db, map[]));
    }
    ok := store.Flush(commits);
  }

  method Checkpoint(store: CacheStore, c: Counts, eof: bool, ghost job: Job, ghost clean: bool, ghost m: Mark,
                    cfg: SweepConfig, w: World)
    returns (r: Result<Counts, SweepError>, ghost after: Mark)
    requires store.Valid() && store.pending != map[] && job.cfg == cfg && job.w == w
    requires Validated(job, m, c, eof) && (clean ==> Holds(job, m, Snapshot(store.db, store.pending)))
    modifies store
    ensures store.Valid() && old(store.history) <= store.history
    ensures SaveWhenDue(cfg, w, At(old(store.View()), c, true)) == Ended(r, store.View(), store.pending != map[])
    ensures clean ==> AllDurable(job, store.history, |old(store.history)|)
    ensures r.Ok? ==> Steady(job, after, r.value, eof) && after.done == m.done
    ensures r.Ok? && clean ==> Holds(job, after, Snapshot(store.db, store.pending))
  {
    if cfg.checkpointEvery > 0 && c.since >= cfg.checkpointEvery {
      SavedCounts(job, m, c, eof);
      var ok := FlushAll(store, w.saves(c.saves), job, clean, m);
      if !ok {
        return Err(CheckpointFailed(c.checked)), m;
      }
      return Ok(c.(since := 0, saves := c.saves + 1)), Mark(m.done, m.done);
    }
    return Ok(c), m;
  }

  lemma ChunkThenSave(cfg: SweepConfig, w: World, batch: seq<string>, cache: Table, c: Counts, dirty: bool, view: Table)
    requires view == Swept(w, cache, Elements(batch)) && w.canary(c.passes) == None
    ensures Chunk(cfg, w, batch, At(cache, c, dirty))
         == SaveWhenDue(cfg, w, At(view, Counts(c.passes + 1, c.checked + |batch|, c.since + |batch|, c.saves), true))
  {}

  lemma ChunkFails(cfg: SweepConfig, w: World, batch: seq<string>, cache: Table, c: Counts, dirty: bool)
    requires w.canary(c.passes).Some?
    ensures Chunk(cfg, w, batch, At(cache, c, dirty))
         == Err(MidSweepCanaryFailed(w.canary(c.passes).value, c.checked + |batch|))
  {}

  /** Every state recorded while the next chunk was written is durable. */
  lemma BufferingIsDurable(job: Job, m: Mark, c: Counts, before: Snapshot, history: seq<Snapshot>, from: nat,
                           names: set<string>)
    requires Steady(job, m, c, false) && Holds(job, m, before)
    requires m.done < |job.chunks| && |job.chunks[m.done]| <= CanaryEvery(job.cfg)
    requires names == before.pending.Keys + Elements(job.chunks[m.done])
    requires Buffering(history, from, before.db, names)
    ensures AllDurable(job, history, from)
  {
    forall i | from <= i < |history| ensures Durable(job, history[i]) {
      PartOfChunkIsDurable(job, m, c, history[i]);
    }
  }

  /** The chunk's verdicts, on their way to the buffer and once they are there. */
  method BufferBatch(store: CacheStore, batch: seq<string>, ghost c: Counts, completion: seq<string> -> seq<string>,
                     w: World, ghost job: Job, ghost clean: bool, ghost m: Mark)
    returns (checked: nat)
    requires Reorders(completion) && store.Valid() && job.w == w
    requires batch != [] && m.done < |job.chunks| && job.chunks[m.done] == batch && |batch| <= CanaryEvery(job.cfg)
    requires Steady(job, m, c, false) && (clean ==> Holds(job, m, Snapshot(store.db, store.pending)))
    modifies store
    ensures store.Valid() && old(store.history) <= store.history && checked == |batch| && store.pending != map[]
    ensures store.View() == Swept(w, old(store.View()), Elements(batch))
    ensures clean ==> AllDurable(job, store.history, |old(store.history)|)
    ensures clean ==> Holds(job, Mark(m.done + 1, m.saved), Snapshot(store.db, store.pending))
  {
    ghost var before, from := Snapshot(store.db, store.pending), |store.history|;
    checked := ProcessBatch(w, batch, store, completion);
    assert batch[0] in Elements(batch) && batch[0] in store.pending;
    if clean {
      BufferingIsDurable(job, m, c, before, store.history, from, store.pending.Keys);
      ChunkDone(job, m, before, Snapshot(store.db, store.pending));
    }
  }

  method CheckBatch(store: CacheStore, batch: seq<string>, c: Counts, eof: bool, completion: seq<string> -> seq<string>,
                    cfg: SweepConfig, w: World, ghost job: Job, ghost clean: bool, ghost m: Mark)
    returns (r: Result<Counts, SweepError>)
    requires Reorders(completion) && store.Valid() && job.cfg == cfg && job.w == w
    requires batch != [] && m.done < |job.chunks| && job.chunks[m.done] == batch
    requires |batch| <= CanaryEvery(cfg) && (!eof ==> |batch| == CanaryEvery(cfg))
    requires Steady(job, m, c, false) && (clean ==> Holds(job, m, Snapshot(store.db, store.pending)))
    modifies store
    ensures store.Valid() && old(store.history) <= store.history
    ensures store.View() == Swept(w, old(store.View()), Elements(batch))
    ensures clean ==> AllDurable(job, store.history, |old(store.history)|)
    ensures r.Err? ==> Chunk(cfg, w, batch, At(old(store.View()), c, old(store.pending) != map[])) == Err(r.error)
    ensures r.Ok? ==>
              && Chunk(cfg, w, batch, At(old(store.View()), c, old(store.pending) != map[]))
                 == SaveWhenDue(cfg, w, At(store.View(), r.value, true))
              && store.pending != map[] && Validated(job, Mark(m.done + 1, m.saved), r.value, eof)
              && (clean ==> Holds(job, Mark(m.done + 1, m.saved), Snapshot(store.db, store.pending)))
  {
    ghost var view, dirty := store.View(), store.pending != map[];
    var batchChecked := BufferBatch(store, batch, c, completion, w, job, clean, m);
    var now := Counts(c.passes + 1, c.checked + batchChecked, c.since + batchChecked, c.saves);
    var failed := w.canary(c.passes);
    if failed.Some? {
      ChunkFails(cfg, w, batch, view, c, dirty);
      return Err(MidSweepCanaryFailed(failed.value, now.checked));
    }
    ChunkThenSave(cfg, w, batch, view, c, dirty, store.View());
    ChunkCounts(job, m, c, eof);
    return Ok(now);
  }

  method RunChunk(store: CacheStore, batch: seq<string>, c: Counts, eof: bool, completion: seq<string> -> seq<string>,
                  cfg: SweepConfig, w: World, ghost job: Job, ghost clean: bool, ghost m: Mark)
    returns (r: Result<Counts, SweepError>, ghost after: Mark)
    requires Reorders(completion) && store.Valid() && job.cfg == cfg && job.w == w
    requires batch != [] && m.done < |job.chunks| && job.chunks[m.done] == batch
    requires |batch| <= CanaryEvery(cfg) && (!eof ==> |batch| == CanaryEvery(cfg))
    requires Steady(job, m, c, false) && (clean ==> Holds(job, m, Snapshot(store.db, store.pending)))
    modifies store
    ensures store.Valid() && old(store.history) <= store.history
    ensures clean ==> AllDurable(job, store.history, |old(store.history)|)
    ensures Chunk(cfg, w, batch, At(old(store.View()), c, old(store.pending) != map[]))
         == Ended(r, store.View(), store.pending != map[])
    ensures r.Ok? ==> store.View() == Swept(w, old(store.View()), Elements(batch))
    ensures r.Ok? ==> Steady(job, after, r.value, eof) && after.done == m.done + 1
    ensures r.Ok? && clean ==> Holds(job, after, Snapshot(store.db, store.pending))
  {
    after := m;
    r := CheckBatch(store, batch, c, eof, completion, cfg, w, job, clean, m);
    if r.Ok? {
      ghost var checked := store.history;
      r, after := Checkpoint(store, r.value, eof, job, clean, Mark(m.done + 1, m.saved), cfg, w);
      if clean {
        DurableOn(job, checked, store.history, |old(store.history)|);
      }
    }
  }

  lemma {:induction false} FinishedIsClean(cfg: SweepConfig, w: World, entries: seq<MergedEntry>, clean: bool,
                                           p: Progress)
    requires StreamChunks(cfg, w, entries, clean, p).Ok?
    ensures clean
    decreases |entries|
  {
    var (batch, used) := Gather(cfg, w, p.cache, entries, CanaryEvery(cfg));
    if batch != [] {
      FinishedIsClean(cfg, w, entries[used..], clean, Chunk(cfg, w, batch, p).value);
    }
  }

  /** The chunk just read has been run; what is ahead now. */
  lemma AheadAfter(codec: Codec, file: seq<byte>, after: nat, job: Job, done: nat, p: Progress,
                   goal: Result<Progress, SweepError>, batch: seq<string>, r: Result<Counts, SweepError>,
                   view: Table, dirty: bool)
    requires HasRead(codec, file, after, job, done, p, goal, batch)
    requires Chunk(job.cfg, job.w, batch, p) == Ended(r, view, dirty)
    requires r.Ok? ==> view == Swept(job.w, p.cache, Elements(batch))
    ensures r.Err? ==> goal == Err(r.error)
    ensures r.Ok? ==> Ahead(codec, file, after, job, done + 1, At(view, r.value, dirty), goal)
  {}

  /** Nothing was due in what was left of the file. */
  lemma AheadAtEnd(codec: Codec, file: seq<byte>, pos: nat, job: Job, done: nat, p: Progress,
                   goal: Result<Progress, SweepError>, after: nat)
    requires Ahead(codec, file, pos, job, done, p, goal) && after <= |file|
    requires ReadsBatch(codec, job.cfg, job.w, p.cache, file, pos, Ok(([], true)), after)
    ensures Ahead(codec, file, after, job, done, p, goal) && ReadAll(codec, file, after) == ([], true)
  {
    AheadEnds(codec, file, pos, job, done, p, goal, Ok(([], true)), after);
    NothingAhead(codec, file, after, job.cfg, job.w, p);
    ChunksEnd(codec, file, pos, job, done, p, goal, after);
  }

  method ReadAhead(codec: Codec, reader: EntryReader, store: CacheStore, cfg: SweepConfig, w: World,
                   ghost job: Job, ghost done: nat, ghost p: Progress, ghost goal: Result<Progress, SweepError>)
    returns (r: Result<(seq<string>, bool), SweepError>)
    requires job.cfg == cfg && job.w == w && p.cache == store.View()
    requires Ahead(codec, reader.file, reader.pos, job, done, p, goal)
    modifies reader`pos, store`errorCount
    ensures reader.pos <= |reader.file|
    ensures r.Err? ==> goal == Err(r.error)
    ensures r.Ok? ==> |r.value.0| <= CanaryEvery(cfg) && (!r.value.1 ==> |r.value.0| == CanaryEvery(cfg))
    ensures r.Ok? && r.value.0 == [] ==> r.value.1 && Ahead(codec, reader.file, reader.pos, job, done, p, goal)
    ensures r.Ok? && r.value.0 != [] ==> HasRead(codec, reader.file, reader.pos, job, done, p, goal, r.value.0)
    ensures r.Ok? && r.value.1 ==> ReadAll(codec, reader.file, reader.pos) == ([], true)
    ensures r.Ok? && !r.value.1 ==> reader.pos > old(reader.pos)
  {
    ghost var at := reader.pos;
    r := NextBatch(codec, cfg, w, reader, store);
    AheadEnds(codec, reader.file, at, job, done, p, goal, r, reader.pos);
    if r.Ok? {
      if r.value.0 == [] {
        AheadAtEnd(codec, reader.file, at, job, done, p, goal, reader.pos);
      } else {
        AheadReads(codec, reader.file, at, job, done, p, goal, r.value.0, r.value.1, reader.pos);
      }
    }
  }

  /** A batch that is not empty is checked; what is ahead then. */
  method RunBatch(codec: Codec, reader: EntryReader, store: CacheStore, batch: seq<string>, c: Counts, eof: bool,
                  completion: seq<string> -> seq<string>, cfg: SweepConfig, w: World,
                  ghost job: Job, ghost clean: bool, ghost m: Mark, ghost goal: Result<Progress, SweepError>)
    returns (r: Result<Counts, SweepError>, ghost after: Mark)
    requires Reorders(completion) && store.Valid() && job.cfg == cfg && job.w == w && batch != []
    requires |batch| <= CanaryEvery(cfg) && (!eof ==> |batch| == CanaryEvery(cfg))
    requires reader.pos <= |reader.file|
    requires HasRead(codec, reader.file, reader.pos, job, m.done,
                     At(store.View(), c, store.pending != map[]), goal, batch)
    requires Steady(job, m, c, false) && (clean ==> Holds(job, m, Snapshot(store.db, store.pending)))
    modifies store
    ensures store.Valid() && old(store.history) <= store.history
    ensures clean ==> AllDurable(job, store.history, |old(store.history)|)
    ensures r.Err? ==> goal == Err(r.error)
    ensures r.Ok? ==>
              && Ahead(codec, reader.file, reader.pos, job, after.done,
                       At(store.View(), r.value, store.pending != map[]), goal)
              && Steady(job, after, r.value, eof)
              && (clean ==> Holds(job, after, Snapshot(store.db, store.pending)))
  {
    ghost var p := At(store.View(), c, store.pending != map[]);
    r, after := RunChunk(store, batch, c, eof, completion, cfg, w, job, clean, m);
    AheadAfter(codec, reader.file, reader.pos, job, m.done, p, goal, batch, r, store.View(), store.pending != map[]);
  }

  /** One turn: read a batch and, if there is one, check it; the flag says that the file has ended. */
  method RunTurn(codec: Codec, reader: EntryReader, store: CacheStore, c: Counts,
                 completion: seq<string> -> seq<string>, cfg: SweepConfig, w: World,
                 ghost job: Job, ghost clean: bool, ghost m: Mark, ghost goal: Result<Progress, SweepError>)
    returns (r: Result<(Counts, bool), SweepError>, ghost after: Mark)
    requires Reorders(completion) && store.Valid() && job.cfg == cfg && job.w == w
    requires Ahead(codec, reader.file, reader.pos, job, m.done, At(store.View(), c, store.pending != map[]), goal)
    requires Steady(job, m, c, false) && (clean ==> Holds(job, m, Snapshot(store.db, store.pending)))
    modifies store, reader`pos
    ensures store.Valid() && old(store.history) <= store.history
    ensures clean ==> AllDurable(job, store.history, |old(store.history)|)
    ensures r.Err? ==> goal == Err(r.error)
    ensures r.Ok? ==>
              && Ahead(codec, reader.file, reader.pos, job, after.done,
                       At(store.View(), r.value.0, store.pending != map[]), goal)
              && Steady(job, after, r.value.0, r.value.1)
              && (clean ==> Holds(job, after, Snapshot(store.db, store.pending)))
              && (r.value.1 ==> ReadAll(codec, reader.file, reader.pos) == ([], true))
              && (!r.value.1 ==> reader.pos > old(reader.pos))
  {
    after := m;
    ghost var p := At(store.View(), c, store.pending != map[]);
    var next := ReadAhead(codec, reader, store, cfg, w, job, m.done, p, goal);
    if next.Err? {
      return Err(next.error), m;
    }
    var batch, eof := next.value.0, next.value.1;
    if batch == [] {
      EndIsSteady(job, m, c);
      return Ok((c, true)), m;
    }
    var counted;
    counted, after := RunBatch(codec, reader, store, batch, c, eof, completion, cfg, w, job, clean, m, goal);
    return if counted.Err? then Err(counted.error) else Ok((counted.value, eof)), after;
  }

  /** The loop of the streaming sweep: batch after batch until the file ends. */
  method SweepFile(codec: Codec, file: seq<byte>, store: CacheStore, cfg: SweepConfig, w: World,
                   completion: seq<string> -> seq<string>, ghost job: Job, ghost clean: bool)
    returns (r: Result<Counts, SweepError>, ghost m: Mark)
    requires Reorders(completion) && store.Valid() && job.cfg == cfg && job.w == w
    requires job.chunks == ChunksLeft(codec, file, 0, cfg, w, store.View()) && w.canary(0) == None
    requires clean ==> store.pending == map[] && job.start == store.db
    modifies store
    ensures store.Valid() && old(store.history) <= store.history
    ensures clean ==> AllDurable(job, store.history, |old(store.history)|)
    ensures Left(codec, file, 0, cfg, w, Start(old(store.View()), old(store.pending) != map[]))
         == Ended(r, store.View(), store.pending != map[])
    ensures r.Ok? ==> Steady(job, m, r.value, true)
    ensures r.Ok? && clean ==> Holds(job, m, Snapshot(store.db, store.pending))
  {
    var c := Counts(1, 0, 0, 0);
    m := Mark(0, 0);
    StartHolds(job);
    var reader := new EntryReader(file);
    ghost var goal := Left(codec, file, 0, cfg, w, Start(store.View(), store.pending != map[]));
    var eof := false;
    assert job.chunks[0..] == job.chunks;
    while !eof
      invariant reader.file == file && store.Valid() && old(store.history) <= store.history
      invariant Ahead(codec, file, reader.pos, job, m.done, At(store.View(), c, store.pending != map[]), goal)
      invariant eof ==> ReadAll(codec, file, reader.pos) == ([], true)
      invariant Steady(job, m, c, eof)
      invariant clean ==> Holds(job, m, Snapshot(store.db, store.pending))
      invariant clean ==> AllDurable(job, store.history, |old(store.history)|)
      decreases !eof, |file| - reader.pos
    {
      ghost var recorded := store.history;
      var turn;
      turn, m := RunTurn(codec, reader, store, c, completion, cfg, w, job, clean, m, goal);
      if clean {
        DurableOn(job, recorded, store.history, |old(store.history)|);
      }
      if turn.Err? {
        return Err(turn.error), m;
      }
      c, eof := turn.value.0, turn.value.1;
    }
    NothingAhead(codec, file, reader.pos, cfg, w, At(store.View(), c, store.pending != map[]));
    return Ok(c), m;
  }

  /**
   The whole sweep.  Begun with nothing buffered, every state the store is recorded to have been in is
   durable.
   */
  method RunSweepStreaming(codec: Codec, file: seq<byte>, store: CacheStore, cfg: SweepConfig, w: World,
                           completion: seq<string> -> seq<string>)
    returns (r: Result<SweepOutcome, SweepError>)
    requires Reorders(completion) && store.Valid()
    modifies store
    ensures store.Valid() && old(store.history) <= store.history
    ensures r == StreamResult(cfg, w, ReadAll(codec, file, 0), old(store.View()), old(store.pending) != map[])
    ensures r.Ok? ==> store.pending == map[] && store.db == r.value.cache
    ensures old(store.pending) == map[] ==>
              AllDurable(Job(cfg, w, old(store.db), ChunksLeft(codec, file, 0, cfg, w, old(store.db))),
                         store.history, |old(store.history)|)
  {
    var failed := w.canary(0);
    if failed.Some? {
      return Err(InitialCanaryFailed(failed.value));
    }
    ghost var clean, view, dirty := store.pending == map[], store.View(), store.pending != map[];
    ghost var job := Job(cfg, w, store.db, ChunksLeft(codec, file, 0, cfg, w, view));
    assert clean ==> view == store.db;
    ghost var m;
    var swept;
    swept, m := SweepFile(codec, file, store, cfg, w, completion, job, clean);
    if swept.Err? {
      return Err(swept.error);
    }
    var c := swept.value;
    FinishedIsClean(cfg, w, ReadAll(codec, file, 0).0, ReadAll(codec, file, 0).1, Start(view, dirty));
    ghost var recorded := store.history;
    var ok := FlushAll(store, w.saves(c.saves), job, clean, m);
    if clean {
      DurableOn(job, recorded, store.history, |old(store.history)|);
    }
    if !ok {
      return Err(CheckpointFailed(c.checked));
    }
    var pruned := PruneFile(codec, file, cfg, w, store);
    return Ok(SweepOutcome(store.View(), pruned, c.checked));
  }

  lemma PrunedMore(cfg: SweepConfig, w: World, cache: Table, entries: seq<MergedEntry>, k: nat)
    requires k < |entries|
    ensures PrunedOf(cfg, w, cache, entries[..k + 1])
         == PrunedOf(cfg, w, cache, entries[..k])
            + if Prunes(cfg, w, cache, entries[k].domain) then {entries[k].domain} else {}
  {
    assert forall e :: e in entries[..k + 1] <==> e in entries[..k] || e == entries[k];
  }

  lemma TakesNext<T>(entries: seq<T>, taken: nat, entry: T, rest: seq<T>)
    requires taken <= |entries| && entries[taken..] == [entry] + rest
    ensures taken < |entries| && entries[taken] == entry && entries[taken + 1..] == rest
  {
    assert entries[taken..][0] == entry && entries[taken..][1..] == rest;
  }

  /** The second pass over the file, which has been read to its end before. */
  method PruneFile(codec: Codec, file: seq<byte>, cfg: SweepConfig, w: World, store: CacheStore)
    returns (pruned: set<string>)
    requires ReadAll(codec, file, 0).1
    modifies store`errorCount
    ensures pruned == PrunedOf(cfg, w, store.View(), ReadAll(codec, file, 0).0)
  {
    pruned := {};
    var reader := new EntryReader(file);
    ghost var entries := ReadAll(codec, file, 0).0;
    ghost var taken: nat := 0;
    assert entries[0..] == entries;
    while true
      invariant reader.file == file && reader.pos <= |file| && taken <= |entries|
      invariant ReadAll(codec, file, reader.pos) == (entries[taken..], true)
      invariant pruned == PrunedOf(cfg, w, store.View(), entries[..taken])
      decreases |entries| - taken
    {
      var next := reader.Next(codec);
      if next.value == None {
        assert entries[..taken] == entries;
        return;
      }
      var entry := next.value.value;
      TakesNext(entries, taken, entry, ReadAll(codec, file, reader.pos).0);
      PrunedMore(cfg, w, store.View(), entries, taken);
      var cached := store.Get(entry.domain, true);
      if cached.Some? && ShouldPrune(w.special, cached.value, entry.domain, w.now, cfg.quarantine) {
        pruned := pruned + {entry.domain};
      }
      taken := taken + 1;
    }
  }

  /**
   The streaming sweep over the file written from a duplicate-free corpus ends as the in-memory sweep
   over the corpus itself, but for the one extra write at its end.
   */
  lemma DriversAgree(codec: Codec, entries: seq<MergedEntry>, cfg: SweepConfig, w: World, cache: Table)
    requires FaithfulOn(codec, entries) && DistinctDomains(entries)
    ensures var streamed := StreamResult(cfg, w, ReadAll(codec, Encoded(codec, entries), 0), cache, false);
            var resident := SweepResult(cfg, w, entries, cache);
            || streamed == resident
            || (resident.Ok? && streamed == Err(CheckpointFailed(resident.value.checked))
                && exists n: nat :: !w.saves(n))
  {
    WriteThenRead(codec, entries, []);
    assert [] + Encoded(codec, entries) == Encoded(codec, entries);
    SweepsAgree(cfg, w, entries, cache);
  }
}
