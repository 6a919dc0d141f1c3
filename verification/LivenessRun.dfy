/**
 The liveness stage of a run: the merged entries go to a scratch file, the file is swept, and what was not
 pruned is read back from it.
 */
module LivenessRun {
  import opened Wrappers
  import opened Bytes
  import opened BlocklistTypes
  import opened FstBuild
  import opened EntriesStore
  import opened CacheStore
  import opened Sweep
  import opened SweepStreaming
  import opened SweepHistory
  import opened Liveness

  /** Reads the scratch file again, leaving out what was pruned. */
  method ReadKept(codec: Codec, file: seq<byte>, pruned: set<string>) returns (r: Result<seq<MergedEntry>, ReadError>)
    ensures r.Ok? <==> ReadAll(codec, file, 0).1
    ensures r.Ok? ==> r.value == Keep(ReadAll(codec, file, 0).0, pruned)
  {
    var reader := new EntryReader(file);
    var kept := [];
    ghost var entries := ReadAll(codec, file, 0).0;
    ghost var taken: nat := 0;
    assert entries[0..] == entries;
    while true
      invariant reader.file == file && reader.pos <= |file| && taken <= |entries|
      invariant ReadAll(codec, file, reader.pos) == (entries[taken..], ReadAll(codec, file, 0).1)
      invariant kept == Keep(entries[..taken], pruned)
      decreases |entries| - taken
    {
      var next := reader.Next(codec);
      if next.Err? {
        return Err(next.error);
      }
      if next.value == None {
        assert entries[..taken] == entries;
        return Ok(kept);
      }
      var entry := next.value.value;
      TakesNext(entries, taken, entry, ReadAll(codec, file, reader.pos).0);
      assert entries[..taken + 1][..taken] == entries[..taken];
      if entry.domain !in pruned {
        kept := kept + [entry];
      }
      taken := taken + 1;
    }
  }

  /**
   The stage on a freshly opened cache.  What it keeps, and what it leaves in the cache, is what the
   in-memory sweep over the entries themselves says; it fails only with that sweep's error or, at its one
   extra write, on a cache that could not be written.
   */
  method RunLiveness(codec: Codec, entries: seq<MergedEntry>, store: CacheStore, cfg: SweepConfig, w: World,
                     completion: seq<string> -> seq<string>)
    returns (r: Result<seq<MergedEntry>, SweepError>)
    requires Reorders(completion) && store.Valid() && store.pending == map[]
    requires FaithfulOn(codec, entries) && DistinctDomains(entries)
    modifies store
    ensures store.Valid() && old(store.history) <= store.history
    ensures var sweep := SweepResult(cfg, w, entries, old(store.db));
            if r.Ok? then
              && sweep.Ok? && store.pending == map[] && store.db == sweep.value.cache
              && r.value == Keep(entries, sweep.value.pruned)
            else sweep == Err(r.error) || (r.error.CheckpointFailed? && exists n: nat :: !w.saves(n))
  {
    ghost var cache := store.db;
    assert store.View() == cache;
    var file := Write(codec, entries);
    WriteThenRead(codec, entries, []);
    assert [] + file == file;
    DriversAgree(codec, entries, cfg, w, cache);
    var outcome := RunSweepStreaming(codec, file, store, cfg, w, completion);
    if outcome.Err? {
      return Err(outcome.error);
    }
    var kept := ReadKept(codec, file, outcome.value.pruned);
    return Ok(kept.value);
  }

  /**
   What the stage keeps after any history of sweeps: every entry but those whose name is not special-use
   and whose current dead streak began a quarantine ago or earlier.
   */
  lemma KeptIff(cfg: SweepConfig, w: World, entries: seq<MergedEntry>, events: seq<Event>, m: MergedEntry)
    requires SweepResult(cfg, w, entries, After(events)).Ok?
    ensures m in Keep(entries, SweepResult(cfg, w, entries, After(events)).value.pruned) <==>
            var obs := Seen(cfg, w, entries, events, m.domain);
            m in entries &&
              (w.special(m.domain) || obs == [] || obs[|obs| - 1].verdict != Dead
               || SaturatingSub(w.now, obs[StreakStart(obs)].at) < cfg.quarantine)
  {
    PrunedIff(cfg, w, entries, events, m.domain);
  }
}
