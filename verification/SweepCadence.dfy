/**
 How often a sweep runs its canary and how often it saves, counted in names checked; and which failure
 ends it.
 */
module SweepCadence {
  import opened Wrappers
  import opened BlocklistTypes
  import opened Bytes
  import opened Liveness
  import opened Orders
  import opened EntriesStore
  import opened CacheStore
  import opened Sweep
  import opened SweepDurability
  import opened SweepStreaming

  // -------------------------------------------------------------------------
  // Units
  // -------------------------------------------------------------------------

  /** Chunks of `unit` names, the last of them perhaps shorter. */
  predicate InUnits(unit: nat, chunks: seq<seq<string>>) {
    forall i | 0 <= i < |chunks| ::
      0 < |chunks[i]| <= unit && (i < |chunks| - 1 ==> |chunks[i]| == unit)
  }

  lemma InUnitsCons(unit: nat, first: seq<string>, rest: seq<seq<string>>)
    requires 0 < |first| <= unit && InUnits(unit, rest) && (rest != [] ==> |first| == unit)
    ensures InUnits(unit, [first] + rest)
  {}

  lemma InUnitsRest(unit: nat, chunks: seq<seq<string>>)
    requires InUnits(unit, chunks) && chunks != []
    ensures InUnits(unit, chunks[1..]) && 0 < |chunks[0]| <= unit && (chunks[1..] != [] ==> |chunks[0]| == unit)
  {
    assert forall i | 0 <= i < |chunks| - 1 :: chunks[1..][i] == chunks[i + 1];
  }

  /** `due` cut into units. */
  function Cut(unit: nat, due: seq<string>): seq<seq<string>>
    requires unit > 0
    decreases |due|
  {
    if due == [] then []
    else if |due| <= unit then [due]
    else [due[..unit]] + Cut(unit, due[unit..])
  }

  lemma {:induction false} CutMeans(unit: nat, due: seq<string>)
    requires unit > 0
    ensures InUnits(unit, Cut(unit, due)) && Flat(Cut(unit, due)) == due
    decreases |due|
  {
    if |due| > unit {
      CutMeans(unit, due[unit..]);
      InUnitsCons(unit, due[..unit], Cut(unit, due[unit..]));
      FlatFirst(due[..unit], Cut(unit, due[unit..]));
      assert due == due[..unit] + due[unit..];
    } else if due != [] {
      FlatFirst(due, []);
      assert [due] + [] == [due] && due + Flat([]) == due;
    }
  }

  /** Every chunk a streaming sweep checks has as many names as the canary interval says, but perhaps the last. */
  lemma {:induction false} ChunksInUnits(cfg: SweepConfig, w: World, entries: seq<MergedEntry>, clean: bool,
                                         cache: Table, unit: nat)
    requires unit == if cfg.canaryEvery >= 1 then cfg.canaryEvery else 1
    ensures InUnits(unit, ChunksOf(cfg, w, entries, clean, cache))
    decreases |entries|
  {
    var (batch, used) := Gather(cfg, w, cache, entries, unit);
    if batch != [] && (|batch| == unit || clean) {
      var after := Swept(w, cache, Elements(batch));
      ChunksInUnits(cfg, w, entries[used..], clean, after, unit);
      if |batch| < unit {
        assert entries[used..] == [];
        assert ChunksOf(cfg, w, [], clean, after) == [];
      }
      InUnitsCons(unit, batch, ChunksOf(cfg, w, entries[used..], clean, after));
    }
  }

  // -------------------------------------------------------------------------
  // Both drivers check chunk after chunk
  // -------------------------------------------------------------------------

  function Fold(cfg: SweepConfig, w: World, chunks: seq<seq<string>>, p: Progress): Result<Progress, SweepError> {
    if chunks == [] then Ok(p)
    else
      var r := Chunk(cfg, w, chunks[0], p);
      if r.Err? then r else Fold(cfg, w, chunks[1..], r.value)
  }

  lemma {:induction false} CheckIsFold(cfg: SweepConfig, w: World, due: seq<string>, p: Progress, unit: nat)
    requires unit == if cfg.canaryEvery >= 1 then cfg.canaryEvery else 1
    ensures CheckChunks(cfg, w, due, p) == Fold(cfg, w, Cut(unit, due), p)
    decreases |due|
  {
    if due != [] {
      var n := if |due| < unit then |due| else unit;
      var r := Chunk(cfg, w, due[..n], p);
      if |due| <= unit {
        assert due[..n] == due && due[n..] == [] && [due][1..] == [];
      } else {
        var rest := Cut(unit, due[unit..]);
        assert ([due[..unit]] + rest)[0] == due[..unit] && ([due[..unit]] + rest)[1..] == rest;
        if r.Ok? { CheckIsFold(cfg, w, due[unit..], r.value, unit); }
      }
    }
  }

  lemma {:induction false} StreamIsFold(cfg: SweepConfig, w: World, entries: seq<MergedEntry>, clean: bool, p: Progress)
    ensures var r := StreamChunks(cfg, w, entries, clean, p);
            var f := Fold(cfg, w, ChunksOf(cfg, w, entries, clean, p.cache), p);
            r == f || (r == Err(EntriesReadFailed) && f.Ok? && !clean)
    decreases |entries|
  {
    var (batch, used) := Gather(cfg, w, p.cache, entries, CanaryEvery(cfg));
    if batch != [] && (|batch| == CanaryEvery(cfg) || clean) {
      var after := Swept(w, p.cache, Elements(batch));
      var rest := ChunksOf(cfg, w, entries[used..], clean, after);
      assert ([batch] + rest)[0] == batch && ([batch] + rest)[1..] == rest;
      var r := Chunk(cfg, w, batch, p);
      if r.Ok? {
        ChunkChecks(cfg, w, batch, p);
        StreamIsFold(cfg, w, entries[used..], clean, r.value);
      }
    }
  }

  // -------------------------------------------------------------------------
  // The cadence
  // -------------------------------------------------------------------------

  /** Canary 0 and, for every `unit` names begun among the first `n`, one more have passed. */
  ghost predicate CanariesPassed(w: World, unit: nat, n: nat) {
    forall k: nat | k == 0 || (k - 1) * unit < n :: w.canary(k) == None
  }

  /** Canary `k`, the first to fail, came when the first `k` units of `total` names had been checked. */
  ghost predicate CanaryStops(w: World, unit: nat, total: nat, resolver: Resolver, n: nat) {
    exists k: nat :: k >= 1 && w.canary(k) == Some(resolver) && (forall i: nat | i < k :: w.canary(i) == None)
                     && (k - 1) * unit < total && n == if k * unit <= total then k * unit else total
  }

  /**
   After `n` names and `k` saves, `since` of the names unsaved: each save came no sooner than the checkpoint
   interval after the one before, and no later than that interval rounded up to units.
   */
  predicate Spaced(every: nat, unit: nat, k: nat, since: nat, n: nat)
    requires unit > 0
  {
    k * every + since <= n <= k * RoundUp(every, unit) + since
  }

  /** Save `k`, the first to fail, came when it was due. */
  ghost predicate SaveStops(every: nat, w: World, unit: nat, n: nat)
    requires unit > 0
  {
    every > 0 &&
    exists k: nat :: !w.saves(k) && (forall i: nat | i < k :: w.saves(i)) && Spaced(every, unit, k + 1, 0, n)
  }

  /** All saves that were due were made, and no others. */
  ghost predicate SavesKept(every: nat, w: World, unit: nat, p: Progress)
    requires unit > 0
  {
    && (forall k: nat | k < p.saves :: w.saves(k))
    && if every == 0 then p.saves == 0 else p.since < every && Spaced(every, unit, p.saves, p.since, p.checked)
  }

  /** What a sweep of `total` names from a fresh start comes to. */
  ghost predicate Ends(cfg: SweepConfig, w: World, unit: nat, total: nat, r: Result<Progress, SweepError>)
    requires unit > 0
  {
    match r
    case Ok(q) => q.checked == total && CanariesPassed(w, unit, total) && SavesKept(cfg.checkpointEvery, w, unit, q)
    case Err(MidSweepCanaryFailed(resolver, n)) => CanaryStops(w, unit, total, resolver, n)
    case Err(CheckpointFailed(n)) =>
      n <= total && CanariesPassed(w, unit, n) && SaveStops(cfg.checkpointEvery, w, unit, n)
    case Err(_) => false
  }

  /** Between chunks, all of them full so far. */
  ghost predicate InStep(cfg: SweepConfig, w: World, unit: nat, p: Progress)
    requires unit > 0
  {
    && p.passes >= 1 && p.checked == (p.passes - 1) * unit && RoundUp(p.since, unit) == p.since
    && (forall k: nat | k < p.passes :: w.canary(k) == None)
    && SavesKept(cfg.checkpointEvery, w, unit, p)
  }

  lemma Begun(k: nat, full: nat, unit: nat, len: nat)
    requires len <= unit && k >= 1 && (k - 1) * unit < full * unit + len
    ensures k <= full + 1 && (len == 0 ==> k <= full)
  {
    if k - 1 >= full + 1 {
      TimesGrows(full + 1, k - 1, unit);
    }
    if k - 1 >= full {
      TimesGrows(full, k - 1, unit);
    }
  }

  lemma TimesGrows(a: nat, b: nat, unit: nat)
    requires a <= b
    ensures a * unit <= b * unit && (a + 1) * unit == a * unit + unit
  {}

  lemma PassedSoFar(w: World, unit: nat, full: nat, len: nat)
    requires len <= unit && forall k: nat | k <= (if len == 0 then full else full + 1) :: w.canary(k) == None
    ensures CanariesPassed(w, unit, full * unit + len)
  {
    forall k: nat | k == 0 || (k - 1) * unit < full * unit + len ensures w.canary(k) == None {
      if k > 0 { Begun(k, full, unit, len); }
    }
  }

  /** The canary after a chunk fails. */
  lemma ChunkStops(w: World, unit: nat, p: Progress, len: nat, total: nat, resolver: Resolver)
    requires p.passes >= 1 && p.checked == (p.passes - 1) * unit
    requires forall k: nat | k < p.passes :: w.canary(k) == None
    requires 0 < len <= unit && p.checked + len <= total && (len < unit ==> total == p.checked + len)
    requires w.canary(p.passes) == Some(resolver)
    ensures CanaryStops(w, unit, total, resolver, p.checked + len)
  {
    TimesGrows(p.passes - 1, p.passes, unit);
  }

  /** One more save, or none yet. */
  lemma SpacedMore(every: nat, unit: nat, k: nat, since: nat, n: nat, len: nat)
    requires unit > 0 && len <= unit && since < every && RoundUp(since, unit) == since
    requires Spaced(every, unit, k, since, n)
    ensures Spaced(every, unit, k, since + len, n + len)
    ensures since + len >= every ==> Spaced(every, unit, k + 1, 0, n + len)
  {
    RoundUpCovers(since, every, unit);
    TimesGrows(k, k, every);
    TimesGrows(k, k, RoundUp(every, unit));
  }

  /** A chunk whose canary passes, and the save after it. */
  lemma ChunkGoesOn(cfg: SweepConfig, w: World, unit: nat, batch: seq<string>, p: Progress)
    requires unit > 0 && InStep(cfg, w, unit, p) && 0 < |batch| <= unit && w.canary(p.passes) == None
    ensures var r, n := Chunk(cfg, w, batch, p), p.checked + |batch|;
            && CanariesPassed(w, unit, n)
            && (r.Err? ==> r == Err(CheckpointFailed(n)) && SaveStops(cfg.checkpointEvery, w, unit, n))
            && (r.Ok? ==> r.value.checked == n && SavesKept(cfg.checkpointEvery, w, unit, r.value))
            && (r.Ok? && |batch| == unit ==> InStep(cfg, w, unit, r.value))
  {
    PassedSoFar(w, unit, p.passes - 1, |batch|);
    TimesGrows(p.passes - 1, p.passes, unit);
    if cfg.checkpointEvery > 0 {
      SpacedMore(cfg.checkpointEvery, unit, p.saves, p.since, p.checked, |batch|);
    }
  }

  lemma {:induction false} FoldCadence(cfg: SweepConfig, w: World, unit: nat, chunks: seq<seq<string>>, p: Progress)
    requires unit > 0 && InUnits(unit, chunks) && InStep(cfg, w, unit, p)
    ensures Ends(cfg, w, unit, p.checked + |Flat(chunks)|, Fold(cfg, w, chunks, p))
    decreases |chunks|
  {
    if chunks == [] {
      PassedSoFar(w, unit, p.passes - 1, 0);
    } else {
      InUnitsRest(unit, chunks);
      var batch, rest := chunks[0], chunks[1..];
      var r := Chunk(cfg, w, batch, p);
      assert Flat(chunks) == batch + Flat(rest) && (rest == [] ==> Flat(rest) == []);
      if w.canary(p.passes).Some? {
        ChunkStops(w, unit, p, |batch|, p.checked + |Flat(chunks)|, w.canary(p.passes).value);
      } else {
        ChunkGoesOn(cfg, w, unit, batch, p);
        if r.Ok? && rest != [] {
          FoldCadence(cfg, w, unit, rest, r.value);
        }
      }
    }
  }

  lemma StartInStep(cfg: SweepConfig, w: World, unit: nat, cache: Table, dirty: bool)
    requires unit > 0 && w.canary(0) == None
    ensures InStep(cfg, w, unit, Start(cache, dirty))
  {}

  // -------------------------------------------------------------------------
  // Both sweeps
  // -------------------------------------------------------------------------

  /** How a whole sweep of `total` names can end, the canary before it included. */
  ghost predicate SweepEnds(cfg: SweepConfig, w: World, unit: nat, total: nat, r: Result<SweepOutcome, SweepError>)
    requires unit > 0
  {
    match r
    case Ok(o) =>
      && o.checked == total && CanariesPassed(w, unit, total)
      && exists q: Progress :: q.checked == total && SavesKept(cfg.checkpointEvery, w, unit, q)
    case Err(InitialCanaryFailed(resolver)) => w.canary(0) == Some(resolver)
    case Err(MidSweepCanaryFailed(resolver, n)) => CanaryStops(w, unit, total, resolver, n)
    case Err(CheckpointFailed(n)) =>
      && n <= total && CanariesPassed(w, unit, n)
      && (|| SaveStops(cfg.checkpointEvery, w, unit, n)
          || (n == total && exists k: nat :: !w.saves(k) && forall i: nat | i < k :: w.saves(i)))
    case Err(EntriesReadFailed) => false
  }

  /**
   The in-memory sweep checks every due name, a canary pass after each `canaryEvery` of them and after the
   last; the only errors are a canary that fails and a save that fails, each with the count it came at.
   */
  lemma ResidentCadence(cfg: SweepConfig, w: World, entries: seq<MergedEntry>, cache: Table)
    ensures var unit: nat := if cfg.canaryEvery >= 1 then cfg.canaryEvery else 1;
            SweepEnds(cfg, w, unit, |DueList(cfg, w, cache, entries)|, SweepResult(cfg, w, entries, cache))
  {
    var unit: nat := if cfg.canaryEvery >= 1 then cfg.canaryEvery else 1;
    var due := DueList(cfg, w, cache, entries);
    if w.canary(0) == None {
      StartInStep(cfg, w, unit, cache, false);
      CheckIsFold(cfg, w, due, Start(cache, false), unit);
      CutMeans(unit, due);
      FoldCadence(cfg, w, unit, Cut(unit, due), Start(cache, false));
    }
  }

  lemma StreamFolds(cfg: SweepConfig, w: World, read: (seq<MergedEntry>, bool), cache: Table, dirty: bool, unit: nat)
    requires unit == (if cfg.canaryEvery >= 1 then cfg.canaryEvery else 1) && w.canary(0) == None
    ensures var p := Start(cache, dirty);
            var r, total := StreamChunks(cfg, w, read.0, read.1, p), |Flat(ChunksOf(cfg, w, read.0, read.1, cache))|;
            Ends(cfg, w, unit, total, r) || (r == Err(EntriesReadFailed) && !read.1)
  {
    ChunksInUnits(cfg, w, read.0, read.1, cache, unit);
    StartInStep(cfg, w, unit, cache, dirty);
    StreamIsFold(cfg, w, read.0, read.1, Start(cache, dirty));
    FoldCadence(cfg, w, unit, ChunksOf(cfg, w, read.0, read.1, cache), Start(cache, dirty));
  }

  lemma WithLastSave(cfg: SweepConfig, w: World, unit: nat, total: nat, entries: seq<MergedEntry>, q: Progress)
    requires unit > 0 && Ends(cfg, w, unit, total, Ok(q))
    ensures LastSaveFails(w, q) ==> SweepEnds(cfg, w, unit, total, Err(CheckpointFailed(q.checked)))
    ensures SweepEnds(cfg, w, unit, total, Ok(Outcome(cfg, w, entries, q)))
  {}

  lemma FailedEarly(cfg: SweepConfig, w: World, unit: nat, total: nat, e: SweepError)
    requires unit > 0 && Ends(cfg, w, unit, total, Err(e))
    ensures SweepEnds(cfg, w, unit, total, Err(e))
  {}

  /** And the streaming sweep the names of its chunks, unless it cannot read its file to the end. */
  lemma StreamCadence(cfg: SweepConfig, w: World, read: (seq<MergedEntry>, bool), cache: Table, dirty: bool)
    ensures var unit: nat := if cfg.canaryEvery >= 1 then cfg.canaryEvery else 1;
            var total, r := |Flat(ChunksOf(cfg, w, read.0, read.1, cache))|, StreamResult(cfg, w, read, cache, dirty);
            SweepEnds(cfg, w, unit, total, r) || (r == Err(EntriesReadFailed) && !read.1)
  {
    var unit: nat := if cfg.canaryEvery >= 1 then cfg.canaryEvery else 1;
    if w.canary(0) == None {
      StreamFolds(cfg, w, read, cache, dirty, unit);
      var total := |Flat(ChunksOf(cfg, w, read.0, read.1, cache))|;
      var r := StreamChunks(cfg, w, read.0, read.1, Start(cache, dirty));
      match r {
        case Ok(q) => WithLastSave(cfg, w, unit, total, read.0, q);
        case Err(e) => if Ends(cfg, w, unit, total, r) { FailedEarly(cfg, w, unit, total, e); }
      }
    }
  }
}
