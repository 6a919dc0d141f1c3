/**
 The liveness sweep: how one batch updates the cache, what the two drivers compute, and the driver
 that holds the corpus in memory.

 `World` is what a sweep meets: the clock, the corroborated verdict of each domain, the outcome of
 each canary pass in turn (`None` is a pass), the special-use-name test, and which checkpoint writes
 succeed.  `completion` is the order in which the concurrent checks of one batch finish.
 */
module Sweep {
  import opened Wrappers
  import opened BlocklistTypes
  import opened FstBuild
  import opened Liveness
  import opened Orders
  import opened CacheStore
  import opened EntriesStore

  datatype SweepConfig = SweepConfig(canaryEvery: nat, ttl: nat, quarantine: nat, checkpointEvery: nat)

  datatype World = World(
    now: nat,
    verdictOf: string -> Verdict,
    canary: nat -> Option<Resolver>,
    special: string -> bool,
    saves: nat -> bool)

  datatype SweepError =
    | InitialCanaryFailed(resolver: Resolver)
    | MidSweepCanaryFailed(resolver: Resolver, checkedBeforeFailure: nat)
    | CheckpointFailed(checkedBeforeFailure: nat)
    | EntriesReadFailed

  datatype SweepOutcome = SweepOutcome(cache: Table, pruned: set<string>, checked: nat)

  function CanaryEvery(cfg: SweepConfig): (n: nat)
    ensures n >= 1
  {
    if cfg.canaryEvery >= 1 then cfg.canaryEvery else 1
  }

  // -------------------------------------------------------------------------
  // One batch
  // -------------------------------------------------------------------------

  /** The entry a check writes: the dead streak starts, continues or ends. */
  function Updated(w: World, d: string, before: Option<CacheEntry>): CacheEntry {
    var v := w.verdictOf(d);
    var first := if before.Some? && before.value.firstDeadAt.Some? then before.value.firstDeadAt else Some(w.now);
    CacheEntry(w.now, v, if v == Dead then first else None)
  }

  /** The cache after every domain of `ds` was checked in this world, in any order and any number of times. */
  function Swept(w: World, cache: Table, ds: set<string>): Table {
    map d | d in cache.Keys + ds :: if d in ds then Updated(w, d, Find(cache, d)) else cache[d]
  }

  lemma SweptCompose(w: World, cache: Table, a: set<string>, b: set<string>)
    ensures Swept(w, Swept(w, cache, a), b) == Swept(w, cache, a + b)
  {
    forall d | d in cache.Keys + a + b
      ensures Swept(w, Swept(w, cache, a), b)[d] == Swept(w, cache, a + b)[d]
    {}
  }

  lemma SweptOne(w: World, cache: Table, ds: set<string>, d: string)
    ensures Swept(w, cache, ds)[d := Updated(w, d, Find(Swept(w, cache, ds), d))] == Swept(w, cache, ds + {d})
  {
    SweptCompose(w, cache, ds, {d});
  }

  ghost predicate Reorders(completion: seq<string> -> seq<string>) {
    forall batch :: Elements(completion(batch)) == Elements(batch) && |completion(batch)| == |batch|
  }

  /** Since `from`, only names of `names` were written to the buffer and nothing was committed. */
  ghost predicate Buffering(history: seq<Snapshot>, from: nat, db: Table, names: set<string>) {
    forall i | from <= i < |history| :: history[i].db == db && history[i].pending.Keys <= names
  }

  lemma BufferingMore(history: seq<Snapshot>, from: nat, db: Table, names: set<string>, s: Snapshot)
    requires Buffering(history, from, db, names) && s.db == db && s.pending.Keys <= names
    ensures Buffering(history + [s], from, db, names)
  {}

  /** The entry of one checked domain, from the entry before. */
  method RecordVerdict(w: World, store: CacheStore, domain: string, ghost from: nat, ghost names: set<string>)
    requires store.Valid() && store.pending.Keys <= names && domain in names
    requires Buffering(store.history, from, store.db, names)
    modifies store
    ensures store.Valid() && old(store.history) <= store.history && store.db == old(store.db)
    ensures store.View() == old(store.View())[domain := Updated(w, domain, Find(old(store.View()), domain))]
    ensures store.pending.Keys == old(store.pending).Keys + {domain}
    ensures Buffering(store.history, from, store.db, names)
  {
    var before := store.Get(domain, true);
    var entry := Updated(w, domain, before);
    BufferingMore(store.history, from, store.db, names, Snapshot(store.db, store.pending[domain := entry]));
    store.Set(domain, entry);
  }

  method ProcessBatch(w: World, batch: seq<string>, store: CacheStore, completion: seq<string> -> seq<string>)
    returns (checked: nat)
    requires Reorders(completion) && store.Valid()
    modifies store
    ensures store.Valid() && old(store.history) <= store.history
    ensures store.View() == Swept(w, old(store.View()), Elements(batch))
    ensures store.db == old(store.db) && checked == |batch|
    ensures store.pending.Keys == old(store.pending).Keys + Elements(batch)
    ensures Buffering(store.history, |old(store.history)|, store.db, store.pending.Keys)
  {
    var results := completion(batch);
    ghost var view, names := store.View(), store.pending.Keys + Elements(batch);
    assert Swept(w, view, Elements(results[..0])) == view;
    for i := 0 to |results|
      invariant store.Valid() && old(store.history) <= store.history && store.db == old(store.db)
      invariant store.View() == Swept(w, view, Elements(results[..i]))
      invariant store.pending.Keys == old(store.pending).Keys + Elements(results[..i])
      invariant Buffering(store.history, |old(store.history)|, store.db, names)
    {
      var domain := results[i];
      assert Elements(results[..i + 1]) == Elements(results[..i]) + {domain};
      assert domain in Elements(results);
      SweptOne(w, view, Elements(results[..i]), domain);
      RecordVerdict(w, store, domain, |old(store.history)|, names);
    }
    assert results[..|results|] == results;
    checked := |results|;
  }

  method ProcessBatchInMemory(w: World, batch: seq<string>, cache: Table, completion: seq<string> -> seq<string>)
    returns (after: Table, checked: nat)
    requires Reorders(completion)
    ensures after == Swept(w, cache, Elements(batch)) && checked == |batch|
  {
    var results := completion(batch);
    after := cache;
    assert Swept(w, cache, Elements(results[..0])) == cache;
    for i := 0 to |results|
      invariant after == Swept(w, cache, Elements(results[..i]))
    {
      var domain := results[i];
      assert Elements(results[..i + 1]) == Elements(results[..i]) + {domain};
      SweptOne(w, cache, Elements(results[..i]), domain);
      after := after[domain := Updated(w, domain, Find(after, domain))];
    }
    assert results[..|results|] == results;
    checked := |results|;
  }

  // -------------------------------------------------------------------------
  // What a sweep computes
  // -------------------------------------------------------------------------

  predicate Due(cfg: SweepConfig, w: World, cache: Table, d: string) {
    DueForCheck(Find(cache, d), w.now, cfg.ttl)
  }

  function DueList(cfg: SweepConfig, w: World, cache: Table, entries: seq<MergedEntry>): seq<string> {
    if entries == [] then []
    else if Due(cfg, w, cache, entries[0].domain) then
      [entries[0].domain] + DueList(cfg, w, cache, entries[1..])
    else
      DueList(cfg, w, cache, entries[1..])
  }

  predicate Prunes(cfg: SweepConfig, w: World, cache: Table, d: string) {
    d in cache && ShouldPrune(w.special, cache[d], d, w.now, cfg.quarantine)
  }

  function PrunedOf(cfg: SweepConfig, w: World, cache: Table, entries: seq<MergedEntry>): set<string> {
    set e | e in entries && Prunes(cfg, w, cache, e.domain) :: e.domain
  }

  /**
   Where a sweep stands: canary passes run, domains checked, domains checked since the last
   checkpoint, checkpoints written, and whether the store holds writes not yet committed.
   */
  datatype Progress = Progress(cache: Table, passes: nat, checked: nat, since: nat, saves: nat, dirty: bool)

  function Start(cache: Table, dirty: bool): Progress {
    Progress(cache, 1, 0, 0, 0, dirty)
  }

  function SaveWhenDue(cfg: SweepConfig, w: World, p: Progress): Result<Progress, SweepError> {
    if cfg.checkpointEvery == 0 || p.since < cfg.checkpointEvery then Ok(p)
    else if w.saves(p.saves) then Ok(p.(since := 0, saves := p.saves + 1, dirty := false))
    else Err(CheckpointFailed(p.checked))
  }

  /** One chunk: check it, run the canary, and save when enough has gathered. */
  function Chunk(cfg: SweepConfig, w: World, batch: seq<string>, p: Progress): Result<Progress, SweepError> {
    var checked := p.checked + |batch|;
    match w.canary(p.passes)
    case Some(resolver) => Err(MidSweepCanaryFailed(resolver, checked))
    case None =>
      var after := Swept(w, p.cache, Elements(batch));
      SaveWhenDue(cfg, w, Progress(after, p.passes + 1, checked, p.since + |batch|, p.saves, true))
  }

  /** The due list, chunk by chunk. */
  function CheckChunks(cfg: SweepConfig, w: World, due: seq<string>, p: Progress): Result<Progress, SweepError>
    decreases |due|
  {
    if due == [] then Ok(p)
    else
      var n := if |due| < CanaryEvery(cfg) then |due| else CanaryEvery(cfg);
      match Chunk(cfg, w, due[..n], p)
      case Err(e) => Err(e)
      case Ok(q) => CheckChunks(cfg, w, due[n..], q)
  }

  function Outcome(cfg: SweepConfig, w: World, entries: seq<MergedEntry>, p: Progress): SweepOutcome {
    SweepOutcome(p.cache, PrunedOf(cfg, w, p.cache, entries), p.checked)
  }

  /** The sweep that decides what is due before it starts. */
  function SweepResult(cfg: SweepConfig, w: World, entries: seq<MergedEntry>, cache: Table)
    : Result<SweepOutcome, SweepError>
  {
    match w.canary(0)
    case Some(resolver) => Err(InitialCanaryFailed(resolver))
    case None =>
      match CheckChunks(cfg, w, DueList(cfg, w, cache, entries), Start(cache, false))
      case Err(e) => Err(e)
      case Ok(p) => Ok(Outcome(cfg, w, entries, p))
  }

  /** The next batch of a streaming pass: up to `room` due domains, and how many entries that read. */
  function Gather(cfg: SweepConfig, w: World, cache: Table, entries: seq<MergedEntry>, room: nat)
    : (r: (seq<string>, nat))
    ensures r.1 <= |entries| && |r.0| <= room && |r.0| <= r.1
    ensures r.1 < |entries| ==> |r.0| == room
  {
    if room == 0 || entries == [] then ([], 0)
    else if Due(cfg, w, cache, entries[0].domain) then
      var (batch, used) := Gather(cfg, w, cache, entries[1..], room - 1);
      ([entries[0].domain] + batch, used + 1)
    else
      var (batch, used) := Gather(cfg, w, cache, entries[1..], room);
      (batch, used + 1)
  }

  /** The same chunks, but each entry's dueness is decided when it is read; `clean` is how the file ends. */
  function StreamChunks(cfg: SweepConfig, w: World, entries: seq<MergedEntry>, clean: bool, p: Progress)
    : Result<Progress, SweepError>
    decreases |entries|
  {
    var (batch, used) := Gather(cfg, w, p.cache, entries, CanaryEvery(cfg));
    if |batch| < CanaryEvery(cfg) && !clean then Err(EntriesReadFailed)
    else if batch == [] then Ok(p)
    else
      match Chunk(cfg, w, batch, p)
      case Err(e) => Err(e)
      case Ok(q) => StreamChunks(cfg, w, entries[used..], clean, q)
  }

  predicate LastSaveFails(w: World, p: Progress) {
    p.dirty && !w.saves(p.saves)
  }

  function StreamResult(cfg: SweepConfig, w: World, read: (seq<MergedEntry>, bool), cache: Table, dirty: bool)
    : Result<SweepOutcome, SweepError>
  {
    match w.canary(0)
    case Some(resolver) => Err(InitialCanaryFailed(resolver))
    case None =>
      match StreamChunks(cfg, w, read.0, read.1, Start(cache, dirty))
      case Err(e) => Err(e)
      case Ok(p) =>
        if LastSaveFails(w, p) then Err(CheckpointFailed(p.checked)) else Ok(Outcome(cfg, w, read.0, p))
  }

  // -------------------------------------------------------------------------
  // The two ways of deciding what is due agree
  // -------------------------------------------------------------------------

  lemma {:induction false} GatherIsPrefix(cfg: SweepConfig, w: World, cache: Table, entries: seq<MergedEntry>,
                                          room: nat)
    ensures var (batch, used) := Gather(cfg, w, cache, entries, room);
            DueList(cfg, w, cache, entries) == batch + DueList(cfg, w, cache, entries[used..])
  {
    if room > 0 && entries != [] {
      var due := Due(cfg, w, cache, entries[0].domain);
      var room' := if due then room - 1 else room;
      GatherIsPrefix(cfg, w, cache, entries[1..], room');
      var (batch, used) := Gather(cfg, w, cache, entries[1..], room');
      var rest := DueList(cfg, w, cache, entries[used + 1..]);
      assert entries[1..][used..] == entries[used + 1..];
      ConcatAssociates([entries[0].domain], batch, rest);
    } else {
      assert [] + DueList(cfg, w, cache, entries) == DueList(cfg, w, cache, entries);
    }
  }

  ghost predicate Occurs(d: string, entries: seq<MergedEntry>, used: nat) {
    exists i :: 0 <= i < used <= |entries| && entries[i].domain == d
  }

  lemma {:induction false} GatheredWereRead(cfg: SweepConfig, w: World, cache: Table, entries: seq<MergedEntry>,
                                            room: nat, d: string)
    requires d in Gather(cfg, w, cache, entries, room).0
    ensures Occurs(d, entries, Gather(cfg, w, cache, entries, room).1)
  {
    var due := Due(cfg, w, cache, entries[0].domain);
    var room' := if due then room - 1 else room;
    var (batch, used) := Gather(cfg, w, cache, entries[1..], room');
    if due && d == entries[0].domain {
      assert entries[0].domain == d;
    } else {
      GatheredWereRead(cfg, w, cache, entries[1..], room', d);
      var i :| 0 <= i < used <= |entries[1..]| && entries[1..][i].domain == d;
      assert entries[i + 1].domain == d;
    }
  }

  lemma {:induction false} DueListUntouched(cfg: SweepConfig, w: World, cache: Table, ds: set<string>,
                                            entries: seq<MergedEntry>)
    requires forall e | e in entries :: e.domain !in ds
    ensures DueList(cfg, w, Swept(w, cache, ds), entries) == DueList(cfg, w, cache, entries)
  {
    if entries != [] {
      DueListUntouched(cfg, w, cache, ds, entries[1..]);
    }
  }

  /** The first batch of the stream is the first chunk of the due list, and checking it leaves the rest due. */
  lemma FirstBatchAgrees(cfg: SweepConfig, w: World, entries: seq<MergedEntry>, cache: Table)
    requires DistinctDomains(entries)
    ensures var (batch, used) := Gather(cfg, w, cache, entries, CanaryEvery(cfg));
            var due := DueList(cfg, w, cache, entries);
            var n := if |due| < CanaryEvery(cfg) then |due| else CanaryEvery(cfg);
            && batch == due[..n] && (batch == [] ==> due == [])
            && DueList(cfg, w, Swept(w, cache, Elements(batch)), entries[used..]) == due[n..]
  {
    var room := CanaryEvery(cfg);
    var (batch, used) := Gather(cfg, w, cache, entries, room);
    var due, rest := DueList(cfg, w, cache, entries), entries[used..];
    GatherIsPrefix(cfg, w, cache, entries, room);
    assert used == |entries| ==> rest == [];
    BatchNotInRest(cfg, w, cache, entries);
    DueListUntouched(cfg, w, cache, Elements(batch), rest);
    Parts(batch, DueList(cfg, w, cache, rest));
  }

  lemma Parts<T>(a: seq<T>, b: seq<T>)
    ensures (a + b)[..|a|] == a && (a + b)[|a|..] == b
  {}

  lemma BatchNotInRest(cfg: SweepConfig, w: World, cache: Table, entries: seq<MergedEntry>)
    requires DistinctDomains(entries)
    ensures var (batch, used) := Gather(cfg, w, cache, entries, CanaryEvery(cfg));
            forall e | e in entries[used..] :: e.domain !in Elements(batch)
  {
    var (batch, used) := Gather(cfg, w, cache, entries, CanaryEvery(cfg));
    var rest := entries[used..];
    forall e | e in rest ensures e.domain !in Elements(batch) {
      var j :| 0 <= j < |rest| && rest[j] == e;
      assert entries[used + j] == e;
      if e.domain in batch {
        GatheredWereRead(cfg, w, cache, entries, CanaryEvery(cfg), e.domain);
      }
    }
  }

  lemma {:induction false} ChunksAgree(cfg: SweepConfig, w: World, entries: seq<MergedEntry>, p: Progress)
    requires DistinctDomains(entries)
    ensures StreamChunks(cfg, w, entries, true, p) == CheckChunks(cfg, w, DueList(cfg, w, p.cache, entries), p)
    decreases |entries|
  {
    var (batch, used) := Gather(cfg, w, p.cache, entries, CanaryEvery(cfg));
    FirstBatchAgrees(cfg, w, entries, p.cache);
    if batch != [] {
      var after := Chunk(cfg, w, batch, p);
      if after.Ok? {
        assert after.value.cache == Swept(w, p.cache, Elements(batch));
        ChunksAgree(cfg, w, entries[used..], after.value);
      }
    }
  }

  /**
   For a duplicate-free corpus both sweeps end alike: the same outcome, or the same error at the same
   count.  The one extra way to fail is the write that ends a streaming sweep.
   */
  lemma SweepsAgree(cfg: SweepConfig, w: World, entries: seq<MergedEntry>, cache: Table)
    requires DistinctDomains(entries)
    ensures var streamed := StreamResult(cfg, w, (entries, true), cache, false);
            var resident := SweepResult(cfg, w, entries, cache);
            || streamed == resident
            || (resident.Ok? && streamed == Err(CheckpointFailed(resident.value.checked))
                && exists n: nat :: !w.saves(n))
  {
    ChunksAgree(cfg, w, entries, Start(cache, false));
  }

  // -------------------------------------------------------------------------
  // The in-memory driver
  // -------------------------------------------------------------------------

  method PruneScan(cfg: SweepConfig, w: World, entries: seq<MergedEntry>, cache: Table) returns (pruned: set<string>)
    ensures pruned == PrunedOf(cfg, w, cache, entries)
  {
    pruned := {};
    for i := 0 to |entries|
      invariant pruned == PrunedOf(cfg, w, cache, entries[..i])
    {
      assert forall e :: e in entries[..i + 1] <==> e in entries[..i] || e == entries[i];
      if Prunes(cfg, w, cache, entries[i].domain) {
        pruned := pruned + {entries[i].domain};
      }
    }
    assert entries[..|entries|] == entries;
  }

  method RunSweepInMemory(cfg: SweepConfig, w: World, entries: seq<MergedEntry>, initial: Table,
                          completion: seq<string> -> seq<string>)
    returns (r: Result<SweepOutcome, SweepError>)
    requires Reorders(completion)
    ensures r == SweepResult(cfg, w, entries, initial)
  {
    var failed := w.canary(0);
    if failed.Some? {
      return Err(InitialCanaryFailed(failed.value));
    }
    var cache := initial;
    var due := DueList(cfg, w, cache, entries);
    ghost var goal := CheckChunks(cfg, w, due, Start(cache, false));
    var checked: nat, sinceCheckpoint: nat, passes: nat, saves: nat := 0, 0, 1, 0;
    ghost var dirty := false;
    while due != []
      invariant CheckChunks(cfg, w, due, Progress(cache, passes, checked, sinceCheckpoint, saves, dirty)) == goal
      decreases |due|
    {
      var n := if |due| < CanaryEvery(cfg) then |due| else CanaryEvery(cfg);
      ghost var p := Progress(cache, passes, checked, sinceCheckpoint, saves, dirty);
      var batchChecked: nat;
      cache, batchChecked := ProcessBatchInMemory(w, due[..n], cache, completion);
      checked := checked + batchChecked;
      sinceCheckpoint := sinceCheckpoint + batchChecked;
      failed := w.canary(passes);
      passes := passes + 1;
      if failed.Some? {
        return Err(MidSweepCanaryFailed(failed.value, checked));
      }
      dirty := true;
      if cfg.checkpointEvery > 0 && sinceCheckpoint >= cfg.checkpointEvery {
        if !w.saves(saves) {
          return Err(CheckpointFailed(checked));
        }
        saves := saves + 1;
        sinceCheckpoint := 0;
        dirty := false;
      }
      assert Chunk(cfg, w, due[..n], p) == Ok(Progress(cache, passes, checked, sinceCheckpoint, saves, dirty));
      due := due[n..];
    }
    var pruned := PruneScan(cfg, w, entries, cache);
    return Ok(SweepOutcome(cache, pruned, checked));
  }
}
