/** What a streaming sweep may have on disk, and in its buffer, at any moment. */
module SweepDurability {
  import opened Wrappers
  import opened BlocklistTypes
  import opened Liveness
  import opened Orders
  import opened CacheStore
  import opened Sweep

  // -------------------------------------------------------------------------
  // The chunks of a sweep
  // -------------------------------------------------------------------------

  function Flat(batches: seq<seq<string>>): seq<string> {
    if batches == [] then [] else batches[0] + Flat(batches[1..])
  }

  /** The chunks a streaming sweep checks, one after the other, if nothing stops it. */
  function ChunksOf(cfg: SweepConfig, w: World, entries: seq<MergedEntry>, clean: bool, cache: Table): seq<seq<string>>
    decreases |entries|
  {
    var (batch, used) := Gather(cfg, w, cache, entries, CanaryEvery(cfg));
    if batch == [] || (|batch| < CanaryEvery(cfg) && !clean) then []
    else [batch] + ChunksOf(cfg, w, entries[used..], clean, Swept(w, cache, Elements(batch)))
  }

  lemma {:induction false} FlatConcat(a: seq<seq<string>>, b: seq<seq<string>>)
    ensures Flat(a + b) == Flat(a) + Flat(b)
  {
    if a == [] {
      assert a + b == b;
    } else {
      FlatConcat(a[1..], b);
      assert (a + b)[1..] == a[1..] + b && (a + b)[0] == a[0];
      ConcatAssociates(a[0], Flat(a[1..]), Flat(b));
    }
  }

  lemma FlatMore(chunks: seq<seq<string>>, from: nat, to: nat)
    requires from <= to < |chunks|
    ensures Flat(chunks[from..to + 1]) == Flat(chunks[from..to]) + chunks[to]
  {
    assert chunks[from..to + 1] == chunks[from..to] + [chunks[to]];
    FlatConcat(chunks[from..to], [chunks[to]]);
    assert [chunks[to]][1..] == [] && chunks[to] + Flat([]) == chunks[to];
  }

  lemma ChunkChecks(cfg: SweepConfig, w: World, batch: seq<string>, p: Progress)
    requires Chunk(cfg, w, batch, p).Ok?
    ensures CheckedFrom(w, p, Chunk(cfg, w, batch, p).value, batch)
  {}

  lemma FlatFirst(batch: seq<string>, rest: seq<seq<string>>)
    ensures Flat([batch] + rest) == batch + Flat(rest)
  {
    assert ([batch] + rest)[1..] == rest;
  }

  /** On the way from `p` to `q` these names were checked. */
  predicate CheckedFrom(w: World, p: Progress, q: Progress, names: seq<string>) {
    q.cache == Swept(w, p.cache, Elements(names)) && q.checked == p.checked + |names|
  }

  lemma CheckedNothing(w: World, p: Progress)
    ensures CheckedFrom(w, p, p, [])
  {
    assert Elements<string>([]) == {};
  }

  lemma CheckedBoth(w: World, p: Progress, q: Progress, r: Progress, a: seq<string>, b: seq<string>)
    requires CheckedFrom(w, p, q, a) && CheckedFrom(w, q, r, b)
    ensures CheckedFrom(w, p, r, a + b)
  {
    ElementsConcat(a, b);
    SweptCompose(w, p.cache, Elements(a), Elements(b));
  }

  /** A sweep that gets through has checked exactly these chunks. */
  lemma {:induction false} ChunksAreChecked(cfg: SweepConfig, w: World, entries: seq<MergedEntry>, clean: bool,
                                            p: Progress)
    requires StreamChunks(cfg, w, entries, clean, p).Ok?
    ensures CheckedFrom(w, p, StreamChunks(cfg, w, entries, clean, p).value,
                        Flat(ChunksOf(cfg, w, entries, clean, p.cache)))
    decreases |entries|
  {
    var (batch, used) := Gather(cfg, w, p.cache, entries, CanaryEvery(cfg));
    if batch == [] {
      CheckedNothing(w, p);
    } else {
      var q := Chunk(cfg, w, batch, p).value;
      ChunkChecks(cfg, w, batch, p);
      ChunksAreChecked(cfg, w, entries[used..], clean, q);
      var rest := ChunksOf(cfg, w, entries[used..], clean, q.cache);
      FlatFirst(batch, rest);
      CheckedBoth(w, p, q, StreamChunks(cfg, w, entries[used..], clean, q).value, batch, Flat(rest));
    }
  }

  lemma ElementsConcat<T>(a: seq<T>, b: seq<T>)
    ensures Elements(a + b) == Elements(a) + Elements(b)
  {}

  // -------------------------------------------------------------------------
  // Rounding up
  // -------------------------------------------------------------------------

  /** `n` rounded up to a multiple of `unit`. */
  function RoundUp(n: int, unit: nat): nat
    requires unit > 0
    decreases n
  {
    if n <= 0 then 0 else unit + RoundUp(n - unit, unit)
  }

  lemma {:induction false} RoundUpCovers(k: int, n: int, unit: nat)
    requires unit > 0 && 0 <= k < n && RoundUp(k, unit) == k
    ensures k + unit <= RoundUp(n, unit)
    decreases n
  {
    if k > 0 {
      assert RoundUp(k - unit, unit) == k - unit;
      RoundUpCovers(k - unit, n - unit, unit);
    }
  }

  /** The recursion gives the least multiple of `unit` that is not below `n`. */
  lemma {:induction false} RoundUpIsLeast(n: int, unit: nat) returns (k: nat)
    requires unit > 0 && n >= 0
    ensures RoundUp(n, unit) == k * unit && n <= k * unit < n + unit
    decreases n
  {
    if n <= 0 {
      k := 0;
    } else if n < unit {
      assert RoundUp(n - unit, unit) == 0;
      k := 1;
    } else {
      var rest := RoundUpIsLeast(n - unit, unit);
      k := rest + 1;
      assert k * unit == rest * unit + unit;
    }
  }

  // -------------------------------------------------------------------------
  // Durability
  // -------------------------------------------------------------------------

  /** A sweep under way: its settings, its world, the table it found, and the chunks it has before it. */
  datatype Job = Job(cfg: SweepConfig, w: World, start: Table, chunks: seq<seq<string>>)

  /**
   The disk holds the verdicts of the first `k` chunks and no other, each followed by a passed canary;
   the buffer, which a crash loses, holds only names of later chunks, and no more than a checkpoint
   interval rounded up to a multiple of the canary interval (of one, if that is zero).
   */
  ghost predicate CommittedTo(job: Job, s: Snapshot, k: nat) {
    && k <= |job.chunks| && (forall i | 0 <= i <= k :: job.w.canary(i) == None)
    && s.db == Swept(job.w, job.start, Elements(Flat(job.chunks[..k])))
    && s.pending.Keys <= Elements(Flat(job.chunks[k..]))
    && (job.cfg.checkpointEvery > 0 ==>
          |s.pending| <= RoundUp(job.cfg.checkpointEvery, if job.cfg.canaryEvery >= 1 then job.cfg.canaryEvery else 1))
  }

  ghost predicate Durable(job: Job, s: Snapshot) {
    exists k: nat :: CommittedTo(job, s, k)
  }

  /** Every state recorded from `from` on. */
  ghost predicate AllDurable(job: Job, history: seq<Snapshot>, from: nat) {
    forall i | from <= i < |history| :: Durable(job, history[i])
  }

  lemma DurableOn(job: Job, before: seq<Snapshot>, after: seq<Snapshot>, from: nat)
    requires AllDurable(job, before, from) && before <= after && AllDurable(job, after, |before|)
    ensures AllDurable(job, after, from)
  {
    forall i | from <= i < |after| ensures Durable(job, after[i]) {
      if i < |before| {
        assert after[i] == before[i];
      }
    }
  }

  // -------------------------------------------------------------------------
  // Where the loop stands
  // -------------------------------------------------------------------------

  /** What a sweep counts between chunks. */
  datatype Counts = Counts(passes: nat, checked: nat, since: nat, saves: nat)

  /** Chunks checked, and how many of them are committed. */
  datatype Mark = Mark(done: nat, saved: nat)

  /** After a passed canary: the counts are those of the chunks, which are full but perhaps for the last. */
  ghost predicate Validated(job: Job, m: Mark, c: Counts, eof: bool) {
    && m.saved <= m.done <= |job.chunks| && c.passes == m.done + 1
    && c.checked == |Flat(job.chunks[..m.done])|
    && c.since == |Flat(job.chunks[m.saved..m.done])|
    && (!eof ==> RoundUp(c.since, CanaryEvery(job.cfg)) == c.since)
    && (forall i | 0 <= i <= m.done :: job.w.canary(i) == None)
  }

  /** Between turns, what is at risk has not reached a checkpoint either. */
  ghost predicate Steady(job: Job, m: Mark, c: Counts, eof: bool) {
    Validated(job, m, c, eof) && (job.cfg.checkpointEvery > 0 ==> c.since < job.cfg.checkpointEvery)
  }

  /** What the store holds then. */
  ghost predicate Holds(job: Job, m: Mark, s: Snapshot) {
    && m.saved <= m.done <= |job.chunks|
    && s.db == Swept(job.w, job.start, Elements(Flat(job.chunks[..m.saved])))
    && s.pending.Keys <= Elements(Flat(job.chunks[m.saved..m.done]))
    && s.db + s.pending == Swept(job.w, job.start, Elements(Flat(job.chunks[..m.done])))
  }

  lemma StartHolds(job: Job)
    requires job.w.canary(0) == None
    ensures Steady(job, Mark(0, 0), Counts(1, 0, 0, 0), false)
    ensures Holds(job, Mark(0, 0), Snapshot(job.start, map[]))
  {
    assert job.start + map[] == job.start == Swept(job.w, job.start, Elements(Flat([])));
  }

  /** Whatever part of one more chunk has been written to the buffer, the state is durable. */
  lemma PartOfChunkIsDurable(job: Job, m: Mark, c: Counts, s: Snapshot)
    requires Steady(job, m, c, false) && m.done < |job.chunks| && |job.chunks[m.done]| <= CanaryEvery(job.cfg)
    requires s.db == Swept(job.w, job.start, Elements(Flat(job.chunks[..m.saved])))
    requires s.pending.Keys <= Elements(Flat(job.chunks[m.saved..m.done])) + Elements(job.chunks[m.done])
    ensures Durable(job, s)
  {
    var risked := Flat(job.chunks[m.saved..m.done + 1]);
    FlatMore(job.chunks, m.saved, m.done);
    NamesMore(job.chunks, m.saved, m.done);
    AtMostAsMany(s.pending, risked);
    if job.cfg.checkpointEvery > 0 {
      RoundUpCovers(c.since, job.cfg.checkpointEvery, CanaryEvery(job.cfg));
    }
    AmongRest(job.chunks, m.saved, m.done + 1);
    assert CommittedTo(job, s, m.saved);
  }

  lemma AtMostAsMany(pending: Table, names: seq<string>)
    requires pending.Keys <= Elements(names)
    ensures |pending| <= |names|
  {
    ElementsAtMost(names);
    SubsetSize(pending.Keys, Elements(names));
  }

  lemma SubsetSize<T>(a: set<T>, b: set<T>)
    requires a <= b
    ensures |a| <= |b|
  {
    assert b == a + (b - a);
  }

  lemma AmongRest(chunks: seq<seq<string>>, from: nat, to: nat)
    requires from <= to <= |chunks|
    ensures Elements(Flat(chunks[from..to])) <= Elements(Flat(chunks[from..]))
  {
    assert chunks[from..] == chunks[from..to] + chunks[to..];
    FlatConcat(chunks[from..to], chunks[to..]);
  }

  /** A commit of everything, or the loss of the buffer, leaves a durable state too. */
  lemma EmptyIsDurable(job: Job, k: nat, s: Snapshot)
    requires k <= |job.chunks| && s.pending == map[] && forall i | 0 <= i <= k :: job.w.canary(i) == None
    requires s.db == Swept(job.w, job.start, Elements(Flat(job.chunks[..k])))
    ensures Durable(job, s)
  {
    assert CommittedTo(job, s, k);
  }

  /** One chunk further, in the counts. */
  lemma ChunkCounts(job: Job, m: Mark, c: Counts, eof: bool)
    requires Steady(job, m, c, false) && m.done < |job.chunks| && job.w.canary(c.passes) == None
    requires !eof ==> |job.chunks[m.done]| == CanaryEvery(job.cfg)
    ensures var n := |job.chunks[m.done]|;
            Validated(job, Mark(m.done + 1, m.saved), Counts(c.passes + 1, c.checked + n, c.since + n, c.saves), eof)
  {
    FlatMore(job.chunks, 0, m.done);
    FlatMore(job.chunks, m.saved, m.done);
    assert job.chunks[0..m.done] == job.chunks[..m.done] && job.chunks[0..m.done + 1] == job.chunks[..m.done + 1];
  }

  /** The names of one chunk more. */
  lemma NamesMore(chunks: seq<seq<string>>, from: nat, to: nat)
    requires from <= to < |chunks|
    ensures Elements(Flat(chunks[from..to + 1])) == Elements(Flat(chunks[from..to])) + Elements(chunks[to])
  {
    FlatMore(chunks, from, to);
    ElementsConcat(Flat(chunks[from..to]), chunks[to]);
  }

  lemma NamesUpTo(chunks: seq<seq<string>>, to: nat)
    requires to < |chunks|
    ensures Elements(Flat(chunks[..to + 1])) == Elements(Flat(chunks[..to])) + Elements(chunks[to])
  {
    NamesMore(chunks, 0, to);
    assert chunks[0..to] == chunks[..to] && chunks[0..to + 1] == chunks[..to + 1];
  }

  /** A chunk of names put on top of others. */
  lemma StoreMore(w: World, start: Table, done: set<string>, buffered: set<string>, chunk: set<string>,
                  before: Snapshot, after: Snapshot)
    requires before.pending.Keys <= buffered && before.db + before.pending == Swept(w, start, done)
    requires after.pending.Keys <= before.pending.Keys + chunk
    requires after.db + after.pending == Swept(w, before.db + before.pending, chunk)
    ensures after.pending.Keys <= buffered + chunk
    ensures after.db + after.pending == Swept(w, start, done + chunk)
  {
    SweptCompose(w, start, done, chunk);
  }

  /** And in the store. */
  lemma ChunkDone(job: Job, m: Mark, before: Snapshot, after: Snapshot)
    requires Holds(job, m, before) && m.done < |job.chunks| && after.db == before.db
    requires after.pending.Keys <= before.pending.Keys + Elements(job.chunks[m.done])
    requires after.db + after.pending == Swept(job.w, before.db + before.pending, Elements(job.chunks[m.done]))
    ensures Holds(job, Mark(m.done + 1, m.saved), after)
  {
    NamesUpTo(job.chunks, m.done);
    NamesMore(job.chunks, m.saved, m.done);
    var done, buffered := Elements(Flat(job.chunks[..m.done])), Elements(Flat(job.chunks[m.saved..m.done]));
    var chunk := Elements(job.chunks[m.done]);
    assert Elements(Flat(job.chunks[..m.done + 1])) == done + chunk;
    assert Elements(Flat(job.chunks[m.saved..m.done + 1])) == buffered + chunk;
    StoreMore(job.w, job.start, done, buffered, chunk, before, after);
  }

  lemma SavedCounts(job: Job, m: Mark, c: Counts, eof: bool)
    requires Validated(job, m, c, eof)
    ensures Validated(job, Mark(m.done, m.done), c.(since := 0), eof)
  {
    assert job.chunks[m.done..m.done] == [];
  }

  lemma EndIsSteady(job: Job, m: Mark, c: Counts)
    requires Steady(job, m, c, false)
    ensures Steady(job, m, c, true)
  {}

  ghost predicate Passed(job: Job, m: Mark) {
    forall i | 0 <= i <= m.done :: job.w.canary(i) == None
  }

  lemma AllSaved(job: Job, m: Mark, s: Snapshot)
    requires Passed(job, m) && Holds(job, m, s)
    ensures var t := Snapshot(s.db + s.pending, map[]); Durable(job, t) && Holds(job, Mark(m.done, m.done), t)
  {
    var t := Snapshot(s.db + s.pending, map[]);
    assert t.db + map[] == t.db && job.chunks[m.done..m.done] == [];
    EmptyIsDurable(job, m.done, t);
  }

  lemma BufferLost(job: Job, m: Mark, s: Snapshot)
    requires Passed(job, m) && Holds(job, m, s)
    ensures Durable(job, Snapshot(s.db, map[]))
  {
    EmptyIsDurable(job, m.saved, Snapshot(s.db, map[]));
  }
}
