/**
 One domain over many sweeps: when its dead streak is said to have begun, and how often it must have
 been seen dead before a sweep prunes it.
 */
module SweepHistory {
  import opened Wrappers
  import opened BlocklistTypes
  import opened Liveness
  import opened Orders
  import opened CacheStore
  import opened Sweep

  /** A sweep, finished or cut short after a commit, as its effect on the cache: what it checked, and when. */
  datatype Event = Event(w: World, checked: set<string>)

  function After(events: seq<Event>): Table {
    if events == [] then map[]
    else
      var last := events[|events| - 1];
      Swept(last.w, After(events[..|events| - 1]), last.checked)
  }

  datatype Observation = Observation(at: nat, verdict: Verdict)

  function Observations(events: seq<Event>, d: string): seq<Observation> {
    if events == [] then []
    else
      var last := events[|events| - 1];
      var before := Observations(events[..|events| - 1], d);
      if d in last.checked then before + [Observation(last.w.now, last.w.verdictOf(d))] else before
  }

  /** Where the unbroken run of dead observations that ends the list begins. */
  function StreakStart(obs: seq<Observation>): (i: nat)
    ensures i <= |obs|
    ensures forall j | i <= j < |obs| :: obs[j].verdict == Dead
    ensures i > 0 ==> obs[i - 1].verdict != Dead
  {
    if obs == [] || obs[|obs| - 1].verdict != Dead then |obs|
    else
      assert obs[..|obs| - 1] + [obs[|obs| - 1]] == obs;
      StreakStart(obs[..|obs| - 1])
  }

  /** What the cache must say of a domain observed so. */
  function EntryFor(obs: seq<Observation>): Option<CacheEntry> {
    if obs == [] then None
    else
      var last := obs[|obs| - 1];
      Some(CacheEntry(last.at, last.verdict, if last.verdict == Dead then Some(obs[StreakStart(obs)].at) else None))
  }

  /**
   After any history the cache holds the last observation of each domain, and `firstDeadAt` is set
   exactly when that was dead, to the time of the first observation of the current dead streak.
   */
  lemma {:induction false} CacheTellsTheStreak(events: seq<Event>, d: string)
    ensures Find(After(events), d) == EntryFor(Observations(events, d))
  {
    if events != [] {
      var n := |events| - 1;
      var before := Observations(events[..n], d);
      CacheTellsTheStreak(events[..n], d);
      if d in events[n].checked {
        StreakGrows(before, Observation(events[n].w.now, events[n].w.verdictOf(d)));
      }
    }
  }

  lemma StreakGrows(obs: seq<Observation>, o: Observation)
    ensures o.verdict == Dead ==> StreakStart(obs + [o]) == StreakStart(obs)
    ensures StreakStart(obs) == |obs| <==> obs == [] || obs[|obs| - 1].verdict != Dead
  {
    assert (obs + [o])[..|obs|] == obs;
  }

  // -------------------------------------------------------------------------
  // Pruning
  // -------------------------------------------------------------------------

  /** A finished sweep has checked exactly its due list. */
  lemma {:induction false} ChecksTheDueList(cfg: SweepConfig, w: World, due: seq<string>, p: Progress)
    requires CheckChunks(cfg, w, due, p).Ok?
    ensures CheckChunks(cfg, w, due, p).value.cache == Swept(w, p.cache, Elements(due))
    ensures CheckChunks(cfg, w, due, p).value.checked == p.checked + |due|
    decreases |due|
  {
    if due == [] {
      assert Swept(w, p.cache, Elements(due)) == p.cache;
    } else {
      var n := if |due| < CanaryEvery(cfg) then |due| else CanaryEvery(cfg);
      var q := Chunk(cfg, w, due[..n], p).value;
      assert q.cache == Swept(w, p.cache, Elements(due[..n])) && q.checked == p.checked + n;
      ChecksTheDueList(cfg, w, due[n..], q);
      SweptCompose(w, p.cache, Elements(due[..n]), Elements(due[n..]));
      assert due == due[..n] + due[n..];
      assert Elements(due) == Elements(due[..n]) + Elements(due[n..]);
    }
  }

  lemma {:induction false} DueIffListed(cfg: SweepConfig, w: World, cache: Table, entries: seq<MergedEntry>,
                                        e: MergedEntry)
    requires e in entries
    ensures Due(cfg, w, cache, e.domain) ==> e.domain in DueList(cfg, w, cache, entries)
  {
    if e != entries[0] {
      DueIffListed(cfg, w, cache, entries[1..], e);
    }
  }

  lemma {:induction false} ListedIsDue(cfg: SweepConfig, w: World, cache: Table, entries: seq<MergedEntry>, d: string)
    requires d in DueList(cfg, w, cache, entries)
    ensures Due(cfg, w, cache, d)
  {
    if d in DueList(cfg, w, cache, entries[1..]) {
      ListedIsDue(cfg, w, cache, entries[1..], d);
    }
  }

  /** A sweep as an event. */
  function EventOf(cfg: SweepConfig, w: World, entries: seq<MergedEntry>, cache: Table): Event {
    Event(w, Elements(DueList(cfg, w, cache, entries)))
  }

  /** Seen dead twice running, first at least `quarantine` ago, last within one `ttl` (just now, if that is 0). */
  ghost predicate TwiceDead(obs: seq<Observation>, cfg: SweepConfig, now: nat) {
    && |obs| >= 2
    && StreakStart(obs) <= |obs| - 2
    && obs[StreakStart(obs)].at + cfg.quarantine <= now
    && (SaturatingSub(now, obs[|obs| - 1].at) < cfg.ttl || obs[|obs| - 1].at == now)
  }

  /**
   With a positive quarantine no shorter than the TTL, every domain a finished sweep prunes was seen
   dead at least twice, whatever the history.
   */
  lemma PrunedWasTwiceDead(cfg: SweepConfig, w: World, entries: seq<MergedEntry>, events: seq<Event>, d: string)
    requires cfg.quarantine >= cfg.ttl && cfg.quarantine > 0
    requires SweepResult(cfg, w, entries, After(events)).Ok?
    requires d in SweepResult(cfg, w, entries, After(events)).value.pruned
    ensures TwiceDead(Observations(events + [EventOf(cfg, w, entries, After(events))], d), cfg, w.now)
  {
    var cache := After(events);
    var due := DueList(cfg, w, cache, entries);
    var all := events + [EventOf(cfg, w, entries, cache)];
    assert all[..|events|] == events;
    ChecksTheDueList(cfg, w, due, Start(cache, false));
    CacheTellsTheStreak(all, d);
    CacheTellsTheStreak(events, d);
    var e :| e in entries && e.domain == d;
    DueIffListed(cfg, w, cache, entries, e);
    var obs := Observations(all, d);
    assert After(all) == SweepResult(cfg, w, entries, cache).value.cache;
    StreakGrows(obs[..|obs| - 1], obs[|obs| - 1]);
  }

  ghost predicate PrunesAfter(cfg: SweepConfig, w: World, entries: seq<MergedEntry>, events: seq<Event>, d: string) {
    && SweepResult(cfg, w, entries, After(events)).Ok?
    && d in SweepResult(cfg, w, entries, After(events)).value.pruned
  }

  /** Everything known of a domain once that sweep is over. */
  function Seen(cfg: SweepConfig, w: World, entries: seq<MergedEntry>, events: seq<Event>, d: string)
    : seq<Observation>
  {
    Observations(events + [EventOf(cfg, w, entries, After(events))], d)
  }

  /**
   What a finished sweep prunes, in terms of what was ever seen: the listed domains, special-use names
   apart, whose current dead streak began a quarantine ago or earlier.
   */
  lemma PrunedIff(cfg: SweepConfig, w: World, entries: seq<MergedEntry>, events: seq<Event>, d: string)
    requires SweepResult(cfg, w, entries, After(events)).Ok?
    ensures PrunesAfter(cfg, w, entries, events, d) <==>
            var obs := Seen(cfg, w, entries, events, d);
            && (exists e :: e in entries && e.domain == d) && !w.special(d)
            && obs != [] && obs[|obs| - 1].verdict == Dead
            && SaturatingSub(w.now, obs[StreakStart(obs)].at) >= cfg.quarantine
  {
    var cache := After(events);
    var all := events + [EventOf(cfg, w, entries, cache)];
    assert all[..|events|] == events;
    ChecksTheDueList(cfg, w, DueList(cfg, w, cache, entries), Start(cache, false));
    CacheTellsTheStreak(all, d);
    assert After(all) == SweepResult(cfg, w, entries, cache).value.cache;
  }

  function AllDead(now: nat): World {
    World(now, (d: string) => Dead, (k: nat) => None, (d: string) => false, (k: nat) => true)
  }

  /** A shorter quarantine, or none, prunes on a single observation. */
  lemma PrunedOnOneLook(cfg: SweepConfig, e: MergedEntry) returns (w: World, events: seq<Event>)
    requires cfg.quarantine < cfg.ttl || cfg.quarantine == 0
    ensures PrunesAfter(cfg, w, [e], events, e.domain)
    ensures |Seen(cfg, w, [e], events, e.domain)| == 1
  {
    var d := e.domain;
    w := AllDead(cfg.quarantine);
    events := if cfg.quarantine == 0 then [] else [Event(AllDead(0), {d})];
    var cache := After(events);
    var due := DueList(cfg, w, cache, [e]);
    assert events != [] ==> events[..0] == [];
    assert [e][1..] == [] && DueList(cfg, w, cache, []) == [];
    assert events != [] ==> cache == Swept(AllDead(0), After([]), {d}) && cache[d].lastChecked == 0;
    assert Due(cfg, w, cache, d) <==> events == [];
    assert due == if events == [] then [d] else [];
    assert Observations([], d) == [];
    ChecksTheDueList(cfg, w, due, Start(cache, false));
    ChunkOfOne(cfg, w, d, Start(cache, false));
    var all := events + [EventOf(cfg, w, [e], cache)];
    assert all[..|events|] == events;
    CacheTellsTheStreak(all, d);
    assert e in [e];
  }

  lemma ChunkOfOne(cfg: SweepConfig, w: World, d: string, p: Progress)
    requires forall k: nat :: w.canary(k) == None && w.saves(k)
    ensures CheckChunks(cfg, w, [d], p).Ok?
  {
    assert [d][1..] == [];
  }

  /**
   So the exact condition under which no single dead answer ever prunes a domain: the quarantine is
   positive and no shorter than the TTL.
   */
  lemma TwiceDeadIff(cfg: SweepConfig)
    ensures cfg.quarantine >= cfg.ttl && cfg.quarantine > 0 <==>
            forall w, entries, events, d | PrunesAfter(cfg, w, entries, events, d) ::
              |Seen(cfg, w, entries, events, d)| >= 2
  {
    if cfg.quarantine >= cfg.ttl && cfg.quarantine > 0 {
      forall w, entries, events, d | PrunesAfter(cfg, w, entries, events, d)
        ensures |Seen(cfg, w, entries, events, d)| >= 2
      {
        PrunedWasTwiceDead(cfg, w, entries, events, d);
      }
    } else {
      var e := MergedEntry("a", Apex, [], []);
      var w, events := PrunedOnOneLook(cfg, e);
    }
  }
}
