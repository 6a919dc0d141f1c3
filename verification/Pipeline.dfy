/**
 One pipeline run after merge and sweep: load the previous build, gate the new one against it, build,
 publish.  What a crash leaves for the next run, and what it costs.
 */
module Pipeline {
  import opened Wrappers
  import opened BlocklistTypes
  import opened FstBuild
  import opened Artifact
  import opened Gates
  import opened Names
  import opened Slots

  // -------------------------------------------------------------------------
  // Loading the previous build
  // -------------------------------------------------------------------------

  datatype PreviousLoad = NoPreviousBuild | Existing(manifest: Manifest, domains: set<string>)

  datatype PipelineError =
    | Unreadable | BadPreviousManifest | Unverified | Corrupt | NotAnFst
    | Rollback | NoKeys | GateFailed

  ghost function PreviousOf(crypto: Crypto, f: Files, trusted: seq<(string, int)>)
    : Result<PreviousLoad, PipelineError>
  {
    if f == NONE then Ok(NoPreviousBuild)
    else if f.artifact == None || f.manifest == None then Err(Unreadable)
    else if !f.manifest.value.ManifestBytes? then Err(BadPreviousManifest)
    else
      var m := f.manifest.value.manifest;
      if !Verifies(crypto, m, trusted) then Err(Unverified)
      else if crypto.digest(f.artifact.value) != m.fstDigest then Err(Corrupt)
      else if !f.artifact.value.FstBytes? then Err(NotAnFst)
      else Ok(Existing(m, UnreversedKeys(f.artifact.value.fst)))
  }

  /** A signed manifest and the map it binds, whose keys un-reversed are the domains of the build. */
  ghost predicate BuildIn(crypto: Crypto, f: Files, trusted: seq<(string, int)>, m: Manifest, domains: set<string>) {
    && f.artifact.Some? && f.artifact.value.FstBytes? && f.manifest == Some(ManifestBytes(m))
    && Signed(crypto, m, trusted) && crypto.digest(f.artifact.value) == m.fstDigest
    && (forall d :: d in domains <==> exists k :: k in f.artifact.value.fst && ReverseKey(k) == d)
  }

  /** The first thing that keeps the files of `current` from being taken for a build, when there are any. */
  ghost predicate Flaw(crypto: Crypto, f: Files, trusted: seq<(string, int)>, e: PipelineError) {
    if f.artifact == None || f.manifest == None then e == Unreadable && f != NONE
    else if !f.manifest.value.ManifestBytes? then e == BadPreviousManifest
    else
      var m := f.manifest.value.manifest;
      match e
      case Unverified => !Signed(crypto, m, trusted)
      case Corrupt => Signed(crypto, m, trusted) && crypto.digest(f.artifact.value) != m.fstDigest
      case NotAnFst =>
        && Signed(crypto, m, trusted) && crypto.digest(f.artifact.value) == m.fstDigest
        && !f.artifact.value.FstBytes?
      case _ => false
  }

  /**
   What a run finds: no build exactly when both files are missing, a build exactly when a signed one is
   there in full, and otherwise the first flaw.
   */
  lemma FoundMeans(crypto: Crypto, f: Files, trusted: seq<(string, int)>)
    ensures PreviousOf(crypto, f, trusted) == Ok(NoPreviousBuild) <==> f.artifact == None && f.manifest == None
    ensures forall m, domains ::
              PreviousOf(crypto, f, trusted) == Ok(Existing(m, domains)) <==> BuildIn(crypto, f, trusted, m, domains)
    ensures forall e :: PreviousOf(crypto, f, trusted) == Err(e) <==> Flaw(crypto, f, trusted, e)
  {
    if f.manifest.Some? && f.manifest.value.ManifestBytes? {
      VerifiesIff(crypto, f.manifest.value.manifest, trusted);
    }
    forall m, domains
      ensures PreviousOf(crypto, f, trusted) == Ok(Existing(m, domains)) <==> BuildIn(crypto, f, trusted, m, domains)
    {
      if BuildIn(crypto, f, trusted, m, domains) {
        assert domains == UnreversedKeys(f.artifact.value.fst);
      }
    }
  }

  method LoadPrevious(crypto: Crypto, s: State, trusted: seq<(string, int)>)
    returns (r: Result<PreviousLoad, PipelineError>)
    ensures r == PreviousOf(crypto, FilesIn(s, Current), trusted)
  {
    if !Exists(s, Current, ArtifactFst) && !Exists(s, Current, ManifestBin) {
      return Ok(NoPreviousBuild);
    }
    var artifact := FileAt(s, Current, ArtifactFst);
    if artifact == None { return Err(Unreadable); }
    var bytes := FileAt(s, Current, ManifestBin);
    if bytes == None { return Err(Unreadable); }
    if !bytes.value.ManifestBytes? { return Err(BadPreviousManifest); }
    var manifest := bytes.value.manifest;
    var verified := VerifyManifest(crypto, manifest, trusted);
    if !verified { return Err(Unverified); }
    if crypto.digest(artifact.value) != manifest.fstDigest { return Err(Corrupt); }
    if !artifact.value.FstBytes? { return Err(NotAnFst); }
    var domains := Unreverse(artifact.value.fst);
    return Ok(Existing(manifest, domains));
  }

  /** Streams the keys back out, un-reversing each. */
  method Unreverse(fst: map<string, nat>) returns (domains: set<string>)
    ensures domains == UnreversedKeys(fst)
  {
    domains := {};
    var rest := fst.Keys;
    while rest != {}
      invariant rest <= fst.Keys
      invariant domains == set k | k in fst && k !in rest :: ReverseKey(k)
      decreases rest
    {
      var k :| k in rest;
      rest := rest - {k};
      domains := domains + {ReverseKey(k)};
    }
  }

  // -------------------------------------------------------------------------
  // One run
  // -------------------------------------------------------------------------

  /** Thresholds; `othersPass` is the verdict of the license, false-positive and size gates. */
  datatype RunConfig = RunConfig(
    requested: Option<nat>, maxDrop: real, floor: nat, maxAdd: real, othersPass: bool, dryRun: bool)

  function RunVersion(previous: PreviousLoad, requested: Option<nat>): nat {
    if requested.Some? then requested.value
    else if previous == NoPreviousBuild then 1
    else previous.manifest.version + 1
  }

  function GatesPass(previous: PreviousLoad, entries: seq<MergedEntry>, cfg: RunConfig): bool {
    var count := if previous == NoPreviousBuild then FirstBuild else Against(previous.manifest.entryCount);
    var keys := if previous == NoPreviousBuild then FirstBuild else Against(previous.domains);
    && ShrinkageGate(count, |entries|, cfg.maxDrop, cfg.floor) == Pass
    && GrowthGate(keys, DomainSet(entries), cfg.maxAdd) == Pass
    && cfg.othersPass
  }

  /** All gates at once, without their order: the floor, the two shares of an earlier build, and the rest. */
  predicate WithinGates(previous: PreviousLoad, entries: seq<MergedEntry>, cfg: RunConfig) {
    && 0.0 <= cfg.maxDrop <= 1.0 && 0.0 <= cfg.maxAdd <= 1.0 && |entries| >= cfg.floor && cfg.othersPass
    && (previous.Existing? ==>
          WithinShares(previous.manifest.entryCount, previous.domains,
                       |entries|, set e | e in entries :: e.domain, cfg.maxDrop, cfg.maxAdd))
  }

  /** From a build of `before` entries and the names `old'` to one of `after` and `new'`. */
  predicate WithinShares(before: nat, old': set<string>, after: nat, new': set<string>, maxDrop: real, maxAdd: real) {
    && after as real >= before as real - maxDrop * before as real
    && (old' == {} || |new' - old'| as real <= maxAdd * |old'| as real)
  }

  lemma SharesIff(before: nat, old': set<string>, after: nat, new': set<string>, maxDrop: real, maxAdd: real,
                  floor: nat)
    ensures && ShrinkageGate(Against(before), after, maxDrop, floor) == Pass
            && GrowthGate(Against(old'), new', maxAdd) == Pass
            <==>
            && 0.0 <= maxDrop <= 1.0 && 0.0 <= maxAdd <= 1.0 && after >= floor
            && WithinShares(before, old', after, new', maxDrop, maxAdd)
  {
    ShrinkagePassesIff(before, after, maxDrop, floor);
    GrowthPassesIff(old', new', maxAdd);
  }

  lemma GatesPassIff(previous: PreviousLoad, entries: seq<MergedEntry>, cfg: RunConfig)
    ensures GatesPass(previous, entries, cfg) <==> WithinGates(previous, entries, cfg)
  {
    match previous {
      case NoPreviousBuild =>
        ShrinkagePassesIff(0, |entries|, cfg.maxDrop, cfg.floor);
        GrowthPassesIff({}, DomainSet(entries), cfg.maxAdd);
      case Existing(m, domains) =>
        GatesOverIff(m, domains, entries, cfg);
    }
  }

  lemma GatesOverIff(m: Manifest, domains: set<string>, entries: seq<MergedEntry>, cfg: RunConfig)
    ensures GatesPass(Existing(m, domains), entries, cfg) <==> WithinGates(Existing(m, domains), entries, cfg)
  {
    var names := set e | e in entries :: e.domain;
    assert DomainSet(entries) == names;
    SharesIff(m.entryCount, domains, |entries|, names, cfg.maxDrop, cfg.maxAdd, cfg.floor);
  }

  /** Whether the version is one the run goes on with: above that of the build it found, if it found one. */
  predicate Admits(previous: PreviousLoad, requested: Option<nat>) {
    previous.Existing? ==> RunVersion(previous, requested) > previous.manifest.version
  }

  /** A run took the slots from `s` to `t`: by publishing `b` over an admitted finding. */
  ghost predicate Published(crypto: Crypto, trusted: seq<(string, int)>, requested: Option<nat>, s: Slots,
                            b: FstArtifact, t: Slots)
  {
    var found := PreviousOf(crypto, s.cur, trusted);
    && found.Ok? && Admits(found.value, requested) && b.manifest.version == RunVersion(found.value, requested)
    && t.cur == FilesOf(b) && t.prev == Retired(s)
  }

  /** A run that came to an end with `r`; `Ok(None)` is a dry run. */
  ghost predicate Ran(crypto: Crypto, trusted: seq<(string, int)>, requested: Option<nat>, s: Slots,
                      r: Result<Option<FstArtifact>, PipelineError>, t: Slots) {
    if r.Ok? && r.value.Some? then Published(crypto, trusted, requested, s, r.value.value, t) else t == s
  }

  method RunPipeline(crypto: Crypto, disk: Disk, trusted: seq<(string, int)>, entries: seq<MergedEntry>,
                     keys: seq<(string, int)>, buildTime: nat, cfg: RunConfig)
    returns (r: Result<Option<FstArtifact>, PipelineError>)
    requires disk.Valid()
    modifies disk
    ensures disk.Valid() && old(disk.trace) <= disk.trace
    ensures Ran(crypto, trusted, cfg.requested, SlotsOf(old(disk.dirs)), r, SlotsOf(disk.dirs))
    ensures !(r.Ok? && r.value.Some?) ==> disk.dirs == old(disk.dirs) && disk.trace == old(disk.trace)
    ensures var found := PreviousOf(crypto, old(FilesIn(disk.dirs, Current)), trusted);
            if found.Err? then r == Err(found.error)
            else
              var version :=
                if cfg.requested.Some? then cfg.requested.value
                else if found.value == NoPreviousBuild then 1
                else found.value.manifest.version + 1;
              if found.value.Existing? && version <= found.value.manifest.version then r == Err(Rollback)
              else if keys == [] then r == Err(NoKeys)
              else if !WithinGates(found.value, entries, cfg) then r == Err(GateFailed)
              else if cfg.dryRun then r == Ok(None)
              else
                && r.Ok? && r.value.Some? && IsBuilt(crypto, entries, version, keys, r.value.value)
                && r.value.value.manifest.buildTime == buildTime
  {
    var loaded := LoadPrevious(crypto, disk.dirs, trusted);
    if loaded.Ok? {
      GatesPassIff(loaded.value, entries, cfg);
    }
    if loaded.Err? {
      return Err(loaded.error);
    }
    var previous := loaded.value;
    var version := RunVersion(previous, cfg.requested);
    if previous.Existing? && version <= previous.manifest.version {
      return Err(Rollback);
    }
    var built := Build(crypto, entries, version, buildTime, keys);
    if built.Err? {
      return Err(NoKeys);
    }
    if !GatesPass(previous, entries, cfg) {
      return Err(GateFailed);
    }
    if cfg.dryRun {
      return Ok(None);
    }
    ghost var run := Publish(disk, built.value);
    return Ok(Some(built.value));
  }

  // -------------------------------------------------------------------------
  // What the next run makes of the disk
  // -------------------------------------------------------------------------

  lemma GoodIsFound(crypto: Crypto, b: FstArtifact, trusted: seq<(string, int)>)
    requires Good(crypto, trusted, b)
    ensures PreviousOf(crypto, FilesOf(b), trusted) == Ok(Existing(b.manifest, UnreversedKeys(b.fst)))
  {}

  /**
   On a disk that only publishes of accepted builds have touched, cut wherever they were, the next run
   refuses to go on exactly when one of the two files of `current` is missing.
   */
  lemma RefusesIff(crypto: Crypto, trusted: seq<(string, int)>, s: Slots, builds: seq<FstArtifact>)
    requires Reachable(s, builds) && forall b | b in builds :: Good(crypto, trusted, b)
    ensures PreviousOf(crypto, s.cur, trusted).Err? <==> s.cur.artifact.Some? != s.cur.manifest.Some?
  {
    NeverMixed(s, builds);
    if s.cur != NONE {
      var b :| b in builds && Sub(s.cur, FilesOf(b));
      GoodIsFound(crypto, b, trusted);
      assert s.cur.artifact.Some? && s.cur.manifest.Some? ==> s.cur == FilesOf(b);
    }
  }

  /** What the run after a crash finds, phase by phase. */
  lemma NextRunFinds(crypto: Crypto, trusted: seq<(string, int)>, p: Phase, s0: Slots, b1: FstArtifact,
                     b2: FstArtifact, t: Slots)
    requires Good(crypto, trusted, b1) && Good(crypto, trusted, b2)
    requires s0.cur == FilesOf(b1) && InPhase(p, s0, b2, t)
    ensures var found := PreviousOf(crypto, t.cur, trusted);
            match p
            case Before => found == Ok(Existing(b1.manifest, UnreversedKeys(b1.fst)))
            case Moving => found == if t.cur == NONE then Ok(NoPreviousBuild) else Err(Unreadable)
            case Clearing => found == Ok(NoPreviousBuild)
            case Rotated => found == Ok(NoPreviousBuild)
            case Writing => found == Err(Unreadable)
            case Done => found == Ok(Existing(b2.manifest, UnreversedKeys(b2.fst)))
  {
    GoodIsFound(crypto, b1, trusted);
    GoodIsFound(crypto, b2, trusted);
  }

  /** A run that finished, the keys it trusted and the version it asked for, and the slots it left. */
  datatype Finished = Finished(
    trusted: seq<(string, int)>,
    requested: Option<nat>,
    result: Result<Option<FstArtifact>, PipelineError>,
    after: Slots)

  predicate Publishes(run: Finished) {
    run.result.Ok? && run.result.value.Some?
  }

  function BuildOf(run: Finished): FstArtifact
    requires Publishes(run)
  {
    run.result.value.value
  }

  /** Runs one after another from `start`, each to its end: publishing, dry, or refused. */
  ghost predicate InTurn(crypto: Crypto, start: Slots, runs: seq<Finished>)
    decreases |runs|
  {
    runs != [] ==>
      var n := |runs| - 1;
      var before := if n == 0 then start else runs[n - 1].after;
      && Ran(crypto, runs[n].trusted, runs[n].requested, before, runs[n].result, runs[n].after)
      && InTurn(crypto, start, runs[..n])
  }

  /** `current` holds a whole build of this version or a later one. */
  predicate HoldsAtLeast(f: Files, version: nat) {
    && f.artifact.Some? && f.manifest.Some? && f.manifest.value.ManifestBytes?
    && f.manifest.value.manifest.version >= version
  }

  lemma {:induction false} CurrentKeepsUp(crypto: Crypto, start: Slots, runs: seq<Finished>, i: nat)
    requires InTurn(crypto, start, runs) && i < |runs| && Publishes(runs[i])
    ensures HoldsAtLeast(runs[|runs| - 1].after.cur, BuildOf(runs[i]).manifest.version)
    decreases |runs|
  {
    var n := |runs| - 1;
    if i < n {
      CurrentKeepsUp(crypto, start, runs[..n], i);
    }
  }

  /**
   Over any sequence of runs that finish, whichever of them publish, are refused or are dry, whatever
   version each asks for and whatever keys it trusts, the published versions strictly grow.
   */
  lemma VersionsGrow(crypto: Crypto, start: Slots, runs: seq<Finished>, i: nat, j: nat)
    requires InTurn(crypto, start, runs) && i < j < |runs| && Publishes(runs[i]) && Publishes(runs[j])
    ensures BuildOf(runs[i]).manifest.version < BuildOf(runs[j]).manifest.version
  {
    RanAfter(crypto, start, runs, j);
    CurrentKeepsUp(crypto, start, runs[..j], i);
    assert runs[..j][i] == runs[i] && runs[..j][j - 1] == runs[j - 1];
    GrowsOver(crypto, runs[j - 1].after, runs[j], BuildOf(runs[i]).manifest.version);
  }

  lemma RanAfter(crypto: Crypto, start: Slots, runs: seq<Finished>, j: nat)
    requires InTurn(crypto, start, runs) && 0 < j < |runs|
    ensures InTurn(crypto, start, runs[..j])
    ensures Ran(crypto, runs[j].trusted, runs[j].requested, runs[j - 1].after, runs[j].result, runs[j].after)
  {
    InTurnUpTo(crypto, start, runs, j + 1);
    assert runs[..j + 1][..j] == runs[..j];
  }

  lemma GrowsOver(crypto: Crypto, before: Slots, run: Finished, version: nat)
    requires Ran(crypto, run.trusted, run.requested, before, run.result, run.after)
    requires Publishes(run) && HoldsAtLeast(before.cur, version)
    ensures version < BuildOf(run).manifest.version
  {}

  lemma {:induction false} InTurnUpTo(crypto: Crypto, start: Slots, runs: seq<Finished>, k: nat)
    requires InTurn(crypto, start, runs) && k <= |runs|
    ensures InTurn(crypto, start, runs[..k])
    decreases |runs|
  {
    if k == |runs| {
      assert runs[..k] == runs;
    } else {
      InTurnUpTo(crypto, start, runs[..|runs| - 1], k);
      assert runs[..|runs| - 1][..k] == runs[..k];
    }
  }

  /**
   The same on any disk at all, whatever crashes left there.  A run that goes on publishes above the
   build a device loads from that disk exactly when `current` holds a file, or the version the run takes
   on an empty `current` is above it anyway.  Left to itself the run then takes version 1.
   */
  lemma GrowsOverLoadedIff(crypto: Crypto, trusted: seq<(string, int)>, t: State, found: PreviousLoad,
                           loaded: BlocklistArtifact, requested: Option<nat>)
    requires PreviousOf(crypto, FilesIn(t, Current), trusted) == Ok(found) && Loaded(crypto, t, trusted) == Ok(loaded)
    ensures (Admits(found, requested) ==> RunVersion(found, requested) > loaded.version)
       <==> FilesIn(t, Current) != NONE || RunVersion(NoPreviousBuild, requested) > loaded.version
  {}

  /**
   After a crash that leaves `current` empty the count starts again at 1, although a device still
   loads the old build: the versions devices see need not grow across a crash.
   */
  lemma VersionRestartsAfterCrash(crypto: Crypto, trusted: seq<(string, int)>, s0: Slots, t: State,
                                  b1: FstArtifact, b2: FstArtifact)
    requires Good(crypto, trusted, b1) && Good(crypto, trusted, b2)
    requires s0.cur == FilesOf(b1) && InPhase(Rotated, s0, b2, SlotsOf(t)) && b1.manifest.version >= 1
    ensures Loaded(crypto, t, trusted) == Ok(AsLoaded(b1))
    ensures PreviousOf(crypto, FilesIn(t, Current), trusted) == Ok(NoPreviousBuild)
    ensures RunVersion(NoPreviousBuild, None) <= b1.manifest.version
  {
    SlotLoads(crypto, t, Previous, trusted, b1);
  }

  // -------------------------------------------------------------------------
  // The fallback slot
  // -------------------------------------------------------------------------

  /** A finished publish leaves a loadable fallback exactly when what it retired was loadable. */
  lemma FallbackKeptIff(crypto: Crypto, trusted: seq<(string, int)>, before: State, after: State)
    requires SlotsOf(after).prev == Retired(SlotsOf(before))
    ensures LoadSlot(crypto, DirOf(after, Previous), trusted).Ok? <==>
            if FilesIn(before, Current) != NONE then LoadSlot(crypto, DirOf(before, Current), trusted).Ok?
            else LoadSlot(crypto, DirOf(before, Previous), trusted).Ok?
  {
    if FilesIn(before, Current) != NONE {
      SameFilesLoadAlike(crypto, trusted, after, Previous, before, Current);
    } else {
      SameFilesLoadAlike(crypto, trusted, after, Previous, before, Previous);
    }
  }

  lemma SameFilesLoadAlike(crypto: Crypto, trusted: seq<(string, int)>, s: State, a: SlotName, t: State, b: SlotName)
    requires FilesIn(s, a) == FilesIn(t, b)
    ensures LoadSlot(crypto, DirOf(s, a), trusted) == LoadSlot(crypto, DirOf(t, b), trusted)
  {}

  /**
   A publish begun on the torn `current` of a publish that died between its two files would throw away
   the only loadable build: nothing loads from the clearing until the new manifest is in place, and
   there is no fallback after that.  Only the refusal to run on such a disk prevents it.
   */
  lemma TornCurrentCostsTheFallback(crypto: Crypto, trusted: seq<(string, int)>, s: State, p: Phase, t: State,
                                    b1: FstArtifact, b2: FstArtifact, b3: FstArtifact)
    requires Good(crypto, trusted, b1) && Good(crypto, trusted, b2) && Good(crypto, trusted, b3)
    requires FilesIn(s, Current) == FilesOf(b2).(manifest := None) && FilesIn(s, Previous) == FilesOf(b1)
    requires InPhase(p, SlotsOf(s), b3, SlotsOf(t))
    ensures Loaded(crypto, s, trusted) == Ok(AsLoaded(b1))
    ensures p in {Clearing, Rotated, Writing} ==> Loaded(crypto, t, trusted).Err?
    ensures p == Done ==> LoadSlot(crypto, DirOf(t, Previous), trusted).Err?
    ensures PreviousOf(crypto, FilesIn(s, Current), trusted) == Err(Unreadable)
  {
    SlotLoads(crypto, s, Current, trusted, b2);
    SlotLoads(crypto, s, Previous, trusted, b1);
    SlotLoads(crypto, t, Current, trusted, b3);
    SlotLoads(crypto, t, Previous, trusted, b2);
    SlotLoads(crypto, t, Previous, trusted, b1);
  }

  // -------------------------------------------------------------------------
  // Churn
  // -------------------------------------------------------------------------

  /**
   A run that passes its gates over a previous build drops at most the share both allowances add up to
   of that build's domains.
   */
  lemma PipelineChurn(crypto: Crypto, trusted: seq<(string, int)>, keys: seq<(string, int)>, version: nat,
                      before: seq<MergedEntry>, built: FstArtifact, after: seq<MergedEntry>, cfg: RunConfig)
    requires DistinctDomains(before) && DistinctDomains(after)
    requires IsBuilt(crypto, before, version, keys, built) && Good(crypto, trusted, built)
    requires var found := PreviousOf(crypto, FilesOf(built), trusted); found.Ok? && GatesPass(found.value, after, cfg)
    ensures |DomainSet(before) - DomainSet(after)| as real <= (cfg.maxDrop + cfg.maxAdd) * |before| as real
  {
    GoodIsFound(crypto, built, trusted);
    EntryCountIsDomainCount(crypto, before, version, keys, built);
    GatesBoundChurn(built.manifest, before, after, cfg);
  }

  lemma GatesBoundChurn(m: Manifest, before: seq<MergedEntry>, after: seq<MergedEntry>, cfg: RunConfig)
    requires DistinctDomains(before) && DistinctDomains(after) && m.entryCount == |before|
    requires GatesPass(Existing(m, DomainSet(before)), after, cfg)
    ensures |DomainSet(before) - DomainSet(after)| as real <= (cfg.maxDrop + cfg.maxAdd) * |before| as real
  {
    DomainsSize(before);
    DomainsSize(after);
    ChurnBound(DomainSet(before), DomainSet(after), cfg.maxDrop, cfg.floor, cfg.maxAdd);
  }
}
