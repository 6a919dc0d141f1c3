/**
 The device side: loading a slot, probing the loaded map at label boundaries, the allowlist, and
 what the whole chain from raw lines to an answer means.
 */
module Artifact {
  import opened Wrappers
  import opened Orders
  import opened Names
  import opened BlocklistTypes
  import opened Merge
  import opened FstBuild

  /** The files of a slot: artifact.fst, manifest.bin, and the temporary sibling each is written under. */
  datatype FileName = ArtifactFst | ManifestBin | ArtifactTmp | ManifestTmp

  type Dir = map<FileName, Content>

  datatype FilterAction = Block | Allow | Proxy

  datatype BlocklistArtifact = BlocklistArtifact(fst: map<string, nat>, provenance: seq<ProvenanceEntry>, version: nat)

  datatype ArtifactError = SlotMissing | Io | BadManifest | BadSignature | DigestMismatch | BadFst

  /** One slot directory: signature first, then the digest over exactly the mapped bytes. */
  ghost function LoadSlot(crypto: Crypto, dir: Option<Dir>, trusted: seq<(string, int)>)
    : Result<BlocklistArtifact, ArtifactError>
  {
    if dir == None || ArtifactFst !in dir.value then Err(SlotMissing)
    else if ManifestBin !in dir.value then Err(Io)
    else if !dir.value[ManifestBin].ManifestBytes? then Err(BadManifest)
    else
      var manifest := dir.value[ManifestBin].manifest;
      var file := dir.value[ArtifactFst];
      if !Verifies(crypto, manifest, trusted) then Err(BadSignature)
      else if crypto.digest(file) != manifest.fstDigest then Err(DigestMismatch)
      else if !file.FstBytes? then Err(BadFst)
      else Ok(BlocklistArtifact(file.fst, manifest.provenanceTable, manifest.version))
  }

  /** `current` if it loads, else `previous` if it loads, else the first failure that is not a missing slot. */
  ghost function LoadFrom(crypto: Crypto, current: Option<Dir>, previous: Option<Dir>, trusted: seq<(string, int)>)
    : Result<BlocklistArtifact, ArtifactError>
  {
    var c, p := LoadSlot(crypto, current, trusted), LoadSlot(crypto, previous, trusted);
    if c.Ok? then c
    else if p.Ok? then p
    else if c != Err(SlotMissing) then c
    else p
  }

  method ReadSlot(crypto: Crypto, dir: Option<Dir>, trusted: seq<(string, int)>)
    returns (r: Result<BlocklistArtifact, ArtifactError>)
    ensures r == LoadSlot(crypto, dir, trusted)
  {
    if dir == None || ArtifactFst !in dir.value { return Err(SlotMissing); }
    if ManifestBin !in dir.value { return Err(Io); }
    if !dir.value[ManifestBin].ManifestBytes? { return Err(BadManifest); }
    var manifest := dir.value[ManifestBin].manifest;
    var verified := VerifyManifest(crypto, manifest, trusted);
    if !verified { return Err(BadSignature); }
    var file := dir.value[ArtifactFst];
    if crypto.digest(file) != manifest.fstDigest { return Err(DigestMismatch); }
    if !file.FstBytes? { return Err(BadFst); }
    return Ok(BlocklistArtifact(file.fst, manifest.provenanceTable, manifest.version));
  }

  /** The slot holds a map and a manifest, which is signed and has the digest of the map; `a` is these two. */
  ghost predicate Accepts(crypto: Crypto, dir: Option<Dir>, trusted: seq<(string, int)>, a: BlocklistArtifact) {
    && dir.Some? && ArtifactFst in dir.value && ManifestBin in dir.value
    && dir.value[ArtifactFst].FstBytes? && dir.value[ManifestBin].ManifestBytes?
    && var f, m := dir.value[ArtifactFst].fst, dir.value[ManifestBin].manifest;
       && Signed(crypto, m, trusted) && crypto.digest(FstBytes(f)) == m.fstDigest
       && a.fst == f && a.provenance == m.provenanceTable && a.version == m.version
  }

  ghost predicate Acceptable(crypto: Crypto, dir: Option<Dir>, trusted: seq<(string, int)>) {
    exists a :: Accepts(crypto, dir, trusted, a)
  }

  /** The first thing that is wrong with a slot: nothing is hashed before the signature, nor decoded before the hash. */
  ghost predicate Wrong(crypto: Crypto, dir: Option<Dir>, trusted: seq<(string, int)>, e: ArtifactError) {
    if dir == None || ArtifactFst !in dir.value then e == SlotMissing
    else if ManifestBin !in dir.value then e == Io
    else
      var file, bytes := dir.value[ArtifactFst], dir.value[ManifestBin];
      match e
      case BadManifest => !bytes.ManifestBytes?
      case BadSignature => bytes.ManifestBytes? && !Signed(crypto, bytes.manifest, trusted)
      case DigestMismatch =>
        && bytes.ManifestBytes? && Signed(crypto, bytes.manifest, trusted)
        && crypto.digest(file) != bytes.manifest.fstDigest
      case BadFst =>
        && bytes.ManifestBytes? && Signed(crypto, bytes.manifest, trusted)
        && crypto.digest(file) == bytes.manifest.fstDigest && !file.FstBytes?
      case _ => false
  }

  lemma SlotMeans(crypto: Crypto, dir: Option<Dir>, trusted: seq<(string, int)>)
    ensures forall a :: LoadSlot(crypto, dir, trusted) == Ok(a) <==> Accepts(crypto, dir, trusted, a)
    ensures forall e :: LoadSlot(crypto, dir, trusted) == Err(e) <==> Wrong(crypto, dir, trusted, e)
    ensures LoadSlot(crypto, dir, trusted).Ok? <==> Acceptable(crypto, dir, trusted)
  {
    if dir.Some? && ManifestBin in dir.value && dir.value[ManifestBin].ManifestBytes? {
      VerifiesIff(crypto, dir.value[ManifestBin].manifest, trusted);
    }
    if LoadSlot(crypto, dir, trusted).Ok? {
      assert Accepts(crypto, dir, trusted, LoadSlot(crypto, dir, trusted).value);
    }
  }

  /** The cold-start loop over the two slots, remembering the first real failure. */
  method Load(crypto: Crypto, current: Option<Dir>, previous: Option<Dir>, trusted: seq<(string, int)>)
    returns (r: Result<BlocklistArtifact, ArtifactError>)
    ensures r == LoadFrom(crypto, current, previous, trusted)
    ensures r.Ok? ==>
              || Accepts(crypto, current, trusted, r.value)
              || (!Acceptable(crypto, current, trusted) && Accepts(crypto, previous, trusted, r.value))
    ensures r.Err? ==>
              && !Acceptable(crypto, current, trusted) && !Acceptable(crypto, previous, trusted)
              && var blamed := if Wrong(crypto, current, trusted, SlotMissing) then previous else current;
                 Wrong(crypto, blamed, trusted, r.error)
  {
    SlotMeans(crypto, current, trusted);
    SlotMeans(crypto, previous, trusted);
    var slots := [current, previous];
    var firstFailure: Option<ArtifactError> := None;
    for i := 0 to 2
      invariant i >= 1 ==> LoadSlot(crypto, current, trusted).Err?
      invariant i >= 2 ==> LoadSlot(crypto, previous, trusted).Err?
      invariant i == 0 ==> firstFailure == None
      invariant i == 1 ==> firstFailure == Failure(LoadSlot(crypto, current, trusted))
      invariant i == 2 ==>
        firstFailure == (if LoadSlot(crypto, current, trusted) != Err(SlotMissing)
                         then Failure(LoadSlot(crypto, current, trusted))
                         else Failure(LoadSlot(crypto, previous, trusted)))
    {
      var one := ReadSlot(crypto, slots[i], trusted);
      match one {
        case Ok(_) => return one;
        case Err(SlotMissing) =>
        case Err(e) =>
          if firstFailure == None { firstFailure := Some(e); }
      }
    }
    return Err(if firstFailure.Some? then firstFailure.value else SlotMissing);
  }

  function Failure(r: Result<BlocklistArtifact, ArtifactError>): Option<ArtifactError> {
    if r.Ok? || r == Err(SlotMissing) then None else Some(r.error)
  }

  // -------------------------------------------------------------------------
  // Lookup
  // -------------------------------------------------------------------------

  /** A stored rule covers the query when probed at boundary `i`. */
  predicate HitAt(a: BlocklistArtifact, query: string, i: nat)
    requires i <= |query|
  {
    && query[..i] in a.fst
    && a.fst[query[..i]] < |a.provenance|
    && (a.provenance[a.fst[query[..i]]].scope == Apex || i == |query|)
  }

  ghost predicate Blocks(a: BlocklistArtifact, query: string) {
    exists i :: Boundary(query, i) && HitAt(a, query, i)
  }

  method Boundaries(query: string) returns (boundaries: seq<nat>)
    ensures forall i :: i in boundaries <==> Boundary(query, i)
    ensures forall j | 0 <= j < |boundaries| :: boundaries[j] <= |query|
  {
    boundaries := [];
    for idx := 0 to |query|
      invariant forall i :: i in boundaries <==> 0 <= i < idx && query[i] == '.'
      invariant forall j | 0 <= j < |boundaries| :: boundaries[j] <= |query|
    {
      if query[idx] == '.' {
        boundaries := boundaries + [idx];
      }
    }
    boundaries := boundaries + [|query|];
  }

  method Lookup(a: BlocklistArtifact, reversedQuery: string) returns (r: Option<FilterAction>)
    ensures r == if Blocks(a, reversedQuery) then Some(Block) else None
  {
    var boundaries := Boundaries(reversedQuery);
    for j := 0 to |boundaries|
      invariant forall k | 0 <= k < j :: !HitAt(a, reversedQuery, boundaries[k])
    {
      var i := boundaries[j];
      assert i in boundaries;
      var prefix := reversedQuery[..i];
      if prefix in a.fst && a.fst[prefix] < |a.provenance| {
        var prov := a.provenance[a.fst[prefix]];
        if prov.scope == Apex {
          assert HitAt(a, reversedQuery, i);
          return Some(Block);
        }
        if i == |reversedQuery| && prov.scope == ExactHost {
          assert HitAt(a, reversedQuery, i);
          return Some(Block);
        }
      }
    }
    forall i | Boundary(reversedQuery, i) ensures !HitAt(a, reversedQuery, i) {
      assert i in boundaries;
    }
    return None;
  }

  // -------------------------------------------------------------------------
  // From raw lines to an answer
  // -------------------------------------------------------------------------

  /**
   The naive reading of the raw lines: some line that survives, under a name that was not pruned since,
   names `q`, or its wildcard covers `q`.
   */
  ghost predicate RawCovers(lib: NameLibrary, denylist: seq<string>, raws: seq<RawEntry>, pruned: set<string>,
                            q: string)
  {
    exists e :: e in raws && LineCovers(lib, denylist, e, pruned, q)
  }

  ghost predicate LineCovers(lib: NameLibrary, denylist: seq<string>, e: RawEntry, pruned: set<string>, q: string) {
    exists n :: SurvivesAs(lib, denylist, e, n) && n !in pruned &&
      (n == q || (e.scopeHint == ApexHint && lib.registrable(n) && LabelSuffix(n, q)))
  }

  ghost predicate EntryCovers(m: MergedEntry, q: string) {
    m.domain == q || (m.scope == Apex && LabelSuffix(m.domain, q))
  }

  lemma MergedDistinct(lib: NameLibrary, denylist: seq<string>, raws: seq<RawEntry>, out: MergeOutput)
    requires IsMerge(lib, denylist, raws, out)
    ensures DistinctDomains(out.entries)
  {
    forall i, j | 0 <= i < j < |out.entries| ensures out.entries[i].domain != out.entries[j].domain {
      assert LexLt(DomainKey(out.entries[i]), DomainKey(out.entries[j]));
    }
  }

  lemma {:induction false} KeptDistinct(entries: seq<MergedEntry>, pruned: set<string>)
    requires DistinctDomains(entries)
    ensures DistinctDomains(Keep(entries, pruned))
  {
    if entries != [] {
      var n := |entries| - 1;
      KeptDistinct(entries[..n], pruned);
      forall m | m in Keep(entries[..n], pruned) ensures m.domain != entries[n].domain {
        var i :| 0 <= i < n && entries[..n][i] == m;
        assert entries[i] == m;
      }
    }
  }

  /** Merged entries and the raw lines they come from cover the same names, whatever is pruned. */
  lemma MergedCovers(lib: NameLibrary, denylist: seq<string>, raws: seq<RawEntry>, out: MergeOutput,
                     pruned: set<string>, q: string)
    requires IsMerge(lib, denylist, raws, out)
    ensures (exists m :: m in Keep(out.entries, pruned) && EntryCovers(m, q))
       <==> RawCovers(lib, denylist, raws, pruned, q)
  {
    if m :| m in Keep(out.entries, pruned) && EntryCovers(m, q) {
      EntryToLine(lib, denylist, raws, m, pruned, q);
    }
    if e :| e in raws && LineCovers(lib, denylist, e, pruned, q) {
      var m := LineToEntry(lib, denylist, raws, out, e, pruned, q);
    }
  }

  lemma LineToEntry(lib: NameLibrary, denylist: seq<string>, raws: seq<RawEntry>, out: MergeOutput, e: RawEntry,
                    pruned: set<string>, q: string) returns (m: MergedEntry)
    requires IsMerge(lib, denylist, raws, out) && e in raws && LineCovers(lib, denylist, e, pruned, q)
    ensures m in Keep(out.entries, pruned) && EntryCovers(m, q)
  {
    var f := FateOf(lib, denylist, e);
    assert f.Kept? && f.domain in Domains(lib, denylist, raws);
    m :| m in out.entries && m.domain == f.domain;
    if f.scope == Apex {
      assert AnyApex(lib, denylist, raws, m.domain);
    }
  }

  lemma EntryToLine(lib: NameLibrary, denylist: seq<string>, raws: seq<RawEntry>, m: MergedEntry,
                    pruned: set<string>, q: string)
    requires Gathers(lib, denylist, raws, m) && m.domain in Domains(lib, denylist, raws) && EntryCovers(m, q)
    requires m.domain !in pruned
    ensures RawCovers(lib, denylist, raws, pruned, q)
  {
    if m.domain == q {
      var e :| e in raws && FateOf(lib, denylist, e).Kept? && FateOf(lib, denylist, e).domain == q;
      assert SurvivesAs(lib, denylist, e, q);
      assert LineCovers(lib, denylist, e, pruned, q);
    } else {
      var e :| e in raws && FateOf(lib, denylist, e) == Kept(m.domain, Apex);
      assert SurvivesAs(lib, denylist, e, m.domain);
      assert LineCovers(lib, denylist, e, pruned, q);
    }
  }

  lemma CompiledCovers(entries: seq<MergedEntry>, a: BlocklistArtifact, q: string)
    requires IsProvenance(entries, a.provenance, a.fst) && DistinctDomains(entries)
    ensures Blocks(a, ReverseKey(q)) <==> exists m :: m in entries && EntryCovers(m, q)
  {
    var rq := ReverseKey(q);
    if i :| Boundary(rq, i) && HitAt(a, rq, i) {
      HitToEntry(entries, a, q, i);
    }
    if m :| m in entries && EntryCovers(m, q) {
      KeyOf(entries, a.provenance, a.fst, m);
      SuffixIsBoundaryPrefix(m.domain, q);
      assert HitAt(a, rq, |ReverseKey(m.domain)|);
    }
  }

  lemma HitToEntry(entries: seq<MergedEntry>, a: BlocklistArtifact, q: string, i: nat)
    requires IsProvenance(entries, a.provenance, a.fst)
    requires Boundary(ReverseKey(q), i) && HitAt(a, ReverseKey(q), i)
    ensures exists m :: m in entries && EntryCovers(m, q)
  {
    var rq := ReverseKey(q);
    var key := rq[..i];
    var n :| LastFor(entries, n, key) && Combo(entries[n]) == a.provenance[a.fst[key]];
    var m := entries[n];
    SuffixIsBoundaryPrefix(m.domain, q);
    if i == |rq| {
      assert key == rq;
      ReverseKeyInjective(m.domain, q);
    }
    assert m in entries && EntryCovers(m, q);
  }

  /** A directory holds the two files of a build. */
  predicate Holds(dir: Option<Dir>, b: FstArtifact) {
    && dir.Some? && ArtifactFst in dir.value && ManifestBin in dir.value
    && dir.value[ArtifactFst] == FstBytes(b.fst) && dir.value[ManifestBin] == ManifestBytes(b.manifest)
  }

  /**
   End to end: the artifact a device loads after merge, prune, compile and sign answers "block" for
   exactly the names the raw lines cover.
   */
  lemma EndToEnd(lib: NameLibrary, denylist: seq<string>, raws: seq<RawEntry>, out: MergeOutput, pruned: set<string>,
                 crypto: Crypto, version: nat, keys: seq<(string, int)>, built: FstArtifact,
                 current: Option<Dir>, previous: Option<Dir>, trusted: seq<(string, int)>, i: nat, q: string)
    requires IsMerge(lib, denylist, raws, out)
    requires IsBuilt(crypto, Keep(out.entries, pruned), version, keys, built)
    requires Sound(crypto) && i < |keys| && TrustedKey(trusted, keys[i].0) == Some(crypto.publicOf(keys[i].1))
    requires Holds(current, built)
    ensures var r := LoadFrom(crypto, current, previous, trusted);
            r.Ok? && r.value.version == version
            && (Blocks(r.value, ReverseKey(q)) <==> RawCovers(lib, denylist, raws, pruned, q))
  {
    var kept := Keep(out.entries, pruned);
    BuiltVerifies(crypto, kept, version, keys, built, trusted, i);
    var a := BlocklistArtifact(built.fst, built.manifest.provenanceTable, version);
    assert LoadSlot(crypto, current, trusted) == Ok(a);
    MergedDistinct(lib, denylist, raws, out);
    KeptDistinct(out.entries, pruned);
    MergedCovers(lib, denylist, raws, out, pruned, q);
    CompiledCovers(kept, a, q);
  }

  /** The signed build does not depend on the order the source lines were fetched in. */
  lemma BuildReproducible(lib: NameLibrary, denylist: seq<string>, rawsA: seq<RawEntry>, rawsB: seq<RawEntry>,
                          outA: MergeOutput, outB: MergeOutput, pruned: set<string>, crypto: Crypto, version: nat,
                          keys: seq<(string, int)>, a: FstArtifact, b: FstArtifact)
    requires multiset(rawsA) == multiset(rawsB)
    requires IsMerge(lib, denylist, rawsA, outA) && IsMerge(lib, denylist, rawsB, outB)
    requires IsBuilt(crypto, Keep(outA.entries, pruned), version, keys, a)
    requires IsBuilt(crypto, Keep(outB.entries, pruned), version, keys, b)
    requires a.manifest.buildTime == b.manifest.buildTime
    ensures a == b
  {
    MergeOrderIndependent(lib, denylist, rawsA, rawsB, outA, outB);
    MergedDistinct(lib, denylist, rawsA, outA);
    KeptDistinct(outA.entries, pruned);
    ProvenanceDetermined(Keep(outA.entries, pruned), Keep(outB.entries, pruned), a.manifest.provenanceTable, a.fst,
                         b.manifest.provenanceTable, b.fst);
    assert Signable(a.manifest) == Signable(b.manifest);
  }

  // -------------------------------------------------------------------------
  // Allowlist
  // -------------------------------------------------------------------------

  ghost predicate AllowCovers(entries: set<string>, q: string) {
    exists d :: d in entries && LabelSuffix(d, q)
  }

  class Allowlist {
    var entries: set<string>

    constructor ()
      ensures entries == {}
    {
      entries := {};
    }

    /** An entry that does not normalize is not kept. */
    method Insert(lib: NameLibrary, raw: string)
      modifies this
      ensures entries == old(entries) + (match lib.normalize(raw) case Some(n) => {n} case None => {})
    {
      match lib.normalize(raw) {
        case Some(n) => entries := entries + {n};
        case None =>
      }
    }

    method Contains(normalized: string) returns (r: bool)
      ensures r <==> AllowCovers(entries, normalized)
    {
      if normalized in entries {
        assert LabelSuffix(normalized, normalized);
        return true;
      }
      for idx := 0 to |normalized|
        invariant forall k | 0 <= k < idx :: normalized[k] == '.' ==> normalized[k + 1..] !in entries
      {
        if normalized[idx] == '.' && normalized[idx + 1..] in entries {
          assert LabelSuffix(normalized[idx + 1..], normalized);
          return true;
        }
      }
      forall d | LabelSuffix(d, normalized) ensures d !in entries {
        if d != normalized {
          assert d == normalized[|normalized| - |d| - 1 + 1..];
        }
      }
      return false;
    }
  }

  /** The allowlist covers exactly what an artifact holding the same names as apex rules blocks. */
  lemma AllowlistAgreesWithLookup(entries: set<string>, a: BlocklistArtifact, q: string)
    requires forall k :: k in a.fst <==> exists d :: d in entries && ReverseKey(d) == k
    requires forall k | k in a.fst :: a.fst[k] < |a.provenance| && a.provenance[a.fst[k]].scope == Apex
    ensures AllowCovers(entries, q) <==> Blocks(a, ReverseKey(q))
  {
    var rq := ReverseKey(q);
    if d :| d in entries && LabelSuffix(d, q) {
      SuffixIsBoundaryPrefix(d, q);
      assert ReverseKey(d) in a.fst;
      assert HitAt(a, rq, |ReverseKey(d)|);
    }
    if i :| Boundary(rq, i) && HitAt(a, rq, i) {
      var d :| d in entries && ReverseKey(d) == rq[..i];
      SuffixIsBoundaryPrefix(d, q);
    }
  }
}
