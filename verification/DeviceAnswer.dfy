/** From raw source lines to the answer a caller gets on a device, on every interleaving. */
module DeviceAnswer {
  import opened Wrappers
  import opened Names
  import opened BlocklistTypes
  import opened Merge
  import opened FstBuild
  import opened Artifact
  import LookupProtocol
  import Slots

  /**
   The disk a finished publish leaves, of a build made of what merging and pruning left: a device that
   trusts one of the signing keys loads that build, and it blocks exactly what the raw lines cover.
   */
  lemma PublishedBlocksRawLines(lib: NameLibrary, denylist: seq<string>, raws: seq<RawEntry>, out: MergeOutput,
                                pruned: set<string>, crypto: Crypto, version: nat, keys: seq<(string, int)>,
                                built: FstArtifact, disk: Slots.State, trusted: seq<(string, int)>, i: nat, q: string)
    requires IsMerge(lib, denylist, raws, out)
    requires IsBuilt(crypto, Keep(out.entries, pruned), version, keys, built)
    requires Slots.SlotsOf(disk).cur == Slots.FilesOf(built)
    requires Sound(crypto) && i < |keys| && TrustedKey(trusted, keys[i].0) == Some(crypto.publicOf(keys[i].1))
    ensures var r := Slots.Loaded(crypto, disk, trusted);
            r.Ok? && r.value.version == version
            && (Blocks(r.value, ReverseKey(q)) <==> RawCovers(lib, denylist, raws, pruned, q))
  {
    var current, previous := Slots.DirOf(disk, Slots.Current), Slots.DirOf(disk, Slots.Previous);
    assert Holds(current, built);
    EndToEnd(lib, denylist, raws, out, pruned, crypto, version, keys, built, current, previous, trusted, i, q);
  }

  /**
   A finished lookup against what a device loaded from that disk blocks only names the raw lines cover;
   and when it lets a covered name through, this very call counted a fallback or a panic was counted for
   the name.
   */
  lemma AnswerMeansRawLines(lib: NameLibrary, denylist: seq<string>, raws: seq<RawEntry>, out: MergeOutput,
                            pruned: set<string>, crypto: Crypto, version: nat, keys: seq<(string, int)>,
                            built: FstArtifact, disk: Slots.State, trusted: seq<(string, int)>, i: nat,
                            env: LookupProtocol.Env, steps: seq<LookupProtocol.Step>, id: nat)
    requires IsMerge(lib, denylist, raws, out)
    requires IsBuilt(crypto, Keep(out.entries, pruned), version, keys, built)
    requires Slots.SlotsOf(disk).cur == Slots.FilesOf(built)
    requires Sound(crypto) && i < |keys| && TrustedKey(trusted, keys[i].0) == Some(crypto.publicOf(keys[i].1))
    requires Slots.Loaded(crypto, disk, trusted) == Ok(env.artifact)
    requires LookupProtocol.Run(env, steps).Some? && id in LookupProtocol.Run(env, steps).value.calls
    requires LookupProtocol.Run(env, steps).value.calls[id].phase.Done?
    ensures var s := LookupProtocol.Run(env, steps).value;
            var c := s.calls[id];
            var covered := RawCovers(lib, denylist, raws, pruned, c.domain);
            && (c.phase.result == Block || c.phase.result == Proxy)
            && (c.phase.result == Block ==> covered)
            && (c.phase.result == Proxy && covered ==> c.fellBack || (c.domain in s.panicked && s.panics > 0))
  {
    var c := LookupProtocol.Run(env, steps).value.calls[id];
    LookupProtocol.FinishedLookup(env, steps, id);
    PublishedBlocksRawLines(lib, denylist, raws, out, pruned, crypto, version, keys, built, disk, trusted, i, c.domain);
  }
}
