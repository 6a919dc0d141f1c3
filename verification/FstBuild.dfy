/**
 Compiling merged entries: a provenance table, a map from reversed keys to table positions, and a
 signed manifest that binds them.

 The FST file is the finite map it encodes.  Hashing and signing are functions of the caller.
 */
module FstBuild {
  import opened Wrappers
  import opened Orders
  import opened Names
  import opened BlocklistTypes

  datatype ProvenanceEntry = ProvenanceEntry(sources: seq<SourceId>, categories: seq<Category>, scope: RuleScope)

  datatype Signature = Signature(keyId: string, bytes: int)

  datatype Manifest = Manifest(
    version: nat, buildTime: nat, entryCount: nat, provenanceTable: seq<ProvenanceEntry>,
    fstDigest: int, signatures: seq<Signature>)

  /** What a file of a slot can hold: whole FST bytes, a whole manifest, or neither. */
  datatype Content = FstBytes(fst: map<string, nat>) | ManifestBytes(manifest: Manifest) | Torn

  datatype FstArtifact = FstArtifact(fst: map<string, nat>, manifest: Manifest)

  datatype Crypto = Crypto(
    digest: Content -> int,
    publicOf: int -> int,
    sign: (int, Manifest) -> int,
    verify: (int, Manifest, int) -> bool)

  datatype BuildError = NoSigningKeys

  function Combo(e: MergedEntry): ProvenanceEntry {
    ProvenanceEntry(e.sources, e.categories, e.scope)
  }

  function Ranks<T(!new)>(key: T -> seq<int>, xs: seq<T>): seq<int>
    requires forall x :: |key(x)| == 1
  {
    seq(|xs|, i requires 0 <= i < |xs| => key(xs[i])[0] + 1)
  }

  /** The derived order: sources, then categories, then scope. */
  function ProvenanceKey(p: ProvenanceEntry): seq<int> {
    Ranks(SourceKey, p.sources) + [0] + (Ranks(CategoryKey, p.categories) + [0] + ScopeKey(p.scope))
  }

  lemma RanksInjective<T(!new)>(key: T -> seq<int>, xs: seq<T>, ys: seq<T>)
    requires forall x :: |key(x)| == 1
    requires forall x, y :: key(x) == key(y) ==> x == y
    requires Ranks(key, xs) == Ranks(key, ys)
    ensures xs == ys
  {
    assert |xs| == |Ranks(key, xs)| == |ys|;
    forall i | 0 <= i < |xs| ensures xs[i] == ys[i] {
      assert Ranks(key, xs)[i] == Ranks(key, ys)[i];
      assert key(xs[i]) == [key(xs[i])[0]] && key(ys[i]) == [key(ys[i])[0]];
    }
  }

  lemma ProvenanceKeyInjective(p: ProvenanceEntry, q: ProvenanceEntry)
    requires ProvenanceKey(p) == ProvenanceKey(q)
    ensures p == q
  {
    PairInjective(Ranks(SourceKey, p.sources), Ranks(CategoryKey, p.categories) + [0] + ScopeKey(p.scope),
                  Ranks(SourceKey, q.sources), Ranks(CategoryKey, q.categories) + [0] + ScopeKey(q.scope));
    PairInjective(Ranks(CategoryKey, p.categories), ScopeKey(p.scope),
                  Ranks(CategoryKey, q.categories), ScopeKey(q.scope));
    RanksInjective(SourceKey, p.sources, q.sources);
    RanksInjective(CategoryKey, p.categories, q.categories);
  }

  /** The last entry for a key decides it, as inserting into a map in order does. */
  ghost predicate LastFor(entries: seq<MergedEntry>, i: int, key: string) {
    && 0 <= i < |entries| && ReverseKey(entries[i].domain) == key
    && forall j | i < j < |entries| :: ReverseKey(entries[j].domain) != key
  }

  ghost predicate DecidedBy(entries: seq<MergedEntry>, key: string, p: ProvenanceEntry) {
    exists i :: LastFor(entries, i, key) && Combo(entries[i]) == p
  }

  ghost function ComboSet(entries: seq<MergedEntry>): set<ProvenanceEntry> {
    set e | e in entries :: Combo(e)
  }

  ghost function KeySet(entries: seq<MergedEntry>): set<string> {
    set e | e in entries :: ReverseKey(e.domain)
  }

  ghost predicate KeyedBy(entries: seq<MergedEntry>, table: seq<ProvenanceEntry>, keyed: map<string, nat>) {
    && keyed.Keys == KeySet(entries)
    && forall k | k in keyed :: keyed[k] < |table| && DecidedBy(entries, k, table[keyed[k]])
  }

  ghost predicate IsProvenance(entries: seq<MergedEntry>, table: seq<ProvenanceEntry>, keyed: map<string, nat>) {
    && StrictlySortedBy(ProvenanceKey, table)
    && Elements(table) == ComboSet(entries)
    && KeyedBy(entries, table, keyed)
  }

  lemma SetsStep(entries: seq<MergedEntry>, e: MergedEntry)
    ensures ComboSet(entries + [e]) == ComboSet(entries) + {Combo(e)}
    ensures KeySet(entries + [e]) == KeySet(entries) + {ReverseKey(e.domain)}
  {
    assert forall x :: x in entries + [e] <==> x in entries || x == e;
  }

  /** `table` lists the keys of `idOf`, each at its own id. */
  ghost predicate Indexed<T>(table: seq<T>, idOf: map<T, nat>) {
    && (forall p | p in idOf :: idOf[p] < |table| && table[idOf[p]] == p)
    && (forall a | 0 <= a < |table| :: table[a] in idOf && idOf[table[a]] == a)
    && |idOf| == |table|
  }

  lemma IndexedNew<T(!new)>(table: seq<T>, idOf: map<T, nat>, c: T)
    requires Indexed(table, idOf) && c !in idOf
    ensures Indexed(table + [c], idOf[c := |idOf|])
  {
    assert idOf[c := |idOf|].Keys == idOf.Keys + {c};
  }

  ghost predicate Enumerated(entries: seq<MergedEntry>, table: seq<ProvenanceEntry>, idOf: map<ProvenanceEntry, nat>) {
    idOf.Keys == ComboSet(entries) && Indexed(table, idOf)
  }

  lemma EnumeratedStep(entries: seq<MergedEntry>, table: seq<ProvenanceEntry>, idOf: map<ProvenanceEntry, nat>,
                       e: MergedEntry)
    requires Enumerated(entries, table, idOf)
    ensures Combo(e) in idOf ==> Enumerated(entries + [e], table, idOf)
    ensures Combo(e) !in idOf ==> Enumerated(entries + [e], table + [Combo(e)], idOf[Combo(e) := |idOf|])
  {
    SetsStep(entries, e);
    if Combo(e) !in idOf { IndexedNew(table, idOf, Combo(e)); }
  }

  lemma EnumeratedDone(entries: seq<MergedEntry>, table: seq<ProvenanceEntry>, idOf: map<ProvenanceEntry, nat>)
    requires Enumerated(entries, table, idOf)
    ensures Elements(table) == ComboSet(entries) && AllDiffer(table)
  {
    assert forall p :: p in Elements(table) <==> p in idOf;
  }

  /** The first loop: each combination once, in first-seen order, with its provisional id. */
  method EnumerateCombos(entries: seq<MergedEntry>) returns (table: seq<ProvenanceEntry>)
    ensures Elements(table) == ComboSet(entries) && AllDiffer(table)
  {
    table := [];
    var idOf: map<ProvenanceEntry, nat> := map[];
    for i := 0 to |entries|
      invariant Enumerated(entries[..i], table, idOf)
    {
      var combo := Combo(entries[i]);
      var next := |idOf|;
      assert entries[..i + 1] == entries[..i] + [entries[i]];
      EnumeratedStep(entries[..i], table, idOf, entries[i]);
      if combo !in idOf {
        idOf := idOf[combo := next];
      }
      if idOf[combo] == next {
        table := table + [combo];
      }
    }
    assert entries[..|entries|] == entries;
    EnumeratedDone(entries, table, idOf);
  }

  lemma KeyedStep(entries: seq<MergedEntry>, table: seq<ProvenanceEntry>, keyed: map<string, nat>,
                  e: MergedEntry, id: nat)
    requires KeyedBy(entries, table, keyed) && id < |table| && table[id] == Combo(e)
    ensures KeyedBy(entries + [e], table, keyed[ReverseKey(e.domain) := id])
  {
    var key := ReverseKey(e.domain);
    var after := keyed[key := id];
    SetsStep(entries, e);
    forall k | k in after ensures after[k] < |table| && DecidedBy(entries + [e], k, table[after[k]]) {
      if k == key {
        assert LastFor(entries + [e], |entries|, k);
      } else {
        var n :| LastFor(entries, n, k) && Combo(entries[n]) == table[keyed[k]];
        assert LastFor(entries + [e], n, k);
      }
    }
  }

  method AssignProvenance(entries: seq<MergedEntry>)
    returns (table: seq<ProvenanceEntry>, byDomain: map<string, nat>)
    ensures IsProvenance(entries, table, byDomain)
  {
    var firstSeen := EnumerateCombos(entries);
    SortTable(firstSeen);
    table := Sort(ProvenanceKey, firstSeen);
    var canonical := Positions(table);
    byDomain := map[];
    assert KeyedBy(entries[..0], table, byDomain);
    for i := 0 to |entries|
      invariant KeyedBy(entries[..i], table, byDomain)
    {
      assert Combo(entries[i]) in ComboSet(entries);
      assert Combo(entries[i]) in Elements(table);
      var id := canonical[Combo(entries[i])];
      KeyedStep(entries[..i], table, byDomain, entries[i], id);
      assert entries[..i + 1] == entries[..i] + [entries[i]];
      byDomain := byDomain[ReverseKey(entries[i].domain) := id];
    }
    assert entries[..|entries|] == entries;
  }

  lemma SortTable(table: seq<ProvenanceEntry>)
    requires AllDiffer(table)
    ensures StrictlySortedBy(ProvenanceKey, Sort(ProvenanceKey, table))
    ensures Elements(Sort(ProvenanceKey, table)) == Elements(table)
  {
    forall a, b | 0 <= a < b < |table| ensures ProvenanceKey(table[a]) != ProvenanceKey(table[b]) {
      if ProvenanceKey(table[a]) == ProvenanceKey(table[b]) {
        ProvenanceKeyInjective(table[a], table[b]);
      }
    }
    SortStrict(ProvenanceKey, table);
    SameElements(Sort(ProvenanceKey, table), table);
  }

  /** The rebuilt `id_of`: each combination at its position in the sorted table. */
  method Positions(table: seq<ProvenanceEntry>) returns (canonical: map<ProvenanceEntry, nat>)
    requires StrictlySortedBy(ProvenanceKey, table)
    ensures forall p :: p in canonical <==> p in table
    ensures forall p | p in canonical :: canonical[p] < |table| && table[canonical[p]] == p
  {
    canonical := map[];
    for idx := 0 to |table|
      invariant forall p :: p in canonical <==> p in table[..idx]
      invariant forall p | p in canonical :: canonical[p] < idx && table[canonical[p]] == p
    {
      canonical := canonical[table[idx] := idx];
    }
    assert table[..|table|] == table;
  }

  ghost predicate DistinctDomains(entries: seq<MergedEntry>) {
    forall i, j | 0 <= i < j < |entries| :: entries[i].domain != entries[j].domain
  }

  lemma KeyOf(entries: seq<MergedEntry>, table: seq<ProvenanceEntry>, keyed: map<string, nat>, e: MergedEntry)
    requires IsProvenance(entries, table, keyed) && DistinctDomains(entries) && e in entries
    ensures var k := ReverseKey(e.domain); k in keyed && keyed[k] < |table| && table[keyed[k]] == Combo(e)
  {
    var k := ReverseKey(e.domain);
    assert k in KeySet(entries);
    var i :| LastFor(entries, i, k) && Combo(entries[i]) == table[keyed[k]];
    ReverseKeyInjective(entries[i].domain, e.domain);
  }

  /**
   The compiled form is reproducible: it depends on which entries there are, not on their order, so
   the digest that is signed does not depend on it either.
   */
  lemma ProvenanceDetermined(a: seq<MergedEntry>, b: seq<MergedEntry>,
                             tableA: seq<ProvenanceEntry>, keyedA: map<string, nat>,
                             tableB: seq<ProvenanceEntry>, keyedB: map<string, nat>)
    requires IsProvenance(a, tableA, keyedA) && IsProvenance(b, tableB, keyedB)
    requires DistinctDomains(a) && DistinctDomains(b) && forall e :: e in a <==> e in b
    ensures tableA == tableB && keyedA == keyedB
  {
    SameSets(a, b);
    SameTables(tableA, tableB);
    forall k | k in keyedA ensures keyedA[k] == keyedB[k] {
      KeysAgree(a, b, tableA, keyedA, keyedB, k);
    }
  }

  lemma SameSets(a: seq<MergedEntry>, b: seq<MergedEntry>)
    requires forall e :: e in a <==> e in b
    ensures ComboSet(a) == ComboSet(b) && KeySet(a) == KeySet(b)
  {}

  lemma SameTables(a: seq<ProvenanceEntry>, b: seq<ProvenanceEntry>)
    requires StrictlySortedBy(ProvenanceKey, a) && StrictlySortedBy(ProvenanceKey, b)
    requires Elements(a) == Elements(b)
    ensures a == b
  {
    forall p ensures p in a <==> p in b {
      assert p in a <==> p in Elements(a);
      assert p in b <==> p in Elements(b);
    }
    StrictUnique(ProvenanceKey, a, b);
  }

  lemma KeysAgree(a: seq<MergedEntry>, b: seq<MergedEntry>, table: seq<ProvenanceEntry>,
                  keyedA: map<string, nat>, keyedB: map<string, nat>, k: string)
    requires IsProvenance(a, table, keyedA) && IsProvenance(b, table, keyedB)
    requires DistinctDomains(b) && forall e :: e in a <==> e in b
    requires k in keyedA
    ensures k in keyedB && keyedA[k] == keyedB[k]
  {
    var i :| LastFor(a, i, k) && Combo(a[i]) == table[keyedA[k]];
    assert a[i] in b;
    KeyOf(b, table, keyedB, a[i]);
    StrictPositions(ProvenanceKey, table, keyedA[k], keyedB[k]);
  }

  // Declaration order of the enumerations.

  predicate EarlierSource(a: SourceId, b: SourceId) {
    (a == StevenBlack && b != StevenBlack) || (a == Hagezi && b == Ut1)
  }

  predicate EarlierCategory(a: Category, b: Category) {
    (a == Adult && b != Adult) || (a == Gambling && b == Dating)
  }

  /** The order of lists: one begins the other, or they part at an earlier element. */
  ghost predicate ListBefore<T(!new)>(earlier: (T, T) -> bool, xs: seq<T>, ys: seq<T>) {
    exists k :: 0 <= k <= |xs| && k < |ys| && xs[..k] == ys[..k] && (k == |xs| || earlier(xs[k], ys[k]))
  }

  /** Sources first, then categories, then apex before exact host. */
  ghost predicate EntryBefore(p: ProvenanceEntry, q: ProvenanceEntry) {
    if p.sources != q.sources then ListBefore(EarlierSource, p.sources, q.sources)
    else if p.categories != q.categories then ListBefore(EarlierCategory, p.categories, q.categories)
    else p.scope == Apex && q.scope == ExactHost
  }

  lemma RanksBefore<T(!new)>(key: T -> seq<int>, earlier: (T, T) -> bool, xs: seq<T>, ys: seq<T>)
    requires forall x :: |key(x)| == 1
    requires forall x, y :: earlier(x, y) <==> key(x)[0] < key(y)[0]
    requires forall x, y :: key(x) == key(y) ==> x == y
    ensures LexLt(Ranks(key, xs), Ranks(key, ys)) <==> xs != ys && ListBefore(earlier, xs, ys)
    ensures Ranks(key, xs) == Ranks(key, ys) <==> xs == ys
  {
    var a, b := Ranks(key, xs), Ranks(key, ys);
    LexMeans(a, b);
    if a == b { RanksInjective(key, xs, ys); }
    forall k | 0 <= k <= |xs| && k <= |ys| ensures a[..k] == b[..k] <==> xs[..k] == ys[..k] {
      assert a[..k] == Ranks(key, xs[..k]) && b[..k] == Ranks(key, ys[..k]);
      if a[..k] == b[..k] { RanksInjective(key, xs[..k], ys[..k]); }
    }
    if LexLt(a, b) {
      var k :| 0 <= k <= |a| && k <= |b| && a[..k] == b[..k] && (k == |a| || (k < |b| && a[k] < b[k]));
      assert xs[..k] == ys[..k] && (k == |xs| || earlier(xs[k], ys[k]));
    }
    if k :| 0 <= k <= |xs| && k < |ys| && xs[..k] == ys[..k] && (k == |xs| || earlier(xs[k], ys[k])) {
      assert a[..k] == b[..k] && (k == |a| || (k < |b| && a[k] < b[k]));
    }
  }

  /** The table's order is that order. */
  lemma TableOrder(p: ProvenanceEntry, q: ProvenanceEntry)
    ensures LexLt(ProvenanceKey(p), ProvenanceKey(q)) <==> EntryBefore(p, q)
  {
    var sp, sq := Ranks(SourceKey, p.sources), Ranks(SourceKey, q.sources);
    var cp, cq := Ranks(CategoryKey, p.categories), Ranks(CategoryKey, q.categories);
    RanksBefore(SourceKey, EarlierSource, p.sources, q.sources);
    RanksBefore(CategoryKey, EarlierCategory, p.categories, q.categories);
    ScopesBefore(p.scope, q.scope);
    LexPairStrict(cp, ScopeKey(p.scope), cq, ScopeKey(q.scope));
    LexPairStrict(sp, cp + [0] + ScopeKey(p.scope), sq, cq + [0] + ScopeKey(q.scope));
    var x, y := cp + [0] + ScopeKey(p.scope), cq + [0] + ScopeKey(q.scope);
    assert ProvenanceKey(p) == sp + [0] + x && ProvenanceKey(q) == sq + [0] + y;
  }

  lemma ScopesBefore(a: RuleScope, b: RuleScope)
    ensures LexLt(ScopeKey(a), ScopeKey(b)) <==> a == Apex && b == ExactHost
  {}

  /**
   The table entry a name leads to has the sources, the categories and the scope of its merged entry;
   nothing else is in the table, and the table is in order.
   */
  lemma ProvenanceMeans(entries: seq<MergedEntry>, table: seq<ProvenanceEntry>, keyed: map<string, nat>)
    requires IsProvenance(entries, table, keyed) && DistinctDomains(entries)
    ensures forall e | e in entries ::
              var k := ReverseKey(e.domain);
              && k in keyed && keyed[k] < |table|
              && table[keyed[k]].sources == e.sources && table[keyed[k]].categories == e.categories
              && table[keyed[k]].scope == e.scope
    ensures forall p | p in table ::
              exists e :: e in entries && e.sources == p.sources && e.categories == p.categories && e.scope == p.scope
    ensures forall i, j | 0 <= i < j < |table| :: EntryBefore(table[i], table[j])
  {
    forall e | e in entries
      ensures var k := ReverseKey(e.domain); k in keyed && keyed[k] < |table| && table[keyed[k]] == Combo(e)
    {
      KeyOf(entries, table, keyed, e);
    }
    forall p | p in table
      ensures exists e :: e in entries && e.sources == p.sources && e.categories == p.categories && e.scope == p.scope
    {
      assert p in ComboSet(entries);
    }
    forall i, j | 0 <= i < j < |table| ensures EntryBefore(table[i], table[j]) {
      TableOrder(table[i], table[j]);
    }
  }

  /** `signable_bytes`: everything but the signatures. */
  function Signable(m: Manifest): Manifest {
    m.(signatures := [])
  }

  function Sign(crypto: Crypto, m: Manifest, keys: seq<(string, int)>): seq<Signature> {
    seq(|keys|, i requires 0 <= i < |keys| => Signature(keys[i].0, crypto.sign(keys[i].1, Signable(m))))
  }

  ghost predicate IsBuilt(crypto: Crypto, entries: seq<MergedEntry>, version: nat,
                          keys: seq<(string, int)>, a: FstArtifact) {
    && IsProvenance(entries, a.manifest.provenanceTable, a.fst)
    && a.manifest.version == version
    && a.manifest.entryCount == |a.fst|
    && a.manifest.fstDigest == crypto.digest(FstBytes(a.fst))
    && a.manifest.signatures == Sign(crypto, a.manifest, keys)
  }

  method Build(crypto: Crypto, entries: seq<MergedEntry>, version: nat, buildTime: nat, keys: seq<(string, int)>)
    returns (r: Result<FstArtifact, BuildError>)
    ensures keys == [] <==> r == Err(NoSigningKeys)
    ensures keys != [] ==> r.Ok? && IsBuilt(crypto, entries, version, keys, r.value)
    ensures r.Ok? ==> r.value.manifest.buildTime == buildTime
  {
    if keys == [] {
      return Err(NoSigningKeys);
    }
    var table, keyed := AssignProvenance(entries);
    var unsigned := Manifest(version, buildTime, |keyed|, table, crypto.digest(FstBytes(keyed)), []);
    var signed := unsigned.(signatures := Sign(crypto, unsigned, keys));
    assert Signable(signed) == Signable(unsigned);
    r := Ok(FstArtifact(keyed, signed));
  }

  /** The reversed keys are as many as the domains, so the manifest's count is the domain count. */
  lemma EntryCountIsDomainCount(crypto: Crypto, entries: seq<MergedEntry>, version: nat,
                                keys: seq<(string, int)>, a: FstArtifact)
    requires IsBuilt(crypto, entries, version, keys, a) && DistinctDomains(entries)
    ensures a.manifest.entryCount == |entries|
    ensures UnreversedKeys(a.fst) == DomainSet(entries)
    ensures |UnreversedKeys(a.fst)| == a.manifest.entryCount
  {
    assert a.fst.Keys == KeySet(entries);
    UnreverseAll(entries);
    assert UnreversedKeys(a.fst) == set k | k in KeySet(entries) :: ReverseKey(k);
    DomainsSize(entries);
    ImageSize(a.fst.Keys);
    assert UnreversedKeys(a.fst) == set k | k in a.fst.Keys :: ReverseKey(k);
  }

  lemma UnreverseAll(entries: seq<MergedEntry>)
    ensures (set k | k in KeySet(entries) :: ReverseKey(k)) == DomainSet(entries)
  {
    var back := set k | k in KeySet(entries) :: ReverseKey(k);
    forall d ensures d in back <==> d in DomainSet(entries) {
      if d in back {
        var k :| k in KeySet(entries) && ReverseKey(k) == d;
        var e :| e in entries && ReverseKey(e.domain) == k;
        ReverseKeyInvolution(e.domain);
      }
      if d in DomainSet(entries) {
        var e :| e in entries && e.domain == d;
        ReverseKeyInvolution(d);
        assert ReverseKey(d) in KeySet(entries);
      }
    }
  }

  function UnreversedKeys(fst: map<string, nat>): set<string> {
    set k | k in fst :: ReverseKey(k)
  }

  function DomainSet(entries: seq<MergedEntry>): set<string> {
    set e | e in entries :: e.domain
  }

  lemma {:induction false} DomainsSize(entries: seq<MergedEntry>)
    requires DistinctDomains(entries)
    ensures |DomainSet(entries)| == |entries|
  {
    if entries != [] {
      var n := |entries| - 1;
      var before := entries[..n];
      DomainsSize(before);
      assert forall e :: e in entries <==> e in before || e == entries[n];
      assert DomainSet(entries) == DomainSet(before) + {entries[n].domain};
      assert entries[n].domain !in DomainSet(before);
    }
  }

  lemma {:induction false} ImageSize(keys: set<string>)
    ensures |set k | k in keys :: ReverseKey(k)| == |keys|
  {
    if keys != {} {
      var x :| x in keys;
      var rest := keys - {x};
      ImageSize(rest);
      var image := set k | k in rest :: ReverseKey(k);
      assert (set k | k in keys :: ReverseKey(k)) == image + {ReverseKey(x)};
      if ReverseKey(x) in image {
        var y :| y in rest && ReverseKey(y) == ReverseKey(x);
        ReverseKeyInjective(x, y);
      }
      assert keys == rest + {x};
    }
  }

  /** The trusted key a signature is checked against: the first one listed under its id. */
  function TrustedKey(trusted: seq<(string, int)>, keyId: string): Option<int> {
    if trusted == [] then None
    else if trusted[0].0 == keyId then Some(trusted[0].1)
    else TrustedKey(trusted[1..], keyId)
  }

  predicate SignatureHolds(crypto: Crypto, m: Manifest, trusted: seq<(string, int)>, s: Signature) {
    var key := TrustedKey(trusted, s.keyId);
    key.Some? && crypto.verify(key.value, Signable(m), s.bytes)
  }

  ghost predicate Verifies(crypto: Crypto, m: Manifest, trusted: seq<(string, int)>) {
    exists s :: s in m.signatures && SignatureHolds(crypto, m, trusted, s)
  }

  /** Signature `i` of the manifest is good under trusted key `j`, the first one listed under its key id. */
  ghost predicate SignedAt(crypto: Crypto, m: Manifest, trusted: seq<(string, int)>, i: nat, j: nat) {
    && i < |m.signatures| && j < |trusted| && trusted[j].0 == m.signatures[i].keyId
    && (forall l | 0 <= l < j :: trusted[l].0 != m.signatures[i].keyId)
    && crypto.verify(trusted[j].1, m.(signatures := []), m.signatures[i].bytes)
  }

  ghost predicate Signed(crypto: Crypto, m: Manifest, trusted: seq<(string, int)>) {
    exists i: nat, j: nat :: SignedAt(crypto, m, trusted, i, j)
  }

  lemma {:induction false} TrustedKeyAt(trusted: seq<(string, int)>, keyId: string) returns (j: nat)
    ensures j <= |trusted| && forall l | 0 <= l < j :: trusted[l].0 != keyId
    ensures TrustedKey(trusted, keyId) == if j < |trusted| then Some(trusted[j].1) else None
    ensures j < |trusted| ==> trusted[j].0 == keyId
  {
    if trusted == [] || trusted[0].0 == keyId {
      j := 0;
    } else {
      j := TrustedKeyAt(trusted[1..], keyId);
      j := j + 1;
      assert forall l | 0 < l < j :: trusted[l] == trusted[1..][l - 1];
    }
  }

  /** A manifest verifies exactly when one of its signatures is good under the first trusted key of its id. */
  lemma VerifiesIff(crypto: Crypto, m: Manifest, trusted: seq<(string, int)>)
    ensures Verifies(crypto, m, trusted) <==> Signed(crypto, m, trusted)
  {
    if s :| s in m.signatures && SignatureHolds(crypto, m, trusted, s) {
      var i: nat :| i < |m.signatures| && m.signatures[i] == s;
      var j := TrustedKeyAt(trusted, s.keyId);
      assert SignedAt(crypto, m, trusted, i, j);
    }
    if i: nat, j: nat :| SignedAt(crypto, m, trusted, i, j) {
      var s := m.signatures[i];
      var first := TrustedKeyAt(trusted, s.keyId);
      assert first == j;
      assert s in m.signatures && SignatureHolds(crypto, m, trusted, s);
    }
  }

  method VerifyManifest(crypto: Crypto, m: Manifest, trusted: seq<(string, int)>) returns (r: bool)
    ensures r <==> Verifies(crypto, m, trusted)
    ensures r <==> Signed(crypto, m, trusted)
  {
    VerifiesIff(crypto, m, trusted);
    for i := 0 to |m.signatures|
      invariant forall j | 0 <= j < i :: !SignatureHolds(crypto, m, trusted, m.signatures[j])
    {
      if SignatureHolds(crypto, m, trusted, m.signatures[i]) {
        return true;
      }
    }
    return false;
  }

  ghost predicate Sound(crypto: Crypto) {
    forall k: int, m: Manifest :: crypto.verify(crypto.publicOf(k), m, crypto.sign(k, m))
  }

  /** A client that trusts any one of the signing keys accepts the build. */
  lemma BuiltVerifies(crypto: Crypto, entries: seq<MergedEntry>, version: nat, keys: seq<(string, int)>,
                      a: FstArtifact, trusted: seq<(string, int)>, i: nat)
    requires IsBuilt(crypto, entries, version, keys, a) && Sound(crypto) && i < |keys|
    requires TrustedKey(trusted, keys[i].0) == Some(crypto.publicOf(keys[i].1))
    ensures Verifies(crypto, a.manifest, trusted)
  {
    var s, k, m := a.manifest.signatures[i], keys[i].1, Signable(a.manifest);
    assert crypto.verify(crypto.publicOf(k), m, crypto.sign(k, m));
    assert s in a.manifest.signatures && SignatureHolds(crypto, a.manifest, trusted, s);
  }
}
