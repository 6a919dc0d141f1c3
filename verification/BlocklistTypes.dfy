/** The shared record types of the blocklist pipeline, and the outside library it leans on. */
module BlocklistTypes {
  import opened Wrappers
  import opened Orders

  datatype SourceId = StevenBlack | Hagezi | Ut1

  datatype Category = Adult | Gambling | Dating

  datatype RuleScope = Apex | ExactHost

  datatype ScopeHint = NoHint | ApexHint

  datatype RawEntry = RawEntry(domain: string, source: SourceId, category: Category, scopeHint: ScopeHint)

  datatype MergedEntry = MergedEntry(
    domain: string, scope: RuleScope, sources: seq<SourceId>, categories: seq<Category>)

  /**
   What the pipeline asks of code outside the repository: UTS #46 normalization, IP-literal
   parsing and the Public Suffix List's "is itself a registrable domain".
   */
  datatype NameLibrary = NameLibrary(
    normalize: string -> Option<string>,
    isIpLiteral: string -> bool,
    registrable: string -> bool)

  // Declaration order is the derived order of each enumeration.

  function SourceKey(s: SourceId): seq<int> {
    match s case StevenBlack => [0] case Hagezi => [1] case Ut1 => [2]
  }

  function CategoryKey(c: Category): seq<int> {
    match c case Adult => [0] case Gambling => [1] case Dating => [2]
  }

  function ScopeKey(s: RuleScope): seq<int> {
    match s case Apex => [0] case ExactHost => [1]
  }

  function DomainKey(m: MergedEntry): seq<int> {
    Codes(m.domain)
  }

  /** The entries left, in order, once the domains of `pruned` are out. */
  function Keep(entries: seq<MergedEntry>, pruned: set<string>): (kept: seq<MergedEntry>)
    ensures forall m :: m in kept <==> m in entries && m.domain !in pruned
  {
    if entries == [] then []
    else
      var n := |entries| - 1;
      var rest := Keep(entries[..n], pruned);
      assert entries == entries[..n] + [entries[n]];
      if entries[n].domain in pruned then rest else rest + [entries[n]]
  }

  lemma {:induction false} KeepConcat(a: seq<MergedEntry>, b: seq<MergedEntry>, pruned: set<string>)
    ensures Keep(a + b, pruned) == Keep(a, pruned) + Keep(b, pruned)
  {
    if b == [] {
      assert a + b == a;
    } else {
      var n := |b| - 1;
      KeepConcat(a, b[..n], pruned);
      assert (a + b)[..|a + b| - 1] == a + b[..n];
    }
  }

  /** In the order they were in: an entry further on is kept further on. */
  lemma KeepsOrder(a: seq<MergedEntry>, m: MergedEntry, b: seq<MergedEntry>, pruned: set<string>)
    ensures m.domain !in pruned ==> Keep(a + [m] + b, pruned) == Keep(a, pruned) + [m] + Keep(b, pruned)
    ensures m.domain in pruned ==> Keep(a + [m] + b, pruned) == Keep(a, pruned) + Keep(b, pruned)
  {
    KeepConcat(a + [m], b, pruned);
    KeepConcat(a, [m], pruned);
    assert [m][..0] == [];
  }
}
