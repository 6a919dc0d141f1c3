/**
 Normalize, scope, union: raw source lines become one merged entry per surviving domain.
 */
module Merge {
  import opened Wrappers
  import opened Orders
  import opened BlocklistTypes

  datatype MergeReport = MergeReport(normalizationFailed: nat, sharedHostingDenylisted: nat, ipLiteral: nat)

  datatype MergeOutput = MergeOutput(entries: seq<MergedEntry>, report: MergeReport)

  function ClassifyScope(lib: NameLibrary, normalized: string, denylist: seq<string>): Option<RuleScope> {
    if normalized in denylist then None
    else if lib.registrable(normalized) then Some(Apex)
    else Some(ExactHost)
  }

  /** Only a wildcard line may widen, and only at a registrable domain. */
  function ResolveScope(lib: NameLibrary, normalized: string, hint: ScopeHint, denylist: seq<string>)
    : (r: Option<RuleScope>)
    ensures r == None <==> normalized in denylist
    ensures r == Some(Apex) <==> normalized !in denylist && hint == ApexHint && lib.registrable(normalized)
  {
    match ClassifyScope(lib, normalized, denylist)
    case None => None
    case Some(Apex) => if hint == ApexHint then Some(Apex) else Some(ExactHost)
    case Some(_) => Some(ExactHost)
  }

  /** `filter_map(normalize)` over the hand-written denylist. */
  function NormalizedDenylist(lib: NameLibrary, denylist: seq<string>): (r: seq<string>)
    ensures forall n :: n in r <==> exists raw :: raw in denylist && lib.normalize(raw) == Some(n)
  {
    if denylist == [] then []
    else
      var rest := NormalizedDenylist(lib, denylist[1..]);
      assert forall raw :: raw in denylist <==> raw == denylist[0] || raw in denylist[1..];
      match lib.normalize(denylist[0])
      case None => rest
      case Some(n) => [n] + rest
  }

  /** What becomes of one raw line: dropped for one reason, or kept under a name and a scope. */
  datatype Fate = NormalizationFailed | IpLiteral | Denylisted | Kept(domain: string, scope: RuleScope)

  function FateOf(lib: NameLibrary, denylist: seq<string>, e: RawEntry): Fate {
    match lib.normalize(e.domain)
    case None => NormalizationFailed
    case Some(n) =>
      if lib.isIpLiteral(n) then IpLiteral
      else
        match ResolveScope(lib, n, e.scopeHint, denylist)
        case None => Denylisted
        case Some(scope) => Kept(n, scope)
  }

  // -------------------------------------------------------------------------
  // What a merge means, said without an order of processing
  // -------------------------------------------------------------------------

  predicate Contributes(lib: NameLibrary, denylist: seq<string>, e: RawEntry, d: string) {
    var f := FateOf(lib, denylist, e);
    f.Kept? && f.domain == d
  }

  ghost function Domains(lib: NameLibrary, denylist: seq<string>, raws: seq<RawEntry>): set<string> {
    set e | e in raws && FateOf(lib, denylist, e).Kept? :: FateOf(lib, denylist, e).domain
  }

  ghost function SourcesOf(lib: NameLibrary, denylist: seq<string>, raws: seq<RawEntry>, d: string): set<SourceId> {
    set e | e in raws && Contributes(lib, denylist, e, d) :: e.source
  }

  ghost function CategoriesOf(lib: NameLibrary, denylist: seq<string>, raws: seq<RawEntry>, d: string): set<Category> {
    set e | e in raws && Contributes(lib, denylist, e, d) :: e.category
  }

  ghost predicate AnyApex(lib: NameLibrary, denylist: seq<string>, raws: seq<RawEntry>, d: string) {
    exists e :: e in raws && FateOf(lib, denylist, e) == Kept(d, Apex)
  }

  ghost predicate Gathers(lib: NameLibrary, denylist: seq<string>, raws: seq<RawEntry>, m: MergedEntry) {
    && (m.scope == Apex <==> AnyApex(lib, denylist, raws, m.domain))
    && Elements(m.sources) == SourcesOf(lib, denylist, raws, m.domain)
    && Elements(m.categories) == CategoriesOf(lib, denylist, raws, m.domain)
    && DistinctKeys(SourceKey, m.sources) && DistinctKeys(CategoryKey, m.categories)
  }

  function CountFate(lib: NameLibrary, denylist: seq<string>, raws: seq<RawEntry>, p: Fate -> bool): nat {
    if raws == [] then 0
    else
      CountFate(lib, denylist, raws[..|raws| - 1], p)
      + (if p(FateOf(lib, denylist, raws[|raws| - 1])) then 1 else 0)
  }

  function ReportFor(lib: NameLibrary, denylist: seq<string>, raws: seq<RawEntry>): MergeReport {
    MergeReport(
      CountFate(lib, denylist, raws, (f: Fate) => f.NormalizationFailed?),
      CountFate(lib, denylist, raws, (f: Fate) => f.Denylisted?),
      CountFate(lib, denylist, raws, (f: Fate) => f.IpLiteral?))
  }

  ghost predicate IsMerge(lib: NameLibrary, denylist: seq<string>, raws: seq<RawEntry>, out: MergeOutput) {
    && StrictlySortedBy(DomainKey, out.entries)
    && (forall m | m in out.entries :: m.domain in Domains(lib, denylist, raws))
    && (forall d | d in Domains(lib, denylist, raws) :: exists m :: m in out.entries && m.domain == d)
    && (forall m | m in out.entries ::
          && Gathers(lib, denylist, raws, m)
          && StrictlySortedBy(SourceKey, m.sources) && StrictlySortedBy(CategoryKey, m.categories))
    && out.report == ReportFor(lib, denylist, raws)
  }

  // -------------------------------------------------------------------------
  // The same without fates
  // -------------------------------------------------------------------------

  function Tally(raws: seq<RawEntry>, p: RawEntry -> bool): nat {
    if raws == [] then 0 else Tally(raws[..|raws| - 1], p) + if p(raws[|raws| - 1]) then 1 else 0
  }

  lemma {:induction false} CountIsTally(lib: NameLibrary, denylist: seq<string>, raws: seq<RawEntry>,
                                        f: Fate -> bool, p: RawEntry -> bool)
    requires forall e :: f(FateOf(lib, denylist, e)) <==> p(e)
    ensures CountFate(lib, denylist, raws, f) == Tally(raws, p)
  {
    if raws != [] { CountIsTally(lib, denylist, raws[..|raws| - 1], f, p); }
  }

  /** Which drop counter a line moves: the first of the three reasons that applies. */
  lemma ReportMeans(lib: NameLibrary, denylist: seq<string>, raws: seq<RawEntry>)
    ensures var report := ReportFor(lib, denylist, raws);
            && report.normalizationFailed == Tally(raws, (e: RawEntry) => lib.normalize(e.domain) == None)
            && report.ipLiteral == Tally(raws, (e: RawEntry) =>
                 lib.normalize(e.domain).Some? && lib.isIpLiteral(lib.normalize(e.domain).value))
            && report.sharedHostingDenylisted == Tally(raws, (e: RawEntry) =>
                 && lib.normalize(e.domain).Some? && !lib.isIpLiteral(lib.normalize(e.domain).value)
                 && lib.normalize(e.domain).value in denylist)
  {
    CountIsTally(lib, denylist, raws, (f: Fate) => f.NormalizationFailed?,
                 (e: RawEntry) => lib.normalize(e.domain) == None);
    CountIsTally(lib, denylist, raws, (f: Fate) => f.IpLiteral?, (e: RawEntry) =>
                 lib.normalize(e.domain).Some? && lib.isIpLiteral(lib.normalize(e.domain).value));
    CountIsTally(lib, denylist, raws, (f: Fate) => f.Denylisted?, (e: RawEntry) =>
                 && lib.normalize(e.domain).Some? && !lib.isIpLiteral(lib.normalize(e.domain).value)
                 && lib.normalize(e.domain).value in denylist);
  }

  /** The line's name normalizes to `d`, which is no address and not on the denylist. */
  predicate SurvivesAs(lib: NameLibrary, denylist: seq<string>, e: RawEntry, d: string) {
    lib.normalize(e.domain) == Some(d) && !lib.isIpLiteral(d) && d !in denylist
  }

  /**
   What a merged entry says, line by line: it is there for every name a line survives under; a source or
   category is listed exactly when such a line has it; it is apex exactly when one of them is a wildcard
   line for a registrable name.
   */
  lemma EntriesMean(lib: NameLibrary, denylist: seq<string>, raws: seq<RawEntry>, out: MergeOutput)
    requires IsMerge(lib, denylist, raws, out)
    ensures forall e, d | e in raws && SurvivesAs(lib, denylist, e, d) :: exists m :: m in out.entries && m.domain == d
    ensures forall m | m in out.entries ::
              && (exists e :: e in raws && SurvivesAs(lib, denylist, e, m.domain))
              && EntryMeans(lib, denylist, raws, m)
  {
    forall e, d | e in raws && SurvivesAs(lib, denylist, e, d) ensures exists m :: m in out.entries && m.domain == d {
      assert Contributes(lib, denylist, e, d);
      assert d in Domains(lib, denylist, raws);
    }
    forall m | m in out.entries
      ensures (exists e :: e in raws && SurvivesAs(lib, denylist, e, m.domain)) && EntryMeans(lib, denylist, raws, m)
    {
      var e :| e in raws && Contributes(lib, denylist, e, m.domain);
      assert SurvivesAs(lib, denylist, e, m.domain);
      OneEntryMeans(lib, denylist, raws, m);
    }
  }

  ghost predicate EntryMeans(lib: NameLibrary, denylist: seq<string>, raws: seq<RawEntry>, m: MergedEntry) {
    && (forall s :: s in m.sources <==>
          exists e :: e in raws && SurvivesAs(lib, denylist, e, m.domain) && e.source == s)
    && (forall c :: c in m.categories <==>
          exists e :: e in raws && SurvivesAs(lib, denylist, e, m.domain) && e.category == c)
    && (m.scope == Apex <==>
          exists e :: e in raws && SurvivesAs(lib, denylist, e, m.domain)
                      && e.scopeHint == ApexHint && lib.registrable(m.domain))
  }

  lemma OneEntryMeans(lib: NameLibrary, denylist: seq<string>, raws: seq<RawEntry>, m: MergedEntry)
    requires Gathers(lib, denylist, raws, m)
    ensures EntryMeans(lib, denylist, raws, m)
  {
    forall s
      ensures s in m.sources <==> exists e :: e in raws && SurvivesAs(lib, denylist, e, m.domain) && e.source == s
    {
      assert s in m.sources <==> s in Elements(m.sources);
      if e :| e in raws && SurvivesAs(lib, denylist, e, m.domain) && e.source == s {
        assert Contributes(lib, denylist, e, m.domain);
      }
    }
    forall c
      ensures c in m.categories <==> exists e :: e in raws && SurvivesAs(lib, denylist, e, m.domain) && e.category == c
    {
      assert c in m.categories <==> c in Elements(m.categories);
      if e :| e in raws && SurvivesAs(lib, denylist, e, m.domain) && e.category == c {
        assert Contributes(lib, denylist, e, m.domain);
      }
    }
  }

  // -------------------------------------------------------------------------
  // The loop
  // -------------------------------------------------------------------------

  function PushNew<T(==)>(xs: seq<T>, x: T): seq<T> {
    if x in xs then xs else xs + [x]
  }

  /** The `and_modify` / `or_insert_with` pair. */
  function Absorb(byDomain: map<string, MergedEntry>, e: RawEntry, d: string, scope: RuleScope)
    : map<string, MergedEntry>
  {
    if d in byDomain then
      var m := byDomain[d];
      byDomain[d := MergedEntry(m.domain, if scope == Apex then Apex else m.scope,
                                PushNew(m.sources, e.source), PushNew(m.categories, e.category))]
    else byDomain[d := MergedEntry(d, scope, [e.source], [e.category])]
  }

  ghost predicate TableFor(lib: NameLibrary, denylist: seq<string>, raws: seq<RawEntry>,
                           byDomain: map<string, MergedEntry>) {
    && byDomain.Keys == Domains(lib, denylist, raws)
    && forall d | d in byDomain :: byDomain[d].domain == d && Gathers(lib, denylist, raws, byDomain[d])
  }

  lemma OneMore(lib: NameLibrary, denylist: seq<string>, raws: seq<RawEntry>, e: RawEntry, d: string)
    ensures var f := FateOf(lib, denylist, e);
            && Domains(lib, denylist, raws + [e])
               == Domains(lib, denylist, raws) + (if f.Kept? then {f.domain} else {})
            && SourcesOf(lib, denylist, raws + [e], d)
               == SourcesOf(lib, denylist, raws, d) + (if Contributes(lib, denylist, e, d) then {e.source} else {})
            && CategoriesOf(lib, denylist, raws + [e], d)
               == CategoriesOf(lib, denylist, raws, d) + (if Contributes(lib, denylist, e, d) then {e.category} else {})
            && (AnyApex(lib, denylist, raws + [e], d) <==> AnyApex(lib, denylist, raws, d) || f == Kept(d, Apex))
  {
    assert forall x :: x in raws + [e] <==> x in raws || x == e;
    if FateOf(lib, denylist, e) == Kept(d, Apex) {
      assert e in raws + [e];
    }
  }

  lemma NoneYet(lib: NameLibrary, denylist: seq<string>, raws: seq<RawEntry>, d: string)
    requires d !in Domains(lib, denylist, raws)
    ensures SourcesOf(lib, denylist, raws, d) == {} && CategoriesOf(lib, denylist, raws, d) == {}
    ensures !AnyApex(lib, denylist, raws, d)
  {
    forall e | e in raws ensures !Contributes(lib, denylist, e, d) {}
  }

  lemma PushKeepsDistinct<T(!new)>(key: T -> seq<int>, xs: seq<T>, x: T)
    requires DistinctKeys(key, xs) && forall y | y in xs :: key(y) == key(x) ==> y == x
    ensures DistinctKeys(key, PushNew(xs, x))
    ensures Elements(PushNew(xs, x)) == Elements(xs) + {x}
  {}

  /** One more line leaves the entries of other domains as they were. */
  lemma EntryElsewhere(lib: NameLibrary, denylist: seq<string>, raws: seq<RawEntry>, e: RawEntry, m: MergedEntry)
    requires Gathers(lib, denylist, raws, m) && !Contributes(lib, denylist, e, m.domain)
    ensures Gathers(lib, denylist, raws + [e], m)
  {
    OneMore(lib, denylist, raws, e, m.domain);
  }

  lemma EntryGrows(lib: NameLibrary, denylist: seq<string>, raws: seq<RawEntry>, e: RawEntry, m: MergedEntry,
                   scope: RuleScope)
    requires Gathers(lib, denylist, raws, m) && FateOf(lib, denylist, e) == Kept(m.domain, scope)
    ensures Gathers(lib, denylist, raws + [e],
                    MergedEntry(m.domain, if scope == Apex then Apex else m.scope,
                                PushNew(m.sources, e.source), PushNew(m.categories, e.category)))
  {
    OneMore(lib, denylist, raws, e, m.domain);
    PushKeepsDistinct(SourceKey, m.sources, e.source);
    PushKeepsDistinct(CategoryKey, m.categories, e.category);
  }

  lemma EntryStarts(lib: NameLibrary, denylist: seq<string>, raws: seq<RawEntry>, e: RawEntry, d: string,
                    scope: RuleScope)
    requires d !in Domains(lib, denylist, raws) && FateOf(lib, denylist, e) == Kept(d, scope)
    ensures Gathers(lib, denylist, raws + [e], MergedEntry(d, scope, [e.source], [e.category]))
  {
    OneMore(lib, denylist, raws, e, d);
    NoneYet(lib, denylist, raws, d);
    assert Elements([e.source]) == {e.source} && Elements([e.category]) == {e.category};
  }

  lemma TableStep(lib: NameLibrary, denylist: seq<string>, raws: seq<RawEntry>,
                  byDomain: map<string, MergedEntry>, e: RawEntry)
    requires TableFor(lib, denylist, raws, byDomain)
    ensures TableFor(lib, denylist, raws + [e], AfterLine(lib, denylist, byDomain, e))
  {
    var f := FateOf(lib, denylist, e);
    var after := AfterLine(lib, denylist, byDomain, e);
    OneMore(lib, denylist, raws, e, "");
    forall d | d in after
      ensures after[d].domain == d && Gathers(lib, denylist, raws + [e], after[d])
    {
      if f.Kept? && f.domain == d {
        if d in byDomain {
          EntryGrows(lib, denylist, raws, e, byDomain[d], f.scope);
        } else {
          EntryStarts(lib, denylist, raws, e, d, f.scope);
        }
      } else {
        EntryElsewhere(lib, denylist, raws, e, byDomain[d]);
      }
    }
  }

  function AfterLine(lib: NameLibrary, denylist: seq<string>, byDomain: map<string, MergedEntry>, e: RawEntry)
    : map<string, MergedEntry>
  {
    var f := FateOf(lib, denylist, e);
    if f.Kept? then Absorb(byDomain, e, f.domain, f.scope) else byDomain
  }

  /** `BTreeMap::into_values`: the values in key order. */
  method IntoValues(m: map<string, MergedEntry>) returns (vs: seq<MergedEntry>)
    requires forall k | k in m :: m[k].domain == k
    ensures StrictlySortedBy(DomainKey, vs)
    ensures forall v :: v in vs <==> v.domain in m && m[v.domain] == v
  {
    forall v, w | v in m.Values && w in m.Values && DomainKey(v) == DomainKey(w) ensures v == w {
      CodesInjective(v.domain, w.domain);
    }
    vs := ListByKey(DomainKey, m.Values);
  }

  method Merge(lib: NameLibrary, rawEntries: seq<RawEntry>, sharedHostingDenylist: seq<string>)
    returns (out: MergeOutput)
    ensures IsMerge(lib, NormalizedDenylist(lib, sharedHostingDenylist), rawEntries, out)
  {
    var denylist := NormalizedDenylist(lib, sharedHostingDenylist);
    var byDomain: map<string, MergedEntry> := map[];
    var report := MergeReport(0, 0, 0);
    for i := 0 to |rawEntries|
      invariant TableFor(lib, denylist, rawEntries[..i], byDomain)
      invariant report == ReportFor(lib, denylist, rawEntries[..i])
    {
      var entry := rawEntries[i];
      assert rawEntries[..i + 1] == rawEntries[..i] + [entry];
      assert rawEntries[..i + 1][..i] == rawEntries[..i];
      TableStep(lib, denylist, rawEntries[..i], byDomain, entry);
      match lib.normalize(entry.domain) {
        case None =>
          report := report.(normalizationFailed := report.normalizationFailed + 1);
        case Some(normalized) =>
          if lib.isIpLiteral(normalized) {
            report := report.(ipLiteral := report.ipLiteral + 1);
          } else {
            match ResolveScope(lib, normalized, entry.scopeHint, denylist) {
              case None =>
                report := report.(sharedHostingDenylisted := report.sharedHostingDenylisted + 1);
              case Some(scope) =>
                byDomain := Absorb(byDomain, entry, normalized, scope);
            }
          }
      }
    }
    assert rawEntries[..|rawEntries|] == rawEntries;
    var sorted := SortLists(byDomain);
    ghost var table := byDomain;
    forall d | d in sorted
      ensures Gathers(lib, denylist, rawEntries, sorted[d])
      ensures StrictlySortedBy(SourceKey, sorted[d].sources) && StrictlySortedBy(CategoryKey, sorted[d].categories)
    {
      SortedListsGather(lib, denylist, rawEntries, table[d]);
    }
    var entries := IntoValues(sorted);
    forall d | d in Domains(lib, denylist, rawEntries) ensures exists m :: m in entries && m.domain == d {
      assert sorted[d] in entries;
    }
    out := MergeOutput(entries, report);
  }

  function WithSortedLists(m: MergedEntry): MergedEntry {
    m.(sources := Sort(SourceKey, m.sources), categories := Sort(CategoryKey, m.categories))
  }

  /** The second pass: `sources.sort()` and `categories.sort()` on every value. */
  function SortLists(m: map<string, MergedEntry>): map<string, MergedEntry> {
    map d | d in m :: WithSortedLists(m[d])
  }

  lemma SortedListsGather(lib: NameLibrary, denylist: seq<string>, raws: seq<RawEntry>, m: MergedEntry)
    requires Gathers(lib, denylist, raws, m)
    ensures var s := WithSortedLists(m);
            && s.domain == m.domain && Gathers(lib, denylist, raws, s)
            && StrictlySortedBy(SourceKey, s.sources) && StrictlySortedBy(CategoryKey, s.categories)
  {
    var s := WithSortedLists(m);
    SortStrict(SourceKey, m.sources);
    SortStrict(CategoryKey, m.categories);
    SameElements(s.sources, m.sources);
    SameElements(s.categories, m.categories);
    assert Elements(s.sources) == Elements(m.sources);
    assert Elements(s.categories) == Elements(m.categories);
  }

  // -------------------------------------------------------------------------
  // Order independence, concatenation, accounting
  // -------------------------------------------------------------------------

  /** The lists of an entry are determined by the lines for its domain. */
  lemma EntryDetermined(lib: NameLibrary, denylist: seq<string>, a: seq<RawEntry>, b: seq<RawEntry>,
                        x: MergedEntry, y: MergedEntry)
    requires Gathers(lib, denylist, a, x) && Gathers(lib, denylist, b, y) && x.domain == y.domain
    requires StrictlySortedBy(SourceKey, x.sources) && StrictlySortedBy(CategoryKey, x.categories)
    requires StrictlySortedBy(SourceKey, y.sources) && StrictlySortedBy(CategoryKey, y.categories)
    requires forall e :: e in a <==> e in b
    ensures x == y
  {
    assert SourcesOf(lib, denylist, a, x.domain) == SourcesOf(lib, denylist, b, y.domain);
    assert CategoriesOf(lib, denylist, a, x.domain) == CategoriesOf(lib, denylist, b, y.domain);
    forall s ensures s in x.sources <==> s in y.sources {
      assert s in x.sources <==> s in Elements(x.sources);
      assert s in y.sources <==> s in Elements(y.sources);
    }
    forall c ensures c in x.categories <==> c in y.categories {
      assert c in x.categories <==> c in Elements(x.categories);
      assert c in y.categories <==> c in Elements(y.categories);
    }
    StrictUnique(SourceKey, x.sources, y.sources);
    StrictUnique(CategoryKey, x.categories, y.categories);
  }

  lemma EntryIn(lib: NameLibrary, denylist: seq<string>, a: seq<RawEntry>, b: seq<RawEntry>,
                outA: MergeOutput, outB: MergeOutput, m: MergedEntry)
    requires IsMerge(lib, denylist, a, outA) && IsMerge(lib, denylist, b, outB)
    requires forall e :: e in a <==> e in b
    requires m in outA.entries
    ensures m in outB.entries
  {
    assert m.domain in Domains(lib, denylist, b);
    var n :| n in outB.entries && n.domain == m.domain;
    EntryDetermined(lib, denylist, a, b, m, n);
  }

  /** The merge of a list of lines depends only on which lines it holds and how often. */
  lemma MergeOrderIndependent(lib: NameLibrary, denylist: seq<string>, a: seq<RawEntry>, b: seq<RawEntry>,
                              outA: MergeOutput, outB: MergeOutput)
    requires IsMerge(lib, denylist, a, outA) && IsMerge(lib, denylist, b, outB)
    requires multiset(a) == multiset(b)
    ensures outA == outB
  {
    SameElements(a, b);
    forall m ensures m in outA.entries <==> m in outB.entries {
      if m in outA.entries { EntryIn(lib, denylist, a, b, outA, outB, m); }
      if m in outB.entries { EntryIn(lib, denylist, b, a, outB, outA, m); }
    }
    StrictUnique(DomainKey, outA.entries, outB.entries);
    CountPermuted(lib, denylist, a, b, (f: Fate) => f.NormalizationFailed?);
    CountPermuted(lib, denylist, a, b, (f: Fate) => f.Denylisted?);
    CountPermuted(lib, denylist, a, b, (f: Fate) => f.IpLiteral?);
  }

  lemma {:induction false} CountConcat(lib: NameLibrary, denylist: seq<string>, a: seq<RawEntry>, b: seq<RawEntry>,
                                       p: Fate -> bool)
    ensures CountFate(lib, denylist, a + b, p) == CountFate(lib, denylist, a, p) + CountFate(lib, denylist, b, p)
  {
    if b == [] {
      assert a + b == a;
    } else {
      assert (a + b)[..|a + b| - 1] == a + b[..|b| - 1];
      CountConcat(lib, denylist, a, b[..|b| - 1], p);
    }
  }

  lemma {:induction false} CountPermuted(lib: NameLibrary, denylist: seq<string>, a: seq<RawEntry>, b: seq<RawEntry>,
                                         p: Fate -> bool)
    requires multiset(a) == multiset(b)
    ensures CountFate(lib, denylist, a, p) == CountFate(lib, denylist, b, p)
  {
    SameElements(a, b);
    if a != [] {
      var last := a[|a| - 1];
      assert last in a;
      var k :| 0 <= k < |b| && b[k] == last;
      var front := a[..|a| - 1];
      assert a == front + [last];
      assert b == b[..k] + [last] + b[k + 1..];
      assert multiset(b[..k] + b[k + 1..]) == multiset(b) - multiset{last};
      assert multiset(front) == multiset(a) - multiset{last};
      CountPermuted(lib, denylist, front, b[..k] + b[k + 1..], p);
      CountConcat(lib, denylist, b[..k], b[k + 1..], p);
      CountConcat(lib, denylist, b[..k] + [last], b[k + 1..], p);
      CountConcat(lib, denylist, b[..k], [last], p);
      CountConcat(lib, denylist, front, [last], p);
    }
  }

  ghost function Find(entries: seq<MergedEntry>, d: string): (r: Option<MergedEntry>)
    ensures r.Some? ==> r.value in entries && r.value.domain == d
    ensures r.None? ==> forall m | m in entries :: m.domain != d
  {
    if exists m :: m in entries && m.domain == d then
      var m :| m in entries && m.domain == d;
      Some(m)
    else None
  }

  /** Pointwise join: union of the label sets, the wider of the scopes. */
  ghost predicate IsJoin(x: Option<MergedEntry>, y: Option<MergedEntry>, z: Option<MergedEntry>) {
    match (x, y)
    case (None, None) => z == None
    case (Some(_), None) => z == x
    case (None, Some(_)) => z == y
    case (Some(p), Some(q)) =>
      && z.Some?
      && z.value.domain == p.domain
      && (z.value.scope == Apex <==> p.scope == Apex || q.scope == Apex)
      && Elements(z.value.sources) == Elements(p.sources) + Elements(q.sources)
      && Elements(z.value.categories) == Elements(p.categories) + Elements(q.categories)
      && StrictlySortedBy(SourceKey, z.value.sources) && StrictlySortedBy(CategoryKey, z.value.categories)
  }

  lemma GatherConcat(lib: NameLibrary, denylist: seq<string>, a: seq<RawEntry>, b: seq<RawEntry>, d: string)
    ensures Domains(lib, denylist, a + b) == Domains(lib, denylist, a) + Domains(lib, denylist, b)
    ensures SourcesOf(lib, denylist, a + b, d) == SourcesOf(lib, denylist, a, d) + SourcesOf(lib, denylist, b, d)
    ensures CategoriesOf(lib, denylist, a + b, d)
         == CategoriesOf(lib, denylist, a, d) + CategoriesOf(lib, denylist, b, d)
    ensures AnyApex(lib, denylist, a + b, d) <==> AnyApex(lib, denylist, a, d) || AnyApex(lib, denylist, b, d)
  {
    assert forall e :: e in a + b <==> e in a || e in b;
    if AnyApex(lib, denylist, a, d) {
      var e :| e in a && FateOf(lib, denylist, e) == Kept(d, Apex);
      assert e in a + b;
    }
    if AnyApex(lib, denylist, b, d) {
      var e :| e in b && FateOf(lib, denylist, e) == Kept(d, Apex);
      assert e in a + b;
    }
  }

  /** Merging a concatenation is the pointwise join of the two merges, and the drop counters add up. */
  lemma MergeConcat(lib: NameLibrary, denylist: seq<string>, a: seq<RawEntry>, b: seq<RawEntry>,
                    outA: MergeOutput, outB: MergeOutput, out: MergeOutput, d: string)
    requires IsMerge(lib, denylist, a, outA) && IsMerge(lib, denylist, b, outB)
    requires IsMerge(lib, denylist, a + b, out)
    ensures IsJoin(Find(outA.entries, d), Find(outB.entries, d), Find(out.entries, d))
    ensures out.report == MergeReport(
      outA.report.normalizationFailed + outB.report.normalizationFailed,
      outA.report.sharedHostingDenylisted + outB.report.sharedHostingDenylisted,
      outA.report.ipLiteral + outB.report.ipLiteral)
  {
    CountConcat(lib, denylist, a, b, (f: Fate) => f.NormalizationFailed?);
    CountConcat(lib, denylist, a, b, (f: Fate) => f.Denylisted?);
    CountConcat(lib, denylist, a, b, (f: Fate) => f.IpLiteral?);
    FindIff(lib, denylist, a, outA, d);
    FindIff(lib, denylist, b, outB, d);
    FindIff(lib, denylist, a + b, out, d);
    JoinFound(lib, denylist, a, b, d, Find(outA.entries, d), Find(outB.entries, d), Find(out.entries, d));
  }

  lemma JoinFound(lib: NameLibrary, denylist: seq<string>, a: seq<RawEntry>, b: seq<RawEntry>, d: string,
                  x: Option<MergedEntry>, y: Option<MergedEntry>, z: Option<MergedEntry>)
    requires Found(lib, denylist, a, d, x) && Found(lib, denylist, b, d, y) && Found(lib, denylist, a + b, d, z)
    ensures IsJoin(x, y, z)
  {
    GatherConcat(lib, denylist, a, b, d);
    if x.Some? && y.None? {
      NoneYet(lib, denylist, b, d);
      OneSided(lib, denylist, a, a + b, x.value, z.value);
    } else if x.None? && y.Some? {
      NoneYet(lib, denylist, a, d);
      OneSided(lib, denylist, b, a + b, y.value, z.value);
    }
  }

  ghost predicate Found(lib: NameLibrary, denylist: seq<string>, raws: seq<RawEntry>, d: string,
                        x: Option<MergedEntry>) {
    && (x.Some? <==> d in Domains(lib, denylist, raws))
    && (x.Some? ==>
          && x.value.domain == d && Gathers(lib, denylist, raws, x.value)
          && StrictlySortedBy(SourceKey, x.value.sources) && StrictlySortedBy(CategoryKey, x.value.categories))
  }

  lemma FindIff(lib: NameLibrary, denylist: seq<string>, raws: seq<RawEntry>, out: MergeOutput, d: string)
    requires IsMerge(lib, denylist, raws, out)
    ensures Found(lib, denylist, raws, d, Find(out.entries, d))
  {}

  lemma OneSided(lib: NameLibrary, denylist: seq<string>, a: seq<RawEntry>, ab: seq<RawEntry>,
                 x: MergedEntry, z: MergedEntry)
    requires Gathers(lib, denylist, a, x) && Gathers(lib, denylist, ab, z) && x.domain == z.domain
    requires StrictlySortedBy(SourceKey, x.sources) && StrictlySortedBy(CategoryKey, x.categories)
    requires StrictlySortedBy(SourceKey, z.sources) && StrictlySortedBy(CategoryKey, z.categories)
    requires SourcesOf(lib, denylist, a, x.domain) == SourcesOf(lib, denylist, ab, x.domain)
    requires CategoriesOf(lib, denylist, a, x.domain) == CategoriesOf(lib, denylist, ab, x.domain)
    requires AnyApex(lib, denylist, a, x.domain) <==> AnyApex(lib, denylist, ab, x.domain)
    ensures x == z
  {
    forall s ensures s in x.sources <==> s in z.sources {
      assert s in x.sources <==> s in Elements(x.sources);
      assert s in z.sources <==> s in Elements(z.sources);
    }
    forall c ensures c in x.categories <==> c in z.categories {
      assert c in x.categories <==> c in Elements(x.categories);
      assert c in z.categories <==> c in Elements(z.categories);
    }
    StrictUnique(SourceKey, x.sources, z.sources);
    StrictUnique(CategoryKey, x.categories, z.categories);
  }

  /** How many raw lines landed in the entry for `d`. */
  function Contributors(lib: NameLibrary, denylist: seq<string>, raws: seq<RawEntry>, d: string): nat {
    CountFate(lib, denylist, raws, (f: Fate) => f.Kept? && f.domain == d)
  }

  function TotalContributors(lib: NameLibrary, denylist: seq<string>, raws: seq<RawEntry>, entries: seq<MergedEntry>)
    : nat
  {
    if entries == [] then 0
    else Contributors(lib, denylist, raws, entries[0].domain) + TotalContributors(lib, denylist, raws, entries[1..])
  }

  function Matching(entries: seq<MergedEntry>, d: string): nat {
    if entries == [] then 0 else (if entries[0].domain == d then 1 else 0) + Matching(entries[1..], d)
  }

  function LineMatches(lib: NameLibrary, denylist: seq<string>, e: RawEntry, entries: seq<MergedEntry>): nat {
    var f := FateOf(lib, denylist, e);
    if f.Kept? then Matching(entries, f.domain) else 0
  }

  lemma {:induction false} MatchingNone(entries: seq<MergedEntry>, d: string)
    requires forall m | m in entries :: m.domain != d
    ensures Matching(entries, d) == 0
  {
    if entries != [] { MatchingNone(entries[1..], d); }
  }

  lemma {:induction false} MatchingOne(entries: seq<MergedEntry>, d: string)
    requires StrictlySortedBy(DomainKey, entries)
    requires exists m :: m in entries && m.domain == d
    ensures Matching(entries, d) == 1
  {
    if entries[0].domain == d {
      forall m | m in entries[1..] ensures m.domain != d {
        var k :| 0 <= k < |entries| - 1 && entries[1..][k] == m;
        assert LexLt(DomainKey(entries[0]), DomainKey(entries[k + 1]));
      }
      MatchingNone(entries[1..], d);
    } else {
      var m :| m in entries && m.domain == d;
      assert m in entries[1..];
      MatchingOne(entries[1..], d);
    }
  }

  lemma {:induction false} TotalStep(lib: NameLibrary, denylist: seq<string>, raws: seq<RawEntry>, e: RawEntry,
                                     entries: seq<MergedEntry>)
    ensures TotalContributors(lib, denylist, raws + [e], entries)
         == TotalContributors(lib, denylist, raws, entries) + LineMatches(lib, denylist, e, entries)
  {
    if entries != [] {
      TotalStep(lib, denylist, raws, e, entries[1..]);
      assert (raws + [e])[..|raws|] == raws;
    }
  }

  lemma {:induction false} TotalIsKept(lib: NameLibrary, denylist: seq<string>, raws: seq<RawEntry>, n: nat,
                                       out: MergeOutput)
    requires IsMerge(lib, denylist, raws, out) && n <= |raws|
    ensures TotalContributors(lib, denylist, raws[..n], out.entries)
         == CountFate(lib, denylist, raws[..n], (f: Fate) => f.Kept?)
  {
    if n == 0 {
      TotalOfNothing(lib, denylist, out.entries);
    } else {
      TotalIsKept(lib, denylist, raws, n - 1, out);
      var e := raws[n - 1];
      assert raws[..n] == raws[..n - 1] + [e];
      TotalStep(lib, denylist, raws[..n - 1], e, out.entries);
      var f := FateOf(lib, denylist, e);
      if f.Kept? {
        assert e in raws && f.domain in Domains(lib, denylist, raws);
        MatchingOne(out.entries, f.domain);
      }
    }
  }

  lemma {:induction false} TotalOfNothing(lib: NameLibrary, denylist: seq<string>, entries: seq<MergedEntry>)
    ensures TotalContributors(lib, denylist, [], entries) == 0
  {
    if entries != [] { TotalOfNothing(lib, denylist, entries[1..]); }
  }

  lemma {:induction false} FatesPartition(lib: NameLibrary, denylist: seq<string>, raws: seq<RawEntry>)
    ensures |raws| == CountFate(lib, denylist, raws, (f: Fate) => f.NormalizationFailed?)
                    + CountFate(lib, denylist, raws, (f: Fate) => f.Denylisted?)
                    + CountFate(lib, denylist, raws, (f: Fate) => f.IpLiteral?)
                    + CountFate(lib, denylist, raws, (f: Fate) => f.Kept?)
  {
    if raws != [] { FatesPartition(lib, denylist, raws[..|raws| - 1]); }
  }

  /** No line is lost or counted twice: drops plus the lines behind the output entries make the input. */
  lemma MergeAccounts(lib: NameLibrary, denylist: seq<string>, raws: seq<RawEntry>, out: MergeOutput)
    requires IsMerge(lib, denylist, raws, out)
    ensures |raws| == out.report.normalizationFailed + out.report.sharedHostingDenylisted + out.report.ipLiteral
                    + TotalContributors(lib, denylist, raws, out.entries)
    ensures forall e | e in raws && FateOf(lib, denylist, e).Kept? ::
              Matching(out.entries, FateOf(lib, denylist, e).domain) == 1
  {
    TotalIsKept(lib, denylist, raws, |raws|, out);
    assert raws[..|raws|] == raws;
    FatesPartition(lib, denylist, raws);
    forall e | e in raws && FateOf(lib, denylist, e).Kept?
      ensures Matching(out.entries, FateOf(lib, denylist, e).domain) == 1
    {
      assert FateOf(lib, denylist, e).domain in Domains(lib, denylist, raws);
      MatchingOne(out.entries, FateOf(lib, denylist, e).domain);
    }
  }
}
