/** The plan ledger: listing steps in dependency order, validating them, and choosing the next one. */
module Ledger {
  import opened Graphs
  import opened Wrappers
  import opened Orders
  import opened Scheduling

  datatype Status = Pending | AtPr | Done | BadStatus(text: string)

  datatype Acceptance = Code | Observation | Product | BadAcceptance(text: string)

  datatype Kind = Feature | Bug | BadKind(text: string)

  datatype Difficulty = Normal | Hard | BadDifficulty(text: string)

  datatype Milestone = NoMilestone | Mvp | BadMilestone(text: string)

  /** `hasEvidence`: the evidence is not blank.  An empty `group` or `regressedStep` is none. */
  datatype Step = Step(
    id: string, status: Status, hasEvidence: bool, acceptance: Acceptance, dependsOn: seq<string>,
    kind: Kind, regressedStep: string, difficulty: Difficulty, group: string, milestone: Milestone)

  // -------------------------------------------------------------------------
  // Order
  // -------------------------------------------------------------------------

  function Flag(b: bool): int {
    if b then 1 else 0
  }

  /** Bugs first, then milestone steps, then grouped ones by group, then by id. */
  function StepKey(s: Step): seq<int> {
    [Flag(s.kind != Bug), Flag(s.milestone == NoMilestone), Flag(s.group == "")] + (Codes(s.group) + [0] + Codes(s.id))
  }

  lemma KeyTellsId(a: Step, b: Step)
    requires StepKey(a) == StepKey(b)
    ensures a.id == b.id
  {
    assert StepKey(a)[3..] == Codes(a.group) + [0] + Codes(a.id);
    assert StepKey(b)[3..] == Codes(b.group) + [0] + Codes(b.id);
    PairInjective(Codes(a.group), Codes(a.id), Codes(b.group), Codes(b.id));
    CodesInjective(a.id, b.id);
  }

  /** The order of the tuples (not a bug, no milestone, no group, group, id). */
  predicate ComesBefore(a: Step, b: Step) {
    if (a.kind == Bug) != (b.kind == Bug) then a.kind == Bug
    else if (a.milestone == NoMilestone) != (b.milestone == NoMilestone) then a.milestone != NoMilestone
    else if (a.group == "") != (b.group == "") then a.group != ""
    else if a.group != b.group then LexLt(Codes(a.group), Codes(b.group))
    else LexLe(Codes(a.id), Codes(b.id))
  }

  lemma LexCons(x: int, u: seq<int>, y: int, v: seq<int>)
    ensures LexLe([x] + u, [y] + v) <==> x < y || (x == y && LexLe(u, v))
  {
    assert ([x] + u)[1..] == u && ([y] + v)[1..] == v;
  }

  /** Comparing keys is comparing those tuples. */
  lemma KeyIsTupleOrder(a: Step, b: Step)
    ensures LexLe(StepKey(a), StepKey(b)) <==> ComesBefore(a, b)
  {
    var ga, gb := GroupKey(a), GroupKey(b);
    var ma, mb := [Flag(a.milestone == NoMilestone)] + ga, [Flag(b.milestone == NoMilestone)] + gb;
    assert StepKey(a) == [Flag(a.kind != Bug)] + ma && StepKey(b) == [Flag(b.kind != Bug)] + mb;
    LexCons(Flag(a.kind != Bug), ma, Flag(b.kind != Bug), mb);
    LexCons(Flag(a.milestone == NoMilestone), ga, Flag(b.milestone == NoMilestone), gb);
    GroupKeyIsOrder(a, b);
  }

  /** The last three parts of the key. */
  function GroupKey(s: Step): seq<int> {
    [Flag(s.group == "")] + (Codes(s.group) + [0] + Codes(s.id))
  }

  lemma GroupKeyIsOrder(a: Step, b: Step)
    ensures LexLe(GroupKey(a), GroupKey(b)) <==>
              if (a.group == "") != (b.group == "") then a.group != ""
              else if a.group != b.group then LexLt(Codes(a.group), Codes(b.group))
              else LexLe(Codes(a.id), Codes(b.id))
  {
    LexCons(Flag(a.group == ""), Codes(a.group) + [0] + Codes(a.id),
            Flag(b.group == ""), Codes(b.group) + [0] + Codes(b.id));
    LexPair(Codes(a.group), Codes(a.id), Codes(b.group), Codes(b.id));
    if Codes(a.group) == Codes(b.group) {
      CodesInjective(a.group, b.group);
    }
  }

  type Index = byId: map<string, Step> | forall i | i in byId :: byId[i].id == i witness map[]

  /** The dictionary of the steps: a later step of the same id replaces an earlier one. */
  function ById(steps: seq<Step>): Index {
    if steps == [] then map[]
    else
      var n := |steps| - 1;
      ById(steps[..n])[steps[n].id := steps[n]]
  }

  /** An id stands for the last step that has it. */
  lemma {:induction false} LastWins(steps: seq<Step>, k: nat)
    requires k < |steps| && forall j | k < j < |steps| :: steps[j].id != steps[k].id
    ensures steps[k].id in ById(steps) && ById(steps)[steps[k].id] == steps[k]
  {
    if k < |steps| - 1 {
      LastWins(steps[..|steps| - 1], k);
    }
  }

  function WaitingOf(byId: Index): Graph<string> {
    map i | i in byId :: set d | d in byId[i].dependsOn && d in byId && d != i
  }

  function KeyIn(byId: Index): string -> seq<int> {
    (i: string) => if i in byId then StepKey(byId[i]) else []
  }

  function Ids(steps: seq<Step>): seq<string> {
    seq(|steps|, i requires 0 <= i < |steps| => steps[i].id)
  }

  /** `ordered` is the schedule of the steps' graph, step for step. */
  ghost predicate IsSchedule(byId: Index, ordered: seq<Step>) {
    && IsOrder(WaitingOf(byId), KeyIn(byId), Ids(ordered))
    && forall s | s in ordered :: s.id in byId && byId[s.id] == s
  }

  lemma KeysDifferIn(byId: Index)
    ensures KeysDiffer(KeyIn(byId), byId.Keys)
  {
    forall i, j | i in byId && j in byId && KeyIn(byId)(i) == KeyIn(byId)(j) ensures i == j {
      KeyTellsId(byId[i], byId[j]);
    }
  }

  function StepsOf(byId: Index, ids: seq<string>): seq<Step>
    requires forall i | i in ids :: i in byId
  {
    seq(|ids|, k requires 0 <= k < |ids| => byId[ids[k]])
  }

  lemma ScheduleOf(byId: Index, ids: seq<string>)
    requires IsOrder(WaitingOf(byId), KeyIn(byId), ids)
    ensures forall i | i in ids :: i in byId
    ensures IsSchedule(byId, StepsOf(byId, ids))
  {
    OrderIsPermutation(WaitingOf(byId), KeyIn(byId), ids);
    forall k | 0 <= k < |ids| ensures ids[k] in byId && byId[ids[k]].id == ids[k] {
      assert ids[k] in ids;
    }
    assert Ids(StepsOf(byId, ids)) == ids;
  }

  method OrderSteps(steps: seq<Step>) returns (ordered: seq<Step>)
    ensures IsSchedule(ById(steps), ordered)
  {
    var byId := Collect(steps);
    var key := KeyIn(byId);
    var waiting := WaitingOf(byId);
    ghost var g := waiting;
    var ids: seq<string> := [];
    while waiting != map[]
      invariant Taken(g, key, ids, waiting) && waiting.Keys <= byId.Keys
      invariant forall i | i in ids :: i in byId
      decreases |waiting.Keys|
    {
      var ready := Ready(waiting);
      if ready == {} {
        KeysDifferIn(byId);
        var rest := ListByKey(key, waiting.Keys);
        TakenThenOrder(g, key, ids, waiting, rest);
        ScheduleOf(byId, ids + rest);
        return StepsOf(byId, ids + rest);
      }
      var chosen := Least(key, ready);
      TakenOneMore(g, key, ids, waiting, chosen);
      WithoutShrinks(waiting, chosen);
      ids := ids + [chosen];
      waiting := Without(waiting, chosen);
    }
    TakenThenOrder(g, key, ids, waiting, []);
    assert ids + [] == ids;
    ScheduleOf(byId, ids);
    return StepsOf(byId, ids);
  }

  method Collect(steps: seq<Step>) returns (byId: Index)
    ensures byId == ById(steps)
  {
    byId := map[];
    for i := 0 to |steps|
      invariant byId == ById(steps[..i])
    {
      assert steps[..i + 1][..i] == steps[..i];
      byId := byId[steps[i].id := steps[i]];
    }
    assert steps[..|steps|] == steps;
  }

  // -------------------------------------------------------------------------
  // What the schedule promises
  // -------------------------------------------------------------------------

  ghost predicate DistinctIds(steps: seq<Step>) {
    forall i, j | 0 <= i < j < |steps| :: steps[i].id != steps[j].id
  }

  lemma {:induction false} ByIdMeans(steps: seq<Step>)
    requires DistinctIds(steps)
    ensures forall s :: s in steps <==> s.id in ById(steps) && ById(steps)[s.id] == s
    ensures forall i :: i in ById(steps) <==> exists s :: s in steps && s.id == i
  {
    if steps != [] {
      var n := |steps| - 1;
      ByIdMeans(steps[..n]);
      assert forall s :: s in steps <==> s in steps[..n] || s == steps[n];
      assert forall s | s in steps[..n] :: s.id != steps[n].id;
    }
  }

  lemma ByIdPermuted(a: seq<Step>, b: seq<Step>)
    requires multiset(a) == multiset(b) && DistinctIds(a) && DistinctIds(b)
    ensures ById(a) == ById(b)
  {
    SameElements(a, b);
    ByIdMeans(a);
    ByIdMeans(b);
    var byA, byB := ById(a), ById(b);
    forall i ensures i in byA <==> i in byB {
      if i in byA { assert byA[i] in a; assert byA[i] in b; }
      if i in byB { assert byB[i] in b; assert byB[i] in a; }
    }
    forall i | i in byA ensures byA[i] == byB[i] {
      assert byA[i] in a;
      assert byA[i] in b;
    }
  }

  /** The order depends on the steps alone, not on the order they were read in. */
  lemma ScheduleIgnoresInputOrder(a: seq<Step>, b: seq<Step>, ordA: seq<Step>, ordB: seq<Step>)
    requires multiset(a) == multiset(b) && DistinctIds(a) && DistinctIds(b)
    requires IsSchedule(ById(a), ordA) && IsSchedule(ById(b), ordB)
    ensures ordA == ordB
  {
    ByIdPermuted(a, b);
    var byId := ById(a);
    KeysDifferIn(byId);
    OrderIsUnique(WaitingOf(byId), KeyIn(byId), Ids(ordA), Ids(ordB));
    assert |ordA| == |Ids(ordA)| == |Ids(ordB)| == |ordB|;
    forall k | 0 <= k < |ordA| ensures ordA[k] == ordB[k] {
      assert Ids(ordA)[k] == Ids(ordB)[k];
      assert ordA[k] in ordA && ordB[k] in ordB;
    }
  }

  lemma WaitingIsClosed(byId: Index)
    ensures Closed(WaitingOf(byId))
  {}

  /** Another known step this one depends on. */
  predicate WaitsOn(byId: Index, a: string, b: string) {
    a in byId && b in byId && b != a && b in byId[a].dependsOn
  }

  /** Going from dependency to dependency one can come from `i` to a step a second time. */
  ghost predicate LeadsToCycle(byId: Index, i: string) {
    exists w: seq<string> ::
      w != [] && w[0] == i && (forall k | 0 < k < |w| :: WaitsOn(byId, w[k - 1], w[k])) && Returns(w)
  }

  lemma CycleIff(byId: Index, i: string)
    ensures LeadsToCycle(byId, i) <==> ReachesCycle(WaitingOf(byId), i)
  {
    forall a, b ensures WaitsOn(byId, a, b) <==> Edge(WaitingOf(byId), a, b) {}
    if w: seq<string> :| w != [] && w[0] == i && (forall k | 0 < k < |w| :: WaitsOn(byId, w[k - 1], w[k]))
                         && Returns(w) {
      assert Walk(WaitingOf(byId), w);
    }
    if w: seq<string> :| Walk(WaitingOf(byId), w) && w[0] == i && Returns(w) {
      forall k | 0 < k < |w| ensures WaitsOn(byId, w[k - 1], w[k]) {
        assert Edge(WaitingOf(byId), w[k - 1], w[k]);
      }
    }
  }

  /** Known steps, each once and after every other known step it depends on. */
  ghost predicate InOrder(byId: Index, xs: seq<string>) {
    && (forall i, j | 0 <= i < j < |xs| :: xs[i] != xs[j])
    && (forall p | 0 <= p < |xs| :: xs[p] in byId && forall d | WaitsOn(byId, xs[p], d) :: d in xs[..p])
  }

  lemma InOrderIff(byId: Index, xs: seq<string>)
    ensures InOrder(byId, xs) <==> Legal(WaitingOf(byId), xs)
  {
    forall a, b | a in byId ensures WaitsOn(byId, a, b) <==> b in WaitingOf(byId)[a] {}
  }

  /**
   Every step is listed once.  Up to some place each step comes after all known steps it depends on, no
   legal order gets further or comes earlier by key, and from there on are exactly the steps from which a
   dependency cycle of other steps can be reached, by key.
   */
  lemma ScheduleMeans(byId: Index, ordered: seq<Step>) returns (n: nat)
    requires IsSchedule(byId, ordered)
    ensures n <= |ordered| && DistinctIds(ordered)
    ensures forall i :: i in byId <==> i in Ids(ordered)
    ensures forall p, d | 0 <= p < n && d in ordered[p].dependsOn && d in byId && d != ordered[p].id ::
              d in Ids(ordered)[..p]
    ensures forall p | 0 <= p < |ordered| :: p >= n <==> LeadsToCycle(byId, ordered[p].id)
    ensures StrictlySortedBy(KeyIn(byId), Ids(ordered)[n..])
    ensures InOrder(byId, Ids(ordered)[..n])
    ensures forall xs | InOrder(byId, xs) ::
              && |xs| <= n && Elements(xs) <= Elements(Ids(ordered)[..n])
              && (|xs| == n ==> NotAfter(KeyIn(byId), Ids(ordered)[..n], xs))
  {
    var g, key, out := WaitingOf(byId), KeyIn(byId), Ids(ordered);
    WaitingIsClosed(byId);
    KeysDifferIn(byId);
    OrderIsPermutation(g, key, out);
    n := Ordered(g, key, out);
    forall i, j | 0 <= i < j < |ordered| ensures ordered[i].id != ordered[j].id {
      assert out[i] != out[j];
    }
    forall p, d | 0 <= p < n && d in ordered[p].dependsOn && d in byId && d != ordered[p].id ensures d in out[..p] {
      assert ordered[p] in ordered;
      DependenciesFirst(g, key, out, p, d);
      var q :| 0 <= q < p && out[q] == d;
      assert out[..p][q] == d;
    }
    forall p | 0 <= p < |ordered| ensures p >= n <==> LeadsToCycle(byId, ordered[p].id) {
      TailIff(g, key, out, p);
      CycleIff(byId, ordered[p].id);
    }
    TailIsStuck(g, key, out);
    OrderIsLegal(g, key, out);
    InOrderIff(byId, out[..n]);
    OrderIsBest(g, key, out);
    forall xs | InOrder(byId, xs) ensures Legal(g, xs) {
      InOrderIff(byId, xs);
    }
  }
}
