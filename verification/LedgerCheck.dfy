/** Validating a manifest, choosing the next step, and what a clean manifest guarantees. */
module LedgerCheck {
  import opened Graphs
  import opened Orders
  import opened Wrappers
  import opened Scheduling
  import opened Ledger
  import opened Cycles

  datatype Problem =
    | DuplicateId(id: string)
    | InvalidStatus(id: string)
    | DoneWithoutEvidence(id: string)
    | InvalidAcceptance(id: string)
    | InvalidKind(id: string)
    | InvalidDifficulty(id: string)
    | InvalidGroup(id: string)
    | InvalidMilestone(id: string)
    | UnknownRegressed(id: string)
    | SelfDependency(id: string)
    | UnknownDependency(id: string, dep: string)
    | DoneBeforeDependency(id: string, dep: string)
    | MilestoneWaits(id: string, dep: string)
    | DependencyCycle(nodes: seq<string>)
    | DuplicateMarker(marker: string)
    | UnknownMarker(marker: string)

  predicate ValidGroup(group: string) {
    group != "" && forall c | c in group :: 'a' <= c <= 'z' || '0' <= c <= '9' || c == '-'
  }

  /** Problem `p` is there because of step `s`; `earlier` are the ids before it, `ids` all of them. */
  predicate StepFault(s: Step, earlier: set<string>, ids: set<string>, p: Problem) {
    match p
    case DuplicateId(i) => i == s.id && i in earlier
    case InvalidStatus(i) => i == s.id && s.status.BadStatus?
    case DoneWithoutEvidence(i) => i == s.id && s.status == Done && !s.hasEvidence
    case InvalidAcceptance(i) => i == s.id && s.acceptance.BadAcceptance?
    case InvalidKind(i) => i == s.id && s.kind.BadKind?
    case InvalidDifficulty(i) => i == s.id && s.difficulty.BadDifficulty?
    case InvalidGroup(i) => i == s.id && s.group != "" && !ValidGroup(s.group)
    case InvalidMilestone(i) => i == s.id && s.milestone.BadMilestone?
    case UnknownRegressed(i) => i == s.id && s.regressedStep != "" && s.regressedStep !in ids
    case _ => false
  }

  /** Problem `p` is there because step `s` depends on `d`. */
  predicate DependencyFault(byId: Index, done: set<string>, s: Step, d: string, p: Problem) {
    match p
    case SelfDependency(i) => i == s.id == d
    case UnknownDependency(i, e) => i == s.id && e == d != s.id && d !in byId
    case DoneBeforeDependency(i, e) => i == s.id && e == d != s.id && d in byId && s.status == Done && d !in done
    case MilestoneWaits(i, e) =>
      && i == s.id && e == d != s.id && d in byId && s.status != Done && d !in done
      && s.milestone != NoMilestone && byId[d].milestone == NoMilestone
    case _ => false
  }

  predicate MarkerFault(ids: set<string>, markers: seq<string>, p: Problem) {
    match p
    case DuplicateMarker(m) => multiset(markers)[m] > 1
    case UnknownMarker(m) => m in markers && m !in ids
    case _ => false
  }

  function IdSet(steps: seq<Step>): set<string> {
    set s | s in steps :: s.id
  }

  function DoneIds(steps: seq<Step>): set<string> {
    set s | s in steps && s.status == Done :: s.id
  }

  function DepsOf(byId: Index): Deps<string> {
    map i | i in byId :: byId[i].dependsOn
  }

  ghost predicate StepsFault(steps: seq<Step>, n: nat, p: Problem)
    requires n <= |steps|
  {
    exists i :: 0 <= i < n && StepFault(steps[i], IdSet(steps[..i]), IdSet(steps), p)
  }

  ghost predicate DependenciesFault(steps: seq<Step>, n: nat, p: Problem)
    requires n <= |steps|
  {
    exists i, d :: 0 <= i < n && d in steps[i].dependsOn
                   && DependencyFault(ById(steps), DoneIds(steps), steps[i], d, p)
  }

  /** Everything that can be wrong with a manifest, one fault at a time, cycles aside. */
  ghost predicate Faulty(steps: seq<Step>, markers: seq<string>, p: Problem) {
    StepsFault(steps, |steps|, p) || DependenciesFault(steps, |steps|, p) || MarkerFault(IdSet(steps), markers, p)
  }

  ghost predicate Clean(steps: seq<Step>, markers: seq<string>) {
    (forall p: Problem :: !Faulty(steps, markers, p)) && Acyclic(DepsOf(ById(steps)))
  }

  function When(b: bool, p: Problem): seq<Problem> {
    if b then [p] else []
  }

  function StepProblems(s: Step, seen: set<string>, ids: set<string>): seq<Problem> {
    RecordProblems(s, seen) + EnumProblems(s) + LabelProblems(s, ids)
  }

  function RecordProblems(s: Step, seen: set<string>): seq<Problem> {
    When(s.id in seen, DuplicateId(s.id))
    + When(s.status.BadStatus?, InvalidStatus(s.id))
    + When(s.status == Done && !s.hasEvidence, DoneWithoutEvidence(s.id))
  }

  function EnumProblems(s: Step): seq<Problem> {
    When(s.acceptance.BadAcceptance?, InvalidAcceptance(s.id))
    + When(s.kind.BadKind?, InvalidKind(s.id))
    + When(s.difficulty.BadDifficulty?, InvalidDifficulty(s.id))
  }

  function LabelProblems(s: Step, ids: set<string>): seq<Problem> {
    When(s.group != "" && !ValidGroup(s.group), InvalidGroup(s.id))
    + When(s.milestone.BadMilestone?, InvalidMilestone(s.id))
    + When(s.regressedStep != "" && s.regressedStep !in ids, UnknownRegressed(s.id))
  }

  lemma InThree<T>(a: seq<T>, b: seq<T>, c: seq<T>, x: T)
    ensures x in a + b + c <==> x in a || x in b || x in c
  {}

  lemma StepProblemsMean(s: Step, seen: set<string>, ids: set<string>, p: Problem)
    ensures p in StepProblems(s, seen, ids) <==> StepFault(s, seen, ids, p)
  {
    InThree(RecordProblems(s, seen), EnumProblems(s), LabelProblems(s, ids), p);
    InThree(When(s.id in seen, DuplicateId(s.id)), When(s.status.BadStatus?, InvalidStatus(s.id)),
            When(s.status == Done && !s.hasEvidence, DoneWithoutEvidence(s.id)), p);
    InThree(When(s.acceptance.BadAcceptance?, InvalidAcceptance(s.id)), When(s.kind.BadKind?, InvalidKind(s.id)),
            When(s.difficulty.BadDifficulty?, InvalidDifficulty(s.id)), p);
    InThree(When(s.group != "" && !ValidGroup(s.group), InvalidGroup(s.id)),
            When(s.milestone.BadMilestone?, InvalidMilestone(s.id)),
            When(s.regressedStep != "" && s.regressedStep !in ids, UnknownRegressed(s.id)), p);
  }

  function DependencyProblem(byId: Index, done: set<string>, s: Step, d: string): seq<Problem> {
    if d == s.id then [SelfDependency(s.id)]
    else if d !in byId then [UnknownDependency(s.id, d)]
    else if s.status == Done && d !in done then [DoneBeforeDependency(s.id, d)]
    else if s.milestone != NoMilestone && byId[d].milestone == NoMilestone && d !in done then [MilestoneWaits(s.id, d)]
    else []
  }

  lemma DependencyProblemMeans(byId: Index, done: set<string>, s: Step, d: string, p: Problem)
    ensures p in DependencyProblem(byId, done, s, d) <==> DependencyFault(byId, done, s, d, p)
  {}

  method CheckSteps(steps: seq<Step>) returns (problems: seq<Problem>)
    ensures forall p :: p in problems <==> StepsFault(steps, |steps|, p)
  {
    problems := [];
    var ids := IdSet(steps);
    var seen: set<string> := {};
    for i := 0 to |steps|
      invariant seen == IdSet(steps[..i])
      invariant forall p :: p in problems <==> StepsFault(steps, i, p)
    {
      var more := StepProblems(steps[i], seen, ids);
      forall p ensures p in problems + more <==> StepsFault(steps, i + 1, p) {
        StepProblemsMean(steps[i], seen, ids, p);
      }
      problems := problems + more;
      seen := seen + {steps[i].id};
      assert forall s :: s in steps[..i + 1] <==> s in steps[..i] || s == steps[i];
    }
  }

  ghost predicate DependencyFaultOf(byId: Index, done: set<string>, s: Step, n: nat, p: Problem)
    requires n <= |s.dependsOn|
  {
    exists d :: d in s.dependsOn[..n] && DependencyFault(byId, done, s, d, p)
  }

  method CheckStepDependencies(byId: Index, done: set<string>, s: Step) returns (problems: seq<Problem>)
    ensures forall p :: p in problems <==> DependencyFaultOf(byId, done, s, |s.dependsOn|, p)
  {
    problems := [];
    for j := 0 to |s.dependsOn|
      invariant forall p :: p in problems <==> DependencyFaultOf(byId, done, s, j, p)
    {
      var d := s.dependsOn[j];
      var more := DependencyProblem(byId, done, s, d);
      assert forall e :: e in s.dependsOn[..j + 1] <==> e in s.dependsOn[..j] || e == d;
      forall p ensures p in problems + more <==> DependencyFaultOf(byId, done, s, j + 1, p) {
        DependencyProblemMeans(byId, done, s, d, p);
      }
      problems := problems + more;
    }
  }

  method CheckAllDependencies(steps: seq<Step>, byId: Index) returns (problems: seq<Problem>)
    requires byId == ById(steps)
    ensures forall p :: p in problems <==> DependenciesFault(steps, |steps|, p)
  {
    problems := [];
    var done := DoneIds(steps);
    for i := 0 to |steps|
      invariant forall p :: p in problems <==> DependenciesFault(steps, i, p)
    {
      var more := CheckStepDependencies(byId, done, steps[i]);
      assert steps[i].dependsOn[..|steps[i].dependsOn|] == steps[i].dependsOn;
      problems := problems + more;
    }
  }

  method CheckDependencies(steps: seq<Step>) returns (problems: seq<Problem>)
    ensures forall p: Problem | !p.DependencyCycle? :: p in problems <==> DependenciesFault(steps, |steps|, p)
    ensures forall c | DependencyCycle(c) in problems :: SimpleCycle(DepsOf(ById(steps)), c)
    ensures (forall c :: DependencyCycle(c) !in problems) <==> Acyclic(DepsOf(ById(steps)))
  {
    var byId := Collect(steps);
    problems := CheckAllDependencies(steps, byId);
    IdsAreKeys(steps);
    var cycles := FindCycles(DepsOf(byId), Ids(steps));
    ghost var faults := problems;
    var reported := ReportCycles(cycles);
    problems := problems + reported;
    assert forall c :: DependencyCycle(c) !in faults;
    assert cycles != [] ==> DependencyCycle(cycles[0]) in problems;
  }

  method ReportCycles(cycles: seq<seq<string>>) returns (problems: seq<Problem>)
    ensures forall p :: p in problems <==> p.DependencyCycle? && p.nodes in cycles
  {
    problems := [];
    for k := 0 to |cycles|
      invariant forall p :: p in problems <==> p.DependencyCycle? && p.nodes in cycles[..k]
    {
      assert forall c :: c in cycles[..k + 1] <==> c in cycles[..k] || c == cycles[k];
      problems := problems + [DependencyCycle(cycles[k])];
    }
    assert cycles[..|cycles|] == cycles;
  }

  lemma {:induction false} IdsAreKeys(steps: seq<Step>)
    ensures forall i :: i in Ids(steps) <==> i in ById(steps)
  {
    if steps != [] {
      var n := |steps| - 1;
      IdsAreKeys(steps[..n]);
      assert Ids(steps) == Ids(steps[..n]) + [steps[n].id];
    }
  }

  method CheckMarkers(ids: set<string>, markers: seq<string>) returns (problems: seq<Problem>)
    ensures forall p :: p in problems <==> MarkerFault(ids, markers, p)
  {
    var counts: map<string, nat> := map[];
    for i := 0 to |markers|
      invariant forall m :: m in counts <==> m in markers[..i]
      invariant forall m | m in counts :: counts[m] == multiset(markers[..i])[m]
    {
      assert markers[..i + 1] == markers[..i] + [markers[i]];
      var m := markers[i];
      counts := counts[m := (if m in counts then counts[m] else 0) + 1];
    }
    assert markers[..|markers|] == markers;
    problems := [];
    var rest := counts.Keys;
    while rest != {}
      invariant rest <= counts.Keys
      invariant forall p :: p in problems <==> MarkerFault(ids, markers, p) && MarkerOf(p) !in rest
      decreases rest
    {
      var m :| m in rest;
      problems := problems + When(counts[m] > 1, DuplicateMarker(m)) + When(m !in ids, UnknownMarker(m));
      rest := rest - {m};
    }
  }

  function MarkerOf(p: Problem): string {
    match p
    case DuplicateMarker(m) => m
    case UnknownMarker(m) => m
    case _ => ""
  }

  /** Reports every fault there is and no other, and a cycle if and only if there is one. */
  method Validate(steps: seq<Step>, markers: seq<string>) returns (problems: seq<Problem>)
    ensures forall p: Problem | !p.DependencyCycle? :: p in problems <==> Faulty(steps, markers, p)
    ensures forall c | DependencyCycle(c) in problems :: SimpleCycle(DepsOf(ById(steps)), c)
    ensures problems == [] <==> Clean(steps, markers)
  {
    var a := CheckSteps(steps);
    var b := CheckDependencies(steps);
    var c := CheckMarkers(IdSet(steps), markers);
    problems := a + b + c;
    assert problems != [] ==> problems[0] in problems;
    assert forall nodes :: !Faulty(steps, markers, DependencyCycle(nodes));
  }

  // -------------------------------------------------------------------------
  // The faults, in terms of the steps
  // -------------------------------------------------------------------------

  lemma HasStep(steps: seq<Step>, n: nat, id: string)
    requires n <= |steps|
    ensures id in IdSet(steps[..n]) <==> exists i :: 0 <= i < n && steps[i].id == id
  {
    if i :| 0 <= i < n && steps[i].id == id {
      assert steps[..n][i] == steps[i];
    }
  }

  lemma DuplicateIff(steps: seq<Step>, markers: seq<string>, id: string)
    ensures Faulty(steps, markers, DuplicateId(id)) <==>
              exists i, j :: 0 <= i < j < |steps| && steps[i].id == id && steps[j].id == id
  {
    forall j | 0 <= j < |steps| { HasStep(steps, j, id); }
  }

  /** Which field of which step is at fault. */
  lemma FieldFaultsMean(steps: seq<Step>, markers: seq<string>, id: string)
    ensures Faulty(steps, markers, InvalidStatus(id)) <==> exists s :: s in steps && s.id == id && s.status.BadStatus?
    ensures Faulty(steps, markers, DoneWithoutEvidence(id)) <==>
              exists s :: s in steps && s.id == id && s.status == Done && !s.hasEvidence
    ensures Faulty(steps, markers, InvalidAcceptance(id)) <==>
              exists s :: s in steps && s.id == id && s.acceptance.BadAcceptance?
    ensures Faulty(steps, markers, InvalidKind(id)) <==> exists s :: s in steps && s.id == id && s.kind.BadKind?
    ensures Faulty(steps, markers, InvalidDifficulty(id)) <==>
              exists s :: s in steps && s.id == id && s.difficulty.BadDifficulty?
    ensures Faulty(steps, markers, InvalidMilestone(id)) <==>
              exists s :: s in steps && s.id == id && s.milestone.BadMilestone?
  {}

  lemma LabelFaultsMean(steps: seq<Step>, markers: seq<string>, id: string)
    ensures Faulty(steps, markers, InvalidGroup(id)) <==>
              exists s :: s in steps && s.id == id
                          && exists c :: c in s.group && c !in "abcdefghijklmnopqrstuvwxyz" && c !in "0123456789"
                                         && c != '-'
    ensures Faulty(steps, markers, UnknownRegressed(id)) <==>
              exists s :: s in steps && s.id == id && s.regressedStep != ""
                          && forall t | t in steps :: t.id != s.regressedStep
  {
    forall s: Step ensures ValidGroup(s.group) <==> s.group != "" && OfGroupLetters(s.group) {
      GroupLetters(s.group);
    }
  }

  predicate OfGroupLetters(group: string) {
    forall c | c in group :: c in "abcdefghijklmnopqrstuvwxyz" || c in "0123456789" || c == '-'
  }

  lemma GroupLetters(group: string)
    ensures ValidGroup(group) <==> group != "" && OfGroupLetters(group)
  {
    forall c: char
      ensures c in "abcdefghijklmnopqrstuvwxyz" <==> 'a' <= c <= 'z'
      ensures c in "0123456789" <==> '0' <= c <= '9'
    {
      Letter(c);
      Digit(c);
    }
  }

  lemma Letter(c: char)
    ensures c in "abcdefghijklmnopqrstuvwxyz" <==> 'a' <= c <= 'z'
  {
    var letters := "abcdefghijklmnopqrstuvwxyz";
    if 'a' <= c <= 'z' {
      assert letters[c as int - 'a' as int] == c;
    }
  }

  lemma Digit(c: char)
    ensures c in "0123456789" <==> '0' <= c <= '9'
  {
    var digits := "0123456789";
    if '0' <= c <= '9' {
      assert digits[c as int - '0' as int] == c;
    }
  }

  lemma SelfDependencyMeans(steps: seq<Step>, markers: seq<string>, id: string)
    ensures Faulty(steps, markers, SelfDependency(id)) <==>
              exists s :: s in steps && s.id == id && id in s.dependsOn
  {}

  lemma UnknownDependencyMeans(steps: seq<Step>, markers: seq<string>, id: string, d: string)
    ensures Faulty(steps, markers, UnknownDependency(id, d)) <==>
              && (exists s :: s in steps && s.id == id && id != d && d in s.dependsOn)
              && forall t | t in steps :: t.id != d
  {
    KnownIff(steps, d);
  }

  lemma DoneBeforeMeans(steps: seq<Step>, markers: seq<string>, id: string, d: string)
    ensures Faulty(steps, markers, DoneBeforeDependency(id, d)) <==>
              && (exists s :: s in steps && s.id == id && id != d && d in s.dependsOn && s.status == Done)
              && (exists t :: t in steps && t.id == d)
              && forall t | t in steps && t.id == d :: t.status != Done
  {
    DoneByIndex(steps, markers, id, d);
    KnownIff(steps, d);
  }

  lemma DoneByIndex(steps: seq<Step>, markers: seq<string>, id: string, d: string)
    ensures Faulty(steps, markers, DoneBeforeDependency(id, d)) <==>
              && (exists s :: s in steps && s.id == id && id != d && d in s.dependsOn && s.status == Done)
              && d in ById(steps) && d !in DoneIds(steps)
  {}

  /** An id stands for the last step that has it, here too. */
  lemma MilestoneWaitsMeans(steps: seq<Step>, markers: seq<string>, id: string, d: string)
    ensures Faulty(steps, markers, MilestoneWaits(id, d)) <==>
              && (exists s :: s in steps && s.id == id && id != d && d in s.dependsOn && s.status != Done
                              && s.milestone != NoMilestone)
              && (exists k :: LastOf(steps, k, d) && steps[k].milestone == NoMilestone)
              && forall t | t in steps && t.id == d :: t.status != Done
  {
    WaitsByIndex(steps, markers, id, d);
    StandsFor(steps, d);
  }

  lemma WaitsByIndex(steps: seq<Step>, markers: seq<string>, id: string, d: string)
    ensures Faulty(steps, markers, MilestoneWaits(id, d)) <==>
              && (exists s :: s in steps && s.id == id && id != d && d in s.dependsOn && s.status != Done
                              && s.milestone != NoMilestone)
              && d in ById(steps) && ById(steps)[d].milestone == NoMilestone && d !in DoneIds(steps)
  {}

  lemma StandsFor(steps: seq<Step>, d: string)
    ensures (exists k :: LastOf(steps, k, d) && steps[k].milestone == NoMilestone) <==>
              d in ById(steps) && ById(steps)[d].milestone == NoMilestone
  {
    if d in ById(steps) {
      var k := LastIsFound(steps, d);
      LastWins(steps, k);
    }
    if k :| LastOf(steps, k, d) {
      LastWins(steps, k);
    }
  }

  predicate LastOf(steps: seq<Step>, k: int, id: string) {
    0 <= k < |steps| && steps[k].id == id && forall j | k < j < |steps| :: steps[j].id != id
  }

  lemma {:induction false} LastIsFound(steps: seq<Step>, id: string) returns (k: nat)
    requires id in ById(steps)
    ensures LastOf(steps, k, id)
  {
    var n := |steps| - 1;
    if steps[n].id == id {
      k := n;
    } else {
      k := LastIsFound(steps[..n], id);
    }
  }

  lemma {:induction false} KnownIff(steps: seq<Step>, id: string)
    ensures id in ById(steps) <==> exists s :: s in steps && s.id == id
  {
    if steps != [] {
      var n := |steps| - 1;
      KnownIff(steps[..n], id);
      assert forall s :: s in steps <==> s in steps[..n] || s == steps[n];
    }
  }

  lemma MarkerFaultsMean(steps: seq<Step>, markers: seq<string>, m: string)
    ensures Faulty(steps, markers, DuplicateMarker(m)) <==>
              exists i, j :: 0 <= i < j < |markers| && markers[i] == markers[j] == m
    ensures Faulty(steps, markers, UnknownMarker(m)) <==> m in markers && forall s | s in steps :: s.id != m
  {
    CountedTwice(markers, m);
  }

  lemma {:induction false} CountedTwice<T>(xs: seq<T>, x: T)
    ensures multiset(xs)[x] > 1 <==> exists i, j :: 0 <= i < j < |xs| && xs[i] == xs[j] == x
  {
    if xs != [] {
      var n := |xs| - 1;
      assert xs == xs[..n] + [xs[n]];
      CountedTwice(xs[..n], x);
      if i, j :| 0 <= i < j < |xs| && xs[i] == xs[j] == x && j == n {
        assert xs[..n][i] == x;
      }
      if multiset(xs)[x] > 1 && multiset(xs[..n])[x] == 1 {
        assert x in xs[..n];
        var i :| 0 <= i < n && xs[..n][i] == x;
        assert xs[i] == xs[n] == x;
      }
      if multiset(xs[..n])[x] > 1 {
        var i, j :| 0 <= i < j < n && xs[..n][i] == xs[..n][j] == x;
        assert xs[i] == xs[j] == x;
      }
    }
  }

  // -------------------------------------------------------------------------
  // The next step
  // -------------------------------------------------------------------------

  datatype Plan = Offer(step: Step) | AllDone | Awaiting(ids: seq<string>) | Blocked(waits: seq<(string, seq<string>)>)

  predicate IsReady(steps: seq<Step>, s: Step) {
    s.status == Pending && forall d | d in s.dependsOn :: d in DoneIds(steps)
  }

  /** What the planner must answer. */
  ghost predicate Plans(steps: seq<Step>, plan: Plan) {
    var pending := exists s :: s in steps && s.status == Pending;
    match plan
    case Offer(s) => exists i :: 0 <= i < |steps| && steps[i] == s && IsReady(steps, s)
                                 && forall j | 0 <= j < i :: !IsReady(steps, steps[j])
    case AllDone => forall s | s in steps :: s.status != Pending && s.status != AtPr
    case Awaiting(ids) =>
      && !pending && ids != []
      && (forall i :: i in ids <==> exists s :: s in steps && s.status == AtPr && s.id == i)
    case Blocked(waits) =>
      && pending && (forall s | s in steps && s.status == Pending :: !IsReady(steps, s))
      && BlockedBy(WithStatus(steps, Pending), DoneIds(steps), waits)
  }

  /** Each pending step in order, with those of its dependencies, and only those, that are not done. */
  ghost predicate BlockedBy(pending: seq<Step>, done: set<string>, waits: seq<(string, seq<string>)>) {
    && |waits| == |pending|
    && forall k | 0 <= k < |pending| :: WaitsFor(pending[k], done, waits[k])
  }

  ghost predicate WaitsFor(s: Step, done: set<string>, wait: (string, seq<string>)) {
    wait.0 == s.id && wait.1 != [] && forall d :: d in wait.1 <==> d in s.dependsOn && d !in done
  }

  function WithStatus(steps: seq<Step>, status: Status): seq<Step> {
    if steps == [] then []
    else (if steps[0].status == status then [steps[0]] else []) + WithStatus(steps[1..], status)
  }

  lemma {:induction false} WithStatusMeans(steps: seq<Step>, status: Status)
    ensures forall s :: s in WithStatus(steps, status) <==> s in steps && s.status == status
  {
    if steps != [] {
      WithStatusMeans(steps[1..], status);
      assert forall s :: s in steps <==> s == steps[0] || s in steps[1..];
    }
  }

  function Unmet(deps: seq<string>, done: set<string>): seq<string> {
    if deps == [] then []
    else (if deps[0] in done then [] else [deps[0]]) + Unmet(deps[1..], done)
  }

  lemma {:induction false} UnmetMeans(deps: seq<string>, done: set<string>)
    ensures forall d :: d in Unmet(deps, done) <==> d in deps && d !in done
  {
    if deps != [] { UnmetMeans(deps[1..], done); }
  }

  /** With nothing ready, what the planner lists for one pending step. */
  lemma UnmetBlocks(steps: seq<Step>, s: Step)
    requires s.status == Pending && !IsReady(steps, s)
    ensures WaitsFor(s, DoneIds(steps), (s.id, Unmet(s.dependsOn, DoneIds(steps))))
  {
    UnmetMeans(s.dependsOn, DoneIds(steps));
    var d :| d in s.dependsOn && d !in DoneIds(steps);
    assert d in Unmet(s.dependsOn, DoneIds(steps));
  }

  method NextPlan(steps: seq<Step>) returns (plan: Plan)
    ensures Plans(steps, plan)
  {
    var done := DoneIds(steps);
    var pending := WithStatus(steps, Pending);
    WithStatusMeans(steps, Pending);
    if pending == [] {
      var awaiting := WithStatus(steps, AtPr);
      WithStatusMeans(steps, AtPr);
      if awaiting == [] {
        return AllDone;
      }
      var ids := Ids(awaiting);
      forall i ensures i in ids <==> exists s :: s in steps && s.status == AtPr && s.id == i {
        if i in ids {
          var k :| 0 <= k < |ids| && ids[k] == i;
          assert awaiting[k] in awaiting;
        }
        if s :| s in steps && s.status == AtPr && s.id == i {
          var k :| 0 <= k < |awaiting| && awaiting[k] == s;
          assert ids[k] == i;
        }
      }
      return Awaiting(ids);
    }
    for i := 0 to |steps|
      invariant forall j | 0 <= j < i :: !IsReady(steps, steps[j])
    {
      if steps[i].status == Pending && forall d | d in steps[i].dependsOn :: d in done {
        return Offer(steps[i]);
      }
    }
    assert pending[0] in pending;
    var waits := seq(|pending|, k requires 0 <= k < |pending| => (pending[k].id, Unmet(pending[k].dependsOn, done)));
    forall k | 0 <= k < |pending| ensures WaitsFor(pending[k], done, waits[k]) {
      assert pending[k] in pending;
      UnmetBlocks(steps, pending[k]);
    }
    return Blocked(waits);
  }

  // -------------------------------------------------------------------------
  // What a clean manifest guarantees
  // -------------------------------------------------------------------------

  lemma NotAtFault(steps: seq<Step>, markers: seq<string>, i: nat, p: Problem)
    requires Clean(steps, markers) && i < |steps|
    ensures !StepFault(steps[i], IdSet(steps[..i]), IdSet(steps), p)
    ensures forall d | d in steps[i].dependsOn :: !DependencyFault(ById(steps), DoneIds(steps), steps[i], d, p)
  {
    assert !Faulty(steps, markers, p);
  }

  lemma CleanIdsDiffer(steps: seq<Step>, markers: seq<string>)
    requires Clean(steps, markers)
    ensures DistinctIds(steps)
  {
    forall i, j | 0 <= i < j < |steps| ensures steps[i].id != steps[j].id {
      NotAtFault(steps, markers, j, DuplicateId(steps[j].id));
      assert steps[i] in steps[..j];
    }
  }

  lemma CleanStatus(steps: seq<Step>, markers: seq<string>, s: Step)
    requires Clean(steps, markers) && s in steps
    ensures !s.status.BadStatus?
  {
    var k :| 0 <= k < |steps| && steps[k] == s;
    NotAtFault(steps, markers, k, InvalidStatus(s.id));
  }

  lemma CleanPlace(steps: seq<Step>, markers: seq<string>, i: nat, d: string)
    requires Clean(steps, markers) && i < |steps| && d in steps[i].dependsOn
    ensures d != steps[i].id && d in ById(steps)
    ensures steps[i].status == Done ==> d in DoneIds(steps)
  {
    var s := steps[i];
    NotAtFault(steps, markers, i, SelfDependency(s.id));
    NotAtFault(steps, markers, i, UnknownDependency(s.id, d));
    NotAtFault(steps, markers, i, DoneBeforeDependency(s.id, d));
  }

  /** A dependency is known, is another step, has a proper status, and is done if the step is. */
  lemma CleanDependency(steps: seq<Step>, markers: seq<string>, s: Step, d: string)
    requires Clean(steps, markers) && s in steps && d in s.dependsOn
    ensures d != s.id && d in ById(steps) && ById(steps)[d] in steps
    ensures !ById(steps)[d].status.BadStatus?
    ensures s.status == Done ==> d in DoneIds(steps)
  {
    var i :| 0 <= i < |steps| && steps[i] == s;
    CleanPlace(steps, markers, i, d);
    CleanIdsDiffer(steps, markers);
    ByIdMeans(steps);
    assert ById(steps)[d] in steps;
    CleanStatus(steps, markers, ById(steps)[d]);
  }

  lemma CycleFromWalk(byId: Index, i: string)
    requires ReachesCycle(WaitingOf(byId), i)
    ensures !Acyclic(DepsOf(byId))
  {
    var g, h := WaitingOf(byId), DepsOf(byId);
    var w: seq<string> :| Walk(g, w) && w[0] == i && Returns(w);
    var k :| 0 <= k < |w| - 1 && w[k] == w[|w| - 1];
    var c := w[k..];
    forall j | 0 < j < |c| ensures Edge(EdgesOf(h), c[j - 1], c[j]) {
      assert Edge(g, w[k + j - 1], w[k + j]);
    }
    assert Cycle(h, c);
  }

  /** A clean manifest is listed in dependency order from beginning to end. */
  lemma CleanIsInOrder(steps: seq<Step>, markers: seq<string>, ordered: seq<Step>)
    requires Clean(steps, markers) && IsSchedule(ById(steps), ordered)
    ensures multiset(ordered) == multiset(steps)
    ensures forall p, d | 0 <= p < |ordered| && d in ordered[p].dependsOn :: d in Ids(ordered)[..p]
  {
    var byId := ById(steps);
    var n := ScheduleMeans(byId, ordered);
    CleanIdsDiffer(steps, markers);
    ByIdMeans(steps);
    if n < |ordered| {
      CycleIff(byId, ordered[n].id);
      CycleFromWalk(byId, ordered[n].id);
    }
    forall p, d | 0 <= p < |ordered| && d in ordered[p].dependsOn ensures d in Ids(ordered)[..p] {
      assert ordered[p] in ordered;
      CleanDependency(steps, markers, ordered[p], d);
    }
    SamePermutation(byId, steps, ordered);
  }

  lemma SamePermutation(byId: Index, steps: seq<Step>, ordered: seq<Step>)
    requires DistinctIds(steps) && DistinctIds(ordered)
    requires forall s :: s in steps <==> s.id in byId && byId[s.id] == s
    requires forall s | s in ordered :: s.id in byId && byId[s.id] == s
    requires forall i :: i in byId <==> i in Ids(ordered)
    ensures multiset(ordered) == multiset(steps)
  {
    forall s ensures multiset(ordered)[s] == multiset(steps)[s] {
      OnceEach(steps, s);
      OnceEach(ordered, s);
      if s in steps {
        var k :| 0 <= k < |ordered| && Ids(ordered)[k] == s.id;
        assert ordered[k] in ordered && ordered[k] == s;
      }
    }
  }

  lemma {:induction false} OnceEach(steps: seq<Step>, s: Step)
    requires DistinctIds(steps)
    ensures multiset(steps)[s] == if s in steps then 1 else 0
  {
    if steps != [] {
      var n := |steps| - 1;
      OnceEach(steps[..n], s);
      assert steps == steps[..n] + [steps[n]];
    }
  }

  /**
   Progress: over a clean manifest with a pending step, and no pending step waiting directly on one at
   a pull request, the planner offers a pending step whose dependencies are all done.
   */
  lemma Progress(steps: seq<Step>, markers: seq<string>, plan: Plan)
    requires Clean(steps, markers) && Plans(steps, plan)
    requires exists s :: s in steps && s.status == Pending
    requires forall s, t | s in steps && t in steps && s.status == Pending && t.status == AtPr :: t.id !in s.dependsOn
    ensures plan.Offer? && plan.step in steps && IsReady(steps, plan.step)
  {
    if forall s | s in steps && s.status == Pending :: !IsReady(steps, s) {
      var s :| s in steps && s.status == Pending;
      CleanIdsDiffer(steps, markers);
      ByIdMeans(steps);
      var waiting := set t | t in steps && t.status == Pending :: t.id;
      forall i | i in waiting ensures DependsInto(WaitingOf(ById(steps)), i, waiting) {
        PendingWaitsOnPending(steps, markers, i, waiting);
      }
      StuckWalks(WaitingOf(ById(steps)), waiting, [s.id]);
      CycleFromWalk(ById(steps), s.id);
      assert false;
    }
  }

  lemma PendingWaitsOnPending(steps: seq<Step>, markers: seq<string>, i: string, waiting: set<string>)
    requires Clean(steps, markers) && waiting == set t | t in steps && t.status == Pending :: t.id
    requires forall s, t | s in steps && t in steps && s.status == Pending && t.status == AtPr :: t.id !in s.dependsOn
    requires forall s | s in steps && s.status == Pending :: !IsReady(steps, s)
    requires i in waiting
    ensures DependsInto(WaitingOf(ById(steps)), i, waiting)
  {
    CleanIdsDiffer(steps, markers);
    ByIdMeans(steps);
    var s :| s in steps && s.status == Pending && s.id == i;
    var d :| d in s.dependsOn && d !in DoneIds(steps);
    CleanDependency(steps, markers, s, d);
    var t := ById(steps)[d];
    assert t in steps && t.id == d;
    assert t.status == Pending && d in waiting;
    assert d in WaitingOf(ById(steps))[i];
  }
}
