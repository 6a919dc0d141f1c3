/**
 The unattended driver: which steps it may start, when it stops, and what its append-only log can
 ever hold.  `Site` is everything outside: preflight checks, manifests, pull requests and sessions.
 */
module Driver {
  import opened Wrappers
  import opened Orders
  import opened Ledger

  datatype Outcome = Merged | PrOpen | Parked | Failed | TimedOut | Unreported | Violation

  predicate Settles(o: Outcome) {
    o == Merged || o == PrOpen || o == Parked
  }

  const MAX_ATTEMPTS := 2

  /** A line of the run log; `prUrl` is the pull request named in a run's detail. */
  datatype Record =
    | Start(step: string)
    | Run(step: string, outcome: Outcome, prUrl: Option<string>, cost: real)
    | Release(step: string)

  // -------------------------------------------------------------------------
  // What the log says of one step since its last release
  // -------------------------------------------------------------------------

  function RunsSince(log: seq<Record>, step: string): seq<Outcome> {
    if log == [] then []
    else
      var last := log[|log| - 1];
      if last.step != step || last.Start? then RunsSince(log[..|log| - 1], step)
      else if last.Release? then []
      else RunsSince(log[..|log| - 1], step) + [last.outcome]
  }

  function Failures(runs: seq<Outcome>): nat {
    if runs == [] then 0
    else Failures(runs[..|runs| - 1]) + if Settles(runs[|runs| - 1]) then 0 else 1
  }

  /** One settled run or two failed ones keep a step from being run again. */
  predicate Spent(runs: seq<Outcome>) {
    Failures(runs) < |runs| || Failures(runs) >= MAX_ATTEMPTS
  }

  predicate Skipped(log: seq<Record>, step: string) {
    Spent(RunsSince(log, step))
  }

  predicate RunOf(r: Record, step: string) {
    r.Run? && r.step == step
  }

  /** No release of the step from place `from` on. */
  predicate Unreleased(log: seq<Record>, step: string, from: nat) {
    forall k | from <= k < |log| :: log[k] != Release(step)
  }

  /** A run that was merged, left a pull request open or was parked, and no release since. */
  ghost predicate SettledSince(log: seq<Record>, step: string) {
    exists i :: 0 <= i < |log| && RunOf(log[i], step)
                && (log[i].outcome == Merged || log[i].outcome == PrOpen || log[i].outcome == Parked)
                && Unreleased(log, step, i)
  }

  ghost predicate FailedTwiceSince(log: seq<Record>, step: string) {
    exists i, j :: 0 <= i < j < |log| && FailedRun(log[i], step) && FailedRun(log[j], step) && Unreleased(log, step, i)
  }

  predicate FailedRun(r: Record, step: string) {
    RunOf(r, step) && r.outcome != Merged && r.outcome != PrOpen && r.outcome != Parked
  }

  ghost predicate FailedOnceSince(log: seq<Record>, step: string) {
    exists i :: 0 <= i < |log| && FailedRun(log[i], step) && Unreleased(log, step, i)
  }

  lemma UnreleasedMore(log: seq<Record>, r: Record, step: string, from: nat)
    requires from <= |log|
    ensures Unreleased(log + [r], step, from) <==> Unreleased(log, step, from) && r != Release(step)
  {
    if Unreleased(log + [r], step, from) {
      assert (log + [r])[|log|] == r;
      assert forall k | from <= k < |log| :: (log + [r])[k] == log[k];
    }
  }

  /** What one more line of the log changes. */
  lemma SinceMore(log: seq<Record>, r: Record, step: string)
    ensures SettledSince(log + [r], step) <==>
            r != Release(step) && (SettledSince(log, step) || (RunOf(r, step) && !FailedRun(r, step)))
    ensures FailedOnceSince(log + [r], step) <==>
            r != Release(step) && (FailedOnceSince(log, step) || FailedRun(r, step))
    ensures FailedTwiceSince(log + [r], step) <==>
            r != Release(step) && (FailedTwiceSince(log, step) || (FailedOnceSince(log, step) && FailedRun(r, step)))
  {
    var more, n := log + [r], |log|;
    assert more[n] == r && forall k | 0 <= k < n :: more[k] == log[k];
    forall from | 0 <= from <= n
      ensures Unreleased(more, step, from) <==> Unreleased(log, step, from) && r != Release(step)
    {
      UnreleasedMore(log, r, step, from);
    }
    SettledMore(log, r, step);
    FailedMore(log, r, step);
    FailedTwiceMore(log, r, step);
  }

  lemma SettledMore(log: seq<Record>, r: Record, step: string)
    requires forall from | 0 <= from <= |log| ::
               Unreleased(log + [r], step, from) <==> Unreleased(log, step, from) && r != Release(step)
    ensures SettledSince(log + [r], step) <==>
            r != Release(step) && (SettledSince(log, step) || (RunOf(r, step) && !FailedRun(r, step)))
  {
    var more, n := log + [r], |log|;
    assert more[n] == r && forall k | 0 <= k < n :: more[k] == log[k];
    if i :| 0 <= i < |more| && RunOf(more[i], step) && !FailedRun(more[i], step) && Unreleased(more, step, i) {
      if i < n { assert RunOf(log[i], step) && Unreleased(log, step, i); }
    }
    if r != Release(step) && RunOf(r, step) && !FailedRun(r, step) {
      assert RunOf(more[n], step) && Unreleased(more, step, n);
    }
    if i :| 0 <= i < n && RunOf(log[i], step) && !FailedRun(log[i], step) && Unreleased(log, step, i)
            && r != Release(step) {
      assert RunOf(more[i], step) && Unreleased(more, step, i);
    }
  }

  lemma FailedMore(log: seq<Record>, r: Record, step: string)
    requires forall from | 0 <= from <= |log| ::
               Unreleased(log + [r], step, from) <==> Unreleased(log, step, from) && r != Release(step)
    ensures FailedOnceSince(log + [r], step) <==>
            r != Release(step) && (FailedOnceSince(log, step) || FailedRun(r, step))
  {
    var more, n := log + [r], |log|;
    assert more[n] == r && forall k | 0 <= k < n :: more[k] == log[k];
    if i :| 0 <= i < |more| && FailedRun(more[i], step) && Unreleased(more, step, i) {
      if i < n { assert FailedRun(log[i], step) && Unreleased(log, step, i); }
    }
    if r != Release(step) && FailedRun(r, step) {
      assert FailedRun(more[n], step) && Unreleased(more, step, n);
    }
    if i :| 0 <= i < n && FailedRun(log[i], step) && Unreleased(log, step, i) && r != Release(step) {
      assert FailedRun(more[i], step) && Unreleased(more, step, i);
    }
  }

  lemma FailedTwiceMore(log: seq<Record>, r: Record, step: string)
    requires forall from | 0 <= from <= |log| ::
               Unreleased(log + [r], step, from) <==> Unreleased(log, step, from) && r != Release(step)
    ensures FailedTwiceSince(log + [r], step) <==>
            r != Release(step) && (FailedTwiceSince(log, step) || (FailedOnceSince(log, step) && FailedRun(r, step)))
  {
    var more, n := log + [r], |log|;
    assert more[n] == r && forall k | 0 <= k < n :: more[k] == log[k];
    if i, j :| 0 <= i < j < |more| && FailedRun(more[i], step) && FailedRun(more[j], step)
               && Unreleased(more, step, i) {
      assert FailedRun(log[i], step) && Unreleased(log, step, i);
      if j < n { assert FailedRun(log[j], step); }
    }
    if i :| 0 <= i < n && FailedRun(log[i], step) && Unreleased(log, step, i)
            && r != Release(step) && FailedRun(r, step) {
      assert FailedRun(more[i], step) && FailedRun(more[n], step) && Unreleased(more, step, i);
    }
    if i, j :| 0 <= i < j < n && FailedRun(log[i], step) && FailedRun(log[j], step) && Unreleased(log, step, i)
               && r != Release(step) {
      assert FailedRun(more[i], step) && FailedRun(more[j], step) && Unreleased(more, step, i);
    }
  }

  /** The tally of the runs since the last release, said of the log itself. */
  lemma {:induction false} TallyMeans(log: seq<Record>, step: string)
    ensures var runs := RunsSince(log, step);
            && Failures(runs) <= |runs|
            && (Failures(runs) < |runs| <==> SettledSince(log, step))
            && (Failures(runs) >= 1 <==> FailedOnceSince(log, step))
            && (Failures(runs) >= 2 <==> FailedTwiceSince(log, step))
  {
    if log != [] {
      var n := |log| - 1;
      TallyMeans(log[..n], step);
      assert log == log[..n] + [log[n]];
      SinceMore(log[..n], log[n], step);
      var runs := RunsSince(log[..n], step);
      if RunOf(log[n], step) {
        assert (runs + [log[n].outcome])[..|runs|] == runs;
      }
    }
  }

  /** A step is left alone exactly after a settled run or two failed ones, until it is released. */
  lemma SkippedIff(log: seq<Record>, step: string)
    ensures Skipped(log, step) <==> SettledSince(log, step) || FailedTwiceSince(log, step)
  {
    TallyMeans(log, step);
  }

  lemma {:induction false} FailuresCount(runs: seq<Outcome>)
    ensures Failures(runs) <= |runs|
    ensures Failures(runs) < |runs| <==> exists i :: 0 <= i < |runs| && Settles(runs[i])
  {
    if runs != [] {
      var n := |runs| - 1;
      FailuresCount(runs[..n]);
      assert Settles(runs[n]) ==> exists i :: 0 <= i < |runs| && Settles(runs[i]);
      assert forall i | 0 <= i < n :: runs[..n][i] == runs[i];
    }
  }

  function Count(failures: map<string, nat>, step: string): nat {
    if step in failures then failures[step] else 0
  }

  /** The set and the counts are those of the log. */
  ghost predicate Tallied(log: seq<Record>, settled: set<string>, failures: map<string, nat>) {
    forall s :: TalliedFor(log, settled, failures, s)
  }

  ghost predicate TalliedFor(log: seq<Record>, settled: set<string>, failures: map<string, nat>, s: string) {
    && (s in settled <==> Failures(RunsSince(log, s)) < |RunsSince(log, s)|)
    && Count(failures, s) == Failures(RunsSince(log, s))
  }

  function SettledAfter(settled: set<string>, r: Record): set<string> {
    match r
    case Release(step) => settled - {step}
    case Run(step, outcome, _, _) => if Settles(outcome) then settled + {step} else settled
    case Start(_) => settled
  }

  function CountsAfter(failures: map<string, nat>, r: Record): map<string, nat> {
    match r
    case Release(step) => failures - {step}
    case Run(step, outcome, _, _) => if Settles(outcome) then failures else failures[step := Count(failures, step) + 1]
    case Start(_) => failures
  }

  lemma RunsAfter(log: seq<Record>, r: Record, s: string)
    ensures RunsSince(log + [r], s) ==
            if r.step != s || r.Start? then RunsSince(log, s)
            else if r.Release? then []
            else RunsSince(log, s) + [r.outcome]
  {
    assert (log + [r])[..|log|] == log;
  }

  lemma FailuresAfter(runs: seq<Outcome>, o: Outcome)
    ensures Failures(runs + [o]) == Failures(runs) + if Settles(o) then 0 else 1
    ensures Failures(runs) <= |runs|
  {
    assert (runs + [o])[..|runs|] == runs;
    FailuresCount(runs);
  }

  lemma TallyOne(log: seq<Record>, r: Record, settled: set<string>, failures: map<string, nat>)
    requires Tallied(log, settled, failures)
    ensures Tallied(log + [r], SettledAfter(settled, r), CountsAfter(failures, r))
  {
    forall s ensures TalliedFor(log + [r], SettledAfter(settled, r), CountsAfter(failures, r), s) {
      assert TalliedFor(log, settled, failures, s);
      RunsAfter(log, r, s);
      if r.Run? {
        FailuresAfter(RunsSince(log, s), r.outcome);
      }
    }
  }

  method SkipIds(log: seq<Record>) returns (skip: set<string>)
    ensures forall s :: s in skip <==> Skipped(log, s)
    ensures forall s :: s in skip <==> SettledSince(log, s) || FailedTwiceSince(log, s)
  {
    var settled: set<string> := {};
    var failures: map<string, nat> := map[];
    for i := 0 to |log|
      invariant Tallied(log[..i], settled, failures)
    {
      assert log[..i + 1] == log[..i] + [log[i]];
      TallyOne(log[..i], log[i], settled, failures);
      match log[i] {
        case Release(step) =>
          settled := settled - {step};
          failures := failures - {step};
        case Run(step, outcome, _, _) =>
          if Settles(outcome) {
            settled := settled + {step};
          } else {
            failures := failures[step := Count(failures, step) + 1];
          }
        case Start(_) =>
      }
    }
    assert log[..|log|] == log;
    skip := settled + set s | s in failures && failures[s] >= MAX_ATTEMPTS;
    forall s ensures s in skip <==> Skipped(log, s) {
      assert TalliedFor(log, settled, failures, s);
    }
    forall s ensures Skipped(log, s) <==> SettledSince(log, s) || FailedTwiceSince(log, s) {
      SkippedIff(log, s);
    }
  }

  // -------------------------------------------------------------------------
  // What every log is like
  // -------------------------------------------------------------------------

  /** No step was run while it was to be skipped. */
  predicate WellRun(log: seq<Record>) {
    log == [] ||
    var n := |log| - 1;
    WellRun(log[..n]) && (log[n].Run? ==> !Skipped(log[..n], log[n].step))
  }

  lemma WellRunMore(log: seq<Record>, r: Record)
    requires WellRun(log) && (r.Run? ==> !Skipped(log, r.step))
    ensures WellRun(log + [r])
  {
    assert (log + [r])[..|log|] == log;
  }

  /** At most two runs since the last release, and only the last of them settled. */
  predicate Bounded(runs: seq<Outcome>) {
    |runs| <= MAX_ATTEMPTS && forall i | 0 <= i < |runs| - 1 :: !Settles(runs[i])
  }

  /** Whatever happened, each step has had no more attempts since its last release than that. */
  lemma {:induction false} AttemptsBounded(log: seq<Record>, step: string)
    requires WellRun(log)
    ensures Bounded(RunsSince(log, step))
    ensures Failures(RunsSince(log, step)) <= MAX_ATTEMPTS
  {
    FailuresCount(RunsSince(log, step));
    if log != [] {
      var n := |log| - 1;
      AttemptsBounded(log[..n], step);
      var runs := RunsSince(log[..n], step);
      FailuresCount(runs);
      if log[n].step == step && log[n].Run? {
        assert RunsSince(log, step) == runs + [log[n].outcome];
        assert !Spent(runs);
      }
    }
  }

  /** In a log the driver can grow, no step has run three times without a release in between. */
  lemma NoThirdRun(log: seq<Record>, step: string, i: nat, j: nat, k: nat)
    requires WellRun(log) && i < j < k < |log|
    requires RunOf(log[i], step) && RunOf(log[j], step) && RunOf(log[k], step)
    ensures exists l :: i < l < k && log[l] == Release(step)
  {
    if forall l | i < l < k :: log[l] != Release(step) {
      WellRunUpTo(log, k);
      var before := log[..k];
      assert before[i] == log[i] && before[j] == log[j];
      assert Unreleased(before, step, i) && Unreleased(before, step, j);
      SkippedIff(before, step);
      assert false;
    }
  }

  /** Nor again after a settled run. */
  lemma NoRunAfterSettled(log: seq<Record>, step: string, i: nat, k: nat)
    requires WellRun(log) && i < k < |log| && RunOf(log[i], step) && RunOf(log[k], step)
    requires log[i].outcome == Merged || log[i].outcome == PrOpen || log[i].outcome == Parked
    ensures exists l :: i < l < k && log[l] == Release(step)
  {
    if forall l | i < l < k :: log[l] != Release(step) {
      WellRunUpTo(log, k);
      var before := log[..k];
      assert before[i] == log[i] && Unreleased(before, step, i);
      SkippedIff(before, step);
      assert false;
    }
  }

  lemma {:induction false} WellRunUpTo(log: seq<Record>, k: nat)
    requires WellRun(log) && k < |log|
    ensures WellRun(log[..k]) && (log[k].Run? ==> !Skipped(log[..k], log[k].step))
  {
    var n := |log| - 1;
    if k < n {
      WellRunUpTo(log[..n], k);
      assert log[..n][..k] == log[..k];
    }
  }

  // -------------------------------------------------------------------------
  // Candidates
  // -------------------------------------------------------------------------

  function Priority(s: Step): seq<int> {
    [Flag(s.kind != Bug), Flag(s.milestone == NoMilestone)]
  }

  predicate Eligible(steps: seq<Step>, s: Step, skip: set<string>) {
    && s.status == Pending && s.id !in skip
    && forall d | d in s.dependsOn :: exists t :: t in steps && t.status == Done && t.id == d
  }

  /** The eligible steps of one manifest, in its order. */
  function EligibleIn(steps: seq<Step>, n: nat, skip: set<string>): seq<Step>
    requires n <= |steps|
  {
    if n == 0 then []
    else
      EligibleIn(steps, n - 1, skip) + if Eligible(steps, steps[n - 1], skip) then [steps[n - 1]] else []
  }

  /** Of all manifests, in their order. */
  function EligibleOf(packages: seq<seq<Step>>, skip: set<string>): seq<Step> {
    if packages == [] then []
    else
      var n := |packages| - 1;
      EligibleOf(packages[..n], skip) + EligibleIn(packages[n], |packages[n]|, skip)
  }

  /** Milestone bugs, other bugs, other milestone steps, the rest. */
  function Rank(s: Step): nat {
    if s.kind == Bug then (if s.milestone != NoMilestone then 0 else 1)
    else (if s.milestone != NoMilestone then 2 else 3)
  }

  /** The steps of one rank, in the order they are in. */
  function OfRank(steps: seq<Step>, r: nat): seq<Step> {
    if steps == [] then []
    else (if Rank(steps[0]) == r then [steps[0]] else []) + OfRank(steps[1..], r)
  }

  /** Rank after rank, from `r` on. */
  function FromRank(steps: seq<Step>, r: nat): seq<Step>
    decreases 4 - r
  {
    if r >= 4 then [] else OfRank(steps, r) + FromRank(steps, r + 1)
  }

  function InRanks(steps: seq<Step>): seq<Step> {
    FromRank(steps, 0)
  }

  lemma PriorityIsRank(x: Step, y: Step)
    ensures LexLe(Priority(x), Priority(y)) <==> Rank(x) <= Rank(y)
  {
    var u, v := [Flag(x.milestone == NoMilestone)], [Flag(y.milestone == NoMilestone)];
    LexCons(Flag(x.kind != Bug), u, Flag(y.kind != Bug), v);
  }

  lemma {:induction false} OfRankHas(steps: seq<Step>, r: nat)
    ensures forall s | s in OfRank(steps, r) :: Rank(s) == r
  {
    if steps != [] { OfRankHas(steps[1..], r); }
  }

  lemma {:induction false} FromRankHas(steps: seq<Step>, r: nat)
    ensures forall s | s in FromRank(steps, r) :: Rank(s) >= r
    decreases 4 - r
  {
    if r < 4 {
      OfRankHas(steps, r);
      FromRankHas(steps, r + 1);
    }
  }

  lemma InsertBehind(x: Step, first: Step, rest: seq<Step>)
    requires Rank(first) < Rank(x)
    ensures InsertBy(Priority, x, [first] + rest) == [first] + InsertBy(Priority, x, rest)
  {
    PriorityIsRank(x, first);
    assert ([first] + rest)[0] == first && ([first] + rest)[1..] == rest;
  }

  lemma {:induction false} InsertPast(x: Step, front: seq<Step>, back: seq<Step>)
    requires forall s | s in front :: Rank(s) < Rank(x)
    ensures InsertBy(Priority, x, front + back) == front + InsertBy(Priority, x, back)
  {
    if front == [] {
      NothingBefore(back);
      NothingBefore(InsertBy(Priority, x, back));
    } else {
      var first, more := front[0], front[1..];
      InsertPast(x, more, back);
      InsertBehind(x, first, more + back);
      HeadFirst(front, back);
      HeadFirst(front, InsertBy(Priority, x, back));
    }
  }

  lemma NothingBefore<T>(xs: seq<T>)
    ensures [] + xs == xs
  {}

  lemma HeadFirst<T>(front: seq<T>, back: seq<T>)
    requires front != []
    ensures front + back == [front[0]] + (front[1..] + back)
  {}

  lemma InsertHere(x: Step, back: seq<Step>)
    requires forall s | s in back :: Rank(x) <= Rank(s)
    ensures InsertBy(Priority, x, back) == [x] + back
  {
    if back == [] {
      assert [x] + back == [x];
    } else {
      assert back[0] in back;
      PriorityIsRank(x, back[0]);
    }
  }

  lemma OfRankCons(x: Step, rest: seq<Step>, r: nat)
    ensures OfRank([x] + rest, r) == (if Rank(x) == r then [x] else []) + OfRank(rest, r)
  {
    assert ([x] + rest)[0] == x && ([x] + rest)[1..] == rest;
  }

  lemma FromRankStep(steps: seq<Step>, r: nat)
    requires r < 4
    ensures FromRank(steps, r) == OfRank(steps, r) + FromRank(steps, r + 1)
  {}

  lemma {:induction false} LaterRanksSame(x: Step, rest: seq<Step>, r: nat)
    requires Rank(x) < r
    ensures FromRank([x] + rest, r) == FromRank(rest, r)
    decreases 4 - r
  {
    if r < 4 {
      LaterRanksSame(x, rest, r + 1);
      OfRankCons(x, rest, r);
      NothingBefore(OfRank(rest, r));
    }
  }

  lemma InsertAtItsRank(x: Step, rest: seq<Step>, r: nat)
    requires r == Rank(x)
    ensures InsertBy(Priority, x, FromRank(rest, r)) == FromRank([x] + rest, r)
  {
    var own, later := OfRank(rest, r), FromRank(rest, r + 1);
    FromRankHas(rest, r);
    InsertHere(x, FromRank(rest, r));
    LaterRanksSame(x, rest, r + 1);
    OfRankCons(x, rest, r);
    FromRankStep(rest, r);
    FromRankStep([x] + rest, r);
    ConcatAssociates([x], own, later);
  }

  lemma {:induction false} InsertIntoRanks(x: Step, rest: seq<Step>, r: nat)
    requires r <= Rank(x)
    ensures InsertBy(Priority, x, FromRank(rest, r)) == FromRank([x] + rest, r)
    decreases 4 - r
  {
    if r == Rank(x) {
      InsertAtItsRank(x, rest, r);
    } else {
      OfRankHas(rest, r);
      FromRankStep(rest, r);
      FromRankStep([x] + rest, r);
      OfRankCons(x, rest, r);
      NothingBefore(OfRank(rest, r));
      InsertPast(x, OfRank(rest, r), FromRank(rest, r + 1));
      InsertIntoRanks(x, rest, r + 1);
    }
  }

  lemma {:induction false} NothingToRank(r: nat)
    ensures FromRank([], r) == []
    decreases 4 - r
  {
    if r < 4 { NothingToRank(r + 1); }
  }

  lemma {:induction false} SortIsFrom(steps: seq<Step>, r: nat)
    requires forall s | s in steps :: r <= Rank(s)
    ensures Sort(Priority, steps) == FromRank(steps, r)
  {
    if steps == [] {
      NothingToRank(r);
    } else {
      var x, rest := steps[0], steps[1..];
      SortIsFrom(rest, r);
      SortStep(Priority, steps);
      InsertIntoRanks(x, rest, r);
      assert [x] + rest == steps;
    }
  }

  /** The stable sort by priority lists rank after rank and changes nothing within one. */
  lemma SortIsRanks(steps: seq<Step>)
    ensures Sort(Priority, steps) == InRanks(steps)
  {
    SortIsFrom(steps, 0);
  }

  /** Every eligible step of every readable package, rank after rank. */
  method Candidates(packages: seq<seq<Step>>, skip: set<string>) returns (found: seq<Step>)
    ensures found == InRanks(EligibleOf(packages, skip))
    ensures forall s | s in found ::
              && s.status == Pending && s.id !in skip
              && exists k :: 0 <= k < |packages| && s in packages[k] &&
                           forall d | d in s.dependsOn :: exists t :: t in packages[k] && t.id == d && t.status == Done
    ensures forall k, s | 0 <= k < |packages| && s in packages[k] && s.status == Pending && s.id !in skip
                          && (forall d | d in s.dependsOn ::
                                exists t :: t in packages[k] && t.id == d && t.status == Done) ::
              s in found
  {
    var all: seq<Step> := [];
    for k := 0 to |packages|
      invariant all == EligibleOf(packages[..k], skip)
      invariant forall s :: s in all <==> exists j :: 0 <= j < k && s in packages[j] && Eligible(packages[j], s, skip)
    {
      var more := EligibleSteps(packages[k], skip);
      assert packages[..k + 1][..k] == packages[..k];
      all := all + more;
    }
    assert packages[..|packages|] == packages;
    found := Sort(Priority, all);
    SortIsRanks(all);
    SameElements(found, all);
    forall k, s | 0 <= k < |packages| && s in packages[k] && s.status == Pending && s.id !in skip
                  && forall d | d in s.dependsOn :: exists t :: t in packages[k] && t.id == d && t.status == Done
      ensures s in found
    {
      assert Eligible(packages[k], s, skip);
    }
  }

  method EligibleSteps(steps: seq<Step>, skip: set<string>) returns (found: seq<Step>)
    ensures found == EligibleIn(steps, |steps|, skip)
    ensures forall s :: s in found <==> s in steps && Eligible(steps, s, skip)
  {
    found := [];
    var done := set s | s in steps && s.status == Done :: s.id;
    for i := 0 to |steps|
      invariant found == EligibleIn(steps, i, skip)
      invariant forall s :: s in found <==> s in steps[..i] && Eligible(steps, s, skip)
    {
      var s := steps[i];
      assert forall t :: t in steps[..i + 1] <==> t in steps[..i] || t == s;
      assert Eligible(steps, s, skip) <==>
          s.status == Pending && s.id !in skip && forall d | d in s.dependsOn :: d in done;
      if s.status == Pending && s.id !in skip && forall d | d in s.dependsOn :: d in done {
        found := found + [s];
      }
    }
    assert steps[..|steps|] == steps;
  }

  // -------------------------------------------------------------------------
  // Releasing closed pull requests
  // -------------------------------------------------------------------------

  /** The latest run of a step that no release follows. */
  function Latest(log: seq<Record>, step: string): Option<Record> {
    if log == [] then None
    else
      var last := log[|log| - 1];
      if last.step != step || last.Start? then Latest(log[..|log| - 1], step)
      else if last.Release? then None
      else Some(last)
  }

  ghost predicate Releasable(log: seq<Record>, closed: string -> bool, step: string) {
    var latest := Latest(log, step);
    && latest.Some? && latest.value.Run? && latest.value.outcome == PrOpen
    && latest.value.prUrl.Some? && closed(latest.value.prUrl.value)
  }

  /** Place `i` is the last run of the step, it left this pull request open, and no release follows. */
  ghost predicate LeftOpenAt(log: seq<Record>, step: string, i: int, url: string) {
    && 0 <= i < |log| && RunOf(log[i], step) && log[i].outcome == PrOpen && log[i].prUrl == Some(url)
    && forall k | i < k < |log| :: !RunOf(log[k], step) && log[k] != Release(step)
  }

  lemma {:induction false} LatestAt(log: seq<Record>, step: string) returns (i: int)
    ensures -1 <= i < |log| && forall k | i < k < |log| :: !RunOf(log[k], step) && log[k] != Release(step)
    ensures i >= 0 ==> RunOf(log[i], step) || log[i] == Release(step)
    ensures Latest(log, step) == if i >= 0 && RunOf(log[i], step) then Some(log[i]) else None
  {
    if log == [] {
      i := -1;
    } else {
      var n := |log| - 1;
      if RunOf(log[n], step) || log[n] == Release(step) {
        i := n;
      } else {
        i := LatestAt(log[..n], step);
      }
    }
  }

  /** What makes a step releasable, said of the log itself. */
  lemma ReleasableIff(log: seq<Record>, closed: string -> bool, step: string)
    ensures Releasable(log, closed, step) <==> exists i, url :: LeftOpenAt(log, step, i, url) && closed(url)
  {
    var i := LatestAt(log, step);
    if Releasable(log, closed, step) {
      assert LeftOpenAt(log, step, i, log[i].prUrl.value);
    }
    if j, url :| LeftOpenAt(log, step, j, url) && closed(url) {
      assert i == j;
    }
  }

  /** Offers again exactly the steps whose open pull request was closed unmerged. */
  method ReleaseClosed(log: seq<Record>, closed: string -> bool) returns (after: seq<Record>)
    requires WellRun(log)
    ensures WellRun(after) && log <= after
    ensures forall r | r in after[|log|..] :: r.Release? && Releasable(log, closed, r.step)
    ensures forall s | Releasable(log, closed, s) :: Release(s) in after[|log|..]
  {
    var latest: map<string, Record> := map[];
    for i := 0 to |log|
      invariant forall s :: Latest(log[..i], s) == if s in latest then Some(latest[s]) else None
    {
      assert log[..i + 1][..i] == log[..i];
      match log[i] {
        case Release(step) => latest := latest - {step};
        case Run(step, _, _, _) => latest := latest[step := log[i]];
        case Start(_) =>
      }
    }
    assert log[..|log|] == log;
    after := log;
    var rest := latest.Keys;
    while rest != {}
      invariant rest <= latest.Keys && WellRun(after) && log <= after
      invariant forall r | r in after[|log|..] :: r.Release? && Releasable(log, closed, r.step)
      invariant forall s | Releasable(log, closed, s) && s !in rest :: Release(s) in after[|log|..]
      decreases rest
    {
      var step :| step in rest;
      rest := rest - {step};
      var r := latest[step];
      if r.Run? && r.outcome == PrOpen && r.prUrl.Some? && closed(r.prUrl.value) {
        WellRunMore(after, Release(step));
        assert (after + [Release(step)])[|log|..] == after[|log|..] + [Release(step)];
        after := after + [Release(step)];
      }
    }
  }

  // -------------------------------------------------------------------------
  // The loop
  // -------------------------------------------------------------------------

  datatype Options = Options(totalBudget: real, maxSteps: nat, maxFailures: nat, only: string, dryRun: bool)

  /** The outside, by turn of the loop: preflight, the manifests, steps with an open pull request, and a session. */
  datatype Site = Site(
    prepares: nat -> bool,
    packages: nat -> seq<seq<Step>>,
    inFlight: (nat, seq<string>) -> set<string>,
    session: (nat, string) -> (Outcome, Option<string>, real),
    closed: string -> bool)

  function CostOf(runs: seq<Record>): real {
    if runs == [] then 0.0
    else
      var last := runs[|runs| - 1];
      CostOf(runs[..|runs| - 1]) + if last.Run? then last.cost else 0.0
  }

  function Streak(runs: seq<Record>): nat {
    if runs == [] then 0
    else
      var last := runs[|runs| - 1];
      if last.Run? && !Settles(last.outcome) then Streak(runs[..|runs| - 1]) + 1 else 0
  }

  /** The two lines each run leaves in the log. */
  function Logged(runs: seq<Record>): seq<Record> {
    if runs == [] then [] else Logged(runs[..|runs| - 1]) + [Start(runs[|runs| - 1].step), runs[|runs| - 1]]
  }

  /** Each run after the first was started within the budget and short of the failure limit. */
  predicate Restrained(options: Options, runs: seq<Record>) {
    |runs| <= 1 ||
    var before := runs[..|runs| - 1];
    Restrained(options, before) && CostOf(before) < options.totalBudget && Streak(before) < options.maxFailures
  }

  /**
   Every run, with a budget and a failure limit above zero the first one too, was started with the spend
   of those before it below the budget and their closing streak of failures short of the limit.
   */
  lemma {:induction false} RestrainedMeans(options: Options, runs: seq<Record>, k: nat)
    requires Restrained(options, runs) && k < |runs|
    ensures k > 0 || 0.0 < options.totalBudget ==> CostOf(runs[..k]) < options.totalBudget
    ensures k > 0 || 0 < options.maxFailures ==> Streak(runs[..k]) < options.maxFailures
  {
    var before := runs[..|runs| - 1];
    if k < |before| {
      RestrainedMeans(options, before, k);
      assert before[..k] == runs[..k];
    } else {
      assert before == runs[..k];
    }
  }

  /** The closing streak: that many failed runs at the end, and before them none or a settled one. */
  lemma {:induction false} StreakMeans(runs: seq<Record>)
    requires forall r | r in runs :: r.Run?
    ensures Streak(runs) <= |runs|
    ensures forall i | |runs| - Streak(runs) <= i < |runs| :: FailedRun(runs[i], runs[i].step)
    ensures Streak(runs) < |runs| ==> !FailedRun(runs[|runs| - 1 - Streak(runs)], runs[|runs| - 1 - Streak(runs)].step)
  {
    if runs != [] {
      var n := |runs| - 1;
      StreakMeans(runs[..n]);
      assert runs[n] in runs;
    }
  }

  /** The spend is the sum of the costs. */
  lemma {:induction false} CostsAdd(a: seq<Record>, b: seq<Record>)
    ensures CostOf([]) == 0.0 && CostOf(a + b) == CostOf(a) + CostOf(b)
    ensures forall step, outcome, url, cost :: CostOf([Run(step, outcome, url, cost)]) == cost
  {
    if b == [] {
      assert a + b == a;
    } else {
      var n := |b| - 1;
      CostsAdd(a, b[..n]);
      assert (a + b)[..|a + b| - 1] == a + b[..n];
    }
    forall step, outcome, url, cost ensures CostOf([Run(step, outcome, url, cost)]) == cost {
      assert [Run(step, outcome, url, cost)][..0] == [];
    }
  }

  function Filtered(steps: seq<Step>, busy: set<string>, only: string): seq<Step> {
    if steps == [] then []
    else
      (if steps[0].id !in busy && (only == "" || steps[0].id == only) then [steps[0]] else [])
      + Filtered(steps[1..], busy, only)
  }

  lemma {:induction false} FilteredMeans(steps: seq<Step>, busy: set<string>, only: string)
    ensures forall s :: s in Filtered(steps, busy, only) <==>
              s in steps && s.id !in busy && (only == "" || s.id == only)
  {
    if steps != [] {
      FilteredMeans(steps[1..], busy, only);
      assert forall s :: s in steps <==> s == steps[0] || s in steps[1..];
    }
  }

  lemma LogMore(released: seq<Record>, runs: seq<Record>, r: Record)
    ensures (released + Logged(runs)) + [Start(r.step)] + [r] == released + Logged(runs + [r])
  {
    assert (runs + [r])[..|runs|] == runs;
    assert Logged(runs + [r]) == Logged(runs) + [Start(r.step), r];
  }

  ghost predicate Extends(released: seq<Record>, runs: seq<Record>, log: seq<Record>) {
    log == released + Logged(runs)
  }

  lemma RunsMore(options: Options, runs: seq<Record>, r: Record)
    requires Restrained(options, runs) && r.Run?
    requires runs != [] ==> CostOf(runs) < options.totalBudget && Streak(runs) < options.maxFailures
    ensures Restrained(options, runs + [r])
    ensures CostOf(runs + [r]) == CostOf(runs) + r.cost
    ensures Streak(runs + [r]) == if Settles(r.outcome) then 0 else Streak(runs) + 1
  {
    assert (runs + [r])[..|runs|] == runs;
  }

  /** What a turn may run: not in flight elsewhere, and the one asked for, if one was. */
  predicate Free(options: Options, s: Step, busy: set<string>) {
    s.id !in busy && (options.only == "" || s.id == options.only)
  }

  /**
   The step a turn runs, if any: the first free one of the candidates, which are the pending steps with all
   dependencies done that the log does not keep back, rank after rank.
   */
  ghost predicate Picks(options: Options, site: Site, log: seq<Record>, turn: nat, r: Option<Step>) {
    exists skip: set<string> {:trigger EligibleOf(site.packages(turn), skip)} ::
      && (forall s :: s in skip <==> SettledSince(log, s) || FailedTwiceSince(log, s))
      && var list := InRanks(EligibleOf(site.packages(turn), skip));
         var busy := if list == [] then {} else site.inFlight(turn, Ids(list));
         FirstFree(options, list, busy, r)
  }

  predicate FirstFree(options: Options, list: seq<Step>, busy: set<string>, r: Option<Step>) {
    if list == [] then r == None
    else if Free(options, list[0], busy) then r == Some(list[0])
    else FirstFree(options, list[1..], busy, r)
  }

  lemma {:induction false} FirstFreeMeans(options: Options, list: seq<Step>, busy: set<string>, r: Option<Step>)
    requires FirstFree(options, list, busy, r)
    ensures r == None ==> forall s | s in list :: !Free(options, s, busy)
    ensures r.Some? ==> exists i :: 0 <= i < |list| && list[i] == r.value && Free(options, r.value, busy)
                                    && forall j | 0 <= j < i :: !Free(options, list[j], busy)
  {
    if list != [] && !Free(options, list[0], busy) {
      FirstFreeMeans(options, list[1..], busy, r);
      if r.Some? {
        var i :| 0 <= i < |list| - 1 && list[1..][i] == r.value
                 && forall j | 0 <= j < i :: !Free(options, list[1..][j], busy);
        assert list[i + 1] == r.value && forall j | 0 <= j < i + 1 :: !Free(options, list[j], busy);
      }
    }
  }

  lemma {:induction false} FilteredFirst(options: Options, list: seq<Step>, busy: set<string>)
    ensures var free := Filtered(list, busy, options.only);
            FirstFree(options, list, busy, if free == [] then None else Some(free[0]))
  {
    if list != [] { FilteredFirst(options, list[1..], busy); }
  }

  method Choose(options: Options, site: Site, log: seq<Record>, turn: nat) returns (r: Option<Step>)
    ensures Picks(options, site, log, turn, r)
    ensures r.Some? ==> !Skipped(log, r.value.id) && (options.only != "" ==> r.value.id == options.only)
    ensures r.Some? ==>
              && r.value.status == Pending
              && exists k :: 0 <= k < |site.packages(turn)| && r.value in site.packages(turn)[k]
                             && forall d | d in r.value.dependsOn ::
                                  exists t :: t in site.packages(turn)[k] && t.id == d && t.status == Done
  {
    var skip := SkipIds(log);
    var ready := Candidates(site.packages(turn), skip);
    var busy := if ready != [] then site.inFlight(turn, Ids(ready)) else {};
    FilteredMeans(ready, busy, options.only);
    FilteredFirst(options, ready, busy);
    var free := Filtered(ready, busy, options.only);
    if free == [] {
      return None;
    }
    assert free[0] in free;
    return Some(free[0]);
  }

  /** What one invocation has done so far. */
  ghost predicate Progressed(options: Options, released: seq<Record>, runs: seq<Record>, log: seq<Record>) {
    && WellRun(log) && Extends(released, runs, log)
    && |runs| <= options.maxSteps && Restrained(options, runs)
    && forall x | x in runs :: x.Run? && (options.only != "" ==> x.step == options.only)
  }

  /** How an invocation came to these runs: turn by turn, past preflight, the step picked and what its session gave. */
  ghost predicate Played(options: Options, site: Site, released: seq<Record>, runs: seq<Record>)
    decreases |runs|
  {
    runs == [] ||
    var n := |runs| - 1;
    && Played(options, site, released, runs[..n])
    && (n > 0 ==> site.prepares(n))
    && PlayedLast(options, site, released + Logged(runs[..n]), n, runs[n])
  }

  ghost predicate PlayedLast(options: Options, site: Site, log: seq<Record>, turn: nat, run: Record) {
    exists s :: Picks(options, site, log, turn, Some(s)) && run.Run? && run.step == s.id
                && (run.outcome, run.prUrl, run.cost) == site.session(turn, s.id)
  }

  /** Why it made no more: enough runs, too many failures, too much spent, a failed preflight, or nothing to run. */
  ghost predicate Stopped(options: Options, site: Site, released: seq<Record>, runs: seq<Record>) {
    || options.dryRun
    || |runs| >= options.maxSteps
    || (runs != [] && (Streak(runs) >= options.maxFailures || CostOf(runs) >= options.totalBudget))
    || (runs != [] && !site.prepares(|runs|))
    || Picks(options, site, released + Logged(runs), |runs|, None)
  }

  lemma PlayedMore(options: Options, site: Site, released: seq<Record>, runs: seq<Record>, log: seq<Record>,
                   s: Step, r: Record)
    requires Played(options, site, released, runs) && log == released + Logged(runs)
    requires runs != [] ==> site.prepares(|runs|)
    requires Picks(options, site, log, |runs|, Some(s)) && r.Run? && r.step == s.id
    requires (r.outcome, r.prUrl, r.cost) == site.session(|runs|, s.id)
    ensures Played(options, site, released, runs + [r])
  {
    assert (runs + [r])[..|runs|] == runs;
    assert PlayedLast(options, site, log, |runs|, r);
  }

  lemma ProgressedMore(options: Options, released: seq<Record>, runs: seq<Record>, log: seq<Record>, r: Record)
    requires Progressed(options, released, runs, log) && |runs| < options.maxSteps
    requires r.Run? && !Skipped(log, r.step) && (options.only != "" ==> r.step == options.only)
    requires runs != [] ==> CostOf(runs) < options.totalBudget && Streak(runs) < options.maxFailures
    ensures Progressed(options, released, runs + [r], log + [Start(r.step)] + [r])
    ensures CostOf(runs + [r]) == CostOf(runs) + r.cost
    ensures Streak(runs + [r]) == if Settles(r.outcome) then 0 else Streak(runs) + 1
  {
    RunIsAllowed(log, r);
    RunsMore(options, runs, r);
    LogMore(released, runs, r);
  }

  /** Logs the start, lets the session run, and logs what came of it. */
  method Execute(options: Options, site: Site, turn: nat, step: string, log: seq<Record>,
                 ghost runs: seq<Record>, ghost released: seq<Record>)
    returns (record: Record, after: seq<Record>)
    requires Progressed(options, released, runs, log) && |runs| < options.maxSteps
    requires !Skipped(log, step) && (options.only != "" ==> step == options.only)
    requires runs != [] ==> CostOf(runs) < options.totalBudget && Streak(runs) < options.maxFailures
    ensures record.Run? && record.step == step && Progressed(options, released, runs + [record], after)
    ensures (record.outcome, record.prUrl, record.cost) == site.session(turn, step)
    ensures CostOf(runs + [record]) == CostOf(runs) + record.cost
    ensures Streak(runs + [record]) == if Settles(record.outcome) then 0 else Streak(runs) + 1
  {
    after := log + [Start(step)];
    var (outcome, prUrl, cost) := site.session(turn, step);
    record := Run(step, outcome, prUrl, cost);
    ProgressedMore(options, released, runs, log, record);
    after := after + [record];
  }

  /** One turn past its preflight: picks a step, if there is one, and runs it. */
  method TakeTurn(options: Options, site: Site, log: seq<Record>, turn: nat,
                  ghost runs: seq<Record>, ghost released: seq<Record>)
    returns (record: Option<Record>, after: seq<Record>)
    requires Progressed(options, released, runs, log) && Played(options, site, released, runs)
    requires turn == |runs| < options.maxSteps && (runs != [] ==> site.prepares(turn))
    requires runs != [] ==> CostOf(runs) < options.totalBudget && Streak(runs) < options.maxFailures
    ensures record == None ==> after == log && Picks(options, site, log, turn, None)
    ensures record.Some? ==>
              && Progressed(options, released, runs + [record.value], after)
              && Played(options, site, released, runs + [record.value])
              && record.value.Run? && CostOf(runs + [record.value]) == CostOf(runs) + record.value.cost
              && Streak(runs + [record.value]) == if Settles(record.value.outcome) then 0 else Streak(runs) + 1
  {
    var candidate := Choose(options, site, log, turn);
    if candidate == None {
      return None, log;
    }
    var one;
    one, after := Execute(options, site, turn, candidate.value.id, log, runs, released);
    PlayedMore(options, site, released, runs, log, candidate.value, one);
    return Some(one), after;
  }

  /** Turn after turn, each but the first past a preflight of its own, until there is a reason to stop. */
  method RunTurns(options: Options, site: Site, log: seq<Record>) returns (records: seq<Record>, after: seq<Record>)
    requires WellRun(log) && !options.dryRun
    ensures Progressed(options, log, records, after)
    ensures Played(options, site, log, records) && Stopped(options, site, log, records)
  {
    records, after := [], log;
    var streak: nat, spent := 0, 0.0;
    assert log + [] == log;
    while |records| < options.maxSteps
      invariant Progressed(options, log, records, after) && Played(options, site, log, records)
      invariant streak == Streak(records) && spent == CostOf(records)
      invariant records == [] || (spent < options.totalBudget && streak < options.maxFailures)
      decreases options.maxSteps - |records|
    {
      var turn := |records|;
      if records != [] && !site.prepares(turn) {
        return;
      }
      var record;
      record, after := TakeTurn(options, site, after, turn, records, log);
      if record == None {
        return;
      }
      records := records + [record.value];
      spent := spent + record.value.cost;
      streak := if Settles(record.value.outcome) then 0 else streak + 1;
      if streak >= options.maxFailures || spent >= options.totalBudget {
        return;
      }
    }
  }

  /**
   One invocation.  `None` when the first preflight fails; else the runs it made.  `released` is the
   log once closed pull requests have been released.
   */
  method RunLoop(options: Options, site: Site, log: seq<Record>)
    returns (r: Option<seq<Record>>, after: seq<Record>, ghost released: seq<Record>)
    requires WellRun(log)
    ensures WellRun(after) && log <= released
    ensures r == None <==> !site.prepares(0)
    ensures r == None ==> after == log
    ensures r.Some? ==> Progressed(options, released, r.value, after)
    ensures r.Some? ==> Played(options, site, released, r.value) && Stopped(options, site, released, r.value)
    ensures forall x | x in released[|log|..] :: x.Release? && Releasable(log, site.closed, x.step)
    ensures r.Some? && !options.dryRun ==>
              forall s | Releasable(log, site.closed, s) :: Release(s) in released[|log|..]
    ensures options.dryRun ==> after == log && (r == None || r == Some([]))
  {
    after, released := log, log;
    assert released[|log|..] == [] && released + [] == released;
    if !site.prepares(0) {
      return None, after, released;
    }
    if options.dryRun {
      return Some([]), after, released;
    }
    after := ReleaseClosed(log, site.closed);
    released := after;
    var records;
    records, after := RunTurns(options, site, after);
    return Some(records), after, released;
  }

  lemma RunIsAllowed(log: seq<Record>, r: Record)
    requires WellRun(log) && r.Run? && !Skipped(log, r.step)
    ensures WellRun(log + [Start(r.step)] + [r])
  {
    WellRunMore(log, Start(r.step));
    assert (log + [Start(r.step)])[..|log|] == log;
    WellRunMore(log + [Start(r.step)], r);
  }
}
