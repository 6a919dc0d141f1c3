/**
 Publishing a build into the two-slot layout, one file-system step at a time.

 The file system is a map from directory name to files.  Every change goes through `Disk.Do`, which
 makes one step and records the state it leaves; a crash leaves any recorded state.
 */
module Slots {
  import opened Wrappers
  import opened FstBuild
  import opened Artifact
  import opened Histories

  /** The directories current, previous and previous.tmp. */
  datatype SlotName = Current | Previous | PreviousTmp

  type State = map<SlotName, Dir>

  // -------------------------------------------------------------------------
  // Single steps
  // -------------------------------------------------------------------------

  datatype Op =
    | MoveFile(fromDir: SlotName, fromFile: FileName, toDir: SlotName, toFile: FileName)
    | MoveDir(from: SlotName, to: SlotName)
    | CreateDir(dir: SlotName)
    | WriteFile(dir: SlotName, file: FileName, content: Content)
    | RemoveFile(dir: SlotName, file: FileName)
    | RemoveDir(dir: SlotName)

  predicate Enabled(op: Op, s: State) {
    match op
    case MoveFile(d, f, e, _) => d in s && f in s[d] && e in s
    case MoveDir(d, e) => d in s && e !in s
    case CreateDir(_) => true
    case WriteFile(d, _, _) => d in s
    case RemoveFile(d, f) => d in s && f in s[d]
    case RemoveDir(d) => d in s && s[d] == map[]
  }

  function Apply(op: Op, s: State): State
    requires Enabled(op, s)
  {
    match op
    case MoveFile(d, f, e, g) =>
      var taken := s[d := s[d] - {f}];
      taken[e := taken[e][g := s[d][f]]]
    case MoveDir(d, e) => (s - {d})[e := s[d]]
    case CreateDir(d) => if d in s then s else s[d := map[]]
    case WriteFile(d, f, c) => s[d := s[d][f := c]]
    case RemoveFile(d, f) => s[d := s[d] - {f}]
    case RemoveDir(d) => s - {d}
  }

  ghost predicate OneStep(s: State, t: State) {
    exists op :: Enabled(op, s) && t == Apply(op, s)
  }

  lemma StepTaken(op: Op, s: State)
    requires Enabled(op, s)
    ensures OneStep(s, Apply(op, s))
  {}

  class Disk {
    var dirs: State
    ghost var trace: seq<State>

    /** The record ends in the present, and each state of it is one step from the one before. */
    ghost predicate Valid()
      reads this
    {
      && trace != [] && trace[|trace| - 1] == dirs
      && StepByStep(OneStep, trace)
    }

    constructor (initial: State)
      ensures Valid() && dirs == initial && trace == [initial]
    {
      dirs := initial;
      trace := [initial];
    }

    method Do(op: Op)
      requires Valid() && Enabled(op, dirs)
      modifies this
      ensures Valid() && dirs == Apply(op, old(dirs)) && trace == old(trace) + [dirs]
    {
      StepTaken(op, dirs);
      OneMoreStep(OneStep, trace, Apply(op, dirs));
      dirs := Apply(op, dirs);
      trace := trace + [dirs];
    }
  }

  // -------------------------------------------------------------------------
  // What matters of a state: the two files of each slot
  // -------------------------------------------------------------------------

  datatype Files = Files(artifact: Option<Content>, manifest: Option<Content>)

  const NONE := Files(None, None)

  datatype Slots = Slots(cur: Files, prev: Files, tmp: Files)

  function FileAt(s: State, slot: SlotName, file: FileName): Option<Content> {
    if slot in s && file in s[slot] then Some(s[slot][file]) else None
  }

  function FilesIn(s: State, slot: SlotName): Files {
    Files(FileAt(s, slot, ArtifactFst), FileAt(s, slot, ManifestBin))
  }

  function SlotsOf(s: State): Slots {
    Slots(FilesIn(s, Current), FilesIn(s, Previous), FilesIn(s, PreviousTmp))
  }

  function FilesOf(b: FstArtifact): Files {
    Files(Some(FstBytes(b.fst)), Some(ManifestBytes(b.manifest)))
  }

  predicate Part<T(==)>(x: Option<T>, y: Option<T>) {
    x == None || x == y
  }

  /** `p` lacks some files of `q`, perhaps, and has no others. */
  predicate Sub(p: Files, q: Files) {
    Part(p.artifact, q.artifact) && Part(p.manifest, q.manifest)
  }

  /** Which steps are possible, by the files there are. */
  lemma PossibleIff(op: Op, s: State)
    ensures op.MoveFile? ==> (Enabled(op, s) <==> FileAt(s, op.fromDir, op.fromFile).Some? && op.toDir in s)
    ensures op.RemoveFile? ==> (Enabled(op, s) <==> FileAt(s, op.dir, op.file).Some?)
    ensures op.MoveDir? ==> (Enabled(op, s) <==> op.from in s && op.to !in s)
    ensures op.RemoveDir? ==> (Enabled(op, s) <==> op.dir in s && forall f :: FileAt(s, op.dir, f) == None)
    ensures op.WriteFile? ==> (Enabled(op, s) <==> op.dir in s)
  {
    if op.RemoveDir? && op.dir in s && s[op.dir] != map[] {
      var f :| f in s[op.dir];
      assert FileAt(s, op.dir, f).Some?;
    }
  }

  /** What a step does to the file `f` of directory `d`, and to the directories. */
  lemma StepMeans(op: Op, s: State, d: SlotName, f: FileName)
    requires Enabled(op, s)
    ensures var before, after := FileAt(s, d, f), FileAt(Apply(op, s), d, f);
            match op
            case MoveFile(d1, f1, d2, f2) =>
              after == (if (d, f) == (d2, f2) then FileAt(s, d1, f1) else if (d, f) == (d1, f1) then None else before)
            case MoveDir(d1, d2) => after == (if d == d2 then FileAt(s, d1, f) else if d == d1 then None else before)
            case CreateDir(_) => after == before
            case WriteFile(d1, f1, c) => after == (if (d, f) == (d1, f1) then Some(c) else before)
            case RemoveFile(d1, f1) => after == (if (d, f) == (d1, f1) then None else before)
            case RemoveDir(_) => after == before
    ensures d in Apply(op, s) <==>
              if op.MoveDir? then d == op.to || (d in s && d != op.from)
              else if op.CreateDir? then d == op.dir || d in s
              else if op.RemoveDir? then d in s && d != op.dir
              else d in s
  {}

  // -------------------------------------------------------------------------
  // The phases of one publish
  // -------------------------------------------------------------------------

  datatype Phase = Before | Moving | Clearing | Rotated | Writing | Done

  function Rank(p: Phase): nat {
    match p
    case Before => 0 case Moving => 1 case Clearing => 2 case Rotated => 3 case Writing => 4 case Done => 5
  }

  /** What `previous` holds once `current` has been rotated out of the way, if it held anything. */
  function Retired(s0: Slots): Files {
    if s0.cur == NONE then s0.prev else s0.cur
  }

  /** State `t` belongs to phase `p` of publishing `b` from `s0`. */
  predicate InPhase(p: Phase, s0: Slots, b: FstArtifact, t: Slots) {
    match p
    case Before => t.cur == s0.cur && t.prev == s0.prev && Sub(t.tmp, s0.tmp)
    case Moving => t.cur.artifact == None && Sub(t.cur, s0.cur) && t.prev == s0.prev && Sub(t.tmp, s0.cur)
    case Clearing => t.cur == NONE && t.prev != s0.prev && Sub(t.prev, s0.prev) && t.tmp == s0.cur
    case Rotated => t.cur == NONE && t.prev == Retired(s0) && Sub(t.tmp, s0.tmp)
    case Writing => t.cur == FilesOf(b).(manifest := None) && t.prev == Retired(s0) && Sub(t.tmp, s0.tmp)
    case Done => t.cur == FilesOf(b) && t.prev == Retired(s0) && Sub(t.tmp, s0.tmp)
  }

  /** The states run through phases in order. */
  ghost predicate Phased(s0: Slots, b: FstArtifact, states: seq<State>, phases: seq<Phase>) {
    var n := |phases| - 1;
    && |phases| == |states| > 0
    && InPhase(phases[n], s0, b, SlotsOf(states[n]))
    && (n > 0 ==> Rank(phases[n - 1]) <= Rank(phases[n]) && Phased(s0, b, states[..n], phases[..n]))
  }

  lemma {:induction false} PhasesMatch(s0: Slots, b: FstArtifact, states: seq<State>, phases: seq<Phase>, i: nat)
    requires Phased(s0, b, states, phases) && i < |states|
    ensures InPhase(phases[i], s0, b, SlotsOf(states[i]))
  {
    var n := |phases| - 1;
    if i < n {
      PhasesMatch(s0, b, states[..n], phases[..n], i);
    }
  }

  lemma {:induction false} PhasesRise(s0: Slots, b: FstArtifact, states: seq<State>, phases: seq<Phase>, i: nat, j: nat)
    requires Phased(s0, b, states, phases) && i < j < |phases|
    ensures Rank(phases[i]) <= Rank(phases[j])
  {
    var n := |phases| - 1;
    if j < n {
      PhasesRise(s0, b, states[..n], phases[..n], i, j);
    } else if i < n - 1 {
      PhasesRise(s0, b, states[..n], phases[..n], i, n - 1);
    }
  }

  /** The record of one publish: from which state on, and the phase of each. */
  datatype Run = Run(s0: Slots, b: FstArtifact, from: nat, phases: seq<Phase>)

  ghost predicate Follows(run: Run, trace: seq<State>) {
    run.from < |trace| && Phased(run.s0, run.b, trace[run.from..], run.phases)
  }

  function Last(run: Run): Phase
    requires run.phases != []
  {
    run.phases[|run.phases| - 1]
  }

  function Entered(run: Run, p: Phase): Run {
    run.(phases := run.phases + [p])
  }

  lemma FollowsAppend(run: Run, trace: seq<State>, s: State, p: Phase)
    requires Follows(run, trace) && Rank(Last(run)) <= Rank(p) && InPhase(p, run.s0, run.b, SlotsOf(s))
    ensures Follows(Entered(run, p), trace + [s])
  {
    var states := trace[run.from..];
    assert (trace + [s])[run.from..] == states + [s];
    assert (states + [s])[..|states|] == states && (run.phases + [p])[..|states|] == run.phases;
  }

  /** `after` records what `run` did and more. */
  ghost predicate Continues(run: Run, after: Run) {
    after == run.(phases := after.phases) && 0 < |run.phases| <= |after.phases| && run.phases <= after.phases
  }

  /** One more step of the publish, into phase `p`. */
  method Advance(disk: Disk, op: Op, ghost p: Phase, ghost run: Run) returns (ghost after: Run)
    requires disk.Valid() && Enabled(op, disk.dirs) && Follows(run, disk.trace)
    requires Rank(Last(run)) <= Rank(p) && InPhase(p, run.s0, run.b, SlotsOf(Apply(op, disk.dirs)))
    modifies disk
    ensures disk.Valid() && disk.dirs == Apply(op, old(disk.dirs)) && disk.trace == old(disk.trace) + [disk.dirs]
    ensures after == Entered(run, p) && Continues(run, after) && Follows(after, disk.trace)
  {
    FollowsAppend(run, disk.trace, Apply(op, disk.dirs), p);
    disk.Do(op);
    after := Entered(run, p);
  }

  // -------------------------------------------------------------------------
  // Publish
  // -------------------------------------------------------------------------

  predicate Exists(s: State, slot: SlotName, file: FileName) {
    FileAt(s, slot, file).Some?
  }

  /** A step that at most takes something away from `dir`. */
  predicate Shrinks(s: State, t: State, dir: SlotName) {
    && Sub(FilesIn(t, dir), FilesIn(s, dir))
    && (dir != Current ==> FilesIn(t, Current) == FilesIn(s, Current) && (Current in t <==> Current in s))
    && (dir != Previous ==> FilesIn(t, Previous) == FilesIn(s, Previous) && (Previous in t <==> Previous in s))
    && (dir != PreviousTmp ==>
          FilesIn(t, PreviousTmp) == FilesIn(s, PreviousTmp) && (PreviousTmp in t <==> PreviousTmp in s))
  }

  ghost predicate ShrinksFrom(trace: seq<State>, from: nat, dir: SlotName) {
    forall i | 0 < from <= i < |trace| :: Shrinks(trace[i - 1], trace[i], dir)
  }

  /** One step of taking things away. */
  method TakeAway(disk: Disk, op: Op, dir: SlotName, ghost start: State, ghost from: nat)
    requires disk.Valid() && Enabled(op, disk.dirs) && Shrinks(disk.dirs, Apply(op, disk.dirs), dir)
    requires 0 < from <= |disk.trace| && ShrinksFrom(disk.trace, from, dir) && Shrinks(start, disk.dirs, dir)
    modifies disk
    ensures disk.Valid() && disk.dirs == Apply(op, old(disk.dirs)) && disk.trace == old(disk.trace) + [disk.dirs]
    ensures ShrinksFrom(disk.trace, from, dir) && Shrinks(start, disk.dirs, dir)
  {
    ShrinksTransitive(start, disk.dirs, Apply(op, disk.dirs), dir);
    ShrinksExtend(disk.trace, from, dir, Apply(op, disk.dirs));
    disk.Do(op);
  }

  /** Removes a directory file by file, in whatever order, and then itself. */
  method ClearDir(disk: Disk, dir: SlotName)
    requires disk.Valid()
    modifies disk
    ensures disk.Valid() && old(disk.trace) <= disk.trace
    ensures dir !in disk.dirs && Shrinks(old(disk.dirs), disk.dirs, dir)
    ensures ShrinksFrom(disk.trace, |old(disk.trace)|, dir)
  {
    if dir !in disk.dirs {
      return;
    }
    ghost var start, from := disk.dirs, |disk.trace|;
    while disk.dirs[dir] != map[]
      invariant disk.Valid() && old(disk.trace) <= disk.trace
      invariant dir in disk.dirs && Shrinks(start, disk.dirs, dir)
      invariant ShrinksFrom(disk.trace, from, dir)
      decreases |disk.dirs[dir]|
    {
      var file :| file in disk.dirs[dir];
      RemovalShrinks(disk.dirs, dir, file);
      TakeAway(disk, RemoveFile(dir, file), dir, start, from);
    }
    GoneShrinks(disk.dirs, dir);
    TakeAway(disk, RemoveDir(dir), dir, start, from);
  }

  lemma ShrinksExtend(trace: seq<State>, from: nat, dir: SlotName, s: State)
    requires 0 < from <= |trace| && ShrinksFrom(trace, from, dir) && Shrinks(trace[|trace| - 1], s, dir)
    ensures ShrinksFrom(trace + [s], from, dir)
  {}

  lemma ShrinksTransitive(r: State, s: State, t: State, dir: SlotName)
    requires Shrinks(r, s, dir) && Shrinks(s, t, dir)
    ensures Shrinks(r, t, dir)
  {}

  lemma GoneShrinks(s: State, dir: SlotName)
    requires dir in s
    ensures Shrinks(s, s - {dir}, dir)
  {}

  lemma RemovalShrinks(s: State, dir: SlotName, file: FileName)
    requires dir in s && file in s[dir]
    ensures Shrinks(s, Apply(RemoveFile(dir, file), s), dir)
    ensures |Apply(RemoveFile(dir, file), s)[dir]| < |s[dir]|
  {
    var t := s[dir] - {file};
    assert t.Keys == s[dir].Keys - {file};
    assert |t.Keys| == |s[dir].Keys| - 1;
    assert |t| == |t.Keys| && |s[dir]| == |s[dir].Keys|;
  }

  /** Clearing the leftover of an earlier rotation changes nothing a reader sees. */
  lemma {:induction false} TmpCleared(run: Run, trace: seq<State>, n: nat) returns (after: Run)
    requires n <= |trace| && Follows(run, trace[..n]) && Last(run) == Before
    requires ShrinksFrom(trace, n, PreviousTmp)
    ensures Continues(run, after) && Follows(after, trace) && Last(after) == Before
    decreases |trace| - n
  {
    if n == |trace| {
      assert trace[..n] == trace;
      after := run;
    } else {
      var next := Entered(run, Before);
      assert Shrinks(trace[n - 1], trace[n], PreviousTmp);
      FollowsOn(run, trace, n, Before);
      after := TmpCleared(next, trace, n + 1);
    }
  }

  /** The old fallback is being cleared, and the run has it that a file of it is gone, or none yet. */
  ghost predicate BeingCleared(run: Run, s: State) {
    var now := SlotsOf(s);
    && now.cur == NONE && now.tmp == run.s0.cur && Sub(now.prev, run.s0.prev)
    && run.phases != [] && Last(run) == if now.prev == run.s0.prev then Moving else Clearing
  }

  lemma ClearingStep(run: Run, s: State, t: State) returns (p: Phase)
    requires BeingCleared(run, s) && Shrinks(s, t, Previous)
    ensures Rank(Last(run)) <= Rank(p) && InPhase(p, run.s0, run.b, SlotsOf(t)) && BeingCleared(Entered(run, p), t)
  {
    p := if SlotsOf(t).prev == run.s0.prev then Moving else Clearing;
  }

  lemma ClearedOneMore(run: Run, trace: seq<State>, n: nat) returns (next: Run)
    requires 0 < n < |trace| && Follows(run, trace[..n]) && BeingCleared(run, trace[n - 1])
    requires Shrinks(trace[n - 1], trace[n], Previous)
    ensures Continues(run, next) && Follows(next, trace[..n + 1]) && BeingCleared(next, trace[n])
  {
    var p := ClearingStep(run, trace[n - 1], trace[n]);
    FollowsOn(run, trace, n, p);
    next := Entered(run, p);
  }

  /** Clearing the old fallback: once a file of it is gone, it stays gone. */
  lemma {:induction false} PreviousCleared(run: Run, trace: seq<State>, n: nat) returns (after: Run)
    requires 0 < n <= |trace| && Follows(run, trace[..n]) && BeingCleared(run, trace[n - 1])
    requires ShrinksFrom(trace, n, Previous)
    ensures Continues(run, after) && Follows(after, trace) && BeingCleared(after, trace[|trace| - 1])
    decreases |trace| - n
  {
    if n == |trace| {
      assert trace[..n] == trace;
      after := run;
    } else {
      var next := ClearedOneMore(run, trace, n);
      after := PreviousCleared(next, trace, n + 1);
    }
  }

  lemma FollowsOn(run: Run, trace: seq<State>, n: nat, p: Phase)
    requires n < |trace| && Follows(run, trace[..n]) && Rank(Last(run)) <= Rank(p)
    requires InPhase(p, run.s0, run.b, SlotsOf(trace[n]))
    ensures Follows(Entered(run, p), trace[..n + 1])
  {
    FollowsAppend(run, trace[..n], trace[n], p);
    assert trace[..n + 1] == trace[..n] + [trace[n]];
  }

  method ClearTmp(disk: Disk, ghost run: Run) returns (ghost after: Run)
    requires disk.Valid() && Follows(run, disk.trace) && Last(run) == Before && run.s0 == SlotsOf(disk.dirs)
    modifies disk
    ensures disk.Valid() && old(disk.trace) <= disk.trace && PreviousTmp !in disk.dirs
    ensures SlotsOf(disk.dirs) == run.s0.(tmp := NONE)
    ensures Current in disk.dirs <==> Current in old(disk.dirs)
    ensures Continues(run, after) && Follows(after, disk.trace) && Last(after) == Before
  {
    ghost var before := disk.trace;
    ClearDir(disk, PreviousTmp);
    assert disk.trace[..|before|] == before;
    after := TmpCleared(run, disk.trace, |before|);
  }

  method ClearPrevious(disk: Disk, ghost run: Run) returns (ghost after: Run)
    requires disk.Valid() && Follows(run, disk.trace) && Last(run) == Moving
    requires SlotsOf(disk.dirs) == Slots(NONE, run.s0.prev, run.s0.cur) && PreviousTmp in disk.dirs
    modifies disk
    ensures disk.Valid() && old(disk.trace) <= disk.trace && Previous !in disk.dirs && PreviousTmp in disk.dirs
    ensures SlotsOf(disk.dirs) == Slots(NONE, NONE, run.s0.cur)
    ensures Continues(run, after) && Follows(after, disk.trace)
    ensures Last(after) == if run.s0.prev == NONE then Moving else Clearing
  {
    ghost var before := disk.trace;
    ClearDir(disk, Previous);
    assert disk.trace[..|before|] == before;
    after := PreviousCleared(run, disk.trace, |before|);
  }

  method RotateFile(disk: Disk, file: FileName, ghost run: Run) returns (ghost after: Run)
    requires disk.Valid() && Follows(run, disk.trace) && Current in disk.dirs && PreviousTmp in disk.dirs
    requires file == ArtifactFst || file == ManifestBin
    requires file == ArtifactFst ==> Last(run) == Before && SlotsOf(disk.dirs) == Slots(run.s0.cur, run.s0.prev, NONE)
    requires file == ManifestBin ==>
               && Last(run) == (if run.s0.cur.artifact.Some? then Moving else Before)
               && SlotsOf(disk.dirs) == Slots(run.s0.cur.(artifact := None), run.s0.prev, run.s0.cur.(manifest := None))
    modifies disk
    ensures disk.Valid() && Current in disk.dirs && PreviousTmp in disk.dirs && old(disk.trace) <= disk.trace
    ensures Continues(run, after) && Follows(after, disk.trace)
    ensures file == ArtifactFst ==>
              && Last(after) == (if run.s0.cur.artifact.Some? then Moving else Before)
              && SlotsOf(disk.dirs) == Slots(run.s0.cur.(artifact := None), run.s0.prev, run.s0.cur.(manifest := None))
    ensures file == ManifestBin ==>
              && Last(after) == (if run.s0.cur != NONE then Moving else Before)
              && SlotsOf(disk.dirs) == Slots(NONE, run.s0.prev, run.s0.cur)
    ensures Previous in disk.dirs <==> Previous in old(disk.dirs)
  {
    after := run;
    if !Exists(disk.dirs, Current, file) {
      return;
    }
    after := Advance(disk, MoveFile(Current, file, PreviousTmp, file), Moving, after);
  }

  lemma MadeTmp(s: State)
    requires PreviousTmp !in s
    ensures SlotsOf(Apply(CreateDir(PreviousTmp), s)) == SlotsOf(s)
  {}

  lemma TmpBecomesPrevious(s: State)
    requires PreviousTmp in s && Previous !in s
    ensures SlotsOf(Apply(MoveDir(PreviousTmp, Previous), s))
         == Slots(FilesIn(s, Current), FilesIn(s, PreviousTmp), NONE)
  {}

  /** An empty directory to collect the old build in. */
  method PrepareTmp(disk: Disk, ghost run: Run) returns (ghost after: Run)
    requires disk.Valid() && Follows(run, disk.trace) && Last(run) == Before && run.s0 == SlotsOf(disk.dirs)
    modifies disk
    ensures disk.Valid() && old(disk.trace) <= disk.trace && PreviousTmp in disk.dirs
    ensures SlotsOf(disk.dirs) == run.s0.(tmp := NONE)
    ensures Current in disk.dirs <==> Current in old(disk.dirs)
    ensures Continues(run, after) && Follows(after, disk.trace) && Last(after) == Before
  {
    after := ClearTmp(disk, run);
    MadeTmp(disk.dirs);
    after := Advance(disk, CreateDir(PreviousTmp), Before, after);
  }

  method MoveOut(disk: Disk, ghost run: Run) returns (ghost after: Run)
    requires disk.Valid() && Follows(run, disk.trace) && Last(run) == Before
    requires run.s0 == SlotsOf(disk.dirs) && run.s0.cur != NONE
    modifies disk
    ensures disk.Valid() && old(disk.trace) <= disk.trace && PreviousTmp in disk.dirs
    ensures SlotsOf(disk.dirs) == Slots(NONE, run.s0.prev, run.s0.cur)
    ensures Continues(run, after) && Follows(after, disk.trace) && Last(after) == Moving
  {
    after := PrepareTmp(disk, run);
    after := RotateFile(disk, ArtifactFst, after);
    after := RotateFile(disk, ManifestBin, after);
  }

  lemma StillVisited(run: Run, after: Run)
    requires Continues(run, after)
    ensures forall p | p in run.phases :: p in after.phases
    ensures Last(run) in after.phases
  {
    assert Last(run) in run.phases;
  }

  method Retire(disk: Disk, ghost run: Run) returns (ghost after: Run)
    requires disk.Valid() && Follows(run, disk.trace) && Last(run) == Moving && run.s0.cur != NONE
    requires SlotsOf(disk.dirs) == Slots(NONE, run.s0.prev, run.s0.cur) && PreviousTmp in disk.dirs
    modifies disk
    ensures disk.Valid() && old(disk.trace) <= disk.trace
    ensures SlotsOf(disk.dirs) == Slots(NONE, run.s0.cur, NONE)
    ensures Continues(run, after) && Follows(after, disk.trace)
    ensures Last(after) == Rotated && Rotated in after.phases
    ensures run.s0.prev != NONE ==> Clearing in after.phases
  {
    ghost var cleared := ClearPrevious(disk, run);
    TmpBecomesPrevious(disk.dirs);
    after := Advance(disk, MoveDir(PreviousTmp, Previous), Rotated, cleared);
    StillVisited(cleared, after);
    StillVisited(after, after);
  }

  method RotateCurrentIntoPrevious(disk: Disk, ghost run: Run) returns (ghost after: Run)
    requires disk.Valid() && Follows(run, disk.trace) && Last(run) == Before && run.s0 == SlotsOf(disk.dirs)
    modifies disk
    ensures disk.Valid() && old(disk.trace) <= disk.trace
    ensures Continues(run, after) && Follows(after, disk.trace) && Rank(Last(after)) <= Rank(Rotated)
    ensures InPhase(Rotated, run.s0, run.b, SlotsOf(disk.dirs))
    ensures run.s0.cur != NONE ==> Moving in after.phases && Rotated in after.phases
    ensures run.s0.cur != NONE && run.s0.prev != NONE ==> Clearing in after.phases
  {
    if !Exists(disk.dirs, Current, ArtifactFst) && !Exists(disk.dirs, Current, ManifestBin) {
      return run;
    }
    ghost var moved := MoveOut(disk, run);
    after := Retire(disk, moved);
    StillVisited(moved, after);
  }

  function WithFile(f: Files, file: FileName, content: Content): Files {
    match file
    case ArtifactFst => f.(artifact := Some(content))
    case ManifestBin => f.(manifest := Some(content))
    case _ => f
  }

  lemma WriteTmp(s: State, tmp: FileName, content: Content)
    requires Current in s && (tmp == ArtifactTmp || tmp == ManifestTmp)
    ensures SlotsOf(Apply(WriteFile(Current, tmp, content), s)) == SlotsOf(s)
  {}

  lemma RenameTmp(s: State, tmp: FileName, file: FileName)
    requires Current in s && tmp in s[Current] && (tmp == ArtifactTmp || tmp == ManifestTmp)
    requires file == ArtifactFst || file == ManifestBin
    ensures var t := Apply(MoveFile(Current, tmp, Current, file), s);
            SlotsOf(t) == SlotsOf(s).(cur := WithFile(FilesIn(s, Current), file, s[Current][tmp]))
  {}

  /** One write of a temporary file, which no slot shows. */
  method WriteOnce(disk: Disk, tmp: FileName, content: Content, ghost now: Phase, ghost run: Run)
    returns (ghost after: Run)
    requires disk.Valid() && Follows(run, disk.trace) && Current in disk.dirs
    requires tmp == ArtifactTmp || tmp == ManifestTmp
    requires Rank(Last(run)) <= Rank(now) && InPhase(now, run.s0, run.b, SlotsOf(disk.dirs))
    modifies disk
    ensures disk.Valid() && old(disk.trace) <= disk.trace
    ensures Current in disk.dirs && FileAt(disk.dirs, Current, tmp) == Some(content)
    ensures SlotsOf(disk.dirs) == SlotsOf(old(disk.dirs))
    ensures Continues(run, after) && Follows(after, disk.trace) && Last(after) == now
  {
    WriteTmp(disk.dirs, tmp, content);
    after := Advance(disk, WriteFile(Current, tmp, content), now, run);
  }

  /** Writing a temporary file: a crash may find part of it. */
  method WriteWhole(disk: Disk, tmp: FileName, content: Content, ghost now: Phase, ghost run: Run)
    returns (ghost after: Run)
    requires disk.Valid() && Follows(run, disk.trace) && Current in disk.dirs
    requires tmp == ArtifactTmp || tmp == ManifestTmp
    requires Rank(Last(run)) <= Rank(now) && InPhase(now, run.s0, run.b, SlotsOf(disk.dirs))
    modifies disk
    ensures disk.Valid() && old(disk.trace) <= disk.trace
    ensures Current in disk.dirs && FileAt(disk.dirs, Current, tmp) == Some(content)
    ensures SlotsOf(disk.dirs) == SlotsOf(old(disk.dirs))
    ensures Continues(run, after) && Follows(after, disk.trace) && Last(after) == now
  {
    after := WriteOnce(disk, tmp, Torn, now, run);
    after := WriteOnce(disk, tmp, content, now, after);
  }

  /** The whole file under a temporary name, then the rename that takes phase `now` to `next`. */
  method AtomicWrite(disk: Disk, file: FileName, content: Content, ghost now: Phase, ghost next: Phase, ghost run: Run)
    returns (ghost after: Run)
    requires disk.Valid() && Follows(run, disk.trace) && Current in disk.dirs
    requires file == ArtifactFst || file == ManifestBin
    requires Rank(Last(run)) <= Rank(now) <= Rank(next)
    requires InPhase(now, run.s0, run.b, SlotsOf(disk.dirs))
    requires InPhase(next, run.s0, run.b,
                     SlotsOf(disk.dirs).(cur := WithFile(FilesIn(disk.dirs, Current), file, content)))
    modifies disk
    ensures disk.Valid() && Current in disk.dirs && old(disk.trace) <= disk.trace
    ensures SlotsOf(disk.dirs)
         == old(SlotsOf(disk.dirs).(cur := WithFile(FilesIn(disk.dirs, Current), file, content)))
    ensures Continues(run, after) && Follows(after, disk.trace)
    ensures Last(after) == next && now in after.phases
  {
    var tmp := if file == ArtifactFst then ArtifactTmp else ManifestTmp;
    ghost var whole := WriteWhole(disk, tmp, content, now, run);
    RenameTmp(disk.dirs, tmp, file);
    after := Advance(disk, MoveFile(Current, tmp, Current, file), next, whole);
    StillVisited(whole, after);
  }

  method WriteArtifact(disk: Disk, b: FstArtifact, ghost run: Run) returns (ghost after: Run)
    requires disk.Valid() && Follows(run, disk.trace) && run.b == b && Rank(Last(run)) <= Rank(Rotated)
    requires InPhase(Rotated, run.s0, run.b, SlotsOf(disk.dirs))
    modifies disk
    ensures disk.Valid() && old(disk.trace) <= disk.trace && Current in disk.dirs
    ensures Continues(run, after) && Follows(after, disk.trace)
    ensures Last(after) == Writing && InPhase(Writing, run.s0, run.b, SlotsOf(disk.dirs)) && Rotated in after.phases
  {
    ghost var made := Advance(disk, CreateDir(Current), Rotated, run);
    after := AtomicWrite(disk, ArtifactFst, FstBytes(b.fst), Rotated, Writing, made);
  }

  method WriteBuild(disk: Disk, b: FstArtifact, ghost run: Run) returns (ghost after: Run)
    requires disk.Valid() && Follows(run, disk.trace) && run.b == b && Rank(Last(run)) <= Rank(Rotated)
    requires InPhase(Rotated, run.s0, run.b, SlotsOf(disk.dirs))
    modifies disk
    ensures disk.Valid() && old(disk.trace) <= disk.trace
    ensures Continues(run, after) && Follows(after, disk.trace)
    ensures Last(after) == Done && InPhase(Done, run.s0, run.b, SlotsOf(disk.dirs))
    ensures Rotated in after.phases && Writing in after.phases && Done in after.phases
  {
    ghost var half := WriteArtifact(disk, b, run);
    after := AtomicWrite(disk, ManifestBin, ManifestBytes(b.manifest), Writing, Done, half);
    StillVisited(half, after);
    StillVisited(after, after);
  }

  method Publish(disk: Disk, b: FstArtifact) returns (ghost run: Run)
    requires disk.Valid()
    modifies disk
    ensures disk.Valid() && old(disk.trace) <= disk.trace
    ensures run == Run(SlotsOf(old(disk.dirs)), b, |old(disk.trace)| - 1, run.phases) && Follows(run, disk.trace)
    ensures SlotsOf(disk.dirs).cur == FilesOf(b) && SlotsOf(disk.dirs).prev == Retired(run.s0)
    ensures Visits(run)
  {
    ghost var start := Run(SlotsOf(disk.dirs), b, |disk.trace| - 1, [Before]);
    assert disk.trace[start.from..] == [disk.dirs];
    ghost var rotated := RotateCurrentIntoPrevious(disk, start);
    run := WriteBuild(disk, b, rotated);
    StillVisited(start, rotated);
    StillVisited(rotated, run);
  }

  /** A finished publish has been through every phase, but for rotating or clearing what was not there. */
  ghost predicate Visits(run: Run) {
    forall p: Phase ::
      (p == Moving ==> run.s0.cur != NONE) && (p == Clearing ==> run.s0.cur != NONE && run.s0.prev != NONE) ==>
        p in run.phases
  }

  // -------------------------------------------------------------------------
  // No slot ever mixes two builds
  // -------------------------------------------------------------------------

  /** The files come from one build, though some may be missing. */
  ghost predicate OneBuild(f: Files, builds: seq<FstArtifact>) {
    f == NONE || exists b :: b in builds && Sub(f, FilesOf(b))
  }

  ghost predicate Consistent(s: Slots, builds: seq<FstArtifact>) {
    OneBuild(s.cur, builds) && OneBuild(s.prev, builds) && OneBuild(s.tmp, builds)
  }

  /** `s` can be on disk after publishing `builds` in turn from an empty disk, each publish cut anywhere. */
  ghost predicate Reachable(s: Slots, builds: seq<FstArtifact>)
    decreases |builds|
  {
    if builds == [] then s == Slots(NONE, NONE, NONE)
    else
      var n := |builds| - 1;
      exists s0, p :: Reachable(s0, builds[..n]) && InPhase(p, s0, builds[n], s)
  }

  lemma OneBuildSub(f: Files, g: Files, builds: seq<FstArtifact>, more: seq<FstArtifact>)
    requires OneBuild(g, builds) && Sub(f, g) && builds <= more
    ensures OneBuild(f, more)
  {
    if g != NONE {
      var b :| b in builds && Sub(g, FilesOf(b));
      assert b in more && Sub(f, FilesOf(b));
    }
  }

  lemma PhaseConsistent(s0: Slots, builds: seq<FstArtifact>, b: FstArtifact, p: Phase, s: Slots)
    requires Consistent(s0, builds) && InPhase(p, s0, b, s)
    ensures Consistent(s, builds + [b])
  {
    var more := builds + [b];
    assert OneBuild(FilesOf(b), more) by { assert b in more; }
    forall f, g | (g == s0.cur || g == s0.prev || g == s0.tmp) && Sub(f, g) ensures OneBuild(f, more) {
      OneBuildSub(f, g, builds, more);
    }
    if s.cur == FilesOf(b).(manifest := None) {
      assert Sub(s.cur, FilesOf(b));
      OneBuildSub(s.cur, FilesOf(b), more, more);
    }
  }

  /** Over any sequence of publishes, each cut after any step, no slot holds files of two builds. */
  lemma {:induction false} NeverMixed(s: Slots, builds: seq<FstArtifact>)
    requires Reachable(s, builds)
    ensures Consistent(s, builds)
    decreases |builds|
  {
    if builds != [] {
      var n := |builds| - 1;
      var s0, p :| Reachable(s0, builds[..n]) && InPhase(p, s0, builds[n], s);
      NeverMixed(s0, builds[..n]);
      PhaseConsistent(s0, builds[..n], builds[n], p, s);
      assert builds[..n] + [builds[n]] == builds;
    }
  }

  /**
   Every state a publish records, begun on a disk that earlier publishes may have left half done, is
   one that cut publishes can leave, and mixes no builds.
   */
  lemma RecordedIsReachable(run: Run, trace: seq<State>, builds: seq<FstArtifact>, i: nat)
    requires Follows(run, trace) && Reachable(run.s0, builds) && run.from <= i < |trace|
    ensures Reachable(SlotsOf(trace[i]), builds + [run.b]) && Consistent(SlotsOf(trace[i]), builds + [run.b])
  {
    PhaseAt(run, trace, i);
    assert (builds + [run.b])[..|builds|] == builds;
    NeverMixed(SlotsOf(trace[i]), builds + [run.b]);
  }

  // -------------------------------------------------------------------------
  // What the loader finds, phase by phase
  // -------------------------------------------------------------------------

  function DirOf(s: State, slot: SlotName): Option<Dir> {
    if slot in s then Some(s[slot]) else None
  }

  /** A build that a device trusting `trusted` accepts. */
  ghost predicate Good(crypto: Crypto, trusted: seq<(string, int)>, b: FstArtifact) {
    Verifies(crypto, b.manifest, trusted) && crypto.digest(FstBytes(b.fst)) == b.manifest.fstDigest
  }

  function AsLoaded(b: FstArtifact): BlocklistArtifact {
    BlocklistArtifact(b.fst, b.manifest.provenanceTable, b.manifest.version)
  }

  ghost function Loaded(crypto: Crypto, s: State, trusted: seq<(string, int)>)
    : Result<BlocklistArtifact, ArtifactError>
  {
    LoadFrom(crypto, DirOf(s, Current), DirOf(s, Previous), trusted)
  }

  lemma SlotLoads(crypto: Crypto, s: State, slot: SlotName, trusted: seq<(string, int)>, b: FstArtifact)
    requires Good(crypto, trusted, b)
    ensures FilesIn(s, slot) == FilesOf(b) ==> LoadSlot(crypto, DirOf(s, slot), trusted) == Ok(AsLoaded(b))
    ensures Sub(FilesIn(s, slot), FilesOf(b)) && FilesIn(s, slot) != FilesOf(b) ==>
              LoadSlot(crypto, DirOf(s, slot), trusted).Err?
  {}

  /** With both slots loadable, what a start-up finds at every step of one publish. */
  lemma LoaderInPhase(crypto: Crypto, trusted: seq<(string, int)>, p: Phase, s0: Slots, t: State,
                      b0: FstArtifact, b1: FstArtifact, b2: FstArtifact)
    requires Good(crypto, trusted, b0) && Good(crypto, trusted, b1) && Good(crypto, trusted, b2)
    requires s0.cur == FilesOf(b1) && s0.prev == FilesOf(b0) && InPhase(p, s0, b2, SlotsOf(t))
    ensures match p
            case Before => Loaded(crypto, t, trusted) == Ok(AsLoaded(b1))
            case Moving => Loaded(crypto, t, trusted) == Ok(AsLoaded(b0))
            case Clearing => Loaded(crypto, t, trusted).Err?
            case Rotated => Loaded(crypto, t, trusted) == Ok(AsLoaded(b1))
            case Writing => Loaded(crypto, t, trusted) == Ok(AsLoaded(b1))
            case Done => Loaded(crypto, t, trusted) == Ok(AsLoaded(b2))
  {
    SlotLoads(crypto, t, Current, trusted, b1);
    SlotLoads(crypto, t, Current, trusted, b2);
    SlotLoads(crypto, t, Previous, trusted, b0);
    SlotLoads(crypto, t, Previous, trusted, b1);
  }

  /**
   One publish over two loadable slots: the loader goes through current v1, previous v0, nothing,
   previous v1, current v2, in this order, each at least once.
   */
  lemma LoaderRunsThrough(crypto: Crypto, trusted: seq<(string, int)>, run: Run, trace: seq<State>,
                          b0: FstArtifact, b1: FstArtifact) returns (c: nat, d: nat, e: nat, f: nat)
    requires Good(crypto, trusted, b0) && Good(crypto, trusted, b1) && Good(crypto, trusted, run.b)
    requires Follows(run, trace) && run.s0.cur == FilesOf(b1) && run.s0.prev == FilesOf(b0)
    requires Visits(run)
    ensures run.from < c < d < e < f < |trace|
    ensures forall i | run.from <= i < |trace| :: LoadsAs(crypto, trusted, trace[i], i, c, d, e, f, b0, b1, run.b)
  {
    RunInOrder(run, trace);
    var c0 := FirstAt(run.phases, Moving);
    var d0 := FirstAt(run.phases, Clearing);
    var e0 := FirstAt(run.phases, Rotated);
    var f0 := FirstAt(run.phases, Done);
    c, d, e, f := run.from + c0, run.from + d0, run.from + e0, run.from + f0;
    forall i | run.from <= i < |trace| ensures LoadsAs(crypto, trusted, trace[i], i, c, d, e, f, b0, b1, run.b) {
      PhaseAt(run, trace, i);
      PhaseLoadsAs(crypto, trusted, run.phases[i - run.from], run.s0, trace[i], i, c, d, e, f, b0, b1, run.b);
    }
  }

  lemma PhaseAt(run: Run, trace: seq<State>, i: nat)
    requires Follows(run, trace) && run.from <= i < |trace|
    ensures |run.phases| == |trace| - run.from
    ensures InPhase(run.phases[i - run.from], run.s0, run.b, SlotsOf(trace[i]))
  {
    PhasesMatch(run.s0, run.b, trace[run.from..], run.phases, i - run.from);
    assert trace[run.from..][i - run.from] == trace[i];
  }

  lemma PhaseLoadsAs(crypto: Crypto, trusted: seq<(string, int)>, p: Phase, s0: Slots, t: State,
                     i: nat, c: nat, d: nat, e: nat, f: nat, b0: FstArtifact, b1: FstArtifact, b2: FstArtifact)
    requires Good(crypto, trusted, b0) && Good(crypto, trusted, b1) && Good(crypto, trusted, b2)
    requires s0.cur == FilesOf(b1) && s0.prev == FilesOf(b0) && InPhase(p, s0, b2, SlotsOf(t))
    requires (Rank(p) >= 1 <==> i >= c) && (Rank(p) >= 2 <==> i >= d)
    requires (Rank(p) >= 3 <==> i >= e) && (Rank(p) >= 5 <==> i >= f)
    ensures LoadsAs(crypto, trusted, t, i, c, d, e, f, b0, b1, b2)
  {
    LoaderInPhase(crypto, trusted, p, s0, t, b0, b1, b2);
  }

  /** What loading state `t` gives at time `i`, when the four changes come at `c`, `d`, `e` and `f`. */
  ghost predicate LoadsAs(crypto: Crypto, trusted: seq<(string, int)>, t: State, i: nat,
                          c: nat, d: nat, e: nat, f: nat, b0: FstArtifact, b1: FstArtifact, b2: FstArtifact)
  {
    var r := Loaded(crypto, t, trusted);
    if i < c then r == Ok(AsLoaded(b1))
    else if i < d then r == Ok(AsLoaded(b0))
    else if i < e then r.Err?
    else if i < f then r == Ok(AsLoaded(b1))
    else r == Ok(AsLoaded(b2))
  }

  ghost predicate InOrder(phases: seq<Phase>) {
    forall i, j | 0 <= i < j < |phases| :: Rank(phases[i]) <= Rank(phases[j])
  }

  lemma RunInOrder(run: Run, trace: seq<State>)
    requires Follows(run, trace)
    ensures InOrder(run.phases) && |run.phases| == |trace| - run.from
  {
    forall i, j | 0 <= i < j < |run.phases| ensures Rank(run.phases[i]) <= Rank(run.phases[j]) {
      PhasesRise(run.s0, run.b, trace[run.from..], run.phases, i, j);
    }
  }

  /** Where the phases of rank `r` or more begin. */
  lemma FirstAt(phases: seq<Phase>, p: Phase) returns (k: nat)
    requires InOrder(phases) && p in phases && Before in phases && Rank(p) > 0
    ensures 0 < k < |phases| && Rank(phases[k]) == Rank(p)
    ensures forall i | 0 <= i < |phases| :: Rank(phases[i]) >= Rank(p) <==> i >= k
  {
    k :| k < |phases| && phases[k] == p;
    while k > 0 && Rank(phases[k - 1]) == Rank(p)
      invariant k < |phases| && Rank(phases[k]) == Rank(p)
    {
      k := k - 1;
    }
  }
}
