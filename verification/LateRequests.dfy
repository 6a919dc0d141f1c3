/**
 Asking for a name whose answer is already cached: when the lookup protocol does it, and when not.

 The worker caches an answer before it takes the in-flight entry out, so that a call arriving in between
 finds the answer.  A call that read the cache before that, and registers after it, still asks again.
 */
module LateRequests {
  import opened Wrappers
  import opened Artifact
  import opened LookupProtocol
  import Lru

  // -------------------------------------------------------------------------
  // The cache along a run
  // -------------------------------------------------------------------------

  /** From storing the answer to having sent it. */
  predicate HasStored(w: Worker) {
    w.Stored? || w.Numbered? || w.Answering?
  }

  /** No key is cached twice, and an answer being handed out is in the cache. */
  ghost predicate CacheRight(s: State) {
    && Lru.DistinctItems(s.cache)
    && (HasStored(s.worker) ==> Lru.Get(s.cache, s.worker.domain).1 == Some(s.worker.decision))
  }

  /** The step stores an answer for `d`. */
  predicate Stores(s: State, step: Step, d: string) {
    step.StoreDecision? && s.worker.Decided? && s.worker.domain == d
  }

  /** The step stores an answer that pushes the one for `d` out of a full cache. */
  predicate PushesOut(env: Env, s: State, step: Step, d: string) {
    step.StoreDecision? && s.worker.Decided? && Lru.PushesOut(Capacity(env), s.cache, s.worker.domain, d)
  }

  /** What one step does to the cache. */
  lemma CacheStep(env: Env, s: State, step: Step, s': State, d: string)
    requires Apply(env, s, step) == Some(s') && Lru.DistinctItems(s.cache)
    ensures Lru.DistinctItems(s'.cache)
    ensures Lru.Has(s'.cache, d) <==> Stores(s, step, d) || (Lru.Has(s.cache, d) && !PushesOut(env, s, step, d))
  {
    match step {
      case ReadCache(id) => Lru.GetHas(s.cache, s.calls[id].domain, d);
      case ReadCacheLate(id) => Lru.GetHas(s.cache, s.calls[id].domain, d);
      case StoreDecision => Lru.PutHas(Capacity(env), s.cache, s.worker.domain, s.worker.decision, d);
      case _ => assert s'.cache == s.cache;
    }
  }

  lemma CacheRightStep(env: Env, s: State, step: Step, s': State)
    requires CacheRight(s) && Apply(env, s, step) == Some(s')
    ensures CacheRight(s')
  {
    CacheStep(env, s, step, s', "");
    match step {
      case ReadCache(id) => ReadKeepsAnswer(s, id);
      case ReadCacheLate(id) => ReadKeepsAnswer(s, id);
      case StoreDecision => Lru.PutIsRead(Capacity(env), s.cache, s.worker.domain, s.worker.decision);
      case _ => assert s'.cache == s.cache;
    }
  }

  lemma ReadKeepsAnswer(s: State, id: nat)
    requires CacheRight(s) && id in s.calls
    ensures HasStored(s.worker) ==>
              Lru.Get(Lru.Get(s.cache, s.calls[id].domain).0, s.worker.domain).1 == Some(s.worker.decision)
  {
    if HasStored(s.worker) {
      Lru.GetKeepsValues(s.cache, s.calls[id].domain, s.worker.domain);
    }
  }

  lemma {:induction false} CacheRightOnEveryRun(env: Env, steps: seq<Step>)
    requires Run(env, steps).Some?
    ensures CacheRight(Run(env, steps).value)
  {
    if steps != [] {
      var n := |steps| - 1;
      CacheRightOnEveryRun(env, steps[..n]);
      CacheRightStep(env, Run(env, steps[..n]).value, steps[n], Run(env, steps).value);
    }
  }

  /**
   A call whose cache read comes between the worker's storing the answer for that name and its having
   sent it is served by that very answer, whether or not the in-flight entry is still there.
   */
  lemma BetweenTheSteps(env: Env, steps: seq<Step>, id: nat)
    requires Run(env, steps).Some? && At(Run(env, steps).value, id, Entered)
    requires var s := Run(env, steps).value; HasStored(s.worker) && s.worker.domain == s.calls[id].domain
    ensures var s := Run(env, steps).value;
            var next := Run(env, steps + [ReadCache(id)]);
            next.Some? && At(next.value, id, Done(OrProxy(s.worker.decision))) && next.value.inflight == s.inflight
  {
    CacheRightOnEveryRun(env, steps);
    RunMore(env, steps, ReadCache(id));
  }

  // -------------------------------------------------------------------------
  // Exactly when a cached name is asked for again
  // -------------------------------------------------------------------------

  /**
   Looking back over the steps: an answer for `d` was stored after call `id` read the cache, and no later
   one has pushed it out.
   */
  ghost predicate StoredSinceRead(env: Env, steps: seq<Step>, id: nat, d: string)
    requires Run(env, steps).Some?
    decreases |steps|
  {
    steps != [] &&
      var n := |steps| - 1;
      var s := Run(env, steps[..n]).value;
      if steps[n] == ReadCache(id) || PushesOut(env, s, steps[n], d) then false
      else if Stores(s, steps[n], d) then ReadCache(id) in steps[..n]
      else StoredSinceRead(env, steps[..n], id, d)
  }

  /** How a call comes to have missed: by reading a cache without the name, or by no step of its own. */
  lemma MissedStep(env: Env, s: State, step: Step, s': State, id: nat)
    requires Apply(env, s, step) == Some(s') && At(s', id, Missed)
    ensures id in s.calls && s.calls[id].domain == s'.calls[id].domain
    ensures if step == ReadCache(id) then !Lru.Has(s.cache, s.calls[id].domain) else At(s, id, Missed)
  {}

  lemma {:induction false} MissedHasRead(env: Env, steps: seq<Step>, id: nat)
    requires Run(env, steps).Some? && At(Run(env, steps).value, id, Missed)
    ensures ReadCache(id) in steps
  {
    if steps != [] {
      var n := |steps| - 1;
      MissedStep(env, Run(env, steps[..n]).value, steps[n], Run(env, steps).value, id);
      if steps[n] != ReadCache(id) { MissedHasRead(env, steps[..n], id); }
    }
  }

  /** A call that has missed finds its name in the cache exactly when the answer came after its read. */
  lemma {:induction false} CachedIffStoredSinceRead(env: Env, steps: seq<Step>, id: nat)
    requires Run(env, steps).Some? && At(Run(env, steps).value, id, Missed)
    ensures var s := Run(env, steps).value;
            var d := s.calls[id].domain;
            Lru.Has(s.cache, d) <==> StoredSinceRead(env, steps, id, d)
  {
    if steps != [] {
      var n := |steps| - 1;
      var s, s' := Run(env, steps[..n]).value, Run(env, steps).value;
      var d := s'.calls[id].domain;
      CacheRightOnEveryRun(env, steps[..n]);
      CacheStep(env, s, steps[n], s', d);
      MissedStep(env, s, steps[n], s', id);
      if steps[n] != ReadCache(id) {
        MissedHasRead(env, steps[..n], id);
        CachedIffStoredSinceRead(env, steps[..n], id);
      }
    }
  }

  /**
   The exact condition under which a call, on registering, becomes the one to send a request for a name
   whose answer is in the cache: the name is not in flight, and the answer was stored after the call read
   the cache.
   */
  lemma SecondRequestIff(env: Env, steps: seq<Step>, id: nat)
    requires Run(env, steps).Some? && At(Run(env, steps).value, id, Missed)
    ensures var s := Run(env, steps).value;
            var d := s.calls[id].domain;
            var next := Run(env, steps + [Register(id)]);
            && next.Some?
            && (Lru.Has(next.value.cache, d) && At(next.value, id, Owner) <==>
                d !in s.inflight && StoredSinceRead(env, steps, id, d))
  {
    CachedIffStoredSinceRead(env, steps, id);
    RunMore(env, steps, Register(id));
  }

  // -------------------------------------------------------------------------
  // It happens
  // -------------------------------------------------------------------------

  /** `steps` followed by `step` leads on from `s` to `s'`. */
  lemma Then(env: Env, steps: seq<Step>, s: State, step: Step, s': State) returns (more: seq<Step>)
    requires Run(env, steps) == Some(s) && Apply(env, s, step) == Some(s')
    ensures more == steps + [step] && Run(env, more) == Some(s')
  {
    more := steps + [step];
    RunMore(env, steps, step);
  }

  function Caller(d: string, phase: Phase): Call {
    Call(d, phase, Open, false)
  }

  function Both(a: Call, b: Call): map<nat, Call> {
    map[0 := a, 1 := b]
  }

  lemma BothUpdated(a: Call, b: Call, c: Call)
    ensures Both(a, b)[0 := c] == Both(c, b) && Both(a, b)[1 := c] == Both(a, c)
  {}

  /** One caller only. */
  function Alone(d: string, phase: Phase): State {
    InitialState().(calls := map[0 := Caller(d, phase)])
  }

  /** Two callers, and nothing asked yet. */
  function Pair(d: string, first: Phase, second: Phase): State {
    InitialState().(calls := Both(Caller(d, first), Caller(d, second)))
  }

  lemma BothMissSteps(env: Env, d: string)
    ensures Apply(env, InitialState(), Enter(0, d)) == Some(Alone(d, Entered))
    ensures Apply(env, Alone(d, Entered), ReadCache(0)) == Some(Alone(d, Missed))
    ensures Apply(env, Alone(d, Missed), Enter(1, d)) == Some(Pair(d, Missed, Entered))
    ensures Apply(env, Pair(d, Missed, Entered), ReadCache(1)) == Some(Pair(d, Missed, Missed))
  {
    assert Alone(d, Entered).calls[0 := Caller(d, Missed)] == Alone(d, Missed).calls;
    assert Alone(d, Missed).calls[1 := Caller(d, Entered)] == Both(Caller(d, Missed), Caller(d, Entered));
    BothUpdated(Caller(d, Missed), Caller(d, Entered), Caller(d, Missed));
  }

  /** Caller 0 owns the in-flight entry. */
  function Owned(d: string): State {
    Pair(d, Owner, Missed).(inflight := map[d := [0]])
  }

  /** Caller 0 has asked. */
  function Asked(d: string): State {
    Pair(d, Waiting, Missed).(inflight := map[d := [0]], queue := [d])
  }

  lemma FirstAsksSteps(env: Env, d: string)
    ensures Apply(env, Pair(d, Missed, Missed), Register(0)) == Some(Owned(d))
    ensures Apply(env, Owned(d), TrySend(0)) == Some(Asked(d))
  {
    BothUpdated(Caller(d, Missed), Caller(d, Missed), Caller(d, Owner));
    BothUpdated(Caller(d, Owner), Caller(d, Missed), Caller(d, Waiting));
    assert [] + [d] == [d];
  }

  /** The worker is at work on the first request. */
  function Working(d: string, worker: Worker): State {
    Asked(d).(queue := [], worker := worker, taken := [d])
  }

  lemma FirstIsTaken(env: Env, d: string)
    ensures Apply(env, Asked(d), TakeRequest) == Some(Working(d, Took(d, 0)))
  {
    assert [d][1..] == [] && [] + [d] == [d];
  }

  lemma FirstIsDecided(env: Env, d: string)
    ensures Apply(env, Working(d, Took(d, 0)), Decide(false))
         == Some(Working(d, Decided(d, 0, ArtifactDecision(env, d))))
  {}

  /** The decision `v` is in the cache. */
  function Caching(d: string, v: Decision): State {
    Working(d, Stored(d, 0, v)).(cache := [(d, v)])
  }

  /** And counted, but the in-flight entry is still there. */
  function Counting(d: string, v: Decision): State {
    Working(d, Numbered(d, 0, v)).(cache := [(d, v)], workerRequests := 1)
  }

  lemma FirstIsCachedSteps(env: Env, d: string, v: Decision)
    ensures Apply(env, Working(d, Decided(d, 0, v)), StoreDecision) == Some(Caching(d, v))
    ensures Apply(env, Caching(d, v), CountRequest) == Some(Counting(d, v))
  {
    assert [] + [(d, v)] == [(d, v)];
  }

  /** The in-flight entry is gone, and the worker has callers to answer, or none left. */
  function Handing(d: string, v: Decision, first: Call, waiters: seq<nat>): State {
    Counting(d, v).(calls := Both(first, Caller(d, Missed)), worker := Answering(d, 0, v, waiters), inflight := map[])
  }

  /** Caller 0 with its answer. */
  function Told(d: string, v: Decision): Call {
    Call(d, Waiting, Answered(v, 0), false)
  }

  /** Caller 0 has its answer and the worker is idle again. */
  function Served(d: string, v: Decision): State {
    Handing(d, v, Told(d, v), []).(worker := Idle)
  }

  lemma FirstIsServedSteps(env: Env, d: string, v: Decision)
    ensures Apply(env, Counting(d, v), Detach) == Some(Handing(d, v, Caller(d, Waiting), [0]))
    ensures Apply(env, Handing(d, v, Caller(d, Waiting), [0]), AnswerOne) == Some(Handing(d, v, Told(d, v), []))
    ensures Apply(env, Handing(d, v, Told(d, v), []), Finish) == Some(Served(d, v))
  {
    assert map[d := [0]] - {d} == map[];
    assert [0][1..] == [];
    BothUpdated(Caller(d, Waiting), Caller(d, Missed), Told(d, v));
  }

  /** Caller 1 owns a new in-flight entry. */
  function Reowned(d: string, v: Decision): State {
    Served(d, v).(calls := Both(Told(d, v), Caller(d, Owner)), inflight := map[d := [1]])
  }

  /** Caller 1 has asked again. */
  function AskedAgain(d: string, v: Decision): State {
    Reowned(d, v).(calls := Both(Told(d, v), Caller(d, Waiting)), queue := [d])
  }

  /** And the worker has begun again. */
  function Again(d: string, v: Decision): State {
    AskedAgain(d, v).(queue := [], worker := Took(d, 1), taken := [d, d])
  }

  lemma SecondAsksSteps(env: Env, d: string, v: Decision)
    ensures Apply(env, Served(d, v), Register(1)) == Some(Reowned(d, v))
    ensures Apply(env, Reowned(d, v), TrySend(1)) == Some(AskedAgain(d, v))
  {
    BothUpdated(Told(d, v), Caller(d, Missed), Caller(d, Owner));
    BothUpdated(Told(d, v), Caller(d, Owner), Caller(d, Waiting));
    assert [] + [d] == [d];
  }

  lemma SecondIsTaken(env: Env, d: string, v: Decision)
    ensures Apply(env, AskedAgain(d, v), TakeRequest) == Some(Again(d, v))
  {
    assert [d][1..] == [] && [d] + [d] == [d, d];
  }

  lemma FirstAsks(env: Env, d: string) returns (steps: seq<Step>)
    ensures Run(env, steps) == Some(Asked(d))
  {
    BothMissSteps(env, d);
    FirstAsksSteps(env, d);
    steps := Then(env, [], InitialState(), Enter(0, d), Alone(d, Entered));
    steps := Then(env, steps, Alone(d, Entered), ReadCache(0), Alone(d, Missed));
    steps := Then(env, steps, Alone(d, Missed), Enter(1, d), Pair(d, Missed, Entered));
    steps := Then(env, steps, Pair(d, Missed, Entered), ReadCache(1), Pair(d, Missed, Missed));
    steps := Then(env, steps, Pair(d, Missed, Missed), Register(0), Owned(d));
    steps := Then(env, steps, Owned(d), TrySend(0), Asked(d));
  }

  lemma FirstIsCached(env: Env, d: string) returns (steps: seq<Step>)
    ensures Run(env, steps) == Some(Counting(d, ArtifactDecision(env, d)))
  {
    var v := ArtifactDecision(env, d);
    FirstIsTaken(env, d);
    FirstIsDecided(env, d);
    FirstIsCachedSteps(env, d, v);
    steps := FirstAsks(env, d);
    steps := Then(env, steps, Asked(d), TakeRequest, Working(d, Took(d, 0)));
    steps := Then(env, steps, Working(d, Took(d, 0)), Decide(false), Working(d, Decided(d, 0, v)));
    steps := Then(env, steps, Working(d, Decided(d, 0, v)), StoreDecision, Caching(d, v));
    steps := Then(env, steps, Caching(d, v), CountRequest, Counting(d, v));
  }

  lemma FirstIsServed(env: Env, d: string) returns (steps: seq<Step>)
    ensures Run(env, steps) == Some(Served(d, ArtifactDecision(env, d)))
  {
    var v := ArtifactDecision(env, d);
    FirstIsServedSteps(env, d, v);
    steps := FirstIsCached(env, d);
    steps := Then(env, steps, Counting(d, v), Detach, Handing(d, v, Caller(d, Waiting), [0]));
    steps := Then(env, steps, Handing(d, v, Caller(d, Waiting), [0]), AnswerOne, Handing(d, v, Told(d, v), []));
    steps := Then(env, steps, Handing(d, v, Told(d, v), []), Finish, Served(d, v));
  }

  /**
   Such a run exists for every name: callers 0 and 1 both miss; 0 is served and its answer cached; then 1
   registers, and the worker is asked a second time with the answer in the cache all along.
   */
  lemma SecondRequestPossible(env: Env, d: string) returns (steps: seq<Step>)
    ensures Run(env, steps).Some?
    ensures var s := Run(env, steps).value; s.taken == [d, d] && Lru.Has(s.cache, d)
  {
    var v := ArtifactDecision(env, d);
    SecondAsksSteps(env, d, v);
    SecondIsTaken(env, d, v);
    steps := FirstIsServed(env, d);
    steps := Then(env, steps, Served(d, v), Register(1), Reowned(d, v));
    steps := Then(env, steps, Reowned(d, v), TrySend(1), AskedAgain(d, v));
    steps := Then(env, steps, AskedAgain(d, v), TakeRequest, Again(d, v));
  }
}
