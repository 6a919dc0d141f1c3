/**
 What a lookup returns, by the step that ended it; that it always can return; and what queue and cache
 hold, said of the steps taken so far.
 */
module LookupOutcomes {
  import opened Wrappers
  import opened Names
  import opened Artifact
  import opened LookupProtocol
  import opened LateRequests
  import opened Recency
  import Lru

  // -------------------------------------------------------------------------
  // The step that ends a call
  // -------------------------------------------------------------------------

  /** A decision turned into what the caller gets: "no rule" is the default action. */
  predicate Says(held: Decision, result: FilterAction) {
    held == Some(result) || (held == None && result == Proxy)
  }

  function Held(s: State, d: string): Option<Decision> {
    Lru.Get(s.cache, d).1
  }

  /** Taken in state `s`, the step ends call `id` with this result. */
  predicate EndsBy(s: State, id: nat, step: Step, result: FilterAction) {
    id in s.calls &&
      var c := s.calls[id];
      match step
      case ReadCache(i) =>
        i == id && c.phase == Entered && Held(s, c.domain).Some? && Says(Held(s, c.domain).value, result)
      case Receive(i) => i == id && c.phase == Waiting && c.channel.Answered? && Says(c.channel.decision, result)
      case NoteFallback(i) => i == id && c.phase == Undone && result == Proxy
      case ReadCacheLate(i) =>
        && i == id && c.phase == Counted
        && if Held(s, c.domain).Some? then Says(Held(s, c.domain).value, result) else result == Proxy
      case _ => false
  }

  lemma DoneStep(env: Env, s: State, step: Step, s': State, id: nat)
    requires Apply(env, s, step) == Some(s') && id in s'.calls && s'.calls[id].phase.Done?
    requires !(id in s.calls && s.calls[id].phase.Done?)
    ensures EndsBy(s, id, step, s'.calls[id].phase.result) && s.calls[id].domain == s'.calls[id].domain
  {}

  lemma DoneStays(env: Env, s: State, step: Step, s': State, id: nat)
    requires Apply(env, s, step) == Some(s') && id in s.calls && s.calls[id].phase.Done?
    ensures id in s'.calls && s'.calls[id].phase == s.calls[id].phase && s'.calls[id].domain == s.calls[id].domain
    ensures step != Expire(id) && step != Undo(id)
  {}

  /** Which of its steps a call has behind it, by where it is. */
  predicate OnTrail(steps: seq<Step>, id: nat, p: Phase) {
    && (Expire(id) in steps ==> p == Expired || p == Counted || p.Done?)
    && (Undo(id) in steps ==> p == Undone || p.Done?)
  }

  lemma TrailStep(env: Env, s: State, step: Step, s': State, id: nat, before: seq<Step>)
    requires Apply(env, s, step) == Some(s') && id in s'.calls
    requires if id in s.calls then OnTrail(before, id, s.calls[id].phase)
             else Expire(id) !in before && Undo(id) !in before
    ensures OnTrail(before + [step], id, s'.calls[id].phase)
  {}

  lemma NoTrail(env: Env, s: State, step: Step, s': State, id: nat)
    requires Apply(env, s, step) == Some(s') && id !in s'.calls
    ensures id !in s.calls && step != Expire(id) && step != Undo(id)
  {}

  lemma {:induction false} Trail(env: Env, steps: seq<Step>, id: nat)
    requires Run(env, steps).Some?
    ensures var s := Run(env, steps).value;
            if id in s.calls then OnTrail(steps, id, s.calls[id].phase) else Expire(id) !in steps && Undo(id) !in steps
  {
    if steps != [] {
      var n := |steps| - 1;
      var s, s' := Run(env, steps[..n]).value, Run(env, steps).value;
      Trail(env, steps[..n], id);
      assert steps == steps[..n] + [steps[n]];
      if id in s'.calls {
        TrailStep(env, s, steps[n], s', id, steps[..n]);
      } else {
        NoTrail(env, s, steps[n], s', id);
      }
    }
  }

  /** The `k`-th step of the run ended call `id` with this result. */
  ghost predicate EndedAt(env: Env, steps: seq<Step>, id: nat, k: nat, d: string, result: FilterAction) {
    && k < |steps| && Run(env, steps[..k]).Some?
    && EndsBy(Run(env, steps[..k]).value, id, steps[k], result)
    && Run(env, steps[..k]).value.calls[id].domain == d
  }

  /**
   Every finished call was ended by one of four steps, with the result that step gives: a cache hit, an
   answer received, a request that could not be sent, or, once its wait has expired, its late cache read.
   */
  lemma {:induction false} HowItEnded(env: Env, steps: seq<Step>, id: nat) returns (k: nat)
    requires Run(env, steps).Some? && id in Run(env, steps).value.calls
    requires Run(env, steps).value.calls[id].phase.Done?
    ensures var c := Run(env, steps).value.calls[id]; EndedAt(env, steps, id, k, c.domain, c.phase.result)
    ensures Expire(id) in steps ==> steps[k] == ReadCacheLate(id)
    ensures Undo(id) in steps ==> steps[k] == NoteFallback(id)
  {
    var n := |steps| - 1;
    var s, s' := Run(env, steps[..n]).value, Run(env, steps).value;
    assert steps == steps[..n] + [steps[n]];
    if id in s.calls && s.calls[id].phase.Done? {
      k := HowItEnded(env, steps[..n], id);
      DoneStays(env, s, steps[n], s', id);
      assert steps[..n][..k] == steps[..k] && steps[..n][k] == steps[k];
    } else {
      k := n;
      DoneStep(env, s, steps[n], s', id);
      Trail(env, steps[..n], id);
    }
  }

  lemma PanicsStay(env: Env, s: State, step: Step, s': State)
    requires Apply(env, s, step) == Some(s')
    ensures s.panicked <= s'.panicked
  {}

  lemma {:induction false} PanicsGrow(env: Env, steps: seq<Step>, k: nat)
    requires Run(env, steps).Some? && k <= |steps|
    ensures Run(env, steps[..k]).Some? && Run(env, steps[..k]).value.panicked <= Run(env, steps).value.panicked
  {
    if k == |steps| {
      assert steps[..k] == steps;
    } else {
      var n := |steps| - 1;
      PanicsGrow(env, steps[..n], k);
      assert steps[..n][..k] == steps[..k];
      PanicsStay(env, Run(env, steps[..n]).value, steps[n], Run(env, steps).value);
    }
  }

  lemma HeldIsTruthful(env: Env, steps: seq<Step>, d: string)
    requires Run(env, steps).Some?
    ensures var s := Run(env, steps).value; Held(s, d).Some? ==> Truthful(env, s.panicked, d, Held(s, d).value)
  {
    InvOnEveryRun(env, steps);
    CacheGetTruthful(env, Run(env, steps).value.panicked, Run(env, steps).value.cache, d);
  }

  /**
   A call whose wait expired is ended by its late cache read.  So it lets a blocked name through, but for
   a counted panic, exactly when the name was not in the cache at that read.
   */
  lemma ExpiredLookup(env: Env, steps: seq<Step>, id: nat) returns (k: nat)
    requires Run(env, steps).Some? && id in Run(env, steps).value.calls
    requires Run(env, steps).value.calls[id].phase.Done? && Expire(id) in steps
    ensures k < |steps| && steps[k] == ReadCacheLate(id) && Run(env, steps[..k]).Some?
    ensures var s, late := Run(env, steps).value, Run(env, steps[..k]).value;
            var c := s.calls[id];
            && (Held(late, c.domain) == None ==> c.phase.result == Proxy)
            && (Held(late, c.domain).Some? ==> Says(Held(late, c.domain).value, c.phase.result))
            && (Blocks(env.artifact, ReverseKey(c.domain)) && c.domain !in s.panicked ==>
                  (c.phase.result == Proxy <==> Held(late, c.domain) == None))
  {
    k := HowItEnded(env, steps, id);
    var c := Run(env, steps).value.calls[id];
    HeldIsTruthful(env, steps[..k], c.domain);
    PanicsGrow(env, steps, k);
  }

  // -------------------------------------------------------------------------
  // A call can always return
  // -------------------------------------------------------------------------

  lemma RunTwo(env: Env, steps: seq<Step>, a: Step, b: Step, mid: State)
    requires Run(env, steps).Some? && Apply(env, Run(env, steps).value, a) == Some(mid)
    ensures Run(env, steps + [a]) == Some(mid) && Run(env, steps + [a, b]) == Apply(env, mid, b)
  {
    RunMore(env, steps, a);
    RunMore(env, steps + [a], b);
    assert steps + [a] + [b] == steps + [a, b];
  }

  /** After an expired wait two steps are left, never waiting: counting it, and the cache as it is then. */
  lemma ExpiredReturns(env: Env, steps: seq<Step>, id: nat)
    requires Run(env, steps).Some? && At(Run(env, steps).value, id, Expired)
    ensures var s := Run(env, steps).value;
            var next := Run(env, steps + [NoteFallback(id), ReadCacheLate(id)]);
            && next.Some? && id in next.value.calls && next.value.calls[id].phase.Done?
            && next.value.fallbackCount == s.fallbackCount + 1
            && var held, result := Held(s, s.calls[id].domain), next.value.calls[id].phase.result;
               if held.Some? then Says(held.value, result) else result == Proxy
  {
    RunTwo(env, steps, NoteFallback(id), ReadCacheLate(id), AfterNoteFallback(Run(env, steps).value, id));
  }

  /** A request that could not be sent: the entry goes, the event is counted, the default is returned. */
  lemma RefusedReturns(env: Env, steps: seq<Step>, id: nat)
    requires Run(env, steps).Some? && At(Run(env, steps).value, id, SendFailed)
    ensures var s := Run(env, steps).value;
            var next := Run(env, steps + [Undo(id), NoteFallback(id)]);
            && next.Some? && At(next.value, id, Done(Proxy)) && next.value.fallbackCount == s.fallbackCount + 1
            && s.calls[id].domain !in next.value.inflight
  {
    RunTwo(env, steps, Undo(id), NoteFallback(id), AfterUndo(Run(env, steps).value, id));
  }

  /** A request is sent at once, and not at all when 1024 are queued. */
  lemma SendsIff(env: Env, s: State, id: nat)
    requires At(s, id, Owner)
    ensures var next := Apply(env, s, TrySend(id));
            && next.Some?
            && (|s.queue| < 1024 ==> At(next.value, id, Waiting) && next.value.queue == s.queue + [s.calls[id].domain])
            && (|s.queue| >= 1024 ==> At(next.value, id, SendFailed) && next.value.queue == s.queue)
  {}

  /** The step a call can take by itself, whatever anybody else does. */
  function OwnStep(id: nat, p: Phase): Step
    requires !p.Done?
  {
    match p
    case Entered => ReadCache(id)
    case Missed => Register(id)
    case Owner => TrySend(id)
    case SendFailed => Undo(id)
    case Undone => NoteFallback(id)
    case Waiting => Expire(id)
    case Expired => NoteFallback(id)
    case Counted => ReadCacheLate(id)
  }

  /** Steps it has left at most. */
  function StepsLeft(p: Phase): nat {
    match p
    case Entered => 6
    case Missed => 5
    case Owner => 4
    case SendFailed => 2
    case Undone => 1
    case Waiting => 3
    case Expired => 2
    case Counted => 1
    case Done(_) => 0
  }

  lemma OwnStepHelps(env: Env, s: State, id: nat)
    requires id in s.calls && !s.calls[id].phase.Done?
    ensures var next := Apply(env, s, OwnStep(id, s.calls[id].phase));
            next.Some? && id in next.value.calls && StepsLeft(next.value.calls[id].phase) < StepsLeft(s.calls[id].phase)
  {}

  /** Steps of this one call. */
  predicate OwnSteps(id: nat, steps: seq<Step>) {
    forall step | step in steps ::
      step in [ReadCache(id), Register(id), TrySend(id), Undo(id), Expire(id), NoteFallback(id), ReadCacheLate(id)]
  }

  /** From any reachable state a call can return by at most six steps of its own, waiting for nobody. */
  lemma {:induction false} ReturnsInSixSteps(env: Env, steps: seq<Step>, id: nat) returns (more: seq<Step>)
    requires Run(env, steps).Some? && id in Run(env, steps).value.calls
    ensures |more| <= StepsLeft(Run(env, steps).value.calls[id].phase) <= 6 && OwnSteps(id, more)
    ensures var next := Run(env, steps + more); next.Some? && id in next.value.calls && next.value.calls[id].phase.Done?
    decreases StepsLeft(Run(env, steps).value.calls[id].phase)
  {
    var s := Run(env, steps).value;
    if s.calls[id].phase.Done? {
      more := [];
      assert steps + [] == steps;
    } else {
      var step := OwnStep(id, s.calls[id].phase);
      OwnStepHelps(env, s, id);
      RunMore(env, steps, step);
      var rest := ReturnsInSixSteps(env, steps + [step], id);
      more := [step] + rest;
      assert steps + [step] + rest == steps + more;
    }
  }

  // -------------------------------------------------------------------------
  // Channels
  // -------------------------------------------------------------------------

  /** The step answers call `id` with this. */
  predicate Answers(s: State, step: Step, id: nat, answer: Channel) {
    && step.AnswerOne? && s.worker.Answering? && s.worker.waiters != [] && s.worker.waiters[0] == id
    && answer == Answered(s.worker.decision, s.worker.request)
  }

  /** The step gives up the entry call `id` waits at, because the request for it could not be sent. */
  predicate GivesUp(s: State, step: Step, id: nat) {
    && step.Undo? && At(s, step.id, SendFailed) && s.calls[step.id].domain in s.inflight
    && id in s.inflight[s.calls[step.id].domain]
  }

  /**
   An answer reaches exactly the caller it is sent to, a disconnect exactly the callers of the entry that
   is given up, and nothing takes either back.
   */
  lemma ChannelStep(env: Env, s: State, step: Step, s': State, id: nat)
    requires Apply(env, s, step) == Some(s') && id in s.calls
    ensures id in s'.calls
    ensures var was, now := s.calls[id].channel, s'.calls[id].channel;
            if exists answer :: Answers(s, step, id, answer) then Answers(s, step, id, now)
            else if was == Open && GivesUp(s, step, id) then now == Disconnected
            else now == was
  {
    if step.AnswerOne? {
      assert s.worker.waiters[0] == id ==> Answers(s, step, id, Answered(s.worker.decision, s.worker.request));
    }
  }

  /** Whose step it is, if it is a caller's. */
  predicate StepOf(step: Step, id: nat) {
    match step
    case Enter(i, _) => i == id
    case ReadCache(i) => i == id
    case Register(i) => i == id
    case TrySend(i) => i == id
    case Undo(i) => i == id
    case Receive(i) => i == id
    case Expire(i) => i == id
    case NoteFallback(i) => i == id
    case ReadCacheLate(i) => i == id
    case _ => false
  }

  /** Nobody else moves a call on, renames it, or counts a fallback for it. */
  lemma OthersLeaveIt(env: Env, s: State, step: Step, s': State, id: nat)
    requires Apply(env, s, step) == Some(s') && id in s.calls && !StepOf(step, id)
    ensures id in s'.calls && s'.calls[id].phase == s.calls[id].phase
    ensures s'.calls[id].domain == s.calls[id].domain && s'.calls[id].fellBack == s.calls[id].fellBack
  {}

  /**
   The worker's own step: the artifact's answer, or, after a panic it catches and counts, "no rule"; either
   way it goes on with the same request.
   */
  lemma DecideStep(env: Env, s: State, panics: bool)
    requires s.worker.Took?
    ensures var next := Apply(env, s, Decide(panics));
            && next.Some? && next.value.worker.Decided?
            && next.value.worker.domain == s.worker.domain && next.value.worker.request == s.worker.request
            && next.value.panics == (if panics then s.panics + 1 else s.panics)
            && next.value.panicked == (if panics then s.panicked + [s.worker.domain] else s.panicked)
            && (next.value.worker.decision == Some(Block) <==>
                !panics && Blocks(env.artifact, ReverseKey(s.worker.domain)))
            && (next.value.worker.decision != Some(Block) ==> next.value.worker.decision == None)
  {}

  // -------------------------------------------------------------------------
  // Queue and cache
  // -------------------------------------------------------------------------

  /** The names sent to the worker so far, in order. */
  ghost function Sent(env: Env, steps: seq<Step>): seq<string>
    requires Run(env, steps).Some?
  {
    if steps == [] then []
    else
      var n := |steps| - 1;
      var s := Run(env, steps[..n]).value;
      var before := Sent(env, steps[..n]);
      if steps[n].TrySend? && |s.queue| < 1024 then before + [s.calls[steps[n].id].domain] else before
  }

  lemma SentStep(env: Env, s: State, step: Step, s': State)
    requires Apply(env, s, step) == Some(s')
    ensures s'.taken + s'.queue ==
            s.taken + s.queue + if step.TrySend? && |s.queue| < 1024 then [s.calls[step.id].domain] else []
  {
    if step.TakeRequest? {
      assert s.queue == [s.queue[0]] + s.queue[1..];
    }
  }

  /** The worker takes requests in the order they were sent, and none is lost or made up. */
  lemma {:induction false} RequestsInOrder(env: Env, steps: seq<Step>)
    requires Run(env, steps).Some?
    ensures Run(env, steps).value.taken + Run(env, steps).value.queue == Sent(env, steps)
  {
    if steps != [] {
      var n := |steps| - 1;
      RequestsInOrder(env, steps[..n]);
      SentStep(env, Run(env, steps[..n]).value, steps[n], Run(env, steps).value);
    }
  }

  /** The cache operation a step makes, if it makes one: a caller's read, or the worker's storing an answer. */
  function CacheOp(s: State, step: Step): seq<Lru.Op<Decision>> {
    if (step.ReadCache? || step.ReadCacheLate?) && step.id in s.calls then [Lru.GetOp(s.calls[step.id].domain)]
    else if step.StoreDecision? && s.worker.Decided? then [Lru.PutOp(s.worker.domain, s.worker.decision)]
    else []
  }

  ghost function CacheOps(env: Env, steps: seq<Step>): seq<Lru.Op<Decision>>
    requires Run(env, steps).Some?
  {
    if steps == [] then []
    else
      var n := |steps| - 1;
      CacheOps(env, steps[..n]) + CacheOp(Run(env, steps[..n]).value, steps[n])
  }

  lemma CacheOpStep(env: Env, s: State, step: Step, s': State, cap: nat, ops: seq<Lru.Op<Decision>>)
    requires Apply(env, s, step) == Some(s') && cap == (if env.cacheCapacity >= 1 then env.cacheCapacity else 1)
    requires s.cache == Lru.Run(cap, ops)
    ensures s'.cache == Lru.Run(cap, ops + CacheOp(s, step))
  {
    var more := CacheOp(s, step);
    if more == [] {
      assert ops + more == ops && s'.cache == s.cache;
    } else {
      assert (ops + more)[..|ops|] == ops && (ops + more)[|ops|] == more[0];
      assert s'.cache == Lru.Step(cap, s.cache, more[0]);
    }
  }

  lemma {:induction false} CacheRunsOps(env: Env, steps: seq<Step>, cap: nat)
    requires Run(env, steps).Some? && cap == (if env.cacheCapacity >= 1 then env.cacheCapacity else 1)
    ensures Run(env, steps).value.cache == Lru.Run(cap, CacheOps(env, steps))
  {
    if steps != [] {
      var n := |steps| - 1;
      CacheRunsOps(env, steps[..n], cap);
      CacheOpStep(env, Run(env, steps[..n]).value, steps[n], Run(env, steps).value, cap, CacheOps(env, steps[..n]));
    }
  }

  /**
   After any run the cache holds the names decided or looked up with a hit last, at most the configured
   number of them (one, if none was configured), each with the decision stored last.
   */
  lemma CacheHoldsTheFreshest(env: Env, steps: seq<Step>)
    requires Run(env, steps).Some?
    ensures var cap: nat := if env.cacheCapacity >= 1 then env.cacheCapacity else 1;
            var cache, ops := Run(env, steps).value.cache, CacheOps(env, steps);
            && Freshest(cap, Uses(cap, ops), KeysOf(cache))
            && forall i | 0 <= i < |cache| :: Some(cache[i].1) == LastPut(ops, cache[i].0)
  {
    var cap: nat := if env.cacheCapacity >= 1 then env.cacheCapacity else 1;
    CacheRunsOps(env, steps, cap);
    HoldsTheFreshest(cap, CacheOps(env, steps));
    HoldsTheLastPut(cap, CacheOps(env, steps));
  }
}
