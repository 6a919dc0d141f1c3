/**
 The bounded-latency lookup as a transition system: any number of callers, one worker, a bounded
 request queue, the in-flight table, the LRU cache and the counters.

 One step is one lock-protected region, one channel operation, one atomic increment or one timeout.
 A timeout may fire whenever a caller waits.  `taken` and `panicked` are history: the requests the
 worker has received, in order, and the names whose lookup panicked.
 */
module LookupProtocol {
  import opened Wrappers
  import opened Names
  import opened Artifact
  import Lru

  const CHANNEL_CAPACITY := 1024

  /** `None` is "checked, no rule". */
  type Decision = Option<FilterAction>

  /** The caller's one-shot channel; an answer remembers which request produced it. */
  datatype Channel = Open | Answered(decision: Decision, request: nat) | Disconnected

  datatype Phase =
    | Entered                       // before the first cache read
    | Missed                        // before taking the in-flight lock
    | Owner                         // made the in-flight entry, before try_send
    | SendFailed                    // before removing the entry again
    | Undone                        // before counting the fallback
    | Waiting                       // inside recv_timeout
    | Expired                       // before counting the fallback
    | Counted                       // before the second cache read
    | Done(result: FilterAction)

  datatype Call = Call(domain: string, phase: Phase, channel: Channel, fellBack: bool)

  datatype Worker =
    | Idle
    | Took(domain: string, request: nat)
    | Decided(domain: string, request: nat, decision: Decision)
    | Stored(domain: string, request: nat, decision: Decision)
    | Numbered(domain: string, request: nat, decision: Decision)
    | Answering(domain: string, request: nat, decision: Decision, waiters: seq<nat>)

  datatype State = State(
    calls: map<nat, Call>,
    queue: seq<string>,
    inflight: map<string, seq<nat>>,
    cache: Lru.Items<Decision>,
    worker: Worker,
    fallbackCount: nat,
    workerRequests: nat,
    panics: nat,
    taken: seq<string>,
    panicked: seq<string>)

  datatype Env = Env(artifact: BlocklistArtifact, cacheCapacity: nat)

  datatype Step =
    | Enter(id: nat, domain: string)
    | ReadCache(id: nat)
    | Register(id: nat)
    | TrySend(id: nat)
    | Undo(id: nat)
    | Receive(id: nat)
    | Expire(id: nat)
    | NoteFallback(id: nat)
    | ReadCacheLate(id: nat)
    | TakeRequest
    | Decide(panics: bool)
    | StoreDecision
    | CountRequest
    | Detach
    | AnswerOne
    | Finish

  /** `LruCache::new` raises a zero capacity to one. */
  function Capacity(env: Env): nat {
    if env.cacheCapacity >= 1 then env.cacheCapacity else 1
  }

  ghost function ArtifactDecision(env: Env, d: string): Decision {
    if Blocks(env.artifact, ReverseKey(d)) then Some(Block) else None
  }

  function OrProxy(d: Decision): FilterAction {
    match d case Some(a) => a case None => Proxy
  }

  function InitialState(): State {
    State(map[], [], map[], [], Idle, 0, 0, 0, [], [])
  }

  predicate At(s: State, id: nat, p: Phase) {
    id in s.calls && s.calls[id].phase == p
  }

  function Goto(s: State, id: nat, p: Phase): State
    requires id in s.calls
  {
    s.(calls := s.calls[id := s.calls[id].(phase := p)])
  }

  /** Dropping a list of senders disconnects the receivers that have no answer yet. */
  function DropSenders(calls: map<nat, Call>, ids: seq<nat>): map<nat, Call> {
    map id | id in calls ::
      if id in ids && calls[id].channel == Open then calls[id].(channel := Disconnected) else calls[id]
  }

  // -------------------------------------------------------------------------
  // Caller steps
  // -------------------------------------------------------------------------

  function AfterRegister(s: State, id: nat): State
    requires At(s, id, Missed)
  {
    var d := s.calls[id].domain;
    if d in s.inflight then
      Goto(s, id, Waiting).(inflight := s.inflight[d := s.inflight[d] + [id]])
    else
      Goto(s, id, Owner).(inflight := s.inflight[d := [id]])
  }

  function AfterTrySend(s: State, id: nat): State
    requires At(s, id, Owner)
  {
    if |s.queue| < CHANNEL_CAPACITY then
      Goto(s, id, Waiting).(queue := s.queue + [s.calls[id].domain])
    else Goto(s, id, SendFailed)
  }

  function AfterUndo(s: State, id: nat): State
    requires At(s, id, SendFailed)
  {
    var d := s.calls[id].domain;
    var gone := if d in s.inflight then s.inflight[d] else [];
    var moved := Goto(s, id, Undone);
    moved.(calls := DropSenders(moved.calls, gone), inflight := s.inflight - {d})
  }

  function AfterNoteFallback(s: State, id: nat): State
    requires At(s, id, Undone) || At(s, id, Expired)
  {
    var c := s.calls[id];
    var next := if c.phase == Undone then Done(Proxy) else Counted;
    s.(calls := s.calls[id := c.(phase := next, fellBack := true)], fallbackCount := s.fallbackCount + 1)
  }

  function AfterCacheRead(s: State, id: nat, onMiss: Phase): State
    requires id in s.calls
  {
    var (items, hit) := Lru.Get(s.cache, s.calls[id].domain);
    Goto(s, id, if hit.Some? then Done(OrProxy(hit.value)) else onMiss).(cache := items)
  }

  // -------------------------------------------------------------------------
  // Worker steps
  // -------------------------------------------------------------------------

  ghost function AfterDecide(env: Env, s: State, panics: bool): State
    requires s.worker.Took?
  {
    var d := s.worker.domain;
    if panics then
      s.(worker := Decided(d, s.worker.request, None), panics := s.panics + 1, panicked := s.panicked + [d])
    else s.(worker := Decided(d, s.worker.request, ArtifactDecision(env, d)))
  }

  function AfterDetach(s: State): State
    requires s.worker.Numbered?
  {
    var d := s.worker.domain;
    s.(worker := Answering(d, s.worker.request, s.worker.decision, if d in s.inflight then s.inflight[d] else []),
       inflight := s.inflight - {d})
  }

  function AfterAnswerOne(s: State): State
    requires s.worker.Answering? && s.worker.waiters != []
  {
    var w := s.worker.waiters[0];
    s.(worker := s.worker.(waiters := s.worker.waiters[1..]),
       calls := if w in s.calls then s.calls[w := s.calls[w].(channel := Answered(s.worker.decision, s.worker.request))]
                else s.calls)
  }

  /** The state after one step, when the step is enabled. */
  ghost function Apply(env: Env, s: State, step: Step): Option<State> {
    match step
    case Enter(id, d) =>
      if id in s.calls then None else Some(s.(calls := s.calls[id := Call(d, Entered, Open, false)]))
    case ReadCache(id) => if At(s, id, Entered) then Some(AfterCacheRead(s, id, Missed)) else None
    case Register(id) => if At(s, id, Missed) then Some(AfterRegister(s, id)) else None
    case TrySend(id) => if At(s, id, Owner) then Some(AfterTrySend(s, id)) else None
    case Undo(id) => if At(s, id, SendFailed) then Some(AfterUndo(s, id)) else None
    case Receive(id) =>
      if At(s, id, Waiting) && s.calls[id].channel.Answered?
      then Some(Goto(s, id, Done(OrProxy(s.calls[id].channel.decision)))) else None
    case Expire(id) => if At(s, id, Waiting) then Some(Goto(s, id, Expired)) else None
    case NoteFallback(id) =>
      if At(s, id, Undone) || At(s, id, Expired) then Some(AfterNoteFallback(s, id)) else None
    case ReadCacheLate(id) => if At(s, id, Counted) then Some(AfterCacheRead(s, id, Done(Proxy))) else None
    case TakeRequest =>
      if s.worker == Idle && s.queue != []
      then Some(s.(worker := Took(s.queue[0], |s.taken|), queue := s.queue[1..], taken := s.taken + [s.queue[0]]))
      else None
    case Decide(panics) => if s.worker.Took? then Some(AfterDecide(env, s, panics)) else None
    case StoreDecision =>
      if s.worker.Decided?
      then Some(s.(worker := Stored(s.worker.domain, s.worker.request, s.worker.decision),
                   cache := Lru.Put(Capacity(env), s.cache, s.worker.domain, s.worker.decision)))
      else None
    case CountRequest =>
      if s.worker.Stored?
      then Some(s.(worker := Numbered(s.worker.domain, s.worker.request, s.worker.decision),
                   workerRequests := s.workerRequests + 1))
      else None
    case Detach => if s.worker.Numbered? then Some(AfterDetach(s)) else None
    case AnswerOne => if s.worker.Answering? && s.worker.waiters != [] then Some(AfterAnswerOne(s)) else None
    case Finish => if s.worker.Answering? && s.worker.waiters == [] then Some(s.(worker := Idle)) else None
  }

  /** The state a sequence of steps leads to, when each is enabled in turn. */
  ghost function Run(env: Env, steps: seq<Step>): Option<State> {
    if steps == [] then Some(InitialState())
    else
      var before := Run(env, steps[..|steps| - 1]);
      if before == None then None else Apply(env, before.value, steps[|steps| - 1])
  }

  // -------------------------------------------------------------------------
  // Request tokens
  // -------------------------------------------------------------------------

  predicate OwnsEntry(c: Call, d: string) {
    c.domain == d && (c.phase == Owner || c.phase == SendFailed)
  }

  function Owners(calls: map<nat, Call>, d: string): set<nat> {
    set id | id in calls && OwnsEntry(calls[id], d)
  }

  /** The worker still has to take the in-flight entry of `d` out. */
  predicate WorkerHolds(w: Worker, d: string) {
    (w.Took? || w.Decided? || w.Stored? || w.Numbered?) && w.domain == d
  }

  /** Requests for `d` that exist anywhere: unsent with their owner, queued, or with the worker. */
  function Tokens(s: State, d: string): nat {
    |Owners(s.calls, d)| + multiset(s.queue)[d] + (if WorkerHolds(s.worker, d) then 1 else 0)
  }

  ghost predicate OneTokenPerEntry(s: State) {
    forall d :: Tokens(s, d) == if d in s.inflight then 1 else 0
  }

  lemma OwnersUpdate(calls: map<nat, Call>, id: nat, c: Call, d: string)
    ensures Owners(calls[id := c], d)
         == (Owners(calls, d) - {id}) + (if OwnsEntry(c, d) then {id} else {})
  {}

  lemma OwnersCount(calls: map<nat, Call>, id: nat, c: Call, d: string)
    ensures |Owners(calls[id := c], d)|
         == |Owners(calls, d)| - (if id in calls && OwnsEntry(calls[id], d) then 1 else 0)
          + (if OwnsEntry(c, d) then 1 else 0)
  {
    OwnersUpdate(calls, id, c, d);
    assert id in Owners(calls, d) <==> id in calls && OwnsEntry(calls[id], d);
  }

  /** A changed channel changes no ownership. */
  lemma OwnersSame(calls: map<nat, Call>, other: map<nat, Call>, d: string)
    requires calls.Keys == other.Keys
    requires forall id | id in calls :: calls[id].domain == other[id].domain && calls[id].phase == other[id].phase
    ensures Owners(calls, d) == Owners(other, d)
  {}

  /** A caller that owns no entry before and after its step changes no token. */
  lemma TokensUntouched(s: State, id: nat, s': State)
    requires OneTokenPerEntry(s)
    requires id in s'.calls && s'.calls == s.calls[id := s'.calls[id]]
    requires s'.queue == s.queue && s'.inflight == s.inflight && s'.worker == s.worker
    requires id in s.calls ==> s.calls[id].phase != Owner && s.calls[id].phase != SendFailed
    requires s'.calls[id].phase != Owner && s'.calls[id].phase != SendFailed
    ensures OneTokenPerEntry(s')
  {
    forall d ensures Tokens(s', d) == if d in s'.inflight then 1 else 0 {
      OwnersCount(s.calls, id, s'.calls[id], d);
      assert Tokens(s, d) == if d in s.inflight then 1 else 0;
    }
  }

  lemma TokensRegister(s: State, id: nat)
    requires OneTokenPerEntry(s) && At(s, id, Missed)
    ensures OneTokenPerEntry(AfterRegister(s, id))
  {
    var s' := AfterRegister(s, id);
    forall d ensures Tokens(s', d) == if d in s'.inflight then 1 else 0 {
      OwnersCount(s.calls, id, s'.calls[id], d);
      assert Tokens(s, d) == if d in s.inflight then 1 else 0;
    }
  }

  lemma TokensTrySend(s: State, id: nat)
    requires OneTokenPerEntry(s) && At(s, id, Owner)
    ensures OneTokenPerEntry(AfterTrySend(s, id))
  {
    var s' := AfterTrySend(s, id);
    forall d ensures Tokens(s', d) == if d in s'.inflight then 1 else 0 {
      OwnersCount(s.calls, id, s'.calls[id], d);
      assert Tokens(s, d) == if d in s.inflight then 1 else 0;
    }
  }

  lemma TokensUndo(s: State, id: nat)
    requires OneTokenPerEntry(s) && At(s, id, SendFailed)
    ensures OneTokenPerEntry(AfterUndo(s, id))
  {
    var s' := AfterUndo(s, id);
    var moved := Goto(s, id, Undone);
    forall d ensures Tokens(s', d) == if d in s'.inflight then 1 else 0 {
      OwnersCount(s.calls, id, moved.calls[id], d);
      OwnersSame(moved.calls, s'.calls, d);
      assert Tokens(s, d) == if d in s.inflight then 1 else 0;
    }
  }

  lemma TokensWorkerStep(env: Env, s: State, step: Step, s': State)
    requires OneTokenPerEntry(s) && Apply(env, s, step) == Some(s')
    requires || step.Decide? || step.StoreDecision? || step.CountRequest?
             || step.Detach? || step.AnswerOne? || step.Finish?
    ensures OneTokenPerEntry(s')
  {
    forall d ensures Tokens(s', d) == if d in s'.inflight then 1 else 0 {
      OwnersSame(s.calls, s'.calls, d);
      assert Tokens(s, d) == if d in s.inflight then 1 else 0;
    }
  }

  lemma TokensTake(s: State)
    requires OneTokenPerEntry(s) && s.worker == Idle && s.queue != []
    ensures OneTokenPerEntry(s.(worker := Took(s.queue[0], |s.taken|), queue := s.queue[1..],
                                taken := s.taken + [s.queue[0]]))
  {
    var s' := s.(worker := Took(s.queue[0], |s.taken|), queue := s.queue[1..], taken := s.taken + [s.queue[0]]);
    assert s.queue == [s.queue[0]] + s.queue[1..];
    forall d ensures Tokens(s', d) == if d in s'.inflight then 1 else 0 {
      assert Tokens(s, d) == if d in s.inflight then 1 else 0;
    }
  }

  lemma TokensStep(env: Env, s: State, step: Step, s': State)
    requires OneTokenPerEntry(s) && Apply(env, s, step) == Some(s')
    ensures OneTokenPerEntry(s')
  {
    match step {
      case Register(id) => TokensRegister(s, id);
      case TrySend(id) => TokensTrySend(s, id);
      case Undo(id) => TokensUndo(s, id);
      case TakeRequest => TokensTake(s);
      case Decide(_) => TokensWorkerStep(env, s, step, s');
      case StoreDecision => TokensWorkerStep(env, s, step, s');
      case CountRequest => TokensWorkerStep(env, s, step, s');
      case Detach => TokensWorkerStep(env, s, step, s');
      case AnswerOne => TokensWorkerStep(env, s, step, s');
      case Finish => TokensWorkerStep(env, s, step, s');
      case _ => TokensUntouched(s, step.id, s');
    }
  }

  // -------------------------------------------------------------------------
  // Nobody is forgotten
  // -------------------------------------------------------------------------

  predicate WaitsForAnswer(c: Call) {
    c.channel == Open && (c.phase == Owner || c.phase == SendFailed || c.phase == Waiting)
  }

  /** A sender for call `id` is still held by the in-flight table or by the worker. */
  predicate SenderHeld(s: State, id: nat, d: string) {
    || (d in s.inflight && id in s.inflight[d])
    || (s.worker.Answering? && id in s.worker.waiters)
  }

  ghost predicate NobodyForgotten(s: State) {
    forall id | id in s.calls && WaitsForAnswer(s.calls[id]) :: SenderHeld(s, id, s.calls[id].domain)
  }

  lemma NobodyForgottenStep(env: Env, s: State, step: Step, s': State)
    requires NobodyForgotten(s) && Apply(env, s, step) == Some(s')
    ensures NobodyForgotten(s')
  {
    match step {
      case Undo(id) => UndoForgetsNobody(s, id);
      case Detach => DetachForgetsNobody(s);
      case AnswerOne => AnswerForgetsNobody(s);
      case Register(id) => CallerForgetsNobody(s, id, s');
      case TrySend(id) => CallerForgetsNobody(s, id, s');
      case Enter(id, _) => CallerForgetsNobody(s, id, s');
      case ReadCache(id) => CallerForgetsNobody(s, id, s');
      case Receive(id) => CallerForgetsNobody(s, id, s');
      case Expire(id) => CallerForgetsNobody(s, id, s');
      case NoteFallback(id) => CallerForgetsNobody(s, id, s');
      case ReadCacheLate(id) => CallerForgetsNobody(s, id, s');
      case _ => WorkerForgetsNobody(env, s, step, s');
    }
  }

  /** A caller step takes no sender away, and a call that begins to wait leaves one. */
  lemma CallerForgetsNobody(s: State, id: nat, s': State)
    requires NobodyForgotten(s) && id in s'.calls && s'.calls == s.calls[id := s'.calls[id]] && s'.worker == s.worker
    requires forall d | d in s.inflight ::
               d in s'.inflight && forall other | other in s.inflight[d] :: other in s'.inflight[d]
    requires WaitsForAnswer(s'.calls[id]) ==>
               || (id in s.calls && WaitsForAnswer(s.calls[id]) && s'.calls[id].domain == s.calls[id].domain)
               || SenderHeld(s', id, s'.calls[id].domain)
    ensures NobodyForgotten(s')
  {
    forall other | other in s'.calls && WaitsForAnswer(s'.calls[other])
      ensures SenderHeld(s', other, s'.calls[other].domain)
    {
      if other in s.calls && WaitsForAnswer(s.calls[other]) {
        assert SenderHeld(s, other, s.calls[other].domain);
      }
    }
  }

  lemma WorkerForgetsNobody(env: Env, s: State, step: Step, s': State)
    requires NobodyForgotten(s) && Apply(env, s, step) == Some(s')
    requires step.TakeRequest? || step.Decide? || step.StoreDecision? || step.CountRequest? || step.Finish?
    ensures NobodyForgotten(s')
  {
    forall other | other in s'.calls && WaitsForAnswer(s'.calls[other])
      ensures SenderHeld(s', other, s'.calls[other].domain)
    {
      assert SenderHeld(s, other, s.calls[other].domain);
    }
  }

  lemma AnswerForgetsNobody(s: State)
    requires NobodyForgotten(s) && s.worker.Answering? && s.worker.waiters != []
    ensures NobodyForgotten(AfterAnswerOne(s))
  {
    var s' := AfterAnswerOne(s);
    assert s.worker.waiters == [s.worker.waiters[0]] + s.worker.waiters[1..];
    forall other | other in s'.calls && WaitsForAnswer(s'.calls[other])
      ensures SenderHeld(s', other, s'.calls[other].domain)
    {
      assert SenderHeld(s, other, s.calls[other].domain);
    }
  }

  lemma UndoForgetsNobody(s: State, id: nat)
    requires NobodyForgotten(s) && At(s, id, SendFailed)
    ensures NobodyForgotten(AfterUndo(s, id))
  {
    var s' := AfterUndo(s, id);
    forall other | other in s'.calls && WaitsForAnswer(s'.calls[other])
      ensures SenderHeld(s', other, s'.calls[other].domain)
    {
      assert other in s.calls && WaitsForAnswer(s.calls[other]);
      assert SenderHeld(s, other, s.calls[other].domain);
    }
  }

  lemma DetachForgetsNobody(s: State)
    requires NobodyForgotten(s) && s.worker.Numbered?
    ensures NobodyForgotten(AfterDetach(s))
  {
    var s' := AfterDetach(s);
    forall other | other in s'.calls && WaitsForAnswer(s'.calls[other])
      ensures SenderHeld(s', other, s'.calls[other].domain)
    {
      assert SenderHeld(s, other, s.calls[other].domain);
    }
  }

  // -------------------------------------------------------------------------
  // Answers are right
  // -------------------------------------------------------------------------

  /** What may be said about `d`: the artifact's decision, or "no rule" after a counted panic. */
  ghost predicate Truthful(env: Env, panicked: seq<string>, d: string, decision: Decision) {
    decision == ArtifactDecision(env, d) || (decision == None && d in panicked)
  }

  ghost predicate TruthfulCache(env: Env, panicked: seq<string>, items: Lru.Items<Decision>) {
    forall x | x in items :: Truthful(env, panicked, x.0, x.1)
  }

  ghost predicate TruthfulCall(env: Env, panicked: seq<string>, c: Call) {
    && (c.channel.Answered? ==> Truthful(env, panicked, c.domain, c.channel.decision))
    && (c.phase == Counted ==> c.fellBack)
    && (c.phase.Done? ==>
          && (c.phase.result == Block || c.phase.result == Proxy)
          && (c.phase.result == Block ==> Blocks(env.artifact, ReverseKey(c.domain)))
          && (c.phase.result == Proxy && Blocks(env.artifact, ReverseKey(c.domain)) ==>
                c.fellBack || c.domain in panicked))
  }

  ghost predicate TruthfulWorker(env: Env, panicked: seq<string>, w: Worker) {
    w.Decided? || w.Stored? || w.Numbered? || w.Answering? ==> Truthful(env, panicked, w.domain, w.decision)
  }

  /** Every sender the table or the worker holds belongs to a call for that name. */
  ghost predicate WaitersMatch(s: State) {
    && (forall d, id | d in s.inflight && id in s.inflight[d] :: id in s.calls && s.calls[id].domain == d)
    && (s.worker.Answering? ==>
          forall id | id in s.worker.waiters :: id in s.calls && s.calls[id].domain == s.worker.domain)
  }

  ghost predicate AllTruthful(env: Env, s: State) {
    && TruthfulCache(env, s.panicked, s.cache)
    && TruthfulWorker(env, s.panicked, s.worker)
    && (forall id | id in s.calls :: TruthfulCall(env, s.panicked, s.calls[id]))
    && WaitersMatch(s)
  }

  lemma {:induction false} CacheItems(items: Lru.Items<Decision>, k: string)
    ensures forall x | x in Lru.Without(items, k) :: x in items
    ensures Lru.Has(items, k) ==> (k, Lru.ValueOf(items, k)) in items
  {
    if items != [] { CacheItems(items[1..], k); }
  }

  lemma CacheGetTruthful(env: Env, panicked: seq<string>, items: Lru.Items<Decision>, k: string)
    requires TruthfulCache(env, panicked, items)
    ensures TruthfulCache(env, panicked, Lru.Get(items, k).0)
    ensures Lru.Get(items, k).1.Some? ==> Truthful(env, panicked, k, Lru.Get(items, k).1.value)
  {
    CacheItems(items, k);
  }

  lemma CachePutTruthful(env: Env, panicked: seq<string>, items: Lru.Items<Decision>, k: string, v: Decision)
    requires TruthfulCache(env, panicked, items) && Truthful(env, panicked, k, v)
    ensures TruthfulCache(env, panicked, Lru.Put(Capacity(env), items, k, v))
  {
    CacheItems(items, k);
  }

  lemma WaitersMatchStep(env: Env, s: State, step: Step, s': State)
    requires WaitersMatch(s) && Apply(env, s, step) == Some(s')
    ensures WaitersMatch(s')
  {
    match step {
      case Register(id) => RegisterMatches(s, id);
      case Undo(id) => UndoMatches(s, id);
      case Detach => DetachMatches(s);
      case AnswerOne => AnswerMatches(s);
      case _ => EntriesUntouched(env, s, step, s');
    }
  }

  /** The other steps leave the entries, the waiters and the names of the calls as they are. */
  lemma EntriesUntouched(env: Env, s: State, step: Step, s': State)
    requires WaitersMatch(s) && Apply(env, s, step) == Some(s')
    requires !step.Register? && !step.Undo? && !step.Detach? && !step.AnswerOne?
    ensures WaitersMatch(s')
  {
    assert s'.inflight == s.inflight;
    assert s'.worker.Answering? ==> s'.worker == s.worker;
    NamesKept(env, s, step, s');
  }

  lemma NamesKept(env: Env, s: State, step: Step, s': State)
    requires Apply(env, s, step) == Some(s')
    ensures forall id | id in s.calls :: id in s'.calls && s'.calls[id].domain == s.calls[id].domain
  {}

  lemma RegisterMatches(s: State, id: nat)
    requires WaitersMatch(s) && At(s, id, Missed)
    ensures WaitersMatch(AfterRegister(s, id))
  {}

  lemma UndoMatches(s: State, id: nat)
    requires WaitersMatch(s) && At(s, id, SendFailed)
    ensures WaitersMatch(AfterUndo(s, id))
  {}

  lemma DetachMatches(s: State)
    requires WaitersMatch(s) && s.worker.Numbered?
    ensures WaitersMatch(AfterDetach(s))
  {}

  lemma AnswerMatches(s: State)
    requires WaitersMatch(s) && s.worker.Answering? && s.worker.waiters != []
    ensures WaitersMatch(AfterAnswerOne(s))
  {
    assert s.worker.waiters[0] in s.worker.waiters;
  }

  /** A step of the worker, apart from sending answers, leaves the calls alone. */
  lemma TruthfulWorkerStep(env: Env, s: State, step: Step, s': State)
    requires AllTruthful(env, s) && Apply(env, s, step) == Some(s')
    requires || step.TakeRequest? || step.Decide? || step.StoreDecision?
             || step.CountRequest? || step.Detach? || step.Finish?
    ensures AllTruthful(env, s')
  {
    WaitersMatchStep(env, s, step, s');
    if step.StoreDecision? {
      CachePutTruthful(env, s.panicked, s.cache, s.worker.domain, s.worker.decision);
    }
  }

  lemma TruthfulCallerStep(env: Env, s: State, id: nat, s': State)
    requires AllTruthful(env, s) && WaitersMatch(s')
    requires id in s'.calls && s'.calls == s.calls[id := s'.calls[id]]
    requires s'.worker == s.worker && s'.panicked == s.panicked
    requires TruthfulCache(env, s.panicked, s'.cache) && TruthfulCall(env, s.panicked, s'.calls[id])
    ensures AllTruthful(env, s')
  {}

  lemma TruthfulCacheRead(env: Env, s: State, id: nat, onMiss: Phase, s': State)
    requires AllTruthful(env, s) && WaitersMatch(s')
    requires id in s.calls && s' == AfterCacheRead(s, id, onMiss)
    requires onMiss == Missed || (onMiss == Done(Proxy) && s.calls[id].fellBack)
    ensures AllTruthful(env, s')
  {
    CacheGetTruthful(env, s.panicked, s.cache, s.calls[id].domain);
    TruthfulCallerStep(env, s, id, s');
  }

  lemma TruthfulUndo(env: Env, s: State, id: nat, s': State)
    requires AllTruthful(env, s) && At(s, id, SendFailed) && s' == AfterUndo(s, id) && WaitersMatch(s')
    ensures AllTruthful(env, s')
  {
    forall other | other in s'.calls ensures TruthfulCall(env, s'.panicked, s'.calls[other]) {
      assert TruthfulCall(env, s.panicked, s.calls[other]);
    }
  }

  lemma TruthfulAnswer(env: Env, s: State, s': State)
    requires AllTruthful(env, s) && s.worker.Answering? && s.worker.waiters != []
    requires s' == AfterAnswerOne(s) && WaitersMatch(s')
    ensures AllTruthful(env, s')
  {
    forall other | other in s'.calls ensures TruthfulCall(env, s'.panicked, s'.calls[other]) {
      assert TruthfulCall(env, s.panicked, s.calls[other]);
      if other == s.worker.waiters[0] {
        assert other in s.worker.waiters && s.calls[other].domain == s.worker.domain;
      }
    }
  }

  lemma TruthfulStep(env: Env, s: State, step: Step, s': State)
    requires AllTruthful(env, s) && Apply(env, s, step) == Some(s')
    ensures AllTruthful(env, s')
  {
    WaitersMatchStep(env, s, step, s');
    match step {
      case Enter(id, _) => TruthfulCallerStep(env, s, id, s');
      case ReadCache(id) => TruthfulCacheRead(env, s, id, Missed, s');
      case Register(id) => TruthfulCallerStep(env, s, id, s');
      case TrySend(id) => TruthfulCallerStep(env, s, id, s');
      case Undo(id) => TruthfulUndo(env, s, id, s');
      case Receive(id) => TruthfulCallerStep(env, s, id, s');
      case Expire(id) => TruthfulCallerStep(env, s, id, s');
      case NoteFallback(id) => TruthfulCallerStep(env, s, id, s');
      case ReadCacheLate(id) => TruthfulCacheRead(env, s, id, Done(Proxy), s');
      case AnswerOne => TruthfulAnswer(env, s, s');
      case _ => TruthfulWorkerStep(env, s, step, s');
    }
  }

  // -------------------------------------------------------------------------
  // Counters
  // -------------------------------------------------------------------------

  predicate CountPending(w: Worker) {
    w.Took? || w.Decided? || w.Stored?
  }

  ghost predicate AnswerNumbered(s: State, c: Call) {
    && (c.channel.Answered? ==>
          c.channel.request < s.workerRequests <= |s.taken| && s.taken[c.channel.request] == c.domain)
    && (c.fellBack ==> c.phase == Counted || c.phase.Done?)
  }

  function FellBack(calls: map<nat, Call>): set<nat> {
    set id | id in calls && calls[id].fellBack
  }

  ghost predicate CountersRight(s: State) {
    && s.panics == |s.panicked|
    && s.workerRequests + (if CountPending(s.worker) then 1 else 0) == |s.taken|
    && (s.worker != Idle ==>
          s.taken != [] && s.worker.request == |s.taken| - 1 && s.taken[s.worker.request] == s.worker.domain)
    && (forall id | id in s.calls :: AnswerNumbered(s, s.calls[id]))
    && s.fallbackCount == |FellBack(s.calls)|
    && |s.queue| <= CHANNEL_CAPACITY
  }

  lemma FellBackSame(a: map<nat, Call>, b: map<nat, Call>)
    requires forall id :: (id in a && a[id].fellBack) <==> (id in b && b[id].fellBack)
    ensures FellBack(a) == FellBack(b)
  {}

  /** A caller step that neither counts a fallback nor touches the worker. */
  lemma CountersCaller(s: State, id: nat, s': State)
    requires CountersRight(s) && id in s'.calls && s'.calls == s.calls[id := s'.calls[id]]
    requires s'.worker == s.worker && s'.workerRequests == s.workerRequests && s'.panics == s.panics
    requires s'.taken == s.taken && s'.panicked == s.panicked && s'.fallbackCount == s.fallbackCount
    requires |s'.queue| <= CHANNEL_CAPACITY
    requires AnswerNumbered(s, s'.calls[id])
    requires s'.calls[id].fellBack == (id in s.calls && s.calls[id].fellBack)
    ensures CountersRight(s')
  {
    FellBackSame(s.calls, s'.calls);
  }

  lemma CountersWorker(env: Env, s: State, step: Step, s': State)
    requires CountersRight(s) && Apply(env, s, step) == Some(s')
    requires || step.TakeRequest? || step.Decide? || step.StoreDecision?
             || step.CountRequest? || step.Detach? || step.Finish?
    ensures CountersRight(s')
  {
    forall id | id in s'.calls ensures AnswerNumbered(s', s'.calls[id]) {
      assert AnswerNumbered(s, s.calls[id]);
    }
  }

  lemma CountersUndo(s: State, id: nat)
    requires CountersRight(s) && At(s, id, SendFailed)
    ensures CountersRight(AfterUndo(s, id))
  {
    var s' := AfterUndo(s, id);
    FellBackSame(s.calls, s'.calls);
    forall other | other in s'.calls ensures AnswerNumbered(s', s'.calls[other]) {
      assert AnswerNumbered(s, s.calls[other]);
    }
  }

  lemma CountersAnswer(s: State)
    requires CountersRight(s) && WaitersMatch(s) && s.worker.Answering? && s.worker.waiters != []
    ensures CountersRight(AfterAnswerOne(s))
  {
    var s' := AfterAnswerOne(s);
    FellBackSame(s.calls, s'.calls);
    assert s.worker.waiters[0] in s.worker.waiters;
    forall other | other in s'.calls ensures AnswerNumbered(s', s'.calls[other]) {
      assert AnswerNumbered(s, s.calls[other]);
    }
  }

  lemma CountersFallback(s: State, id: nat)
    requires CountersRight(s) && (At(s, id, Undone) || At(s, id, Expired))
    ensures CountersRight(AfterNoteFallback(s, id))
  {
    var s' := AfterNoteFallback(s, id);
    assert AnswerNumbered(s, s.calls[id]);
    assert FellBack(s'.calls) == FellBack(s.calls) + {id};
    forall other | other in s'.calls ensures AnswerNumbered(s', s'.calls[other]) {
      assert AnswerNumbered(s, s.calls[other]);
    }
  }

  lemma CountersStep(env: Env, s: State, step: Step, s': State)
    requires CountersRight(s) && WaitersMatch(s) && Apply(env, s, step) == Some(s')
    ensures CountersRight(s')
  {
    match step {
      case Undo(id) => CountersUndo(s, id);
      case NoteFallback(id) => CountersFallback(s, id);
      case AnswerOne => CountersAnswer(s);
      case Enter(id, _) => CountersCaller(s, id, s');
      case ReadCache(id) => CountersCaller(s, id, s');
      case Register(id) => CountersCaller(s, id, s');
      case TrySend(id) => CountersCaller(s, id, s');
      case Receive(id) => CountersCaller(s, id, s');
      case Expire(id) => CountersCaller(s, id, s');
      case ReadCacheLate(id) => CountersCaller(s, id, s');
      case _ => CountersWorker(env, s, step, s');
    }
  }

  // -------------------------------------------------------------------------
  // Every run
  // -------------------------------------------------------------------------

  ghost predicate Inv(env: Env, s: State) {
    OneTokenPerEntry(s) && NobodyForgotten(s) && AllTruthful(env, s) && CountersRight(s)
  }

  lemma InvStep(env: Env, s: State, step: Step, s': State)
    requires Inv(env, s) && Apply(env, s, step) == Some(s')
    ensures Inv(env, s')
  {
    TokensStep(env, s, step, s');
    NobodyForgottenStep(env, s, step, s');
    TruthfulStep(env, s, step, s');
    CountersStep(env, s, step, s');
  }

  lemma {:induction false} InvOnEveryRun(env: Env, steps: seq<Step>)
    requires Run(env, steps).Some?
    ensures Inv(env, Run(env, steps).value)
  {
    if steps != [] {
      var n := |steps| - 1;
      InvOnEveryRun(env, steps[..n]);
      InvStep(env, Run(env, steps[..n]).value, steps[n], Run(env, steps).value);
    }
  }

  /** No request is duplicated while one is outstanding, and the table records exactly the outstanding ones. */
  lemma OneOutstandingRequest(env: Env, steps: seq<Step>, d: string)
    requires Run(env, steps).Some?
    ensures var s := Run(env, steps).value;
            && (d in s.inflight <==> Tokens(s, d) == 1)
            && Tokens(s, d) <= 1
            && multiset(s.queue)[d] + (if WorkerHolds(s.worker, d) then 1 else 0) <= 1
            && |s.queue| <= CHANNEL_CAPACITY
  {
    InvOnEveryRun(env, steps);
    assert Tokens(Run(env, steps).value, d) == if d in Run(env, steps).value.inflight then 1 else 0;
  }

  ghost predicate Quiescent(s: State) {
    && s.queue == [] && s.worker == Idle
    && forall id | id in s.calls :: s.calls[id].phase != Owner && s.calls[id].phase != SendFailed
  }

  /** When nothing is outstanding the table is empty and every waiter has its answer or its disconnect. */
  lemma QuiescentIsClean(env: Env, steps: seq<Step>)
    requires Run(env, steps).Some? && Quiescent(Run(env, steps).value)
    ensures var s := Run(env, steps).value;
            && s.inflight == map[]
            && forall id | id in s.calls && s.calls[id].phase == Waiting :: s.calls[id].channel != Open
  {
    InvOnEveryRun(env, steps);
    var s := Run(env, steps).value;
    forall d ensures d !in s.inflight {
      assert Owners(s.calls, d) == {};
      assert Tokens(s, d) == if d in s.inflight then 1 else 0;
    }
    forall id | id in s.calls && s.calls[id].phase == Waiting ensures s.calls[id].channel != Open {
      assert s.calls[id].channel == Open ==> SenderHeld(s, id, s.calls[id].domain);
    }
  }

  /**
   What a finished lookup may return, on every interleaving; and an answer that came from the worker
   comes from a request for that name which the processed counter already includes.
   */
  lemma FinishedLookup(env: Env, steps: seq<Step>, id: nat)
    requires Run(env, steps).Some? && id in Run(env, steps).value.calls
    requires Run(env, steps).value.calls[id].phase.Done?
    ensures var s := Run(env, steps).value;
            var c := s.calls[id];
            var blocked := Blocks(env.artifact, ReverseKey(c.domain));
            && (c.phase.result == Block || c.phase.result == Proxy)
            && (c.phase.result == Block ==> blocked)
            && (c.phase.result == Proxy && blocked ==> c.fellBack || (c.domain in s.panicked && s.panics > 0))
  {
    InvOnEveryRun(env, steps);
    assert TruthfulCall(env, Run(env, steps).value.panicked, Run(env, steps).value.calls[id]);
  }

  lemma AnsweredAfterCounted(env: Env, steps: seq<Step>, id: nat)
    requires Run(env, steps).Some? && id in Run(env, steps).value.calls
    requires Run(env, steps).value.calls[id].channel.Answered?
    ensures var s := Run(env, steps).value;
            var request := s.calls[id].channel.request;
            request < s.workerRequests <= |s.taken| && s.taken[request] == s.calls[id].domain
  {
    InvOnEveryRun(env, steps);
    assert AnswerNumbered(Run(env, steps).value, Run(env, steps).value.calls[id]);
  }

  /** The three metrics count what they claim: fallbacks per call, requests taken, panics caught. */
  lemma MetricsAreExact(env: Env, steps: seq<Step>)
    requires Run(env, steps).Some?
    ensures var s := Run(env, steps).value;
            && s.fallbackCount == |FellBack(s.calls)|
            && s.panics == |s.panicked|
            && |s.taken| - 1 <= s.workerRequests <= |s.taken|
            && (s.worker == Idle ==> s.workerRequests == |s.taken|)
  {
    InvOnEveryRun(env, steps);
  }

  lemma RunMore(env: Env, steps: seq<Step>, step: Step)
    requires Run(env, steps).Some?
    ensures Run(env, steps + [step]) == Apply(env, Run(env, steps).value, step)
  {
    assert (steps + [step])[..|steps|] == steps;
  }
}
