/** Verdicts, cache entries and the pure decisions the sweep is built on. */
module Liveness {
  import opened Wrappers

  datatype UnknownReason =
    | NoData | ServFail | Refused | FormErr | NotImp | Timeout | Transport | Malformed
    | ChainToDeadTarget | FilteredByResolver | UncorroboratedDead

  datatype Verdict = Alive | Dead | Unknown(reason: UnknownReason)

  datatype CacheEntry = CacheEntry(lastChecked: nat, verdict: Verdict, firstDeadAt: Option<nat>)

  function SaturatingSub(a: nat, b: nat): nat {
    if a >= b then a - b else 0
  }

  predicate DueForCheck(entry: Option<CacheEntry>, now: nat, ttl: nat) {
    entry == None || SaturatingSub(now, entry.value.lastChecked) >= ttl
  }

  /** `special` is the special-use-name test of the prune guard. */
  predicate ShouldPrune(special: string -> bool, entry: CacheEntry, domain: string, now: nat, quarantine: nat) {
    && !special(domain) && entry.verdict == Dead
    && entry.firstDeadAt.Some? && SaturatingSub(now, entry.firstDeadAt.value) >= quarantine
  }

  predicate TransientNoAnswer(v: Verdict) {
    v == Unknown(Timeout) || v == Unknown(Transport)
  }

  const CANARY_RETRY_ATTEMPTS := 3

  /** The attempt that settles a control: the first that is as expected or an actual answer, at the latest the third. */
  ghost predicate Settles(answers: nat -> Verdict, expected: Verdict, attempt: nat) {
    && attempt < CANARY_RETRY_ATTEMPTS
    && (forall k: nat | k < attempt :: answers(k) != expected && TransientNoAnswer(answers(k)))
    && (answers(attempt) == expected || !TransientNoAnswer(answers(attempt))
        || attempt == CANARY_RETRY_ATTEMPTS - 1)
  }

  /** `answers(k)` is what the resolver says to attempt `k` for one control. */
  method CheckControlWithRetry(answers: nat -> Verdict, expected: Verdict) returns (v: Verdict)
    ensures exists attempt: nat :: Settles(answers, expected, attempt) && v == answers(attempt)
  {
    v := answers(0);
    var attempt := 1;
    while v != expected && TransientNoAnswer(v) && attempt < CANARY_RETRY_ATTEMPTS
      invariant 1 <= attempt <= CANARY_RETRY_ATTEMPTS && v == answers(attempt - 1)
      invariant forall k: nat | k < attempt - 1 :: answers(k) != expected && TransientNoAnswer(answers(k))
    {
      v := answers(attempt);
      attempt := attempt + 1;
    }
    assert Settles(answers, expected, attempt - 1);
  }

  /** One of the first three attempts is as expected, and before it there were only lost packets. */
  ghost predicate ControlPasses(answers: nat -> Verdict, expected: Verdict) {
    exists k: nat :: k < 3 && answers(k) == expected
                     && forall j: nat | j < k :: answers(j) == Unknown(Timeout) || answers(j) == Unknown(Transport)
  }

  /**
   The retry finds exactly the controls that pass; a wrong answer that did arrive is never retried away.
   */
  lemma RetryNeverHidesAnAnswer(answers: nat -> Verdict, expected: Verdict, attempt: nat)
    requires Settles(answers, expected, attempt) && expected != Unknown(Timeout) && expected != Unknown(Transport)
    ensures answers(attempt) == expected <==> ControlPasses(answers, expected)
  {
    if k: nat :| k < 3 && answers(k) == expected
                 && forall j: nat | j < k :: answers(j) == Unknown(Timeout) || answers(j) == Unknown(Transport) {
      assert attempt < k ==> answers(attempt) == Unknown(Timeout) || answers(attempt) == Unknown(Transport);
    }
  }

  datatype Resolver = Primary | Secondary

  /** Attempt by attempt, what one resolver says about one control. */
  function AnswersFor(answers: (string, nat) -> Verdict, control: string): nat -> Verdict {
    (k: nat) => answers(control, k)
  }

  ghost predicate CanaryPasses(answers: (string, nat) -> Verdict, alive: seq<string>, dead: seq<string>) {
    && (forall d | d in alive :: ControlPasses(AnswersFor(answers, d), Alive))
    && (forall d | d in dead :: ControlPasses(AnswersFor(answers, d), Dead))
  }

  /** One list of controls against one resolver; every control is asked, whatever came before it. */
  method ControlsPass(answers: (string, nat) -> Verdict, controls: seq<string>, expected: Verdict) returns (ok: bool)
    requires expected != Unknown(Timeout) && expected != Unknown(Transport)
    ensures ok <==> forall d | d in controls :: ControlPasses(AnswersFor(answers, d), expected)
  {
    ok := true;
    for i := 0 to |controls|
      invariant ok <==> forall j | 0 <= j < i :: ControlPasses(AnswersFor(answers, controls[j]), expected)
    {
      var one := AnswersFor(answers, controls[i]);
      var v := CheckControlWithRetry(one, expected);
      ghost var attempt: nat :| Settles(one, expected, attempt) && v == one(attempt);
      RetryNeverHidesAnAnswer(one, expected, attempt);
      if v != expected {
        ok := false;
      }
    }
  }

  /** Both resolvers must pass; the primary is asked first and alone is blamed when it fails. */
  method CanaryPassBoth(primary: (string, nat) -> Verdict, secondary: (string, nat) -> Verdict,
                        alive: seq<string>, dead: seq<string>) returns (failed: Option<Resolver>)
    ensures failed ==
      if !CanaryPasses(primary, alive, dead) then Some(Primary)
      else if !CanaryPasses(secondary, alive, dead) then Some(Secondary)
      else None
  {
    var a := ControlsPass(primary, alive, Alive);
    var d := ControlsPass(primary, dead, Dead);
    if !(a && d) { return Some(Primary); }
    a := ControlsPass(secondary, alive, Alive);
    d := ControlsPass(secondary, dead, Dead);
    return if a && d then None else Some(Secondary);
  }
}
