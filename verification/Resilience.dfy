/**
 Retrying one upstream call, and falling back along a chain of models. The two layers have
 different ideas of which errors are worth another try.
 */
module Resilience {
  import opened Wrappers
  import opened Words

  datatype ProviderError =
    | Http(status: nat, message: string)
    | Serialization(text: string)
    | Provider(text: string)
    | CapabilityNotSupported(text: string)

  // ------------------------------------------------------------------------ retry

  datatype RetryPolicy = RetryPolicy(maxRetries: nat, baseDelayMs: Word, maxDelayMs: Word, retryableStatuses: seq<nat>)

  const DEFAULT_POLICY := RetryPolicy(2, 500, 8000, [429, 502, 503, 504])

  // Status 0 stands for a failure of the transport.
  predicate WorthRetrying(p: RetryPolicy, e: ProviderError) {
    e.Http? && (e.status == 0 || e.status in p.retryableStatuses)
  }

  function Pow2(n: nat): nat {
    if n == 0 then 1 else 2 * Pow2(n - 1)
  }

  // The base doubled for each attempt.
  function Doubled(p: RetryPolicy, attempt: nat): nat {
    p.baseDelayMs * Pow2(attempt)
  }

  // The wait as meant.
  function IdealDelay(p: RetryPolicy, attempt: nat): nat {
    if Doubled(p, attempt) <= p.maxDelayMs then Doubled(p, attempt) else p.maxDelayMs
  }

  // The wait as computed: both the power and the product wrap around.
  function Delay(p: RetryPolicy, attempt: nat): nat {
    var d := p.baseDelayMs * (Pow2(attempt) % WORD) % WORD;
    if d <= p.maxDelayMs then d else p.maxDelayMs
  }

  // The outcome of the n-th call decides: a success, a hopeless error, or the last try.
  predicate Decides<T>(p: RetryPolicy, call: nat -> Result<T, ProviderError>, n: nat) {
    call(n).Ok? || !WorthRetrying(p, call(n).error) || n == p.maxRetries
  }

  // The first call from the n-th on that decides.
  function DecidingCall<T>(p: RetryPolicy, call: nat -> Result<T, ProviderError>, n: nat): (d: nat)
    requires n <= p.maxRetries
    ensures n <= d <= p.maxRetries && Decides(p, call, d) && forall k | n <= k < d :: !Decides(p, call, k)
    decreases p.maxRetries - n
  {
    if Decides(p, call, n) then n else DecidingCall(p, call, n + 1)
  }

  /** with_retry returns the outcome of the first call that succeeds, fails hopelessly or is
      the last allowed, makes no call after it, and waits before each repetition. */
  method WithRetry<T>(p: RetryPolicy, call: nat -> Result<T, ProviderError>)
    returns (r: Result<T, ProviderError>, calls: nat, delays: seq<nat>)
    ensures calls == DecidingCall(p, call, 0) + 1 && r == call(calls - 1)
    ensures |delays| == calls - 1 && forall k | 0 <= k < |delays| :: delays[k] == Delay(p, k)
  {
    delays := [];
    var attempt := 0;
    while true
      invariant attempt <= p.maxRetries && |delays| == attempt
      invariant DecidingCall(p, call, attempt) == DecidingCall(p, call, 0)
      invariant forall k | 0 <= k < |delays| :: delays[k] == Delay(p, k)
      decreases p.maxRetries - attempt
    {
      r := call(attempt);
      calls := attempt + 1;
      if r.Ok? {
        return;
      }
      if !WorthRetrying(p, r.error) || attempt == p.maxRetries {
        return;
      }
      delays := delays + [Delay(p, attempt)];
      attempt := attempt + 1;
    }
  }

  lemma {:induction false} WrapOnce(base: nat, power: nat)
    ensures base * (power % WORD) % WORD == base * power % WORD
  {
    var q := base * (power / WORD);
    var low := base * (power % WORD);
    assert base * power == q * WORD + low;
    var k := low / WORD;
    assert low == k * WORD + low % WORD;
    RemainderIs(base * power, q + k, low % WORD);
  }

  lemma RemainderIs(x: nat, q: nat, r: nat)
    requires x == q * WORD + r && r < WORD
    ensures x % WORD == r
  {
  }

  /** The wait is the one meant iff the doubled base does not overflow, or what is left of it after
      the overflow still reaches the cap. */
  lemma {:induction false} DelayIsIdealIff(p: RetryPolicy, n: nat)
    ensures Delay(p, n) == IdealDelay(p, n)
            <==> Doubled(p, n) < WORD || Doubled(p, n) % WORD >= p.maxDelayMs
  {
    WrapOnce(p.baseDelayMs, Pow2(n));
  }

  lemma {:induction false} IdealDelaysGrow(p: RetryPolicy, i: nat, j: nat)
    requires i <= j
    ensures IdealDelay(p, i) <= IdealDelay(p, j) <= p.maxDelayMs && Doubled(p, i) <= Doubled(p, j)
    decreases j - i
  {
    if i < j {
      IdealDelaysGrow(p, i + 1, j);
      OnceMore(p.baseDelayMs, Pow2(i));
    }
  }

  lemma OnceMore(a: nat, b: nat)
    ensures a * (2 * b) == 2 * (a * b)
  {
  }

  /** Waits never pass the cap, and never shrink up to any attempt that does not overflow. */
  lemma {:induction false} DelaysGrow(p: RetryPolicy, i: nat, j: nat)
    requires i <= j
    ensures Delay(p, j) <= p.maxDelayMs
    ensures Doubled(p, j) < WORD ==> Delay(p, i) <= Delay(p, j)
  {
    IdealDelaysGrow(p, i, j);
    if Doubled(p, j) < WORD {
      DelayIsIdealIff(p, i);
      DelayIsIdealIff(p, j);
    }
  }

  /** The default policy waits half a second and then a second. */
  lemma {:induction false} DefaultDelays()
    ensures Delay(DEFAULT_POLICY, 0) == 500 && Delay(DEFAULT_POLICY, 1) == 1000 && DEFAULT_POLICY.maxRetries == 2
  {
    assert Pow2(1) == 2;
  }

  /** From the 64th repetition on there is no wait at all, whatever the policy. */
  lemma {:induction false} DelaysVanish(p: RetryPolicy, n: nat)
    requires n >= 64
    ensures Delay(p, n) == 0
  {
    PowersVanish(n);
    assert p.baseDelayMs * (Pow2(n) % WORD) == 0;
  }

  lemma {:induction false} PowersVanish(n: nat)
    requires n >= 64
    ensures Pow2(n) % WORD == 0
  {
    PowersAdd(n - 64, 64);
    WordIsPower();
    RemainderIs(Pow2(n), Pow2(n - 64), 0);
  }

  lemma {:induction false} WordIsPower()
    ensures Pow2(64) == WORD
  {
    assert Pow2(8) == 0x100;
    PowersAdd(8, 8);
    PowersAdd(16, 16);
    PowersAdd(32, 32);
  }

  lemma {:induction false} PowersAdd(a: nat, b: nat)
    ensures Pow2(a + b) == Pow2(a) * Pow2(b)
    decreases b
  {
    if b > 0 {
      PowersAdd(a, b - 1);
      OnceMore(Pow2(a), Pow2(b - 1));
    }
  }

  // --------------------------------------------------------------------- fallback

  predicate OccursAt(text: string, part: string, i: nat) {
    i + |part| <= |text| && text[i..i + |part|] == part
  }

  predicate Contains(text: string, part: string) {
    exists i | 0 <= i <= |text| :: OccursAt(text, part, i)
  }

  /** A text contains a part iff it is that part between two others. */
  lemma {:induction false} ContainsIff(text: string, part: string)
    ensures Contains(text, part) <==> exists a: string, b: string :: text == a + part + b
  {
    if Contains(text, part) {
      var i :| 0 <= i <= |text| && OccursAt(text, part, i);
      assert text == text[..i] + part + text[i + |part|..];
    }
    if exists a: string, b: string :: text == a + part + b {
      var a: string, b: string :| text == a + part + b;
      assert text[|a|..|a| + |part|] == part;
      assert OccursAt(text, part, |a|);
    }
  }

  // is_retryable_error: worth trying the next model.
  predicate WorthFallingBack(e: ProviderError) {
    match e
    case Http(status, _) => status >= 500 || status == 429
    case Provider(text) => Contains(text, "timeout") || Contains(text, "timed out")
    case _ => false
  }

  // One model of the chain: whether it resolves, its upstream calls, and the check of an answer.
  datatype Backend<!R> = Backend(resolve: Option<ProviderError>, call: nat -> Result<R, ProviderError>,
                                check: R -> Option<ProviderError>)

  // What an attempt at a model comes to.
  function Outcome<R>(p: RetryPolicy, b: Backend<R>): Result<R, ProviderError> {
    if b.resolve.Some? then Err(b.resolve.value)
    else match b.call(DecidingCall(p, b.call, 0))
      case Err(e) => Err(e)
      case Ok(v) => if b.check(v).Some? then Err(b.check(v).value) else Ok(v)
  }

  function UpstreamCalls<R>(p: RetryPolicy, b: Backend<R>): (n: nat)
    ensures n <= p.maxRetries + 1
  {
    if b.resolve.Some? then 0 else DecidingCall(p, b.call, 0) + 1
  }

  // The n-th call is made: every call before it failed in a way worth retrying, within the limit.
  ghost predicate Reaches<R>(p: RetryPolicy, b: Backend<R>, n: nat) {
    && b.resolve.None? && n <= p.maxRetries
    && forall k | 0 <= k < n :: b.call(k).Err? && WorthRetrying(p, b.call(k).error)
  }

  lemma {:induction false} ReachesDeciding<R>(p: RetryPolicy, b: Backend<R>, n: nat)
    requires b.resolve.None?
    ensures Reaches(p, b, n) <==> n <= DecidingCall(p, b.call, 0)
  {
    var d := DecidingCall(p, b.call, 0);
    forall k | 0 <= k < d
      ensures b.call(k).Err? && WorthRetrying(p, b.call(k).error)
    {
      assert !Decides(p, b.call, k);
    }
    assert Decides(p, b.call, d);
  }

  /** Exactly when an attempt at a model succeeds: it resolves, some call within the limit succeeds
      after calls that all failed in a way worth retrying, and its answer passes the check. */
  lemma {:induction false} SucceedsIff<R>(p: RetryPolicy, b: Backend<R>, v: R)
    ensures Outcome(p, b) == Ok(v) <==> b.check(v).None? && exists n :: Reaches(p, b, n) && b.call(n) == Ok(v)
  {
    if b.resolve.None? {
      var d := DecidingCall(p, b.call, 0);
      ReachesDeciding(p, b, d);
      forall n | Reaches(p, b, n) && b.call(n).Ok?
        ensures n == d
      {
        ReachesDeciding(p, b, n);
        assert Decides(p, b.call, n);
      }
    }
  }

  /** And what it fails with: a failure to resolve; the error of a call after which none follows;
      or the objection to an answer. It makes the calls up to that one and no other. */
  lemma {:induction false} FailsIff<R>(p: RetryPolicy, b: Backend<R>, e: ProviderError)
    ensures Outcome(p, b) == Err(e)
            <==> || b.resolve == Some(e)
                 || (exists n :: Reaches(p, b, n) && b.call(n) == Err(e) && (n == p.maxRetries || !WorthRetrying(p, e)))
                 || (exists n :: Reaches(p, b, n) && b.call(n).Ok? && b.check(b.call(n).value) == Some(e))
    ensures b.resolve.Some? ==> UpstreamCalls(p, b) == 0
    ensures forall n: nat | b.resolve.None? :: n < UpstreamCalls(p, b) <==> Reaches(p, b, n)
  {
    if b.resolve.None? {
      var d := DecidingCall(p, b.call, 0);
      ReachesDeciding(p, b, d);
      assert Decides(p, b.call, d);
      forall n: nat
        ensures n < UpstreamCalls(p, b) <==> Reaches(p, b, n)
        ensures Reaches(p, b, n) && Decides(p, b.call, n) ==> n == d
      {
        ReachesDeciding(p, b, n);
      }
      forall n: nat | Reaches(p, b, n) && b.call(n).Ok?
        ensures n == d
      {
        assert Decides(p, b.call, n);
      }
      forall n: nat | Reaches(p, b, n) && b.call(n) == Err(e) && (n == p.maxRetries || !WorthRetrying(p, e))
        ensures n == d
      {
        assert Decides(p, b.call, n);
      }
    }
  }

  method Attempt<R>(p: RetryPolicy, b: Backend<R>) returns (r: Result<R, ProviderError>, calls: nat)
    ensures r == Outcome(p, b) && calls == UpstreamCalls(p, b)
  {
    if b.resolve.Some? {
      return Err(b.resolve.value), 0;
    }
    var answer, n, _ := WithRetry(p, b.call);
    calls := n;
    match answer
    case Err(e) => r := Err(e);
    case Ok(v) => r := if b.check(v).Some? then Err(b.check(v).value) else Ok(v);
  }

  // The chain moves on past this model.
  ghost predicate Passed<R>(p: RetryPolicy, b: Backend<R>) {
    Outcome(p, b).Err? && WorthFallingBack(Outcome(p, b).error)
  }

  datatype FallbackResult<R> = FallbackResult(response: R, modelUsed: nat, attemptsMade: nat, fallbackTriggered: bool)

  const NOTHING_TRIED := Provider("All fallback attempts failed")

  function TotalCalls<R>(p: RetryPolicy, chain: seq<Backend<R>>): nat {
    if chain == [] then 0 else TotalCalls(p, chain[..|chain| - 1]) + UpstreamCalls(p, chain[|chain| - 1])
  }

  /** The answer comes from the first model of the chain that succeeds, after models that all
      failed in a way worth falling back from; a failure is reported from the last model
      tried, which is the last of the chain or failed in another way. The calls made are those
      of the models tried and no others. */
  method CallWithFallback<R>(p: RetryPolicy, chain: seq<Backend<R>>)
    returns (r: Result<FallbackResult<R>, ProviderError>, tried: nat, calls: nat)
    ensures tried <= |chain| && calls == TotalCalls(p, chain[..tried])
    ensures forall j | 0 <= j < tried - 1 :: Passed(p, chain[j])
    ensures r.Ok? ==>
              var f := r.value;
              && 0 < tried == f.attemptsMade && f.modelUsed == tried - 1
              && Outcome(p, chain[tried - 1]) == Ok(f.response)
              && (f.fallbackTriggered <==> f.attemptsMade > 1)
    ensures r.Err? && chain != [] ==>
              && 0 < tried && Outcome(p, chain[tried - 1]) == Err(r.error)
              && (tried == |chain| || !WorthFallingBack(r.error))
    ensures chain == [] ==> r == Err(NOTHING_TRIED)
  {
    calls := 0;
    tried := 0;
    var lastError: Option<ProviderError> := None;
    for i := 0 to |chain|
      invariant tried == i && calls == TotalCalls(p, chain[..i])
      invariant forall j | 0 <= j < i :: Passed(p, chain[j])
      invariant i == |chain| ==> chain == []
      invariant lastError == None
    {
      var outcome, n := Attempt(p, chain[i]);
      assert chain[..i + 1][..i] == chain[..i];
      tried, calls := i + 1, calls + n;
      match outcome
      case Ok(response) =>
        return Ok(FallbackResult(response, i, i + 1, i > 0)), tried, calls;
      case Err(e) =>
        if tried >= |chain| || !WorthFallingBack(e) {
          lastError := Some(e);
          break;
        }
    }
    r := Err(if lastError.Some? then lastError.value else NOTHING_TRIED);
  }

  /** Composed: a fallback run makes at most |chain| * (maxRetries + 1) upstream calls. */
  lemma {:induction false} CallsAreBounded<R>(p: RetryPolicy, chain: seq<Backend<R>>)
    ensures TotalCalls(p, chain) <= |chain| * (p.maxRetries + 1)
    decreases |chain|
  {
    if chain != [] {
      CallsAreBounded(p, chain[..|chain| - 1]);
      assert |chain| * (p.maxRetries + 1) == (|chain| - 1) * (p.maxRetries + 1) + (p.maxRetries + 1);
    }
  }

  // The texts of provider errors that count as timeouts.
  ghost predicate TimesOut(e: ProviderError) {
    && e.Provider?
    && ((exists a: string, b: string :: e.text == a + "timeout" + b)
        || (exists a: string, b: string :: e.text == a + "timed out" + b))
  }

  /** Exactly where the two layers disagree, for every policy and error: retried but not worth
      falling back are transport failures and configured statuses below 500 other than 429; worth
      falling back but not retried are timeouts, and 429 and 5xx statuses not configured; both are
      429 and 5xx statuses that are. */
  lemma {:induction false} RetrySetsDiffer(p: RetryPolicy, e: ProviderError)
    ensures WorthRetrying(p, e) && !WorthFallingBack(e)
            <==> e.Http? && e.status < 500 && e.status != 429 && (e.status == 0 || e.status in p.retryableStatuses)
    ensures WorthFallingBack(e) && !WorthRetrying(p, e)
            <==> TimesOut(e) || (e.Http? && (e.status == 429 || e.status >= 500) && e.status !in p.retryableStatuses)
    ensures WorthFallingBack(e) && WorthRetrying(p, e)
            <==> e.Http? && (e.status == 429 || e.status >= 500) && e.status in p.retryableStatuses
  {
    if e.Provider? {
      ContainsIff(e.text, "timeout");
      ContainsIff(e.text, "timed out");
    }
  }

  /** With the default policy: only transport failures are retried without falling back, and only
      timeouts and 5xx statuses other than 502, 503 and 504 fall back without a retry. */
  lemma {:induction false} DefaultRetrySetsDiffer(e: ProviderError)
    ensures WorthRetrying(DEFAULT_POLICY, e) && !WorthFallingBack(e) <==> e.Http? && e.status == 0
    ensures WorthFallingBack(e) && !WorthRetrying(DEFAULT_POLICY, e)
            <==> TimesOut(e) || (e.Http? && e.status >= 500 && e.status !in {502, 503, 504})
  {
    RetrySetsDiffer(DEFAULT_POLICY, e);
  }
}
