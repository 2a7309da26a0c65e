/** Fetch escalation: `RetryStrategy.execute` of the enhanced crawler and
    `_fetch_content` of the deep crawler. What a strategy does on the network is
    not modelled: each attempt is given as an abstract outcome, and the random
    jitter is given as a function of the attempt number. */
module Retry {
  import opened Text
  import opened Common

  /** The entries of `RetryStrategy.strategies`. */
  datatype Strategy = DirectRequest | SeleniumRequest | TorRequest | SeleniumWithTor | AggressiveSelenium

  /** The strategy table, in the order the constructor lists it. */
  const Strategies: seq<Strategy> :=
    [DirectRequest, SeleniumRequest, TorRequest, SeleniumWithTor, AggressiveSelenium]

  /** The method name that `strategy.__name__` yields in log lines and errors. */
  function Name(s: Strategy): string {
    match s
    case DirectRequest => "_direct_request"
    case SeleniumRequest => "_selenium_request"
    case TorRequest => "_tor_request"
    case SeleniumWithTor => "_selenium_with_tor"
    case AggressiveSelenium => "_aggressive_selenium"
  }

  /** `RetryStrategy(max_retries=5)`, as the crawler constructs it. */
  const DefaultMaxRetries: nat := 5

  /** `strategies[min(attempt, len(strategies) - 1)]`. */
  function StrategyAt(attempt: nat): (s: Strategy)
    ensures attempt < |Strategies| ==> Rank(s) == attempt
    ensures attempt >= |Strategies| - 1 ==> s == AggressiveSelenium
  {
    Strategies[if attempt < |Strategies| - 1 then attempt else |Strategies| - 1]
  }

  /** Position of a strategy in the table. */
  function Rank(s: Strategy): (k: nat)
    ensures k < |Strategies| && Strategies[k] == s
  {
    match s
    case DirectRequest => 0
    case SeleniumRequest => 1
    case TorRequest => 2
    case SeleniumWithTor => 3
    case AggressiveSelenium => 4
  }

  /** Escalation never goes back to a cheaper strategy, and every attempt from
      the last table index on uses the last strategy. */
  lemma EscalationOrder(a: nat, b: nat)
    requires a <= b
    ensures Rank(StrategyAt(a)) <= Rank(StrategyAt(b))
    ensures Rank(StrategyAt(a)) == if a < |Strategies| then a else |Strategies| - 1
  {
  }

  /** What one strategy call does: returns content, or raises with a message. */
  datatype Outcome = Fetched(content: string) | Raised(message: string)

  /** The exception `execute` raises once every attempt has failed: its message
      names `max_retries` and lists the per-attempt errors. */
  datatype RetryError = AllFailed(maxRetries: nat, errors: seq<string>)

  function Pow2(n: nat): (r: nat)
    ensures r >= 1
  {
    if n == 0 then 1 else 2 * Pow2(n - 1)
  }

  /** The sleeps `2 ** a` after failed attempts 0, ..., n - 1. */
  function Doublings(n: nat): (d: seq<nat>)
    ensures |d| == n && forall a :: 0 <= a < n ==> d[a] == Pow2(a)
  {
    if n == 0 then [] else Doublings(n - 1) + [Pow2(n - 1)]
  }

  const BackoffCap: real := 60.0

  /** `min(2 ** attempt + u, 60)`, where `u` is the uniform jitter in [0, 1). */
  function Backoff(attempt: nat, u: real): real {
    var b := Pow2(attempt) as real + u;
    if b <= BackoffCap then b else BackoffCap
  }

  /** The sleeps `Backoff(a, jitter(a))` after failed attempts 0, ..., n - 1. */
  function Backoffs(n: nat, jitter: nat -> real): (d: seq<real>)
    ensures |d| == n
  {
    if n == 0 then [] else Backoffs(n - 1, jitter) + [Backoff(n - 1, jitter(n - 1))]
  }

  /** Entry `a` of the schedule is the backoff of attempt `a`. */
  lemma {:induction false} BackoffsAt(n: nat, jitter: nat -> real)
    ensures forall a :: 0 <= a < n ==> Backoffs(n, jitter)[a] == Backoff(a, jitter(a))
  {
    if n > 0 {
      BackoffsAt(n - 1, jitter);
      assert forall a :: 0 <= a < n - 1 ==> Backoffs(n, jitter)[a] == Backoffs(n - 1, jitter)[a];
    }
  }

  lemma {:induction false} Pow2Gap(a: nat, b: nat)
    requires a < b
    ensures Pow2(a) + 1 <= Pow2(b)
    decreases b
  {
    if a < b - 1 {
      Pow2Gap(a, b - 1);
    }
  }

  /** The backoff lies in [1, 60] and, jitter included, never decreases from one
      attempt to a later one. */
  lemma BackoffBoundedAndMonotone(a: nat, b: nat, u: real, v: real)
    requires a <= b
    requires 0.0 <= u < 1.0 && 0.0 <= v < 1.0
    requires a == b ==> u <= v
    ensures 1.0 <= Backoff(a, u) <= BackoffCap
    ensures Backoff(a, u) <= Backoff(b, v)
  {
    if a < b {
      Pow2Gap(a, b);
    }
  }

  lemma {:induction false} Pow2AtLeast64(n: nat)
    requires n >= 6
    ensures Pow2(n) >= 64
  {
    if n > 6 {
      Pow2AtLeast64(n - 1);
    } else {
      assert Pow2(6) == 64;
    }
  }

  /** From the seventh attempt on, the cap is what is slept. */
  lemma BackoffCappedFrom6(a: nat, u: real)
    requires a >= 6 && u >= 0.0
    ensures Backoff(a, u) == BackoffCap
  {
    Pow2AtLeast64(a);
  }

  /** The text `execute` appends to `errors` for a failed attempt. */
  function FailureEntry(attempt: nat, o: Outcome): string {
    Name(StrategyAt(attempt)) + ": " + (if o.Raised? then o.message else "")
  }

  /** The text before the first `:` of an entry names the strategy that failed,
      and the entry ends with the exception's message. */
  lemma FailureEntryNamesStrategy(attempt: nat, o: Outcome)
    ensures BeforeFirst(FailureEntry(attempt, o), ':') == Name(StrategyAt(attempt))
    ensures o.Raised? ==> EndsWith(FailureEntry(attempt, o), o.message)
  {
    var name := Name(StrategyAt(attempt));
    var tail := ": " + (if o.Raised? then o.message else "");
    assert ':' !in name;
    assert FailureEntry(attempt, o) == name + tail;
    BeforeFirstAppend(name, tail, ':');
    assert o.Raised? ==> (name + tail)[|name + tail| - |o.message|..] == o.message;
  }

  /** The `errors` list after `n` failed attempts, in attempt order. */
  function FailureLog(world: (nat, Strategy) -> Outcome, n: nat): (log: seq<string>)
    ensures |log| == n
  {
    seq(n, a requires 0 <= a < n => FailureEntry(a, world(a, StrategyAt(a))))
  }

  lemma FailureLogSnoc(world: (nat, Strategy) -> Outcome, n: nat)
    ensures FailureLog(world, n + 1) == FailureLog(world, n) + [FailureEntry(n, world(n, StrategyAt(n)))]
  {
    var longer, log := FailureLog(world, n + 1), FailureLog(world, n);
    forall a | 0 <= a < n
      ensures longer[a] == log[a]
    {
      assert longer[a] == FailureEntry(a, world(a, StrategyAt(a))) == log[a];
    }
  }

  /** What attempt `a` of `execute` observes: the outcome of `StrategyAt(a)`. */
  function AttemptOutcomes(world: (nat, Strategy) -> Outcome): nat -> Outcome {
    (a: nat) => world(a, StrategyAt(a))
  }

  /** The first of the attempts `from`, ..., `n - 1` that fetched content. */
  function FirstSuccess(outcomes: nat -> Outcome, n: nat, from: nat): (r: Option<nat>)
    ensures r.Some? ==> from <= r.value < n && outcomes(r.value).Fetched?
    ensures r.Some? ==> forall a :: from <= a < r.value ==> outcomes(a).Raised?
    ensures r.None? ==> forall a :: from <= a < n ==> outcomes(a).Raised?
    decreases n - from
  {
    if from >= n then None
    else if outcomes(from).Fetched? then Some(from)
    else FirstSuccess(outcomes, n, from + 1)
  }

  /** The first success is the attempt that succeeded after only failures. */
  lemma FirstSuccessAt(outcomes: nat -> Outcome, n: nat, a: nat)
    requires a < n && outcomes(a).Fetched?
    requires forall b :: 0 <= b < a ==> outcomes(b).Raised?
    ensures FirstSuccess(outcomes, n, 0) == Some(a)
  {
  }

  /** What `execute` returns or raises: the content of the first successful
      attempt, or the aggregated error once all `maxRetries` attempts failed. */
  function ExecuteResult(maxRetries: nat, world: (nat, Strategy) -> Outcome): (r: Result<string, RetryError>)
    ensures r.Failure? ==> r.error.maxRetries == |r.error.errors| == maxRetries
  {
    match FirstSuccess(AttemptOutcomes(world), maxRetries, 0)
    case Some(a) => Success(world(a, StrategyAt(a)).content)
    case None => Failure(AllFailed(maxRetries, FailureLog(world, maxRetries)))
  }

  /** `execute` returns content exactly when some attempt fetched it, and the
      content is that attempt's. */
  lemma ExecuteSucceedsIffSomeFetch(maxRetries: nat, world: (nat, Strategy) -> Outcome)
    ensures ExecuteResult(maxRetries, world).Success? <==>
              exists a :: 0 <= a < maxRetries && world(a, StrategyAt(a)).Fetched?
    ensures ExecuteResult(maxRetries, world).Success? ==>
              exists a :: 0 <= a < maxRetries && world(a, StrategyAt(a)) == Fetched(ExecuteResult(maxRetries, world).value)
  {
    assert forall a :: AttemptOutcomes(world)(a) == world(a, StrategyAt(a));
  }

  /** `execute` returns the content of an attempt that follows only failures. */
  lemma ExecuteSucceedsAt(maxRetries: nat, world: (nat, Strategy) -> Outcome, a: nat)
    requires a < maxRetries && world(a, StrategyAt(a)).Fetched?
    requires forall b :: 0 <= b < a ==> world(b, StrategyAt(b)).Raised?
    ensures ExecuteResult(maxRetries, world) == Success(world(a, StrategyAt(a)).content)
  {
    assert forall b :: 0 <= b <= a ==> AttemptOutcomes(world)(b) == world(b, StrategyAt(b));
    FirstSuccessAt(AttemptOutcomes(world), maxRetries, a);
  }

  /** `execute` raises the aggregated error when every attempt failed. */
  lemma ExecuteFailsAfterAll(maxRetries: nat, world: (nat, Strategy) -> Outcome)
    requires forall b :: 0 <= b < maxRetries ==> world(b, StrategyAt(b)).Raised?
    ensures ExecuteResult(maxRetries, world) == Failure(AllFailed(maxRetries, FailureLog(world, maxRetries)))
  {
    assert forall b :: 0 <= b < maxRetries ==> AttemptOutcomes(world)(b) == world(b, StrategyAt(b));
  }

  /** `str(e)` for the aggregated error. The list is shown with each entry in
      single quotes; Python's escaping of quotes and backslashes inside an entry
      is not modelled. */
  function FailureMessage(e: RetryError): (m: string)
    ensures StartsWith(m, "All retry strategies failed after ")
  {
    var quoted := seq(|e.errors|, i requires 0 <= i < |e.errors| => "'" + e.errors[i] + "'");
    "All retry strategies failed after " + NatToString(e.maxRetries) + " attempts. Errors: ["
      + Join(quoted, ", ") + "]"
  }

  /** `RetryStrategy.execute`. Attempt `a` runs `StrategyAt(a)`, whose outcome is
      `world(a, StrategyAt(a))`; the first content is returned at once; every
      failure adds an entry to the error list and sleeps `Backoff(a, jitter(a))`;
      after `maxRetries` failures the aggregated error is the result. */
  method Execute(maxRetries: nat, world: (nat, Strategy) -> Outcome, jitter: nat -> real)
    returns (result: Result<string, RetryError>, tried: seq<Strategy>, sleeps: seq<real>)
    ensures |tried| <= maxRetries
    ensures forall a :: 0 <= a < |tried| ==> tried[a] == StrategyAt(a)
    ensures forall a :: 0 <= a < |sleeps| ==> world(a, StrategyAt(a)).Raised?
    ensures sleeps == Backoffs(|sleeps|, jitter)
    ensures result.Success? ==>
              && |tried| == |sleeps| + 1
              && world(|sleeps|, StrategyAt(|sleeps|)) == Fetched(result.value)
    ensures result.Failure? ==>
              && |tried| == |sleeps| == maxRetries
              && result.error == AllFailed(maxRetries, FailureLog(world, maxRetries))
    ensures result == ExecuteResult(maxRetries, world)
  {
    var errors: seq<string> := [];
    tried, sleeps := [], [];
    var attempt := 0;
    while attempt < maxRetries
      invariant attempt <= maxRetries
      invariant |tried| == |sleeps| == |errors| == attempt
      invariant forall a :: 0 <= a < attempt ==> tried[a] == StrategyAt(a)
      invariant forall a :: 0 <= a < attempt ==> world(a, StrategyAt(a)).Raised?
      invariant sleeps == Backoffs(attempt, jitter)
      invariant errors == FailureLog(world, attempt)
    {
      var strategy := StrategyAt(attempt);
      tried := tried + [strategy];
      var outcome := world(attempt, strategy);
      if outcome.Fetched? {
        ExecuteSucceedsAt(maxRetries, world, attempt);
        return Success(outcome.content), tried, sleeps;
      }
      errors := errors + [Name(strategy) + ": " + outcome.message];
      FailureLogSnoc(world, attempt);
      sleeps := sleeps + [Backoff(attempt, jitter(attempt))];
      attempt := attempt + 1;
    }
    ExecuteFailsAfterAll(maxRetries, world);
    result := Failure(AllFailed(maxRetries, errors));
  }

  /** Number of attempts `_fetch_content` makes. */
  const FetchAttempts: nat := 3

  /** What `_fetch_content` returns: the content of the first of three attempts
      that succeeded, else `None`. */
  function FetchResult(world: nat -> Outcome): (r: Option<string>)
    ensures r.Some? <==> exists a :: 0 <= a < FetchAttempts && world(a).Fetched?
    ensures r.Some? ==> exists a :: 0 <= a < FetchAttempts && world(a) == Fetched(r.value)
  {
    match FirstSuccess(world, FetchAttempts, 0)
    case Some(a) => Some(world(a).content)
    case None => None
  }

  /** `_fetch_content` of the deep crawler. Attempt `a` uses whichever back end
      the random draw picked, and `world(a)` is its outcome. The first content is
      returned; a failure sleeps `2 ** a`; after three failures the result is
      `None` and nothing is raised. */
  method FetchContent(world: nat -> Outcome) returns (content: Option<string>, attempts: nat, sleeps: seq<nat>)
    ensures 1 <= attempts <= FetchAttempts
    ensures forall a :: 0 <= a < |sleeps| ==> world(a).Raised?
    ensures sleeps == Doublings(|sleeps|)
    ensures content.Some? ==> |sleeps| == attempts - 1 && world(attempts - 1) == Fetched(content.value)
    ensures content.None? ==> |sleeps| == attempts == FetchAttempts
    ensures content == FetchResult(world)
  {
    sleeps := [];
    attempts := 0;
    while attempts < FetchAttempts
      invariant attempts <= FetchAttempts
      invariant |sleeps| == attempts
      invariant forall a :: 0 <= a < attempts ==> world(a).Raised?
      invariant sleeps == Doublings(attempts)
    {
      var outcome := world(attempts);
      attempts := attempts + 1;
      if outcome.Fetched? {
        FirstSuccessAt(world, FetchAttempts, attempts - 1);
        return Some(outcome.content), attempts, sleeps;
      }
      sleeps := sleeps + [Pow2(attempts - 1)];
    }
    content := None;
  }
}
