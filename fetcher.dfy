/**
 * `fetch_api_data` (run_etl.py:55-83): one GET request repeated while the
 * API answers HTTP 429, with exponential backoff plus jitter between
 * attempts.  The network and the random jitter are oracles indexed by the
 * attempt number; sleeping is recorded in a trace instead of performed.
 */
module Fetcher {

  /** What one request yields, as the retry loop distinguishes it. */
  datatype Response<T> =
    | Ok(body: seq<T>)   // raise_for_status() passed and the JSON list decoded
    | Http(status: int)  // raise_for_status() raised HTTPError carrying this status
    | Transport          // any other RequestException: timeout, refused connection, bad body

  /** One observable action of a call: a request sent, or a sleep of some seconds. */
  datatype Event = Request(attempt: nat) | Wait(seconds: real)

  /** The returned list together with the actions taken to obtain it. */
  datatype Run<T> = Run(result: seq<T>, trace: seq<Event>)

  /** The defaults every caller in the script uses (`retries=4`, `backoff_factor=15.0`). */
  const DefaultRetries: int := 4
  const DefaultBackoff: nat := 15
  const TooManyRequests: int := 429

  predicate IsRateLimited<T>(r: Response<T>) {
    r.Http? && r.status == TooManyRequests
  }

  /** A 429 leads to another attempt only when this is not the last one. */
  predicate Retryable<T>(r: Response<T>, attempt: nat, retries: int) {
    IsRateLimited(r) && attempt < retries - 1
  }

  ghost predicate JitterInRange(jitter: nat -> real) {
    forall n: nat :: 0.0 <= jitter(n) <= 1.0
  }

  function Pow2(n: nat): (r: nat)
    ensures r >= 1
  {
    if n == 0 then 1 else 2 * Pow2(n - 1)
  }

  /** The deterministic part of the wait after attempt `n`: the base, doubled once per earlier attempt. */
  function Backoff(base: nat, n: nat): nat {
    base * Pow2(n)
  }

  /** The wait after a retryable 429 on attempt `n`: backoff plus that attempt's jitter. */
  function WaitTime(base: nat, jitter: nat -> real, n: nat): (w: real)
    ensures 0.0 <= jitter(n) <= 1.0 ==> Backoff(base, n) as real <= w <= Backoff(base, n) as real + 1.0
  {
    Backoff(base, n) as real + jitter(n)
  }

  /** The body of a successful response, and `[]` for every failure. */
  function Outcome<T>(r: Response<T>): seq<T> {
    if r.Ok? then r.body else []
  }

  /** The attempt at which the call stops: the first one, from `attempt` on, that is not retried. */
  function Terminal<T>(network: nat -> Response<T>, retries: int, attempt: nat): (k: nat)
    requires attempt < retries
    ensures attempt <= k < retries
    ensures !Retryable(network(k), k, retries)
    ensures forall i :: attempt <= i < k ==> Retryable(network(i), i, retries)
    decreases retries - attempt
  {
    if Retryable(network(attempt), attempt, retries) then Terminal(network, retries, attempt + 1)
    else attempt
  }

  /** The events of `n` rate-limited attempts: each request followed by its backoff wait. */
  function Backoffs(base: nat, jitter: nat -> real, n: nat): seq<Event> {
    if n == 0 then []
    else Backoffs(base, jitter, n - 1) + [Request(n - 1), Wait(WaitTime(base, jitter, n - 1))]
  }

  /**
   * The reference run: no request at all when `retries <= 0`; otherwise
   * backoffs up to the terminal attempt, its request, and its outcome.
   */
  function Expected<T>(network: nat -> Response<T>, jitter: nat -> real, retries: int, base: nat): Run<T> {
    if retries <= 0 then Run([], [])
    else
      var k := Terminal(network, retries, 0);
      Run(Outcome(network(k)), Backoffs(base, jitter, k) + [Request(k)])
  }

  /** The retry loop of `fetch_api_data`. */
  method FetchApiData<T>(network: nat -> Response<T>, jitter: nat -> real, retries: int, base: nat)
    returns (result: seq<T>, trace: seq<Event>)
    ensures Run(result, trace) == Expected(network, jitter, retries, base)
  {
    trace := [];
    var attempt: nat := 0;
    while attempt < retries
      invariant retries <= 0 ==> attempt == 0
      invariant retries > 0 ==> attempt < retries && Terminal(network, retries, attempt) == Terminal(network, retries, 0)
      invariant trace == Backoffs(base, jitter, attempt)
    {
      var response := network(attempt);
      trace := trace + [Request(attempt)];
      match response
      case Ok(body) =>
        return body, trace;
      case Http(status) =>
        if status == TooManyRequests && attempt < retries - 1 {
          trace := trace + [Wait(WaitTime(base, jitter, attempt))];
          attempt := attempt + 1;
        } else {
          return [], trace;
        }
      case Transport =>
        return [], trace;
    }
    // Only reachable when the loop never ran.
    assert retries <= 0;
    return [], trace;
  }

  // ---- Reading a trace ----

  /** The number of requests sent. */
  function Requests(trace: seq<Event>): nat {
    if trace == [] then 0
    else Requests(trace[..|trace| - 1]) + (if trace[|trace| - 1].Request? then 1 else 0)
  }

  /** The lengths of the sleeps taken, in order. */
  function Waits(trace: seq<Event>): seq<real> {
    if trace == [] then []
    else Waits(trace[..|trace| - 1]) + (if trace[|trace| - 1].Wait? then [trace[|trace| - 1].seconds] else [])
  }

  lemma ReadAppended(trace: seq<Event>, e: Event)
    ensures Requests(trace + [e]) == Requests(trace) + (if e.Request? then 1 else 0)
    ensures Waits(trace + [e]) == Waits(trace) + (if e.Wait? then [e.seconds] else [])
  {
    assert (trace + [e])[..|trace|] == trace;
  }

  lemma {:induction false} BackoffsShape(base: nat, jitter: nat -> real, n: nat)
    ensures Requests(Backoffs(base, jitter, n)) == n
    ensures |Waits(Backoffs(base, jitter, n))| == n
    ensures forall i :: 0 <= i < n ==> Waits(Backoffs(base, jitter, n))[i] == WaitTime(base, jitter, i)
  {
    if n > 0 {
      var prev := Backoffs(base, jitter, n - 1);
      BackoffsShape(base, jitter, n - 1);
      ReadAppended(prev, Request(n - 1));
      ReadAppended(prev + [Request(n - 1)], Wait(WaitTime(base, jitter, n - 1)));
      assert prev + [Request(n - 1)] + [Wait(WaitTime(base, jitter, n - 1))] == Backoffs(base, jitter, n);
    }
  }

  /** A run that made requests: `k + 1` of them, `k` waits before, and it ends on a request. */
  lemma ExpectedShape<T>(network: nat -> Response<T>, jitter: nat -> real, retries: int, base: nat)
    requires retries > 0
    ensures var k := Terminal(network, retries, 0);
            var run := Expected(network, jitter, retries, base);
            && run.result == Outcome(network(k))
            && Requests(run.trace) == k + 1
            && |Waits(run.trace)| == k
            && (forall i :: 0 <= i < k ==> Waits(run.trace)[i] == WaitTime(base, jitter, i))
            && run.trace[|run.trace| - 1] == Request(k)
  {
    var k := Terminal(network, retries, 0);
    BackoffsShape(base, jitter, k);
    ReadAppended(Backoffs(base, jitter, k), Request(k));
  }

  /** If attempts before `i` were retried 429s and `i` is not retried, the call stops at `i`. */
  lemma TerminalIsFirstStop<T>(network: nat -> Response<T>, retries: int, i: nat)
    requires i < retries
    requires forall j :: 0 <= j < i ==> IsRateLimited(network(j))
    requires !Retryable(network(i), i, retries)
    ensures Terminal(network, retries, 0) == i
  {
    assert forall j :: 0 <= j < i ==> Retryable(network(j), j, retries);
  }

  // ---- The promises of the retry policy ----

  /** At most `retries` requests; with `retries <= 0` none at all and an empty result. */
  lemma RequestsBounded<T>(network: nat -> Response<T>, jitter: nat -> real, retries: int, base: nat)
    ensures var run := Expected(network, jitter, retries, base);
            if retries <= 0 then run.result == [] && run.trace == []
            else 1 <= Requests(run.trace) <= retries
  {
    if retries > 0 {
      ExpectedShape(network, jitter, retries, base);
    }
  }

  /** The first successful response is the result, and nothing is requested after it. */
  lemma FirstSuccessReturned<T>(network: nat -> Response<T>, jitter: nat -> real, retries: int, base: nat, i: nat)
    requires i < retries
    requires network(i).Ok?
    requires forall j :: 0 <= j < i ==> IsRateLimited(network(j))
    ensures var run := Expected(network, jitter, retries, base);
            && run.result == network(i).body
            && Requests(run.trace) == i + 1
            && run.trace[|run.trace| - 1] == Request(i)
  {
    TerminalIsFirstStop(network, retries, i);
    ExpectedShape(network, jitter, retries, base);
  }

  /** A non-429 HTTP error ends the call at that request, with `[]` and no wait after it. */
  lemma RejectionEndsCall<T>(network: nat -> Response<T>, jitter: nat -> real, retries: int, base: nat, i: nat)
    requires i < retries
    requires network(i).Http? && network(i).status != TooManyRequests
    requires forall j :: 0 <= j < i ==> IsRateLimited(network(j))
    ensures var run := Expected(network, jitter, retries, base);
            && run.result == []
            && Requests(run.trace) == i + 1
            && |Waits(run.trace)| == i
            && run.trace[|run.trace| - 1] == Request(i)
  {
    TerminalIsFirstStop(network, retries, i);
    ExpectedShape(network, jitter, retries, base);
  }

  /** A transport failure ends the call at once: no retry and no wait after it. */
  lemma TransportEndsCall<T>(network: nat -> Response<T>, jitter: nat -> real, retries: int, base: nat, i: nat)
    requires i < retries
    requires network(i).Transport?
    requires forall j :: 0 <= j < i ==> IsRateLimited(network(j))
    ensures var run := Expected(network, jitter, retries, base);
            && run.result == []
            && Requests(run.trace) == i + 1
            && |Waits(run.trace)| == i
            && run.trace[|run.trace| - 1] == Request(i)
  {
    TerminalIsFirstStop(network, retries, i);
    ExpectedShape(network, jitter, retries, base);
  }

  /** When every attempt is rate-limited the call gives up with `[]`, without a final sleep. */
  lemma ExhaustionEndsCall<T>(network: nat -> Response<T>, jitter: nat -> real, retries: int, base: nat)
    requires retries > 0
    requires forall j :: 0 <= j < retries ==> IsRateLimited(network(j))
    ensures var run := Expected(network, jitter, retries, base);
            && run.result == []
            && Requests(run.trace) == retries
            && |Waits(run.trace)| == retries - 1
            && run.trace[|run.trace| - 1] == Request(retries - 1)
  {
    TerminalIsFirstStop(network, retries, retries - 1);
    ExpectedShape(network, jitter, retries, base);
  }

  /**
   * There is one wait per 429 answered before the terminal attempt: fewer
   * waits than requests, hence fewer than `retries`, each the backoff of its attempt.
   */
  lemma WaitsFollowRateLimits<T>(network: nat -> Response<T>, jitter: nat -> real, retries: int, base: nat)
    requires retries > 0
    ensures var run := Expected(network, jitter, retries, base);
            && |Waits(run.trace)| == Requests(run.trace) - 1 < retries
            && (forall i :: 0 <= i < |Waits(run.trace)| ==>
                  IsRateLimited(network(i)) && Waits(run.trace)[i] == WaitTime(base, jitter, i))
  {
    ExpectedShape(network, jitter, retries, base);
  }

  /** The deterministic part doubles with every attempt, so it never decreases. */
  lemma {:induction false} BackoffGrows(base: nat, m: nat, n: nat)
    requires m < n
    ensures 2 * Backoff(base, m) <= Backoff(base, n)
  {
    if m + 1 < n {
      BackoffGrows(base, m, n - 1);
    }
    assert Backoff(base, n) == 2 * Backoff(base, n - 1) by {
      assert Pow2(n) == 2 * Pow2(n - 1);
    }
  }

  /** With jitter in `[0,1]` every wait lies between its backoff and one second more. */
  lemma WaitsBounded<T>(network: nat -> Response<T>, jitter: nat -> real, retries: int, base: nat)
    requires JitterInRange(jitter)
    ensures var w := Waits(Expected(network, jitter, retries, base).trace);
            forall i :: 0 <= i < |w| ==> Backoff(base, i) as real <= w[i] <= Backoff(base, i) as real + 1.0
  {
    if retries > 0 {
      ExpectedShape(network, jitter, retries, base);
    }
  }

  /** With a positive base the doubling outweighs the jitter: waits never get shorter. */
  lemma WaitsNondecreasing<T>(network: nat -> Response<T>, jitter: nat -> real, retries: int, base: nat)
    requires base >= 1
    requires JitterInRange(jitter)
    ensures var w := Waits(Expected(network, jitter, retries, base).trace);
            forall m, n :: 0 <= m <= n < |w| ==> w[m] <= w[n]
  {
    var w := Waits(Expected(network, jitter, retries, base).trace);
    WaitsBounded(network, jitter, retries, base);
    forall m, n | 0 <= m < n < |w|
      ensures w[m] <= w[n]
    {
      BackoffGrows(base, m, n);
      assert Backoff(base, m) >= 1 by {
        assert Backoff(base, m) == base * Pow2(m);
      }
    }
  }

  /** The script's defaults: at most 4 requests and 3 waits of about 15, 30 and 60 seconds. */
  lemma DefaultPolicy<T>(network: nat -> Response<T>, jitter: nat -> real)
    requires JitterInRange(jitter)
    ensures var run := Expected(network, jitter, DefaultRetries, DefaultBackoff);
            var w := Waits(run.trace);
            && 1 <= Requests(run.trace) <= 4
            && |w| <= 3
            && (|w| > 0 ==> 15.0 <= w[0] <= 16.0)
            && (|w| > 1 ==> 30.0 <= w[1] <= 31.0)
            && (|w| > 2 ==> 60.0 <= w[2] <= 61.0)
  {
    WaitsFollowRateLimits(network, jitter, DefaultRetries, DefaultBackoff);
    WaitsBounded(network, jitter, DefaultRetries, DefaultBackoff);
    assert Pow2(1) == 2 && Pow2(2) == 4;
  }
}
