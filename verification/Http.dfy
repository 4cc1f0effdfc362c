/** The retrying client and the circuit breaker around it, over a downstream that answers as it
    likes, and what a breaker saves over a stretch without success. */
module Http {
  import opened Options

  datatype HttpError = HttpError(status: Option<int>, retryAfter: Option<real>)
  type Response = Result<string, HttpError>

  datatype RetryPolicy = RetryPolicy(maxRetries: int, baseDelay: real, maxDelay: real, statuses: set<int>)
  datatype BreakerPolicy = BreakerPolicy(failureThreshold: int, resetAfter: real, tripStatuses: set<int>)

  /** The client underneath: its `k`-th request gets the `k`-th response. */
  class Downstream {
    const script: nat -> Response
    var count: nat

    constructor (script: nat -> Response)
      ensures this.script == script && count == 0
    {
      this.script, count := script, 0;
    }

    method Request() returns (r: Response)
      modifies this
      ensures count == old(count) + 1 && r == script(old(count))
    {
      r := script(count);
      count := count + 1;
    }
  }

  // ---------- retries ----------

  /** A status that is None is in no set of statuses. */
  predicate Retryable(policy: RetryPolicy, r: Response) {
    r.Err? && r.error.status.Some? && r.error.status.value in policy.statuses
  }

  function Power(n: nat): real {
    if n == 0 then 1.0 else 2.0 * Power(n - 1)
  }

  function Min(a: real, b: real): real {
    if b < a then b else a
  }

  function Wait(policy: RetryPolicy, error: HttpError, attempt: nat): real {
    if error.retryAfter.Some? then error.retryAfter.value else Min(policy.baseDelay * Power(attempt), policy.maxDelay)
  }

  /** After a failure worth a retry, the wait that follows it. */
  predicate WaitedFor(policy: RetryPolicy, r: Response, attempt: nat, slept: real) {
    Retryable(policy, r) && slept == Wait(policy, r.error, attempt)
  }

  /** The waits: what Retry-After says, or else the base delay, doubled with each attempt, up to the cap. */
  lemma FirstWaitIsBase(policy: RetryPolicy, r: Response, slept: real)
    requires WaitedFor(policy, r, 0, slept)
    ensures r.Err? && (r.error.retryAfter.Some? ==> slept == r.error.retryAfter.value)
    ensures r.error.retryAfter.None? && policy.baseDelay <= policy.maxDelay ==> slept == policy.baseDelay
    ensures r.error.retryAfter.None? && policy.baseDelay >= policy.maxDelay ==> slept == policy.maxDelay
  {
  }

  lemma WaitsDouble(policy: RetryPolicy, a: Response, b: Response, attempt: nat, first: real, second: real)
    requires WaitedFor(policy, a, attempt, first) && WaitedFor(policy, b, attempt + 1, second)
    requires policy.maxDelay >= 0.0
    ensures a.Err? && b.Err? && (b.error.retryAfter.Some? ==> second == b.error.retryAfter.value)
    ensures a.error.retryAfter.None? && b.error.retryAfter.None? ==>
              second == if 2.0 * first <= policy.maxDelay then 2.0 * first else policy.maxDelay
  {
    Doubled(policy.baseDelay, attempt);
  }

  lemma Doubled(base: real, n: nat)
    ensures base * Power(n + 1) == 2.0 * (base * Power(n))
  {
    assert Power(n + 1) == 2.0 * Power(n);
  }

  function Retries(policy: RetryPolicy): nat {
    if policy.maxRetries > 0 then policy.maxRetries else 0
  }

  class RetryingHttpClient {
    const inner: Downstream
    const policy: RetryPolicy

    constructor (inner: Downstream, policy: RetryPolicy)
      ensures this.inner == inner && this.policy == policy
    {
      this.inner, this.policy := inner, policy;
    }

    /** Every response before the last was worth a retry; the last one is not, or retries are
        spent. `slept` are the waits in between. */
    method Request() returns (r: Response, slept: seq<real>)
      modifies inner
      ensures var n := inner.count - old(inner.count);
              1 <= n <= Retries(policy) + 1 && |slept| == n - 1 &&
              r == inner.script(old(inner.count) + n - 1) &&
              (Retryable(policy, r) ==> n == Retries(policy) + 1)
      ensures forall i | 0 <= i < |slept| :: WaitedFor(policy, inner.script(old(inner.count) + i), i, slept[i])
    {
      var attempt := 0;
      slept := [];
      while true
        invariant 0 <= attempt <= Retries(policy)
        invariant inner.count == old(inner.count) + attempt && |slept| == attempt
        invariant forall i | 0 <= i < |slept| :: WaitedFor(policy, inner.script(old(inner.count) + i), i, slept[i])
        decreases Retries(policy) - attempt
      {
        r := inner.Request();
        if r.Ok? { return; }
        if !(r.error.status.Some? && r.error.status.value in policy.statuses) || attempt >= policy.maxRetries { return; }
        slept := slept + [Wait(policy, r.error, attempt)];
        attempt := attempt + 1;
      }
    }
  }

  // ---------- the breaker ----------

  datatype Breaker = Breaker(failures: nat, openedAt: Option<real>)

  const CLOSED := Breaker(0, None)

  predicate Blocked(policy: BreakerPolicy, b: Breaker, at: real) {
    b.openedAt.Some? && at - b.openedAt.value < policy.resetAfter
  }

  predicate IsOutage(policy: BreakerPolicy, r: Response) {
    r.Err? && (r.error.status.None? || r.error.status.value in policy.tripStatuses)
  }

  predicate IsClientError(policy: BreakerPolicy, r: Response) {
    r.Err? && !IsOutage(policy, r)
  }

  function Settled(policy: BreakerPolicy, b: Breaker, r: Response, at: real): Breaker {
    if r.Ok? then CLOSED
    else if IsOutage(policy, r) then
      Breaker(b.failures + 1, if b.failures + 1 >= policy.failureThreshold then Some(at) else b.openedAt)
    else b
  }

  /** What settling does: a success closes the breaker, an error without a status or with one that trips
      counts as a failure, and any other error changes nothing. */
  lemma WhatCounts(policy: BreakerPolicy, b: Breaker, r: Response, at: real)
    ensures r.Ok? ==> Settled(policy, b, r, at) == Breaker(0, None)
    ensures r.Err? && r.error.status.None? ==> Settled(policy, b, r, at).failures == b.failures + 1
    ensures r.Err? && r.error.status.Some? && r.error.status.value in policy.tripStatuses ==>
              Settled(policy, b, r, at).failures == b.failures + 1
    ensures r.Err? && r.error.status.Some? && r.error.status.value !in policy.tripStatuses ==>
              Settled(policy, b, r, at) == b
    ensures Settled(policy, b, r, at).failures > b.failures ==>
              Settled(policy, b, r, at).openedAt ==
                if b.failures + 1 >= policy.failureThreshold then Some(at) else b.openedAt
  {
  }

  /** CircuitOpen is raised without a request. */
  datatype Outcome = CircuitOpen | Answered(response: Response)

  class CircuitBreakerHttpClient {
    const inner: RetryingHttpClient
    const policy: BreakerPolicy
    var failures: nat
    var openedAt: Option<real>

    constructor (inner: RetryingHttpClient, policy: BreakerPolicy)
      ensures this.inner == inner && this.policy == policy && Current() == CLOSED
    {
      this.inner, this.policy, failures, openedAt := inner, policy, 0, None;
    }

    ghost function Current(): Breaker
      reads this
    {
      Breaker(failures, openedAt)
    }

    method Request(startAt: real, endAt: real) returns (r: Outcome)
      modifies this, inner.inner
      ensures Blocked(policy, old(Current()), startAt) ==>
                r == CircuitOpen && unchanged(this) && unchanged(inner.inner)
      ensures !Blocked(policy, old(Current()), startAt) ==>
                r.Answered? && Current() == Settled(policy, old(Current()), r.response, endAt) &&
                1 <= inner.inner.count - old(inner.inner.count) <= Retries(inner.policy) + 1 &&
                r.response == inner.inner.script(inner.inner.count - 1)
    {
      if openedAt.Some? && startAt - openedAt.value < policy.resetAfter { return CircuitOpen; }
      var response, slept := inner.Request();
      if response.Err? {
        if response.error.status.None? || response.error.status.value in policy.tripStatuses {
          failures := failures + 1;
          if failures >= policy.failureThreshold { openedAt := Some(endAt); }
        }
      } else {
        failures, openedAt := 0, None;
      }
      r := Answered(response);
    }
  }

  // ---------- a run of calls, one after the other ----------

  /** `response` is what comes back and `requests` what it costs, if the call gets through. */
  datatype Call = Call(startAt: real, endAt: real, response: Response, requests: nat)

  predicate InOrder(calls: seq<Call>) {
    (forall i | 0 <= i < |calls| :: calls[i].startAt <= calls[i].endAt) &&
    forall i | 0 <= i < |calls| - 1 :: calls[i].endAt <= calls[i + 1].startAt
  }

  function Next(policy: BreakerPolicy, b: Breaker, c: Call): Breaker {
    if Blocked(policy, b, c.startAt) then b else Settled(policy, b, c.response, c.endAt)
  }

  function After(policy: BreakerPolicy, calls: seq<Call>): Breaker {
    if |calls| == 0 then CLOSED else Next(policy, After(policy, calls[..|calls| - 1]), calls[|calls| - 1])
  }

  /** Whether the last call gets through. */
  predicate LastPasses(policy: BreakerPolicy, calls: seq<Call>)
    requires |calls| > 0
  {
    !Blocked(policy, After(policy, calls[..|calls| - 1]), calls[|calls| - 1].startAt)
  }

  predicate LastIsOutage(policy: BreakerPolicy, calls: seq<Call>)
    requires |calls| > 0
  {
    LastPasses(policy, calls) && IsOutage(policy, calls[|calls| - 1].response)
  }

  predicate LastSucceeds(policy: BreakerPolicy, calls: seq<Call>)
    requires |calls| > 0
  {
    LastPasses(policy, calls) && calls[|calls| - 1].response.Ok?
  }

  function Outages(policy: BreakerPolicy, calls: seq<Call>): nat {
    if |calls| == 0 then 0
    else Outages(policy, calls[..|calls| - 1]) + if LastIsOutage(policy, calls) then 1 else 0
  }

  function OutagesSinceSuccess(policy: BreakerPolicy, calls: seq<Call>): nat {
    if |calls| == 0 || LastSucceeds(policy, calls) then 0
    else OutagesSinceSuccess(policy, calls[..|calls| - 1]) + if LastIsOutage(policy, calls) then 1 else 0
  }

  /** The requests that outages cost the downstream. */
  function OutageRequests(policy: BreakerPolicy, calls: seq<Call>): nat {
    if |calls| == 0 then 0
    else
      OutageRequests(policy, calls[..|calls| - 1]) +
      if LastIsOutage(policy, calls) then calls[|calls| - 1].requests else 0
  }

  predicate SuccessFree(policy: BreakerPolicy, calls: seq<Call>) {
    forall n | 0 < n <= |calls| :: !LastSucceeds(policy, calls[..n])
  }

  /** The failure count is the number of outages since the last success. */
  lemma {:induction false} FailuresCountOutages(policy: BreakerPolicy, calls: seq<Call>)
    ensures After(policy, calls).failures == OutagesSinceSuccess(policy, calls)
  {
    if |calls| > 0 { FailuresCountOutages(policy, calls[..|calls| - 1]); }
  }

  function Threshold(policy: BreakerPolicy): nat {
    if policy.failureThreshold > 1 then policy.failureThreshold else 1
  }

  lemma OneMore(k: nat, reset: real)
    ensures (k + 1) as real * reset == k as real * reset + reset
  {
  }

  /** Since the breaker tripped, outages are at least `resetAfter` apart. */
  predicate Paced(policy: BreakerPolicy, b: Breaker, outages: nat, start: real, now: real) {
    b.failures == outages &&
    if outages < Threshold(policy) then b.openedAt.None?
    else
      b.openedAt.Some? && b.openedAt.value <= now &&
      (outages - Threshold(policy)) as real * policy.resetAfter <= b.openedAt.value - start
  }

  lemma PacedStep(policy: BreakerPolicy, b: Breaker, outages: nat, start: real, now: real, c: Call)
    requires Paced(policy, b, outages, start, now) && start <= now <= c.startAt <= c.endAt
    requires Blocked(policy, b, c.startAt) || c.response.Err?
    ensures var outage := !Blocked(policy, b, c.startAt) && IsOutage(policy, c.response);
            Paced(policy, Next(policy, b, c), outages + if outage then 1 else 0, start, c.endAt)
  {
    if outages >= Threshold(policy) { OneMore(outages - Threshold(policy), policy.resetAfter); }
  }

  lemma Prefixes(policy: BreakerPolicy, calls: seq<Call>)
    requires |calls| > 0 && InOrder(calls) && SuccessFree(policy, calls)
    ensures var before := calls[..|calls| - 1];
            InOrder(before) && SuccessFree(policy, before) && !LastSucceeds(policy, calls) &&
            (|before| > 0 ==> before[0] == calls[0] && before[|before| - 1].endAt <= calls[|before|].startAt)
  {
    var before := calls[..|calls| - 1];
    assert calls[..|calls|] == calls;
    assert forall n | 0 < n <= |before| :: before[..n] == calls[..n];
  }

  lemma {:induction false} StretchIsPaced(policy: BreakerPolicy, calls: seq<Call>)
    requires |calls| > 0 && InOrder(calls) && SuccessFree(policy, calls)
    ensures calls[0].startAt <= calls[|calls| - 1].endAt
    ensures Paced(policy, After(policy, calls), Outages(policy, calls), calls[0].startAt, calls[|calls| - 1].endAt)
  {
    var before := calls[..|calls| - 1];
    var c := calls[|calls| - 1];
    Prefixes(policy, calls);
    if |before| > 0 { StretchIsPaced(policy, before); }
    var now := if |before| > 0 then before[|before| - 1].endAt else c.startAt;
    PacedStep(policy, After(policy, before), Outages(policy, before), calls[0].startAt, now, c);
  }

  lemma FloorBound(k: nat, reset: real, t: real)
    requires reset > 0.0 && k as real * reset <= t
    ensures k <= (t / reset).Floor
  {
    assert k as real <= t / reset;
  }

  lemma OneMoreOutage(cost: nat, n: nat)
    ensures cost * (n + 1) == cost * n + cost
  {
  }

  lemma {:induction false} OutageCost(policy: BreakerPolicy, retry: RetryPolicy, calls: seq<Call>)
    requires forall i | 0 <= i < |calls| :: calls[i].requests <= Retries(retry) + 1
    ensures OutageRequests(policy, calls) <= (Retries(retry) + 1) * Outages(policy, calls)
  {
    if |calls| > 0 {
      OutageCost(policy, retry, calls[..|calls| - 1]);
      OneMoreOutage(Retries(retry) + 1, Outages(policy, calls[..|calls| - 1]));
    }
  }

  lemma PacedIsBounded(policy: BreakerPolicy, b: Breaker, outages: nat, start: real, now: real)
    requires policy.resetAfter > 0.0 && Paced(policy, b, outages, start, now) && start <= now
    ensures outages <= Threshold(policy) + ((now - start) / policy.resetAfter).Floor
  {
    var extra := if outages > Threshold(policy) then outages - Threshold(policy) else 0;
    FloorBound(extra, policy.resetAfter, now - start);
  }

  lemma MulMono(k: nat, a: nat, b: nat)
    requires a <= b
    ensures k * a <= k * b
  {
  }

  /** In a stretch of length T without a success, from a fresh breaker, at most
      `failure_threshold` + floor(T / `reset_after`) calls end as outages, and they cost the
      downstream at most `max_retries` + 1 requests each. */
  lemma OutagesAreBounded(policy: BreakerPolicy, retry: RetryPolicy, calls: seq<Call>)
    requires policy.resetAfter > 0.0 && |calls| > 0 && InOrder(calls) && SuccessFree(policy, calls)
    requires forall i | 0 <= i < |calls| :: calls[i].requests <= Retries(retry) + 1
    ensures var most := Threshold(policy) + ((calls[|calls| - 1].endAt - calls[0].startAt) / policy.resetAfter).Floor;
            Outages(policy, calls) <= most && OutageRequests(policy, calls) <= (Retries(retry) + 1) * most
  {
    StretchIsPaced(policy, calls);
    PacedIsBounded(policy, After(policy, calls), Outages(policy, calls), calls[0].startAt, calls[|calls| - 1].endAt);
    OutageCost(policy, retry, calls);
    MulMono(Retries(retry) + 1, Outages(policy, calls),
            Threshold(policy) + ((calls[|calls| - 1].endAt - calls[0].startAt) / policy.resetAfter).Floor);
  }

  function WithoutClientErrors(policy: BreakerPolicy, calls: seq<Call>): seq<Call> {
    if |calls| == 0 then []
    else
      WithoutClientErrors(policy, calls[..|calls| - 1]) +
      if IsClientError(policy, calls[|calls| - 1].response) then [] else [calls[|calls| - 1]]
  }

  /** Client errors change neither the breaker nor the count of outages nor their cost. */
  lemma {:induction false} ClientErrorsChangeNothing(policy: BreakerPolicy, calls: seq<Call>)
    ensures var rest := WithoutClientErrors(policy, calls);
            After(policy, rest) == After(policy, calls) && Outages(policy, rest) == Outages(policy, calls) &&
            OutageRequests(policy, rest) == OutageRequests(policy, calls)
  {
    if |calls| > 0 {
      ClientErrorsChangeNothing(policy, calls[..|calls| - 1]);
      var before := WithoutClientErrors(policy, calls[..|calls| - 1]);
      var rest := WithoutClientErrors(policy, calls);
      if !IsClientError(policy, calls[|calls| - 1].response) {
        assert rest[..|rest| - 1] == before;
      } else {
        assert rest == before;
      }
    }
  }

  /** Without a positive `reset_after` the breaker never holds a call back. */
  lemma {:induction false} NoResetNoBlock(policy: BreakerPolicy, calls: seq<Call>)
    requires policy.resetAfter <= 0.0 && |calls| > 0 && InOrder(calls)
    ensures LastPasses(policy, calls)
    ensures After(policy, calls).openedAt.Some? ==> After(policy, calls).openedAt.value <= calls[|calls| - 1].endAt
  {
    var before := calls[..|calls| - 1];
    if |before| > 0 {
      assert before[|before| - 1].endAt <= calls[|before|].startAt;
      NoResetNoBlock(policy, before);
    }
  }
}
