/** The rate limiter on a shared store: a counter per subject and time bucket, incremented and given
    an expiry in separate commands by any number of replicas. */
module SharedRateLimit {
  import opened Options
  import opened Sets

  /** `delay` bounds the time between a replica's clock reading and its increment. */
  datatype Params = Params(max: nat, window: real, delay: real)

  predicate Valid(p: Params) {
    p.max >= 1 && p.window > 0.0 && p.delay >= 0.0
  }

  // ---------- the store ----------

  type Key = (string, int)
  datatype Counter = Counter(count: nat, expiresAt: Option<real>)
  type Counters = map<Key, Counter>

  predicate Expired(c: Counter, now: real) {
    c.expiresAt.Some? && c.expiresAt.value <= now
  }

  /** INCR: an expired key counts from nothing again, with no expiry. */
  function Incremented(counters: Counters, key: Key, now: real): Counters {
    var live := key in counters && !Expired(counters[key], now);
    counters[key := if live then counters[key].(count := counters[key].count + 1) else Counter(1, None)]
  }

  /** EXPIRE: no effect on a key that is gone. */
  function Expiring(counters: Counters, key: Key, ttl: int, now: real): Counters {
    if key in counters && !Expired(counters[key], now) then
      counters[key := counters[key].(expiresAt := Some(now + ttl as real))]
    else counters
  }

  function Bucket(window: real, at: real): int
    requires window > 0.0
  {
    (at / window).Floor
  }

  /** When a bucket begins. */
  function BeginsAt(window: real, bucket: int): real
    decreases if bucket < 0 then -bucket else bucket
  {
    if bucket == 0 then 0.0
    else if bucket > 0 then BeginsAt(window, bucket - 1) + window
    else BeginsAt(window, bucket + 1) - window
  }

  /** The seconds given to a counter: the window in whole seconds and one more. */
  function Lifetime(window: real): int {
    window.Floor + 1
  }

  class Store {
    var counters: Counters

    constructor ()
      ensures counters == map[]
    {
      counters := map[];
    }

    method Incr(key: Key, now: real) returns (n: nat)
      modifies this
      ensures counters == Incremented(old(counters), key, now) && n == counters[key].count
    {
      counters := Incremented(counters, key, now);
      n := counters[key].count;
    }

    method Expire(key: Key, ttl: int, now: real)
      modifies this
      ensures counters == Expiring(old(counters), key, ttl, now)
    {
      counters := Expiring(counters, key, ttl, now);
    }
  }

  class RedisRateLimiter {
    const store: Store
    const max: nat
    const window: real

    constructor (store: Store, max: nat, window: real)
      requires max >= 1 && window > 0.0
      ensures this.store == store && this.max == max && this.window == window
    {
      this.store, this.max, this.window := store, max, window;
    }

    method Check(subject: string, readAt: real, countedAt: real, expiredAt: real) returns (accepted: bool)
      requires window > 0.0
      modifies store
      ensures var key := (subject, Bucket(window, readAt));
              var counted := Incremented(old(store.counters), key, countedAt);
              store.counters ==
                (if counted[key].count == 1 then Expiring(counted, key, Lifetime(window), expiredAt) else counted) &&
              (accepted <==> counted[key].count <= max)
    {
      var key := (subject, Bucket(window, readAt));
      var count := store.Incr(key, countedAt);
      if count == 1 { store.Expire(key, Lifetime(window), expiredAt); }
      accepted := count <= max;
    }
  }

  /** The constructor's checks. */
  method NewLimiter(store: Store, max: int, window: real) returns (r: Result<RedisRateLimiter, string>)
    ensures r.Ok? <==> max >= 1 && window > 0.0
    ensures r.Ok? ==> fresh(r.value) && r.value.store == store && r.value.max == max && r.value.window == window
  {
    if max < 1 { return Err("max_calls must be >= 1"); }
    if window <= 0.0 { return Err("window_seconds must be > 0"); }
    var limiter := new RedisRateLimiter(store, max, window);
    r := Ok(limiter);
  }

  // ---------- all replicas, step by step ----------

  datatype Phase = Bucketed | Holding(ticket: nat, expirySet: bool) | Admitted(ticket: nat) | Refused | Crashed
  datatype Call = Call(subject: string, bucket: int, readAt: real, phase: Phase)

  /** Calls are kept after they end. */
  datatype State = State(now: real, counters: Counters, calls: map<int, Call>)

  datatype Step =
    | Tick(dt: real)
    | Read(c: int, subject: string)
    | Incr(c: int)
    | Expire(c: int)
    | Decide(c: int)
    | Crash(c: int)

  function KeyOf(c: Call): Key { (c.subject, c.bucket) }

  predicate Enabled(p: Params, s: State, step: Step) {
    match step
    case Tick(dt) =>
      dt >= 0.0 && forall c | c in s.calls && s.calls[c].phase.Bucketed? :: s.now + dt - s.calls[c].readAt <= p.delay
    case Read(c, _) => c !in s.calls
    case Incr(c) => c in s.calls && s.calls[c].phase.Bucketed?
    case Expire(c) =>
      c in s.calls && s.calls[c].phase.Holding? && s.calls[c].phase.ticket == 1 && !s.calls[c].phase.expirySet
    case Decide(c) =>
      c in s.calls && s.calls[c].phase.Holding? && (s.calls[c].phase.ticket == 1 ==> s.calls[c].phase.expirySet)
    case Crash(c) => c in s.calls && (s.calls[c].phase.Bucketed? || s.calls[c].phase.Holding?)
  }

  function Move(s: State, c: int, phase: Phase): State
    requires c in s.calls
  {
    s.(calls := s.calls[c := s.calls[c].(phase := phase)])
  }

  function Apply(p: Params, s: State, step: Step): State
    requires Valid(p) && Enabled(p, s, step)
  {
    match step
    case Tick(dt) => s.(now := s.now + dt)
    case Read(c, subject) => s.(calls := s.calls[c := Call(subject, Bucket(p.window, s.now), s.now, Bucketed)])
    case Incr(c) =>
      var counters := Incremented(s.counters, KeyOf(s.calls[c]), s.now);
      Move(s, c, Holding(counters[KeyOf(s.calls[c])].count, false)).(counters := counters)
    case Expire(c) =>
      Move(s, c, Holding(s.calls[c].phase.ticket, true))
        .(counters := Expiring(s.counters, KeyOf(s.calls[c]), Lifetime(p.window), s.now))
    case Decide(c) =>
      Move(s, c, if s.calls[c].phase.ticket <= p.max then Admitted(s.calls[c].phase.ticket) else Refused)
    case Crash(c) => Move(s, c, Crashed)
  }

  predicate Legal(p: Params, start: real, steps: seq<Step>)
    requires Valid(p)
    decreases |steps|, 0
  {
    |steps| > 0 ==>
      Legal(p, start, steps[..|steps| - 1]) && Enabled(p, Run(p, start, steps[..|steps| - 1]), steps[|steps| - 1])
  }

  function Run(p: Params, start: real, steps: seq<Step>): State
    requires Valid(p) && Legal(p, start, steps)
    decreases |steps|, 1
  {
    if |steps| == 0 then State(start, map[], map[])
    else Apply(p, Run(p, start, steps[..|steps| - 1]), steps[|steps| - 1])
  }

  // ---------- what every step keeps ----------

  predicate HasTicket(c: Call) {
    c.phase.Holding? || c.phase.Admitted?
  }

  /** A call read the clock in its bucket, not in the future; one yet to count read it lately. */
  predicate CallInv(p: Params, s: State, c: Call)
    requires Valid(p)
  {
    c.bucket == Bucket(p.window, c.readAt) && c.readAt <= s.now &&
    (c.phase.Bucketed? ==> s.now - c.readAt <= p.delay) &&
    (HasTicket(c) ==>
       KeyOf(c) in s.counters && 1 <= c.phase.ticket <= s.counters[KeyOf(c)].count &&
       (c.phase.Admitted? ==> c.phase.ticket <= p.max))
  }

  /** A counter is for a bucket that has begun, and outlives it by what the lifetime leaves over. */
  predicate CounterInv(p: Params, now: real, key: Key, c: Counter) {
    BeginsAt(p.window, key.1) <= now &&
    (c.expiresAt.Some? ==> c.expiresAt.value >= BeginsAt(p.window, key.1) + Lifetime(p.window) as real)
  }

  /** No two calls hold the same ticket of a bucket. */
  predicate Distinct(calls: map<int, Call>) {
    forall c, d | c in calls && d in calls && c != d && HasTicket(calls[c]) && HasTicket(calls[d]) ::
      KeyOf(calls[c]) == KeyOf(calls[d]) ==> calls[c].phase.ticket != calls[d].phase.ticket
  }

  predicate Inv(p: Params, s: State)
    requires Valid(p)
  {
    (forall c | c in s.calls :: CallInv(p, s, s.calls[c])) &&
    (forall key | key in s.counters :: CounterInv(p, s.now, key, s.counters[key])) &&
    Distinct(s.calls)
  }

  lemma Quotient(at: real, window: real) returns (q: real)
    requires window > 0.0
    ensures q == at / window && q * window == at
  {
    q := at / window;
  }

  lemma Scale(a: real, b: real, k: real)
    requires a <= b && k > 0.0
    ensures a * k <= b * k
  {
  }

  lemma StrictScale(a: real, b: real, k: real)
    requires a < b && k > 0.0
    ensures a * k < b * k
  {
  }

  lemma Sandwich(b: real, next: real, q: real, k: real, at: real)
    requires b <= q < next && next == b + 1.0 && k > 0.0 && q * k == at
    ensures b * k <= at < b * k + k
  {
    Scale(b, q, k);
    calc {
      at;
      q * k;
    < { StrictScale(q, next, k); }
      next * k;
      (b + 1.0) * k;
      b * k + k;
    }
  }

  lemma {:induction false} BeginsAtMultiple(window: real, bucket: int)
    ensures BeginsAt(window, bucket) == bucket as real * window
    decreases if bucket < 0 then -bucket else bucket
  {
    if bucket > 0 {
      BeginsAtMultiple(window, bucket - 1);
    } else if bucket < 0 {
      BeginsAtMultiple(window, bucket + 1);
    }
  }

  lemma {:induction false} BucketsFollow(window: real, b: int, c: int)
    requires window > 0.0 && b < c
    ensures BeginsAt(window, b) + window <= BeginsAt(window, c)
    decreases c - b
  {
    if b + 1 < c { BucketsFollow(window, b, c - 1); }
  }

  /** A moment lies in its bucket. */
  lemma BucketFacts(window: real, at: real)
    requires window > 0.0
    ensures BeginsAt(window, Bucket(window, at)) <= at < BeginsAt(window, Bucket(window, at)) + window
  {
    var b := Bucket(window, at);
    BeginsAtMultiple(window, b);
    var q := Quotient(at, window);
    Sandwich(b as real, b as real + 1.0, q, window, at);
  }

  /** The delays a counter's lifetime can cover. */
  predicate Covered(p: Params) {
    p.delay <= Lifetime(p.window) as real - p.window
  }

  /** A call that is about to count finds its counter, if there is one, unexpired. */
  lemma NotExpired(p: Params, s: State, c: int)
    requires Valid(p) && Covered(p) && Inv(p, s) && c in s.calls && s.calls[c].phase.Bucketed?
    requires KeyOf(s.calls[c]) in s.counters
    ensures !Expired(s.counters[KeyOf(s.calls[c])], s.now)
  {
    assert CallInv(p, s, s.calls[c]);
    assert CounterInv(p, s.now, KeyOf(s.calls[c]), s.counters[KeyOf(s.calls[c])]);
    BucketFacts(p.window, s.calls[c].readAt);
  }

  lemma IncrKeepsCounters(p: Params, s: State, c: int)
    requires Valid(p) && Inv(p, s) && Enabled(p, s, Incr(c))
    ensures forall k | k in Apply(p, s, Incr(c)).counters :: CounterInv(p, s.now, k, Apply(p, s, Incr(c)).counters[k])
  {
    var s' := Apply(p, s, Incr(c));
    assert CallInv(p, s, s.calls[c]);
    BucketFacts(p.window, s.calls[c].readAt);
    forall k | k in s'.counters ensures CounterInv(p, s.now, k, s'.counters[k]) {
      if k in s.counters { assert CounterInv(p, s.now, k, s.counters[k]); }
    }
  }

  lemma IncrKeeps(p: Params, s: State, c: int)
    requires Valid(p) && Covered(p) && Inv(p, s) && Enabled(p, s, Incr(c))
    ensures Inv(p, Apply(p, s, Incr(c)))
  {
    var s' := Apply(p, s, Incr(c));
    var key := KeyOf(s.calls[c]);
    assert CallInv(p, s, s.calls[c]);
    if key in s.counters { NotExpired(p, s, c); }
    IncrKeepsCounters(p, s, c);
    forall d | d in s'.calls ensures CallInv(p, s', s'.calls[d]) {
      if d != c { assert CallInv(p, s, s.calls[d]); }
    }
    forall d | d in s.calls && d != c && HasTicket(s.calls[d]) && KeyOf(s.calls[d]) == key
      ensures s.calls[d].phase.ticket < s'.calls[c].phase.ticket
    {
      assert CallInv(p, s, s.calls[d]);
    }
  }

  lemma ExpireKeeps(p: Params, s: State, c: int)
    requires Valid(p) && Inv(p, s) && Enabled(p, s, Expire(c))
    ensures Inv(p, Apply(p, s, Expire(c)))
  {
    var s' := Apply(p, s, Expire(c));
    forall d | d in s'.calls ensures CallInv(p, s', s'.calls[d]) {
      assert CallInv(p, s, s.calls[d]);
    }
    forall k | k in s'.counters ensures CounterInv(p, s'.now, k, s'.counters[k]) {
      assert CounterInv(p, s.now, k, s.counters[k]);
    }
  }

  lemma StepKeepsInv(p: Params, s: State, step: Step)
    requires Valid(p) && Covered(p) && Inv(p, s) && Enabled(p, s, step)
    ensures Inv(p, Apply(p, s, step))
  {
    var s' := Apply(p, s, step);
    if step.Incr? {
      IncrKeeps(p, s, step.c);
    } else if step.Expire? {
      ExpireKeeps(p, s, step.c);
    } else {
      forall d | d in s'.calls ensures CallInv(p, s', s'.calls[d]) {
        if d in s.calls { assert CallInv(p, s, s.calls[d]); }
      }
      forall k | k in s'.counters ensures CounterInv(p, s'.now, k, s'.counters[k]) {
        assert CounterInv(p, s.now, k, s.counters[k]);
      }
    }
  }

  lemma {:induction false} RunKeepsInv(p: Params, start: real, steps: seq<Step>)
    requires Valid(p) && Covered(p) && Legal(p, start, steps)
    ensures Inv(p, Run(p, start, steps))
  {
    if |steps| > 0 {
      RunKeepsInv(p, start, steps[..|steps| - 1]);
      StepKeepsInv(p, Run(p, start, steps[..|steps| - 1]), steps[|steps| - 1]);
    }
  }

  // ---------- what is admitted ----------

  /** The calls of a subject admitted in a bucket, over all replicas. */
  function AdmittedIn(s: State, subject: string, bucket: int): set<int> {
    set c | c in s.calls && s.calls[c].phase.Admitted? && s.calls[c].subject == subject && s.calls[c].bucket == bucket
  }

  /** The calls of a subject admitted whose clock readings lie in a window. */
  function AdmittedBetween(s: State, subject: string, from: real, to: real): set<int> {
    set c | c in s.calls && s.calls[c].phase.Admitted? && s.calls[c].subject == subject && from <= s.calls[c].readAt < to
  }

  lemma {:induction false} TicketsRunOut(calls: map<int, Call>, held: set<int>, n: nat)
    requires forall c | c in held :: c in calls && HasTicket(calls[c]) && 1 <= calls[c].phase.ticket <= n
    requires forall c, d | c in held && d in held && c != d && HasTicket(calls[c]) && HasTicket(calls[d]) ::
               calls[c].phase.ticket != calls[d].phase.ticket
    ensures |held| <= n
    decreases n
  {
    if n == 0 {
      if held != {} { var c := AnElement(held); }
    } else {
      if last :| last in held && calls[last].phase.ticket == n {
        TicketsRunOut(calls, held - {last}, n - 1);
      } else {
        TicketsRunOut(calls, held, n - 1);
      }
    }
  }

  lemma InvBoundsBucket(p: Params, s: State, subject: string, bucket: int)
    requires Valid(p) && Inv(p, s)
    ensures |AdmittedIn(s, subject, bucket)| <= p.max
  {
    forall c | c in AdmittedIn(s, subject, bucket) ensures 1 <= s.calls[c].phase.ticket <= p.max {
      assert CallInv(p, s, s.calls[c]);
    }
    TicketsRunOut(s.calls, AdmittedIn(s, subject, bucket), p.max);
  }

  /** A window meets at most two buckets. */
  lemma TwoBuckets(window: real, from: real, at: real)
    requires window > 0.0 && from <= at < from + window
    ensures Bucket(window, from) <= Bucket(window, at) <= Bucket(window, from) + 1
  {
    var b, c := Bucket(window, from), Bucket(window, at);
    BucketFacts(window, from);
    BucketFacts(window, at);
    if c < b {
      BucketsFollow(window, c, b);
    } else if c > b + 1 {
      BucketsFollow(window, b, b + 1);
      BucketsFollow(window, b + 1, c);
    }
  }

  lemma InvBoundsWindow(p: Params, s: State, subject: string, from: real)
    requires Valid(p) && Inv(p, s)
    ensures |AdmittedBetween(s, subject, from, from + p.window)| <= 2 * p.max
  {
    var b := Bucket(p.window, from);
    InvBoundsBucket(p, s, subject, b);
    InvBoundsBucket(p, s, subject, b + 1);
    var held := AdmittedBetween(s, subject, from, from + p.window);
    forall c | c in held ensures c in AdmittedIn(s, subject, b) + AdmittedIn(s, subject, b + 1) {
      assert CallInv(p, s, s.calls[c]);
      TwoBuckets(p.window, from, s.calls[c].readAt);
    }
    SubsetSize(held, AdmittedIn(s, subject, b) + AdmittedIn(s, subject, b + 1));
  }

  /** Every run of every number of replicas admits at most `max` calls a bucket and twice that in any
      window of the window's length. */
  lemma AdmissionsAreBounded(p: Params, start: real, steps: seq<Step>, subject: string, bucket: int, from: real)
    requires Valid(p) && Covered(p) && Legal(p, start, steps)
    ensures |AdmittedIn(Run(p, start, steps), subject, bucket)| <= p.max
    ensures |AdmittedBetween(Run(p, start, steps), subject, from, from + p.window)| <= 2 * p.max
  {
    RunKeepsInv(p, start, steps);
    InvBoundsBucket(p, Run(p, start, steps), subject, bucket);
    InvBoundsWindow(p, Run(p, start, steps), subject, from);
  }

  // ---------- how late an increment may be ----------

  lemma OneMore(p: Params, start: real, steps: seq<Step>, step: Step)
    requires Valid(p) && Legal(p, start, steps) && Enabled(p, Run(p, start, steps), step)
    ensures Legal(p, start, steps + [step])
    ensures Run(p, start, steps + [step]) == Apply(p, Run(p, start, steps), step)
  {
    assert (steps + [step])[..|steps|] == steps;
  }

  lemma ThreeMore(p: Params, start: real, steps: seq<Step>, a: Step, b: Step, c: Step)
    requires Valid(p) && Legal(p, start, steps)
    requires var s := Run(p, start, steps);
             Enabled(p, s, a) && Enabled(p, Apply(p, s, a), b) && Enabled(p, Apply(p, Apply(p, s, a), b), c)
    ensures Legal(p, start, steps + [a, b, c])
    ensures Run(p, start, steps + [a, b, c]) == Apply(p, Apply(p, Apply(p, Run(p, start, steps), a), b), c)
  {
    OneMore(p, start, steps, a);
    OneMore(p, start, steps + [a], b);
    OneMore(p, start, steps + [a] + [b], c);
    assert steps + [a] + [b] + [c] == steps + [a, b, c];
  }

  /** `n` calls of "x" were admitted at the first moment of bucket 0. */
  ghost predicate Filled(p: Params, s: State, n: nat) {
    s.now == 0.0 && (forall c :: c in s.calls <==> 0 <= c < n) &&
    (forall c | 0 <= c < n :: s.calls[c].subject == "x" && s.calls[c].bucket == 0 && s.calls[c].phase.Admitted?) &&
    if n == 0 then s.counters == map[]
    else s.counters == map[("x", 0) := Counter(n, Some(Lifetime(p.window) as real))]
  }

  lemma BucketOfZero(window: real, at: real)
    requires window > 0.0 && 0.0 <= at < window
    ensures Bucket(window, at) == 0
  {
    var b := Bucket(window, at);
    BucketFacts(window, at);
    if b > 0 {
      BucketsFollow(window, 0, b);
    } else if b < 0 {
      BucketsFollow(window, b, 0);
    }
  }

  lemma FillOne(p: Params, s: State, n: nat)
    requires Valid(p) && Filled(p, s, n) && n < p.max
    ensures Enabled(p, s, Read(n, "x"))
    ensures var s1 := Apply(p, s, Read(n, "x"));
            Enabled(p, s1, Incr(n)) &&
            var s2 := Apply(p, s1, Incr(n));
            if n == 0 then
              Enabled(p, s2, Expire(n)) && Enabled(p, Apply(p, s2, Expire(n)), Decide(n)) &&
              Filled(p, Apply(p, Apply(p, s2, Expire(n)), Decide(n)), n + 1)
            else Enabled(p, s2, Decide(n)) && Filled(p, Apply(p, s2, Decide(n)), n + 1)
  {
    BucketOfZero(p.window, 0.0);
  }

  lemma {:induction false} Fill(p: Params, n: nat) returns (steps: seq<Step>)
    requires Valid(p) && n <= p.max
    ensures Legal(p, 0.0, steps) && Filled(p, Run(p, 0.0, steps), n)
  {
    steps := [];
    if n > 0 {
      steps := Fill(p, n - 1);
      FillOne(p, Run(p, 0.0, steps), n - 1);
      OneMore(p, 0.0, steps, Read(n - 1, "x"));
      steps := steps + [Read(n - 1, "x")];
      OneMore(p, 0.0, steps, Incr(n - 1));
      steps := steps + [Incr(n - 1)];
      if n == 1 {
        OneMore(p, 0.0, steps, Expire(n - 1));
        steps := steps + [Expire(n - 1)];
      }
      OneMore(p, 0.0, steps, Decide(n - 1));
      steps := steps + [Decide(n - 1)];
    }
  }

  /** One more call read the clock in bucket 0, and is about to count as the counter expires. */
  predicate Poised(p: Params, s: State) {
    s.now == Lifetime(p.window) as real && p.max in s.calls && s.calls[p.max].subject == "x" &&
    s.calls[p.max].bucket == 0 && s.calls[p.max].phase.Bucketed? &&
    ("x", 0) in s.counters && Expired(s.counters[("x", 0)], s.now) &&
    forall c | 0 <= c < p.max :: c in AdmittedIn(s, "x", 0)
  }

  lemma LateRead(p: Params, s: State, at: real)
    requires Valid(p) && Filled(p, s, p.max) && 0.0 <= at < p.window
    requires Lifetime(p.window) as real - at <= p.delay && at <= Lifetime(p.window) as real
    ensures Enabled(p, s, Tick(at))
    ensures var s1 := Apply(p, s, Tick(at));
            Enabled(p, s1, Read(p.max, "x")) &&
            var s2 := Apply(p, s1, Read(p.max, "x"));
            Enabled(p, s2, Tick(Lifetime(p.window) as real - at)) &&
            Poised(p, Apply(p, s2, Tick(Lifetime(p.window) as real - at)))
  {
    BucketOfZero(p.window, at);
  }

  lemma LateCount(p: Params, s: State)
    requires Valid(p) && Poised(p, s)
    ensures Enabled(p, s, Incr(p.max))
    ensures var s1 := Apply(p, s, Incr(p.max));
            Enabled(p, s1, Expire(p.max)) &&
            var s2 := Apply(p, s1, Expire(p.max));
            Enabled(p, s2, Decide(p.max)) &&
            forall c | 0 <= c <= p.max :: c in AdmittedIn(Apply(p, s2, Decide(p.max)), "x", 0)
  {
    var s3 := Apply(p, Apply(p, Apply(p, s, Incr(p.max)), Expire(p.max)), Decide(p.max));
    forall c | 0 <= c <= p.max ensures c in AdmittedIn(s3, "x", 0) {
      if c < p.max { assert c in AdmittedIn(s, "x", 0); }
    }
  }

  lemma {:induction false} AtLeast(s: set<int>, n: nat)
    requires forall c | 0 <= c < n :: c in s
    ensures |s| >= n
  {
    if n > 0 {
      AtLeast(s - {n - 1}, n - 1);
      assert |s| == |s - {n - 1}| + 1;
    }
  }

  lemma CountLate(p: Params, late: seq<Step>)
    requires Valid(p) && Legal(p, 0.0, late) && Poised(p, Run(p, 0.0, late))
    ensures var steps := late + [Incr(p.max), Expire(p.max), Decide(p.max)];
            Legal(p, 0.0, steps) && forall c | 0 <= c <= p.max :: c in AdmittedIn(Run(p, 0.0, steps), "x", 0)
  {
    LateCount(p, Run(p, 0.0, late));
    ThreeMore(p, 0.0, late, Incr(p.max), Expire(p.max), Decide(p.max));
  }

  lemma OneTooMany(p: Params, filled: seq<Step>, at: real)
    requires Valid(p) && Legal(p, 0.0, filled) && Filled(p, Run(p, 0.0, filled), p.max) && 0.0 <= at < p.window
    requires Lifetime(p.window) as real - at <= p.delay && at <= Lifetime(p.window) as real
    ensures var late := filled + [Tick(at), Read(p.max, "x"), Tick(Lifetime(p.window) as real - at)];
            var steps := late + [Incr(p.max), Expire(p.max), Decide(p.max)];
            Legal(p, 0.0, steps) && forall c | 0 <= c <= p.max :: c in AdmittedIn(Run(p, 0.0, steps), "x", 0)
  {
    var life := Lifetime(p.window) as real;
    var late := filled + [Tick(at), Read(p.max, "x"), Tick(life - at)];
    LateRead(p, Run(p, 0.0, filled), at);
    ThreeMore(p, 0.0, filled, Tick(at), Read(p.max, "x"), Tick(life - at));
    CountLate(p, late);
  }

  /** With longer delays a bucket admits one call too many. */
  lemma LateIncrementsOverflow(p: Params) returns (steps: seq<Step>)
    requires Valid(p) && !Covered(p)
    ensures Legal(p, 0.0, steps) && |AdmittedIn(Run(p, 0.0, steps), "x", 0)| > p.max
  {
    var filled := Fill(p, p.max);
    var life := Lifetime(p.window) as real;
    var at := if life - p.delay > 0.0 then life - p.delay else 0.0;
    OneTooMany(p, filled, at);
    steps := filled + [Tick(at), Read(p.max, "x"), Tick(life - at)] + [Incr(p.max), Expire(p.max), Decide(p.max)];
    AtLeast(AdmittedIn(Run(p, 0.0, steps), "x", 0), p.max + 1);
  }

  /** Every bucket of every run keeps to `max`. */
  ghost predicate KeepsTheCap(p: Params)
    requires Valid(p)
  {
    forall start, steps, subject, bucket | Legal(p, start, steps) ::
      |AdmittedIn(Run(p, start, steps), subject, bucket)| <= p.max
  }

  /** The cap holds exactly when an increment comes no later after its clock reading than the
      lifetime leaves over: what the extra second is for. */
  lemma CapNeedsTheSlack(p: Params)
    requires Valid(p)
    ensures KeepsTheCap(p) <==> Covered(p)
  {
    if Covered(p) {
      forall start, steps, subject, bucket | Legal(p, start, steps)
        ensures |AdmittedIn(Run(p, start, steps), subject, bucket)| <= p.max
      {
        AdmissionsAreBounded(p, start, steps, subject, bucket, 0.0);
      }
    } else {
      var steps := LateIncrementsOverflow(p);
    }
  }

  /** Some slack is always there. */
  lemma LifetimeExceedsWindow(window: real)
    ensures 0.0 < Lifetime(window) as real - window <= 1.0
  {
  }
}
