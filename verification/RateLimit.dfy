/** The per-subject rate limiter: a deque of recent times that stands for the whole history. */
module RateLimit {
  import opened Options
  import opened Sets

  datatype Call = Call(subject: string, at: real)

  // ---------- the reference: the whole history ----------

  /** The times later than a cutoff. */
  function Later(times: seq<real>, cutoff: real): seq<real> {
    if |times| == 0 then []
    else Later(times[..|times| - 1], cutoff) + if times[|times| - 1] > cutoff then [times[|times| - 1]] else []
  }

  /** What a call adds to a subject's accepted times. */
  function Extended(max: int, window: real, before: seq<real>, c: Call, subject: string): seq<real> {
    if c.subject == subject && |Later(before, c.at - window)| < max then before + [c.at] else before
  }

  /** The accepted times of a subject: a call is accepted when fewer than `max` calls were accepted
      in the window that ends with it. */
  function Accepted(max: int, window: real, calls: seq<Call>, subject: string): seq<real> {
    if |calls| == 0 then []
    else Extended(max, window, Accepted(max, window, calls[..|calls| - 1], subject), calls[|calls| - 1], subject)
  }

  // ---------- the limiter ----------

  /** `while hits and hits[0] <= cutoff: hits.popleft()` */
  function Dropped(hits: seq<real>, cutoff: real): seq<real> {
    if |hits| > 0 && hits[0] <= cutoff then Dropped(hits[1..], cutoff) else hits
  }

  function HitsOf(hits: map<string, seq<real>>, subject: string): seq<real> {
    if subject in hits then hits[subject] else []
  }

  function Checked(max: int, window: real, hits: seq<real>, at: real): (seq<real>, bool) {
    var live := Dropped(hits, at - window);
    if |live| >= max then (live, false) else (live + [at], true)
  }

  function OneCheck(max: int, window: real, deques: map<string, seq<real>>, c: Call): map<string, seq<real>> {
    deques[c.subject := Checked(max, window, HitsOf(deques, c.subject), c.at).0]
  }

  class FixedWindowRateLimiter {
    const max: int
    const window: real
    var hits: map<string, seq<real>>

    constructor (max: int, window: real)
      requires max >= 1 && window > 0.0
      ensures this.max == max && this.window == window && hits == map[]
    {
      this.max, this.window, hits := max, window, map[];
    }

    method Check(subject: string, now: real) returns (accepted: bool)
      modifies this
      ensures accepted == Checked(max, window, HitsOf(old(hits), subject), now).1
      ensures hits == OneCheck(max, window, old(hits), Call(subject, now))
    {
      var live := if subject in hits then hits[subject] else [];
      var cutoff := now - window;
      ghost var target := Dropped(live, cutoff);
      while |live| > 0 && live[0] <= cutoff
        invariant Dropped(live, cutoff) == target
      {
        live := live[1..];
      }
      if |live| >= max {
        hits := hits[subject := live];
        return false;
      }
      hits := hits[subject := live + [now]];
      accepted := true;
    }
  }

  /** The constructor's checks. */
  method NewLimiter(max: int, window: real) returns (r: Result<FixedWindowRateLimiter, string>)
    ensures r.Ok? <==> max >= 1 && window > 0.0
    ensures r.Ok? ==> fresh(r.value) && r.value.max == max && r.value.window == window && r.value.hits == map[]
  {
    if max < 1 { return Err("max_calls must be >= 1"); }
    if window <= 0.0 { return Err("window_seconds must be > 0"); }
    var limiter := new FixedWindowRateLimiter(max, window);
    r := Ok(limiter);
  }

  // ---------- the deque stands for the history ----------

  predicate Ascending(times: seq<real>) {
    forall i, j | 0 <= i <= j < |times| :: times[i] <= times[j]
  }

  predicate ClockRuns(calls: seq<Call>) {
    forall i, j | 0 <= i <= j < |calls| :: calls[i].at <= calls[j].at
  }

  /** The deque after a run of checks, with `hits` as the dict of deques. */
  function Deques(max: int, window: real, calls: seq<Call>): map<string, seq<real>> {
    if |calls| == 0 then map[]
    else OneCheck(max, window, Deques(max, window, calls[..|calls| - 1]), calls[|calls| - 1])
  }

  lemma {:induction false} LaterKeeps(times: seq<real>, cutoff: real)
    requires forall i | 0 <= i < |times| :: times[i] > cutoff
    ensures Later(times, cutoff) == times
  {
    if |times| > 0 { LaterKeeps(times[..|times| - 1], cutoff); }
  }

  lemma {:induction false} LaterConcat(a: seq<real>, b: seq<real>, cutoff: real)
    ensures Later(a + b, cutoff) == Later(a, cutoff) + Later(b, cutoff)
    decreases |b|
  {
    if |b| == 0 {
      assert a + b == a;
    } else {
      assert (a + b)[..|a + b| - 1] == a + b[..|b| - 1];
      LaterConcat(a, b[..|b| - 1], cutoff);
    }
  }

  /** In an ascending deque, dropping from the left leaves exactly the later times. */
  lemma {:induction false} DroppedIsLater(times: seq<real>, cutoff: real)
    requires Ascending(times)
    ensures Dropped(times, cutoff) == Later(times, cutoff)
    decreases |times|
  {
    if |times| > 0 && times[0] <= cutoff {
      DroppedIsLater(times[1..], cutoff);
      LaterConcat([times[0]], times[1..], cutoff);
      assert [times[0]] + times[1..] == times;
    } else {
      LaterKeeps(times, cutoff);
    }
  }

  lemma {:induction false} LaterTwice(times: seq<real>, early: real, late: real)
    requires early <= late
    ensures Later(Later(times, early), late) == Later(times, late)
    ensures forall t | t in Later(times, early) :: t in times && t > early
  {
    if |times| > 0 {
      var last := if times[|times| - 1] > early then [times[|times| - 1]] else [];
      LaterTwice(times[..|times| - 1], early, late);
      LaterConcat(Later(times[..|times| - 1], early), last, late);
    }
  }

  lemma {:induction false} AcceptedAscends(max: int, window: real, calls: seq<Call>, subject: string)
    requires ClockRuns(calls)
    ensures Ascending(Accepted(max, window, calls, subject))
    ensures forall i | 0 <= i < |Accepted(max, window, calls, subject)| ::
              |calls| > 0 && Accepted(max, window, calls, subject)[i] <= calls[|calls| - 1].at
  {
    if |calls| > 0 {
      AcceptedAscends(max, window, calls[..|calls| - 1], subject);
      assert |calls| > 1 ==> calls[|calls| - 2].at <= calls[|calls| - 1].at;
    }
  }

  lemma {:induction false} LaterAscends(times: seq<real>, cutoff: real)
    requires Ascending(times)
    ensures Ascending(Later(times, cutoff))
    ensures forall i | 0 <= i < |Later(times, cutoff)| :: |times| > 0 && Later(times, cutoff)[i] <= times[|times| - 1]
  {
    if |times| > 0 { LaterAscends(times[..|times| - 1], cutoff); }
  }

  /** The deque holds the accepted times later than some moment before the current window. */
  ghost predicate Represents(deque: seq<real>, accepted: seq<real>, now: real, window: real) {
    exists cutoff :: cutoff <= now - window && deque == Later(accepted, cutoff)
  }

  /** One check: the deque decides as the history does and stands for it again. */
  lemma CheckStep(max: int, window: real, accepted: seq<real>, cutoff: real, at: real)
    requires Ascending(accepted) && cutoff <= at - window && window > 0.0
    ensures var (after, ok) := Checked(max, window, Later(accepted, cutoff), at);
            (ok <==> |Later(accepted, at - window)| < max) &&
            after == Later(if ok then accepted + [at] else accepted, at - window)
  {
    LaterAscends(accepted, cutoff);
    DroppedIsLater(Later(accepted, cutoff), at - window);
    LaterTwice(accepted, cutoff, at - window);
    LaterConcat(accepted, [at], at - window);
    LaterKeeps([at], at - window);
  }

  lemma EmptyRepresents(now: real, window: real)
    ensures Represents([], [], now, window)
  {
    assert [] == Later([], now - window);
  }

  lemma LaterRepresents(deque: seq<real>, accepted: seq<real>, now: real, later: real, window: real)
    requires Represents(deque, accepted, now, window) && now <= later
    ensures Represents(deque, accepted, later, window)
  {
  }

  lemma DequeStep(max: int, window: real, deques: map<string, seq<real>>, accepted: seq<real>, c: Call, subject: string)
    requires Ascending(accepted) && window > 0.0 && Represents(HitsOf(deques, subject), accepted, c.at, window)
    ensures Represents(HitsOf(OneCheck(max, window, deques, c), subject),
                       Extended(max, window, accepted, c, subject), c.at, window)
  {
    if c.subject == subject {
      var cutoff :| cutoff <= c.at - window && HitsOf(deques, subject) == Later(accepted, cutoff);
      CheckStep(max, window, accepted, cutoff, c.at);
    }
  }

  /** At every moment of a run the deque of a subject is its accepted times inside a window that
      is as old as its last check. */
  lemma {:induction false} DequeIsHistory(max: int, window: real, calls: seq<Call>, subject: string, now: real)
    requires ClockRuns(calls) && window > 0.0 && (|calls| > 0 ==> calls[|calls| - 1].at <= now)
    ensures Represents(HitsOf(Deques(max, window, calls), subject), Accepted(max, window, calls, subject), now, window)
    decreases |calls|
  {
    if |calls| == 0 {
      EmptyRepresents(now, window);
    } else {
      var before := calls[..|calls| - 1];
      var c := calls[|calls| - 1];
      assert |before| > 0 ==> before[|before| - 1].at <= c.at;
      DequeIsHistory(max, window, before, subject, c.at);
      AcceptedAscends(max, window, before, subject);
      DequeStep(max, window, Deques(max, window, before), Accepted(max, window, before, subject), c, subject);
      LaterRepresents(HitsOf(Deques(max, window, calls), subject), Accepted(max, window, calls, subject), c.at, now,
                      window);
    }
  }

  /** A check by a limiter that has been through a run accepts exactly when fewer than `max` calls of
      the subject were accepted in the window that ends now, and is then left with the accepted
      times of that window. */
  lemma CheckIsExact(max: int, window: real, calls: seq<Call>, subject: string, now: real)
    requires ClockRuns(calls) && window > 0.0 && (|calls| > 0 ==> calls[|calls| - 1].at <= now)
    ensures var accepted := Accepted(max, window, calls, subject);
            var (after, ok) := Checked(max, window, HitsOf(Deques(max, window, calls), subject), now);
            (ok <==> |Later(accepted, now - window)| < max) &&
            after == Later(if ok then accepted + [now] else accepted, now - window)
  {
    DequeIsHistory(max, window, calls, subject, now);
    AcceptedAscends(max, window, calls, subject);
    var accepted := Accepted(max, window, calls, subject);
    var cutoff :| cutoff <= now - window && HitsOf(Deques(max, window, calls), subject) == Later(accepted, cutoff);
    CheckStep(max, window, accepted, cutoff, now);
  }

  // ---------- no window holds more than `max` ----------

  /** Any `max` + 1 accepted calls in a row take at least a window. */
  predicate Spaced(max: nat, window: real, times: seq<real>) {
    forall i, j | 0 <= i < |times| && 0 <= j < |times| && i + max == j :: times[i] <= times[j] - window
  }

  /** Of ascending times, the later ones are a suffix. */
  lemma {:induction false} LaterIsSuffix(times: seq<real>, cutoff: real)
    requires Ascending(times)
    ensures |Later(times, cutoff)| <= |times|
    ensures forall i | 0 <= i < |times| - |Later(times, cutoff)| :: times[i] <= cutoff
    ensures forall i | |times| - |Later(times, cutoff)| <= i < |times| :: times[i] > cutoff
  {
    if |times| > 0 { LaterIsSuffix(times[..|times| - 1], cutoff); }
  }

  lemma OneMoreIsSpaced(max: nat, window: real, times: seq<real>, at: real)
    requires Spaced(max, window, times) && Ascending(times) && |Later(times, at - window)| < max
    ensures Spaced(max, window, times + [at])
  {
    LaterIsSuffix(times, at - window);
    var more := times + [at];
    forall i, j | 0 <= i < |more| && 0 <= j < |more| && i + max == j ensures more[i] <= more[j] - window {
      if j < |times| { assert times[i] <= times[j] - window; }
    }
  }

  lemma {:induction false} AcceptedAreSpaced(max: nat, window: real, calls: seq<Call>, subject: string)
    requires ClockRuns(calls)
    ensures Spaced(max, window, Accepted(max, window, calls, subject))
  {
    if |calls| > 0 {
      var before := calls[..|calls| - 1];
      AcceptedAreSpaced(max, window, before, subject);
      AcceptedAscends(max, window, before, subject);
      var c := calls[|calls| - 1];
      var times := Accepted(max, window, before, subject);
      if |Later(times, c.at - window)| < max {
        OneMoreIsSpaced(max, window, times, c.at);
      }
    }
  }

  function Positions(times: seq<real>, from: real, to: real, includeFrom: bool): set<int> {
    set i | 0 <= i < |times| && (from < times[i] || (includeFrom && from == times[i])) &&
            (times[i] < to || (!includeFrom && times[i] == to))
  }

  /** The least position among those from `from` on. */
  lemma {:induction false} Least(s: set<int>, from: int, upTo: int) returns (m: int)
    requires from <= upTo && forall i | i in s :: from <= i < upTo
    ensures (forall i :: i !in s) || (m in s && forall i | i in s :: m <= i)
    decreases upTo - from
  {
    if from == upTo || from in s {
      m := from;
    } else {
      m := Least(s, from + 1, upTo);
    }
  }

  lemma TooFarApart(max: nat, window: real, times: seq<real>, i: nat, j: nat)
    requires Spaced(max, window, times) && Ascending(times) && i < |times| && j < |times|
    ensures j >= i + max ==> times[i] <= times[j] - window
  {
    if j >= i + max {
      assert times[i] <= times[i + max] - window;
    }
  }

  /** A window anywhere in the run, half open at either end, holds at most `max` accepted calls. */
  lemma WindowsHoldAtMostMax(max: nat, window: real, calls: seq<Call>, subject: string, a: real, includeFrom: bool)
    requires ClockRuns(calls)
    ensures |Positions(Accepted(max, window, calls, subject), a, a + window, includeFrom)| <= max
  {
    var times := Accepted(max, window, calls, subject);
    var held := Positions(times, a, a + window, includeFrom);
    AcceptedAreSpaced(max, window, calls, subject);
    AcceptedAscends(max, window, calls, subject);
    var lo := Least(held, 0, |times|);
    forall i | i in held ensures lo <= i < lo + max {
      TooFarApart(max, window, times, lo, i);
    }
    RangeSize(held, lo, max);
  }
}
