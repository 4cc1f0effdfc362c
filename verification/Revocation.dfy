/** A replica's cached view of a shared revocation list: how old its answers can be when refreshes,
    local writes and other replicas' writes interleave, and when a revocation is seen at once. */
module Revocation {
  import opened Sets

  // ---------- the view ----------

  datatype View = View(cache: set<string>, loadedAt: real, primed: bool)

  predicate Fresh(v: View, ttl: real, now: real) {
    v.primed && now - v.loadedAt < ttl
  }

  /** What a local revoke or restore does to the local set. */
  function Amended(v: View, x: string, revoke: bool): View {
    v.(cache := if revoke then v.cache + {x} else v.cache - {x})
  }

  class RevocationSource {
    var members: set<string>

    constructor ()
      ensures members == {}
    {
      members := {};
    }

    method Write(x: string, revoke: bool)
      modifies this
      ensures members == if revoke then old(members) + {x} else old(members) - {x}
    {
      if revoke { members := members + {x}; } else { members := members - {x}; }
    }
  }

  class CachedRevocationList {
    const source: RevocationSource
    const ttl: real
    var cache: set<string>
    var loadedAt: real
    var primed: bool

    constructor (source: RevocationSource, ttl: real)
      ensures this.source == source && this.ttl == ttl && CurrentView() == View({}, 0.0, false)
    {
      this.source, this.ttl := source, ttl;
      cache, loadedAt, primed := {}, 0.0, false;
    }

    ghost function CurrentView(): View
      reads this
    {
      View(cache, loadedAt, primed)
    }

    /** The clock is read at the check and again at the swap. */
    method RefreshIfStale(checkedAt: real, swappedAt: real)
      modifies this
      ensures CurrentView() == if Fresh(old(CurrentView()), ttl, checkedAt) then old(CurrentView())
                               else View(source.members, swappedAt, true)
    {
      if primed && checkedAt - loadedAt < ttl { return; }
      var loaded := source.members;
      cache, loadedAt, primed := loaded, swappedAt, true;
    }

    method IsRevoked(x: string, checkedAt: real, swappedAt: real) returns (revoked: bool)
      modifies this
      ensures CurrentView() == if Fresh(old(CurrentView()), ttl, checkedAt) then old(CurrentView())
                               else View(source.members, swappedAt, true)
      ensures revoked <==> x in cache
    {
      RefreshIfStale(checkedAt, swappedAt);
      revoked := x in cache;
    }

    method Write(x: string, revoke: bool)
      modifies this, source
      ensures source.members == if revoke then old(source.members) + {x} else old(source.members) - {x}
      ensures CurrentView() == Amended(old(CurrentView()), x, revoke)
    {
      source.Write(x, revoke);
      if revoke { cache := cache + {x}; } else { cache := cache - {x}; }
    }
  }

  // ---------- the same, step by step ----------

  /** A call of `is_revoked`: it found the view stale, or has read the source and not yet swapped
      it in, or is about to answer. */
  datatype Call =
    Stale(x: string) | Read(x: string, loaded: set<string>, readAt: real) | Ready(x: string, checkedAt: real)

  /** A local revoke or restore that has reached the source and not yet the view. */
  datatype Write = Write(x: string, revoke: bool, wroteAt: real)

  datatype Answer = Answer(x: string, revoked: bool, checkedAt: real, at: real)
  datatype Moment = Moment(at: real, source: set<string>)

  datatype State = State(
    now: real, source: set<string>, view: View, calls: map<int, Call>, writes: map<int, Write>,
    past: seq<Moment>, answers: seq<Answer>)

  /** `delay` bounds the time between the two halves of a refresh or of a local write, `hold` the time
      between a call's freshness check and its look at the view. */
  datatype Params = Params(ttl: real, delay: real, hold: real)

  datatype Step =
    | Tick(dt: real)
    | RemoteWrite(source: set<string>)
    | Check(c: int, x: string)
    | ReadSource(c: int)
    | Swap(c: int)
    | Reply(c: int)
    | WriteSource(w: int, x: string, revoke: bool)
    | WriteView(w: int)

  predicate Enabled(p: Params, s: State, step: Step) {
    match step
    case Tick(dt) =>
      dt >= 0.0 &&
      (forall c | c in s.calls && s.calls[c].Read? :: s.now + dt - s.calls[c].readAt <= p.delay) &&
      (forall c | c in s.calls && s.calls[c].Ready? :: s.now + dt - s.calls[c].checkedAt <= p.hold) &&
      forall w | w in s.writes :: s.now + dt - s.writes[w].wroteAt <= p.delay
    case RemoteWrite(_) => true
    case Check(c, _) => c !in s.calls
    case ReadSource(c) => c in s.calls && s.calls[c].Stale?
    case Swap(c) => c in s.calls && s.calls[c].Read?
    case Reply(c) => c in s.calls && s.calls[c].Ready?
    case WriteSource(w, _, _) => w !in s.writes
    case WriteView(w) => w in s.writes
  }

  function Change(p: Params, s: State, step: Step): State
    requires Enabled(p, s, step)
  {
    match step
    case Tick(dt) => s.(now := s.now + dt)
    case RemoteWrite(source) => s.(source := source)
    case Check(c, x) =>
      s.(calls := s.calls[c := if Fresh(s.view, p.ttl, s.now) then Ready(x, s.now) else Stale(x)])
    case ReadSource(c) => s.(calls := s.calls[c := Read(s.calls[c].x, s.source, s.now)])
    case Swap(c) =>
      s.(view := View(s.calls[c].loaded, s.now, true), calls := s.calls[c := Ready(s.calls[c].x, s.now)])
    case Reply(c) =>
      var call := s.calls[c];
      s.(calls := s.calls - {c}, answers := s.answers + [Answer(call.x, call.x in s.view.cache, call.checkedAt, s.now)])
    case WriteSource(w, x, revoke) =>
      s.(source := if revoke then s.source + {x} else s.source - {x}, writes := s.writes[w := Write(x, revoke, s.now)])
    case WriteView(w) =>
      s.(view := Amended(s.view, s.writes[w].x, s.writes[w].revoke), writes := s.writes - {w})
  }

  function Apply(p: Params, s: State, step: Step): State
    requires Enabled(p, s, step)
  {
    var s' := Change(p, s, step);
    s'.(past := s.past + [Moment(s'.now, s'.source)])
  }

  predicate Legal(p: Params, s: State, steps: seq<Step>)
    decreases |steps|
  {
    |steps| > 0 ==> Enabled(p, s, steps[0]) && Legal(p, Apply(p, s, steps[0]), steps[1..])
  }

  function Exec(p: Params, s: State, steps: seq<Step>): State
    requires Legal(p, s, steps)
    decreases |steps|
  {
    if |steps| == 0 then s else Exec(p, Apply(p, s, steps[0]), steps[1..])
  }

  predicate Init(s: State) {
    s.view == View({}, 0.0, false) && s.calls == map[] && s.writes == map[] &&
    s.past == [Moment(s.now, s.source)] && s.answers == []
  }

  lemma OneMore(p: Params, s: State, step: Step, rest: seq<Step>)
    requires Enabled(p, s, step) && Legal(p, Apply(p, s, step), rest)
    ensures Legal(p, s, [step] + rest) && Exec(p, s, [step] + rest) == Exec(p, Apply(p, s, step), rest)
  {
    assert ([step] + rest)[1..] == rest;
  }

  /** A call nothing interferes with does what the method does. */
  lemma AloneItIsTheMethod(p: Params, s: State, c: int, x: string)
    requires c !in s.calls
    ensures var steps := if Fresh(s.view, p.ttl, s.now) then [Check(c, x), Reply(c)]
                         else [Check(c, x), ReadSource(c), Swap(c), Reply(c)];
            Legal(p, s, steps) &&
            var view := if Fresh(s.view, p.ttl, s.now) then s.view else View(s.source, s.now, true);
            Exec(p, s, steps).view == view && Exec(p, s, steps).calls == s.calls &&
            Exec(p, s, steps).answers == s.answers + [Answer(x, x in view.cache, s.now, s.now)]
  {
    var s1 := Apply(p, s, Check(c, x));
    if Fresh(s.view, p.ttl, s.now) {
      OneMore(p, s1, Reply(c), []);
      OneMore(p, s, Check(c, x), [Reply(c)]);
    } else {
      var s2 := Apply(p, s1, ReadSource(c));
      var s3 := Apply(p, s2, Swap(c));
      OneMore(p, s3, Reply(c), []);
      OneMore(p, s2, Swap(c), [Reply(c)]);
      OneMore(p, s1, ReadSource(c), [Swap(c), Reply(c)]);
      OneMore(p, s, Check(c, x), [ReadSource(c), Swap(c), Reply(c)]);
    }
  }

  // ---------- how old an answer can be ----------

  /** Somewhere in the period the source gave this verdict. */
  predicate Backed(past: seq<Moment>, x: string, verdict: bool, since: real, until: real) {
    exists k | 0 <= k < |past| :: since <= past[k].at <= until && (x in past[k].source) == verdict
  }

  predicate WasSource(past: seq<Moment>, at: real, source: set<string>) {
    Moment(at, source) in past
  }

  function Ttl(p: Params): real {
    if p.ttl > 0.0 then p.ttl else 0.0
  }

  function Hold(p: Params): real {
    if p.hold > 0.0 then p.hold else 0.0
  }

  ghost predicate ViewInv(p: Params, s: State) {
    s.view.primed ==>
      s.view.loadedAt <= s.now &&
      forall x :: Backed(s.past, x, x in s.view.cache, s.view.loadedAt - p.delay, s.now)
  }

  predicate CallInv(p: Params, s: State, call: Call) {
    match call
    case Stale(_) => true
    case Read(_, loaded, readAt) => readAt <= s.now <= readAt + p.delay && WasSource(s.past, readAt, loaded)
    case Ready(_, checkedAt) =>
      s.view.primed && checkedAt <= s.now <= checkedAt + Hold(p) && s.view.loadedAt >= checkedAt - Ttl(p)
  }

  predicate WriteInv(p: Params, s: State, w: Write) {
    w.wroteAt <= s.now <= w.wroteAt + p.delay && Backed(s.past, w.x, w.revoke, w.wroteAt, w.wroteAt)
  }

  predicate AnswerInv(p: Params, past: seq<Moment>, a: Answer) {
    a.checkedAt <= a.at <= a.checkedAt + Hold(p) && Backed(past, a.x, a.revoked, a.checkedAt - Ttl(p) - p.delay, a.at)
  }

  ghost predicate Inv(p: Params, s: State) {
    p.delay >= 0.0 && WasSource(s.past, s.now, s.source) && ViewInv(p, s) &&
    (forall c | c in s.calls :: CallInv(p, s, s.calls[c])) &&
    (forall w | w in s.writes :: WriteInv(p, s, s.writes[w])) &&
    forall k | 0 <= k < |s.answers| :: AnswerInv(p, s.past, s.answers[k])
  }

  lemma BackedStays(past: seq<Moment>, m: Moment, x: string, verdict: bool, since: real, until: real,
                    since': real, until': real)
    requires Backed(past, x, verdict, since, until) && since' <= since && until <= until'
    ensures Backed(past + [m], x, verdict, since', until')
  {
    var k :| 0 <= k < |past| && since <= past[k].at <= until && (x in past[k].source) == verdict;
    assert (past + [m])[k] == past[k];
  }

  lemma SourceBacks(past: seq<Moment>, at: real, source: set<string>, x: string)
    requires WasSource(past, at, source)
    ensures Backed(past, x, x in source, at, at)
  {
  }

  lemma CallStays(p: Params, s: State, step: Step, c: int)
    requires Inv(p, s) && Enabled(p, s, step) && c in s.calls && c in Apply(p, s, step).calls
    ensures CallInv(p, Apply(p, s, step), Apply(p, s, step).calls[c])
  {
    assert CallInv(p, s, s.calls[c]);
  }

  lemma WriteStays(p: Params, s: State, step: Step, w: int)
    requires Inv(p, s) && Enabled(p, s, step) && w in Apply(p, s, step).writes
    ensures WriteInv(p, Apply(p, s, step), Apply(p, s, step).writes[w])
  {
    var s' := Apply(p, s, step);
    var x := s'.writes[w];
    if w in s.writes && !(step.WriteSource? && step.w == w) {
      assert WriteInv(p, s, s.writes[w]);
      BackedStays(s.past, Moment(s'.now, s'.source), x.x, x.revoke, x.wroteAt, x.wroteAt, x.wroteAt, x.wroteAt);
    } else {
      SourceBacks(s'.past, s'.now, s'.source, x.x);
    }
  }

  lemma ViewStays(p: Params, s: State, step: Step, x: string)
    requires Inv(p, s) && Enabled(p, s, step) && Apply(p, s, step).view.primed
    ensures var s' := Apply(p, s, step);
            Backed(s'.past, x, x in s'.view.cache, s'.view.loadedAt - p.delay, s'.now)
  {
    var s' := Apply(p, s, step);
    var m := Moment(s'.now, s'.source);
    if step.Swap? {
      var call := s.calls[step.c];
      assert CallInv(p, s, call);
      SourceBacks(s.past, call.readAt, call.loaded, x);
      BackedStays(s.past, m, x, x in call.loaded, call.readAt, call.readAt, s'.view.loadedAt - p.delay, s'.now);
    } else if step.WriteView? && s.writes[step.w].x == x {
      var w := s.writes[step.w];
      assert WriteInv(p, s, w);
      BackedStays(s.past, m, x, w.revoke, w.wroteAt, w.wroteAt, s'.view.loadedAt - p.delay, s'.now);
    } else {
      BackedStays(s.past, m, x, x in s.view.cache, s.view.loadedAt - p.delay, s.now, s'.view.loadedAt - p.delay, s'.now);
    }
  }

  lemma AnswerStays(p: Params, s: State, step: Step, k: nat)
    requires Inv(p, s) && Enabled(p, s, step) && k < |Apply(p, s, step).answers|
    ensures AnswerInv(p, Apply(p, s, step).past, Apply(p, s, step).answers[k])
  {
    var s' := Apply(p, s, step);
    var m := Moment(s'.now, s'.source);
    var a := s'.answers[k];
    if k < |s.answers| {
      assert AnswerInv(p, s.past, s.answers[k]);
      BackedStays(s.past, m, a.x, a.revoked, a.checkedAt - Ttl(p) - p.delay, a.at, a.checkedAt - Ttl(p) - p.delay, a.at);
    } else {
      assert CallInv(p, s, s.calls[step.c]);
      BackedStays(s.past, m, a.x, a.revoked, s.view.loadedAt - p.delay, s.now, a.checkedAt - Ttl(p) - p.delay, a.at);
    }
  }

  lemma StepKeepsInv(p: Params, s: State, step: Step)
    requires Inv(p, s) && Enabled(p, s, step)
    ensures Inv(p, Apply(p, s, step))
  {
    var s' := Apply(p, s, step);
    assert s'.past[|s.past|] == Moment(s'.now, s'.source);
    if s'.view.primed {
      forall x ensures Backed(s'.past, x, x in s'.view.cache, s'.view.loadedAt - p.delay, s'.now) {
        ViewStays(p, s, step, x);
      }
    }
    forall c | c in s'.calls ensures CallInv(p, s', s'.calls[c]) {
      if c in s.calls { CallStays(p, s, step, c); }
    }
    forall w | w in s'.writes ensures WriteInv(p, s', s'.writes[w]) { WriteStays(p, s, step, w); }
    forall k | 0 <= k < |s'.answers| ensures AnswerInv(p, s'.past, s'.answers[k]) { AnswerStays(p, s, step, k); }
  }

  lemma {:induction false} RunKeepsInv(p: Params, s: State, steps: seq<Step>)
    requires Inv(p, s) && Legal(p, s, steps)
    ensures Inv(p, Exec(p, s, steps))
    decreases |steps|
  {
    if |steps| > 0 {
      StepKeepsInv(p, s, steps[0]);
      RunKeepsInv(p, Apply(p, s, steps[0]), steps[1..]);
    }
  }

  /** In every run, an answer is the source's own at some moment no earlier than its freshness check
      minus the TTL minus the longest in-flight refresh or local write, and not after the answer. */
  lemma AnswersAreRecent(p: Params, s: State, steps: seq<Step>, k: nat)
    requires p.delay >= 0.0 && Init(s) && Legal(p, s, steps) && k < |Exec(p, s, steps).answers|
    ensures var s' := Exec(p, s, steps);
            var a := s'.answers[k];
            a.checkedAt <= a.at <= a.checkedAt + Hold(p) &&
            Backed(s'.past, a.x, a.revoked, a.checkedAt - Ttl(p) - p.delay, a.at)
  {
    RunKeepsInv(p, s, steps);
    assert AnswerInv(p, Exec(p, s, steps).past, Exec(p, s, steps).answers[k]);
  }

  lemma BackedFurther(past: seq<Moment>, x: string, verdict: bool, since: real, until: real, since': real)
    requires Backed(past, x, verdict, since, until) && since' <= since
    ensures Backed(past, x, verdict, since', until)
  {
    var k :| 0 <= k < |past| && since <= past[k].at <= until && (x in past[k].source) == verdict;
  }

  /** Measured from the answer itself, the time the call was held up between check and look adds to the
      bound. */
  lemma AnswersAreRecentWhenGiven(p: Params, s: State, steps: seq<Step>, k: nat)
    requires p.delay >= 0.0 && Init(s) && Legal(p, s, steps) && k < |Exec(p, s, steps).answers|
    ensures var s' := Exec(p, s, steps);
            var a := s'.answers[k];
            Backed(s'.past, a.x, a.revoked, a.at - Ttl(p) - p.delay - Hold(p), a.at)
  {
    AnswersAreRecent(p, s, steps, k);
    var s' := Exec(p, s, steps);
    var a := s'.answers[k];
    BackedFurther(s'.past, a.x, a.revoked, a.checkedAt - Ttl(p) - p.delay, a.at, a.at - Ttl(p) - p.delay - Hold(p));
  }

  // ---------- when a revocation is seen at once ----------

  predicate Removes(step: Step, x: string) {
    (step.RemoteWrite? && x !in step.source) || (step.WriteSource? && step.x == x && !step.revoke)
  }

  predicate Sparing(steps: seq<Step>, x: string) {
    forall i | 0 <= i < |steps| :: !Removes(steps[i], x)
  }

  /** Nothing is under way that could hide the revocation: the view shows it or is about to be
      reloaded, no refresh in flight read the source without it, no restore is half done. */
  predicate Settled(p: Params, s: State, x: string) {
    x in s.source &&
    (x in s.view.cache ||
     (!Fresh(s.view, p.ttl, s.now) && forall c | c in s.calls && s.calls[c].Ready? :: s.calls[c].x != x)) &&
    (forall c | c in s.calls && s.calls[c].Read? :: x in s.calls[c].loaded) &&
    forall w | w in s.writes && s.writes[w].x == x :: s.writes[w].revoke
  }

  lemma SettledStep(p: Params, s: State, step: Step, x: string)
    requires Settled(p, s, x) && Enabled(p, s, step) && !Removes(step, x)
    ensures Settled(p, Apply(p, s, step), x)
    ensures var answers := Apply(p, s, step).answers;
            answers == s.answers ||
            (|answers| == |s.answers| + 1 && answers[..|s.answers|] == s.answers &&
             (answers[|s.answers|].x == x ==> answers[|s.answers|].revoked))
  {
  }

  lemma {:induction false} SettledStays(p: Params, s: State, steps: seq<Step>, x: string)
    requires Settled(p, s, x) && Legal(p, s, steps) && Sparing(steps, x)
    ensures |s.answers| <= |Exec(p, s, steps).answers|
    ensures forall k | |s.answers| <= k < |Exec(p, s, steps).answers| ::
              Exec(p, s, steps).answers[k].x == x ==> Exec(p, s, steps).answers[k].revoked
    ensures Exec(p, s, steps).answers[..|s.answers|] == s.answers
    decreases |steps|
  {
    if |steps| > 0 {
      SettledStep(p, s, steps[0], x);
      var next := Apply(p, s, steps[0]);
      SettledStays(p, next, steps[1..], x);
      var all := Exec(p, s, steps).answers;
      if |next.answers| > |s.answers| { assert all[|s.answers|] == all[..|next.answers|][|s.answers|]; }
      assert all[..|s.answers|] == all[..|next.answers|][..|s.answers|];
    }
  }

  /** The last answer of the continuation is a miss. */
  predicate Misses(p: Params, s: State, steps: seq<Step>, x: string) {
    Legal(p, s, steps) && Sparing(steps, x) &&
    var answers := Exec(p, s, steps).answers;
    |answers| > |s.answers| && answers[|answers| - 1].x == x && !answers[|answers| - 1].revoked
  }

  lemma {:induction false} FreeId<T>(m: map<int, T>) returns (c: int)
    ensures forall k | k in m :: k < c
    decreases |m|
  {
    if m.Keys == {} { return 0; }
    var k := AnElement(m.Keys);
    c := FreeId(m - {k});
    assert forall j | j in m :: j == k || j in m - {k};
    if k >= c { c := k + 1; }
  }

  lemma MissBefore(p: Params, s: State, step: Step, steps: seq<Step>, x: string)
    requires Enabled(p, s, step) && !Removes(step, x) && Misses(p, Apply(p, s, step), steps, x)
    ensures Misses(p, s, [step] + steps, x)
  {
    OneMore(p, s, step, steps);
  }

  lemma ReplyMisses(p: Params, s: State, c: int, x: string)
    requires c in s.calls && s.calls[c].Ready? && s.calls[c].x == x && x !in s.view.cache
    ensures Misses(p, s, [Reply(c)], x)
  {
    assert Exec(p, s, [Reply(c)]) == Apply(p, s, Reply(c));
  }

  lemma FreshMisses(p: Params, s: State, c: int, x: string)
    requires c !in s.calls && Fresh(s.view, p.ttl, s.now) && x !in s.view.cache
    ensures Misses(p, s, [Check(c, x), Reply(c)], x)
  {
    ReplyMisses(p, Apply(p, s, Check(c, x)), c, x);
    MissBefore(p, s, Check(c, x), [Reply(c)], x);
  }

  lemma SwapMisses(p: Params, s: State, c: int, x: string)
    requires p.ttl > 0.0 && c in s.calls && s.calls[c].Read? && x !in s.calls[c].loaded
    ensures Misses(p, s, [Swap(c), Reply(c), Check(c, x), Reply(c)], x)
  {
    var s1 := Apply(p, s, Swap(c));
    var s2 := Apply(p, s1, Reply(c));
    FreshMisses(p, s2, c, x);
    MissBefore(p, s1, Reply(c), [Check(c, x), Reply(c)], x);
    MissBefore(p, s, Swap(c), [Reply(c), Check(c, x), Reply(c)], x);
  }

  lemma AfterRefreshMisses(p: Params, s: State, c: int, x: string, rest: seq<Step>)
    requires c !in s.calls && !Fresh(s.view, p.ttl, s.now)
    requires var s1 := Apply(p, s, Check(c, x));
             var s2 := Apply(p, s1, ReadSource(c));
             Misses(p, Apply(p, s2, Swap(c)), rest, x)
    ensures Misses(p, s, [Check(c, x)] + ([ReadSource(c)] + ([Swap(c)] + rest)), x)
  {
    var s1 := Apply(p, s, Check(c, x));
    var s2 := Apply(p, s1, ReadSource(c));
    MissBefore(p, s2, Swap(c), rest, x);
    MissBefore(p, s1, ReadSource(c), [Swap(c)] + rest, x);
    MissBefore(p, s, Check(c, x), [ReadSource(c)] + ([Swap(c)] + rest), x);
  }

  lemma RestoredMisses(p: Params, s: State, w: int, c: int, x: string)
    requires w in s.writes && s.writes[w].x == x && !s.writes[w].revoke
    requires c in s.calls && s.calls[c].Ready? && s.calls[c].x == x
    ensures Misses(p, s, [WriteView(w), Reply(c)], x)
  {
    ReplyMisses(p, Apply(p, s, WriteView(w)), c, x);
    MissBefore(p, s, WriteView(w), [Reply(c)], x);
  }

  /** A restore whose second half is yet to come takes a later revocation out of the view. */
  lemma RestoreMisses(p: Params, s: State, w: int, c: int, x: string) returns (steps: seq<Step>)
    requires c !in s.calls && w in s.writes && s.writes[w].x == x && !s.writes[w].revoke
    ensures Misses(p, s, steps, x)
  {
    if Fresh(s.view, p.ttl, s.now) {
      FreshMisses(p, Apply(p, s, WriteView(w)), c, x);
      MissBefore(p, s, WriteView(w), [Check(c, x), Reply(c)], x);
      steps := [WriteView(w), Check(c, x), Reply(c)];
    } else {
      var s1 := Apply(p, s, Check(c, x));
      RestoredMisses(p, Apply(p, Apply(p, s1, ReadSource(c)), Swap(c)), w, c, x);
      AfterRefreshMisses(p, s, c, x, [WriteView(w), Reply(c)]);
      steps := [Check(c, x)] + ([ReadSource(c)] + ([Swap(c)] + [WriteView(w), Reply(c)]));
    }
  }

  lemma UnsettledMisses(p: Params, s: State, x: string) returns (steps: seq<Step>)
    requires p.ttl > 0.0 && x in s.source && !Settled(p, s, x)
    ensures Misses(p, s, steps, x)
  {
    var c := FreeId(s.calls);
    if read :| read in s.calls && s.calls[read].Read? && x !in s.calls[read].loaded {
      SwapMisses(p, s, read, x);
      steps := [Swap(read), Reply(read), Check(read, x), Reply(read)];
    } else if w :| w in s.writes && s.writes[w].x == x && !s.writes[w].revoke {
      steps := RestoreMisses(p, s, w, c, x);
    } else if ready :| ready in s.calls && s.calls[ready].Ready? && s.calls[ready].x == x {
      ReplyMisses(p, s, ready, x);
      steps := [Reply(ready)];
    } else {
      FreshMisses(p, s, c, x);
      steps := [Check(c, x), Reply(c)];
    }
  }

  /** A revoked subject is answered as revoked in every continuation that does not restore it at the
      source, exactly when the revocation is settled. */
  lemma SeenAtOnce(p: Params, s: State, x: string)
    requires p.ttl > 0.0 && x in s.source
    ensures Settled(p, s, x) <==> forall steps :: !Misses(p, s, steps, x)
  {
    if Settled(p, s, x) {
      forall steps | Legal(p, s, steps) && Sparing(steps, x) ensures !Misses(p, s, steps, x) {
        SettledStays(p, s, steps, x);
      }
    } else {
      var steps := UnsettledMisses(p, s, x);
    }
  }

  /** When a local revoke returns and nobody has restored the subject, it is settled exactly when no
      refresh is between its read, made before the revoke, and its swap, and no restore of the
      subject is half done. */
  lemma LocalRevokeIsSettled(p: Params, s: State, w: int)
    requires w in s.writes && s.writes[w].revoke && s.writes[w].x in s.source
    ensures var x := s.writes[w].x;
            Settled(p, Apply(p, s, WriteView(w)), x) <==>
              (forall c | c in s.calls && s.calls[c].Read? :: x in s.calls[c].loaded) &&
              (forall v | v in s.writes && s.writes[v].x == x :: s.writes[v].revoke)
  {
    var x := s.writes[w].x;
    var s' := Apply(p, s, WriteView(w));
    assert s'.calls == s.calls && x in s'.view.cache && x in s'.source;
    assert forall v | v in s'.writes :: v in s.writes && s'.writes[v] == s.writes[v];
    if Settled(p, s', x) {
      forall v | v in s.writes && s.writes[v].x == x ensures s.writes[v].revoke {
        if v != w { assert v in s'.writes; }
      }
    }
  }

  // ---------- what the bound is measured from ----------

  /** Every answer of every run is the source's own at some moment no earlier than the answer minus the TTL
      minus the longest refresh or local write in flight. */
  ghost predicate BoundHoldsFromTheAnswer(p: Params) {
    forall s, steps, k: nat | Init(s) && Legal(p, s, steps) && k < |Exec(p, s, steps).answers| ::
      RecentAt(p, Exec(p, s, steps), k)
  }

  predicate RecentAt(p: Params, s: State, k: nat)
    requires k < |s.answers|
  {
    Backed(s.past, s.answers[k].x, s.answers[k].revoked, s.answers[k].at - Ttl(p) - p.delay, s.answers[k].at)
  }

  lemma {:induction false} InTwoParts(p: Params, s: State, a: seq<Step>, b: seq<Step>)
    requires Legal(p, s, a) && Legal(p, Exec(p, s, a), b)
    ensures Legal(p, s, a + b) && Exec(p, s, a + b) == Exec(p, Exec(p, s, a), b)
    decreases |a|
  {
    if |a| == 0 {
      assert a + b == b;
    } else {
      InTwoParts(p, Apply(p, s, a[0]), a[1..], b);
      OneMore(p, s, a[0], a[1..] + b);
      assert [a[0]] + (a[1..] + b) == a + b;
    }
  }

  /** "x" was revoked at 0, and the view, loaded at `p.delay`, does not know. */
  predicate Outdated(p: Params, s: State) {
    s.now == p.delay && s.source == {"x"} && s.view == View({}, p.delay, true) && s.calls == map[] && s.writes == map[] &&
    |s.answers| == 1 && RevokedSinceZero(s.past)
  }

  predicate RevokedSinceZero(past: seq<Moment>) {
    forall k | 0 <= k < |past| && past[k].at > 0.0 :: "x" in past[k].source
  }

  function Empty(): State {
    State(0.0, {}, View({}, 0.0, false), map[], map[], [Moment(0.0, {})], [])
  }

  /** A refresh that reads the source just before the revocation, and swaps as late as it may. */
  lemma LateSwap(p: Params) returns (steps: seq<Step>)
    requires p.delay >= 0.0
    ensures Legal(p, Empty(), steps) && Outdated(p, Exec(p, Empty(), steps))
  {
    var s0 := Empty();
    var s1 := Apply(p, s0, Check(0, "x"));
    var s2 := Apply(p, s1, ReadSource(0));
    var s3 := Apply(p, s2, RemoteWrite({"x"}));
    LateSwapEnds(p, s3);
    OneMore(p, s2, RemoteWrite({"x"}), [Tick(p.delay), Swap(0), Reply(0)]);
    OneMore(p, s1, ReadSource(0), [RemoteWrite({"x"})] + [Tick(p.delay), Swap(0), Reply(0)]);
    steps := [Check(0, "x")] + ([ReadSource(0)] + ([RemoteWrite({"x"})] + [Tick(p.delay), Swap(0), Reply(0)]));
    OneMore(p, s0, Check(0, "x"), [ReadSource(0)] + ([RemoteWrite({"x"})] + [Tick(p.delay), Swap(0), Reply(0)]));
  }

  lemma LateSwapEnds(p: Params, s: State)
    requires p.delay >= 0.0 && s.now == 0.0 && s.source == {"x"} && s.writes == map[] && s.answers == []
    requires s.calls == map[0 := Read("x", {}, 0.0)] && RevokedSinceZero(s.past)
    ensures Legal(p, s, [Tick(p.delay), Swap(0), Reply(0)])
    ensures Outdated(p, Exec(p, s, [Tick(p.delay), Swap(0), Reply(0)]))
  {
    var s1 := Apply(p, s, Tick(p.delay));
    var s2 := Apply(p, s1, Swap(0));
    OneMore(p, s2, Reply(0), []);
    OneMore(p, s1, Swap(0), [Reply(0)]);
    OneMore(p, s, Tick(p.delay), [Swap(0), Reply(0)]);
  }

  /** A call that passes its check just before the view is stale and looks just after. */
  lemma {:induction false} LateLook(p: Params, s: State, early: real)
    requires Outdated(p, s) && 0.0 < early < p.hold && early <= p.ttl && p.delay >= 0.0
    ensures var steps := [Tick(p.ttl - early), Check(0, "x"), Tick(p.hold), Reply(0)];
            Legal(p, s, steps) && |Exec(p, s, steps).answers| == 2 && !RecentAt(p, Exec(p, s, steps), 1)
  {
    var s1 := Apply(p, s, Tick(p.ttl - early));
    var s2 := Apply(p, s1, Check(0, "x"));
    var s3 := Apply(p, s2, Tick(p.hold));
    OneMore(p, s3, Reply(0), []);
    OneMore(p, s2, Tick(p.hold), [Reply(0)]);
    OneMore(p, s1, Check(0, "x"), [Tick(p.hold), Reply(0)]);
    OneMore(p, s, Tick(p.ttl - early), [Check(0, "x"), Tick(p.hold), Reply(0)]);
    var past := Apply(p, s3, Reply(0)).past;
    assert RevokedSinceZero(past);
  }

  lemma HeldUpCallMisses(p: Params) returns (steps: seq<Step>)
    requires p.ttl > 0.0 && p.delay >= 0.0 && p.hold > 0.0
    ensures Legal(p, Empty(), steps) && |Exec(p, Empty(), steps).answers| == 2 && !RecentAt(p, Exec(p, Empty(), steps), 1)
  {
    var loaded := LateSwap(p);
    var early := if p.ttl < p.hold then p.ttl / 2.0 else p.hold / 2.0;
    LateLook(p, Exec(p, Empty(), loaded), early);
    InTwoParts(p, Empty(), loaded, [Tick(p.ttl - early), Check(0, "x"), Tick(p.hold), Reply(0)]);
    steps := loaded + [Tick(p.ttl - early), Check(0, "x"), Tick(p.hold), Reply(0)];
  }

  /** Measured from the answer, the bound holds exactly when no call is held up between its freshness check
      and its look at the view. */
  lemma BoundIsFromTheCheck(p: Params)
    requires p.ttl > 0.0 && p.delay >= 0.0
    ensures BoundHoldsFromTheAnswer(p) <==> p.hold <= 0.0
  {
    if p.hold <= 0.0 {
      forall s, steps, k: nat | Init(s) && Legal(p, s, steps) && k < |Exec(p, s, steps).answers|
        ensures RecentAt(p, Exec(p, s, steps), k)
      {
        AnswersAreRecentWhenGiven(p, s, steps, k);
      }
    } else {
      var steps := HeldUpCallMisses(p);
    }
  }
}
