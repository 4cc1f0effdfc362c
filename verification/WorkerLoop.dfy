/** The loop around a channel worker. Its own replies are never tasks for it, so on a channel that
    is otherwise quiet one working pass is all there is. */
module WorkerLoop {
  import opened Options
  import opened Text
  import opened Sanitizer
  import opened Flex
  import opened A2A
  import opened Bus
  import opened Orchestration
  import opened Agents

  /** Nobody reads the body as a task for the subject. */
  ghost predicate NoTask(subject: string, body: string) {
    forall sender :: TaskIn(subject, sender, body).None?
  }

  lemma AnswerIsNoTask(id: string, outcome: Outcome, subject: string)
    requires IsToken(id) && Clean(id)
    ensures NoTask(subject, Wire(Answer(id, outcome)))
  {
    var m := Answer(id, outcome);
    AnswerIsEncodable(id, outcome);
    assert "ok" in m.fields;
    FixedTextIsClean();
    KindAndRefSurvive(m);
  }

  lemma ReplyIsNoTask(handlers: map<string, Handler>, subject: string, sender: string, body: string)
    ensures forall b | b in ReplyTo(handlers, subject, sender, body) :: NoTask(subject, b)
  {
    var seen := TaskIn(subject, sender, body);
    if seen.Some? {
      ParsedRefsAreCleanTokens(body);
      AnswerIsNoTask(seen.value.id, Run(handlers, seen.value), subject);
    }
  }

  lemma {:induction false} RepliesAreNoTasks(handlers: map<string, Handler>, subject: string, rows: seq<Stored>)
    ensures forall b | b in Replies(handlers, subject, rows) :: NoTask(subject, b)
  {
    if |rows| > 0 {
      ReplyIsNoTask(handlers, subject, rows[0].sender, rows[0].body);
      RepliesAreNoTasks(handlers, subject, rows[1..]);
    }
  }

  lemma {:induction false} NoTasksNoReplies(handlers: map<string, Handler>, subject: string, rows: seq<Stored>)
    requires forall i | 0 <= i < |rows| :: NoTask(subject, rows[i].body)
    ensures Replies(handlers, subject, rows) == []
  {
    if |rows| > 0 {
      assert NoTask(subject, rows[0].body);
      NoTasksNoReplies(handlers, subject, rows[1..]);
    }
  }

  /** Posting continues a gap-free log, and what lies past its old head is what was posted. */
  lemma PostedRest(log: seq<Stored>, sender: string, bodies: seq<string>, now: real)
    requires GapFree(log)
    ensures var after := Posted(log, sender, bodies, now);
            GapFree(after) && |After(after, |log|)| == |bodies| &&
            forall i | 0 <= i < |bodies| :: After(after, |log|)[i].body == bodies[i]
  {
    var after := Posted(log, sender, bodies, now);
    PostedExtends(log, sender, bodies, now);
    forall i | 0 <= i < |after| ensures after[i].seqNo == i + 1 {
      if i >= |log| { assert after[|log| + (i - |log|)] == Stored(i + 1, sender, bodies[i - |log|], now); }
    }
    AfterIsSuffix(after, |log|);
    forall i | 0 <= i < |bodies| ensures after[|log|..][i].body == bodies[i] {
      assert after[|log| + i] == Stored(|log| + i + 1, sender, bodies[i], now);
    }
  }

  /** A worker has no reply to its own replies. */
  lemma RepliesToReplies(handlers: map<string, Handler>, subject: string, rows: seq<Stored>, bodies: seq<string>,
                         posted: seq<Stored>)
    requires bodies == Replies(handlers, subject, rows)
    requires |posted| == |bodies| && forall i | 0 <= i < |bodies| :: posted[i].body == bodies[i]
    ensures Replies(handlers, subject, posted) == []
  {
    RepliesAreNoTasks(handlers, subject, rows);
    forall i | 0 <= i < |posted| ensures NoTask(subject, posted[i].body) {
      assert bodies[i] in bodies;
    }
    NoTasksNoReplies(handlers, subject, posted);
  }

  /** After a pass that read something, what is unread are the pass's own replies. */
  lemma UnreadAfterPass(handlers: map<string, Handler>, subject: string, engine: Engine, log: seq<Stored>,
                        cursor: Option<int>, bodies: seq<string>, now: real)
    requires GapFree(log) && bodies == Replies(handlers, subject, After(log, CursorValue(cursor)))
    ensures var unread := After(log, CursorValue(cursor));
            var after := Posted(log, subject, bodies, now);
            |unread| > 0 ==>
              GapFree(after) &&
              |After(after, unread[|unread| - 1].seqNo)| == |bodies| &&
              Replies(handlers, subject, After(after, unread[|unread| - 1].seqNo)) == []
  {
    var unread := After(log, CursorValue(cursor));
    LastUnread(engine, log, cursor);
    PostedRest(log, subject, bodies, now);
    RepliesToReplies(handlers, subject, unread, bodies, After(Posted(log, subject, bodies, now), |log|));
  }

  /** What is unread after a pass, given the log and the cursors before it. */
  lemma UnreadNow(handlers: map<string, Handler>, subject: string, channel: string, engine: Engine, log: seq<Stored>,
                  cursors: map<CursorKey, int>, unread: seq<Stored>, bodies: seq<string>, now: real)
    requires GapFree(log) && unread == After(log, CursorValue(Lookup(cursors, subject, channel)))
    requires bodies == Replies(handlers, subject, unread)
    ensures var cursor := CursorValue(Lookup(LastRead(cursors, subject, channel, unread), subject, channel));
            var rest := After(Posted(log, subject, bodies, now), cursor);
            |rest| == |bodies| && Replies(handlers, subject, rest) == []
  {
    UnreadAfterPass(handlers, subject, engine, log, Lookup(cursors, subject, channel), bodies, now);
  }

  /** One pass of the loop. */
  method Pass(w: Worker, now: real) returns (handled: Result<nat, BusError>, ghost bodies: seq<string>)
    requires w.bus.store.Valid()
    modifies w.bus.store.Repr()
    ensures w.bus.store.Valid() && unchanged(w) && unchanged(w.bus)
    ensures bodies == Replies(w.handlers, w.principal.subject, old(w.bus.Unread(w.principal, w.channel)))
    ensures handled.Ok? <==> w.bus.MayRead(w.principal, w.channel) && (w.MayPost() || |bodies| == 0)
    ensures handled.Ok? ==> handled.value == |bodies|
    ensures handled.Ok? ==> w.Log() == Posted(old(w.Log()), w.principal.subject, bodies, now)
    ensures handled.Err? ==> w.Log() == old(w.Log()) && w.bus.store.Cursors() == old(w.bus.store.Cursors())
    ensures handled.Ok? ==> |w.bus.Unread(w.principal, w.channel)| == |bodies|
    ensures handled.Ok? ==> Replies(w.handlers, w.principal.subject, w.bus.Unread(w.principal, w.channel)) == []
  {
    w.Apart();
    w.bus.store.LogIsGapFree(w.channel);
    ghost var unread := w.bus.Unread(w.principal, w.channel);
    UnreadNow(w.handlers, w.principal.subject, w.channel, w.bus.store.Engine(), w.Log(), w.bus.store.Cursors(), unread,
              Replies(w.handlers, w.principal.subject, unread), now);
    handled, unread, bodies := w.RunOnce(now);
  }

  /** The worker may read its channel and post that many replies there. */
  ghost predicate MayServe(w: Worker, replies: nat)
    reads w, w.bus
  {
    w.bus.MayRead(w.principal, w.channel) && (w.MayPost() || replies == 0)
  }

  /** What holds between passes: at first nothing has happened and the replies are owed; then
      everything is answered, and only own replies can be unread. */
  ghost predicate Between(w: Worker, log: seq<Stored>, bodies: seq<string>, total: nat, round: nat, start: real)
    reads w, w.bus, w.bus.store.Repr()
  {
    var owed := Replies(w.handlers, w.principal.subject, w.bus.Unread(w.principal, w.channel));
    if round == 0 then
      total == 0 && w.Log() == log && owed == bodies
    else
      MayServe(w, |bodies|) && total == |bodies| && owed == [] &&
      w.Log() == Posted(log, w.principal.subject, bodies, start)
  }

  /** Only the first pass posts, and only it can be refused. */
  method NextPass(w: Worker, now: real, ghost log: seq<Stored>, ghost bodies: seq<string>, total: nat, round: nat,
                  ghost start: real)
    returns (n: Result<nat, BusError>, sum: nat, next: nat)
    requires w.bus.store.Valid() && Between(w, log, bodies, total, round, start)
    requires round == 0 ==> start == now
    modifies w.bus.store.Repr()
    ensures w.bus.store.Valid() && unchanged(w) && unchanged(w.bus)
    ensures next == round + 1 && (n.Ok? ==> sum == total + n.value && Between(w, log, bodies, sum, next, start))
    ensures n.Ok? && n.value == 0 ==> w.bus.Unread(w.principal, w.channel) == []
    ensures n.Ok? ==> (n.value > 0 <==> round == 0 && |bodies| > 0)
    ensures n.Err? ==> round == 0 && w.Log() == log && !MayServe(w, |bodies|)
  {
    w.Apart();
    ghost var posted;
    n, posted := Pass(w, now);
    sum, next := if n.Ok? then total + n.value else total, round + 1;
  }

  /** The loop's two ways of ending by itself. */
  datatype Limits = Limits(stop: Option<nat -> bool>, maxIdle: Option<int>) {
    /** `stop` answers yes before this round. */
    predicate Stops(round: nat) {
      stop.Some? && stop.value(round)
    }

    /** That many idle passes in a row end the loop; without either limit the first one does. */
    predicate Idles(idle: nat) {
      if maxIdle.Some? then idle >= maxIdle.value else stop.None?
    }

    /** The counters between passes, when the first pass posts `owed` replies. */
    ghost predicate Turn(owed: nat, stopsAt: nat, round: nat, idle: nat) {
      round == idle + (if round > 0 && owed > 0 then 1 else 0) &&
      (round > 0 ==> !Stops(0)) && (idle > 0 ==> !Idles(idle)) &&
      (stop.Some? && maxIdle.None? ==> round <= stopsAt)
    }

    /** How many passes can be left. */
    ghost function Left(stopsAt: nat, round: nat, idle: nat): int {
      if maxIdle.Some? then maxIdle.value - idle else if stop.Some? then stopsAt - round else 0
    }

    /** The pass at `round` leaves the counters in order or ends the loop. */
    lemma TurnGoesOn(owed: nat, stopsAt: nat, round: nat, idle: nat, posts: bool, next: nat)
      requires Turn(owed, stopsAt, round, idle) && !Stops(round)
      requires stop.Some? && maxIdle.None? ==> Stops(stopsAt)
      requires posts <==> round == 0 && owed > 0
      requires next == if posts then 0 else idle + 1
      ensures posts || !Idles(next) ==> Turn(owed, stopsAt, round + 1, next)
      ensures !posts && !Idles(next) ==> 0 <= Left(stopsAt, round + 1, next) < Left(stopsAt, round, idle)
      ensures posts ==> round == 0
      ensures !posts && Idles(next) && stop.None? ==>
                round + 1 == (if owed > 0 then 1 else 0) + if maxIdle.Some? && maxIdle.value > 1 then maxIdle.value else 1
    {
    }
  }

  /** The loop itself: `handled` tasks in `rounds` passes. */
  method Rounds(w: Worker, limits: Limits, clock: nat -> real, ghost stopsAt: nat, ghost log: seq<Stored>,
                ghost bodies: seq<string>)
    returns (handled: Result<nat, BusError>, ghost rounds: nat)
    requires w.bus.store.Valid() && Between(w, log, bodies, 0, 0, clock(0))
    requires limits.stop.Some? && limits.maxIdle.None? ==> limits.Stops(stopsAt)
    modifies w.bus.store.Repr()
    ensures w.bus.store.Valid() && unchanged(w) && unchanged(w.bus)
    ensures rounds == 0 <==> limits.Stops(0)
    ensures handled.Ok? ==> Between(w, log, bodies, handled.value, rounds, clock(0))
    ensures handled.Err? ==> w.Log() == log && rounds > 0 && !MayServe(w, |bodies|)
    ensures handled.Ok? ==> limits.Stops(rounds) || w.bus.Unread(w.principal, w.channel) == []
    ensures handled.Ok? && limits.stop.None? ==>
              rounds == (if |bodies| > 0 then 1 else 0) +
                        if limits.maxIdle.Some? && limits.maxIdle.value > 1 then limits.maxIdle.value else 1
  {
    w.Apart();
    var total: nat, idle: nat, round: nat := 0, 0, 0;
    while !limits.Stops(round)
      invariant w.bus.store.Valid() && unchanged(w) && unchanged(w.bus)
      invariant Between(w, log, bodies, total, round, clock(0)) && limits.Turn(|bodies|, stopsAt, round, idle)
      decreases if round == 0 then 1 else 0, limits.Left(stopsAt, round, idle)
    {
      var n, sum, next := NextPass(w, clock(round), log, bodies, total, round, clock(0));
      if n.Err? { return n, next; }
      var passed := if n.value > 0 then 0 else idle + 1;
      limits.TurnGoesOn(|bodies|, stopsAt, round, idle, n.value > 0, passed);
      if n.value == 0 && limits.Idles(passed) { return Ok(sum), next; }
      round, total, idle := next, sum, passed;
    }
    return Ok(total), round;
  }

  /** The loop: the first pass answers every unread task and the later ones find only the worker's
      own replies. It fails exactly when the first pass does, and unless stopped it ends with
      nothing unread. */
  method RunWorker(w: Worker, stop: Option<nat -> bool>, maxIdle: Option<int>, clock: nat -> real, ghost stopsAt: nat)
    returns (handled: Result<nat, BusError>, ghost rounds: nat, ghost bodies: seq<string>)
    requires w.bus.store.Valid()
    requires stop.Some? && maxIdle.None? ==> stop.value(stopsAt)
    modifies w.bus.store.Repr()
    ensures w.bus.store.Valid() && unchanged(w) && unchanged(w.bus)
    ensures bodies == Replies(w.handlers, w.principal.subject, old(w.bus.Unread(w.principal, w.channel)))
    ensures rounds == 0 <==> stop.Some? && stop.value(0)
    ensures rounds == 0 ==> handled == Ok(0) && w.Log() == old(w.Log())
    ensures rounds > 0 ==> (handled.Ok? <==> w.bus.MayRead(w.principal, w.channel) && (w.MayPost() || |bodies| == 0))
    ensures rounds > 0 && handled.Ok? ==>
              handled.value == |bodies| && w.Log() == Posted(old(w.Log()), w.principal.subject, bodies, clock(0))
    ensures handled.Err? ==> w.Log() == old(w.Log())
    ensures handled.Ok? ==> (stop.Some? && stop.value(rounds)) || w.bus.Unread(w.principal, w.channel) == []
    ensures handled.Ok? && stop.None? ==>
              rounds == (if |bodies| > 0 then 1 else 0) + if maxIdle.Some? && maxIdle.value > 1 then maxIdle.value else 1
  {
    w.Apart();
    bodies := Replies(w.handlers, w.principal.subject, w.bus.Unread(w.principal, w.channel));
    handled, rounds := Rounds(w, Limits(stop, maxIdle), clock, stopsAt, w.Log(), bodies);
  }
}
