/** The two ends of a channel: an orchestrator that dispatches and gathers, and a worker that
    runs its handlers over what it has not acked. */
module Agents {
  import opened Options
  import opened Text
  import opened Sanitizer
  import opened Flex
  import opened A2A
  import opened Bus
  import opened Orchestration

  const PAGE_SIZE: int := 100

  // ---------- what a pass posts ----------

  function Run(handlers: map<string, Handler>, task: Task): Outcome {
    if task.op in handlers then handlers[task.op](task) else NoHandler
  }

  ghost function ReplyTo(handlers: map<string, Handler>, subject: string, sender: string, body: string): seq<string> {
    match TaskIn(subject, sender, body)
    case None => []
    case Some(task) => [Wire(Answer(task.id, Run(handlers, task)))]
  }

  /** The body answers the task: it reads as what the handler of its operation returned or raised for that
      very task, whenever that can travel and only then; fields that cannot be printed, and an operation
      nobody handles, read as the failures they are. */
  ghost predicate AnswersTask(handlers: map<string, Handler>, subject: string, task: Task, body: string) {
    var heard := ResultIn(subject, body);
    if task.op !in handlers then
      heard == Some(TaskResult(task.id, subject, false, map[], "no handler"))
    else
      var outcome := handlers[task.op](task);
      (heard == Some(Faithful(task.id, subject, outcome)) <==> PortableOutcome(outcome)) &&
      (outcome.Returned? && !Encodable(ReplyMessage(task.id, true, outcome.fields, "")) ==>
         heard == Some(TaskResult(task.id, subject, false, map[], "FlexError")))
  }

  lemma ReplyAnswers(handlers: map<string, Handler>, subject: string, sender: string, body: string)
    requires TaskIn(subject, sender, body).Some?
    ensures var replies := ReplyTo(handlers, subject, sender, body);
            |replies| == 1 && AnswersTask(handlers, subject, TaskIn(subject, sender, body).value, replies[0])
  {
    var task := TaskIn(subject, sender, body).value;
    var outcome := if task.op in handlers then handlers[task.op](task) else NoHandler;
    assert Run(handlers, task) == outcome;
    ParsedRefsAreCleanTokens(body);
    ResultIsFaithful(task.id, subject, outcome);
    if outcome.Returned? && !Encodable(ReplyMessage(task.id, true, outcome.fields, "")) {
      Unprintable(task.id, subject, outcome.fields);
    }
  }

  /** The tasks for a subject in a stretch of the log, in order. */
  function TasksFor(subject: string, rows: seq<Stored>): seq<Task> {
    if |rows| == 0 then []
    else
      var task := TaskIn(subject, rows[0].sender, rows[0].body);
      (if task.Some? then [task.value] else []) + TasksFor(subject, rows[1..])
  }

  ghost predicate AllAnswered(handlers: map<string, Handler>, subject: string, tasks: seq<Task>, bodies: seq<string>) {
    |bodies| == |tasks| && forall i | 0 <= i < |tasks| :: AnswersTask(handlers, subject, tasks[i], bodies[i])
  }

  lemma AnsweredToo(handlers: map<string, Handler>, subject: string, first: seq<Task>, tasks: seq<Task>,
                    body: seq<string>, bodies: seq<string>)
    requires AllAnswered(handlers, subject, first, body) && AllAnswered(handlers, subject, tasks, bodies)
    ensures AllAnswered(handlers, subject, first + tasks, body + bodies)
  {
    var all, answers := first + tasks, body + bodies;
    forall i | 0 <= i < |all| ensures AnswersTask(handlers, subject, all[i], answers[i]) {
      if i < |first| {
        assert all[i] == first[i] && answers[i] == body[i];
      } else {
        assert all[i] == tasks[i - |first|] && answers[i] == bodies[i - |first|];
      }
    }
  }

  /** One answer for each task, in log order. */
  lemma {:induction false} RepliesAnswer(handlers: map<string, Handler>, subject: string, rows: seq<Stored>)
    ensures AllAnswered(handlers, subject, TasksFor(subject, rows), Replies(handlers, subject, rows))
  {
    if |rows| > 0 {
      var task := TaskIn(subject, rows[0].sender, rows[0].body);
      if task.Some? { ReplyAnswers(handlers, subject, rows[0].sender, rows[0].body); }
      RepliesAnswer(handlers, subject, rows[1..]);
      AnsweredToo(handlers, subject, if task.Some? then [task.value] else [], TasksFor(subject, rows[1..]),
                  ReplyTo(handlers, subject, rows[0].sender, rows[0].body), Replies(handlers, subject, rows[1..]));
    }
  }

  ghost function Answering(handlers: map<string, Handler>, subject: string): Stored -> seq<string> {
    (m: Stored) => ReplyTo(handlers, subject, m.sender, m.body)
  }

  ghost function FlatMap(reply: Stored -> seq<string>, rows: seq<Stored>): seq<string> {
    if |rows| == 0 then [] else reply(rows[0]) + FlatMap(reply, rows[1..])
  }

  lemma {:induction false} FlatMapPrefix(reply: Stored -> seq<string>, rows: seq<Stored>, i: nat)
    requires i < |rows|
    ensures FlatMap(reply, rows[..i + 1]) == FlatMap(reply, rows[..i]) + reply(rows[i])
    ensures |FlatMap(reply, rows[..i + 1])| <= |FlatMap(reply, rows)|
  {
    if i > 0 {
      FlatMapPrefix(reply, rows[1..], i - 1);
      assert rows[1..][..i] == rows[..i + 1][1..];
      assert rows[1..][..i - 1] == rows[..i][1..];
    }
  }

  /** The bodies a worker posts for a stretch of the log: one for each task addressed to it, in
      log order. */
  ghost function Replies(handlers: map<string, Handler>, subject: string, rows: seq<Stored>): seq<string> {
    FlatMap(Answering(handlers, subject), rows)
  }

  lemma CleanedReply(handlers: map<string, Handler>, subject: string, sender: string, body: string)
    ensures ReplyTo(handlers, subject, sender, Sanitize(body)) == ReplyTo(handlers, subject, sender, body)
  {
    CleaningChangesNothing(subject, sender, body);
  }

  lemma {:induction false} PostedTwice(
    log: seq<Stored>, sender: string, a: seq<string>, b: seq<string>, now: real)
    ensures Posted(Posted(log, sender, a, now), sender, b, now) == Posted(log, sender, a + b, now)
    decreases |a|
  {
    if |a| == 0 {
      assert a + b == b;
    } else {
      PostedTwice(Numbered(log, sender, a[0], now), sender, a[1..], b, now);
      assert (a + b)[1..] == a[1..] + b;
    }
  }

  function Numbered(log: seq<Stored>, sender: string, body: string, now: real): seq<Stored> {
    log + [Stored(|log| + 1, sender, body, now)]
  }

  ghost function Posted(log: seq<Stored>, sender: string, bodies: seq<string>, now: real): seq<Stored>
    decreases |bodies|
  {
    if |bodies| == 0 then log else Posted(Numbered(log, sender, bodies[0], now), sender, bodies[1..], now)
  }

  /** Posting extends the log by exactly the bodies, in order. */
  lemma {:induction false} PostedExtends(log: seq<Stored>, sender: string, bodies: seq<string>, now: real)
    ensures log <= Posted(log, sender, bodies, now) && |Posted(log, sender, bodies, now)| == |log| + |bodies|
    ensures forall i | 0 <= i < |bodies| ::
              Posted(log, sender, bodies, now)[|log| + i] == Stored(|log| + i + 1, sender, bodies[i], now)
    decreases |bodies|
  {
    if |bodies| > 0 {
      var next := Numbered(log, sender, bodies[0], now);
      PostedExtends(next, sender, bodies[1..], now);
      var p := Posted(log, sender, bodies, now);
      forall i | 0 <= i < |bodies| ensures p[|log| + i] == Stored(|log| + i + 1, sender, bodies[i], now) {
        if i > 0 { assert bodies[1..][i - 1] == bodies[i]; } else { assert next[|log|] == p[|log|]; }
      }
    }
  }

  lemma PostedOne(log: seq<Stored>, sender: string, body: string, now: real)
    ensures Posted(log, sender, [body], now) == Numbered(log, sender, body, now)
  {
  }

  /** Reading up to the last unread message leaves the cursor at the head of the log as it was. */
  lemma LastUnread(engine: Engine, log: seq<Stored>, cursor: Option<int>)
    requires GapFree(log)
    ensures var unread := After(log, CursorValue(cursor));
            |unread| > 0 ==>
              unread[|unread| - 1].seqNo == |log| && Advanced(engine, cursor, |log|) == |log|
  {
    AfterIsSuffix(log, CursorValue(cursor));
  }

  /** One turn of a pass: the next message's replies continue what was sent so far. */
  lemma NextServed(handlers: map<string, Handler>, subject: string, rows: seq<Stored>, i: nat,
                   log: seq<Stored>, sent: seq<string>, now: real)
    requires i < |rows| && sent == FlatMap(Answering(handlers, subject), rows[..i])
    ensures var reply := Answering(handlers, subject);
            ReplyTo(handlers, subject, rows[i].sender, Sanitize(rows[i].body)) == reply(rows[i]) &&
            ReplyTo(handlers, subject, rows[i].sender, rows[i].body) == reply(rows[i]) &&
            FlatMap(reply, rows[..i + 1]) == sent + reply(rows[i]) &&
            |sent| + |reply(rows[i])| <= |FlatMap(reply, rows)| &&
            Posted(Posted(log, subject, sent, now), subject, reply(rows[i]), now)
              == Posted(log, subject, sent + reply(rows[i]), now)
  {
    var reply := Answering(handlers, subject);
    CleanedReply(handlers, subject, rows[i].sender, rows[i].body);
    FlatMapPrefix(reply, rows, i);
    PostedTwice(log, subject, sent, reply(rows[i]), now);
  }

  /** The last message read, or nothing when nothing was unread. */
  function LastRead(cursors: map<CursorKey, int>, subject: string, channel: string, unread: seq<Stored>)
    : map<CursorKey, int>
  {
    if |unread| == 0 then cursors else cursors[(subject, channel) := unread[|unread| - 1].seqNo]
  }

  /** Acking the last of the rows read takes the cursor to it. */
  predicate MayAck(engine: Engine, head: nat, cursor: Option<int>, rows: seq<Stored>) {
    |rows| > 0 ==>
      rows[|rows| - 1].seqNo <= head && Advanced(engine, cursor, rows[|rows| - 1].seqNo) == rows[|rows| - 1].seqNo
  }

  ghost function CursorOf(bus: A2ABus, principal: Principal, channel: string): Option<int>
    reads bus.store.Repr()
  {
    Lookup(bus.store.Cursors(), principal.subject, channel)
  }

  method ReadUnread(bus: A2ABus, principal: Principal, channel: string)
    returns (r: Result<seq<A2AMessage>, BusError>, ghost unread: seq<Stored>)
    requires bus.store.Valid()
    ensures unread == bus.Unread(principal, channel)
    ensures MayAck(bus.store.Engine(), |bus.store.Log(channel)|, CursorOf(bus, principal, channel), unread)
    ensures r.Ok? <==> bus.MayRead(principal, channel)
    ensures r.Ok? ==> r.value == Deliver(channel, unread, bus.sanitizeReads)
  {
    unread := bus.Unread(principal, channel);
    bus.store.LogIsGapFree(channel);
    LastUnread(bus.store.Engine(), bus.store.Log(channel), CursorOf(bus, principal, channel));
    r := bus.CatchUp(principal, channel, PAGE_SIZE);
  }

  /** Acks what was read, when anything was. */
  method AckRead(bus: A2ABus, principal: Principal, channel: string, upTo: int, ghost rows: seq<Stored>)
    requires bus.store.Valid() && bus.MayRead(principal, channel)
    requires MayAck(bus.store.Engine(), |bus.store.Log(channel)|, CursorOf(bus, principal, channel), rows)
    requires |rows| > 0 && upTo == rows[|rows| - 1].seqNo
    modifies bus.store.Repr()
    ensures unchanged(bus)
    ensures bus.store.Valid() && bus.store.Log(channel) == old(bus.store.Log(channel))
    ensures bus.store.Cursors() == LastRead(old(bus.store.Cursors()), principal.subject, channel, rows)
  {
    var acked := bus.Ack(principal, channel, upTo);
  }

  class Worker {
    const bus: A2ABus
    const principal: Principal
    const channel: string
    var handlers: map<string, Handler>

    constructor (bus: A2ABus, principal: Principal, channel: string)
      ensures this.bus == bus && this.principal == principal && this.channel == channel && handlers == map[]
    {
      this.bus, this.principal, this.channel, this.handlers := bus, principal, channel, map[];
    }

    method Handle(op: string, handler: Handler)
      modifies this`handlers
      ensures handlers == old(handlers)[op := handler]
    {
      handlers := handlers[op := handler];
    }

    ghost function Log(): seq<Stored>
      reads bus.store.Repr()
    {
      bus.store.Log(channel)
    }

    lemma Apart()
      ensures (this as object) !in bus.store.Repr() && (bus as object) !in bus.store.Repr()
    {
    }

    predicate MayPost()
      reads bus
    {
      bus.MayPost(principal, channel)
    }

    /** Posts the reply to a message, if there is one. A refused post is reported: the notice
        that the exception would be answered with is refused as well. */
    method Send(body: Option<string>, now: real, ghost bodies: seq<string>) returns (done: bool, count: nat)
      requires bus.store.Valid()
      requires bodies == if body.Some? then [body.value] else []
      modifies bus.store.Repr()
      ensures unchanged(this) && unchanged(bus)
      ensures bus.store.Valid() && bus.store.Cursors() == old(bus.store.Cursors())
      ensures done <==> MayPost() || |bodies| == 0
      ensures done ==> count == |bodies| && Log() == Posted(old(Log()), principal.subject, bodies, now)
      ensures !done ==> Log() == old(Log())
      ensures |old(Log())| <= |Log()|
    {
      Apart();
      if body.Some? {
        PostedOne(Log(), principal.subject, body.value, now);
        var posted := bus.Post(principal, channel, body.value, now);
        done, count := posted.Ok?, 1;
      } else {
        done, count := true, 0;
      }
    }

    /** Parses a message and, if it is a task for this worker, runs it and posts one reply. */
    method Serve(msg: A2AMessage, now: real, ghost bodies: seq<string>) returns (done: bool, count: nat)
      requires bus.store.Valid()
      requires bodies == ReplyTo(handlers, principal.subject, msg.sender, msg.body)
      modifies bus.store.Repr()
      ensures unchanged(this) && unchanged(bus)
      ensures bus.store.Valid() && bus.store.Cursors() == old(bus.store.Cursors())
      ensures done <==> MayPost() || |bodies| == 0
      ensures done ==> count == |bodies| && Log() == Posted(old(Log()), principal.subject, bodies, now)
      ensures !done ==> Log() == old(Log())
      ensures |old(Log())| <= |Log()|
    {
      var body := Respond(handlers, principal.subject, msg.sender, msg.body, bodies);
      done, count := Send(body, now, bodies);
    }

    /** One pass: everything unread is read, each task addressed to this worker gets one reply, in
        log order, and what was read is acked last. A refused post aborts the pass before the ack. */
    method RunOnce(now: real)
      returns (handled: Result<nat, BusError>, ghost unread: seq<Stored>, ghost bodies: seq<string>)
      requires bus.store.Valid()
      modifies bus.store.Repr()
      ensures bus.store.Valid() && unchanged(this) && unchanged(bus)
      ensures unread == old(bus.Unread(principal, channel))
      ensures bodies == Replies(handlers, principal.subject, unread)
      ensures AllAnswered(handlers, principal.subject, TasksFor(principal.subject, unread), bodies)
      ensures handled.Ok? <==> bus.MayRead(principal, channel) && (MayPost() || |bodies| == 0)
      ensures handled.Ok? ==> handled.value == |bodies|
      ensures Log() == if handled.Ok? then Posted(old(Log()), principal.subject, bodies, now) else old(Log())
      ensures bus.store.Cursors() ==
              if handled.Ok? then LastRead(old(bus.store.Cursors()), principal.subject, channel, unread)
              else old(bus.store.Cursors())
    {
      var caught;
      caught, unread := ReadUnread(bus, principal, channel);
      bodies := Replies(handlers, principal.subject, unread);
      RepliesAnswer(handlers, principal.subject, unread);
      if caught.Ok? {
        handled := ServeAndAck(caught.value, now, unread, bodies);
      } else {
        handled := Err(ChannelDenied);
      }
    }

    /** A pass over what it read. */
    method ServeAndAck(messages: seq<A2AMessage>, now: real, ghost rows: seq<Stored>, ghost bodies: seq<string>)
      returns (handled: Result<nat, BusError>)
      requires bus.store.Valid() && bus.MayRead(principal, channel)
      requires messages == Deliver(channel, rows, bus.sanitizeReads)
      requires bodies == Replies(handlers, principal.subject, rows)
      requires MayAck(bus.store.Engine(), |Log()|, CursorOf(bus, principal, channel), rows)
      modifies bus.store.Repr()
      ensures bus.store.Valid() && unchanged(this) && unchanged(bus)
      ensures handled.Ok? <==> MayPost() || |bodies| == 0
      ensures handled.Ok? ==> handled.value == |bodies|
      ensures Log() == if handled.Ok? then Posted(old(Log()), principal.subject, bodies, now) else old(Log())
      ensures bus.store.Cursors() ==
              if handled.Ok? then LastRead(old(bus.store.Cursors()), principal.subject, channel, rows)
              else old(bus.store.Cursors())
    {
      Apart();
      if |messages| == 0 { return Ok(0); }
      handled := ServeAll(messages, now, rows, bodies);
      if handled.Ok? { AckRead(bus, principal, channel, messages[|messages| - 1].seqNo, rows); }
    }

    /** One message of a pass, with `sent` posted for the messages before it. */
    method ServeNext(msg: A2AMessage, now: real, ghost rows: seq<Stored>, ghost i: nat,
                     ghost log: seq<Stored>, ghost sent: seq<string>)
      returns (done: bool, count: nat, ghost more: seq<string>)
      requires bus.store.Valid()
      requires i < |rows| && msg == Delivery(channel, rows[i], bus.sanitizeReads)
      requires sent == FlatMap(Answering(handlers, principal.subject), rows[..i])
      requires Log() == Posted(log, principal.subject, sent, now)
      modifies bus.store.Repr()
      ensures unchanged(this) && unchanged(bus)
      ensures bus.store.Valid() && bus.store.Cursors() == old(bus.store.Cursors())
      ensures sent + more == FlatMap(Answering(handlers, principal.subject), rows[..i + 1])
      ensures |sent + more| <= |FlatMap(Answering(handlers, principal.subject), rows)|
      ensures done <==> MayPost() || |more| == 0
      ensures done ==> count == |more| && Log() == Posted(log, principal.subject, sent + more, now)
      ensures !done ==> Log() == old(Log())
      ensures |old(Log())| <= |Log()|
    {
      more := Answering(handlers, principal.subject)(rows[i]);
      NextServed(handlers, principal.subject, rows, i, log, sent, now);
      done, count := Serve(msg, now, more);
    }

    /** The loop of a pass over the messages it read. */
    method ServeAll(messages: seq<A2AMessage>, now: real, ghost rows: seq<Stored>, ghost bodies: seq<string>)
      returns (n: Result<nat, BusError>)
      requires bus.store.Valid()
      requires messages == Deliver(channel, rows, bus.sanitizeReads)
      requires bodies == Replies(handlers, principal.subject, rows)
      modifies bus.store.Repr()
      ensures unchanged(this) && unchanged(bus)
      ensures bus.store.Valid() && bus.store.Cursors() == old(bus.store.Cursors())
      ensures n.Ok? <==> MayPost() || |bodies| == 0
      ensures n.Ok? ==> n.value == |bodies| && Log() == Posted(old(Log()), principal.subject, bodies, now)
      ensures n.Err? ==> Log() == old(Log())
      ensures |old(Log())| <= |Log()|
    {
      var handled := 0;
      ghost var log, cursors := Log(), bus.store.Cursors();
      ghost var sent: seq<string> := [];
      for i := 0 to |messages|
        invariant unchanged(this) && unchanged(bus)
        invariant bus.store.Valid() && bus.store.Cursors() == cursors
        invariant sent == FlatMap(Answering(handlers, principal.subject), rows[..i]) && handled == |sent|
        invariant Log() == Posted(log, principal.subject, sent, now) && |log| <= |Log()|
        invariant MayPost() || |sent| == 0
      {
        var done, count, more := ServeNext(messages[i], now, rows, i, log, sent);
        if !done { return Err(ChannelDenied); }
        sent := sent + more;
        handled := handled + count;
      }
      assert rows[..|messages|] == rows;
      n := Ok(handled);
    }
  }

  /** What a worker answers to a message: nothing, or the reply to the task it holds. */
  method Respond(
    handlers: map<string, Handler>, subject: string, sender: string, text: string, ghost bodies: seq<string>)
    returns (r: Option<string>)
    requires bodies == ReplyTo(handlers, subject, sender, text)
    ensures bodies == if r.Some? then [r.value] else []
  {
    var parsed := ParseText(text);
    var seen := TaskOf(subject, sender, parsed);
    if seen.None? { return None; }
    ParsedRefsAreCleanTokens(text);
    var body := Compose(seen.value.id, Run(handlers, seen.value));
    r := Some(body);
  }

  /** Prints the reply; fields that cannot be printed become a failure notice. */
  method Compose(id: string, outcome: Outcome) returns (body: string)
    requires IsToken(id)
    ensures body == Wire(Answer(id, outcome))
  {
    AnswerIsEncodable(id, outcome);
    var failure := match outcome case Returned(_) => "FlexError" case Raised(name) => name case NoHandler => "no handler";
    if outcome.Returned? {
      var printed := Encode(ReplyMessage(id, true, outcome.fields, ""));
      if printed.Ok? { return printed.value; }
    }
    FailureIsEncodable(id, failure);
    var notice := Encode(ReplyMessage(id, false, map[], failure));
    body := notice.value;
  }

  // ---------- gathering ----------

  /** The first result for each wanted id is kept. */
  function Keep(found: map<string, TaskResult>, wanted: set<string>, r: Option<TaskResult>): map<string, TaskResult> {
    if r.Some? && r.value.taskId in wanted && r.value.taskId !in found then found[r.value.taskId := r.value] else found
  }

  function GatherFrom<T>(
    read: T -> Option<TaskResult>, found: map<string, TaskResult>, wanted: set<string>, rows: seq<T>)
    : map<string, TaskResult>
    decreases |rows|
  {
    if |rows| == 0 then found
    else GatherFrom(read, Keep(found, wanted, read(rows[0])), wanted, rows[1..])
  }

  function Reading(): Stored -> Option<TaskResult> {
    (m: Stored) => ResultIn(m.sender, m.body)
  }

  predicate ResultAt<T>(read: T -> Option<TaskResult>, rows: seq<T>, i: int, id: string) {
    0 <= i < |rows| && read(rows[i]).Some? && read(rows[i]).value.taskId == id
  }

  /** The first result among the rows for a wanted id is the one that is kept. */
  lemma {:induction false} FirstResultWins<T>(
    read: T -> Option<TaskResult>, found: map<string, TaskResult>, wanted: set<string>, rows: seq<T>, id: string, i: nat)
    requires id !in found && id in wanted
    requires ResultAt(read, rows, i, id) && forall j | 0 <= j < i :: !ResultAt(read, rows, j, id)
    ensures id in GatherFrom(read, found, wanted, rows)
    ensures GatherFrom(read, found, wanted, rows)[id] == read(rows[i]).value
    decreases |rows|
  {
    var next := Keep(found, wanted, read(rows[0]));
    if i == 0 {
      FoundStays(read, next, wanted, rows[1..], id);
    } else {
      assert !ResultAt(read, rows, 0, id);
      forall j | 0 <= j < i - 1 ensures !ResultAt(read, rows[1..], j, id) {
        assert !ResultAt(read, rows, j + 1, id);
      }
      FirstResultWins(read, next, wanted, rows[1..], id, i - 1);
    }
  }

  /** Nothing is found for an id that is unwanted or has no result among the rows. */
  lemma {:induction false} NothingElseFound<T>(
    read: T -> Option<TaskResult>, found: map<string, TaskResult>, wanted: set<string>, rows: seq<T>, id: string)
    requires id !in found && (id !in wanted || forall i :: !ResultAt(read, rows, i, id))
    ensures id !in GatherFrom(read, found, wanted, rows)
    decreases |rows|
  {
    if |rows| > 0 {
      assert id !in wanted || !ResultAt(read, rows, 0, id);
      forall i | id in wanted ensures !ResultAt(read, rows[1..], i, id) {
        assert !ResultAt(read, rows, i + 1, id);
      }
      NothingElseFound(read, Keep(found, wanted, read(rows[0])), wanted, rows[1..], id);
    }
  }

  lemma {:induction false} FoundStays<T>(
    read: T -> Option<TaskResult>, found: map<string, TaskResult>, wanted: set<string>, rows: seq<T>, id: string)
    requires id in found
    ensures id in GatherFrom(read, found, wanted, rows) && GatherFrom(read, found, wanted, rows)[id] == found[id]
    decreases |rows|
  {
    if |rows| > 0 { FoundStays(read, Keep(found, wanted, read(rows[0])), wanted, rows[1..], id); }
  }

  lemma {:induction false} GatherConcat<T>(
    read: T -> Option<TaskResult>, found: map<string, TaskResult>, wanted: set<string>, a: seq<T>, b: seq<T>)
    ensures GatherFrom(read, found, wanted, a + b) == GatherFrom(read, GatherFrom(read, found, wanted, a), wanted, b)
    decreases |a|
  {
    if |a| == 0 {
      assert a + b == b;
    } else {
      assert (a + b)[1..] == a[1..] + b;
      GatherConcat(read, Keep(found, wanted, read(a[0])), wanted, a[1..], b);
    }
  }

  datatype DispatchError = BadTask(error: FlexError) | Denied

  class Orchestrator {
    const bus: A2ABus
    const principal: Principal
    const channel: string

    constructor (bus: A2ABus, principal: Principal, channel: string)
      ensures this.bus == bus && this.principal == principal && this.channel == channel
    {
      this.bus, this.principal, this.channel := bus, principal, channel;
    }

    ghost function Log(): seq<Stored>
      reads bus.store.Repr()
    {
      bus.store.Log(channel)
    }

    /** Posts a task under the id it is given, or fails and posts nothing. */
    method Dispatch(id: string, worker: string, op: string, args: map<string, string>, note: string, now: real)
      returns (r: Result<string, DispatchError>)
      requires bus.store.Valid()
      modifies bus.store.Repr()
      ensures bus.store.Valid() && unchanged(bus) && bus.store.Cursors() == old(bus.store.Cursors())
      ensures r.Ok? <==> Encodable(TaskMessage(worker, id, op, args, note)) && bus.MayPost(principal, channel)
      ensures r.Ok? ==> r.value == id
      ensures r.Ok? ==>
                Log() == Numbered(old(Log()), principal.subject, Wire(TaskMessage(worker, id, op, args, note)), now)
      ensures r.Err? ==> Log() == old(Log())
    {
      var body := Encode(TaskMessage(worker, id, op, args, note));
      if body.Err? { return Err(BadTask(body.error)); }
      var posted := bus.Post(principal, channel, body.value, now);
      r := if posted.Ok? then Ok(id) else Err(Denied);
    }

    /** Reads what is unread, at most `rounds` times, keeps the first result for each wanted id,
        and acks everything it read, wanted or not. */
    method Gather(wanted: set<string>, rounds: int)
      returns (r: Result<map<string, TaskResult>, BusError>, ghost unread: seq<Stored>)
      requires bus.store.Valid()
      modifies bus.store.Repr()
      ensures bus.store.Valid() && unchanged(bus) && Log() == old(Log())
      ensures unread == old(bus.Unread(principal, channel))
      ensures r.Ok? <==> bus.MayRead(principal, channel)
      ensures r.Ok? ==> r.value == GatherFrom(Reading(), map[], wanted, unread)
      ensures r.Ok? ==> bus.store.Cursors() == LastRead(old(bus.store.Cursors()), principal.subject, channel, unread)
      ensures r.Err? ==> bus.store.Cursors() == old(bus.store.Cursors())
    {
      unread := bus.Unread(principal, channel);
      ghost var cursors := bus.store.Cursors();
      if !bus.MayRead(principal, channel) { return Err(ChannelDenied), unread; }
      var found, more, rows := Round(map[], wanted);
      var left := rounds - 1;
      while left > 0 && more
        invariant bus.store.Valid() && unchanged(bus) && Log() == old(Log())
        invariant found == GatherFrom(Reading(), map[], wanted, unread)
        invariant bus.Unread(principal, channel) == []
        invariant bus.store.Cursors() == LastRead(cursors, principal.subject, channel, unread)
      {
        found, more, rows := Round(found, wanted);
        left := left - 1;
      }
      r := Ok(found);
    }

    /** One read pass: everything unread is looked through and then acked. */
    method Round(before: map<string, TaskResult>, wanted: set<string>)
      returns (found: map<string, TaskResult>, more: bool, ghost rows: seq<Stored>)
      requires bus.store.Valid() && bus.MayRead(principal, channel)
      modifies bus.store.Repr()
      ensures bus.store.Valid() && unchanged(bus) && Log() == old(Log())
      ensures rows == old(bus.Unread(principal, channel)) && (more <==> |rows| > 0)
      ensures found == GatherFrom(Reading(), before, wanted, rows)
      ensures bus.Unread(principal, channel) == []
      ensures bus.store.Cursors() == LastRead(old(bus.store.Cursors()), principal.subject, channel, rows)
    {
      var caught;
      caught, rows := ReadUnread(bus, principal, channel);
      found := Absorb(caught.value, before, wanted, rows);
      more := |caught.value| > 0;
      AckAll(caught.value, rows);
    }

    method AckAll(messages: seq<A2AMessage>, ghost rows: seq<Stored>)
      requires bus.store.Valid() && bus.MayRead(principal, channel)
      requires MayAck(bus.store.Engine(), |Log()|, CursorOf(bus, principal, channel), rows)
      requires rows == bus.Unread(principal, channel) && messages == Deliver(channel, rows, bus.sanitizeReads)
      modifies bus.store.Repr()
      ensures bus.store.Valid() && unchanged(bus) && Log() == old(Log())
      ensures bus.Unread(principal, channel) == []
      ensures bus.store.Cursors() == LastRead(old(bus.store.Cursors()), principal.subject, channel, rows)
    {
      bus.store.LogIsGapFree(channel);
      if |messages| > 0 {
        NothingAfter(bus.store.Engine(), Log(), CursorOf(bus, principal, channel));
        AckRead(bus, principal, channel, messages[|messages| - 1].seqNo, rows);
      }
    }

    /** The loop over the messages one round read. */
    method Absorb(
      messages: seq<A2AMessage>, before: map<string, TaskResult>, wanted: set<string>, ghost rows: seq<Stored>)
      returns (found: map<string, TaskResult>)
      requires messages == Deliver(channel, rows, bus.sanitizeReads)
      ensures found == GatherFrom(Reading(), before, wanted, rows)
    {
      found := before;
      ghost var read := Reading();
      for i := 0 to |messages|
        invariant GatherFrom(read, found, wanted, rows[i..]) == GatherFrom(read, before, wanted, rows)
      {
        ghost var raw := rows[i];
        CleaningChangesNothing("", raw.sender, raw.body);
        var r := ReadResult(messages[i].sender, messages[i].body);
        assert rows[i..][0] == raw && rows[i..][1..] == rows[i + 1..];
        found := Keep(found, wanted, r);
      }
    }
  }

  method ReadResult(sender: string, text: string) returns (r: Option<TaskResult>)
    ensures r == ResultIn(sender, text)
  {
    var parsed := ParseText(text);
    r := ResultOf(sender, parsed);
  }

  lemma NothingAfter(engine: Engine, log: seq<Stored>, cursor: Option<int>)
    requires GapFree(log) && |After(log, CursorValue(cursor))| > 0
    ensures After(log, After(log, CursorValue(cursor))[|After(log, CursorValue(cursor))| - 1].seqNo) == []
  {
    LastUnread(engine, log, cursor);
    AfterIsSuffix(log, |log|);
  }
}
