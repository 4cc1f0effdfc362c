/** The protocol with FLEX as its language: what reaches an orchestrator in the end. */
module FlexProtocol {
  import opened Options
  import opened Text
  import opened Sanitizer
  import opened Flex
  import opened A2A
  import opened Orchestration
  import opened Agents
  import opened Protocol
  import opened Gathers
  import opened SharedCursor
  import opened Passes

  ghost function Flexing(): Language {
    Language(
      (id: string) => IsToken(id) && Clean(id),
      (w: string, sender: string, body: string) => TaskIn(w, sender, body),
      (sender: string, body: string) => ResultIn(sender, body),
      (id: string, outcome: Outcome) => Wire(Answer(id, outcome)))
  }

  lemma FlexIsLawful()
    ensures Lawful(Flexing())
  {
    forall w, sender, body | TaskIn(w, sender, body).Some?
      ensures IsToken(TaskIn(w, sender, body).value.id) && Clean(TaskIn(w, sender, body).value.id)
    {
      ParsedRefsAreCleanTokens(body);
    }
    forall id, outcome, w | IsToken(id) && Clean(id)
      ensures var r := ResultIn(w, Wire(Answer(id, outcome))); r.Some? && r.value.taskId == id && r.value.worker == w
    {
      AnswerIsAResult(id, outcome, w);
    }
  }

  /** Dispatching posts a message that no one reads as a result, whatever the arguments. */
  lemma DispatchIsAPost(s: State, o: string, worker: string, id: string, op: string, args: map<string, string>,
                        note: string)
    requires Encodable(TaskMessage(worker, id, op, args, note))
    ensures var body := Wire(TaskMessage(worker, id, op, args, note));
            ResultIn(o, body).None? &&
            Next(Flexing(), s, s.(log := s.log + [Entry(o, body, Posted)]), Post(o, body))
  {
    FixedTextIsClean();
    KindSurvives(TaskMessage(worker, id, op, args, note));
  }

  /** The entry at `q` is the dispatch, to the worker that replied at `p`, of a task that travels. */
  ghost predicate DispatchedAs(log: seq<Entry>, p: nat, q: nat, id: string, op: string, args: map<string, string>,
                               note: string)
    requires p < |log| && q < |log|
  {
    var m := TaskMessage(log[p].sender, id, op, args, note);
    Encodable(m) && log[q].body == Wire(m) && PortableTask(log[p].sender, id, op, args, note)
  }

  /** The reply at `p` is to an earlier task with this id, read as the worker read it. What is read from
      the reply is faithful exactly when the outcome can travel, and the worker handled what was
      dispatched if that could. */
  ghost predicate Delivered(log: seq<Entry>, p: nat, id: string, got: TaskResult)
    requires p < |log| && log[p].origin.Replied?
  {
    var Replied(q, task, outcome) := log[p].origin;
    q < p && task.id == id && TaskIn(log[p].sender, log[q].sender, log[q].body) == Some(task) &&
    (got == Faithful(id, log[p].sender, outcome) <==> PortableOutcome(outcome)) &&
    forall op, args, note :: DispatchedAs(log, p, q, id, op, args, note) ==>
                               task == Task(id, op, args, note, log[q].sender)
  }

  lemma ReplyDelivers(log: seq<Entry>, p: nat, id: string, got: TaskResult)
    requires LogInv(Flexing(), log) && ReadsAs(Flexing(), log, p, id) && log[p].origin.Replied?
    requires ResultIn(log[p].sender, log[p].body) == Some(got)
    ensures Delivered(log, p, id, got)
  {
    assert EntryInv(Flexing(), log, p);
    var Replied(q, task, outcome) := log[p].origin;
    ParsedRefsAreCleanTokens(log[q].body);
    AnswerIsAResult(task.id, outcome, log[p].sender);
    ResultIsFaithful(id, log[p].sender, outcome);
    forall op, args, note | DispatchedAs(log, p, q, id, op, args, note)
      ensures task == Task(id, op, args, note, log[q].sender)
    {
      TaskIsFaithful(log[p].sender, id, op, args, note, log[q].sender);
    }
  }

  /** End to end, over every interleaving of dispatches, other messages, passes that may crash and
      gathers. What a gather returned for `id` is the first result for it in the log from the cursor it
      started from, and before the head it saw; earlier ones it can only have missed to another reader of
      the same cursor, and none if it is undivided. If a worker posted that result, it is its reply to a
      task with that id, and carries the handler's own fields, or its failure, exactly when the outcome
      can travel. If that task's message was dispatched with arguments that can travel, the worker it
      names handled exactly what was dispatched. */
  lemma EndToEnd(states: seq<State>, steps: seq<Step>, i: nat, k: nat, id: string) returns (p: nat)
    requires IsRun(Flexing(), states, steps) && i < |states| && k < |states[i].returned|
    requires id in states[i].returned[k].found
    ensures var log, r := states[i].log, states[i].returned[k];
            r.start <= p < r.head <= |log| && ResultIn(log[p].sender, log[p].body) == Some(r.found[id]) &&
            r.found[id].taskId == id && (log[p].origin.Replied? ==> Delivered(log, p, id, r.found[id])) &&
            forall q | r.start <= q < p && ReadsAs(Flexing(), log, q, id) ::
              TakenByAnother(states[i], r, q) && !Undivided(states[0], r.instance, r.asked)
  {
    var log, r := states[i].log, states[i].returned[k];
    GatherIsExact(Flexing(), states, steps, i, k, id, 0);
    var m: nat :| FirstRead(Flexing(), log, r.read, m, id);
    GatherIsExact(Flexing(), states, steps, i, k, id, m);
    RunKeepsInv(Flexing(), states, steps, i);
    p := r.read[m];
    SkipsOnlyWhatOthersTook(Flexing(), states, steps, i, k, p);
    if log[p].origin.Replied? { ReplyDelivers(log, p, id, r.found[id]); }
    forall q | r.start <= q < p && ReadsAs(Flexing(), log, q, id)
      ensures TakenByAnother(states[i], r, q) && !Undivided(states[0], r.instance, r.asked)
    {
      EarlierIsUnread(Flexing(), log, r.read, m, id, q);
      SkipsOnlyWhatOthersTook(Flexing(), states, steps, i, k, q);
      if Undivided(states[0], r.instance, r.asked) { UndividedReads(Flexing(), states, steps, i, k, q); }
    }
  }

  /** Nothing but the entry at `d` is a task with this id, for anyone. */
  ghost predicate OnlyTaskWith(log: seq<Entry>, d: nat, id: string) {
    forall q: nat, w | q < |log| && TaskIn(w, log[q].sender, log[q].body).Some? &&
                       TaskIn(w, log[q].sender, log[q].body).value.id == id :: q == d
  }

  lemma OnlyTheNamed(w: string, sender: string, worker: string, id: string, op: string, args: map<string, string>,
                     note: string)
    requires Encodable(TaskMessage(worker, id, op, args, note)) && PortableTask(worker, id, op, args, note)
    requires TaskIn(w, sender, Wire(TaskMessage(worker, id, op, args, note))).Some?
    ensures w == worker
  {
    CanonicalRoundTrip(TaskMessage(worker, id, op, args, note));
  }

  /** The reply at `p` is the worker's, to that task at `d`, and faithful exactly when its outcome can travel. */
  predicate Answers(log: seq<Entry>, p: nat, d: nat, worker: string, task: Task, got: TaskResult)
    requires p < |log| && log[p].origin.Replied?
  {
    var outcome := log[p].origin.outcome;
    d < p && log[p].sender == worker && log[p].origin == Replied(d, task, outcome) &&
    (got == Faithful(task.id, worker, outcome) <==> PortableOutcome(outcome))
  }

  /** With an id of its own, a dispatched task is what the result answers: if a worker posted it, that is the
      worker named in the dispatch, and it handled what was dispatched. */
  lemma FreshIdIsAnswered(states: seq<State>, steps: seq<Step>, i: nat, k: nat, d: nat, worker: string, id: string,
                          op: string, args: map<string, string>, note: string)
    returns (p: nat)
    requires IsRun(Flexing(), states, steps) && i < |states| && k < |states[i].returned|
    requires id in states[i].returned[k].found && d < |states[i].log| && OnlyTaskWith(states[i].log, d, id)
    requires Encodable(TaskMessage(worker, id, op, args, note)) && PortableTask(worker, id, op, args, note)
    requires states[i].log[d].body == Wire(TaskMessage(worker, id, op, args, note))
    ensures var log, r := states[i].log, states[i].returned[k];
            r.start <= p < r.head <= |log| && ResultIn(log[p].sender, log[p].body) == Some(r.found[id]) &&
            (log[p].origin.Replied? ==>
               Answers(log, p, d, worker, Task(id, op, args, note, log[d].sender), r.found[id]))
  {
    var log := states[i].log;
    p := EndToEnd(states, steps, i, k, id);
    if log[p].origin.Replied? {
      var q := log[p].origin.taskPos;
      assert TaskIn(log[p].sender, log[q].sender, log[q].body).Some?;
      OnlyTheNamed(log[p].sender, log[d].sender, worker, id, op, args, note);
      assert DispatchedAs(log, p, d, id, op, args, note);
    }
  }

  /** ... and every wanted id with a result from the cursor to the head is in what the gather returned, but
      for what another reader of the same cursor acked over. */
  lemma NoReplyIsMissed(states: seq<State>, steps: seq<Step>, i: nat, k: nat, id: string, p: nat)
    requires IsRun(Flexing(), states, steps) && i < |states| && k < |states[i].returned|
    requires id in states[i].returned[k].wanted && states[i].returned[k].start <= p < states[i].returned[k].head
    requires RepliesTo(states[i].log, p, id) || ReadsAs(Flexing(), states[i].log, p, id)
    ensures var r := states[i].returned[k];
            id in r.found || (TakenByAnother(states[i], r, p) && !Undivided(states[0], r.instance, r.asked))
  {
    var r := states[i].returned[k];
    FlexIsLawful();
    RunKeepsInv(Flexing(), states, steps, i);
    if RepliesTo(states[i].log, p, id) { RepliesReadAsResults(Flexing(), states[i].log, p, id); }
    SkipsOnlyWhatOthersTook(Flexing(), states, steps, i, k, p);
    if Undivided(states[0], r.instance, r.asked) { UndividedReads(Flexing(), states, steps, i, k, p); }
    if p in r.read { ReadIsFound(Flexing(), states, steps, i, k, id, p); }
  }

  /** A gather finds every result from its cursor to its head, whatever its parties do, exactly when it
      asks for one round only or nobody else reads under its subject. */
  lemma GatherFindsAllExactly(s0: State, g: string, asked: nat)
    requires Init(s0) && g in s0.gathers
    ensures FindsAll(Flexing(), s0, g, asked) <==> Undivided(s0, g, asked)
  {
    var dispatch, result := Wire(TaskMessage("w", "t", "x", map[], "")), Wire(Answer("t", NoHandler));
    ShortIsClean();
    DispatchIsAPost(s0, "", "w", "t", "x", map[], "");
    AnswerIsAResult("t", NoHandler, "");
    OneOfEach(s0.gathers[g].subject, dispatch, result, "t");
    FindsAllExactly(Flexing(), s0, g, asked, "t", Entry("", dispatch, Posted), Entry("", result, Posted));
  }

  /** What reads as a result is no task. */
  lemma OneOfEach(subject: string, dispatch: string, result: string, id: string)
    requires ResultIn("", dispatch).None? && ResultIn("", result).Some? && ResultIn("", result).value.taskId == id
    ensures Ready(Flexing(), subject, id, Entry("", dispatch, Posted), Entry("", result, Posted))
  {
  }

  lemma ShortIsClean()
    ensures IsToken("t") && Clean("t") && Encodable(TaskMessage("w", "t", "x", map[], ""))
  {
  }

  // ---------- a pass posts what the worker's method posts ----------

  /** The outcome is what the handler of the task's operation makes of it, if there is one. */
  predicate Handled(handlers: map<string, Handler>, task: Task, outcome: Outcome) {
    outcome == if task.op in handlers then handlers[task.op](task) else NoHandler
  }

  /** The outcome is what the handlers make of the worker's next task. */
  predicate ByHandlers(s: State, w: string, handlers: map<string, Handler>, outcome: Outcome)
    requires w in s.workers && s.workers[w].phase.Serving?
  {
    var subject, next := s.workers[w].subject, s.workers[w].phase.next;
    next < |s.log| && TaskIn(subject, s.log[next].sender, s.log[next].body).Some? ==>
      Handled(handlers, TaskIn(subject, s.log[next].sender, s.log[next].body).value, outcome)
  }

  predicate HandledAll(states: seq<State>, steps: seq<Step>, w: string, handlers: map<string, Handler>)
    requires |states| == |steps| + 1
  {
    forall i | 0 <= i < |steps| && steps[i].HandleNext? && steps[i].w == w ::
      w in states[i].workers && states[i].workers[w].phase.Serving? &&
      ByHandlers(states[i], w, handlers, steps[i].outcome)
  }

  predicate SameRows(log: seq<Entry>, rows: seq<Stored>) {
    |rows| <= |log| && forall i | 0 <= i < |rows| :: log[i].sender == rows[i].sender && log[i].body == rows[i].body
  }

  lemma OwnStepPosts(s: State, s': State, w: string, outcome: Outcome, handlers: map<string, Handler>, row: Stored)
    requires Next(Flexing(), s, s', HandleNext(w, outcome)) && ByHandlers(s, w, handlers, outcome)
    requires s.log[s.workers[w].phase.next].sender == row.sender && s.log[s.workers[w].phase.next].body == row.body
    ensures Bodies(Added(s.log, s'.log)) == Answering(handlers, s.workers[w].subject)(row)
    ensures s'.workers[w].phase.Serving? && s'.workers[w].phase.next == s.workers[w].phase.next + 1
  {
    var next := s.workers[w].phase.next;
    assert s'.log == s.log + ReplyEntry(Flexing(), s.workers[w].subject, s.log, next, outcome);
    assert Added(s.log, s'.log) == ReplyEntry(Flexing(), s.workers[w].subject, s.log, next, outcome);
  }

  lemma {:induction false} LogsGrowAll(L: Language, states: seq<State>, steps: seq<Step>, b: nat)
    requires Linked(L, states, steps) && b <= |steps|
    ensures states[0].log <= states[b].log
  {
    if b > 0 {
      LogsGrowAll(L, states, steps, b - 1);
      LogsGrow(L, states[b - 1], states[b], steps[b - 1]);
    }
  }

  /** The worker's handling step at `i` posts what its handlers answer to the row it handles. */
  lemma HandledPosts(states: seq<State>, steps: seq<Step>, w: string, handlers: map<string, Handler>,
                     rows: seq<Stored>, i: nat)
    requires Linked(Flexing(), states, steps) && HandledAll(states, steps, w, handlers)
    requires i < |steps| && steps[i].HandleNext? && steps[i].w == w && SameRows(states[i].log, rows)
    requires w in states[i].workers && states[i].workers[w].phase.Serving? && states[i].workers[w].phase.upTo <= |rows|
    ensures PostsAt(states, steps, w, Answering(handlers, states[i].workers[w].subject), rows, i)
  {
    assert Next(Flexing(), states[i], states[i + 1], steps[i]);
    var next := states[i].workers[w].phase.next;
    OwnStepPosts(states[i], states[i + 1], w, steps[i].outcome, handlers, rows[next]);
  }

  /** In any run, what a worker's own steps of a pass have posted is what `Worker.RunOnce` posts for the
      part of the log the pass has handled. */
  lemma PassPostsWhatRunOncePosts(
    states: seq<State>, steps: seq<Step>, w: string, handlers: map<string, Handler>, rows: seq<Stored>,
    from: nat, upTo: nat, b: nat)
    requires Linked(Flexing(), states, steps) && SamePass(steps, w) && b <= |steps|
    requires w in states[0].workers && states[0].workers[w].phase == Serving(from, upTo, from)
    requires from <= upTo == |rows| && SameRows(states[0].log, rows) && HandledAll(states, steps, w, handlers)
    ensures w in states[b].workers && states[b].workers[w].phase.Serving?
    ensures from <= states[b].workers[w].phase.next <= |rows|
    ensures Bodies(Own(states, steps, w, b)) ==
              Replies(handlers, states[0].workers[w].subject, rows[from..states[b].workers[w].phase.next])
  {
    var subject := states[0].workers[w].subject;
    var reply := Answering(handlers, subject);
    forall i | 0 <= i < |steps| && steps[i].HandleNext? && steps[i].w == w
      ensures PostsAt(states, steps, w, reply, rows, i)
    {
      PassRepliesInOrder(Flexing(), states, steps, w, from, upTo, i);
      LogsGrowAll(Flexing(), states, steps, i);
      HandledPosts(states, steps, w, handlers, rows, i);
    }
    OwnStepsPost(Flexing(), states, steps, w, reply, rows, from, upTo, b);
  }

  // ---------- the handler's answer to what was dispatched ----------

  /** All workers under the subject run these handlers. */
  predicate SubjectHandles(states: seq<State>, steps: seq<Step>, subject: string, handlers: map<string, Handler>)
    requires |states| == |steps| + 1
  {
    forall w | w in states[0].workers && states[0].workers[w].subject == subject ::
      HandledAll(states, steps, w, handlers)
  }

  /** Every reply of the subject tells what the handlers made of its task. */
  predicate TellsHandled(log: seq<Entry>, subject: string, handlers: map<string, Handler>) {
    forall p | 0 <= p < |log| && log[p].origin.Replied? && log[p].sender == subject ::
      Handled(handlers, log[p].origin.task, log[p].origin.outcome)
  }

  lemma StepTellsHandled(s: State, s': State, step: Step, subject: string, handlers: map<string, Handler>)
    requires Next(Flexing(), s, s', step) && TellsHandled(s.log, subject, handlers)
    requires step.HandleNext? && s.workers[step.w].subject == subject ==> ByHandlers(s, step.w, handlers, step.outcome)
    ensures TellsHandled(s'.log, subject, handlers)
  {
  }

  lemma {:induction false} RunTellsHandled(states: seq<State>, steps: seq<Step>, i: nat, subject: string,
                                           handlers: map<string, Handler>)
    requires IsRun(Flexing(), states, steps) && i < |states| && SubjectHandles(states, steps, subject, handlers)
    ensures TellsHandled(states[i].log, subject, handlers)
  {
    if i > 0 {
      RunTellsHandled(states, steps, i - 1, subject, handlers);
      PartiesStay(Flexing(), states, steps, i - 1);
      assert Next(Flexing(), states[i - 1], states[i], steps[i - 1]);
      StepTellsHandled(states[i - 1], states[i], steps[i - 1], subject, handlers);
    }
  }

  /** The result reads as the handler's own answer to the task, if that can travel and only then; without a
      handler, as the failure that names it. */
  predicate HandlersAnswer(handlers: map<string, Handler>, worker: string, task: Task, got: TaskResult) {
    if task.op !in handlers then got == TaskResult(task.id, worker, false, map[], "no handler")
    else got == Faithful(task.id, worker, handlers[task.op](task)) <==> PortableOutcome(handlers[task.op](task))
  }

  /** ... and what a gather returns for such an id, if a worker posted it, is the answer of that worker's
      handler to the operation, the arguments and the note that were dispatched. */
  lemma FreshIdIsHandled(states: seq<State>, steps: seq<Step>, i: nat, k: nat, d: nat, worker: string, id: string,
                         op: string, args: map<string, string>, note: string, handlers: map<string, Handler>)
    returns (p: nat)
    requires IsRun(Flexing(), states, steps) && i < |states| && k < |states[i].returned|
    requires id in states[i].returned[k].found && d < |states[i].log| && OnlyTaskWith(states[i].log, d, id)
    requires Encodable(TaskMessage(worker, id, op, args, note)) && PortableTask(worker, id, op, args, note)
    requires states[i].log[d].body == Wire(TaskMessage(worker, id, op, args, note))
    requires SubjectHandles(states, steps, worker, handlers)
    ensures var log, r := states[i].log, states[i].returned[k];
            r.start <= p < r.head <= |log| && ResultIn(log[p].sender, log[p].body) == Some(r.found[id]) &&
            (log[p].origin.Replied? ==>
               HandlersAnswer(handlers, worker, Task(id, op, args, note, log[d].sender), r.found[id]))
  {
    p := FreshIdIsAnswered(states, steps, i, k, d, worker, id, op, args, note);
    RunTellsHandled(states, steps, i, worker, handlers);
  }
}
