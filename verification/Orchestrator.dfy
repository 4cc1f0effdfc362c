/** Tasks and results as FLEX messages, and the orchestrator and worker that exchange them. */
module Orchestration {
  import opened Options
  import opened Text
  import opened Sanitizer
  import opened Flex
  import opened A2A
  import opened Bus

  datatype Task = Task(id: string, op: string, args: map<string, string>, note: string, sender: string)
  datatype TaskResult = TaskResult(
    taskId: string, worker: string, ok: bool, fields: map<string, string>, note: string)

  /** What a handler did: its fields, or the type name of what it raised. */
  datatype Outcome = Returned(fields: map<string, string>) | Raised(name: string) | NoHandler

  type Handler = Task -> Outcome

  // ---------- the messages ----------

  /** `{"do": do, **args}`: an argument named "do" replaces the operation. */
  function TaskMessage(worker: string, id: string, op: string, args: map<string, string>, note: string): Message {
    Message("task", [worker], [id], map["do" := op] + args, note)
  }

  /** `{"ok": ..., **fields}`: a field named "ok" replaces the verdict. */
  function ReplyMessage(id: string, ok: bool, fields: map<string, string>, note: string): Message {
    Message("result", [], [id], map["ok" := if ok then "true" else "false"] + fields, note)
  }

  function Get(fields: map<string, string>, k: string): string {
    if k in fields then fields[k] else ""
  }

  /** The task a worker sees in a message, if it is addressed to it and carries an id. */
  function TaskOf(subject: string, sender: string, m: Message): Option<Task> {
    if m.kind != "task" || subject !in m.to || |m.refs| == 0 then None
    else Some(Task(m.refs[0], Get(m.fields, "do"), m.fields - {"do"}, m.note, sender))
  }

  /** The result an orchestrator sees in a message. */
  function ResultOf(sender: string, m: Message): Option<TaskResult> {
    if m.kind != "result" || |m.refs| == 0 then None
    else Some(TaskResult(m.refs[0], sender, Get(m.fields, "ok") == "true", m.fields - {"ok"}, m.note))
  }

  function TaskIn(subject: string, sender: string, body: string): Option<Task> {
    TaskOf(subject, sender, Parse(body))
  }

  function ResultIn(sender: string, body: string): Option<TaskResult> {
    ResultOf(sender, Parse(body))
  }

  /** The reply to a task. Fields that cannot be printed fail like a raising handler. */
  function Answer(id: string, outcome: Outcome): Message {
    match outcome
    case Returned(fields) =>
      var m := ReplyMessage(id, true, fields, "");
      if Encodable(m) then m else ReplyMessage(id, false, map[], "FlexError")
    case Raised(name) => ReplyMessage(id, false, map[], name)
    case NoHandler => ReplyMessage(id, false, map[], "no handler")
  }

  lemma FailureIsEncodable(id: string, note: string)
    requires IsToken(id)
    ensures Encodable(ReplyMessage(id, false, map[], note))
  {
  }

  lemma AnswerIsEncodable(id: string, outcome: Outcome)
    requires IsToken(id)
    ensures Encodable(Answer(id, outcome))
  {
  }

  /** Reading a message is the same before and after the bus has cleaned its body. */
  lemma CleaningChangesNothing(subject: string, sender: string, body: string)
    ensures TaskIn(subject, sender, Sanitize(body)) == TaskIn(subject, sender, body)
    ensures ResultIn(sender, Sanitize(body)) == ResultIn(sender, body)
  {
    ParseOfSanitized(body);
  }

  /** What a worker takes for a task: a message of that kind that names it and carries a reference. The
      operation is the field `do`, empty without one, and the other fields are the arguments. */
  lemma TaskIsRead(subject: string, sender: string, body: string)
    ensures var m, t := Parse(body), TaskIn(subject, sender, body);
            (t.Some? <==> m.kind == "task" && subject in m.to && |m.refs| > 0) &&
            (t.Some? ==>
               t.value.id == m.refs[0] && t.value.note == m.note && t.value.sender == sender &&
               (if "do" in m.fields then t.value.op == m.fields["do"] else t.value.op == "") &&
               t.value.args.Keys == m.fields.Keys - {"do"} &&
               forall k | k in t.value.args :: t.value.args[k] == m.fields[k])
  {
  }

  /** What an orchestrator takes for a result: any message of that kind with a reference. */
  lemma ResultIsRead(sender: string, body: string)
    ensures var m, r := Parse(body), ResultIn(sender, body);
            (r.Some? <==> m.kind == "result" && |m.refs| > 0) &&
            (r.Some? ==>
               r.value.taskId == m.refs[0] && r.value.worker == sender && r.value.note == m.note &&
               (r.value.ok <==> "ok" in m.fields && m.fields["ok"] == "true") &&
               r.value.fields.Keys == m.fields.Keys - {"ok"} &&
               forall k | k in r.value.fields :: r.value.fields[k] == m.fields[k])
  {
  }

  // ---------- what a reply says ----------

  /** Every reply is read as a result for its task, whatever fields or names it carries. */
  lemma AnswerIsAResult(id: string, outcome: Outcome, worker: string)
    requires IsToken(id) && Clean(id)
    ensures ResultIn(worker, Wire(Answer(id, outcome))).Some?
    ensures ResultIn(worker, Wire(Answer(id, outcome))).value.taskId == id
    ensures ResultIn(worker, Wire(Answer(id, outcome))).value.worker == worker
  {
    var m := Answer(id, outcome);
    AnswerIsEncodable(id, outcome);
    assert "ok" in m.fields;
    FixedTextIsClean();
    KindAndRefSurvive(m);
  }

  /** What the orchestrator should learn of an outcome. */
  function Faithful(id: string, worker: string, outcome: Outcome): TaskResult {
    match outcome
    case Returned(fields) => TaskResult(id, worker, true, fields, "")
    case Raised(name) => TaskResult(id, worker, false, map[], name)
    case NoHandler => TaskResult(id, worker, false, map[], "no handler")
  }

  /** Fields that travel unchanged. */
  predicate Portable(fields: map<string, string>) {
    "ok" !in fields && CanonicalFields(fields) && forall k | k in fields :: IsToken(k) && IsToken(fields[k])
  }

  predicate PortableOutcome(outcome: Outcome) {
    match outcome
    case Returned(fields) => Portable(fields)
    case Raised(name) => Clean(name) && Trimmed(name)
    case NoHandler => true
  }

  lemma OkField(fields: map<string, string>, verdict: string)
    requires "ok" !in fields
    ensures (map["ok" := verdict] + fields) - {"ok"} == fields
    ensures Get(map["ok" := verdict] + fields, "ok") == verdict
  {
  }

  lemma FixedTextIsClean()
    ensures Clean("task") && Clean("result") && Clean("ok") && Clean("true") && Clean("false")
    ensures Clean("") && Clean("no handler") && Trimmed("no handler") && Clean("FlexError") && Trimmed("FlexError")
    ensures CanonicalKey("ok")
  {
  }

  lemma ReplyIsCanonical(id: string, ok: bool, fields: map<string, string>, note: string)
    requires Clean(id) && CanonicalFields(fields) && Clean(note) && Trimmed(note)
    ensures Canonical(ReplyMessage(id, ok, fields, note))
  {
    FixedTextIsClean();
    var all := map["ok" := if ok then "true" else "false"] + fields;
    assert forall k | k in all :: k in fields || (k == "ok" && (all[k] == "true" || all[k] == "false"));
  }

  lemma PortableIsEncodable(id: string, fields: map<string, string>)
    requires IsToken(id) && Portable(fields)
    ensures Encodable(ReplyMessage(id, true, fields, ""))
  {
  }

  lemma PortableAnswerIsCanonical(id: string, outcome: Outcome)
    requires IsToken(id) && Clean(id) && PortableOutcome(outcome)
    ensures Canonical(Answer(id, outcome))
  {
    FixedTextIsClean();
    match outcome
    case Returned(fields) =>
      PortableIsEncodable(id, fields);
      ReplyIsCanonical(id, true, fields, "");
    case Raised(name) => ReplyIsCanonical(id, false, map[], name);
    case NoHandler => ReplyIsCanonical(id, false, map[], "no handler");
  }

  lemma PortableAnswerReads(id: string, worker: string, outcome: Outcome)
    requires IsToken(id) && PortableOutcome(outcome)
    ensures ResultOf(worker, Answer(id, outcome)) == Some(Faithful(id, worker, outcome))
  {
    match outcome
    case Returned(fields) =>
      PortableIsEncodable(id, fields);
      OkField(fields, "true");
    case Raised(name) => OkField(map[], "false");
    case NoHandler => OkField(map[], "false");
  }

  lemma PortableIsFaithful(id: string, worker: string, outcome: Outcome)
    requires IsToken(id) && Clean(id) && PortableOutcome(outcome)
    ensures ResultIn(worker, Wire(Answer(id, outcome))) == Some(Faithful(id, worker, outcome))
  {
    AnswerIsEncodable(id, outcome);
    PortableAnswerIsCanonical(id, outcome);
    CanonicalRoundTrip(Answer(id, outcome));
    PortableAnswerReads(id, worker, outcome);
  }

  /** What is read is canonical and has no "ok" left, so it cannot be what did not travel. */
  lemma NotFaithful(heard: Message, id: string, worker: string, outcome: Outcome)
    requires Canonical(heard) && !PortableOutcome(outcome)
    requires outcome.Returned? ==> forall k | k in outcome.fields :: IsToken(k) && IsToken(outcome.fields[k])
    ensures ResultOf(worker, heard) != Some(Faithful(id, worker, outcome))
  {
    if outcome.Returned? && heard.fields - {"ok"} == outcome.fields {
      assert forall k | k in outcome.fields :: k in heard.fields && heard.fields[k] == outcome.fields[k];
    }
  }

  lemma Unprintable(id: string, worker: string, fields: map<string, string>)
    requires IsToken(id) && Clean(id) && !Encodable(ReplyMessage(id, true, fields, ""))
    ensures ResultIn(worker, Wire(Answer(id, Returned(fields)))) == Some(Faithful(id, worker, Raised("FlexError")))
  {
    FixedTextIsClean();
    PortableIsFaithful(id, worker, Raised("FlexError"));
  }

  lemma PrintableFields(id: string, fields: map<string, string>)
    requires IsToken(id) && Encodable(ReplyMessage(id, true, fields, ""))
    ensures forall k | k in fields :: IsToken(k) && IsToken(fields[k])
  {
    var m := ReplyMessage(id, true, fields, "");
    assert forall k | k in fields :: k in m.fields && m.fields[k] == fields[k];
  }

  /** A result carries the handler's own fields, or its failure, exactly when the outcome can
      travel: something to be seen in the outcome alone. */
  lemma ResultIsFaithful(id: string, worker: string, outcome: Outcome)
    requires IsToken(id) && Clean(id)
    ensures ResultIn(worker, Wire(Answer(id, outcome))) == Some(Faithful(id, worker, outcome))
            <==> PortableOutcome(outcome)
  {
    if PortableOutcome(outcome) {
      PortableIsFaithful(id, worker, outcome);
    } else if outcome.Returned? && !Encodable(ReplyMessage(id, true, outcome.fields, "")) {
      Unprintable(id, worker, outcome.fields);
    } else {
      if outcome.Returned? { PrintableFields(id, outcome.fields); }
      ParseIsCanonical(Wire(Answer(id, outcome)));
      NotFaithful(Parse(Wire(Answer(id, outcome))), id, worker, outcome);
    }
  }

  // ---------- what a task says ----------

  /** Arguments that travel unchanged. */
  predicate PortableTask(worker: string, id: string, op: string, args: map<string, string>, note: string) {
    "do" !in args && Canonical(TaskMessage(worker, id, op, args, note))
  }

  /** A dispatched task reaches the worker it names as it was dispatched, exactly when it can
      travel. */
  lemma TaskIsFaithful(
    worker: string, id: string, op: string, args: map<string, string>, note: string, sender: string)
    requires Encodable(TaskMessage(worker, id, op, args, note))
    ensures TaskIn(worker, sender, Wire(TaskMessage(worker, id, op, args, note)))
              == Some(Task(id, op, args, note, sender))
            <==> PortableTask(worker, id, op, args, note)
  {
    var m := TaskMessage(worker, id, op, args, note);
    ParseIsCanonical(Wire(m));
    if PortableTask(worker, id, op, args, note) {
      CanonicalRoundTrip(m);
      DoField(op, args);
    } else {
      TaskNotFaithful(Parse(Wire(m)), worker, id, op, args, note, sender);
    }
  }

  lemma DoField(op: string, args: map<string, string>)
    requires "do" !in args
    ensures (map["do" := op] + args) - {"do"} == args && Get(map["do" := op] + args, "do") == op
  {
  }

  lemma TaskNotFaithful(heard: Message, worker: string, id: string, op: string, args: map<string, string>,
                        note: string, sender: string)
    requires Canonical(heard) && Encodable(TaskMessage(worker, id, op, args, note))
    requires !PortableTask(worker, id, op, args, note)
    ensures TaskOf(worker, sender, heard) != Some(Task(id, op, args, note, sender))
  {
    var fields := map["do" := op] + args;
    if "do" !in args && heard.fields - {"do"} == args && Get(heard.fields, "do") == op {
      assert fields["do"] == op && IsToken(op);
      assert heard.fields == fields;
      FixedTextIsClean();
    }
  }
}
