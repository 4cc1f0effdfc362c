/** The lease-based task queue: an in-memory backend, a table backend, and what holds over every
    sequence of operations on either. */
module TaskQueue {
  import opened Options
  import opened Orchestration

  datatype Status = Pending | Leased | Done

  datatype QTask = QTask(
    id: string, op: string, args: map<string, string>, note: string, status: Status, createdAt: real,
    leasedAt: real, ok: bool, result: map<string, string>, worker: string)

  datatype LeasedTask = LeasedTask(id: string, op: string, args: map<string, string>, note: string, worker: string)

  // ---------- the in-memory backend, on values ----------

  /** Where a task with this id stands in the dict; its length when there is none. */
  function IndexOf(tasks: seq<QTask>, id: string): (i: nat)
    ensures i <= |tasks|
    ensures i < |tasks| ==> tasks[i].id == id
    ensures forall j | 0 <= j < i :: tasks[j].id != id
  {
    if |tasks| == 0 || tasks[0].id == id then 0 else 1 + IndexOf(tasks[1..], id)
  }

  function Lookup(tasks: seq<QTask>, id: string): Option<QTask> {
    var i := IndexOf(tasks, id);
    if i < |tasks| then Some(tasks[i]) else None
  }

  /** `tasks[id] = task`: a key that is there keeps its place. */
  function Put(tasks: seq<QTask>, task: QTask): seq<QTask> {
    var i := IndexOf(tasks, task.id);
    if i < |tasks| then tasks[i := task] else tasks + [task]
  }

  predicate Claimable(t: QTask, cutoff: real) {
    t.status == Pending || (t.status == Leased && t.leasedAt < cutoff)
  }

  /** The claimable task with the least creation time, the first of several; the length when
      nothing is claimable. */
  function Oldest(tasks: seq<QTask>, cutoff: real): (i: nat)
    ensures i <= |tasks|
    ensures i < |tasks| ==> Claimable(tasks[i], cutoff)
    ensures forall j | 0 <= j < |tasks| && Claimable(tasks[j], cutoff) ::
              i < |tasks| && tasks[i].createdAt <= tasks[j].createdAt &&
              (j < i ==> tasks[i].createdAt < tasks[j].createdAt)
  {
    if |tasks| == 0 then 0
    else
      var rest := 1 + Oldest(tasks[1..], cutoff);
      if Claimable(tasks[0], cutoff) && (rest == |tasks| || tasks[0].createdAt <= tasks[rest].createdAt) then 0
      else rest
  }

  function NewTask(id: string, op: string, args: map<string, string>, note: string, at: real): QTask {
    QTask(id, op, args, note, Pending, at, 0.0, false, map[], "")
  }

  function Lease(t: QTask, worker: string, at: real): QTask {
    t.(status := Leased, worker := worker, leasedAt := at)
  }

  function Finish(t: QTask, worker: string, ok: bool, fields: map<string, string>, note: string): QTask {
    t.(status := Done, ok := ok, result := fields, worker := worker, note := note)
  }

  function Recorded(t: QTask): TaskResult {
    TaskResult(t.id, t.worker, t.ok, t.result, t.note)
  }

  function ResultFor(tasks: seq<QTask>, id: string): Option<TaskResult> {
    var t := Lookup(tasks, id);
    if t.None? || t.value.status != Done then None else Some(Recorded(t.value))
  }

  function InsertByAge(t: QTask, sorted: seq<QTask>): seq<QTask> {
    if |sorted| == 0 || t.createdAt <= sorted[0].createdAt then [t] + sorted
    else [sorted[0]] + InsertByAge(t, sorted[1..])
  }

  /** Unfinished tasks, oldest first; ties in dict order. */
  function Unfinished(tasks: seq<QTask>): seq<QTask> {
    if |tasks| == 0 then []
    else if tasks[0].status == Done then Unfinished(tasks[1..])
    else InsertByAge(tasks[0], Unfinished(tasks[1..]))
  }

  function Ids(tasks: seq<QTask>): seq<string> {
    if |tasks| == 0 then [] else [tasks[0].id] + Ids(tasks[1..])
  }

  function Count(tasks: seq<QTask>, status: Status): nat {
    if |tasks| == 0 then 0 else (if tasks[0].status == status then 1 else 0) + Count(tasks[1..], status)
  }

  /** By age, and tasks of one age in the order of the dict. */
  ghost predicate ComesBefore(tasks: seq<QTask>, s: QTask, t: QTask) {
    s.createdAt < t.createdAt ||
    (s.createdAt == t.createdAt && exists i, j | 0 <= i < j < |tasks| :: tasks[i] == s && tasks[j] == t)
  }

  ghost predicate InDictOrder(tasks: seq<QTask>, listed: seq<QTask>) {
    forall a, b | 0 <= a < b < |listed| :: ComesBefore(tasks, listed[a], listed[b])
  }

  lemma {:induction false} InsertKeepsDictOrder(tasks: seq<QTask>, listed: seq<QTask>)
    requires |tasks| > 0 && InDictOrder(tasks, listed) && forall t | t in listed :: t in tasks[1..]
    ensures InDictOrder(tasks, InsertByAge(tasks[0], listed))
    ensures forall t :: t in InsertByAge(tasks[0], listed) <==> t == tasks[0] || t in listed
    decreases |listed|
  {
    var first := tasks[0];
    var r := InsertByAge(first, listed);
    if |listed| == 0 || first.createdAt <= listed[0].createdAt {
      forall b | 0 < b < |r| ensures ComesBefore(tasks, r[0], r[b]) {
        assert r[b] == listed[b - 1] && r[b] in listed;
        assert b == 1 || ComesBefore(tasks, listed[0], listed[b - 1]);
        var j :| 0 <= j < |tasks| - 1 && tasks[1..][j] == r[b];
        assert tasks[0] == first && tasks[j + 1] == r[b];
      }
      forall a, b | 0 < a < b < |r| ensures ComesBefore(tasks, r[a], r[b]) {
        assert r[a] == listed[a - 1] && r[b] == listed[b - 1];
      }
    } else {
      var rest := InsertByAge(first, listed[1..]);
      InsertKeepsDictOrder(tasks, listed[1..]);
      assert listed == [listed[0]] + listed[1..];
      forall b | 0 < b < |r| ensures ComesBefore(tasks, r[0], r[b]) {
        assert r[b] == rest[b - 1] && rest[b - 1] in rest;
        if r[b] != first {
          var k :| 0 <= k < |listed| - 1 && listed[1..][k] == r[b];
          assert listed[k + 1] == r[b];
        }
      }
      forall a, b | 0 < a < b < |r| ensures ComesBefore(tasks, r[a], r[b]) {
        assert r[a] == rest[a - 1] && r[b] == rest[b - 1];
      }
    }
  }

  lemma LaterTasks(tasks: seq<QTask>, listed: seq<QTask>)
    requires |tasks| > 0 && InDictOrder(tasks[1..], listed)
    ensures InDictOrder(tasks, listed)
  {
    forall a, b | 0 <= a < b < |listed| ensures ComesBefore(tasks, listed[a], listed[b]) {
      assert ComesBefore(tasks[1..], listed[a], listed[b]);
      if listed[a].createdAt == listed[b].createdAt {
        var i, j :| 0 <= i < j < |tasks| - 1 && tasks[1..][i] == listed[a] && tasks[1..][j] == listed[b];
        assert tasks[i + 1] == listed[a] && tasks[j + 1] == listed[b];
      }
    }
  }

  /** The listing holds exactly the unfinished tasks, by age and then in the order they were put in. */
  lemma {:induction false} UnfinishedInOrder(tasks: seq<QTask>)
    ensures InDictOrder(tasks, Unfinished(tasks))
    ensures forall t :: t in Unfinished(tasks) <==> t in tasks && t.status != Done
  {
    if |tasks| > 0 {
      UnfinishedInOrder(tasks[1..]);
      LaterTasks(tasks, Unfinished(tasks[1..]));
      if tasks[0].status != Done { InsertKeepsDictOrder(tasks, Unfinished(tasks[1..])); }
      assert tasks == [tasks[0]] + tasks[1..];
    }
  }

  // ---------- operations and their answers ----------

  datatype Op =
    | Enqueue(id: string, op: string, args: map<string, string>, note: string, at: real)
    // the cutoff is computed from `checkedAt`, outside the lock; the lease starts at `at`
    | Claim(worker: string, lease: real, checkedAt: real, at: real)
    | Complete(id: string, worker: string, ok: bool, fields: map<string, string>, note: string, at: real)

  datatype Answer = Enqueued | Claimed(task: LeasedTask) | NothingToDo | Completed(first: bool) | DuplicateId

  function Exec(tasks: seq<QTask>, op: Op): (seq<QTask>, Answer) {
    match op
    case Enqueue(id, name, args, note, at) => (Put(tasks, NewTask(id, name, args, note, at)), Enqueued)
    case Claim(worker, lease, checkedAt, at) =>
      var i := Oldest(tasks, checkedAt - lease);
      if i == |tasks| then (tasks, NothingToDo)
      else
        (tasks[i := Lease(tasks[i], worker, at)],
         Claimed(LeasedTask(tasks[i].id, tasks[i].op, tasks[i].args, tasks[i].note, worker)))
    case Complete(id, worker, ok, fields, note, _) =>
      var i := IndexOf(tasks, id);
      if i == |tasks| || tasks[i].status == Done then (tasks, Completed(false))
      else (tasks[i := Finish(tasks[i], worker, ok, fields, note)], Completed(true))
  }

  // ---------- one operation, seen through one id ----------

  predicate Distinct(tasks: seq<QTask>) {
    forall i, j | 0 <= i < j < |tasks| :: tasks[i].id != tasks[j].id
  }

  lemma {:induction false} LookupAt(tasks: seq<QTask>, i: nat)
    requires Distinct(tasks) && i < |tasks|
    ensures Lookup(tasks, tasks[i].id) == Some(tasks[i]) && IndexOf(tasks, tasks[i].id) == i
  {
    var k := IndexOf(tasks, tasks[i].id);
    assert k <= i;
  }

  lemma LookupUpdate(tasks: seq<QTask>, i: nat, t: QTask, id: string)
    requires Distinct(tasks) && i < |tasks| && t.id == tasks[i].id
    ensures Distinct(tasks[i := t])
    ensures Lookup(tasks[i := t], id) == if id == t.id then Some(t) else Lookup(tasks, id)
  {
    var after := tasks[i := t];
    var k := IndexOf(tasks, id);
    if id == t.id {
      LookupAt(after, i);
    } else if k < |tasks| {
      LookupAt(after, k);
    }
  }

  lemma LookupAppend(tasks: seq<QTask>, t: QTask, id: string)
    requires Distinct(tasks) && Lookup(tasks, t.id).None?
    ensures Distinct(tasks + [t])
    ensures Lookup(tasks + [t], id) == if id == t.id then Some(t) else Lookup(tasks, id)
  {
    var after := tasks + [t];
    assert forall j | 0 <= j < |tasks| :: after[j] == tasks[j];
    var k := IndexOf(tasks, id);
    if id == t.id {
      LookupAt(after, |tasks|);
    } else if k < |tasks| {
      LookupAt(after, k);
    }
  }

  /** What an operation does to the task with one id. */
  function Effect(op: Op, answer: Answer, before: Option<QTask>, id: string): Option<QTask> {
    match op
    case Enqueue(i, name, args, note, at) => if i == id then Some(NewTask(i, name, args, note, at)) else before
    case Claim(worker, _, _, at) =>
      if answer.Claimed? && answer.task.id == id && before.Some? then Some(Lease(before.value, worker, at)) else before
    case Complete(i, worker, ok, fields, note, _) =>
      if i == id && answer == Completed(true) && before.Some? then
        Some(Finish(before.value, worker, ok, fields, note))
      else before
  }

  lemma ExecEffect(tasks: seq<QTask>, op: Op, id: string)
    requires Distinct(tasks)
    ensures var (after, answer) := Exec(tasks, op);
            Distinct(after) && Lookup(after, id) == Effect(op, answer, Lookup(tasks, id), id)
  {
    var (after, answer) := Exec(tasks, op);
    match op
    case Enqueue(i, name, args, note, at) =>
      var t := NewTask(i, name, args, note, at);
      var k := IndexOf(tasks, i);
      if k < |tasks| { LookupUpdate(tasks, k, t, id); } else { LookupAppend(tasks, t, id); }
    case Claim(worker, lease, checkedAt, at) =>
      var k := Oldest(tasks, checkedAt - lease);
      if k < |tasks| {
        LookupAt(tasks, k);
        LookupUpdate(tasks, k, Lease(tasks[k], worker, at), id);
      }
    case Complete(i, worker, ok, fields, note, _) =>
      var k := IndexOf(tasks, i);
      if k < |tasks| && tasks[k].status != Done {
        LookupUpdate(tasks, k, Finish(tasks[k], worker, ok, fields, note), id);
      }
  }

  /** A claim is handed a task that was pending, or whose lease had run out by the claimant's own
      lease length; a task that is done is never handed out. */
  lemma ClaimFacts(tasks: seq<QTask>, op: Op, id: string)
    requires Distinct(tasks) && op.Claim? && Exec(tasks, op).1.Claimed? && Exec(tasks, op).1.task.id == id
    ensures Lookup(tasks, id).Some? && Claimable(Lookup(tasks, id).value, op.checkedAt - op.lease)
    ensures var t := Lookup(tasks, id).value;
            Exec(tasks, op).1.task == LeasedTask(t.id, t.op, t.args, t.note, op.worker)
  {
    LookupAt(tasks, Oldest(tasks, op.checkedAt - op.lease));
  }

  /** One operation leaves a finished task's record alone. */
  lemma DoneStep(tasks: seq<QTask>, op: Op, id: string)
    requires Distinct(tasks) && Lookup(tasks, id).Some? && Lookup(tasks, id).value.status == Done
    requires !(op.Enqueue? && op.id == id)
    ensures Lookup(Exec(tasks, op).0, id) == Lookup(tasks, id)
    ensures Exec(tasks, op).1.Claimed? ==> Exec(tasks, op).1.task.id != id
    ensures op.Complete? && op.id == id ==> Exec(tasks, op).1 == Completed(false)
  {
    ExecEffect(tasks, op, id);
    if Exec(tasks, op).1.Claimed? && Exec(tasks, op).1.task.id == id {
      ClaimFacts(tasks, op, id);
    }
  }

  /** Only a completion that returns True makes a task done, and it records its own arguments. */
  lemma BecomesDone(tasks: seq<QTask>, op: Op, id: string)
    requires Distinct(tasks)
    requires ResultFor(tasks, id).None?
    ensures var (after, answer) := Exec(tasks, op);
            ResultFor(after, id) ==
              if op.Complete? && op.id == id && answer == Completed(true) then
                Some(TaskResult(id, op.worker, op.ok, op.fields, op.note))
              else None
  {
    ExecEffect(tasks, op, id);
  }

  /** A completion that returns True found the task there and unfinished. */
  lemma CompletedFacts(tasks: seq<QTask>, op: Op)
    requires Distinct(tasks) && op.Complete? && Exec(tasks, op).1 == Completed(true)
    ensures Lookup(tasks, op.id).Some? && ResultFor(tasks, op.id).None?
  {
  }

  /** The task was handed out, and its lease dates from `since` or later. */
  predicate HeldSince(t: Option<QTask>, since: real) {
    t.Some? && t.value.status != Pending && since <= t.value.leasedAt
  }

  lemma LeaseStep(tasks: seq<QTask>, op: Op, id: string, since: real)
    requires Distinct(tasks) && HeldSince(Lookup(tasks, id), since) && since <= op.at
    requires !(op.Enqueue? && op.id == id)
    ensures HeldSince(Lookup(Exec(tasks, op).0, id), since)
  {
    ExecEffect(tasks, op, id);
  }

  // ---------- the in-memory backend ----------

  class InMemoryTaskQueueBackend {
    var tasks: seq<QTask>   // the dict's values, in insertion order

    /** It is a dict: one task per id. */
    ghost predicate Valid()
      reads this
    {
      Distinct(tasks)
    }

    constructor ()
      ensures Valid() && tasks == []
    {
      tasks := [];
    }

    method Enqueue(id: string, op: string, args: map<string, string>, note: string, now: real) returns (r: string)
      requires Valid()
      modifies this
      ensures Valid()
      ensures tasks == Exec(old(tasks), Op.Enqueue(id, op, args, note, now)).0 && r == id
    {
      ExecEffect(tasks, Op.Enqueue(id, op, args, note, now), id);
      var task := NewTask(id, op, args, note, now);
      var i := IndexOf(tasks, id);
      if i < |tasks| { tasks := tasks[i := task]; } else { tasks := tasks + [task]; }
      r := id;
    }

    method Claim(worker: string, lease: real, checkedAt: real, now: real) returns (r: Option<LeasedTask>)
      requires Valid()
      modifies this
      ensures Valid()
      ensures (tasks, if r.Some? then Claimed(r.value) else NothingToDo)
           == Exec(old(tasks), Op.Claim(worker, lease, checkedAt, now))
    {
      var i := Oldest(tasks, checkedAt - lease);
      ExecEffect(tasks, Op.Claim(worker, lease, checkedAt, now), "");
      if i == |tasks| { return None; }
      var t := tasks[i];
      tasks := tasks[i := Lease(t, worker, now)];
      r := Some(LeasedTask(t.id, t.op, t.args, t.note, worker));
    }

    method Complete(id: string, worker: string, ok: bool, fields: map<string, string>, note: string)
      returns (first: bool)
      requires Valid()
      modifies this
      ensures Valid()
      ensures forall at :: (tasks, Completed(first)) == Exec(old(tasks), Op.Complete(id, worker, ok, fields, note, at))
    {
      var i := IndexOf(tasks, id);
      if i == |tasks| || tasks[i].status == Done { return false; }
      LookupUpdate(tasks, i, Finish(tasks[i], worker, ok, fields, note), id);
      tasks := tasks[i := Finish(tasks[i], worker, ok, fields, note)];
      first := true;
    }

    method Result(id: string) returns (r: Option<TaskResult>)
      ensures r == ResultFor(tasks, id)
    {
      r := ResultFor(tasks, id);
    }

    method Outstanding() returns (ids: seq<string>)
      ensures ids == Ids(Unfinished(tasks))
    {
      ids := Ids(Unfinished(tasks));
    }

    method PendingCount() returns (n: nat)
      ensures n == Count(tasks, Pending)
    {
      n := 0;
      var i := 0;
      while i < |tasks|
        invariant 0 <= i <= |tasks| && n + Count(tasks[i..], Pending) == Count(tasks, Pending)
      {
        assert tasks[i..][1..] == tasks[i + 1..];
        if tasks[i].status == Pending { n := n + 1; }
        i := i + 1;
      }
    }
  }

  // ---------- whole runs ----------

  /** The queue after the first `n` operations. */
  function After(ops: seq<Op>, n: nat): seq<QTask>
    requires n <= |ops|
  {
    if n == 0 then [] else Exec(After(ops, n - 1), ops[n - 1]).0
  }

  function AnswerAt(ops: seq<Op>, n: nat): Answer
    requires n < |ops|
  {
    Exec(After(ops, n), ops[n]).1
  }

  /** No id is enqueued twice among the first `n` operations. */
  predicate FreshBefore(ops: seq<Op>, n: nat)
    requires n <= |ops|
  {
    forall i, j | 0 <= i < j < n && ops[i].Enqueue? && ops[j].Enqueue? :: ops[i].id != ops[j].id
  }

  predicate FreshIds(ops: seq<Op>) {
    FreshBefore(ops, |ops|)
  }

  /** The id is not enqueued from `lo` up to `hi`. */
  predicate NotReused(ops: seq<Op>, id: string, lo: nat, hi: nat)
    requires hi <= |ops|
  {
    forall m | lo <= m < hi && ops[m].Enqueue? :: ops[m].id != id
  }

  /** The clock read inside the lock never goes back, and a claim's cutoff is no later than it. */
  predicate Timely(ops: seq<Op>) {
    (forall i, j | 0 <= i <= j < |ops| :: ops[i].at <= ops[j].at) &&
    forall i | 0 <= i < |ops| && ops[i].Claim? :: ops[i].checkedAt <= ops[i].at
  }

  lemma {:induction false} AfterIsDistinct(ops: seq<Op>, n: nat)
    requires n <= |ops|
    ensures Distinct(After(ops, n))
  {
    if n > 0 {
      AfterIsDistinct(ops, n - 1);
      ExecEffect(After(ops, n - 1), ops[n - 1], "");
    }
  }

  lemma NextEffect(ops: seq<Op>, n: nat, id: string)
    requires n < |ops|
    ensures Lookup(After(ops, n + 1), id) == Effect(ops[n], AnswerAt(ops, n), Lookup(After(ops, n), id), id)
  {
    AfterIsDistinct(ops, n);
    ExecEffect(After(ops, n), ops[n], id);
  }

  /** What is in the queue was enqueued. */
  lemma {:induction false} KnownWasEnqueued(ops: seq<Op>, n: nat, id: string) returns (k: nat)
    requires n <= |ops| && Lookup(After(ops, n), id).Some?
    ensures k < n && ops[k].Enqueue? && ops[k].id == id
  {
    NextEffect(ops, n - 1, id);
    if ops[n - 1].Enqueue? && ops[n - 1].id == id {
      k := n - 1;
    } else {
      k := KnownWasEnqueued(ops, n - 1, id);
    }
  }

  /** Where ids are fresh, one that is known is not enqueued any more. */
  lemma KnownIsNotReused(ops: seq<Op>, n: nat, id: string, hi: nat)
    requires n <= hi <= |ops| && FreshBefore(ops, hi) && Lookup(After(ops, n), id).Some?
    ensures NotReused(ops, id, n, hi)
  {
    var k := KnownWasEnqueued(ops, n, id);
  }

  // ---------- done stays done ----------

  predicate RecordedAt(ops: seq<Op>, n: nat, t: QTask)
    requires n <= |ops|
  {
    t.status == Done && Lookup(After(ops, n), t.id) == Some(t)
  }

  lemma DoneGoesOn(ops: seq<Op>, j: nat, t: QTask)
    requires 0 < j <= |ops| && NotReused(ops, t.id, j - 1, j) && RecordedAt(ops, j - 1, t)
    ensures RecordedAt(ops, j, t)
  {
    AfterIsDistinct(ops, j - 1);
    DoneStep(After(ops, j - 1), ops[j - 1], t.id);
  }

  /** Once done, a task's record does not change, whoever claims or completes what, until its own id is
      enqueued again. */
  lemma {:induction false} DoneIsForever(ops: seq<Op>, i: nat, j: nat, t: QTask)
    requires i <= j <= |ops| && NotReused(ops, t.id, i, j) && RecordedAt(ops, i, t)
    ensures RecordedAt(ops, j, t)
  {
    if i < j {
      DoneIsForever(ops, i, j - 1, t);
      DoneGoesOn(ops, j, t);
    }
  }

  /** The operation at `i` is a completion of the id that returned True. */
  predicate FinishedAt(ops: seq<Op>, i: nat, id: string) {
    i < |ops| && ops[i].Complete? && ops[i].id == id && AnswerAt(ops, i) == Completed(true)
  }

  lemma FinishRecords(ops: seq<Op>, i: nat, id: string) returns (t: QTask)
    requires FinishedAt(ops, i, id)
    ensures RecordedAt(ops, i + 1, t) && t.id == id
    ensures Recorded(t) == TaskResult(id, ops[i].worker, ops[i].ok, ops[i].fields, ops[i].note)
  {
    AfterIsDistinct(ops, i);
    CompletedFacts(After(ops, i), ops[i]);
    BecomesDone(After(ops, i), ops[i], id);
    t := Lookup(After(ops, i + 1), id).value;
  }

  lemma DoneRefuses(ops: seq<Op>, j: nat, t: QTask)
    requires j < |ops| && RecordedAt(ops, j, t)
    ensures ops[j].Complete? && ops[j].id == t.id ==> AnswerAt(ops, j) == Completed(false)
    ensures AnswerAt(ops, j).Claimed? ==> AnswerAt(ops, j).task.id != t.id
  {
    AfterIsDistinct(ops, j);
    if !ops[j].Enqueue? { DoneStep(After(ops, j), ops[j], t.id); }
  }

  /** A completion that returned True recorded exactly its own arguments. Until its id is enqueued again
      the result reads the same, completions of the id return False, and the task is not handed out. */
  lemma FirstCompletionWins(ops: seq<Op>, i: nat, j: nat)
    requires i < j <= |ops| && ops[i].Complete? && FinishedAt(ops, i, ops[i].id)
    requires NotReused(ops, ops[i].id, i + 1, j)
    ensures ResultFor(After(ops, j), ops[i].id)
         == Some(TaskResult(ops[i].id, ops[i].worker, ops[i].ok, ops[i].fields, ops[i].note))
    ensures j < |ops| && ops[j].Complete? && ops[j].id == ops[i].id ==> AnswerAt(ops, j) == Completed(false)
    ensures j < |ops| && AnswerAt(ops, j).Claimed? ==> AnswerAt(ops, j).task.id != ops[i].id
  {
    var t := FinishRecords(ops, i, ops[i].id);
    DoneIsForever(ops, i + 1, j, t);
    if j < |ops| { DoneRefuses(ops, j, t); }
  }

  /** Enqueueing an id, new or not, leaves it pending and without a result. */
  lemma EnqueuedIsPending(ops: seq<Op>, m: nat)
    requires m < |ops| && ops[m].Enqueue?
    ensures ResultFor(After(ops, m + 1), ops[m].id).None?
    ensures Lookup(After(ops, m + 1), ops[m].id) ==
              Some(NewTask(ops[m].id, ops[m].op, ops[m].args, ops[m].note, ops[m].at))
  {
    NextEffect(ops, m, ops[m].id);
  }

  /** The result of a completion that returned True stays exactly as long as the id is not enqueued
      again; reuse of other ids harms nothing. */
  lemma ResultStaysExactly(ops: seq<Op>, i: nat, n: nat)
    requires i < n <= |ops| && ops[i].Complete? && FinishedAt(ops, i, ops[i].id)
    ensures (forall j | i < j <= n :: ResultFor(After(ops, j), ops[i].id).Some?) <==>
            NotReused(ops, ops[i].id, i + 1, n)
  {
    if NotReused(ops, ops[i].id, i + 1, n) {
      forall j | i < j <= n ensures ResultFor(After(ops, j), ops[i].id).Some? { FirstCompletionWins(ops, i, j); }
    } else {
      var m :| i + 1 <= m < n && ops[m].Enqueue? && ops[m].id == ops[i].id;
      EnqueuedIsPending(ops, m);
    }
  }

  /** The last word on the id, before `n`, is a completion at `i` that returned True. */
  predicate FinishedSince(ops: seq<Op>, i: nat, n: nat, id: string)
    requires n <= |ops|
  {
    i < n && FinishedAt(ops, i, id) && NotReused(ops, id, i + 1, n)
  }

  lemma OnlyCompletionsRecord(tasks: seq<QTask>, op: Op, id: string)
    requires Distinct(tasks) && ResultFor(tasks, id).None? && ResultFor(Exec(tasks, op).0, id).Some?
    ensures op.Complete? && op.id == id && Exec(tasks, op).1 == Completed(true)
  {
    BecomesDone(tasks, op, id);
  }

  lemma ResultStarts(ops: seq<Op>, n: nat, tasks: seq<QTask>, id: string)
    requires 0 < n <= |ops| && tasks == After(ops, n - 1) && Distinct(tasks)
    requires ResultFor(tasks, id).None? && ResultFor(Exec(tasks, ops[n - 1]).0, id).Some?
    ensures FinishedAt(ops, n - 1, id)
  {
    OnlyCompletionsRecord(tasks, ops[n - 1], id);
  }

  lemma ResultStaysUnlessEnqueued(ops: seq<Op>, n: nat, id: string)
    requires 0 < n <= |ops| && ResultFor(After(ops, n), id).Some?
    ensures NotReused(ops, id, n - 1, n)
  {
    if ops[n - 1].Enqueue? && ops[n - 1].id == id { EnqueuedIsPending(ops, n - 1); }
  }

  lemma FinishedGoesOn(ops: seq<Op>, i: nat, m: nat, n: nat, id: string)
    requires m <= n <= |ops| && FinishedSince(ops, i, m, id) && NotReused(ops, id, m, n)
    ensures FinishedSince(ops, i, n, id)
  {
  }

  predicate HasResult(ops: seq<Op>, n: nat, id: string)
    requires n <= |ops|
  {
    ResultFor(After(ops, n), id).Some?
  }

  /** A result is from the operation before, or was there and its id was not enqueued by that. */
  lemma ResultIsFrom(ops: seq<Op>, m: nat, n: nat, id: string)
    requires m + 1 == n <= |ops| && HasResult(ops, n, id)
    ensures FinishedAt(ops, m, id) || (HasResult(ops, m, id) && NotReused(ops, id, m, n))
  {
    if HasResult(ops, m, id) {
      ResultStaysUnlessEnqueued(ops, n, id);
    } else {
      AfterIsDistinct(ops, m);
      ResultStarts(ops, n, After(ops, m), id);
    }
  }

  lemma {:induction false} HasResultWasFinished(ops: seq<Op>, n: nat, id: string) returns (i: nat)
    requires n <= |ops| && HasResult(ops, n, id)
    ensures FinishedSince(ops, i, n, id)
  {
    assert n > 0;
    ResultIsFrom(ops, n - 1, n, id);
    if FinishedAt(ops, n - 1, id) {
      i := n - 1;
    } else {
      i := HasResultWasFinished(ops, n - 1, id);
      FinishedGoesOn(ops, i, n - 1, n, id);
    }
  }

  /** A task has a result exactly when a completion of its id returned True after the id was last
      enqueued; between two such completions the id was enqueued again. */
  lemma DoneMeansCompletedOnce(ops: seq<Op>, n: nat, id: string)
    requires n <= |ops|
    ensures ResultFor(After(ops, n), id).Some? <==> exists i: nat :: FinishedSince(ops, i, n, id)
    ensures forall i: nat, j: nat | i < j && FinishedAt(ops, i, id) && FinishedAt(ops, j, id) ::
              !NotReused(ops, id, i + 1, j)
  {
    forall i: nat, j: nat | i < j && FinishedAt(ops, i, id) && FinishedAt(ops, j, id)
      ensures !NotReused(ops, id, i + 1, j)
    {
      if NotReused(ops, id, i + 1, j) { FirstCompletionWins(ops, i, j); }
    }
    if ResultFor(After(ops, n), id).Some? {
      var i := HasResultWasFinished(ops, n, id);
    }
    forall i: nat | FinishedSince(ops, i, n, id) ensures ResultFor(After(ops, n), id).Some? {
      FirstCompletionWins(ops, i, n);
    }
  }

  // ---------- leases ----------

  lemma ClaimLeases(tasks: seq<QTask>, op: Op, id: string)
    requires Distinct(tasks) && op.Claim? && Exec(tasks, op).1.Claimed? && Exec(tasks, op).1.task.id == id
    ensures HeldSince(Lookup(Exec(tasks, op).0, id), op.at)
  {
    ExecEffect(tasks, op, id);
    ClaimFacts(tasks, op, id);
  }

  predicate HeldAt(ops: seq<Op>, n: nat, id: string, since: real)
    requires n <= |ops|
  {
    HeldSince(Lookup(After(ops, n), id), since)
  }

  lemma HeldGoesOn(ops: seq<Op>, j: nat, id: string, since: real)
    requires 0 < j <= |ops| && NotReused(ops, id, j - 1, j) && since <= ops[j - 1].at && HeldAt(ops, j - 1, id, since)
    ensures HeldAt(ops, j, id, since)
  {
    AfterIsDistinct(ops, j - 1);
    LeaseStep(After(ops, j - 1), ops[j - 1], id, since);
  }

  predicate ClaimedAt(ops: seq<Op>, i: nat, id: string) {
    i < |ops| && AnswerAt(ops, i).Claimed? && AnswerAt(ops, i).task.id == id
  }

  lemma HeldStarts(ops: seq<Op>, i: nat, id: string)
    requires ClaimedAt(ops, i, id)
    ensures HeldAt(ops, i + 1, id, ops[i].at)
  {
    AfterIsDistinct(ops, i);
    ClaimLeases(After(ops, i), ops[i], id);
  }

  /** The lease a task carries is no older than the last claim of it. */
  lemma {:induction false} LeaseIsRemembered(ops: seq<Op>, i: nat, j: nat, id: string)
    requires Timely(ops) && i < j <= |ops| && ClaimedAt(ops, i, id) && NotReused(ops, id, i + 1, j)
    ensures HeldAt(ops, j, id, ops[i].at)
  {
    if j == i + 1 {
      HeldStarts(ops, i, id);
    } else {
      LeaseIsRemembered(ops, i, j - 1, id);
      HeldGoesOn(ops, j, id, ops[i].at);
    }
  }

  /** Two claims of one task, its id not enqueued again in between, are more than a lease apart: the lease
      length the later claimant passed, which is the holder's own where all use one. */
  lemma ClaimsAreALeaseApart(ops: seq<Op>, i: nat, j: nat, id: string)
    requires Timely(ops) && i < j && ClaimedAt(ops, i, id) && ClaimedAt(ops, j, id) && NotReused(ops, id, i + 1, j)
    ensures ops[j].Claim? && ops[j].at - ops[i].at > ops[j].lease
  {
    LeaseIsRemembered(ops, i, j, id);
    AfterIsDistinct(ops, j);
    ClaimFacts(After(ops, j), ops[j], id);
  }

  /** A task claimed with a lease of `h` is never handed to a claimant with a lease of `k` until more than
      `h` has passed. */
  ghost predicate KeepsLease(h: real, k: real) {
    forall ops: seq<Op>, i: nat, j: nat, id: string
      | FreshIds(ops) && Timely(ops) && i < j && Takes(ops, i, id, h) && Takes(ops, j, id, k) ::
      ops[j].at - ops[i].at > h
  }

  predicate Takes(ops: seq<Op>, i: nat, id: string, lease: real) {
    ClaimedAt(ops, i, id) && ops[i].Claim? && ops[i].lease == lease
  }

  /** A claimant with a shorter lease takes a task over while its holder's lease still stands. */
  lemma ShorterLeaseTakesOver(h: real, k: real) returns (ops: seq<Op>)
    requires 0.0 <= h && k < h
    ensures FreshIds(ops) && Timely(ops) && |ops| == 3 && Takes(ops, 1, "t", h) && Takes(ops, 2, "t", k)
    ensures ops[2].at - ops[1].at <= h
  {
    ops := [Enqueue("t", "op", map[], "", 0.0), Claim("a", h, 0.0, 0.0), Claim("b", k, h, h)];
    var t := NewTask("t", "op", map[], "", 0.0);
    assert After(ops, 1) == [t];
    assert Claimable([t][0], 0.0 - h);
    assert After(ops, 2) == [Lease(t, "a", 0.0)];
    assert Claimable([Lease(t, "a", 0.0)][0], h - k);
  }

  lemma LongerLeaseWaits(ops: seq<Op>, i: nat, j: nat, id: string, h: real, k: real)
    requires FreshIds(ops) && Timely(ops) && i < j && Takes(ops, i, id, h) && Takes(ops, j, id, k)
    requires k >= h || h < 0.0
    ensures ops[j].at - ops[i].at > h
  {
    HeldStarts(ops, i, id);
    KnownIsNotReused(ops, i + 1, id, j);
    ClaimsAreALeaseApart(ops, i, j, id);
  }

  /** Whatever the run, a holder's lease `h` stands against claimants with a lease of `k` exactly when `k`
      is no shorter (or `h` is negative, and nothing is promised). */
  lemma LeaseIsKeptExactly(h: real, k: real)
    ensures KeepsLease(h, k) <==> k >= h || h < 0.0
  {
    if k >= h || h < 0.0 {
      forall ops: seq<Op>, i: nat, j: nat, id: string
        | FreshIds(ops) && Timely(ops) && i < j && Takes(ops, i, id, h) && Takes(ops, j, id, k)
        ensures ops[j].at - ops[i].at > h
      {
        LongerLeaseWaits(ops, i, j, id, h, k);
      }
    } else {
      var ops := ShorterLeaseTakesOver(h, k);
      assert Takes(ops, 1, "t", h) && Takes(ops, 2, "t", k);
    }
  }

  // ---------- nothing is lost ----------

  function EnqueuedIds(ops: seq<Op>, n: nat): set<string>
    requires n <= |ops|
  {
    if n == 0 then {} else EnqueuedIds(ops, n - 1) + if ops[n - 1].Enqueue? then {ops[n - 1].id} else {}
  }

  function Enqueues(ops: seq<Op>, n: nat): nat
    requires n <= |ops|
  {
    if n == 0 then 0 else Enqueues(ops, n - 1) + if ops[n - 1].Enqueue? then 1 else 0
  }

  lemma {:induction false} StatusesAddUp(tasks: seq<QTask>)
    ensures Count(tasks, Pending) + Count(tasks, Leased) + Count(tasks, Done) == |tasks|
  {
    if |tasks| > 0 { StatusesAddUp(tasks[1..]); }
  }

  /** The queue holds one task for each of the ids. */
  ghost predicate Holds(tasks: seq<QTask>, ids: set<string>) {
    Distinct(tasks) && |tasks| == |ids| && forall id :: id in ids <==> Lookup(tasks, id).Some?
  }

  lemma LengthStep(tasks: seq<QTask>, op: Op)
    ensures |Exec(tasks, op).0| == |tasks| + if op.Enqueue? && Lookup(tasks, op.id).None? then 1 else 0
  {
  }

  lemma KnownStep(tasks: seq<QTask>, op: Op, id: string)
    requires Distinct(tasks)
    ensures Distinct(Exec(tasks, op).0)
    ensures Lookup(Exec(tasks, op).0, id).Some? <==> Lookup(tasks, id).Some? || (op.Enqueue? && op.id == id)
  {
    ExecEffect(tasks, op, id);
  }

  lemma HoldStep(tasks: seq<QTask>, ids: set<string>, op: Op)
    requires Holds(tasks, ids)
    ensures Holds(Exec(tasks, op).0, ids + if op.Enqueue? then {op.id} else {})
  {
    var after := Exec(tasks, op).0;
    var more := ids + if op.Enqueue? then {op.id} else {};
    LengthStep(tasks, op);
    KnownStep(tasks, op, "");
    forall id ensures id in more <==> Lookup(after, id).Some? { KnownStep(tasks, op, id); }
    if op.Enqueue? && op.id in ids { assert more == ids; }
  }

  lemma HoldGoesOn(ops: seq<Op>, n: nat)
    requires 0 < n <= |ops| && Holds(After(ops, n - 1), EnqueuedIds(ops, n - 1))
    ensures Holds(After(ops, n), EnqueuedIds(ops, n))
  {
    HoldStep(After(ops, n - 1), EnqueuedIds(ops, n - 1), ops[n - 1]);
    assert EnqueuedIds(ops, n) == EnqueuedIds(ops, n - 1) + if ops[n - 1].Enqueue? then {ops[n - 1].id} else {};
  }

  lemma {:induction false} OneTaskPerId(ops: seq<Op>, n: nat)
    requires n <= |ops|
    ensures Holds(After(ops, n), EnqueuedIds(ops, n))
  {
    if n > 0 {
      OneTaskPerId(ops, n - 1);
      HoldGoesOn(ops, n);
    }
  }

  lemma {:induction false} FreshEnqueuesCount(ops: seq<Op>, n: nat)
    requires n <= |ops| && FreshBefore(ops, n)
    ensures |EnqueuedIds(ops, n)| == Enqueues(ops, n)
    ensures forall id | id in EnqueuedIds(ops, n) :: exists k | 0 <= k < n :: ops[k].Enqueue? && ops[k].id == id
  {
    if n > 0 { FreshEnqueuesCount(ops, n - 1); }
  }

  /** Nothing is lost or made up: pending, leased and done tasks together are the ids enqueued, which are
      as many as the enqueues where ids are fresh. */
  lemma Conservation(ops: seq<Op>, n: nat)
    requires n <= |ops|
    ensures var tasks := After(ops, n);
            Count(tasks, Pending) + Count(tasks, Leased) + Count(tasks, Done) == |EnqueuedIds(ops, n)|
    ensures FreshBefore(ops, n) ==> |EnqueuedIds(ops, n)| == Enqueues(ops, n)
  {
    StatusesAddUp(After(ops, n));
    OneTaskPerId(ops, n);
    if FreshBefore(ops, n) { FreshEnqueuesCount(ops, n); }
  }
}
