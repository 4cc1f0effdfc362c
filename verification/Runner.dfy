/** The loop around a queue worker: claim, dispatch, complete, until stopped or idle. */
module Runner {
  import opened Options
  import opened Orchestration
  import opened TaskQueue

  /** What a handler does with a claimed task: its fields, or the type name of what it raised. */
  type QueueHandler = LeasedTask -> Result<map<string, string>, string>

  /** How a claimed task is completed. */
  function Verdict(handlers: map<string, QueueHandler>, t: LeasedTask): TaskResult {
    if t.op !in handlers then TaskResult(t.id, t.worker, false, map[], "no handler")
    else
      match handlers[t.op](t)
      case Ok(fields) => TaskResult(t.id, t.worker, true, fields, "")
      case Err(name) => TaskResult(t.id, t.worker, false, map[], name)
  }

  /** The task is now done, with its handler's fields or its failure as its record. */
  ghost predicate Served(was: QTask, now: QTask, worker: string, handlers: map<string, QueueHandler>) {
    was.status != Done && now.status == Done && now.createdAt == was.createdAt &&
    Recorded(now) == Verdict(handlers, LeasedTask(was.id, was.op, was.args, was.note, worker))
  }

  /** What is recorded: the fields the handler of the operation returned for this very task, or its failure
      under the name of what it raised, or that nobody handles it. */
  lemma ServedRecords(was: QTask, now: QTask, worker: string, handlers: map<string, QueueHandler>)
    requires Served(was, now, worker, handlers)
    ensures now.id == was.id && now.worker == worker
    ensures was.op !in handlers ==> !now.ok && now.note == "no handler" && now.result == map[]
    ensures was.op in handlers ==>
              var r := handlers[was.op](LeasedTask(was.id, was.op, was.args, was.note, worker));
              (now.ok <==> r.Ok?) && (r.Ok? ==> now.result == r.value && now.note == "") &&
              (r.Err? ==> now.result == map[] && now.note == r.error)
  {
  }

  /** Every task is as it was, or was served. */
  ghost predicate Progress(before: seq<QTask>, after: seq<QTask>, worker: string, handlers: map<string, QueueHandler>) {
    |after| == |before| &&
    forall i | 0 <= i < |before| :: after[i] == before[i] || Served(before[i], after[i], worker, handlers)
  }

  lemma {:induction false} OneMoreDone(tasks: seq<QTask>, i: nat, t: QTask)
    requires i < |tasks| && tasks[i].status != Done && t.status == Done
    ensures Count(tasks[i := t], Done) == Count(tasks, Done) + 1
  {
    if i > 0 {
      OneMoreDone(tasks[1..], i - 1, t);
      assert tasks[i := t][1..] == tasks[1..][i - 1 := t];
    } else {
      assert tasks[i := t][1..] == tasks[1..];
    }
  }

  lemma {:induction false} DoneAtMostAll(tasks: seq<QTask>)
    ensures Count(tasks, Done) <= |tasks|
  {
    if |tasks| > 0 { DoneAtMostAll(tasks[1..]); }
  }

  /** Claiming and then completing serves one task and leaves the others alone. */
  lemma {:induction false} PassServesOne(tasks: seq<QTask>, claim: Op, complete: Op, handlers: map<string, QueueHandler>)
    requires Distinct(tasks) && claim.Claim? && complete.Complete?
    requires var answer := Exec(tasks, claim).1;
             answer.Claimed? &&
             var v := Verdict(handlers, answer.task);
             complete == Op.Complete(v.taskId, v.worker, v.ok, v.fields, v.note, complete.at)
    ensures var i := Oldest(tasks, claim.checkedAt - claim.lease);
            var after := Exec(Exec(tasks, claim).0, complete).0;
            i < |tasks| && |after| == |tasks| && after == tasks[i := after[i]] &&
            Served(tasks[i], after[i], claim.worker, handlers)
  {
    var i := Oldest(tasks, claim.checkedAt - claim.lease);
    var leased := Exec(tasks, claim).0;
    ExecEffect(tasks, claim, "");
    LookupAt(leased, i);
  }

  /** One more task served on top of what was served before. */
  lemma ProgressStep(before: seq<QTask>, mid: seq<QTask>, i: nat, t: QTask, worker: string,
                     handlers: map<string, QueueHandler>)
    requires Progress(before, mid, worker, handlers) && i < |mid| && Served(mid[i], t, worker, handlers)
    ensures Progress(before, mid[i := t], worker, handlers)
    ensures Count(mid[i := t], Done) == Count(mid, Done) + 1 <= |mid|
  {
    OneMoreDone(mid, i, t);
    DoneAtMostAll(mid[i := t]);
  }

  predicate NothingClaimable(tasks: seq<QTask>, cutoff: real) {
    forall i | 0 <= i < |tasks| :: !Claimable(tasks[i], cutoff)
  }

  /** One claim, and if it got a task, its run and completion. */
  method ServeNext(queue: InMemoryTaskQueueBackend, worker: string, handlers: map<string, QueueHandler>,
                   lease: real, checkedAt: real, at: real)
    returns (worked: bool)
    requires queue.Valid()
    modifies queue
    ensures queue.Valid()
    ensures !worked ==> queue.tasks == old(queue.tasks) && NothingClaimable(queue.tasks, checkedAt - lease)
    ensures worked ==> Progress(old(queue.tasks), queue.tasks, worker, handlers) &&
                       Count(queue.tasks, Done) == old(Count(queue.tasks, Done)) + 1 <= |queue.tasks|
    ensures worked ==> forall before | Progress(before, old(queue.tasks), worker, handlers) ::
                         Progress(before, queue.tasks, worker, handlers)
  {
    ghost var tasks := queue.tasks;
    ghost var claim := Op.Claim(worker, lease, checkedAt, at);
    var task := queue.Claim(worker, lease, checkedAt, at);
    if task.None? { return false; }
    var v := Verdict(handlers, task.value);
    ghost var complete := Op.Complete(v.taskId, v.worker, v.ok, v.fields, v.note, at);
    PassServesOne(tasks, claim, complete, handlers);
    var first := queue.Complete(v.taskId, v.worker, v.ok, v.fields, v.note);
    ghost var i := Oldest(tasks, checkedAt - lease);
    forall before | Progress(before, tasks, worker, handlers) ensures Progress(before, queue.tasks, worker, handlers) {
      ProgressStep(before, tasks, i, queue.tasks[i], worker, handlers);
    }
    assert Progress(tasks, tasks, worker, handlers);
    ProgressStep(tasks, tasks, i, queue.tasks[i], worker, handlers);
    worked := true;
  }

  /** The worker loop. The clock is read twice by each claim; `stop` is asked before each. With
      neither `stop` nor `maxIdle`, the first idle round ends it; with `stop` alone, it ends
      because `stop` says so some time. It returns how many tasks became done, each with its
      handler's fields or its failure; unless stopped, its last claim found nothing claimable. */
  method ServeQueue(queue: InMemoryTaskQueueBackend, worker: string, handlers: map<string, QueueHandler>,
                    stop: Option<nat -> bool>, lease: real, maxIdle: Option<int>, clock: nat -> real, ghost stopsAt: nat)
    returns (completed: nat, ghost rounds: nat)
    requires queue.Valid()
    requires stop.Some? && maxIdle.None? ==> stop.value(stopsAt)
    modifies queue
    ensures queue.Valid() && Progress(old(queue.tasks), queue.tasks, worker, handlers)
    ensures completed == Count(queue.tasks, Done) - old(Count(queue.tasks, Done))
    ensures (stop.Some? && stop.value(rounds)) ||
            (rounds > 0 && NothingClaimable(queue.tasks, clock(2 * rounds - 2) - lease))
    ensures stop.None? && maxIdle.None? ==> rounds == completed + 1
  {
    completed := 0;
    var idle := 0;
    var round := 0;
    DoneAtMostAll(queue.tasks);
    while true
      invariant queue.Valid() && Progress(old(queue.tasks), queue.tasks, worker, handlers)
      invariant completed == Count(queue.tasks, Done) - old(Count(queue.tasks, Done))
      invariant Count(queue.tasks, Done) <= |queue.tasks|
      invariant maxIdle.Some? && idle > 0 ==> idle < maxIdle.value
      invariant stop.Some? && maxIdle.None? ==> round <= stopsAt
      invariant stop.None? && maxIdle.None? ==> idle == 0 && round == completed
      decreases if stop.Some? && maxIdle.None? then stopsAt - round else |queue.tasks| - Count(queue.tasks, Done),
                if maxIdle.Some? then maxIdle.value - idle else 0
    {
      if stop.Some? && stop.value(round) { return completed, round; }
      var worked := ServeNext(queue, worker, handlers, lease, clock(2 * round), clock(2 * round + 1));
      round := round + 1;
      if worked {
        idle, completed := 0, completed + 1;
      } else {
        idle := idle + 1;
        if maxIdle.Some? && idle >= maxIdle.value { return completed, round; }
        if stop.None? && maxIdle.None? { return completed, round; }
      }
    }
  }

  /** What a drained queue still holds was leased before the run, under leases that still stand. */
  lemma DrainedLeavesOnlyLeases(before: seq<QTask>, after: seq<QTask>, worker: string,
                                handlers: map<string, QueueHandler>, cutoff: real, i: nat)
    requires Progress(before, after, worker, handlers) && NothingClaimable(after, cutoff) && i < |after|
    ensures after[i].status != Done ==>
              after[i] == before[i] && before[i].status == Leased && before[i].leasedAt >= cutoff
    ensures after[i].status == Done && before[i].status != Done ==> Served(before[i], after[i], worker, handlers)
  {
  }
}
