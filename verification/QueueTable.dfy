/** The table backend of the task queue, and its agreement with the in-memory one on every
    sequence of operations. */
module QueueTable {
  import opened Options
  import opened Orchestration
  import opened TaskQueue

  /** A row apart from its primary key; the columns a statement has not set yet are NULL. */
  datatype Row = Row(
    op: string, args: map<string, string>, note: string, status: Status, createdAt: real,
    leasedBy: Option<string>, leasedAt: Option<real>,
    ok: Option<bool>, result: Option<map<string, string>>, worker: Option<string>)

  type Table = map<string, Row>

  function NewRow(op: string, args: map<string, string>, note: string, at: real): Row {
    Row(op, args, note, Pending, at, None, None, None, None, None)
  }

  /** `status = 'pending' OR (status = 'leased' AND leased_at < cutoff)`; NULL compares false. */
  predicate ReadyRow(r: Row, cutoff: real) {
    r.status == Pending || (r.status == Leased && r.leasedAt.Some? && r.leasedAt.value < cutoff)
  }

  function Ready(rows: Table, cutoff: real): set<string> {
    set id | id in rows && ReadyRow(rows[id], cutoff)
  }

  function Open(rows: Table): set<string> {
    set id | id in rows && rows[id].status != Done
  }

  function PendingIds(rows: Table): set<string> {
    set id | id in rows && rows[id].status == Pending
  }

  /** `ORDER BY created_at LIMIT 1`: any of the oldest. */
  predicate IsFirst(rows: Table, among: set<string>, id: string)
    requires among <= rows.Keys
  {
    id in among && forall j | j in among :: rows[id].createdAt <= rows[j].createdAt
  }

  lemma {:induction false} FirstExists(rows: Table, among: set<string>) returns (id: string)
    requires among <= rows.Keys && among != {}
    ensures IsFirst(rows, among, id)
    decreases |among|
  {
    id :| id in among;
    if among != {id} {
      var other := FirstExists(rows, among - {id});
      if rows[other].createdAt < rows[id].createdAt { id := other; }
    }
  }

  function RowResult(rows: Table, id: string): Option<TaskResult> {
    if id !in rows || rows[id].status != Done then None
    else
      var r := rows[id];
      Some(TaskResult(id, if r.worker.Some? then r.worker.value else "", r.ok == Some(true),
                      if r.result.Some? then r.result.value else map[], r.note))
  }

  function CreatedAt(rows: Table, id: string): real {
    if id in rows then rows[id].createdAt else 0.0
  }

  /** What `SELECT id ... WHERE status != 'done' ORDER BY created_at` may return. */
  ghost predicate IsListing(rows: Table, ids: seq<string>) {
    (forall id :: id in ids <==> id in Open(rows)) &&
    forall a, b | 0 <= a < b < |ids| :: ids[a] != ids[b] && CreatedAt(rows, ids[a]) <= CreatedAt(rows, ids[b])
  }

  /** One call on the table: inserting an id that is there violates the primary key. */
  ghost predicate Executes(rows: Table, op: Op, after: Table, answer: Answer) {
    match op
    case Enqueue(id, name, args, note, at) =>
      if id in rows then after == rows && answer == DuplicateId
      else after == rows[id := NewRow(name, args, note, at)] && answer == Enqueued
    case Claim(worker, lease, checkedAt, at) =>
      var ready := Ready(rows, checkedAt - lease);
      if ready == {} then after == rows && answer == NothingToDo
      else
        answer.Claimed? && IsFirst(rows, ready, answer.task.id) &&
        var id := answer.task.id;
        answer.task == LeasedTask(id, rows[id].op, rows[id].args, rows[id].note, worker) &&
        after == rows[id := rows[id].(status := Leased, leasedBy := Some(worker), leasedAt := Some(at))]
    case Complete(id, worker, ok, fields, note, _) =>
      if id !in rows || rows[id].status == Done then after == rows && answer == Completed(false)
      else
        answer == Completed(true) &&
        after == rows[id := rows[id].(status := Done, ok := Some(ok), result := Some(fields),
                                      worker := Some(worker), note := note)]
  }

  class SqliteTaskQueueBackend {
    var rows: Table

    constructor ()
      ensures rows == map[]
    {
      rows := map[];
    }

    method Enqueue(id: string, op: string, args: map<string, string>, note: string, now: real)
      returns (answer: Answer)
      modifies this
      ensures Executes(old(rows), Op.Enqueue(id, op, args, note, now), rows, answer)
    {
      if id in rows { return DuplicateId; }
      rows := rows[id := NewRow(op, args, note, now)];
      answer := Enqueued;
    }

    method Claim(worker: string, lease: real, checkedAt: real, now: real) returns (r: Option<LeasedTask>)
      modifies this
      ensures Executes(old(rows), Op.Claim(worker, lease, checkedAt, now), rows,
                       if r.Some? then Claimed(r.value) else NothingToDo)
    {
      var ready := Ready(rows, checkedAt - lease);
      if ready == {} { return None; }
      ghost var first := FirstExists(rows, ready);
      var id :| id in ready && IsFirst(rows, ready, id);
      var row := rows[id];
      rows := rows[id := row.(status := Leased, leasedBy := Some(worker), leasedAt := Some(now))];
      r := Some(LeasedTask(id, row.op, row.args, row.note, worker));
    }

    method Complete(id: string, worker: string, ok: bool, fields: map<string, string>, note: string)
      returns (first: bool)
      modifies this
      ensures forall at :: Executes(old(rows), Op.Complete(id, worker, ok, fields, note, at), rows, Completed(first))
    {
      if id !in rows || rows[id].status == Done { return false; }
      rows := rows[id := rows[id].(status := Done, ok := Some(ok), result := Some(fields),
                                   worker := Some(worker), note := note)];
      first := true;
    }

    method Result(id: string) returns (r: Option<TaskResult>)
      ensures r == RowResult(rows, id)
    {
      r := RowResult(rows, id);
    }

    method Outstanding() returns (ids: seq<string>)
      ensures IsListing(rows, ids)
    {
      ids := [];
      var left := Open(rows);
      while left != {}
        invariant left <= Open(rows)
        invariant forall id :: id in ids <==> id in Open(rows) - left
        invariant forall a, b | 0 <= a < b < |ids| ::
                    ids[a] != ids[b] && CreatedAt(rows, ids[a]) <= CreatedAt(rows, ids[b])
        invariant forall a, id | 0 <= a < |ids| && id in left :: CreatedAt(rows, ids[a]) <= CreatedAt(rows, id)
        decreases left
      {
        ghost var first := FirstExists(rows, left);
        var id :| id in left && IsFirst(rows, left, id);
        assert forall a | 0 <= a < |ids| :: ids[a] in ids;
        assert left <= rows.Keys && IsFirst(rows, left, id);
        assert forall j | j in left :: CreatedAt(rows, id) <= CreatedAt(rows, j);
        ids, left := ids + [id], left - {id};
      }
    }

    method PendingCount() returns (n: nat)
      ensures n == |PendingIds(rows)|
    {
      n := |PendingIds(rows)|;
    }
  }

  // ---------- the two forms side by side ----------

  /** The columns and the fields that matter in each status agree; a lease's holder is kept in
      different places and read by nobody. */
  predicate Matches(t: QTask, r: Row) {
    r.op == t.op && r.args == t.args && r.note == t.note && r.status == t.status && r.createdAt == t.createdAt &&
    (t.status == Leased ==> r.leasedAt == Some(t.leasedAt)) &&
    (t.status == Done ==> r.ok == Some(t.ok) && r.result == Some(t.result) && r.worker == Some(t.worker))
  }

  predicate MatchesAt(tasks: seq<QTask>, rows: Table, id: string) {
    var t := Lookup(tasks, id);
    (id in rows <==> t.Some?) && (id in rows ==> Matches(t.value, rows[id]))
  }

  ghost predicate Same(tasks: seq<QTask>, rows: Table) {
    Distinct(tasks) && forall id :: MatchesAt(tasks, rows, id)
  }

  predicate Increasing(tasks: seq<QTask>) {
    forall i, j | 0 <= i < j < |tasks| :: tasks[i].createdAt < tasks[j].createdAt
  }

  /** Both forms hand out the same task: with distinct creation times there is one oldest. */
  lemma SameOldest(tasks: seq<QTask>, rows: Table, cutoff: real)
    requires Same(tasks, rows) && Increasing(tasks)
    ensures var i := Oldest(tasks, cutoff);
            if i == |tasks| then Ready(rows, cutoff) == {}
            else tasks[i].id in Ready(rows, cutoff) &&
                 forall id | IsFirst(rows, Ready(rows, cutoff), id) :: id == tasks[i].id
  {
    var i := Oldest(tasks, cutoff);
    if i < |tasks| { LookupAt(tasks, i); assert MatchesAt(tasks, rows, tasks[i].id); }
    forall id | id in Ready(rows, cutoff)
      ensures IndexOf(tasks, id) < |tasks| && Claimable(tasks[IndexOf(tasks, id)], cutoff)
      ensures rows[id].createdAt == tasks[IndexOf(tasks, id)].createdAt
    {
      assert MatchesAt(tasks, rows, id);
    }
  }

  /** Where the answers agree, an operation does the same to each id in both forms. */
  lemma EffectsMatch(tasks: seq<QTask>, rows: Table, op: Op, after: Table, id: string)
    requires Distinct(tasks) && MatchesAt(tasks, rows, id)
    requires Executes(rows, op, after, Exec(tasks, op).1)
    ensures MatchesAt(Exec(tasks, op).0, after, id)
  {
    ExecEffect(tasks, op, id);
  }

  lemma SameClaim(tasks: seq<QTask>, rows: Table, op: Op, after: Table, answer: Answer)
    requires Same(tasks, rows) && Increasing(tasks) && op.Claim? && Executes(rows, op, after, answer)
    ensures answer == Exec(tasks, op).1
  {
    SameOldest(tasks, rows, op.checkedAt - op.lease);
    var i := Oldest(tasks, op.checkedAt - op.lease);
    if i < |tasks| {
      LookupAt(tasks, i);
      assert MatchesAt(tasks, rows, tasks[i].id);
    }
  }

  lemma SameCompletion(tasks: seq<QTask>, rows: Table, op: Op, after: Table, answer: Answer)
    requires Same(tasks, rows) && op.Complete? && Executes(rows, op, after, answer)
    ensures answer == Exec(tasks, op).1
  {
    assert MatchesAt(tasks, rows, op.id);
  }

  lemma SameAnswer(tasks: seq<QTask>, rows: Table, op: Op, after: Table, answer: Answer)
    requires Same(tasks, rows) && Increasing(tasks) && Executes(rows, op, after, answer)
    requires op.Enqueue? ==> op.id !in rows
    ensures answer == Exec(tasks, op).1
  {
    match op
    case Enqueue(_, _, _, _, _) =>
    case Claim(_, _, _, _) => SameClaim(tasks, rows, op, after, answer);
    case Complete(_, _, _, _, _, _) => SameCompletion(tasks, rows, op, after, answer);
  }

  /** No operation reorders the dict or touches a creation time; an enqueue of a new id adds at the
      end. */
  lemma OrderKept(tasks: seq<QTask>, op: Op)
    requires Increasing(tasks)
    requires op.Enqueue? ==> Lookup(tasks, op.id).None? && forall i | 0 <= i < |tasks| :: tasks[i].createdAt < op.at
    ensures Increasing(Exec(tasks, op).0)
    ensures forall i | 0 <= i < |Exec(tasks, op).0| ::
              if i < |tasks| then Exec(tasks, op).0[i].createdAt == tasks[i].createdAt
              else op.Enqueue? && Exec(tasks, op).0[i].createdAt == op.at
  {
  }

  // ---------- whole runs ----------

  predicate CreatedInOrder(ops: seq<Op>) {
    forall i, j | 0 <= i < j < |ops| && ops[i].Enqueue? && ops[j].Enqueue? :: ops[i].at < ops[j].at
  }

  ghost predicate IsTableRun(ops: seq<Op>, tables: seq<Table>, answers: seq<Answer>) {
    |tables| == |ops| + 1 && |answers| == |ops| && tables[0] == map[] &&
    forall i | 0 <= i < |ops| :: Executes(tables[i], ops[i], tables[i + 1], answers[i])
  }

  /** Everything in the queue is older than what is still to be enqueued. */
  predicate OlderThanRest(tasks: seq<QTask>, ops: seq<Op>, n: nat) {
    forall i, j | 0 <= i < |tasks| && n <= j < |ops| && ops[j].Enqueue? :: tasks[i].createdAt < ops[j].at
  }

  ghost predicate RunInv(ops: seq<Op>, tasks: seq<QTask>, rows: Table, n: nat) {
    Same(tasks, rows) && Increasing(tasks) && OlderThanRest(tasks, ops, n)
  }

  lemma StepAgrees(ops: seq<Op>, n: nat, tasks: seq<QTask>, rows: Table, after: Table, answer: Answer)
    requires CreatedInOrder(ops) && n < |ops| && RunInv(ops, tasks, rows, n)
    requires Executes(rows, ops[n], after, answer)
    requires ops[n].Enqueue? ==> ops[n].id !in rows
    ensures answer == Exec(tasks, ops[n]).1 && RunInv(ops, Exec(tasks, ops[n]).0, after, n + 1)
  {
    var op := ops[n];
    SameAnswer(tasks, rows, op, after, answer);
    if op.Enqueue? { assert MatchesAt(tasks, rows, op.id); }
    OrderKept(tasks, op);
    ExecEffect(tasks, op, "");
    forall id ensures MatchesAt(Exec(tasks, op).0, after, id) {
      EffectsMatch(tasks, rows, op, after, id);
    }
  }

  lemma EnqueuedIsNew(ops: seq<Op>, n: nat, rows: Table)
    requires n < |ops| && FreshBefore(ops, n + 1) && ops[n].Enqueue? && Same(After(ops, n), rows)
    ensures ops[n].id !in rows
  {
    assert MatchesAt(After(ops, n), rows, ops[n].id);
    if ops[n].id in rows { KnownIsNotReused(ops, n, ops[n].id, n + 1); }
  }

  lemma RunGoesOn(ops: seq<Op>, tables: seq<Table>, answers: seq<Answer>, m: nat, n: nat)
    requires CreatedInOrder(ops) && IsTableRun(ops, tables, answers) && m + 1 == n <= |ops| && FreshBefore(ops, n)
    requires RunInv(ops, After(ops, m), tables[m], m)
    ensures RunInv(ops, After(ops, n), tables[n], n)
  {
    if ops[m].Enqueue? { EnqueuedIsNew(ops, m, tables[m]); }
    StepAgrees(ops, m, After(ops, m), tables[m], tables[n], answers[m]);
  }

  lemma RunStarts(ops: seq<Op>, tables: seq<Table>, answers: seq<Answer>)
    requires IsTableRun(ops, tables, answers)
    ensures RunInv(ops, After(ops, 0), tables[0], 0)
  {
  }

  lemma {:induction false} RunsAgree(ops: seq<Op>, tables: seq<Table>, answers: seq<Answer>, n: nat)
    requires CreatedInOrder(ops) && IsTableRun(ops, tables, answers) && n <= |ops| && FreshBefore(ops, n)
    ensures RunInv(ops, After(ops, n), tables[n], n)
  {
    if n == 0 {
      RunStarts(ops, tables, answers);
    } else {
      RunsAgree(ops, tables, answers, n - 1);
      RunGoesOn(ops, tables, answers, n - 1, n);
    }
  }

  lemma AnswersAgree(ops: seq<Op>, tables: seq<Table>, answers: seq<Answer>, n: nat)
    requires CreatedInOrder(ops) && IsTableRun(ops, tables, answers) && n < |ops| && FreshBefore(ops, n + 1)
    ensures answers[n] == AnswerAt(ops, n)
  {
    RunsAgree(ops, tables, answers, n);
    if ops[n].Enqueue? { EnqueuedIsNew(ops, n, tables[n]); }
    StepAgrees(ops, n, After(ops, n), tables[n], tables[n + 1], answers[n]);
  }

  // ---------- what reads see ----------

  lemma SameResult(tasks: seq<QTask>, rows: Table, id: string)
    requires MatchesAt(tasks, rows, id)
    ensures RowResult(rows, id) == ResultFor(tasks, id)
  {
  }

  predicate IsOpen(tasks: seq<QTask>, id: string) {
    Lookup(tasks, id).Some? && Lookup(tasks, id).value.status != Done
  }

  function Born(tasks: seq<QTask>, id: string): real {
    if Lookup(tasks, id).Some? then Lookup(tasks, id).value.createdAt else 0.0
  }

  /** The unfinished ids by age. */
  ghost predicate ListsOpen(tasks: seq<QTask>, ids: seq<string>) {
    (forall id :: id in ids <==> IsOpen(tasks, id)) &&
    forall a, b | 0 <= a < b < |ids| :: Born(tasks, ids[a]) < Born(tasks, ids[b])
  }

  lemma LookupTail(tasks: seq<QTask>, id: string)
    requires |tasks| > 0 && id != tasks[0].id
    ensures Lookup(tasks, id) == Lookup(tasks[1..], id)
  {
  }

  lemma NotInTail(tasks: seq<QTask>)
    requires |tasks| > 0 && Distinct(tasks)
    ensures Lookup(tasks[1..], tasks[0].id).None?
  {
  }

  /** An already increasing queue is listed as it stands. */
  lemma {:induction false} UnfinishedHead(tasks: seq<QTask>)
    requires Increasing(tasks)
    ensures forall t | t in Unfinished(tasks) :: t in tasks
    ensures |tasks| > 0 && tasks[0].status != Done ==> Unfinished(tasks) == [tasks[0]] + Unfinished(tasks[1..])
  {
    if |tasks| > 0 {
      UnfinishedHead(tasks[1..]);
      assert forall t | t in tasks[1..] :: t in tasks;
      assert forall t | t in tasks[1..] :: tasks[0].createdAt < t.createdAt;
    }
  }

  /** The oldest unfinished task is listed first. */
  lemma ListsHead(tasks: seq<QTask>, ids: seq<string>)
    requires |tasks| > 0 && Distinct(tasks) && Increasing(tasks) && ListsOpen(tasks, ids) && tasks[0].status != Done
    ensures |ids| > 0 && ids[0] == tasks[0].id
  {
    assert IsOpen(tasks, tasks[0].id);
    var k := IndexOf(tasks, ids[0]);
    assert IsOpen(tasks, ids[0]);
  }

  lemma ListsTail(tasks: seq<QTask>, ids: seq<string>)
    requires |tasks| > 0 && Distinct(tasks) && Increasing(tasks) && ListsOpen(tasks, ids)
    ensures ListsOpen(tasks[1..], if tasks[0].status == Done then ids else if |ids| > 0 then ids[1..] else [])
  {
    var first := tasks[0].id;
    NotInTail(tasks);
    if tasks[0].status != Done { ListsHead(tasks, ids); }
    var rest := if tasks[0].status == Done then ids else if |ids| > 0 then ids[1..] else [];
    assert !IsOpen(tasks[1..], first);
    forall a | 0 <= a < |rest| ensures rest[a] != first {
      if tasks[0].status == Done {
        assert !IsOpen(tasks, first);
        assert rest[a] in ids;
      } else {
        assert Born(tasks, ids[0]) < Born(tasks, ids[a + 1]);
      }
    }
    forall id ensures id in rest <==> IsOpen(tasks[1..], id) {
      if id != first { LookupTail(tasks, id); assert id in ids <==> IsOpen(tasks, id); }
    }
    forall a | 0 <= a < |rest| ensures Lookup(tasks, rest[a]) == Lookup(tasks[1..], rest[a]) {
      LookupTail(tasks, rest[a]);
    }
  }

  lemma HeadIsIn(ids: seq<string>)
    ensures ids == [] || ids[0] in ids
  {
  }

  lemma {:induction false} OneListingStep(tasks: seq<QTask>, ids: seq<string>)
    requires |tasks| > 0 && Distinct(tasks) && Increasing(tasks) && ListsOpen(tasks, ids)
    ensures Distinct(tasks[1..]) && Increasing(tasks[1..])
    ensures if tasks[0].status == Done then ListsOpen(tasks[1..], ids) && Unfinished(tasks) == Unfinished(tasks[1..])
            else
              |ids| > 0 && ids[0] == tasks[0].id && ListsOpen(tasks[1..], ids[1..]) &&
              Unfinished(tasks) == [tasks[0]] + Unfinished(tasks[1..])
  {
    ListsTail(tasks, ids);
    UnfinishedHead(tasks);
    if tasks[0].status != Done { ListsHead(tasks, ids); }
  }

  /** There is one way to list the unfinished ids by age, and it is what the dict form returns. */
  lemma {:induction false} OneListing(tasks: seq<QTask>, ids: seq<string>)
    requires Distinct(tasks) && Increasing(tasks) && ListsOpen(tasks, ids)
    ensures ids == Ids(Unfinished(tasks))
    decreases |tasks|
  {
    if |tasks| == 0 {
      HeadIsIn(ids);
    } else {
      OneListingStep(tasks, ids);
      if tasks[0].status == Done {
        OneListing(tasks[1..], ids);
      } else {
        OneListing(tasks[1..], ids[1..]);
        assert ([tasks[0]] + Unfinished(tasks[1..]))[1..] == Unfinished(tasks[1..]);
      }
    }
  }

  lemma {:induction false} ListsOwnIds(tasks: seq<QTask>)
    requires Distinct(tasks) && Increasing(tasks)
    ensures ListsOpen(tasks, Ids(Unfinished(tasks)))
    decreases |tasks|
  {
    if |tasks| > 0 {
      ListsOwnIds(tasks[1..]);
      ListsOneMore(tasks, Ids(Unfinished(tasks[1..])));
      UnfinishedHead(tasks);
      assert ([tasks[0]] + Unfinished(tasks[1..]))[1..] == Unfinished(tasks[1..]);
    }
  }

  lemma ListsOneMore(tasks: seq<QTask>, rest: seq<string>)
    requires |tasks| > 0 && Distinct(tasks) && Increasing(tasks) && ListsOpen(tasks[1..], rest)
    ensures ListsOpen(tasks, if tasks[0].status == Done then rest else [tasks[0].id] + rest)
  {
    var first := tasks[0].id;
    var ids := if tasks[0].status == Done then rest else [first] + rest;
    NotInTail(tasks);
    assert !IsOpen(tasks[1..], first);
    forall id ensures id in ids <==> IsOpen(tasks, id) {
      if id != first { LookupTail(tasks, id); }
    }
    forall a | 0 <= a < |rest| ensures rest[a] in rest && Born(tasks, rest[a]) == Born(tasks[1..], rest[a]) &&
                                       Born(tasks, first) < Born(tasks, rest[a]) {
      YoungerThanFirst(tasks, rest, a);
    }
  }

  lemma YoungerThanFirst(tasks: seq<QTask>, rest: seq<string>, a: nat)
    requires |tasks| > 0 && Distinct(tasks) && Increasing(tasks) && ListsOpen(tasks[1..], rest) && a < |rest|
    ensures rest[a] in rest && Born(tasks, rest[a]) == Born(tasks[1..], rest[a])
    ensures Born(tasks, tasks[0].id) < Born(tasks, rest[a])
  {
    NotInTail(tasks);
    assert IsOpen(tasks[1..], rest[a]);
    LookupTail(tasks, rest[a]);
    var k := IndexOf(tasks[1..], rest[a]);
    assert tasks[1..][k] == tasks[k + 1];
  }

  /** The in-memory form lists exactly the unfinished ids by age, and there is one way to do so. */
  lemma ListingIsExact(tasks: seq<QTask>, ids: seq<string>)
    requires Distinct(tasks) && Increasing(tasks)
    ensures ListsOpen(tasks, ids) <==> ids == Ids(Unfinished(tasks))
  {
    ListsOwnIds(tasks);
    if ListsOpen(tasks, ids) { OneListing(tasks, ids); }
  }

  lemma SameListing(tasks: seq<QTask>, rows: Table, ids: seq<string>)
    requires Same(tasks, rows) && Increasing(tasks) && IsListing(rows, ids)
    ensures ids == Ids(Unfinished(tasks))
  {
    forall id ensures id in ids <==> IsOpen(tasks, id) {
      assert MatchesAt(tasks, rows, id);
    }
    forall a, b | 0 <= a < b < |ids|
      ensures Born(tasks, ids[a]) < Born(tasks, ids[b])
    {
      assert MatchesAt(tasks, rows, ids[a]) && MatchesAt(tasks, rows, ids[b]);
      assert ids[a] in ids && ids[b] in ids;
      assert IndexOf(tasks, ids[a]) != IndexOf(tasks, ids[b]);
    }
    OneListing(tasks, ids);
  }

  function PendingOf(tasks: seq<QTask>): set<string> {
    if |tasks| == 0 then {}
    else (if tasks[0].status == Pending then {tasks[0].id} else {}) + PendingOf(tasks[1..])
  }

  lemma {:induction false} CountIsSize(tasks: seq<QTask>)
    requires Distinct(tasks)
    ensures Count(tasks, Pending) == |PendingOf(tasks)|
    ensures forall id :: id in PendingOf(tasks) <==> Lookup(tasks, id).Some? && Lookup(tasks, id).value.status == Pending
  {
    if |tasks| > 0 {
      CountIsSize(tasks[1..]);
      NotInTail(tasks);
      forall id | id != tasks[0].id ensures Lookup(tasks, id) == Lookup(tasks[1..], id) {
        LookupTail(tasks, id);
      }
    }
  }

  lemma SameCount(tasks: seq<QTask>, rows: Table)
    requires Same(tasks, rows)
    ensures |PendingIds(rows)| == Count(tasks, Pending)
  {
    CountIsSize(tasks);
    forall id ensures id in PendingIds(rows) <==> id in PendingOf(tasks) {
      assert MatchesAt(tasks, rows, id);
    }
    assert PendingIds(rows) == PendingOf(tasks);
  }

  /** The backends simulate each other: with fresh ids and creation times that increase, every
      operation gets the same answer from both, and between operations every read does too. */
  lemma BackendsAgree(ops: seq<Op>, tables: seq<Table>, answers: seq<Answer>, n: nat, id: string, ids: seq<string>)
    requires FreshIds(ops) && CreatedInOrder(ops) && IsTableRun(ops, tables, answers) && n <= |ops|
    requires IsListing(tables[n], ids)
    ensures forall i | 0 <= i < |ops| :: answers[i] == AnswerAt(ops, i)
    ensures RowResult(tables[n], id) == ResultFor(After(ops, n), id)
    ensures ids == Ids(Unfinished(After(ops, n)))
    ensures |PendingIds(tables[n])| == Count(After(ops, n), Pending)
  {
    forall i | 0 <= i < |ops| ensures answers[i] == AnswerAt(ops, i) { AnswersAgree(ops, tables, answers, i); }
    RunsAgree(ops, tables, answers, n);
    assert MatchesAt(After(ops, n), tables[n], id);
    SameResult(After(ops, n), tables[n], id);
    SameListing(After(ops, n), tables[n], ids);
    SameCount(After(ops, n), tables[n]);
  }

  /** The first operation to enqueue a known id. */
  predicate FirstReuse(ops: seq<Op>, n: nat) {
    n < |ops| && FreshBefore(ops, n) && ops[n].Enqueue? && !NotReused(ops, ops[n].id, 0, n)
  }

  lemma {:induction false} FindReuse(ops: seq<Op>, n: nat) returns (m: nat)
    requires n <= |ops| && !FreshBefore(ops, n)
    ensures FirstReuse(ops, m) && m < n
  {
    if FreshBefore(ops, n - 1) {
      m := n - 1;
    } else {
      m := FindReuse(ops, n - 1);
    }
  }

  /** A reused id tells the backends apart: the table refuses it, the dict accepts it. */
  lemma ReusedIdDiffers(ops: seq<Op>, tables: seq<Table>, answers: seq<Answer>, n: nat)
    requires CreatedInOrder(ops) && IsTableRun(ops, tables, answers) && FirstReuse(ops, n)
    ensures answers[n] == DuplicateId && tables[n + 1] == tables[n] && AnswerAt(ops, n) == Enqueued
  {
    RunsAgree(ops, tables, answers, n);
    OneTaskPerId(ops, n);
    EarlierIsKnown(ops, n, ops[n].id);
    assert MatchesAt(After(ops, n), tables[n], ops[n].id);
    assert Executes(tables[n], ops[n], tables[n + 1], answers[n]);
  }

  lemma {:induction false} EarlierIsKnown(ops: seq<Op>, n: nat, id: string)
    requires n <= |ops| && !NotReused(ops, id, 0, n)
    ensures id in EnqueuedIds(ops, n)
  {
    if NotReused(ops, id, 0, n - 1) {
    } else {
      EarlierIsKnown(ops, n - 1, id);
    }
  }

  /** With creation times that increase, both backends answer every operation alike exactly when no id is
      enqueued twice. */
  lemma AnswersAgreeExactly(ops: seq<Op>, tables: seq<Table>, answers: seq<Answer>)
    requires CreatedInOrder(ops) && IsTableRun(ops, tables, answers)
    ensures (forall i | 0 <= i < |ops| :: answers[i] == AnswerAt(ops, i)) <==> FreshIds(ops)
  {
    if FreshIds(ops) {
      forall i | 0 <= i < |ops| ensures answers[i] == AnswerAt(ops, i) { AnswersAgree(ops, tables, answers, i); }
    } else {
      var n := FindReuse(ops, |ops|);
      ReusedIdDiffers(ops, tables, answers, n);
    }
  }
}
