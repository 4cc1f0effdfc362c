/** The task protocol as interleaved steps: anyone posts, workers read, answer and ack, and may
    crash between any two steps, while orchestrators gather. Any number of workers and gathers may
    run under one subject, and then share its cursor. Proved for every message language with one
    law, which FLEX obeys. */
module Protocol {
  import opened Options
  import opened Orchestration
  import opened Agents

  /** How bodies are read and how a task is answered. */
  datatype Language = Language(
    idOk: string -> bool,
    taskIn: (string, string, string) -> Option<Task>,
    resultIn: (string, string) -> Option<TaskResult>,
    answer: (string, Outcome) -> string)

  /** A task carries a usable id, and the answer to a usable id is read as a result for it. */
  ghost predicate Lawful(L: Language) {
    (forall w, sender, body :: L.taskIn(w, sender, body).Some? ==> L.idOk(L.taskIn(w, sender, body).value.id)) &&
    (forall id, outcome, w {:trigger L.resultIn(w, L.answer(id, outcome))} :: L.idOk(id) ==>
       var r := L.resultIn(w, L.answer(id, outcome)); r.Some? && r.value.taskId == id && r.value.worker == w)
  }

  /** Where an entry came from; no actor reads it. */
  datatype Origin = Posted | Replied(taskPos: nat, task: Task, outcome: Outcome)
  datatype Entry = Entry(sender: string, body: string, origin: Origin)

  datatype WorkerPhase =
    | Resting
    | Paging(from: nat)                          // the cursor has been read
    | Serving(from: nat, upTo: nat, next: nat)   // entries from..upTo were read, those before next are handled
  datatype WorkerState = WorkerState(subject: string, phase: WorkerPhase)

  /** What a gather is after, the positions it has read so far and what it found there. As history: the
      rounds it was asked for, where its first look started and how far its last one went. */
  datatype Progress = Progress(wanted: set<string>, rounds: nat, read: seq<nat>, found: map<string, TaskResult>,
                               asked: nat, start: nat, head: nat)

  datatype GatherPhase =
    | Idle
    | Starting(p: Progress)                          // about to read the cursor
    | Reading(p: Progress, from: nat)                // about to read what is after it
    | Acking(p: Progress, from: nat, upTo: nat)      // has looked through entries from..upTo
  datatype GatherState = GatherState(subject: string, phase: GatherPhase)

  /** A gather that returned. */
  datatype Gathered = Gathered(instance: string, reader: string, wanted: set<string>, read: seq<nat>,
                               found: map<string, TaskResult>, asked: nat, start: nat, head: nat)

  datatype Reader = ByWorker(w: string) | ByGather(g: string)

  datatype State = State(
    log: seq<Entry>,
    cursors: map<string, nat>,
    workers: map<string, WorkerState>,       // by instance; instances may share a subject
    gathers: map<string, GatherState>,       // by instance; instances may share a subject
    returned: seq<Gathered>,
    crossed: map<(string, nat), Reader>)     // history: whose ack took a subject's cursor over a position

  function Cursor(s: State, subject: string): nat {
    if subject in s.cursors then s.cursors[subject] else 0
  }

  ghost predicate Init(s: State) {
    s.log == [] && s.cursors == map[] && s.returned == [] && s.crossed == map[] &&
    (forall w | w in s.workers :: s.workers[w].phase == Resting) &&
    forall g | g in s.gathers :: s.gathers[g].phase == Idle
  }

  datatype Step =
    | Post(sender: string, body: string)
    | BeginPass(w: string)
    | ReadPages(w: string)
    | HandleNext(w: string, outcome: Outcome)
    | AckPass(w: string)
    | Crash(w: string)
    | BeginGather(g: string, wanted: set<string>, rounds: int)
    | ReadCursor(g: string)
    | GatherRound(g: string)
    | AckRound(g: string)
    | CrashGather(g: string)

  function SetWorker(s: State, w: string, phase: WorkerPhase): State
    requires w in s.workers
  {
    s.(workers := s.workers[w := s.workers[w].(phase := phase)])
  }

  function SetGather(s: State, g: string, phase: GatherPhase): State
    requires g in s.gathers
  {
    s.(gathers := s.gathers[g := s.gathers[g].(phase := phase)])
  }

  function Read(L: Language): Entry -> Option<TaskResult> {
    (e: Entry) => L.resultIn(e.sender, e.body)
  }

  /** The reply a worker posts for the entry at `p`, if that is a task for it. */
  function ReplyEntry(L: Language, subject: string, log: seq<Entry>, p: nat, outcome: Outcome): seq<Entry>
    requires p < |log|
  {
    match L.taskIn(subject, log[p].sender, log[p].body)
    case None => []
    case Some(task) => [Entry(subject, L.answer(task.id, outcome), Replied(p, task, outcome))]
  }

  function Positions(lo: nat, hi: nat): seq<nat>
    requires lo <= hi
  {
    seq(hi - lo, i requires 0 <= i => lo + i)
  }

  /** A look from `from` to `head`, for the history. */
  function Marked(p: Progress, from: nat, head: nat): Progress {
    p.(start := if p.read == [] then from else p.start, head := head)
  }

  /** A round looks through everything from the cursor it read on. */
  function Looked(L: Language, log: seq<Entry>, p: Progress, from: nat): Progress
    requires from <= |log|
  {
    Marked(p, from, |log|)
      .(read := p.read + Positions(from, |log|), found := GatherFrom(Read(L), p.found, p.wanted, log[from..]))
  }

  function Later(cursor: nat, upTo: nat): nat {
    if cursor >= upTo then cursor else upTo
  }

  /** An ack moves the subject's cursor forward only. */
  function Acked(s: State, subject: string, upTo: nat, who: Reader): State {
    s.(cursors := s.cursors[subject := Later(Cursor(s, subject), upTo)],
       crossed := s.crossed + map k: nat | Cursor(s, subject) <= k < upTo :: (subject, k) := who)
  }

  function Return(s: State, g: string, p: Progress): State
    requires g in s.gathers
  {
    var r := Gathered(g, s.gathers[g].subject, p.wanted, p.read, p.found, p.asked, p.start, p.head);
    SetGather(s, g, Idle).(returned := s.returned + [r])
  }

  function Begun(wanted: set<string>, rounds: nat): Progress {
    Progress(wanted, rounds, [], map[], rounds, 0, 0)
  }

  /** The gather acks what it read; if that was its last round, it returns. */
  function RoundAcked(s: State, g: string): State
    requires g in s.gathers && s.gathers[g].phase.Acking?
  {
    var phase := s.gathers[g].phase;
    var acked := Acked(SetGather(s, g, Idle), s.gathers[g].subject, phase.upTo, ByGather(g));
    if phase.p.rounds <= 1 then Return(acked, g, phase.p)
    else SetGather(acked, g, Starting(phase.p.(rounds := phase.p.rounds - 1)))
  }

  ghost predicate Next(L: Language, s: State, s': State, step: Step) {
    match step
    // dispatches and all other messages, whatever they read as
    case Post(sender, body) => s' == s.(log := s.log + [Entry(sender, body, Posted)])
    case BeginPass(w) =>
      w in s.workers && s.workers[w].phase.Resting? &&
      s' == SetWorker(s, w, Paging(Cursor(s, s.workers[w].subject)))
    // catch_up's last page: whatever was posted meanwhile is read as well
    case ReadPages(w) =>
      w in s.workers && s.workers[w].phase.Paging? && s.workers[w].phase.from <= |s.log| &&
      s' == SetWorker(s, w, Serving(s.workers[w].phase.from, |s.log|, s.workers[w].phase.from))
    case HandleNext(w, outcome) =>
      w in s.workers && s.workers[w].phase.Serving? &&
      var phase := s.workers[w].phase;
      phase.next < phase.upTo <= |s.log| &&
      s' == SetWorker(s, w, phase.(next := phase.next + 1))
            .(log := s.log + ReplyEntry(L, s.workers[w].subject, s.log, phase.next, outcome))
    case AckPass(w) =>
      w in s.workers && s.workers[w].phase.Serving? &&
      var phase := s.workers[w].phase;
      phase.next == phase.upTo &&
      s' == Acked(SetWorker(s, w, Resting), s.workers[w].subject, phase.upTo, ByWorker(w))
    case Crash(w) =>
      w in s.workers && s' == SetWorker(s, w, Resting)
    case BeginGather(g, wanted, rounds) =>
      g in s.gathers && s.gathers[g].phase.Idle? &&
      s' == SetGather(s, g, Starting(Begun(wanted, if rounds > 1 then rounds else 1)))
    case ReadCursor(g) =>
      g in s.gathers && s.gathers[g].phase.Starting? &&
      s' == SetGather(s, g, Reading(s.gathers[g].phase.p, Cursor(s, s.gathers[g].subject)))
    case GatherRound(g) =>
      g in s.gathers && s.gathers[g].phase.Reading? &&
      var phase := s.gathers[g].phase;
      phase.from <= |s.log| &&
      s' == if phase.from == |s.log| then Return(s, g, Marked(phase.p, phase.from, |s.log|))
            else SetGather(s, g, Acking(Looked(L, s.log, phase.p, phase.from), phase.from, |s.log|))
    case AckRound(g) =>
      g in s.gathers && s.gathers[g].phase.Acking? && s' == RoundAcked(s, g)
    case CrashGather(g) =>
      g in s.gathers && s' == SetGather(s, g, Idle)
  }

  // ---------- what every step keeps ----------

  /** Every reply answers an earlier entry that is a task for its sender. */
  ghost predicate LogInv(L: Language, log: seq<Entry>) {
    forall p | 0 <= p < |log| :: EntryInv(L, log, p)
  }

  ghost predicate EntryInv(L: Language, log: seq<Entry>, p: nat)
    requires p < |log|
  {
    var e := log[p];
    match e.origin
    case Posted => true
    case Replied(q, task, outcome) =>
      q < p && L.taskIn(e.sender, log[q].sender, log[q].body) == Some(task) && e.body == L.answer(task.id, outcome)
  }

  predicate TaskAt(L: Language, log: seq<Entry>, subject: string, p: nat) {
    p < |log| && L.taskIn(subject, log[p].sender, log[p].body).Some?
  }

  predicate IsReply(log: seq<Entry>, q: nat, subject: string, p: nat) {
    p < q < |log| && log[q].sender == subject && log[q].origin.Replied? && log[q].origin.taskPos == p
  }

  ghost predicate Answered(log: seq<Entry>, subject: string, p: nat) {
    exists q: nat :: IsReply(log, q, subject, p)
  }

  /** Every task for the subject from `lo` up to `hi` has a reply posted after it. */
  ghost predicate ServedBetween(L: Language, log: seq<Entry>, subject: string, lo: nat, hi: nat) {
    hi <= |log| && forall p: nat | lo <= p < hi && TaskAt(L, log, subject, p) :: Answered(log, subject, p)
  }

  /** Every task for the subject below its cursor has a reply posted after it, or a gather under the
      same subject acked over it. */
  ghost predicate CursorInv(L: Language, s: State, subject: string) {
    Cursor(s, subject) <= |s.log| &&
    forall p: nat | p < Cursor(s, subject) ::
      (subject, p) in s.crossed &&
      (TaskAt(L, s.log, subject, p) ==> Answered(s.log, subject, p) || s.crossed[(subject, p)].ByGather?)
  }

  ghost predicate WorkerInv(L: Language, log: seq<Entry>, cursor: nat, w: WorkerState) {
    match w.phase
    case Resting => true
    case Paging(from) => from <= cursor
    case Serving(from, upTo, next) =>
      from <= cursor && from <= next <= upTo <= |log| && ServedBetween(L, log, w.subject, from, next)
  }

  predicate Below(read: seq<nat>, n: nat) {
    forall i | 0 <= i < |read| :: read[i] < n
  }

  predicate Ascending(read: seq<nat>) {
    forall i, j | 0 <= i < j < |read| :: read[i] < read[j]
  }

  function RowsAt(log: seq<Entry>, read: seq<nat>): (rows: seq<Entry>)
    requires Below(read, |log|)
    ensures |rows| == |read| && forall i | 0 <= i < |rows| :: rows[i] == log[read[i]]
  {
    seq(|read|, i requires 0 <= i < |read| => log[read[i]])
  }

  /** What was found is what the entries read hold. */
  ghost predicate FoundIn(L: Language, log: seq<Entry>, wanted: set<string>, read: seq<nat>,
                          found: map<string, TaskResult>)
  {
    Ascending(read) && Below(read, |log|) && found == GatherFrom(Read(L), map[], wanted, RowsAt(log, read))
  }

  /** From the first position read up to `bound`, whatever was not read was acked over by another
      reader under the same subject. */
  predicate Whole(crossed: map<(string, nat), Reader>, subject: string, g: string, read: seq<nat>, bound: nat) {
    |read| > 0 ==>
      forall k | read[0] <= k < bound ::
        k in read || ((subject, k) in crossed && crossed[(subject, k)] != ByGather(g))
  }

  /** The instance's own acks have not gone past `bound`. */
  ghost predicate OwnBelow(crossed: map<(string, nat), Reader>, subject: string, g: string, bound: nat) {
    forall k: nat | (subject, k) in crossed && crossed[(subject, k)] == ByGather(g) :: k < bound
  }

  /** What a gather has read starts where its first look did; before its first ack that is all from
      there to the head it saw. */
  predicate Ranged(phase: GatherPhase) {
    phase.Idle? ||
    (var p := phase.p;
     1 <= p.rounds <= p.asked && (|p.read| > 0 ==> p.read[0] == p.start < p.head) &&
     if phase.Acking? then
       |p.read| > 0 && p.head == phase.upTo && (p.rounds == p.asked ==> p.read == Positions(p.start, p.head))
     else
       |p.read| > 0 ==> p.rounds < p.asked)
  }

  /** What was read in the stretch from `start` to `head`: all of it, if one round was asked for. */
  predicate Window(read: seq<nat>, asked: nat, start: nat, head: nat) {
    start <= head && Below(read, head) &&
    (if |read| == 0 then start == head else read[0] == start) &&
    (asked <= 1 ==> read == Positions(start, head))
  }

  ghost predicate GatherInv(L: Language, log: seq<Entry>, cursor: nat, crossed: map<(string, nat), Reader>,
                            g: string, x: GatherState)
  {
    (x.phase.Idle? || FoundIn(L, log, x.phase.p.wanted, x.phase.p.read, x.phase.p.found)) && Ranged(x.phase) &&
    match x.phase
    case Idle => true
    case Starting(p) => Below(p.read, cursor) && Whole(crossed, x.subject, g, p.read, cursor)
    case Reading(p, from) =>
      from <= cursor && Below(p.read, from) && Whole(crossed, x.subject, g, p.read, from) &&
      OwnBelow(crossed, x.subject, g, from)
    case Acking(p, from, upTo) =>
      from < upTo <= |log| && Below(p.read, upTo) && Whole(crossed, x.subject, g, p.read, upTo) &&
      OwnBelow(crossed, x.subject, g, from) && (forall k | from <= k < upTo :: k in p.read) && from <= cursor
  }

  ghost predicate GatheredInv(L: Language, log: seq<Entry>, crossed: map<(string, nat), Reader>, r: Gathered) {
    FoundIn(L, log, r.wanted, r.read, r.found) && Window(r.read, r.asked, r.start, r.head) && r.head <= |log| &&
    Whole(crossed, r.reader, r.instance, r.read, r.head)
  }

  /** Positions were crossed below the cursor, by readers of that subject. */
  predicate CrossInv(s: State, subject: string, p: nat)
    requires (subject, p) in s.crossed
  {
    p < Cursor(s, subject) &&
    match s.crossed[(subject, p)]
    case ByWorker(w) => w in s.workers && s.workers[w].subject == subject
    case ByGather(g) => g in s.gathers && s.gathers[g].subject == subject
  }

  ghost predicate Inv(L: Language, s: State) {
    LogInv(L, s.log) &&
    (forall subject :: CursorInv(L, s, subject)) &&
    (forall subject, p | (subject, p) in s.crossed :: CrossInv(s, subject, p)) &&
    (forall w | w in s.workers :: WorkerInv(L, s.log, Cursor(s, s.workers[w].subject), s.workers[w])) &&
    (forall g | g in s.gathers ::
       GatherInv(L, s.log, Cursor(s, s.gathers[g].subject), s.crossed, g, s.gathers[g])) &&
    forall i | 0 <= i < |s.returned| :: GatheredInv(L, s.log, s.crossed, s.returned[i])
  }

  // ---------- a longer log keeps what held ----------

  lemma AnsweredStays(log: seq<Entry>, more: seq<Entry>, subject: string, p: nat)
    requires Answered(log, subject, p)
    ensures Answered(log + more, subject, p)
  {
    var q: nat :| IsReply(log, q, subject, p);
    assert IsReply(log + more, q, subject, p);
  }

  lemma ServedStays(L: Language, log: seq<Entry>, more: seq<Entry>, subject: string, lo: nat, hi: nat)
    requires ServedBetween(L, log, subject, lo, hi)
    ensures ServedBetween(L, log + more, subject, lo, hi)
  {
    forall p: nat | lo <= p < hi && TaskAt(L, log + more, subject, p) ensures Answered(log + more, subject, p) {
      assert TaskAt(L, log, subject, p);
      AnsweredStays(log, more, subject, p);
    }
  }

  lemma FoundStaysIn(L: Language, log: seq<Entry>, more: seq<Entry>, wanted: set<string>, read: seq<nat>,
                     found: map<string, TaskResult>)
    requires FoundIn(L, log, wanted, read, found)
    ensures FoundIn(L, log + more, wanted, read, found)
  {
    assert RowsAt(log + more, read) == RowsAt(log, read);
  }

  lemma CursorStays(L: Language, s: State, more: seq<Entry>, subject: string)
    requires CursorInv(L, s, subject)
    ensures CursorInv(L, s.(log := s.log + more), subject)
  {
    var s' := s.(log := s.log + more);
    forall p: nat | p < Cursor(s, subject) && TaskAt(L, s'.log, subject, p)
      ensures Answered(s'.log, subject, p) || s.crossed[(subject, p)].ByGather?
    {
      assert TaskAt(L, s.log, subject, p);
      if Answered(s.log, subject, p) { AnsweredStays(s.log, more, subject, p); }
    }
  }

  lemma WorkerStays(L: Language, log: seq<Entry>, more: seq<Entry>, cursor: nat, w: WorkerState)
    requires WorkerInv(L, log, cursor, w)
    ensures WorkerInv(L, log + more, cursor, w)
  {
    if w.phase.Serving? { ServedStays(L, log, more, w.subject, w.phase.from, w.phase.next); }
  }

  lemma GatherStays(L: Language, log: seq<Entry>, more: seq<Entry>, cursor: nat,
                    crossed: map<(string, nat), Reader>, g: string, x: GatherState)
    requires GatherInv(L, log, cursor, crossed, g, x)
    ensures GatherInv(L, log + more, cursor, crossed, g, x)
  {
    if !x.phase.Idle? { FoundStaysIn(L, log, more, x.phase.p.wanted, x.phase.p.read, x.phase.p.found); }
  }

  /** Appending one well-formed entry keeps the invariant. */
  lemma AppendKeeps(L: Language, s: State, e: Entry)
    requires Inv(L, s) && EntryInv(L, s.log + [e], |s.log|)
    ensures Inv(L, s.(log := s.log + [e]))
  {
    var s' := s.(log := s.log + [e]);
    forall p | 0 <= p < |s'.log| ensures EntryInv(L, s'.log, p) {
      if p < |s.log| { assert EntryInv(L, s.log, p); }
    }
    forall subject ensures CursorInv(L, s', subject) { CursorStays(L, s, [e], subject); }
    forall subject, p | (subject, p) in s'.crossed ensures CrossInv(s', subject, p) {
      assert CrossInv(s, subject, p);
    }
    forall w | w in s.workers ensures WorkerInv(L, s'.log, Cursor(s', s.workers[w].subject), s.workers[w]) {
      WorkerStays(L, s.log, [e], Cursor(s, s.workers[w].subject), s.workers[w]);
    }
    forall g | g in s.gathers
      ensures GatherInv(L, s'.log, Cursor(s', s.gathers[g].subject), s.crossed, g, s.gathers[g])
    {
      GatherStays(L, s.log, [e], Cursor(s, s.gathers[g].subject), s.crossed, g, s.gathers[g]);
    }
    forall i | 0 <= i < |s.returned| ensures GatheredInv(L, s'.log, s.crossed, s.returned[i]) {
      FoundStaysIn(L, s.log, [e], s.returned[i].wanted, s.returned[i].read, s.returned[i].found);
    }
  }

  // ---------- an ack keeps what held ----------

  lemma WholeStays(a: map<(string, nat), Reader>, b: map<(string, nat), Reader>, subject: string, g: string,
                   read: seq<nat>, bound: nat)
    requires Whole(a, subject, g, read, bound) && a.Keys <= b.Keys && forall x | x in a :: b[x] == a[x]
    ensures Whole(b, subject, g, read, bound)
  {
  }

  lemma AckKeepsCrossed(L: Language, s: State, subject: string, upTo: nat, who: Reader)
    requires Inv(L, s)
    ensures var after := Acked(s, subject, upTo, who).crossed;
            s.crossed.Keys <= after.Keys && forall x | x in s.crossed :: after[x] == s.crossed[x]
  {
    var after := Acked(s, subject, upTo, who).crossed;
    forall x | x in s.crossed ensures after[x] == s.crossed[x] {
      assert CrossInv(s, x.0, x.1);
    }
  }

  lemma WholeSeesAck(s: State, subject: string, upTo: nat, who: Reader, g: string, c: string, read: seq<nat>)
    requires who != ByGather(g) && Whole(s.crossed, c, g, read, Cursor(s, c))
    requires forall x | x in s.crossed :: Acked(s, subject, upTo, who).crossed[x] == s.crossed[x]
    ensures Whole(Acked(s, subject, upTo, who).crossed, c, g, read, Cursor(Acked(s, subject, upTo, who), c))
  {
  }

  /** An ack by another reader moves the cursor over positions this gather then finds crossed. */
  lemma GatherSeesAck(L: Language, s: State, subject: string, upTo: nat, who: Reader, g: string)
    requires Inv(L, s) && g in s.gathers && who != ByGather(g) && upTo <= |s.log|
    ensures var s' := Acked(s, subject, upTo, who);
            GatherInv(L, s'.log, Cursor(s', s.gathers[g].subject), s'.crossed, g, s.gathers[g])
  {
    var s' := Acked(s, subject, upTo, who);
    var x := s.gathers[g];
    assert GatherInv(L, s.log, Cursor(s, x.subject), s.crossed, g, x);
    AckKeepsCrossed(L, s, subject, upTo, who);
    if x.phase.Starting? { WholeSeesAck(s, subject, upTo, who, g, x.subject, x.phase.p.read); }
  }

  /** What the cursor passed was answered, or it was a gather's ack. */
  lemma AckKeepsCursor(L: Language, s: State, subject: string, upTo: nat, who: Reader, c: string)
    requires Inv(L, s) && upTo <= |s.log|
    requires who.ByWorker? ==> ServedBetween(L, s.log, subject, Cursor(s, subject), upTo)
    ensures CursorInv(L, Acked(s, subject, upTo, who), c)
  {
    assert CursorInv(L, s, c);
    var s' := Acked(s, subject, upTo, who);
    AckKeepsCrossed(L, s, subject, upTo, who);
  }

  predicate Known(s: State, subject: string, who: Reader) {
    match who
    case ByWorker(w) => w in s.workers && s.workers[w].subject == subject
    case ByGather(g) => g in s.gathers && s.gathers[g].subject == subject
  }

  /** Everything but the gather that acked, whose phase is about to change. */
  lemma AckKeepsRest(L: Language, s: State, subject: string, upTo: nat, who: Reader)
    requires Inv(L, s) && upTo <= |s.log| && Known(s, subject, who)
    requires who.ByWorker? ==> ServedBetween(L, s.log, subject, Cursor(s, subject), upTo)
    requires who.ByGather? ==> s.gathers[who.g].phase.Idle?
    ensures Inv(L, Acked(s, subject, upTo, who))
  {
    var s' := Acked(s, subject, upTo, who);
    forall c ensures CursorInv(L, s', c) { AckKeepsCursor(L, s, subject, upTo, who, c); }
    forall c, p | (c, p) in s'.crossed ensures CrossInv(s', c, p) {
      if (c, p) in s.crossed { assert CrossInv(s, c, p); }
    }
    forall w | w in s.workers ensures WorkerInv(L, s.log, Cursor(s', s.workers[w].subject), s.workers[w]) {
      assert WorkerInv(L, s.log, Cursor(s, s.workers[w].subject), s.workers[w]);
    }
    forall g | g in s.gathers
      ensures GatherInv(L, s.log, Cursor(s', s.gathers[g].subject), s'.crossed, g, s.gathers[g])
    {
      if who != ByGather(g) { GatherSeesAck(L, s, subject, upTo, who, g); }
    }
    forall i | 0 <= i < |s.returned| ensures GatheredInv(L, s.log, s'.crossed, s.returned[i]) {
      ReturnedSeesAck(L, s, subject, upTo, who, i);
    }
  }

  lemma ReturnedSeesAck(L: Language, s: State, subject: string, upTo: nat, who: Reader, i: nat)
    requires Inv(L, s) && i < |s.returned|
    ensures GatheredInv(L, s.log, Acked(s, subject, upTo, who).crossed, s.returned[i])
  {
    var r := s.returned[i];
    var s' := Acked(s, subject, upTo, who);
    assert GatheredInv(L, s.log, s.crossed, r);
    AckKeepsCrossed(L, s, subject, upTo, who);
    WholeStays(s.crossed, s'.crossed, r.reader, r.instance, r.read, r.head);
  }

  // ---------- step by step ----------

  lemma SetWorkerKeeps(L: Language, s: State, w: string, phase: WorkerPhase)
    requires Inv(L, s) && w in s.workers
    requires WorkerInv(L, s.log, Cursor(s, s.workers[w].subject), s.workers[w].(phase := phase))
    ensures Inv(L, SetWorker(s, w, phase))
  {
    var s' := SetWorker(s, w, phase);
    forall subject ensures CursorInv(L, s', subject) { assert CursorInv(L, s, subject); }
    forall subject, p | (subject, p) in s'.crossed ensures CrossInv(s', subject, p) {
      assert CrossInv(s, subject, p);
    }
  }

  lemma SetGatherKeeps(L: Language, s: State, g: string, phase: GatherPhase)
    requires Inv(L, s) && g in s.gathers
    requires GatherInv(L, s.log, Cursor(s, s.gathers[g].subject), s.crossed, g, s.gathers[g].(phase := phase))
    ensures Inv(L, SetGather(s, g, phase))
  {
    var s' := SetGather(s, g, phase);
    forall subject ensures CursorInv(L, s', subject) { assert CursorInv(L, s, subject); }
    forall subject, p | (subject, p) in s'.crossed ensures CrossInv(s', subject, p) {
      assert CrossInv(s, subject, p);
    }
  }

  lemma HandleKeeps(L: Language, s: State, w: string, outcome: Outcome)
    requires Inv(L, s) && w in s.workers && s.workers[w].phase.Serving?
    requires s.workers[w].phase.next < s.workers[w].phase.upTo <= |s.log|
    ensures var phase := s.workers[w].phase;
            Inv(L, SetWorker(s, w, phase.(next := phase.next + 1))
                   .(log := s.log + ReplyEntry(L, s.workers[w].subject, s.log, phase.next, outcome)))
  {
    var subject := s.workers[w].subject;
    var phase := s.workers[w].phase;
    var mid := s.(log := s.log + ReplyEntry(L, subject, s.log, phase.next, outcome));
    ReplyAppended(L, s, subject, phase.next, outcome);
    assert WorkerInv(L, s.log, Cursor(s, subject), s.workers[w]);
    ReplyServes(L, subject, s.log, phase.from, phase.next, outcome);
    SetWorkerKeeps(L, mid, w, phase.(next := phase.next + 1));
  }

  lemma ReplyAppended(L: Language, s: State, subject: string, p: nat, outcome: Outcome)
    requires Inv(L, s) && p < |s.log|
    ensures Inv(L, s.(log := s.log + ReplyEntry(L, subject, s.log, p, outcome)))
  {
    var reply := ReplyEntry(L, subject, s.log, p, outcome);
    if |reply| > 0 { AppendKeeps(L, s, reply[0]); } else { assert s.log + reply == s.log; }
  }

  lemma ReplyServes(L: Language, subject: string, log: seq<Entry>, from: nat, p: nat, outcome: Outcome)
    requires from <= p < |log| && ServedBetween(L, log, subject, from, p)
    ensures ServedBetween(L, log + ReplyEntry(L, subject, log, p, outcome), subject, from, p + 1)
  {
    var reply := ReplyEntry(L, subject, log, p, outcome);
    ServedStays(L, log, reply, subject, from, p);
    assert (log + reply)[p] == log[p];
    if |reply| > 0 { assert IsReply(log + reply, |log|, subject, p); }
  }

  lemma AckPassKeeps(L: Language, s: State, w: string)
    requires Inv(L, s) && w in s.workers && s.workers[w].phase.Serving?
    requires s.workers[w].phase.next == s.workers[w].phase.upTo
    ensures Inv(L, Acked(SetWorker(s, w, Resting), s.workers[w].subject, s.workers[w].phase.upTo, ByWorker(w)))
  {
    var subject := s.workers[w].subject;
    assert WorkerInv(L, s.log, Cursor(s, subject), s.workers[w]);
    SetWorkerKeeps(L, s, w, Resting);
    AckKeepsRest(L, SetWorker(s, w, Resting), subject, s.workers[w].phase.upTo, ByWorker(w));
  }

  lemma BeginGatherKeeps(L: Language, s: State, g: string, wanted: set<string>, rounds: nat)
    requires Inv(L, s) && g in s.gathers && rounds >= 1
    ensures Inv(L, SetGather(s, g, Starting(Begun(wanted, rounds))))
  {
    assert RowsAt(s.log, []) == [];
    SetGatherKeeps(L, s, g, Starting(Begun(wanted, rounds)));
  }

  lemma ReadCursorKeeps(L: Language, s: State, g: string)
    requires Inv(L, s) && g in s.gathers && s.gathers[g].phase.Starting?
    ensures Inv(L, SetGather(s, g, Reading(s.gathers[g].phase.p, Cursor(s, s.gathers[g].subject))))
  {
    var x := s.gathers[g];
    assert GatherInv(L, s.log, Cursor(s, x.subject), s.crossed, g, x);
    forall k: nat | (x.subject, k) in s.crossed ensures k < Cursor(s, x.subject) {
      assert CrossInv(s, x.subject, k);
    }
    SetGatherKeeps(L, s, g, Reading(x.phase.p, Cursor(s, x.subject)));
  }

  lemma LookedFinds(L: Language, log: seq<Entry>, p: Progress, from: nat)
    requires from <= |log| && Below(p.read, from) && FoundIn(L, log, p.wanted, p.read, p.found)
    ensures FoundIn(L, log, p.wanted, Looked(L, log, p, from).read, Looked(L, log, p, from).found)
  {
    var read := Looked(L, log, p, from).read;
    assert RowsAt(log, read) == RowsAt(log, p.read) + log[from..];
    GatherConcat(Read(L), map[], p.wanted, RowsAt(log, p.read), log[from..]);
  }

  lemma LookedIsWhole(L: Language, s: State, g: string)
    requires Inv(L, s) && g in s.gathers && s.gathers[g].phase.Reading? && s.gathers[g].phase.from <= |s.log|
    ensures var x := s.gathers[g];
            var p := Looked(L, s.log, x.phase.p, x.phase.from);
            Whole(s.crossed, x.subject, g, p.read, |s.log|) && forall k | x.phase.from <= k < |s.log| :: k in p.read
  {
    var x := s.gathers[g];
    var from := x.phase.from;
    var p := Looked(L, s.log, x.phase.p, from);
    assert GatherInv(L, s.log, Cursor(s, x.subject), s.crossed, g, x);
    forall k | from <= k < |s.log| ensures k in p.read {
      assert p.read[|x.phase.p.read| + (k - from)] == k;
    }
    if |x.phase.p.read| > 0 { assert p.read[0] == x.phase.p.read[0]; }
  }

  lemma LookedIsRanged(L: Language, log: seq<Entry>, p: Progress, from: nat)
    requires from < |log| && Ranged(Reading(p, from)) && Below(p.read, from)
    ensures Ranged(Acking(Looked(L, log, p, from), from, |log|))
  {
    var q := Looked(L, log, p, from);
    if p.read == [] { assert q.read == Positions(from, |log|); } else { assert q.read[0] == p.read[0]; }
  }

  lemma RoundKeeps(L: Language, s: State, g: string)
    requires Inv(L, s) && g in s.gathers && s.gathers[g].phase.Reading? && s.gathers[g].phase.from < |s.log|
    ensures var phase := s.gathers[g].phase;
            Inv(L, SetGather(s, g, Acking(Looked(L, s.log, phase.p, phase.from), phase.from, |s.log|)))
  {
    var x := s.gathers[g];
    assert GatherInv(L, s.log, Cursor(s, x.subject), s.crossed, g, x);
    LookedFinds(L, s.log, x.phase.p, x.phase.from);
    LookedIsWhole(L, s, g);
    LookedIsRanged(L, s.log, x.phase.p, x.phase.from);
    SetGatherKeeps(L, s, g, Acking(Looked(L, s.log, x.phase.p, x.phase.from), x.phase.from, |s.log|));
  }

  lemma ReturnKeeps(L: Language, s: State, g: string, p: Progress)
    requires Inv(L, s) && g in s.gathers && FoundIn(L, s.log, p.wanted, p.read, p.found)
    requires Window(p.read, p.asked, p.start, p.head) && p.head <= |s.log|
    requires Whole(s.crossed, s.gathers[g].subject, g, p.read, p.head)
    ensures Inv(L, Return(s, g, p))
  {
    SetGatherKeeps(L, s, g, Idle);
    var s' := Return(s, g, p);
    forall subject ensures CursorInv(L, s', subject) { assert CursorInv(L, SetGather(s, g, Idle), subject); }
    forall subject, k | (subject, k) in s'.crossed ensures CrossInv(s', subject, k) {
      assert CrossInv(SetGather(s, g, Idle), subject, k);
    }
  }

  /** After its ack a gather may go on from, or return, what it has. */
  lemma OwnAck(L: Language, s: State, g: string)
    requires Inv(L, s) && g in s.gathers && s.gathers[g].phase.Acking?
    ensures var x := s.gathers[g];
            var idle := SetGather(s, g, Idle);
            var acked := Acked(idle, x.subject, x.phase.upTo, ByGather(g));
            Inv(L, acked) && FoundIn(L, s.log, x.phase.p.wanted, x.phase.p.read, x.phase.p.found) &&
            Below(x.phase.p.read, Cursor(acked, x.subject)) &&
            Whole(acked.crossed, x.subject, g, x.phase.p.read, Cursor(acked, x.subject))
  {
    var x := s.gathers[g];
    assert GatherInv(L, s.log, Cursor(s, x.subject), s.crossed, g, x);
    SetGatherKeeps(L, s, g, Idle);
    AckKeepsRest(L, SetGather(s, g, Idle), x.subject, x.phase.upTo, ByGather(g));
    OwnAckIsWhole(L, s, g);
  }

  lemma OwnAckIsWhole(L: Language, s: State, g: string)
    requires Inv(L, s) && g in s.gathers && s.gathers[g].phase.Acking?
    ensures var x := s.gathers[g];
            var acked := Acked(SetGather(s, g, Idle), x.subject, x.phase.upTo, ByGather(g));
            Whole(acked.crossed, x.subject, g, x.phase.p.read, Cursor(acked, x.subject))
  {
    var x := s.gathers[g];
    var acked := Acked(SetGather(s, g, Idle), x.subject, x.phase.upTo, ByGather(g));
    assert GatherInv(L, s.log, Cursor(s, x.subject), s.crossed, g, x);
    assert CursorInv(L, s, x.subject);
    if |x.phase.p.read| > 0 {
      forall k | x.phase.p.read[0] <= k < Cursor(acked, x.subject) && k !in x.phase.p.read
        ensures (x.subject, k) in acked.crossed && acked.crossed[(x.subject, k)] != ByGather(g)
      {
        assert (x.subject, k) in s.crossed;
        assert CrossInv(s, x.subject, k);
      }
    }
  }

  /** With its last round acked, the gather returns. */
  lemma LastAckKeeps(L: Language, s: State, g: string)
    requires Inv(L, s) && g in s.gathers && s.gathers[g].phase.Acking? && s.gathers[g].phase.p.rounds <= 1
    ensures Inv(L, RoundAcked(s, g))
  {
    var x := s.gathers[g];
    assert GatherInv(L, s.log, Cursor(s, x.subject), s.crossed, g, x);
    OwnAck(L, s, g);
    ReturnKeeps(L, Acked(SetGather(s, g, Idle), x.subject, x.phase.upTo, ByGather(g)), g, x.phase.p);
  }

  /** Otherwise it goes on to the next. */
  lemma RoundAckKeeps(L: Language, s: State, g: string)
    requires Inv(L, s) && g in s.gathers && s.gathers[g].phase.Acking? && s.gathers[g].phase.p.rounds > 1
    ensures Inv(L, RoundAcked(s, g))
  {
    var x := s.gathers[g];
    assert GatherInv(L, s.log, Cursor(s, x.subject), s.crossed, g, x);
    OwnAck(L, s, g);
    SetGatherKeeps(L, Acked(SetGather(s, g, Idle), x.subject, x.phase.upTo, ByGather(g)), g,
                   Starting(x.phase.p.(rounds := x.phase.p.rounds - 1)));
  }

  lemma AckRoundKeeps(L: Language, s: State, g: string)
    requires Inv(L, s) && g in s.gathers && s.gathers[g].phase.Acking?
    ensures Inv(L, RoundAcked(s, g))
  {
    if s.gathers[g].phase.p.rounds <= 1 { LastAckKeeps(L, s, g); } else { RoundAckKeeps(L, s, g); }
  }

  lemma GatherRoundKeeps(L: Language, s: State, s': State, g: string)
    requires Inv(L, s) && Next(L, s, s', GatherRound(g))
    ensures Inv(L, s')
  {
    var x := s.gathers[g];
    assert GatherInv(L, s.log, Cursor(s, x.subject), s.crossed, g, x);
    if x.phase.from == |s.log| {
      ReturnKeeps(L, s, g, Marked(x.phase.p, x.phase.from, |s.log|));
    } else {
      RoundKeeps(L, s, g);
    }
  }

  lemma StepKeepsInv(L: Language, s: State, s': State, step: Step)
    requires Inv(L, s) && Next(L, s, s', step)
    ensures Inv(L, s')
  {
    match step
    case Post(sender, body) => AppendKeeps(L, s, Entry(sender, body, Posted));
    case BeginPass(w) => SetWorkerKeeps(L, s, w, Paging(Cursor(s, s.workers[w].subject)));
    case ReadPages(w) => ReadPagesKeeps(L, s, w);
    case HandleNext(w, outcome) => HandleKeeps(L, s, w, outcome);
    case AckPass(w) => AckPassKeeps(L, s, w);
    case Crash(w) => SetWorkerKeeps(L, s, w, Resting);
    case BeginGather(g, wanted, rounds) => BeginGatherKeeps(L, s, g, wanted, if rounds > 1 then rounds else 1);
    case ReadCursor(g) => ReadCursorKeeps(L, s, g);
    case GatherRound(g) => GatherRoundKeeps(L, s, s', g);
    case AckRound(g) => AckRoundKeeps(L, s, g);
    case CrashGather(g) => SetGatherKeeps(L, s, g, Idle);
  }

  lemma ReadPagesKeeps(L: Language, s: State, w: string)
    requires Inv(L, s) && w in s.workers && s.workers[w].phase.Paging? && s.workers[w].phase.from <= |s.log|
    ensures Inv(L, SetWorker(s, w, Serving(s.workers[w].phase.from, |s.log|, s.workers[w].phase.from)))
  {
    assert WorkerInv(L, s.log, Cursor(s, s.workers[w].subject), s.workers[w]);
    SetWorkerKeeps(L, s, w, Serving(s.workers[w].phase.from, |s.log|, s.workers[w].phase.from));
  }

  // ---------- whole runs ----------

  ghost predicate Linked(L: Language, states: seq<State>, steps: seq<Step>) {
    |states| == |steps| + 1 && forall i | 0 <= i < |steps| :: Next(L, states[i], states[i + 1], steps[i])
  }

  ghost predicate IsRun(L: Language, states: seq<State>, steps: seq<Step>) {
    Linked(L, states, steps) && Init(states[0])
  }

  lemma {:induction false} RunKeepsInv(L: Language, states: seq<State>, steps: seq<Step>, i: nat)
    requires IsRun(L, states, steps) && i < |states|
    ensures Inv(L, states[i])
  {
    if i > 0 {
      RunKeepsInv(L, states, steps, i - 1);
      StepKeepsInv(L, states[i - 1], states[i], steps[i - 1]);
    }
  }

  /** At least once: at any moment of any run, with any crashes, a task for a subject below its
      cursor has a reply from it posted later in the log, unless it was a gather under the same
      subject that acked over it. */
  lemma AtLeastOnce(L: Language, states: seq<State>, steps: seq<Step>, i: nat, subject: string, p: nat)
    requires IsRun(L, states, steps) && i < |states| && p < Cursor(states[i], subject)
    ensures p < |states[i].log| && (subject, p) in states[i].crossed
    ensures TaskAt(L, states[i].log, subject, p) ==>
              Answered(states[i].log, subject, p) || states[i].crossed[(subject, p)].ByGather?
  {
    RunKeepsInv(L, states, steps, i);
    assert CursorInv(L, states[i], subject);
  }

  predicate SameWorkers(s: State, s': State) {
    s'.workers.Keys == s.workers.Keys && forall w | w in s.workers :: s'.workers[w].subject == s.workers[w].subject
  }

  predicate SameGathers(s: State, s': State) {
    s'.gathers.Keys == s.gathers.Keys && forall g | g in s.gathers :: s'.gathers[g].subject == s.gathers[g].subject
  }

  lemma StepKeepsWorker(L: Language, s: State, s': State, step: Step, w: string)
    requires Next(L, s, s', step)
    ensures w in s'.workers <==> w in s.workers
    ensures w in s.workers ==> s'.workers[w].subject == s.workers[w].subject
  {
  }

  lemma StepKeepsGather(L: Language, s: State, s': State, step: Step, g: string)
    requires Next(L, s, s', step)
    ensures g in s'.gathers <==> g in s.gathers
    ensures g in s.gathers ==> s'.gathers[g].subject == s.gathers[g].subject
  {
  }

  lemma StepKeepsWorkers(L: Language, s: State, s': State, step: Step)
    requires Next(L, s, s', step)
    ensures SameWorkers(s, s')
  {
    forall w ensures w in s'.workers <==> w in s.workers { StepKeepsWorker(L, s, s', step, w); }
    forall w | w in s.workers ensures s'.workers[w].subject == s.workers[w].subject {
      StepKeepsWorker(L, s, s', step, w);
    }
  }

  lemma StepKeepsGathers(L: Language, s: State, s': State, step: Step)
    requires Next(L, s, s', step)
    ensures SameGathers(s, s')
  {
    forall g ensures g in s'.gathers <==> g in s.gathers { StepKeepsGather(L, s, s', step, g); }
    forall g | g in s.gathers ensures s'.gathers[g].subject == s.gathers[g].subject {
      StepKeepsGather(L, s, s', step, g);
    }
  }

  /** The instances and their subjects do not change. */
  lemma {:induction false} PartiesStay(L: Language, states: seq<State>, steps: seq<Step>, i: nat)
    requires Linked(L, states, steps) && i < |states|
    ensures SameWorkers(states[0], states[i]) && SameGathers(states[0], states[i])
  {
    if i > 0 {
      PartiesStay(L, states, steps, i - 1);
      StepKeepsWorkers(L, states[i - 1], states[i], steps[i - 1]);
      StepKeepsGathers(L, states[i - 1], states[i], steps[i - 1]);
    }
  }

  /** A subject under which nobody gathers is served at least once, without exception. */
  lemma WorkersAreServed(L: Language, states: seq<State>, steps: seq<Step>, i: nat, subject: string)
    requires IsRun(L, states, steps) && i < |states| && NobodyGathers(states[0], subject)
    ensures ServedBetween(L, states[i].log, subject, 0, Cursor(states[i], subject))
  {
    var s := states[i];
    RunKeepsInv(L, states, steps, i);
    PartiesStay(L, states, steps, i);
    assert CursorInv(L, s, subject);
    forall p: nat | p < Cursor(s, subject) && TaskAt(L, s.log, subject, p) ensures Answered(s.log, subject, p) {
      assert CrossInv(s, subject, p);
    }
  }

  predicate NobodyGathers(s: State, subject: string) {
    forall g | g in s.gathers :: s.gathers[g].subject != subject
  }

  /** Whatever these parties do, every task for the subject below its cursor is answered. */
  ghost predicate AlwaysServed(L: Language, s0: State, subject: string) {
    forall states: seq<State>, steps: seq<Step>, i: nat | IsRun(L, states, steps) && states[0] == s0 && i < |states| ::
      ServedBetween(L, states[i].log, subject, 0, Cursor(states[i], subject))
  }

  lemma LastAckOfOne(L: Language, s: State, g: string, p: Progress)
    requires g in s.gathers && s.gathers[g].phase == Acking(p, 0, 1) && p.rounds <= 1 && s.cursors == map[]
    ensures Next(L, s, RoundAcked(s, g), AckRound(g))
    ensures RoundAcked(s, g).log == s.log && Cursor(RoundAcked(s, g), s.gathers[g].subject) == 1
  {
  }

  /** A gather of one round that reads the only entry, and acks it. */
  lemma OneRound(L: Language, s: State, g: string, e: Entry) returns (s1: State, s2: State, s3: State, s4: State)
    requires s.log == [e] && s.cursors == map[] && s.crossed == map[] && g in s.gathers && s.gathers[g].phase.Idle?
    ensures Next(L, s, s1, BeginGather(g, {}, 1)) && Next(L, s1, s2, ReadCursor(g))
    ensures Next(L, s2, s3, GatherRound(g)) && Next(L, s3, s4, AckRound(g))
    ensures s4.log == s.log && Cursor(s4, s.gathers[g].subject) == 1
  {
    var p := Begun({}, 1);
    var q := Looked(L, [e], p, 0);
    s1 := SetGather(s, g, Starting(p));
    s2 := SetGather(s1, g, Reading(p, 0));
    s3 := SetGather(s2, g, Acking(q, 0, 1));
    s4 := RoundAcked(s3, g);
    LastAckOfOne(L, s3, g, q);
  }

  lemma LinkOne(L: Language, states: seq<State>, steps: seq<Step>, s': State, step: Step)
    requires Linked(L, states, steps) && Next(L, states[|steps|], s', step)
    ensures Linked(L, states + [s'], steps + [step])
  {
  }

  lemma TwoLinked(L: Language, states: seq<State>, steps: seq<Step>, s1: State, s2: State, a: Step, b: Step)
    requires Linked(L, states, steps) && Next(L, states[|steps|], s1, a) && Next(L, s1, s2, b)
    ensures Linked(L, states + [s1, s2], steps + [a, b])
  {
    LinkOne(L, states, steps, s1, a);
    LinkOne(L, states + [s1], steps + [a], s2, b);
    assert states + [s1] + [s2] == states + [s1, s2] && steps + [a] + [b] == steps + [a, b];
  }

  lemma OneRoundLinked(L: Language, states: seq<State>, steps: seq<Step>, g: string, e: Entry)
    returns (more: seq<State>)
    requires Linked(L, states, steps)
    requires var s := states[|steps|];
             s.log == [e] && s.cursors == map[] && s.crossed == map[] && g in s.gathers && s.gathers[g].phase.Idle?
    ensures |more| == 4 && more[3].log == [e] && Cursor(more[3], states[|steps|].gathers[g].subject) == 1
    ensures Linked(L, states + more, steps + [BeginGather(g, {}, 1), ReadCursor(g), GatherRound(g), AckRound(g)])
  {
    var s1, s2, s3, s4 := OneRound(L, states[|steps|], g, e);
    TwoLinked(L, states, steps, s1, s2, BeginGather(g, {}, 1), ReadCursor(g));
    TwoLinked(L, states + [s1, s2], steps + [BeginGather(g, {}, 1), ReadCursor(g)], s3, s4, GatherRound(g), AckRound(g));
    more := [s1, s2, s3, s4];
    assert states + [s1, s2] + [s3, s4] == states + more;
    assert steps + [BeginGather(g, {}, 1), ReadCursor(g)] + [GatherRound(g), AckRound(g)]
        == steps + [BeginGather(g, {}, 1), ReadCursor(g), GatherRound(g), AckRound(g)];
  }

  /** Any gather under the subject can lose it a task: it reads the task and acks over it. */
  lemma GatherLosesTask(L: Language, s0: State, g: string, sender: string, body: string)
    returns (states: seq<State>, steps: seq<Step>)
    requires Init(s0) && g in s0.gathers && L.taskIn(s0.gathers[g].subject, sender, body).Some?
    ensures IsRun(L, states, steps) && states[0] == s0 && |states| == 6
    ensures var subject := s0.gathers[g].subject;
            TaskAt(L, states[5].log, subject, 0) && 0 < Cursor(states[5], subject) &&
            !Answered(states[5].log, subject, 0)
  {
    var e := Entry(sender, body, Posted);
    var s1 := s0.(log := [e]);
    assert [] + [e] == [e];
    LinkOne(L, [s0], [], s1, Post(sender, body));
    var more := OneRoundLinked(L, [s0, s1], [Post(sender, body)], g, e);
    states := [s0, s1] + more;
    steps := [Post(sender, body)] + [BeginGather(g, {}, 1), ReadCursor(g), GatherRound(g), AckRound(g)];
  }

  /** At least once, exactly: a subject to which a task can be sent is always served if and only if no
      gather runs under it. */
  lemma AtLeastOnceExactly(L: Language, s0: State, subject: string, sender: string, body: string)
    requires Init(s0) && L.taskIn(subject, sender, body).Some?
    ensures AlwaysServed(L, s0, subject) <==> NobodyGathers(s0, subject)
  {
    if NobodyGathers(s0, subject) {
      forall states: seq<State>, steps: seq<Step>, i: nat | IsRun(L, states, steps) && states[0] == s0 && i < |states|
        ensures ServedBetween(L, states[i].log, subject, 0, Cursor(states[i], subject))
      {
        WorkersAreServed(L, states, steps, i, subject);
      }
    } else {
      var g :| g in s0.gathers && s0.gathers[g].subject == subject;
      var states, steps := GatherLosesTask(L, s0, g, sender, body);
      assert !ServedBetween(L, states[5].log, subject, 0, Cursor(states[5], subject));
    }
  }
}
