/** What gathers return, over whole runs of the protocol: the first result among what they read, which is
    the log from their cursor to the head but for what others take on the way, and what a later gather no
    longer sees. */
module Gathers {
  import opened Options
  import opened Orchestration
  import opened Agents
  import opened Protocol

  // ---------- the first result wins ----------

  /** The entry at `p` reads as a result for this id, whoever posted it. */
  predicate ReadsAs(L: Language, log: seq<Entry>, p: nat, id: string) {
    p < |log| && L.resultIn(log[p].sender, log[p].body).Some? &&
    L.resultIn(log[p].sender, log[p].body).value.taskId == id
  }

  /** The entry at `p` is a worker's reply to a task with this id. */
  predicate RepliesTo(log: seq<Entry>, p: nat, id: string) {
    p < |log| && log[p].origin.Replied? && log[p].origin.task.id == id
  }

  lemma RepliesReadAsResults(L: Language, log: seq<Entry>, p: nat, id: string)
    requires Lawful(L) && LogInv(L, log) && RepliesTo(log, p, id)
    ensures ReadsAs(L, log, p, id)
  {
    assert EntryInv(L, log, p);
  }

  /** Among the positions read, the `m`-th is the first with a result for the id. */
  predicate FirstRead(L: Language, log: seq<Entry>, read: seq<nat>, m: nat, id: string) {
    m < |read| && ReadsAs(L, log, read[m], id) && forall j | 0 <= j < m :: !ReadsAs(L, log, read[j], id)
  }

  lemma ResultsAreRead(L: Language, log: seq<Entry>, read: seq<nat>, i: int, id: string)
    requires Below(read, |log|)
    ensures ResultAt(Read(L), RowsAt(log, read), i, id) <==> 0 <= i < |read| && ReadsAs(L, log, read[i], id)
  {
  }

  lemma {:induction false} LeastRead(L: Language, log: seq<Entry>, read: seq<nat>, j: nat, id: string) returns (m: nat)
    requires j < |read| && ReadsAs(L, log, read[j], id)
    ensures m <= j && FirstRead(L, log, read, m, id)
    decreases j
  {
    if i :| 0 <= i < j && ReadsAs(L, log, read[i], id) {
      m := LeastRead(L, log, read, i, id);
    } else {
      m := j;
    }
  }

  lemma FoundIsFirst(L: Language, log: seq<Entry>, wanted: set<string>, read: seq<nat>,
                     found: map<string, TaskResult>, id: string, j: nat)
    requires Below(read, |log|) && FoundIn(L, log, wanted, read, found)
    requires id in wanted && FirstRead(L, log, read, j, id)
    ensures id in found && L.resultIn(log[read[j]].sender, log[read[j]].body) == Some(found[id])
  {
    var rows := RowsAt(log, read);
    ResultsAreRead(L, log, read, j, id);
    forall i | 0 <= i < j ensures !ResultAt(Read(L), rows, i, id) { ResultsAreRead(L, log, read, i, id); }
    FirstResultWins(Read(L), map[], wanted, rows, id, j);
  }

  lemma OnlyResults(L: Language, log: seq<Entry>, wanted: set<string>, read: seq<nat>,
                    found: map<string, TaskResult>, id: string)
    requires Below(read, |log|) && FoundIn(L, log, wanted, read, found) && id in found
    ensures id in wanted && exists m: nat :: FirstRead(L, log, read, m, id)
  {
    var rows := RowsAt(log, read);
    if id !in wanted || forall i :: !ResultAt(Read(L), rows, i, id) {
      NothingElseFound(Read(L), map[], wanted, rows, id);
    } else {
      var i :| ResultAt(Read(L), rows, i, id);
      ResultsAreRead(L, log, read, i, id);
      var m := LeastRead(L, log, read, i, id);
    }
  }

  /** What a gather returned for an id is the first result for it among the positions it read; and every
      wanted id with a result there is returned. */
  lemma GatherIsExact(L: Language, states: seq<State>, steps: seq<Step>, i: nat, k: nat, id: string, j: nat)
    requires IsRun(L, states, steps) && i < |states| && k < |states[i].returned|
    ensures var r := states[i].returned[k];
            var log := states[i].log;
            Below(r.read, |log|) && Ascending(r.read) &&
            (id in r.found ==> id in r.wanted && exists m: nat :: FirstRead(L, log, r.read, m, id)) &&
            (id in r.wanted && FirstRead(L, log, r.read, j, id) ==>
               id in r.found && L.resultIn(log[r.read[j]].sender, log[r.read[j]].body) == Some(r.found[id]))
  {
    RunKeepsInv(L, states, steps, i);
    var r := states[i].returned[k];
    assert GatheredInv(L, states[i].log, states[i].crossed, r);
    if id in r.found { OnlyResults(L, states[i].log, r.wanted, r.read, r.found, id); }
    if id in r.wanted && FirstRead(L, states[i].log, r.read, j, id) {
      FoundIsFirst(L, states[i].log, r.wanted, r.read, r.found, id, j);
    }
  }

  // ---------- from the cursor to the head ----------

  /** Another reader under the gather's subject acked over the position. */
  predicate TakenByAnother(s: State, r: Gathered, p: nat) {
    (r.reader, p) in s.crossed && s.crossed[(r.reader, p)] != ByGather(r.instance)
  }

  /** From the cursor it started from to the head its last look saw, a gather has read every position but
      those another reader of the same cursor acked over, and it has read nothing else. */
  lemma SkipsOnlyWhatOthersTook(L: Language, states: seq<State>, steps: seq<Step>, i: nat, k: nat, p: nat)
    requires IsRun(L, states, steps) && i < |states| && k < |states[i].returned|
    ensures var r := states[i].returned[k];
            r.start <= r.head <= |states[i].log| &&
            (r.start <= p < r.head ==> p in r.read || TakenByAnother(states[i], r, p)) &&
            (p in r.read ==> r.start <= p < r.head)
  {
    RunKeepsInv(L, states, steps, i);
    assert GatheredInv(L, states[i].log, states[i].crossed, states[i].returned[k]);
  }

  /** No other instance runs under the subject of the gather. */
  predicate SoleReader(s: State, g: string)
    requires g in s.gathers
  {
    (forall h | h in s.gathers && h != g :: s.gathers[h].subject != s.gathers[g].subject) &&
    forall w | w in s.workers :: s.workers[w].subject != s.gathers[g].subject
  }

  /** No one can read under the gather's cursor between its rounds. */
  predicate Undivided(s: State, g: string, asked: nat) {
    asked <= 1 || (g in s.gathers && SoleReader(s, g))
  }

  lemma {:induction false} FullFrom(read: seq<nat>, start: nat, head: nat, i: nat)
    requires Ascending(read) && |read| > 0 && read[0] == start && start + i < head
    requires forall k | start <= k < head :: k in read
    ensures i < |read| && read[i] == start + i
  {
    if i > 0 {
      FullFrom(read, start, head, i - 1);
      assert start + i in read;
      var j :| 0 <= j < |read| && read[j] == start + i;
      assert read[i - 1] < read[j] && j >= i;
      assert read[i - 1] < read[i];
    }
  }

  lemma FullIsPositions(read: seq<nat>, start: nat, head: nat)
    requires Ascending(read) && Below(read, head) && start <= head
    requires if |read| == 0 then start == head else read[0] == start
    requires forall k | start <= k < head :: k in read
    ensures read == Positions(start, head)
  {
    if |read| > 0 {
      forall i | 0 <= i < head - start ensures i < |read| && read[i] == start + i {
        FullFrom(read, start, head, i);
      }
      FullFrom(read, start, head, head - start - 1);
      assert read[|read| - 1] < head;
      assert |read| == head - start;
    }
  }

  /** A gather of one round, and one that has its cursor to itself, reads everything from its cursor to the
      head its last look saw. */
  lemma SoleReaderMissesNothing(L: Language, states: seq<State>, steps: seq<Step>, i: nat, k: nat)
    requires IsRun(L, states, steps) && i < |states| && k < |states[i].returned|
    requires Undivided(states[0], states[i].returned[k].instance, states[i].returned[k].asked)
    ensures var r := states[i].returned[k];
            r.start <= r.head && r.read == Positions(r.start, r.head)
  {
    var s, r := states[i], states[i].returned[k];
    RunKeepsOrder(L, states, steps, i);
    PartiesStay(L, states, steps, i);
    assert GatheredInv(L, s.log, s.crossed, r) && Behind(s, r);
    if r.asked > 1 {
      forall p | r.start <= p < r.head ensures p in r.read {
        NobodyElse(L, s, r, p);
        SkipsOnlyWhatOthersTook(L, states, steps, i, k, p);
      }
      FullIsPositions(r.read, r.start, r.head);
    }
  }

  lemma NobodyElse(L: Language, s: State, r: Gathered, p: nat)
    requires Inv(L, s) && r.instance in s.gathers && s.gathers[r.instance].subject == r.reader
    requires SoleReader(s, r.instance)
    ensures !TakenByAnother(s, r, p)
  {
    if (r.reader, p) in s.crossed { assert CrossInv(s, r.reader, p); }
  }

  lemma UndividedReads(L: Language, states: seq<State>, steps: seq<Step>, i: nat, k: nat, p: nat)
    requires IsRun(L, states, steps) && i < |states| && k < |states[i].returned|
    requires states[i].returned[k].start <= p < states[i].returned[k].head
    requires Undivided(states[0], states[i].returned[k].instance, states[i].returned[k].asked)
    ensures p in states[i].returned[k].read
  {
    var r := states[i].returned[k];
    SoleReaderMissesNothing(L, states, steps, i, k);
    assert r.read[p - r.start] == p;
  }

  /** Before the first of the positions read that has a result, there is none among them. */
  lemma EarlierIsUnread(L: Language, log: seq<Entry>, read: seq<nat>, m: nat, id: string, q: nat)
    requires Ascending(read) && FirstRead(L, log, read, m, id) && q < read[m] && ReadsAs(L, log, q, id)
    ensures q !in read
  {
    forall j | 0 <= j < |read| ensures read[j] != q {
      if j > m { assert read[m] < read[j]; }
    }
  }

  /** A wanted id with a result at a position it read is found. */
  lemma ReadIsFound(L: Language, states: seq<State>, steps: seq<Step>, i: nat, k: nat, id: string, p: nat)
    requires IsRun(L, states, steps) && i < |states| && k < |states[i].returned|
    requires id in states[i].returned[k].wanted && p in states[i].returned[k].read && ReadsAs(L, states[i].log, p, id)
    ensures id in states[i].returned[k].found
  {
    var r := states[i].returned[k];
    var j :| 0 <= j < |r.read| && r.read[j] == p;
    var m := LeastRead(L, states[i].log, r.read, j, id);
    GatherIsExact(L, states, steps, i, k, id, m);
  }

  // ---------- the history is true ----------

  /** The step is the gather's own. */
  predicate Moves(step: Step, g: string) {
    match step
    case BeginGather(h, _, _) => h == g
    case ReadCursor(h) => h == g
    case GatherRound(h) => h == g
    case AckRound(h) => h == g
    case CrashGather(h) => h == g
    case _ => false
  }

  lemma OthersLeaveIt(L: Language, s: State, s': State, step: Step, g: string)
    requires Next(L, s, s', step) && !Moves(step, g) && g in s'.gathers
    ensures g in s.gathers && s'.gathers[g] == s.gathers[g]
  {
  }

  /** At `a` the call of the gather that is on at `i` reads its cursor for the first time. */
  predicate StartsAt(states: seq<State>, steps: seq<Step>, g: string, a: nat, i: nat)
    requires |states| == |steps| + 1 && i < |states|
  {
    a < i && steps[a] == ReadCursor(g) &&
    g in states[a].gathers && states[a].gathers[g].phase.Starting? && states[a].gathers[g].phase.p.read == [] &&
    forall j | a < j < i :: steps[j] != CrashGather(g) && !(steps[j].BeginGather? && steps[j].g == g)
  }

  /** A gather on its way, past its first reading of the cursor. */
  predicate UnderWay(s: State, g: string) {
    g in s.gathers && !s.gathers[g].phase.Idle? &&
    (s.gathers[g].phase.Starting? ==> s.gathers[g].phase.p.read != [])
  }

  lemma WasUnderWay(L: Language, s: State, s': State, step: Step, g: string)
    requires Next(L, s, s', step) && UnderWay(s', g)
    requires step == ReadCursor(g) ==> s.gathers[g].phase.p.read != []
    ensures UnderWay(s, g) && (!Moves(step, g) ==> s'.gathers[g] == s.gathers[g])
  {
    if !Moves(step, g) { OthersLeaveIt(L, s, s', step, g); }
  }

  /** What it holds from where it started. */
  predicate From(s: State, g: string, was: State)
    requires UnderWay(s, g) && g in was.gathers && was.gathers[g].phase.Starting?
  {
    var p := s.gathers[g].phase.p;
    s.gathers[g].subject == was.gathers[g].subject &&
    p.wanted == was.gathers[g].phase.p.wanted && p.asked == was.gathers[g].phase.p.asked &&
    if p.read == [] then s.gathers[g].phase.Reading? ==> s.gathers[g].phase.from == Cursor(was, s.gathers[g].subject)
    else p.start == Cursor(was, s.gathers[g].subject)
  }

  lemma OwnStepFrom(L: Language, s: State, s': State, step: Step, g: string, was: State)
    requires Next(L, s, s', step) && Moves(step, g) && UnderWay(s, g) && UnderWay(s', g)
    requires g in was.gathers && was.gathers[g].phase.Starting? && From(s, g, was)
    ensures From(s', g, was) && !step.BeginGather? && !step.CrashGather?
  {
  }

  /** Reading the cursor for the first time, it starts. */
  lemma StartsHere(L: Language, states: seq<State>, steps: seq<Step>, i: nat, g: string)
    requires 0 < i < |states| == |steps| + 1 && steps[i - 1] == ReadCursor(g)
    requires Next(L, states[i - 1], states[i], steps[i - 1]) && states[i - 1].gathers[g].phase.p.read == []
    ensures StartsAt(states, steps, g, i - 1, i) && From(states[i], g, states[i - 1])
  {
  }

  lemma StillOn(states: seq<State>, steps: seq<Step>, g: string, a: nat, b: nat)
    requires |states| == |steps| + 1 && b < |steps| && StartsAt(states, steps, g, a, b)
    requires steps[b] != CrashGather(g) && !(steps[b].BeginGather? && steps[b].g == g)
    ensures StartsAt(states, steps, g, a, b + 1)
  {
  }

  lemma {:induction false} CallStarts(L: Language, states: seq<State>, steps: seq<Step>, i: nat, g: string)
    returns (a: nat)
    requires IsRun(L, states, steps) && i < |states| && UnderWay(states[i], g)
    ensures StartsAt(states, steps, g, a, i) && From(states[i], g, states[a])
  {
    var step := steps[i - 1];
    assert Next(L, states[i - 1], states[i], step);
    if step == ReadCursor(g) && states[i - 1].gathers[g].phase.p.read == [] {
      StartsHere(L, states, steps, i, g);
      a := i - 1;
    } else {
      WasUnderWay(L, states[i - 1], states[i], step, g);
      a := CallStarts(L, states, steps, i - 1, g);
      if Moves(step, g) { OwnStepFrom(L, states[i - 1], states[i], step, g, states[a]); }
      StillOn(states, steps, g, a, i - 1);
    }
  }

  predicate IsAcking(s: State, g: string) {
    g in s.gathers && s.gathers[g].phase.Acking?
  }

  lemma StartsAcking(L: Language, s: State, s': State, step: Step, g: string)
    requires Next(L, s, s', step) && IsAcking(s', g)
    ensures !Moves(step, g) ==> IsAcking(s, g) && s'.gathers[g] == s.gathers[g]
    ensures Moves(step, g) ==>
              step == GatherRound(g) && !IsAcking(s, g) && s'.gathers[g].phase.p.head == |s.log|
  {
    if !Moves(step, g) { OthersLeaveIt(L, s, s', step, g); }
  }

  /** The look a gather is about to ack is its last. */
  lemma {:induction false} LastLook(L: Language, states: seq<State>, steps: seq<Step>, i: nat, g: string)
    returns (c: nat)
    requires IsRun(L, states, steps) && i < |states| && IsAcking(states[i], g)
    ensures c < i && steps[c] == GatherRound(g) && !IsAcking(states[c], g)
    ensures states[i].gathers[g].phase.p.head == |states[c].log|
    ensures forall j | c < j <= i :: IsAcking(states[j], g)
  {
    StartsAcking(L, states[i - 1], states[i], steps[i - 1], g);
    if Moves(steps[i - 1], g) { c := i - 1; } else { c := LastLook(L, states, steps, i - 1, g); }
  }

  /** What the step of a gather returned. */
  predicate Returns(s: State, s': State, step: Step, r: Gathered) {
    s'.returned == s.returned + [r] && r.instance in s.gathers && s.gathers[r.instance].subject == r.reader &&
    match step
    case GatherRound(g) =>
      g == r.instance && s.gathers[g].phase.Reading? && r.head == |s.log| &&
      r.start == (if s.gathers[g].phase.p.read == [] then s.gathers[g].phase.from else s.gathers[g].phase.p.start) &&
      r.wanted == s.gathers[g].phase.p.wanted && r.asked == s.gathers[g].phase.p.asked
    case AckRound(g) =>
      g == r.instance && s.gathers[g].phase.Acking? && r.head == s.gathers[g].phase.p.head &&
      r.start == s.gathers[g].phase.p.start &&
      r.wanted == s.gathers[g].phase.p.wanted && r.asked == s.gathers[g].phase.p.asked
    case _ => false
  }

  lemma OneReturn(L: Language, s: State, s': State, step: Step)
    requires Next(L, s, s', step)
    ensures s'.returned == s.returned || exists r :: Returns(s, s', step, r)
  {
    if s'.returned != s.returned {
      assert step.GatherRound? || step.AckRound?;
      assert Returns(s, s', step, s'.returned[|s.returned|]);
    }
  }

  lemma {:induction false} ReturnedAt(L: Language, states: seq<State>, steps: seq<Step>, i: nat, k: nat)
    returns (e: nat)
    requires IsRun(L, states, steps) && i < |states| && k < |states[i].returned|
    ensures e < i && |states[e].returned| == k && Returns(states[e], states[e + 1], steps[e], states[i].returned[k])
  {
    OneReturn(L, states[i - 1], states[i], steps[i - 1]);
    if k < |states[i - 1].returned| {
      e := ReturnedAt(L, states, steps, i - 1, k);
    } else {
      e := i - 1;
    }
  }

  /** The call behind what a gather returned: it first read its cursor at `a`, last looked at the log at
      `c`, and returned at `e`. */
  predicate IsCall(states: seq<State>, steps: seq<Step>, r: Gathered, a: nat, c: nat, e: nat)
    requires |states| == |steps| + 1
  {
    a < c <= e < |steps| && StartsAt(states, steps, r.instance, a, e) && steps[c] == GatherRound(r.instance) &&
    (forall j | c < j <= e :: IsAcking(states[j], r.instance)) &&
    states[a].gathers[r.instance].subject == r.reader &&
    states[a].gathers[r.instance].phase.p.wanted == r.wanted && states[a].gathers[r.instance].phase.p.asked == r.asked
  }

  /** The last look came after the first reading of the cursor. */
  lemma LooksAfterStart(states: seq<State>, steps: seq<Step>, g: string, a: nat, c: nat, e: nat)
    requires |states| == |steps| + 1 && c <= e < |steps| && StartsAt(states, steps, g, a, e)
    requires steps[c] == GatherRound(g) && forall j | c < j <= e :: IsAcking(states[j], g)
    ensures a < c
  {
    assert !IsAcking(states[a], g);
  }

  lemma CallReturns(L: Language, states: seq<State>, steps: seq<Step>, e: nat, r: Gathered) returns (a: nat, c: nat)
    requires IsRun(L, states, steps) && e < |steps| && Returns(states[e], states[e + 1], steps[e], r)
    requires UnderWay(states[e], r.instance) && Ranged(states[e].gathers[r.instance].phase)
    ensures IsCall(states, steps, r, a, c, e) && r.start == Cursor(states[a], r.reader) && r.head == |states[c].log|
  {
    a := CallStarts(L, states, steps, e, r.instance);
    if steps[e].GatherRound? { c := e; } else { c := LastLook(L, states, steps, e, r.instance); }
    LooksAfterStart(states, steps, r.instance, a, c, e);
  }

  /** Every gather that returned started from the cursor of its subject and went up to the head of the log:
      the history it carries is what the run did. */
  lemma ReadsFromItsCursor(L: Language, states: seq<State>, steps: seq<Step>, i: nat, k: nat)
    returns (a: nat, c: nat, e: nat)
    requires IsRun(L, states, steps) && i < |states| && k < |states[i].returned|
    ensures var r := states[i].returned[k];
            IsCall(states, steps, r, a, c, e) && e < i && states[e + 1].returned == states[e].returned + [r] &&
            |states[e].returned| == k &&
            r.start == Cursor(states[a], r.reader) && r.head == |states[c].log|
  {
    var r := states[i].returned[k];
    e := ReturnedAt(L, states, steps, i, k);
    RunKeepsInv(L, states, steps, e);
    assert GatherInv(L, states[e].log, Cursor(states[e], r.reader), states[e].crossed, r.instance,
                     states[e].gathers[r.instance]);
    a, c := CallReturns(L, states, steps, e, r);
  }

  // ---------- acked results are not seen again ----------

  predicate Before(a: seq<nat>, b: seq<nat>) {
    forall i, j | 0 <= i < |a| && 0 <= j < |b| :: a[i] < b[j]
  }

  /** What the instance reads from now on lies after what it returned. */
  predicate Behind(s: State, r: Gathered) {
    r.instance in s.gathers && s.gathers[r.instance].subject == r.reader && Below(r.read, Cursor(s, r.reader)) &&
    match s.gathers[r.instance].phase
    case Idle => true
    case Starting(p) => Before(r.read, p.read)
    case Reading(p, from) => Before(r.read, p.read) && Below(r.read, from)
    case Acking(p, _, _) => Before(r.read, p.read)
  }

  predicate OrderInv(s: State) {
    (forall i | 0 <= i < |s.returned| :: Behind(s, s.returned[i])) &&
    forall i, j | 0 <= i < j < |s.returned| && s.returned[i].instance == s.returned[j].instance ::
      Before(s.returned[i].read, s.returned[j].read)
  }

  lemma CursorsAdvance(L: Language, s: State, s': State, step: Step, subject: string)
    requires Next(L, s, s', step)
    ensures Cursor(s, subject) <= Cursor(s', subject)
  {
  }

  lemma LookedIsBehind(L: Language, log: seq<Entry>, p: Progress, from: nat, read: seq<nat>)
    requires from <= |log| && Before(read, p.read) && Below(read, from)
    ensures Before(read, Looked(L, log, p, from).read)
  {
  }

  lemma RoundIsInTheLog(L: Language, s: State, s': State, g: string)
    requires Inv(L, s) && Next(L, s, s', GatherRound(g))
    ensures s.gathers[g].phase.from <= |s.log|
  {
    var x := s.gathers[g];
    assert GatherInv(L, s.log, Cursor(s, x.subject), s.crossed, g, x);
  }

  lemma RoundKeepsBehind(L: Language, s: State, s': State, g: string, r: Gathered)
    requires Next(L, s, s', GatherRound(g)) && s.gathers[g].phase.from <= |s.log| && Behind(s, r)
    ensures Behind(s', r)
  {
    if g == r.instance { LookedIsBehind(L, s.log, s.gathers[g].phase.p, s.gathers[g].phase.from, r.read); }
  }

  lemma AckKeepsBehind(L: Language, s: State, s': State, g: string, r: Gathered)
    requires Next(L, s, s', AckRound(g)) && Behind(s, r)
    ensures Behind(s', r)
  {
    CursorsAdvance(L, s, s', AckRound(g), r.reader);
  }

  lemma BeginKeepsBehind(L: Language, s: State, s': State, step: Step, r: Gathered)
    requires Next(L, s, s', step) && Behind(s, r) && (step.BeginGather? || step.ReadCursor? || step.CrashGather?)
    ensures Behind(s', r)
  {
  }

  lemma StepKeepsBehind(L: Language, s: State, s': State, step: Step, r: Gathered)
    requires Inv(L, s) && Next(L, s, s', step) && Behind(s, r)
    ensures Behind(s', r)
  {
    match step
    case BeginGather(_, _, _) => BeginKeepsBehind(L, s, s', step, r);
    case ReadCursor(_) => BeginKeepsBehind(L, s, s', step, r);
    case GatherRound(g) =>
      RoundIsInTheLog(L, s, s', g);
      RoundKeepsBehind(L, s, s', g, r);
    case AckRound(g) => AckKeepsBehind(L, s, s', g, r);
    case CrashGather(_) => BeginKeepsBehind(L, s, s', step, r);
    case _ => CursorsAdvance(L, s, s', step, r.reader); assert s'.gathers == s.gathers;
  }

  /** Either nothing is returned, or one gather whose reads lie below its cursor and after what the
      same instance returned before. */
  ghost predicate ReturnsInOrder(s: State, s': State) {
    s'.returned == s.returned ||
    (|s'.returned| == |s.returned| + 1 && s'.returned[..|s.returned|] == s.returned &&
     Behind(s', s'.returned[|s.returned|]) &&
     forall r: Gathered | Behind(s, r) && r.instance == s'.returned[|s.returned|].instance ::
       Before(r.read, s'.returned[|s.returned|].read))
  }

  lemma RoundReturns(L: Language, s: State, s': State, g: string)
    requires Inv(L, s) && Next(L, s, s', GatherRound(g))
    ensures ReturnsInOrder(s, s')
  {
    var x := s.gathers[g];
    assert GatherInv(L, s.log, Cursor(s, x.subject), s.crossed, g, x);
  }

  lemma AckReturns(L: Language, s: State, s': State, g: string)
    requires Inv(L, s) && Next(L, s, s', AckRound(g))
    ensures ReturnsInOrder(s, s')
  {
    var x := s.gathers[g];
    assert GatherInv(L, s.log, Cursor(s, x.subject), s.crossed, g, x);
  }

  lemma NewlyReturned(L: Language, s: State, s': State, step: Step)
    requires Inv(L, s) && Next(L, s, s', step)
    ensures ReturnsInOrder(s, s')
  {
    match step
    case GatherRound(g) => RoundReturns(L, s, s', g);
    case AckRound(g) => AckReturns(L, s, s', g);
    case _ =>
  }

  lemma StepKeepsAllBehind(L: Language, s: State, s': State, step: Step, i: nat)
    requires Inv(L, s) && OrderInv(s) && Next(L, s, s', step) && i < |s'.returned|
    ensures Behind(s', s'.returned[i])
  {
    NewlyReturned(L, s, s', step);
    if i < |s.returned| {
      assert s'.returned[i] == s.returned[i];
      StepKeepsBehind(L, s, s', step, s.returned[i]);
    }
  }

  lemma StaysBefore(s: State, s': State, i: nat, j: nat)
    requires OrderInv(s) && ReturnsInOrder(s, s')
    requires i < j < |s'.returned| && s'.returned[i].instance == s'.returned[j].instance
    ensures Before(s'.returned[i].read, s'.returned[j].read)
  {
    assert s'.returned[i] == s.returned[i] && Behind(s, s.returned[i]);
    if j < |s.returned| { assert s'.returned[j] == s.returned[j]; }
  }

  lemma StepKeepsOrder(L: Language, s: State, s': State, step: Step)
    requires Inv(L, s) && OrderInv(s) && Next(L, s, s', step)
    ensures OrderInv(s')
  {
    NewlyReturned(L, s, s', step);
    forall i | 0 <= i < |s'.returned| ensures Behind(s', s'.returned[i]) { StepKeepsAllBehind(L, s, s', step, i); }
    forall i, j | 0 <= i < j < |s'.returned| && s'.returned[i].instance == s'.returned[j].instance
      ensures Before(s'.returned[i].read, s'.returned[j].read)
    {
      StaysBefore(s, s', i, j);
    }
  }

  lemma {:induction false} RunKeepsOrder(L: Language, states: seq<State>, steps: seq<Step>, i: nat)
    requires IsRun(L, states, steps) && i < |states|
    ensures Inv(L, states[i]) && OrderInv(states[i])
  {
    RunKeepsInv(L, states, steps, i);
    if i > 0 {
      RunKeepsOrder(L, states, steps, i - 1);
      StepKeepsOrder(L, states[i - 1], states[i], steps[i - 1]);
    }
  }

  /** A gather acks everything it read, asked for or not: a result that only stands at or below what an
      earlier gather of the same instance read is not found by a later one. */
  lemma ReadResultsAreGone(L: Language, states: seq<State>, steps: seq<Step>, i: nat, a: nat, b: nat, id: string)
    requires IsRun(L, states, steps) && i < |states| && a < b < |states[i].returned|
    requires states[i].returned[a].instance == states[i].returned[b].instance
    requires forall p: nat | ReadsAs(L, states[i].log, p, id) ::
               exists j | 0 <= j < |states[i].returned[a].read| :: p <= states[i].returned[a].read[j]
    ensures id !in states[i].returned[b].found
  {
    RunKeepsOrder(L, states, steps, i);
    var s := states[i];
    GatherIsExact(L, states, steps, i, b, id, 0);
    assert Before(s.returned[a].read, s.returned[b].read);
    forall m | 0 <= m < |s.returned[b].read| ensures !ReadsAs(L, s.log, s.returned[b].read[m], id) {
      assert forall j | 0 <= j < |s.returned[a].read| :: s.returned[a].read[j] < s.returned[b].read[m];
    }
  }
}
