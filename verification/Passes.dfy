/** One worker's pass in any run of the protocol, whatever posters, other workers and gathers do
    between its steps. */
module Passes {
  import opened Options
  import opened A2A
  import opened Orchestration
  import opened Agents
  import opened Protocol

  /** The worker neither crashes nor acks. */
  predicate SamePass(steps: seq<Step>, w: string) {
    forall i | 0 <= i < |steps| :: steps[i] != Crash(w) && steps[i] != AckPass(w)
  }

  function Added(before: seq<Entry>, after: seq<Entry>): seq<Entry> {
    if |before| <= |after| then after[|before|..] else []
  }

  function Adds(s: State, s': State, step: Step, w: string): seq<Entry> {
    if step.HandleNext? && step.w == w then Added(s.log, s'.log) else []
  }

  /** The entries the worker's own handling steps have appended, in the order of the log. */
  function Own(states: seq<State>, steps: seq<Step>, w: string, b: nat): seq<Entry>
    requires b <= |steps| && |states| == |steps| + 1
  {
    if b == 0 then []
    else Own(states, steps, w, b - 1) + Adds(states[b - 1], states[b], steps[b - 1], w)
  }

  /** The positions of a stretch of the log that hold a task for the subject. */
  function TasksBetween(L: Language, subject: string, log: seq<Entry>, lo: nat, hi: nat): seq<nat> {
    if hi <= lo then []
    else TasksBetween(L, subject, log, lo, hi - 1) + if TaskAt(L, log, subject, hi - 1) then [hi - 1] else []
  }

  /** The entry is the subject's reply to the task at `p`. */
  predicate RepliesToTaskAt(L: Language, log: seq<Entry>, subject: string, e: Entry, p: nat) {
    TaskAt(L, log, subject, p) && e.sender == subject && e.origin.Replied? && e.origin.taskPos == p &&
    L.taskIn(subject, log[p].sender, log[p].body) == Some(e.origin.task) &&
    e.body == L.answer(e.origin.task.id, e.origin.outcome)
  }

  /** One reply for each of the positions, in their order. */
  predicate OneReplyEach(L: Language, log: seq<Entry>, subject: string, entries: seq<Entry>, positions: seq<nat>) {
    |entries| == |positions| &&
    forall k | 0 <= k < |entries| :: RepliesToTaskAt(L, log, subject, entries[k], positions[k])
  }

  lemma {:induction false} TasksStay(L: Language, subject: string, a: seq<Entry>, b: seq<Entry>, lo: nat, hi: nat)
    requires a <= b && hi <= |a|
    ensures TasksBetween(L, subject, a, lo, hi) == TasksBetween(L, subject, b, lo, hi)
  {
    if lo < hi {
      TasksStay(L, subject, a, b, lo, hi - 1);
      assert a[hi - 1] == b[hi - 1];
    }
  }

  lemma RepliesStay(L: Language, a: seq<Entry>, b: seq<Entry>, subject: string, entries: seq<Entry>, positions: seq<nat>)
    requires a <= b && OneReplyEach(L, a, subject, entries, positions)
    ensures OneReplyEach(L, b, subject, entries, positions)
  {
    forall k | 0 <= k < |entries| ensures RepliesToTaskAt(L, b, subject, entries[k], positions[k]) {
      assert RepliesToTaskAt(L, a, subject, entries[k], positions[k]);
      assert a[positions[k]] == b[positions[k]];
    }
  }

  lemma LogsGrow(L: Language, s: State, s': State, step: Step)
    requires Next(L, s, s', step)
    ensures s.log <= s'.log
  {
  }

  /** The worker is in the middle of its pass, with `own` appended for what it has handled. */
  predicate InPass(L: Language, s: State, w: string, subject: string, from: nat, upTo: nat, own: seq<Entry>) {
    w in s.workers && s.workers[w].subject == subject && s.workers[w].phase.Serving? &&
    s.workers[w].phase.from == from && s.workers[w].phase.upTo == upTo && from <= s.workers[w].phase.next <= upTo &&
    upTo <= |s.log| &&
    OneReplyEach(L, s.log, subject, own, TasksBetween(L, subject, s.log, from, s.workers[w].phase.next))
  }

  lemma OtherStep(L: Language, s: State, s': State, step: Step, w: string, subject: string, from: nat, upTo: nat,
                  own: seq<Entry>)
    requires Next(L, s, s', step) && InPass(L, s, w, subject, from, upTo, own)
    requires step != Crash(w) && step != AckPass(w) && !(step.HandleNext? && step.w == w)
    ensures InPass(L, s', w, subject, from, upTo, own)
  {
    LogsGrow(L, s, s', step);
    var next := s.workers[w].phase.next;
    SameWorker(L, s, s', step, w);
    TasksStay(L, subject, s.log, s'.log, from, next);
    RepliesStay(L, s.log, s'.log, subject, own, TasksBetween(L, subject, s.log, from, next));
  }

  lemma SameWorker(L: Language, s: State, s': State, step: Step, w: string)
    requires Next(L, s, s', step) && w in s.workers && s.workers[w].phase.Serving?
    requires step != Crash(w) && step != AckPass(w) && !(step.HandleNext? && step.w == w)
    ensures w in s'.workers && s'.workers[w] == s.workers[w]
  {
  }

  lemma OwnStep(L: Language, s: State, s': State, w: string, outcome: Outcome, subject: string, from: nat, upTo: nat,
                own: seq<Entry>)
    requires Next(L, s, s', HandleNext(w, outcome)) && InPass(L, s, w, subject, from, upTo, own)
    ensures Added(s.log, s'.log) == ReplyEntry(L, subject, s.log, s.workers[w].phase.next, outcome)
    ensures InPass(L, s', w, subject, from, upTo, own + Added(s.log, s'.log))
  {
    var next := s.workers[w].phase.next;
    var reply := ReplyEntry(L, subject, s.log, next, outcome);
    assert s'.log == s.log + reply && Added(s.log, s'.log) == reply;
    TasksStay(L, subject, s.log, s'.log, from, next);
    RepliesStay(L, s.log, s'.log, subject, own, TasksBetween(L, subject, s.log, from, next));
    assert s'.log[next] == s.log[next];
    OneMore(L, s'.log, subject, own, from, next, reply);
  }

  lemma OneMore(L: Language, log: seq<Entry>, subject: string, own: seq<Entry>, from: nat, next: nat, reply: seq<Entry>)
    requires from <= next < |log| && OneReplyEach(L, log, subject, own, TasksBetween(L, subject, log, from, next))
    requires if TaskAt(L, log, subject, next) then |reply| == 1 && RepliesToTaskAt(L, log, subject, reply[0], next)
             else reply == []
    ensures OneReplyEach(L, log, subject, own + reply, TasksBetween(L, subject, log, from, next + 1))
  {
  }

  lemma AnyStep(L: Language, s: State, s': State, step: Step, w: string, subject: string, from: nat, upTo: nat,
                own: seq<Entry>)
    requires Next(L, s, s', step) && InPass(L, s, w, subject, from, upTo, own)
    requires step != Crash(w) && step != AckPass(w)
    ensures InPass(L, s', w, subject, from, upTo, own + Adds(s, s', step, w))
  {
    if step.HandleNext? && step.w == w {
      OwnStep(L, s, s', w, step.outcome, subject, from, upTo, own);
    } else {
      OtherStep(L, s, s', step, w, subject, from, upTo, own);
      assert own + [] == own;
    }
  }

  /** What has been appended by step `i` of the run is right. */
  predicate PassInv(L: Language, states: seq<State>, steps: seq<Step>, w: string, subject: string, from: nat, upTo: nat,
                    i: nat)
    requires i <= |steps| && |states| == |steps| + 1
  {
    InPass(L, states[i], w, subject, from, upTo, Own(states, steps, w, i))
  }

  lemma PassStarts(L: Language, states: seq<State>, steps: seq<Step>, w: string, from: nat, upTo: nat)
    requires |states| == |steps| + 1 && w in states[0].workers
    requires states[0].workers[w].phase == Serving(from, upTo, from) && from <= upTo <= |states[0].log|
    ensures PassInv(L, states, steps, w, states[0].workers[w].subject, from, upTo, 0)
  {
  }

  lemma PassGoesOn(L: Language, states: seq<State>, steps: seq<Step>, w: string, subject: string, from: nat, upTo: nat,
                   i: nat)
    requires Linked(L, states, steps) && SamePass(steps, w) && i < |steps|
    requires PassInv(L, states, steps, w, subject, from, upTo, i)
    ensures PassInv(L, states, steps, w, subject, from, upTo, i + 1)
  {
    assert steps[i] != Crash(w) && steps[i] != AckPass(w);
    AnyStep(L, states[i], states[i + 1], steps[i], w, subject, from, upTo, Own(states, steps, w, i));
  }

  /** From the moment a worker has read its messages, and as long as it neither crashes nor acks, its own
      steps have appended exactly one reply for each task it has handled, in log order, in any run. */
  lemma {:induction false} PassRepliesInOrder(
    L: Language, states: seq<State>, steps: seq<Step>, w: string, from: nat, upTo: nat, b: nat)
    requires Linked(L, states, steps) && SamePass(steps, w) && b <= |steps|
    requires w in states[0].workers && states[0].workers[w].phase == Serving(from, upTo, from)
    requires from <= upTo <= |states[0].log|
    ensures PassInv(L, states, steps, w, states[0].workers[w].subject, from, upTo, b)
  {
    if b == 0 {
      PassStarts(L, states, steps, w, from, upTo);
    } else {
      PassRepliesInOrder(L, states, steps, w, from, upTo, b - 1);
      PassGoesOn(L, states, steps, w, states[0].workers[w].subject, from, upTo, b - 1);
    }
  }

  /** When the worker acks, it has replied once to every task it read, and the cursor becomes the larger of
      itself and the end of what it read; nothing else of the subject's cursor or the log changes. */
  lemma PassEndsWithItsAck(L: Language, states: seq<State>, steps: seq<Step>, s': State, w: string, from: nat, upTo: nat)
    requires Linked(L, states, steps) && SamePass(steps, w) && Next(L, states[|steps|], s', AckPass(w))
    requires w in states[0].workers && states[0].workers[w].phase == Serving(from, upTo, from)
    requires from <= upTo <= |states[0].log|
    ensures var subject := states[0].workers[w].subject;
            var s := states[|steps|];
            OneReplyEach(L, s.log, subject, Own(states, steps, w, |steps|),
                         TasksBetween(L, subject, s.log, from, upTo)) &&
            Cursor(s', subject) == (if Cursor(s, subject) >= upTo then Cursor(s, subject) else upTo) &&
            s'.log == s.log && forall c | c != subject :: Cursor(s', c) == Cursor(s, c)
  {
    PassRepliesInOrder(L, states, steps, w, from, upTo, |steps|);
  }

  // ---------- the bodies a pass posts ----------

  function Bodies(entries: seq<Entry>): seq<string> {
    seq(|entries|, k requires 0 <= k < |entries| => entries[k].body)
  }

  /** The worker's step at `i` posts what `reply` makes of the row it handles. */
  ghost predicate PostsAt(states: seq<State>, steps: seq<Step>, w: string, reply: Stored -> seq<string>,
                          rows: seq<Stored>, i: nat)
    requires i < |steps| && |states| == |steps| + 1
  {
    w in states[i].workers && states[i].workers[w].phase.Serving? && states[i].workers[w].phase.next < |rows| &&
    Bodies(Added(states[i].log, states[i + 1].log)) == reply(rows[states[i].workers[w].phase.next])
  }

  lemma NextPart(reply: Stored -> seq<string>, rows: seq<Stored>, from: nat, next: nat)
    requires from <= next < |rows|
    ensures FlatMap(reply, rows[from..next + 1]) == FlatMap(reply, rows[from..next]) + reply(rows[next])
  {
    var part := rows[from..next + 1];
    FrontOfPart(rows, from, next);
    FlatMapPrefix(reply, part, next - from);
    assert part[..next - from + 1] == part;
  }

  lemma FrontOfPart(rows: seq<Stored>, from: nat, next: nat)
    requires from <= next < |rows|
    ensures rows[from..next + 1][..next - from] == rows[from..next]
  {
  }

  lemma NextOf(L: Language, s: State, s': State, step: Step, w: string)
    requires Next(L, s, s', step) && w in s.workers && s.workers[w].phase.Serving?
    requires step != Crash(w) && step != AckPass(w)
    ensures w in s'.workers && s'.workers[w].phase.Serving?
    ensures s'.workers[w].phase.next == s.workers[w].phase.next + if step.HandleNext? && step.w == w then 1 else 0
  {
    if !(step.HandleNext? && step.w == w) { SameWorker(L, s, s', step, w); }
  }

  lemma BodiesConcat(a: seq<Entry>, b: seq<Entry>)
    ensures Bodies(a + b) == Bodies(a) + Bodies(b)
  {
  }

  ghost predicate AllPost(states: seq<State>, steps: seq<Step>, w: string, reply: Stored -> seq<string>,
                          rows: seq<Stored>)
    requires |states| == |steps| + 1
  {
    forall i | 0 <= i < |steps| && steps[i].HandleNext? && steps[i].w == w :: PostsAt(states, steps, w, reply, rows, i)
  }

  ghost predicate PostedSoFar(states: seq<State>, steps: seq<Step>, w: string, reply: Stored -> seq<string>,
                              rows: seq<Stored>, from: nat, i: nat)
    requires i <= |steps| && |states| == |steps| + 1
  {
    w in states[i].workers && states[i].workers[w].phase.Serving? && from <= states[i].workers[w].phase.next <= |rows| &&
    Bodies(Own(states, steps, w, i)) == FlatMap(reply, rows[from..states[i].workers[w].phase.next])
  }

  lemma PostingStarts(states: seq<State>, steps: seq<Step>, w: string, reply: Stored -> seq<string>,
                      rows: seq<Stored>, from: nat, upTo: nat)
    requires |states| == |steps| + 1 && w in states[0].workers
    requires states[0].workers[w].phase == Serving(from, upTo, from) && from <= |rows|
    ensures PostedSoFar(states, steps, w, reply, rows, from, 0)
  {
    assert rows[from..from] == [];
  }

  lemma PostingGoesOn(L: Language, states: seq<State>, steps: seq<Step>, w: string, reply: Stored -> seq<string>,
                      rows: seq<Stored>, from: nat, b: nat)
    requires Linked(L, states, steps) && SamePass(steps, w) && 0 < b <= |steps|
    requires PostedSoFar(states, steps, w, reply, rows, from, b - 1)
    requires AllPost(states, steps, w, reply, rows)
    ensures PostedSoFar(states, steps, w, reply, rows, from, b)
  {
    var s, s', step := states[b - 1], states[b], steps[b - 1];
    assert step != Crash(w) && step != AckPass(w);
    NextOf(L, s, s', step, w);
    BodiesConcat(Own(states, steps, w, b - 1), Adds(s, s', step, w));
    if step.HandleNext? && step.w == w {
      assert PostsAt(states, steps, w, reply, rows, b - 1);
      NextPart(reply, rows, from, s.workers[w].phase.next);
    }
  }

  /** If each handling step posts what `reply` makes of its row, the steps of a pass together post what it
      makes of the part of the log they have handled. */
  lemma {:induction false} OwnStepsPost(
    L: Language, states: seq<State>, steps: seq<Step>, w: string, reply: Stored -> seq<string>, rows: seq<Stored>,
    from: nat, upTo: nat, b: nat)
    requires Linked(L, states, steps) && SamePass(steps, w) && b <= |steps|
    requires w in states[0].workers && states[0].workers[w].phase == Serving(from, upTo, from) && from <= |rows|
    requires AllPost(states, steps, w, reply, rows)
    ensures PostedSoFar(states, steps, w, reply, rows, from, b)
  {
    if b == 0 {
      PostingStarts(states, steps, w, reply, rows, from, upTo);
    } else {
      OwnStepsPost(L, states, steps, w, reply, rows, from, upTo, b - 1);
      PostingGoesOn(L, states, steps, w, reply, rows, from, b);
    }
  }
}
