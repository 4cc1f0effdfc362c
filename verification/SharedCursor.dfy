/** A gather of several rounds can miss a result that another reader of its cursor takes between two of
    them, and this is the only way it can. */
module SharedCursor {
  import opened Options
  import opened Orchestration
  import opened Agents
  import opened Protocol
  import opened Gathers

  ghost predicate Leads(L: Language, states: seq<State>, steps: seq<Step>, s0: State, s: State) {
    IsRun(L, states, steps) && states[0] == s0 && states[|steps|] == s
  }

  /** Some run leads from `s0` to `s`. */
  ghost predicate Reachable(L: Language, s0: State, s: State) {
    exists states, steps :: Leads(L, states, steps, s0, s)
  }

  lemma ReachesItself(L: Language, s0: State)
    requires Init(s0)
    ensures Reachable(L, s0, s0)
  {
    assert Leads(L, [s0], [], s0, s0);
  }

  lemma ReachesNext(L: Language, s0: State, s: State, s': State, step: Step)
    requires Reachable(L, s0, s) && Next(L, s, s', step)
    ensures Reachable(L, s0, s')
  {
    var states, steps :| Leads(L, states, steps, s0, s);
    LinkOne(L, states, steps, s', step);
    assert Leads(L, states + [s'], steps + [step], s0, s');
  }

  /** The gather returned every id it wanted that has a result from its cursor to its head. */
  ghost predicate FoundAll(L: Language, log: seq<Entry>, r: Gathered) {
    forall id, p: nat | id in r.wanted && r.start <= p < r.head && ReadsAs(L, log, p, id) :: id in r.found
  }

  /** ... whatever the parties of `s0` do. */
  ghost predicate FindsAll(L: Language, s0: State, g: string, asked: nat) {
    forall s: State, k: nat | Reachable(L, s0, s) && k < |s.returned| &&
                              s.returned[k].instance == g && s.returned[k].asked == asked ::
      FoundAll(L, s.log, s.returned[k])
  }

  lemma UndividedFindsAll(L: Language, s0: State, s: State, k: nat)
    requires Reachable(L, s0, s) && k < |s.returned|
    requires Undivided(s0, s.returned[k].instance, s.returned[k].asked)
    ensures FoundAll(L, s.log, s.returned[k])
  {
    var states, steps :| Leads(L, states, steps, s0, s);
    var r := s.returned[k];
    forall id, p: nat | id in r.wanted && r.start <= p < r.head && ReadsAs(L, s.log, p, id) ensures id in r.found {
      UndividedReads(L, states, steps, |steps|, k, p);
      ReadIsFound(L, states, steps, |steps|, k, id, p);
    }
  }

  // ---------- a result taken between two rounds ----------

  /** A gather for `id` has read and acked the first of two entries, and has rounds left. */
  predicate BetweenRounds(s: State, s0: State, g: string, asked: nat, id: string, log: seq<Entry>)
    requires g in s0.gathers
  {
    s.log == log && s.workers == s0.workers && s.returned == [] && Cursor(s, s0.gathers[g].subject) == 1 &&
    asked >= 2 &&
    var p := Progress({id}, asked - 1, [0], map[], asked, 0, 1);
    s.gathers == s0.gathers[g := GatherState(s0.gathers[g].subject, Starting(p))]
  }

  predicate NoResultFor(L: Language, e: Entry, id: string) {
    L.resultIn(e.sender, e.body).Some? ==> L.resultIn(e.sender, e.body).value.taskId != id
  }

  lemma LooksAtOne(L: Language, e: Entry, id: string, asked: nat)
    requires NoResultFor(L, e, id)
    ensures Looked(L, [e], Begun({id}, asked), 0) == Progress({id}, asked, [0], map[], asked, 0, 1)
  {
    assert [e][0..] == [e];
    assert GatherFrom(Read(L), map[], {id}, [e]) == map[];
    assert [] + Positions(0, 1) == [0];
  }

  lemma ReadsCursor(L: Language, s0: State, g: string, asked: nat, id: string, a: Entry) returns (s: State)
    requires Init(s0) && g in s0.gathers && asked >= 2 && a.origin.Posted?
    ensures Reachable(L, s0, s) && s == SetGather(s0.(log := [a]), g, Reading(Begun({id}, asked), 0))
  {
    var s1 := s0.(log := [a]);
    var s2 := SetGather(s1, g, Starting(Begun({id}, asked)));
    s := SetGather(s2, g, Reading(Begun({id}, asked), 0));
    ReachesItself(L, s0);
    assert [] + [a] == [a];
    ReachesNext(L, s0, s0, s1, Post(a.sender, a.body));
    ReachesNext(L, s0, s1, s2, BeginGather(g, {id}, asked));
    ReachesNext(L, s0, s2, s, ReadCursor(g));
  }

  lemma FirstRound(L: Language, s0: State, g: string, asked: nat, id: string, a: Entry, b: Entry) returns (s: State)
    requires Init(s0) && g in s0.gathers && asked >= 2 && NoResultFor(L, a, id) && a.origin.Posted? && b.origin.Posted?
    ensures Reachable(L, s0, s) && BetweenRounds(s, s0, g, asked, id, [a, b])
  {
    var subject, p := s0.gathers[g].subject, Begun({id}, asked);
    var q := Looked(L, [a], p, 0);
    LooksAtOne(L, a, id, asked);
    var s1 := ReadsCursor(L, s0, g, asked, id, a);
    var s2 := SetGather(s1, g, Acking(q, 0, 1));
    var s3 := SetGather(Acked(SetGather(s2, g, Idle), subject, 1, ByGather(g)), g, Starting(q.(rounds := asked - 1)));
    s := s3.(log := [a] + [b]);
    ReachesNext(L, s0, s1, s2, GatherRound(g));
    ReachesNext(L, s0, s2, s3, AckRound(g));
    ReachesNext(L, s0, s3, s, Post(b.sender, b.body));
  }

  /** Another gather under the same subject reads and acks the second entry. */
  lemma GatherTakes(L: Language, s0: State, s: State, g: string, h: string) returns (s': State)
    requires Reachable(L, s0, s) && g in s.gathers && h in s.gathers && h != g && s.gathers[h].phase.Idle?
    requires |s.log| == 2 && Cursor(s, s.gathers[h].subject) == 1
    ensures Reachable(L, s0, s') && s'.log == s.log && Cursor(s', s.gathers[h].subject) == 2
    ensures g in s'.gathers && s'.gathers[g] == s.gathers[g]
  {
    var subject, p := s.gathers[h].subject, Begun({}, 1);
    var q := Looked(L, s.log, p, 1);
    var s1 := SetGather(s, h, Starting(p));
    var s2 := SetGather(s1, h, Reading(p, 1));
    var s3 := SetGather(s2, h, Acking(q, 1, 2));
    s' := Return(Acked(SetGather(s3, h, Idle), subject, 2, ByGather(h)), h, q);
    ReachesNext(L, s0, s, s1, BeginGather(h, {}, 1));
    ReachesNext(L, s0, s1, s2, ReadCursor(h));
    ReachesNext(L, s0, s2, s3, GatherRound(h));
    ReachesNext(L, s0, s3, s', AckRound(h));
  }

  /** A worker under the same subject reads it, finds no task for itself and acks it. */
  lemma WorkerTakes(L: Language, s0: State, s: State, g: string, w: string) returns (s': State)
    requires Reachable(L, s0, s) && g in s.gathers && w in s.workers && s.workers[w].phase.Resting?
    requires |s.log| == 2 && Cursor(s, s.workers[w].subject) == 1 && !TaskAt(L, s.log, s.workers[w].subject, 1)
    ensures Reachable(L, s0, s') && s'.log == s.log && Cursor(s', s.workers[w].subject) == 2
    ensures g in s'.gathers && s'.gathers[g] == s.gathers[g]
  {
    var subject := s.workers[w].subject;
    var s1 := SetWorker(s, w, WorkerPhase.Paging(1));
    var s2 := SetWorker(s1, w, Serving(1, 2, 1));
    var s3 := SetWorker(s2, w, Serving(1, 2, 2));
    s' := Acked(SetWorker(s3, w, Resting), subject, 2, ByWorker(w));
    assert s.log + [] == s.log;
    ReachesNext(L, s0, s, s1, BeginPass(w));
    ReachesNext(L, s0, s1, s2, ReadPages(w));
    ReachesNext(L, s0, s2, s3, HandleNext(w, NoHandler));
    ReachesNext(L, s0, s3, s', AckPass(w));
  }

  /** The next round reads from the cursor the other reader left, and there is nothing. */
  lemma ReturnsWithout(L: Language, s0: State, s: State, g: string, p: Progress) returns (s': State)
    requires Reachable(L, s0, s) && g in s.gathers && s.gathers[g].phase == Starting(p) && p.read != []
    requires Cursor(s, s.gathers[g].subject) == |s.log|
    ensures Reachable(L, s0, s') && s'.log == s.log && |s'.returned| == |s.returned| + 1
    ensures s'.returned[|s.returned|] ==
              Gathered(g, s.gathers[g].subject, p.wanted, p.read, p.found, p.asked, p.start, |s.log|)
  {
    var s1 := SetGather(s, g, Reading(p, |s.log|));
    s' := Return(s1, g, Marked(p, |s.log|, |s.log|));
    ReachesNext(L, s0, s, s1, ReadCursor(g));
    ReachesNext(L, s0, s1, s', GatherRound(g));
  }

  /** Two entries, of which the second reads as a result for `id` and is no task for the subject. */
  predicate Ready(L: Language, subject: string, id: string, a: Entry, b: Entry) {
    a.origin.Posted? && b.origin.Posted? && NoResultFor(L, a, id) && ReadsAs(L, [a, b], 1, id) &&
    !TaskAt(L, [a, b], subject, 1)
  }

  lemma DividedMisses(L: Language, s0: State, g: string, asked: nat, id: string, a: Entry, b: Entry)
    requires Init(s0) && g in s0.gathers && !Undivided(s0, g, asked)
    requires Ready(L, s0.gathers[g].subject, id, a, b)
    ensures !FindsAll(L, s0, g, asked)
  {
    var s := FirstRound(L, s0, g, asked, id, a, b);
    var s1;
    if h :| h in s0.gathers && h != g && s0.gathers[h].subject == s0.gathers[g].subject {
      s1 := GatherTakes(L, s0, s, g, h);
    } else {
      var w :| w in s0.workers && s0.workers[w].subject == s0.gathers[g].subject;
      s1 := WorkerTakes(L, s0, s, g, w);
    }
    var s2 := ReturnsWithout(L, s0, s1, g, s.gathers[g].phase.p);
    assert !FoundAll(L, s2.log, s2.returned[|s1.returned|]);
  }

  /** Whatever its parties do, a gather finds every result from its cursor to its head exactly when it asks
      for one round only or nobody else reads under its subject. */
  lemma FindsAllExactly(L: Language, s0: State, g: string, asked: nat, id: string, a: Entry, b: Entry)
    requires Init(s0) && g in s0.gathers && Ready(L, s0.gathers[g].subject, id, a, b)
    ensures FindsAll(L, s0, g, asked) <==> Undivided(s0, g, asked)
  {
    if Undivided(s0, g, asked) {
      forall s: State, k: nat | Reachable(L, s0, s) && k < |s.returned| &&
                                s.returned[k].instance == g && s.returned[k].asked == asked
        ensures FoundAll(L, s.log, s.returned[k])
      {
        UndividedFindsAll(L, s0, s, k);
      }
    } else {
      DividedMisses(L, s0, g, asked, id, a, b);
    }
  }
}
