/** One message log behind many replicas: appends as transactions that take a channel's advisory
    lock and keep it until they commit or abort, and readers that page, check the head and ack.
    Assumed of the database: the lock excludes others until commit or abort, and a statement sees
    the committed rows and its own. */
module SharedLog {

  type Key = (string, int)   // channel and sequence number, the primary key

  datatype Txn =
    | Waiting(channel: string, body: string)                 // begun, lock not yet granted
    | Locked(channel: string, body: string)
    | Inserted(channel: string, body: string, seqNo: int)    // uncommitted row
    | Released(channel: string, body: string, seqNo: int)    // only when locks are dropped early

  datatype ReaderPhase =
    | Resting
    | Paging(position: int)    // everything up to the position has been handed to the reader
    | Checked(upTo: int)       // the head was seen to be at or past `upTo`
  datatype Reader = Reader(subject: string, channel: string, phase: ReaderPhase)

  datatype State = State(
    rows: map<Key, string>,
    txns: map<int, Txn>,
    cursors: map<(string, string), int>,       // by subject and channel
    readers: map<int, Reader>,
    commits: map<string, nat>,                 // history: commits on each channel
    delivered: set<(string, string, int)>)     // history: what each subject was handed

  /** `lockOf` is the hash that names a channel's lock; channels may share one. `careless` are the
      subjects that ack numbers they did not read. */
  datatype System = System(lockOf: string -> int, careless: set<string>, holdToCommit: bool)

  predicate Holds(y: System, t: Txn, lock: int) {
    (t.Locked? || t.Inserted?) && y.lockOf(t.channel) == lock
  }

  function Commits(s: State, channel: string): nat {
    if channel in s.commits then s.commits[channel] else 0
  }

  function CursorOf(s: State, subject: string, channel: string): int {
    if (subject, channel) in s.cursors then s.cursors[(subject, channel)] else 0
  }

  /** `COALESCE(MAX(seq), 0)` over the committed rows of a channel. */
  ghost predicate IsMax(rows: map<Key, string>, channel: string, n: int) {
    (forall k | (channel, k) in rows :: k <= n) &&
    ((channel, n) in rows || (n == 0 && forall k :: (channel, k) !in rows))
  }

  /** The numbers of the committed rows of a channel after `lo` and up to `hi`. */
  ghost function Between(rows: map<Key, string>, channel: string, lo: int, hi: int): set<int> {
    set k | lo < k <= hi && (channel, k) in rows
  }

  /** `WHERE seq > position ORDER BY seq LIMIT limit` ends at `last`. */
  ghost predicate PageEndsAt(rows: map<Key, string>, channel: string, position: int, limit: nat, last: int) {
    position < last && (channel, last) in rows && |Between(rows, channel, position, last)| <= limit &&
    (|Between(rows, channel, position, last)| < limit ==> forall k | (channel, k) in rows :: k <= last)
  }

  datatype Step =
    | Begin(t: int, channel: string, body: string)
    | TakeLock(t: int)
    | Insert(t: int)
    | DropLock(t: int)
    | Commit(t: int)
    | Abort(t: int)
    | StartRead(r: int)
    | ReadPage(r: int, limit: nat, last: int)
    | CheckHead(r: int)
    | CheckCareless(r: int, upTo: int)
    | Advance(r: int)
    | Leave(r: int)

  function SetPhase(s: State, r: int, phase: ReaderPhase): State
    requires r in s.readers
  {
    s.(readers := s.readers[r := s.readers[r].(phase := phase)])
  }

  ghost predicate Next(y: System, s: State, s': State, step: Step) {
    match step
    case Begin(t, channel, body) =>
      t !in s.txns && s' == s.(txns := s.txns[t := Waiting(channel, body)])
    case TakeLock(t) =>
      t in s.txns && s.txns[t].Waiting? &&
      (forall u | u in s.txns :: !Holds(y, s.txns[u], y.lockOf(s.txns[t].channel))) &&
      s' == s.(txns := s.txns[t := Locked(s.txns[t].channel, s.txns[t].body)])
    case Insert(t) =>
      t in s.txns && s.txns[t].Locked? && s'.txns.Keys == s.txns.Keys && s'.txns[t].Inserted? &&
      IsMax(s.rows, s.txns[t].channel, s'.txns[t].seqNo - 1) &&
      s' == s.(txns := s.txns[t := Inserted(s.txns[t].channel, s.txns[t].body, s'.txns[t].seqNo)])
    case DropLock(t) =>
      !y.holdToCommit && t in s.txns && s.txns[t].Inserted? &&
      s' == s.(txns := s.txns[t := Released(s.txns[t].channel, s.txns[t].body, s.txns[t].seqNo)])
    case Commit(t) =>
      t in s.txns && (s.txns[t].Inserted? || s.txns[t].Released?) &&
      var x := s.txns[t];
      s' == s.(rows := s.rows[(x.channel, x.seqNo) := x.body], txns := s.txns - {t},
               commits := s.commits[x.channel := Commits(s, x.channel) + 1])
    case Abort(t) =>
      t in s.txns && s' == s.(txns := s.txns - {t})
    // catch_up: the cursor, then pages until one is empty
    case StartRead(r) =>
      r in s.readers && s.readers[r].phase.Resting? &&
      s' == SetPhase(s, r, Paging(CursorOf(s, s.readers[r].subject, s.readers[r].channel)))
    case ReadPage(r, limit, last) =>
      r in s.readers && s.readers[r].phase.Paging? &&
      var d := s.readers[r];
      PageEndsAt(s.rows, d.channel, d.phase.position, limit, last) &&
      s' == SetPhase(s, r, Paging(last)).(delivered := s.delivered +
              set k | k in Between(s.rows, d.channel, d.phase.position, last) :: (d.subject, d.channel, k))
    // ack of the last message read: the head is read first, the cursor moved later
    case CheckHead(r) =>
      r in s.readers && s.readers[r].phase.Paging? &&
      (exists n :: IsMax(s.rows, s.readers[r].channel, n) && s.readers[r].phase.position <= n) &&
      s' == SetPhase(s, r, Checked(s.readers[r].phase.position))
    case CheckCareless(r, upTo) =>
      r in s.readers && s.readers[r].subject in y.careless &&
      (exists n :: IsMax(s.rows, s.readers[r].channel, n) && upTo <= n) &&
      s' == SetPhase(s, r, Checked(upTo))
    case Advance(r) =>
      r in s.readers && s.readers[r].phase.Checked? &&
      var d := s.readers[r];
      var now := CursorOf(s, d.subject, d.channel);
      s' == SetPhase(s, r, Resting).(cursors := s.cursors[(d.subject, d.channel) :=
              if (d.subject, d.channel) in s.cursors && now >= d.phase.upTo then now else d.phase.upTo])
    case Leave(r) =>
      r in s.readers && s' == SetPhase(s, r, Resting)
  }

  ghost predicate Init(s: State) {
    s.rows == map[] && s.txns == map[] && s.cursors == map[] && s.commits == map[] && s.delivered == {} &&
    forall r | r in s.readers :: s.readers[r].phase.Resting?
  }

  // ---------- what every step keeps ----------

  /** The committed numbers of every channel are exactly 1..n, n being the number of commits. */
  ghost predicate Contiguous(s: State) {
    forall c, k :: (c, k) in s.rows <==> 1 <= k <= Commits(s, c)
  }

  /** A lock has one holder. */
  ghost predicate Exclusive(y: System, s: State) {
    forall t, u | t in s.txns && u in s.txns && Holds(y, s.txns[t], y.lockOf(s.txns[u].channel)) &&
                  (s.txns[u].Locked? || s.txns[u].Inserted?) :: t == u
  }

  /** An uncommitted row is the next of its channel. */
  ghost predicate PendingIsNext(s: State) {
    forall t | t in s.txns && s.txns[t].Inserted? :: s.txns[t].seqNo == Commits(s, s.txns[t].channel) + 1
  }

  /** The subject was handed every message up to `n`, and there are that many. */
  ghost predicate Handed(y: System, s: State, subject: string, channel: string, n: int) {
    n <= Commits(s, channel) &&
    (subject !in y.careless ==> forall k | 1 <= k <= n :: (subject, channel, k) in s.delivered)
  }

  ghost predicate ReaderInv(y: System, s: State, d: Reader) {
    match d.phase
    case Resting => true
    case Paging(position) => Handed(y, s, d.subject, d.channel, position)
    case Checked(upTo) => Handed(y, s, d.subject, d.channel, upTo)
  }

  ghost predicate Inv(y: System, s: State) {
    (forall t | t in s.txns :: !s.txns[t].Released?) &&
    Contiguous(s) && Exclusive(y, s) && PendingIsNext(s) &&
    (forall subject, channel | (subject, channel) in s.cursors ::
       Handed(y, s, subject, channel, s.cursors[(subject, channel)])) &&
    forall r | r in s.readers :: ReaderInv(y, s, s.readers[r])
  }

  lemma MaxIsCommits(s: State, channel: string, n: int)
    requires Contiguous(s) && IsMax(s.rows, channel, n)
    ensures n == Commits(s, channel)
  {
    var c := Commits(s, channel);
    assert c >= 1 ==> (channel, c) in s.rows;
    assert (channel, n) in s.rows ==> n <= c;
  }

  lemma CommitKeeps(y: System, s: State, s': State, t: int)
    requires y.holdToCommit && Inv(y, s) && Next(y, s, s', Commit(t))
    ensures Inv(y, s')
  {
    var x := s.txns[t];
    assert x.Inserted? && x.seqNo == Commits(s, x.channel) + 1;
    assert Commits(s', x.channel) == Commits(s, x.channel) + 1;
    forall c ensures Commits(s, c) <= Commits(s', c) && (c != x.channel ==> Commits(s', c) == Commits(s, c)) {}
    assert forall u | u in s'.txns && s'.txns[u].Inserted? :: s.txns[u].channel != x.channel;
    HandedGrows(y, s, s');
  }

  /** More commits and more deliveries take nothing back. */
  lemma HandedGrows(y: System, s: State, s': State)
    requires forall c :: Commits(s, c) <= Commits(s', c)
    requires s.delivered <= s'.delivered
    ensures forall subject, channel, n {:trigger Handed(y, s', subject, channel, n)} ::
              Handed(y, s, subject, channel, n) ==> Handed(y, s', subject, channel, n)
    ensures forall d: Reader {:trigger ReaderInv(y, s', d)} :: ReaderInv(y, s, d) ==> ReaderInv(y, s', d)
  {
  }

  lemma TxnKeeps(y: System, s: State, s': State, step: Step)
    requires y.holdToCommit && Inv(y, s) && Next(y, s, s', step)
    requires step.Begin? || step.TakeLock? || step.Abort? || step.Insert? || step.DropLock?
    ensures Inv(y, s')
  {
    if step.Insert? { MaxIsCommits(s, s.txns[step.t].channel, s'.txns[step.t].seqNo - 1); }
    assert forall c :: Commits(s', c) == Commits(s, c);
    HandedGrows(y, s, s');
  }

  lemma PageKeeps(y: System, s: State, s': State, r: int, limit: nat, last: int)
    requires Inv(y, s) && Next(y, s, s', ReadPage(r, limit, last))
    ensures Inv(y, s')
  {
    var d := s.readers[r];
    assert ReaderInv(y, s, d);
    assert forall c :: Commits(s', c) == Commits(s, c);
    HandedGrows(y, s, s');
    forall k | 1 <= k <= last && d.subject !in y.careless ensures (d.subject, d.channel, k) in s'.delivered {
      if k > d.phase.position { assert k in Between(s.rows, d.channel, d.phase.position, last); }
    }
    assert Handed(y, s', d.subject, d.channel, last);
  }

  lemma AckKeeps(y: System, s: State, s': State, step: Step)
    requires Inv(y, s) && Next(y, s, s', step)
    requires step.StartRead? || step.CheckHead? || step.Advance? || step.Leave?
    ensures Inv(y, s')
  {
    assert ReaderInv(y, s, s.readers[step.r]);
    assert forall c :: Commits(s', c) == Commits(s, c);
    HandedGrows(y, s, s');
  }

  lemma CarelessKeeps(y: System, s: State, s': State, r: int, upTo: int)
    requires Inv(y, s) && Next(y, s, s', CheckCareless(r, upTo))
    ensures Inv(y, s')
  {
    var d := s.readers[r];
    var n :| IsMax(s.rows, d.channel, n) && upTo <= n;
    MaxIsCommits(s, d.channel, n);
    assert forall c :: Commits(s', c) == Commits(s, c);
    HandedGrows(y, s, s');
  }

  lemma StepKeepsInv(y: System, s: State, s': State, step: Step)
    requires y.holdToCommit && Inv(y, s) && Next(y, s, s', step)
    ensures Inv(y, s')
  {
    match step
    case Commit(t) => CommitKeeps(y, s, s', t);
    case ReadPage(r, limit, last) => PageKeeps(y, s, s', r, limit, last);
    case StartRead(_) => AckKeeps(y, s, s', step);
    case CheckHead(_) => AckKeeps(y, s, s', step);
    case CheckCareless(r, upTo) => CarelessKeeps(y, s, s', r, upTo);
    case Advance(_) => AckKeeps(y, s, s', step);
    case Leave(_) => AckKeeps(y, s, s', step);
    case Begin(_, _, _) => TxnKeeps(y, s, s', step);
    case TakeLock(_) => TxnKeeps(y, s, s', step);
    case Insert(_) => TxnKeeps(y, s, s', step);
    case DropLock(_) => TxnKeeps(y, s, s', step);
    case Abort(_) => TxnKeeps(y, s, s', step);
  }

  // ---------- whole runs ----------

  ghost predicate IsRun(y: System, states: seq<State>, steps: seq<Step>) {
    |states| == |steps| + 1 && Init(states[0]) &&
    forall i | 0 <= i < |steps| :: Next(y, states[i], states[i + 1], steps[i])
  }

  lemma {:induction false} RunKeepsInv(y: System, states: seq<State>, steps: seq<Step>, i: nat)
    requires y.holdToCommit && IsRun(y, states, steps) && i < |states|
    ensures Inv(y, states[i])
  {
    if i > 0 {
      RunKeepsInv(y, states, steps, i - 1);
      StepKeepsInv(y, states[i - 1], states[i], steps[i - 1]);
    }
  }

  /** At every moment of every run: a channel's committed numbers are exactly 1..n, and no cursor
      is past n. */
  lemma LogIsGapFree(y: System, states: seq<State>, steps: seq<Step>, i: nat, channel: string)
    requires y.holdToCommit && IsRun(y, states, steps) && i < |states|
    ensures forall k :: (channel, k) in states[i].rows <==> 1 <= k <= Commits(states[i], channel)
    ensures forall subject :: CursorOf(states[i], subject, channel) <= Commits(states[i], channel)
  {
    RunKeepsInv(y, states, steps, i);
    forall subject ensures CursorOf(states[i], subject, channel) <= Commits(states[i], channel) {
      if (subject, channel) in states[i].cursors {
        assert Handed(y, states[i], subject, channel, states[i].cursors[(subject, channel)]);
      }
    }
  }

  /** A commit takes a number nobody has: it overwrites no row, and it lies past every position a
      reader has acked or paged to, so no reader has already gone by it. */
  lemma CommitsComeAfterReaders(y: System, states: seq<State>, steps: seq<Step>, i: nat, subject: string, r: int)
    requires y.holdToCommit && IsRun(y, states, steps) && i < |steps| && steps[i].Commit?
    ensures steps[i].t in states[i].txns && states[i].txns[steps[i].t].Inserted?
    ensures var x := states[i].txns[steps[i].t];
            (x.channel, x.seqNo) !in states[i].rows &&
            CursorOf(states[i], subject, x.channel) < x.seqNo &&
            (r in states[i].readers && states[i].readers[r].channel == x.channel && states[i].readers[r].phase.Paging? ==>
               states[i].readers[r].phase.position < x.seqNo)
  {
    RunKeepsInv(y, states, steps, i);
    assert Next(y, states[i], states[i + 1], steps[i]);
    LogIsGapFree(y, states, steps, i, states[i].txns[steps[i].t].channel);
    if r in states[i].readers { assert ReaderInv(y, states[i], states[i].readers[r]); }
  }

  /** Nothing is skipped: a subject that acks what it reads has been handed every message at or
      below its cursor, however posts, aborts, pages and acks interleave. */
  lemma NothingIsSkipped(y: System, states: seq<State>, steps: seq<Step>, i: nat, subject: string, channel: string,
                         k: int)
    requires y.holdToCommit && IsRun(y, states, steps) && i < |states| && subject !in y.careless
    requires 1 <= k <= CursorOf(states[i], subject, channel)
    ensures (channel, k) in states[i].rows && (subject, channel, k) in states[i].delivered
  {
    RunKeepsInv(y, states, steps, i);
    assert Handed(y, states[i], subject, channel, states[i].cursors[(subject, channel)]);
  }

  // ---------- why the lock is held until commit ----------

  lemma FirstClaims(y: System, a: State, b: State, c: State)
    requires !y.holdToCommit && a.rows == map[] && a.txns == map[1 := Locked("c", "a")]
    requires b == a.(txns := a.txns[1 := Inserted("c", "a", 1)]) && c == b.(txns := b.txns[1 := Released("c", "a", 1)])
    ensures Next(y, a, b, Insert(1)) && Next(y, b, c, DropLock(1))
  {
  }

  /** If the lock could be dropped before the commit, two posters would claim one number. */
  lemma EarlyReleaseCollides(y: System) returns (states: seq<State>, steps: seq<Step>)
    requires !y.holdToCommit
    ensures IsRun(y, states, steps)
    ensures var s := states[|steps|];
            1 in s.txns && 2 in s.txns && s.txns[1].Released? && s.txns[2].Inserted? &&
            s.txns[1].channel == s.txns[2].channel && s.txns[1].seqNo == s.txns[2].seqNo
  {
    var s0 := State(map[], map[], map[], map[], map[], {});
    var s1 := s0.(txns := map[1 := Waiting("c", "a")]);
    var s2 := s1.(txns := s1.txns[1 := Locked("c", "a")]);
    var s3 := s2.(txns := s2.txns[1 := Inserted("c", "a", 1)]);
    var s4 := s3.(txns := s3.txns[1 := Released("c", "a", 1)]);
    var s5 := s4.(txns := s4.txns[2 := Waiting("c", "b")]);
    var s6 := s5.(txns := s5.txns[2 := Locked("c", "b")]);
    var s7 := s6.(txns := s6.txns[2 := Inserted("c", "b", 1)]);
    states := [s0, s1, s2, s3, s4, s5, s6, s7];
    steps := [Begin(1, "c", "a"), TakeLock(1), Insert(1), DropLock(1), Begin(2, "c", "b"), TakeLock(2), Insert(2)];
    assert Next(y, s0, s1, steps[0]) && Next(y, s1, s2, steps[1]);
    FirstClaims(y, s2, s3, s4);
    assert Next(y, s4, s5, steps[4]) && Next(y, s5, s6, steps[5]) && Next(y, s6, s7, steps[6]);
  }

  /** The transaction has claimed the number `k` of the channel. */
  predicate Claims(x: Txn, channel: string, k: int) {
    (x.Inserted? || x.Released?) && x.channel == channel && x.seqNo == k
  }

  /** No two transactions of a channel claim one number, and none a committed one. */
  predicate ClaimsAreDistinct(s: State) {
    (forall t, u | t in s.txns && u in s.txns && t != u && (s.txns[u].Inserted? || s.txns[u].Released?) ::
       !Claims(s.txns[t], s.txns[u].channel, s.txns[u].seqNo)) &&
    forall t | t in s.txns && (s.txns[t].Inserted? || s.txns[t].Released?) ::
      (s.txns[t].channel, s.txns[t].seqNo) !in s.rows
  }

  /** In every run no number of a channel is claimed twice, exactly when locks are held until commit. */
  lemma ClaimsAreDistinctExactly(y: System)
    ensures (forall states, steps, i: nat | IsRun(y, states, steps) && i < |states| ::
               ClaimsAreDistinct(states[i])) <==> y.holdToCommit
  {
    if y.holdToCommit {
      forall states, steps, i: nat | IsRun(y, states, steps) && i < |states| ensures ClaimsAreDistinct(states[i]) {
        RunKeepsInv(y, states, steps, i);
        InvKeepsClaimsApart(y, states[i]);
      }
    } else {
      var states, steps := EarlyReleaseCollides(y);
      var s := states[|steps|];
      assert Claims(s.txns[1], s.txns[2].channel, s.txns[2].seqNo);
    }
  }

  lemma InvKeepsClaimsApart(y: System, s: State)
    requires Inv(y, s)
    ensures ClaimsAreDistinct(s)
  {
  }
}
