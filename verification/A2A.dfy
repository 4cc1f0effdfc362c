/** Channels between agents: the two stock message stores and the bus that authorizes, pages and
    cleans what they hold. */
module A2A {
  import opened Options
  import opened Sanitizer

  datatype Stored = Stored(seqNo: int, sender: string, body: string, createdAt: real)
  datatype A2AMessage = A2AMessage(channel: string, seqNo: int, sender: string, body: string, createdAt: real)
  datatype Principal = Principal(subject: string, scopes: set<string>)
  datatype ChannelPolicy = ChannelPolicy(postScopes: set<string>, readScopes: set<string>)
  datatype BusError = ChannelDenied | BeyondHead

  // ---------- a channel's log ----------

  /** Numbered 1, 2, 3, ... in order. */
  predicate GapFree(log: seq<Stored>) {
    forall i | 0 <= i < |log| :: log[i].seqNo == i + 1
  }

  /** The messages past a position: `[m for m in log if m.seq > after]`. */
  function After(log: seq<Stored>, after: int): seq<Stored> {
    if |log| == 0 then []
    else (if log[0].seqNo > after then [log[0]] else []) + After(log[1..], after)
  }

  function Head(log: seq<Stored>): int {
    if |log| == 0 then 0 else log[|log| - 1].seqNo
  }

  function Clamp(x: int, hi: nat): nat {
    if x < 0 then 0 else if x > hi then hi else x
  }

  lemma {:induction false} AfterFrom(log: seq<Stored>, base: nat, after: int)
    requires forall i | 0 <= i < |log| :: log[i].seqNo == base + i + 1
    ensures After(log, after) == log[Clamp(after - base, |log|)..]
    decreases |log|
  {
    if |log| > 0 { AfterFrom(log[1..], base + 1, after); }
  }

  /** On a gap-free log the position is an index. */
  lemma AfterIsSuffix(log: seq<Stored>, after: int)
    requires GapFree(log)
    ensures After(log, after) == log[Clamp(after, |log|)..]
  {
    AfterFrom(log, 0, after);
  }

  // ---------- what a page holds ----------

  datatype Engine = PythonList | SqlTable

  /** At most `limit` rows: a Python slice counts a negative limit from the end, SQL reads it as
      no limit. */
  function Page(engine: Engine, rows: seq<Stored>, limit: int): seq<Stored> {
    if limit >= 0 then rows[..Clamp(limit, |rows|)]
    else if engine.SqlTable? then rows
    else rows[..Clamp(|rows| + limit, |rows|)]
  }

  /** A page of a non-negative limit is the front of the rows: that many, or all if there are fewer. */
  lemma PageIsFront(engine: Engine, rows: seq<Stored>, limit: nat)
    ensures Page(engine, rows, limit) <= rows
    ensures |rows| <= limit ==> Page(engine, rows, limit) == rows
    ensures |rows| >= limit ==> |Page(engine, rows, limit)| == limit
  {
  }

  /** What the paging loop collects from the unread rows. */
  function Collected(engine: Engine, unread: seq<Stored>, pageSize: int): seq<Stored> {
    if pageSize > 0 then unread
    else Page(engine, unread, pageSize)
  }

  /** A page is the front of the rows; the rest is collected after it. */
  lemma PageThenRest(engine: Engine, rows: seq<Stored>, pageSize: int)
    ensures var k := |Page(engine, rows, pageSize)|;
            k <= |rows| && Page(engine, rows, pageSize) == rows[..k] &&
            (k == 0 ==> Collected(engine, rows, pageSize) == []) &&
            (k > 0 ==> Collected(engine, rows, pageSize) == rows[..k] + Collected(engine, rows[k..], pageSize))
  {
    assert rows[..|rows|] == rows;
  }

  /** On a gap-free log, what is after the `k`-th unread row is the unread rows without the first `k`. */
  lemma AfterNext(log: seq<Stored>, position: int, k: nat)
    requires GapFree(log) && 0 < k <= |After(log, position)|
    ensures After(log, After(log, position)[k - 1].seqNo) == After(log, position)[k..]
  {
    AfterIsSuffix(log, position);
    AfterIsSuffix(log, After(log, position)[k - 1].seqNo);
  }

  lemma CollectedStep(engine: Engine, log: seq<Stored>, position: int, pageSize: int)
    requires GapFree(log)
    ensures var unread := After(log, position);
            var page := Page(engine, unread, pageSize);
            if |page| == 0 then Collected(engine, unread, pageSize) == []
            else
              var next := page[|page| - 1].seqNo;
              |After(log, next)| < |unread| &&
              Collected(engine, unread, pageSize) == page + Collected(engine, After(log, next), pageSize)
  {
    var unread := After(log, position);
    PageThenRest(engine, unread, pageSize);
    if |Page(engine, unread, pageSize)| > 0 { AfterNext(log, position, |Page(engine, unread, pageSize)|); }
  }

  // ---------- cursors ----------

  /** `max(cursors.get(key, 0), up_to)` in memory; an upsert in SQL, whose first write is raw. */
  function Advanced(engine: Engine, cursor: Option<int>, upTo: int): int {
    match cursor
    case Some(c) => if c >= upTo then c else upTo
    case None => if engine.PythonList? && upTo < 0 then 0 else upTo
  }

  function CursorValue(cursor: Option<int>): int {
    if cursor.Some? then cursor.value else 0
  }

  // ---------- the stores ----------

  type CursorKey = (string, string)

  function Lookup(cursors: map<CursorKey, int>, subject: string, channel: string): Option<int> {
    if (subject, channel) in cursors then Some(cursors[(subject, channel)]) else None
  }

  class InMemoryA2AStore {
    var msgs: map<string, seq<Stored>>
    var cursors: map<CursorKey, int>

    constructor ()
      ensures Valid() && forall c :: Log(c) == []
      ensures cursors == map[]
    {
      msgs, cursors := map[], map[];
    }

    ghost predicate Valid()
      reads this`msgs
    {
      forall c | c in msgs :: GapFree(msgs[c])
    }

    function Log(channel: string): seq<Stored>
      reads this`msgs
    {
      if channel in msgs then msgs[channel] else []
    }

    method Append(channel: string, sender: string, body: string, createdAt: real) returns (seqNo: int)
      requires Valid()
      modifies this`msgs
      ensures Valid()
      ensures seqNo == |old(Log(channel))| + 1
      ensures Log(channel) == old(Log(channel)) + [Stored(seqNo, sender, body, createdAt)]
      ensures forall c | c != channel :: Log(c) == old(Log(c))
    {
      var log := Log(channel);
      seqNo := |log| + 1;
      msgs := msgs[channel := log + [Stored(seqNo, sender, body, createdAt)]];
    }

    method AdvanceCursor(subject: string, channel: string, upTo: int) returns (now: int)
      modifies this`cursors
      ensures now == Advanced(PythonList, Lookup(old(cursors), subject, channel), upTo)
      ensures cursors == old(cursors)[(subject, channel) := now]
    {
      var current := CursorValue(Lookup(cursors, subject, channel));
      now := if current >= upTo then current else upTo;
      cursors := cursors[(subject, channel) := now];
    }
  }

  datatype Row = Row(channel: string, msg: Stored)

  function Rows(table: seq<Row>, channel: string): seq<Stored> {
    if |table| == 0 then []
    else (if table[0].channel == channel then [table[0].msg] else []) + Rows(table[1..], channel)
  }

  /** A row under the next number of its channel leaves every log gap-free and the other logs as they were. */
  lemma TableGrows(table: seq<Row>, row: Row)
    requires forall c :: GapFree(Rows(table, c))
    requires row.msg.seqNo == |Rows(table, row.channel)| + 1
    ensures forall c :: GapFree(Rows(table + [row], c))
    ensures forall c :: Rows(table + [row], c) ==
                          if c == row.channel then Rows(table, c) + [row.msg] else Rows(table, c)
  {
    forall c ensures Rows(table + [row], c) == if c == row.channel then Rows(table, c) + [row.msg] else Rows(table, c) {
      RowsAppend(table, row, c);
      assert Rows(table, c) + [] == Rows(table, c);
    }
  }

  lemma {:induction false} RowsAppend(table: seq<Row>, row: Row, channel: string)
    ensures Rows(table + [row], channel) == Rows(table, channel) + if row.channel == channel then [row.msg] else []
  {
    if |table| == 0 {
      assert table + [row] == [row];
    } else {
      assert (table + [row])[1..] == table[1..] + [row];
      RowsAppend(table[1..], row, channel);
      var first := if table[0].channel == channel then [table[0].msg] else [];
      var last := if row.channel == channel then [row.msg] else [];
      assert first + (Rows(table[1..], channel) + last) == (first + Rows(table[1..], channel)) + last;
    }
  }

  /** `SELECT COALESCE(MAX(seq), 0)` over a channel's rows. */
  function MaxSeq(rows: seq<Stored>): int {
    if |rows| == 0 then 0
    else
      var rest := MaxSeq(rows[1..]);
      if |rows| == 1 || rows[0].seqNo > rest then rows[0].seqNo else rest
  }

  lemma {:induction false} MaxSeqFrom(rows: seq<Stored>, base: nat)
    requires forall i | 0 <= i < |rows| :: rows[i].seqNo == base + i + 1
    ensures MaxSeq(rows) == if |rows| == 0 then 0 else base + |rows|
    decreases |rows|
  {
    if |rows| > 0 { MaxSeqFrom(rows[1..], base + 1); }
  }

  /** `ORDER BY seq`, as a stable insertion. */
  function InsertBySeq(m: Stored, rows: seq<Stored>): seq<Stored> {
    if |rows| == 0 || m.seqNo <= rows[0].seqNo then [m] + rows
    else [rows[0]] + InsertBySeq(m, rows[1..])
  }

  function OrderBySeq(rows: seq<Stored>): seq<Stored> {
    if |rows| == 0 then [] else InsertBySeq(rows[0], OrderBySeq(rows[1..]))
  }

  lemma {:induction false} AlreadyOrdered(rows: seq<Stored>)
    requires forall i, j | 0 <= i < j < |rows| :: rows[i].seqNo <= rows[j].seqNo
    ensures OrderBySeq(rows) == rows
  {
    if |rows| > 0 { AlreadyOrdered(rows[1..]); }
  }

  class SqliteA2AStore {
    var table: seq<Row>
    var cursors: map<CursorKey, int>

    constructor ()
      ensures Valid() && forall c :: Log(c) == []
      ensures cursors == map[]
    {
      table, cursors := [], map[];
    }

    ghost predicate Valid()
      reads this`table
    {
      forall c :: GapFree(Rows(table, c))
    }

    function Log(channel: string): seq<Stored>
      reads this`table
    {
      Rows(table, channel)
    }

    /** One write transaction: read the greatest number, insert the next. */
    method Append(channel: string, sender: string, body: string, createdAt: real) returns (seqNo: int)
      requires Valid()
      modifies this`table
      ensures Valid()
      ensures seqNo == |old(Log(channel))| + 1
      ensures Log(channel) == old(Log(channel)) + [Stored(seqNo, sender, body, createdAt)]
      ensures forall c | c != channel :: Log(c) == old(Log(c))
    {
      seqNo := MaxSeq(Log(channel)) + 1;
      assert GapFree(Log(channel));
      MaxSeqFrom(Log(channel), 0);
      var row := Row(channel, Stored(seqNo, sender, body, createdAt));
      TableGrows(table, row);
      table := table + [row];
    }

    method AdvanceCursor(subject: string, channel: string, upTo: int) returns (now: int)
      modifies this`cursors
      ensures now == Advanced(SqlTable, Lookup(old(cursors), subject, channel), upTo)
      ensures cursors == old(cursors)[(subject, channel) := now]
    {
      if (subject, channel) !in cursors {
        cursors := cursors[(subject, channel) := upTo];
      } else if cursors[(subject, channel)] < upTo {
        cursors := cursors[(subject, channel) := upTo];
      }
      now := cursors[(subject, channel)];
    }
  }

  /** Either stock store behind the interface the bus uses. */
  datatype Store = Memory(mem: InMemoryA2AStore) | Sqlite(sql: SqliteA2AStore) {
    function Engine(): Engine { if Memory? then PythonList else SqlTable }

    ghost function Repr(): set<object> {
      if Memory? then {mem} else {sql}
    }

    ghost predicate Valid()
      reads Repr()
    {
      if Memory? then mem.Valid() else sql.Valid()
    }

    ghost function Log(channel: string): seq<Stored>
      reads Repr()
    {
      if Memory? then mem.Log(channel) else sql.Log(channel)
    }

    ghost function Cursors(): map<CursorKey, int>
      reads Repr()
    {
      if Memory? then mem.cursors else sql.cursors
    }

    lemma LogIsGapFree(channel: string)
      requires Valid()
      ensures GapFree(Log(channel))
    {
    }

    method Append(channel: string, sender: string, body: string, createdAt: real) returns (seqNo: int)
      requires Valid()
      modifies Repr()
      ensures Valid() && Cursors() == old(Cursors())
      ensures seqNo == |old(Log(channel))| + 1
      ensures Log(channel) == old(Log(channel)) + [Stored(seqNo, sender, body, createdAt)]
      ensures forall c | c != channel :: Log(c) == old(Log(c))
    {
      match this
      case Memory(m) => seqNo := m.Append(channel, sender, body, createdAt);
      case Sqlite(s) => seqNo := s.Append(channel, sender, body, createdAt);
    }

    method ReadAfter(channel: string, after: int, limit: int) returns (rows: seq<Stored>)
      requires Valid()
      ensures rows == Page(Engine(), After(Log(channel), after), limit)
    {
      match this
      case Memory(m) => rows := Page(PythonList, After(m.Log(channel), after), limit);
      case Sqlite(s) =>
        ghost var selected := After(s.Log(channel), after);
        AfterIsSuffix(s.Log(channel), after);
        AlreadyOrdered(selected);
        rows := Page(SqlTable, OrderBySeq(After(s.Log(channel), after)), limit);
    }

    method HeadOf(channel: string) returns (head: int)
      requires Valid()
      ensures head == |Log(channel)|
    {
      match this
      case Memory(m) => head := Head(m.Log(channel));
      case Sqlite(s) =>
        MaxSeqFrom(s.Log(channel), 0);
        head := MaxSeq(s.Log(channel));
    }

    method Cursor(subject: string, channel: string) returns (cursor: int)
      ensures cursor == CursorValue(Lookup(Cursors(), subject, channel))
    {
      match this
      case Memory(m) => cursor := CursorValue(Lookup(m.cursors, subject, channel));
      case Sqlite(s) => cursor := CursorValue(Lookup(s.cursors, subject, channel));
    }

    method AdvanceCursor(subject: string, channel: string, upTo: int) returns (now: int)
      requires Valid()
      modifies Repr()
      ensures Valid() && forall c :: Log(c) == old(Log(c))
      ensures now == Advanced(Engine(), Lookup(old(Cursors()), subject, channel), upTo)
      ensures Cursors() == old(Cursors())[(subject, channel) := now]
    {
      match this
      case Memory(m) => now := m.AdvanceCursor(subject, channel, upTo);
      case Sqlite(s) => now := s.AdvanceCursor(subject, channel, upTo);
    }
  }
}
