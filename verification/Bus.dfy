/** The bus: who may post and read, paging through what is unread, forward-only acks. */
module Bus {
  import opened Options
  import opened Sanitizer
  import opened A2A

  /** A stored message as a reader receives it. */
  function Delivery(channel: string, m: Stored, clean: bool): A2AMessage {
    A2AMessage(channel, m.seqNo, m.sender, if clean then Sanitize(m.body) else m.body, m.createdAt)
  }

  /** What a reader gets for a stored message: all of it, with the body sanitized if reads are cleaned. */
  predicate Received(channel: string, m: Stored, clean: bool, got: A2AMessage) {
    got.channel == channel && got.seqNo == m.seqNo && got.sender == m.sender && got.createdAt == m.createdAt &&
    if clean then got.body == Sanitize(m.body) && Clean(got.body) else got.body == m.body
  }

  /** One message for each row, in order. */
  predicate AllReceived(channel: string, rows: seq<Stored>, clean: bool, got: seq<A2AMessage>) {
    |got| == |rows| && forall i | 0 <= i < |rows| :: Received(channel, rows[i], clean, got[i])
  }

  lemma DeliveredIsReceived(channel: string, rows: seq<Stored>, clean: bool)
    ensures AllReceived(channel, rows, clean, Deliver(channel, rows, clean))
  {
    forall i | 0 <= i < |rows| ensures Received(channel, rows[i], clean, Deliver(channel, rows, clean)[i]) {
      SanitizeIsClean(rows[i].body);
    }
  }

  function Deliver(channel: string, rows: seq<Stored>, clean: bool): (r: seq<A2AMessage>)
    ensures |r| == |rows| && forall i | 0 <= i < |r| :: r[i] == Delivery(channel, rows[i], clean)
  {
    if |rows| == 0 then [] else [Delivery(channel, rows[0], clean)] + Deliver(channel, rows[1..], clean)
  }

  lemma DeliverConcat(channel: string, a: seq<Stored>, b: seq<Stored>, clean: bool)
    ensures Deliver(channel, a + b, clean) == Deliver(channel, a, clean) + Deliver(channel, b, clean)
  {
  }

  /** What the paging loop still has to deliver from a position on. */
  ghost function Pending(
    engine: Engine, log: seq<Stored>, position: int, pageSize: int, channel: string, clean: bool): seq<A2AMessage>
  {
    Deliver(channel, Collected(engine, After(log, position), pageSize), clean)
  }

  lemma Assoc<T>(a: seq<T>, b: seq<T>, c: seq<T>)
    ensures (a + b) + c == a + (b + c)
  {
  }

  /** One turn of the paging loop, with `out` already read. */
  lemma NextPage(engine: Engine, log: seq<Stored>, position: int, pageSize: int,
                 channel: string, clean: bool, out: seq<A2AMessage>)
    requires GapFree(log)
    ensures var page := Page(engine, After(log, position), pageSize);
            var total := out + Pending(engine, log, position, pageSize, channel, clean);
            if |page| == 0 then out == total
            else
              var next := page[|page| - 1].seqNo;
              |After(log, next)| < |After(log, position)| &&
              out + Deliver(channel, page, clean) + Pending(engine, log, next, pageSize, channel, clean) == total
  {
    CollectedStep(engine, log, position, pageSize);
    var page := Page(engine, After(log, position), pageSize);
    if |page| > 0 {
      var rest := Collected(engine, After(log, page[|page| - 1].seqNo), pageSize);
      OneMorePage(channel, page, rest, clean, out);
    } else {
      assert out + [] == out;
    }
  }

  lemma OneMorePage(channel: string, page: seq<Stored>, rest: seq<Stored>, clean: bool, out: seq<A2AMessage>)
    ensures out + Deliver(channel, page, clean) + Deliver(channel, rest, clean) ==
            out + Deliver(channel, page + rest, clean)
  {
    DeliverConcat(channel, page, rest, clean);
    Assoc(out, Deliver(channel, page, clean), Deliver(channel, rest, clean));
  }

  /** The paging loop of `catch_up`, from a position on. */
  method ReadPages(store: Store, channel: string, start: int, pageSize: int, clean: bool)
    returns (out: seq<A2AMessage>)
    requires store.Valid()
    ensures out == Deliver(channel, Collected(store.Engine(), After(store.Log(channel), start), pageSize), clean)
  {
    out := [];
    var position := start;
    ghost var log := store.Log(channel);
    store.LogIsGapFree(channel);
    while true
      invariant out + Pending(store.Engine(), log, position, pageSize, channel, clean)
             == Pending(store.Engine(), log, start, pageSize, channel, clean)
      decreases |After(log, position)|
    {
      var rows := store.ReadAfter(channel, position, pageSize);
      NextPage(store.Engine(), log, position, pageSize, channel, clean, out);
      if |rows| == 0 { break; }
      out := out + Deliver(channel, rows, clean);
      position := rows[|rows| - 1].seqNo;
    }
  }

  class A2ABus {
    const store: Store
    const sanitizeReads: bool
    var policies: map<string, ChannelPolicy>

    constructor (store: Store, sanitizeReads: bool)
      ensures this.store == store && this.sanitizeReads == sanitizeReads && policies == map[]
    {
      this.store, this.sanitizeReads, this.policies := store, sanitizeReads, map[];
    }

    predicate MayPost(p: Principal, channel: string)
      reads this
    {
      channel in policies && policies[channel].postScopes <= p.scopes
    }

    predicate MayRead(p: Principal, channel: string)
      reads this
    {
      channel in policies && policies[channel].readScopes <= p.scopes
    }

    /** The rows a principal has not acked. */
    ghost function Unread(p: Principal, channel: string): seq<Stored>
      reads store.Repr()
    {
      After(store.Log(channel), CursorValue(Lookup(store.Cursors(), p.subject, channel)))
    }

    method DeclareChannel(name: string, policy: ChannelPolicy)
      modifies this`policies
      ensures policies == old(policies)[name := policy]
    {
      policies := policies[name := policy];
    }

    /** Appends the raw body, or refuses and changes nothing. */
    method Post(p: Principal, channel: string, body: string, now: real) returns (r: Result<A2AMessage, BusError>)
      requires store.Valid()
      modifies store.Repr()
      ensures unchanged(this)
      ensures store.Valid() && store.Cursors() == old(store.Cursors())
      ensures r.Ok? <==> MayPost(p, channel)
      ensures r.Ok? <==> channel in policies && policies[channel].postScopes <= p.scopes
      ensures r.Ok? ==> r.value == A2AMessage(channel, |old(store.Log(channel))| + 1, p.subject, body, now)
      ensures r.Ok? ==> store.Log(channel) == old(store.Log(channel)) + [Stored(r.value.seqNo, p.subject, body, now)]
      ensures r.Err? ==> r.error == ChannelDenied && store.Log(channel) == old(store.Log(channel))
      ensures forall c | c != channel :: store.Log(c) == old(store.Log(c))
    {
      if !MayPost(p, channel) { return Err(ChannelDenied); }
      var seqNo := store.Append(channel, p.subject, body, now);
      store.LogIsGapFree(channel);
      r := Ok(A2AMessage(channel, seqNo, p.subject, body, now));
    }

    /** Pages through everything unread and acks nothing. For a page size of at least 1 that is
        exactly the log past the cursor, in order; a page size of 0 or less returns what one page
        of that size holds. */
    method CatchUp(p: Principal, channel: string, pageSize: int) returns (r: Result<seq<A2AMessage>, BusError>)
      requires store.Valid()
      ensures r.Ok? <==> MayRead(p, channel)
      ensures r.Ok? <==> channel in policies && policies[channel].readScopes <= p.scopes
      ensures r.Ok? ==>
                r.value == Deliver(channel, Collected(store.Engine(), Unread(p, channel), pageSize), sanitizeReads)
      ensures r.Ok? ==>
                AllReceived(channel, Collected(store.Engine(), Unread(p, channel), pageSize), sanitizeReads, r.value)
      ensures r.Err? ==> r.error == ChannelDenied
    {
      if MayRead(p, channel) {
        var position := store.Cursor(p.subject, channel);
        var out := ReadPages(store, channel, position, pageSize, sanitizeReads);
        DeliveredIsReceived(channel, Collected(store.Engine(), Unread(p, channel), pageSize), sanitizeReads);
        r := Ok(out);
      } else {
        r := Err(ChannelDenied);
      }
    }

    /** Moves the cursor forward, never past the head. */
    method Ack(p: Principal, channel: string, upTo: int) returns (r: Result<int, BusError>)
      requires store.Valid()
      modifies store.Repr()
      ensures unchanged(this)
      ensures store.Valid() && forall c :: store.Log(c) == old(store.Log(c))
      ensures r.Err? ==> r.error == if MayRead(p, channel) then BeyondHead else ChannelDenied
      ensures r.Err? <==> !(channel in policies && policies[channel].readScopes <= p.scopes) ||
                          upTo > |old(store.Log(channel))|
      ensures r.Err? ==> store.Cursors() == old(store.Cursors())
      ensures r.Ok? ==> r.value == Advanced(store.Engine(), Lookup(old(store.Cursors()), p.subject, channel), upTo)
      ensures r.Ok? ==> store.Cursors() == old(store.Cursors())[(p.subject, channel) := r.value]
    {
      if MayRead(p, channel) {
        var head := store.HeadOf(channel);
        if upTo <= head {
          var now := store.AdvanceCursor(p.subject, channel, upTo);
          r := Ok(now);
        } else {
          r := Err(BeyondHead);
        }
      } else {
        r := Err(ChannelDenied);
      }
    }
  }

  // ---------- what catch-up and acks mean together ----------

  /** With a page size of at least 1, and a cursor between 0 and the head, catch-up is the log
      past the cursor: message `cursor + 1` first, the head last, each once. */
  lemma CatchUpIsTheLog(engine: Engine, log: seq<Stored>, cursor: int, pageSize: int)
    requires GapFree(log) && 0 <= cursor <= |log|
    ensures pageSize >= 1 ==> Collected(engine, After(log, cursor), pageSize) == log[cursor..]
    ensures pageSize >= 1 ==> forall i | 0 <= i < |log| - cursor ::
                                Collected(engine, After(log, cursor), pageSize)[i].seqNo == cursor + 1 + i
    ensures pageSize == 0 ==> Collected(engine, After(log, cursor), pageSize) == []
  {
    AfterIsSuffix(log, cursor);
  }

  /** The loop returns all that is unread exactly for a page size of at least 1, or a negative one on SQL,
      where it is no limit, or when there is nothing; on a Python list a negative one drops that many
      messages from the end. */
  lemma CollectsAllExactly(engine: Engine, unread: seq<Stored>, pageSize: int)
    ensures Collected(engine, unread, pageSize) == unread <==>
              pageSize >= 1 || unread == [] || (pageSize < 0 && engine.SqlTable?)
    ensures pageSize < 0 && engine.PythonList? ==>
              Collected(engine, unread, pageSize) == unread[..if |unread| > -pageSize then |unread| + pageSize else 0]
    ensures pageSize == 0 ==> Collected(engine, unread, pageSize) == []
  {
    assert |Collected(engine, unread, pageSize)| < |unread| || Collected(engine, unread, pageSize) == unread;
  }

  /** An ack the bus accepts keeps the cursor between 0 and the head, and never moves it back, if
      the acked number is not negative. */
  lemma AcksStayInTheLog(engine: Engine, cursor: Option<int>, upTo: int, head: nat)
    requires 0 <= CursorValue(cursor) <= head && 0 <= upTo <= head
    ensures CursorValue(cursor) <= Advanced(engine, cursor, upTo) <= head
    ensures upTo <= Advanced(engine, cursor, upTo)
  {
  }

  /** The two stores' cursors after the same acks. */
  function CursorAfter(engine: Engine, acks: seq<int>): Option<int> {
    if |acks| == 0 then None
    else Some(Advanced(engine, CursorAfter(engine, acks[..|acks| - 1]), acks[|acks| - 1]))
  }

  /** After any acks the SQL cursor is the in-memory one, or a negative number where that is 0;
      so both stores read the same messages, and their acks answer alike exactly when the SQL
      one is not negative, which a single non-negative ack ensures from then on. */
  lemma {:induction false} StoresAgree(acks: seq<int>, log: seq<Stored>)
    requires GapFree(log)
    ensures var m, s := CursorValue(CursorAfter(PythonList, acks)), CursorValue(CursorAfter(SqlTable, acks));
            m == (if s < 0 then 0 else s) && After(log, m) == After(log, s) &&
            (m == s <==> (acks == [] || exists i | 0 <= i < |acks| :: acks[i] >= 0))
  {
    if |acks| > 0 {
      var before := acks[..|acks| - 1];
      var last := acks[|acks| - 1];
      StoresAgree(before, log);
      assert forall i | 0 <= i < |before| :: before[i] == acks[i];
      if before == [] { assert acks == [last]; } else { SqlCursorSign(before); }
      SqlCursorSign(acks);
    }
    AfterIsSuffix(log, CursorValue(CursorAfter(PythonList, acks)));
    AfterIsSuffix(log, CursorValue(CursorAfter(SqlTable, acks)));
  }

  lemma {:induction false} SqlCursorSign(acks: seq<int>)
    requires |acks| > 0
    ensures CursorValue(CursorAfter(SqlTable, acks)) >= 0 <==> exists i | 0 <= i < |acks| :: acks[i] >= 0
    ensures CursorAfter(SqlTable, acks).Some? && CursorAfter(PythonList, acks).Some?
  {
    var before := acks[..|acks| - 1];
    var last := acks[|acks| - 1];
    if |before| > 0 {
      SqlCursorSign(before);
      assert forall i | 0 <= i < |before| :: before[i] == acks[i];
      assert last >= 0 ==> acks[|before|] >= 0;
      if exists i | 0 <= i < |acks| :: acks[i] >= 0 {
        var i :| 0 <= i < |acks| && acks[i] >= 0;
        assert i < |before| ==> before[i] >= 0;
      }
    } else {
      assert acks[0] == last;
    }
  }

  // ---------- paging while others post ----------

  /** The position after `k` pages, page `j` being read from `logs[j]`. */
  function PagePosition(engine: Engine, logs: seq<seq<Stored>>, cursor: int, pageSize: int, k: nat): int
    requires k <= |logs|
  {
    if k == 0 then cursor
    else
      var position := PagePosition(engine, logs, cursor, pageSize, k - 1);
      var page := Page(engine, After(logs[k - 1], position), pageSize);
      if |page| == 0 then position else page[|page| - 1].seqNo
  }

  function Paged(engine: Engine, logs: seq<seq<Stored>>, cursor: int, pageSize: int, k: nat): seq<Stored>
    requires k <= |logs|
  {
    if k == 0 then []
    else
      Paged(engine, logs, cursor, pageSize, k - 1) +
      Page(engine, After(logs[k - 1], PagePosition(engine, logs, cursor, pageSize, k - 1)), pageSize)
  }

  /** A log that other posters only extend while the pages are read. */
  predicate Growing(logs: seq<seq<Stored>>) {
    (forall j | 0 <= j < |logs| :: GapFree(logs[j])) && forall i, j | 0 <= i <= j < |logs| :: logs[i] <= logs[j]
  }

  /** Whatever is posted between pages, the pages read so far are the stretch of the log from
      just past the cursor to the position. */
  lemma {:induction false} PagesAreContiguous(
    engine: Engine, logs: seq<seq<Stored>>, cursor: nat, pageSize: int, k: nat)
    requires Growing(logs) && 0 < k <= |logs| && cursor <= |logs[0]| && pageSize >= 1
    ensures cursor <= PagePosition(engine, logs, cursor, pageSize, k) <= |logs[k - 1]|
    ensures Paged(engine, logs, cursor, pageSize, k)
         == logs[k - 1][cursor..PagePosition(engine, logs, cursor, pageSize, k)]
  {
    var before := PagePosition(engine, logs, cursor, pageSize, k - 1);
    var log := logs[k - 1];
    GrowingFacts(logs, k - 1);
    if k > 1 {
      PagesAreContiguous(engine, logs, cursor, pageSize, k - 1);
      SameStretch(logs[k - 2], log, cursor, before);
    }
    NextPageIsContiguous(engine, logs, cursor, before, pageSize, k);
  }

  lemma NextPageIsContiguous(
    engine: Engine, logs: seq<seq<Stored>>, cursor: nat, before: nat, pageSize: int, k: nat)
    requires 0 < k <= |logs| && GapFree(logs[k - 1]) && cursor <= before <= |logs[k - 1]| && pageSize >= 1
    requires before == PagePosition(engine, logs, cursor, pageSize, k - 1)
    requires Paged(engine, logs, cursor, pageSize, k - 1) == logs[k - 1][cursor..before]
    ensures var position := PagePosition(engine, logs, cursor, pageSize, k);
            cursor <= position <= |logs[k - 1]| &&
            Paged(engine, logs, cursor, pageSize, k) == logs[k - 1][cursor..position]
  {
    OnePage(engine, logs[k - 1], cursor, before, pageSize);
  }

  /** When a page comes back empty, the pages read are the log that page was read from, past the
      cursor: nothing is skipped, and the head at the start is reached. */
  lemma PagingUnderAppends(engine: Engine, logs: seq<seq<Stored>>, cursor: nat, pageSize: int, k: nat)
    requires Growing(logs) && 0 < k <= |logs| && cursor <= |logs[0]| && pageSize >= 1
    requires Page(engine, After(logs[k - 1], PagePosition(engine, logs, cursor, pageSize, k - 1)), pageSize) == []
    ensures Paged(engine, logs, cursor, pageSize, k) == logs[k - 1][cursor..] && logs[0] <= logs[k - 1]
  {
    var before := PagePosition(engine, logs, cursor, pageSize, k - 1);
    PagesAreContiguous(engine, logs, cursor, pageSize, k);
    if k > 1 { PagesAreContiguous(engine, logs, cursor, pageSize, k - 1); }
    GrowingFacts(logs, k - 1);
    OnePage(engine, logs[k - 1], cursor, before, pageSize);
  }

  lemma GrowingFacts(logs: seq<seq<Stored>>, k: nat)
    requires Growing(logs) && k < |logs|
    ensures GapFree(logs[k]) && logs[0] <= logs[k] && (k > 0 ==> logs[k - 1] <= logs[k])
  {
  }

  lemma SameStretch(a: seq<Stored>, b: seq<Stored>, lo: nat, hi: nat)
    requires a <= b && lo <= hi <= |a|
    ensures a[lo..hi] == b[lo..hi]
  {
  }

  /** A page continues the stretch read so far. */
  lemma OnePage(engine: Engine, log: seq<Stored>, cursor: nat, before: nat, pageSize: int)
    requires GapFree(log) && cursor <= before <= |log| && pageSize >= 1
    ensures var page := Page(engine, After(log, before), pageSize);
            var next := if |page| == 0 then before else page[|page| - 1].seqNo;
            before <= next <= |log| && log[cursor..before] + page == log[cursor..next] &&
            (before == next ==> before == |log|)
  {
    AfterIsSuffix(log, before);
    var page := Page(engine, After(log, before), pageSize);
    assert page == log[before..before + |page|];
    assert log[cursor..before] + page == log[cursor..before + |page|];
  }
}
