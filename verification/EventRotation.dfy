/**
  The event log: a bounded table of current events that spills into history, and a history that is pruned. Tables
  are sequences of rows in rowid order; the statements on them are written as SQL has them, by conditions on rowids.
 */
module EventRotation {

  /** The columns that a row of either table keeps. */
  datatype Event = Event(id: int, tid: int, slot: int, port: int, bid: int, start: string)

  datatype Row = Row(rowid: int, event: Event)

  /** Both tables, and the counter behind the current table's automatic ids. */
  datatype Db = Db(current: seq<Row>, seqno: int, history: seq<Row>)

  const CURRENT_SIZE: nat := 20

  const HISTORY_SIZE: nat := 10000

  const MAX_SEQ: int := 0x7FFF_FFFF

  // ---------- statements ----------

  /** The rows "where rowid <= limit", and the others. */
  function Where(t: seq<Row>, limit: int): seq<Row> {
    if t == [] then []
    else if t[0].rowid <= limit then [t[0]] + Where(t[1..], limit)
    else Where(t[1..], limit)
  }

  function WhereNot(t: seq<Row>, limit: int): seq<Row> {
    if t == [] then []
    else if t[0].rowid <= limit then WhereNot(t[1..], limit)
    else [t[0]] + WhereNot(t[1..], limit)
  }

  function MinId(t: seq<Row>): int
    requires t != []
  {
    if |t| == 1 || t[0].rowid <= MinId(t[1..]) then t[0].rowid else MinId(t[1..])
  }

  function MaxId(t: seq<Row>): int
    requires t != []
  {
    if |t| == 1 || t[0].rowid >= MaxId(t[1..]) then t[0].rowid else MaxId(t[1..])
  }

  /** A plain rowid: one more than the largest. */
  function Inserted(t: seq<Row>, e: Event): seq<Row> { t + [Row(if t == [] then 1 else MaxId(t) + 1, e)] }

  /** "insert into history select ... from rows". */
  function Copied(t: seq<Row>, rows: seq<Row>): seq<Row>
    decreases |rows|
  {
    if rows == [] then t else Copied(Inserted(t, rows[0].event), rows[1..])
  }

  function Events(t: seq<Row>): seq<Event> {
    if t == [] then [] else [t[0].event] + Events(t[1..])
  }

  // ---------- critical sections ----------

  /** CheckHistoryEventNumTable: the lower half of the ids goes when the history is full. */
  function Pruned(db: Db): Db {
    if |db.history| < HISTORY_SIZE then db
    else db.(history := WhereNot(db.history, (MinId(db.history) + MaxId(db.history)) / 2))
  }

  /** The insertion into the current table, under the next automatic id. */
  function Added(db: Db, e: Event): Db {
    db.(current := db.current + [Row(db.seqno + 1, e)], seqno := db.seqno + 1)
  }

  /** The first section of WriteOneCurEventToTable empties the table when the ids are used up. */
  function Renewed(db: Db): Db {
    if db.seqno < MAX_SEQ then db else Db([], 0, Copied(db.history, db.current))
  }

  /** The second section makes room by moving the row of the least id. */
  function Spilled(db: Db): Db {
    if |db.current| < CURRENT_SIZE then db
    else
      var limit := MinId(db.current);
      Db(WhereNot(db.current, limit), db.seqno, Copied(db.history, Where(db.current, limit)))
  }

  /** MoveAllCurEventToHistoryTable: the table is emptied and the counter kept at the largest id. */
  function Emptied(db: Db): Db {
    if db.current == [] then db else Db([], MaxId(db.current), Copied(db.history, db.current))
  }

  /** A whole write by one daemon alone: both sections, or the first one when it finds the table empty. */
  function Written(db: Db, e: Event): Db {
    if db.current == [] then Added(db, e) else Added(Spilled(Renewed(db)), e)
  }

  /** Where a call into the database fails: nowhere, or before the statements of a section, or at the insertion. */
  datatype Failure = Never | InCheck | InFirst | InSecond | InInsert

  /** What a write leaves that fails there. */
  function Unwritten(db: Db, fails: Failure): Db {
    if db.current == [] || fails.InFirst? then db
    else if fails.InSecond? then Renewed(db)
    else Spilled(Renewed(db))
  }

  // ---------- rows in order ----------

  ghost predicate Ascending(t: seq<Row>) {
    forall i, j :: 0 <= i < j < |t| ==> t[i].rowid < t[j].rowid
  }

  /** Consecutive ids, as plain rowids are when only the oldest rows are ever deleted. */
  ghost predicate Consecutive(t: seq<Row>) {
    forall i :: 0 <= i < |t| ==> t[i].rowid == t[0].rowid + i
  }

  lemma {:induction false} Extremes(t: seq<Row>)
    requires Ascending(t) && t != []
    ensures MinId(t) == t[0].rowid && MaxId(t) == t[|t| - 1].rowid
  {
    if |t| > 1 { Extremes(t[1..]); }
  }

  lemma {:induction false} NoneBelow(t: seq<Row>, limit: int)
    requires forall i :: 0 <= i < |t| ==> t[i].rowid > limit
    ensures Where(t, limit) == [] && WhereNot(t, limit) == t
  {
    if t != [] {
      NoneBelow(t[1..], limit);
      assert t == [t[0]] + t[1..];
    }
  }

  /** In rowid order the condition cuts the table in two. */
  lemma {:induction false} CutAt(t: seq<Row>, n: nat, limit: int)
    requires Ascending(t) && n <= |t|
    requires n > 0 ==> t[n - 1].rowid <= limit
    requires n < |t| ==> limit < t[n].rowid
    ensures Where(t, limit) == t[..n] && WhereNot(t, limit) == t[n..]
  {
    if n == 0 {
      NoneBelow(t, limit);
    } else {
      assert t[0].rowid <= limit;
      CutAt(t[1..], n - 1, limit);
      assert t[..n] == [t[0]] + t[1..][..n - 1] && t[1..][n - 1..] == t[n..];
    }
  }

  lemma {:induction false} EventsConcat(a: seq<Row>, b: seq<Row>)
    ensures Events(a + b) == Events(a) + Events(b)
  {
    if a == [] {
      assert a + b == b;
    } else {
      assert (a + b)[1..] == a[1..] + b;
      EventsConcat(a[1..], b);
    }
  }

  lemma ConsecutiveAscends(t: seq<Row>)
    requires Consecutive(t)
    ensures Ascending(t)
  {
  }

  lemma InsertedKeeps(t: seq<Row>, e: Event)
    requires Consecutive(t)
    ensures Consecutive(Inserted(t, e)) && Events(Inserted(t, e)) == Events(t) + [e]
  {
    if t != [] {
      ConsecutiveAscends(t);
      Extremes(t);
    }
    var row := Inserted(t, e)[|t|];
    EventsConcat(t, [row]);
    assert Events([row]) == [e];
  }

  lemma {:induction false} CopiedKeeps(t: seq<Row>, rows: seq<Row>)
    requires Consecutive(t)
    ensures Consecutive(Copied(t, rows)) && Events(Copied(t, rows)) == Events(t) + Events(rows)
    ensures |Copied(t, rows)| == |t| + |rows|
    decreases |rows|
  {
    if rows != [] {
      InsertedKeeps(t, rows[0].event);
      CopiedKeeps(Inserted(t, rows[0].event), rows[1..]);
      assert Events(t) + [rows[0].event] + Events(rows[1..]) == Events(t) + ([rows[0].event] + Events(rows[1..]));
    }
  }

  /** What every section keeps: rows in order, the automatic ids below their counter, the limit. */
  ghost predicate Sound(db: Db) {
    Ascending(db.current) && Consecutive(db.history) && |db.current| <= CURRENT_SIZE
    && forall i :: 0 <= i < |db.current| ==> db.current[i].rowid <= db.seqno
  }

  /** All events of the log, oldest first. */
  function Log(db: Db): seq<Event> { Events(db.history) + Events(db.current) }

  // ---------- what each section does ----------

  /** How many rows pruning drops: none, or one more than half of the others. */
  function Dropped(db: Db): (n: nat)
    ensures n <= |db.history|
  {
    if |db.history| < HISTORY_SIZE then 0 else (|db.history| - 1) / 2 + 1
  }

  /** Pruning drops the oldest rows of a full history, at least as many as it leaves, and nothing else. */
  lemma PrunedIs(db: Db)
    requires Sound(db)
    ensures Sound(Pruned(db)) && Pruned(db).current == db.current
    ensures Pruned(db).history == db.history[Dropped(db)..]
    ensures |Pruned(db).history| == if |db.history| >= 10000 then |db.history| / 2 else |db.history|
  {
    var h, n := db.history, Dropped(db);
    if |h| >= HISTORY_SIZE {
      ConsecutiveAscends(h);
      Extremes(h);
      assert (h[0].rowid + h[|h| - 1].rowid) / 2 == h[0].rowid + (n - 1);
      CutAt(h, n, h[0].rowid + (n - 1));
    }
  }

  /** Spilling moves the oldest current row, to the newest end of history, and only when the table is full. */
  lemma SpilledIs(db: Db)
    requires Sound(db)
    ensures Sound(Spilled(db)) && |Spilled(db).current| < 20 && Log(Spilled(db)) == Log(db)
    ensures if |db.current| < 20 then Spilled(db) == db
      else (Spilled(db).current == db.current[1..]
        && Events(Spilled(db).history) == Events(db.history) + [db.current[0].event]
        && |Spilled(db).history| == |db.history| + 1)
  {
    var c := db.current;
    if |c| >= CURRENT_SIZE {
      Extremes(c);
      CutAt(c, 1, c[0].rowid);
      CopiedKeeps(db.history, c[..1]);
      FirstEvent(c);
    }
  }

  lemma FirstEvent(c: seq<Row>)
    requires c != []
    ensures Events(c[..1]) == [c[0].event] && Events(c) == [c[0].event] + Events(c[1..])
  {
    assert c[..1] == [c[0]];
  }

  lemma AddedIs(db: Db, e: Event)
    requires Sound(db) && |db.current| < CURRENT_SIZE
    ensures Sound(Added(db, e)) && Log(Added(db, e)) == Log(db) + [e]
  {
    var row := Row(db.seqno + 1, e);
    EventsConcat(db.current, [row]);
    assert Events([row]) == [e];
  }

  /** Using up the ids loses nothing: the rows move in order, and ids start again. */
  lemma RenewedIs(db: Db)
    requires Sound(db)
    ensures Sound(Renewed(db)) && Log(Renewed(db)) == Log(db)
    ensures if db.seqno < 0x7FFF_FFFF then Renewed(db) == db
      else (Renewed(db).current == [] && Renewed(db).seqno == 0
        && |Renewed(db).history| == |db.history| + |db.current|)
  {
    CopiedKeeps(db.history, db.current);
  }

  lemma EmptiedIs(db: Db)
    requires Sound(db)
    ensures Sound(Emptied(db)) && Log(Emptied(db)) == Log(db) && Emptied(db).current == []
    ensures |Emptied(db).history| == |db.history| + |db.current|
    ensures db.current != [] ==> Emptied(db).seqno == db.current[|db.current| - 1].rowid
  {
    if db.current != [] { Extremes(db.current); }
    CopiedKeeps(db.history, db.current);
  }

  // ---------- one daemon alone ----------

  /** An entry of the event table. */
  datatype Entry = Entry(valid: bool, newFlag: int, oldFlag: int, event: Event)

  /** The events that the first n entries report. */
  function Reported(a: seq<Entry>): seq<Event> {
    if a == [] then []
    else Reported(a[..|a| - 1]) + if a[|a| - 1].valid then [a[|a| - 1].event] else []
  }

  /** The database as a process sees it while no other has the lock, every call succeeding. */
  class Database {
    var current: seq<Row>
    var seqno: int
    var history: seq<Row>

    function View(): Db
      reads this
    {
      Db(current, seqno, history)
    }

    method CheckHistory()
      modifies this
      ensures View() == Pruned(old(View()))
    {
      var nrow := |history|;
      if HISTORY_SIZE <= nrow {
        history := WhereNot(history, (MinId(history) + MaxId(history)) / 2);
      }
    }

    method Insert(e: Event)
      modifies this
      ensures View() == Added(old(View()), e)
    {
      seqno := seqno + 1;
      current := current + [Row(seqno, e)];
    }

    /**
      WriteOneCurEventToTable: both sections in turn, and so one more event at the end of the log and no other change
      to it. A statement that fails ends the call with the log as it was.
     */
    method WriteOne(e: Event, fails: Failure) returns (ok: bool)
      requires Sound(View())
      modifies this
      ensures Sound(View()) && (ok <==> fails.Never? || fails.InCheck? || (fails.InSecond? && old(current) == []))
      ensures ok ==> View() == Written(old(View()), e) && Log(View()) == Log(old(View())) + [e]
      ensures !ok ==> View() == Unwritten(old(View()), fails) && Log(View()) == Log(old(View()))
    {
      if fails.InFirst? { return false; }
      if |current| != 0 {
        RenewedIs(View());
        if MAX_SEQ <= seqno {
          history := Copied(history, current);
          current := [];
          seqno := 0;
        }
        if fails.InSecond? { return false; }
        SpilledIs(View());
        if CURRENT_SIZE <= |current| {
          var limit := MinId(current);
          history := Copied(history, Where(current, limit));
          current := WhereNot(current, limit);
        }
      }
      if fails.InInsert? { return false; }
      AddedIs(View(), e);
      Insert(e);
      ok := true;
    }

    /** MoveAllCurEventToHistoryTable. */
    method MoveAll()
      modifies this
      ensures View() == Emptied(old(View()))
    {
      if |current| > 0 {
        seqno := MaxId(current);
        history := Copied(history, current);
        current := [];
      }
    }

    /** One turn of the loop of WriteCurEventToTable: an entry is no longer valid even if writing it fails. */
    method WriteEntry(a: array<Entry>, i: nat, fails: Failure, ghost all: seq<Event>) returns (ok: bool)
      requires i < a.Length && Sound(View()) && Tail(Log(View()), all)
      modifies this, a
      ensures Sound(View()) && (fails.Never? || !old(a[i]).valid ==> ok) && (!ok ==> old(a[i]).valid)
      ensures Tail(Log(View()), all + if ok && old(a[i]).valid then [old(a[i]).event] else [])
      ensures a[i] == old(a[i]).(valid := false, oldFlag := if ok then old(a[i]).newFlag else old(a[i]).oldFlag)
      ensures forall k :: 0 <= k < a.Length && k != i ==> a[k] == old(a[k])
    {
      assert all + [] == all;
      if a[i].valid {
        a[i] := a[i].(valid := false);
        if fails.InCheck? { return false; }
        PrunedLog(View());
        TailOf(Log(Pruned(View())), Log(View()), all, a[i].event);
        CheckHistory();
        var written := WriteOne(a[i].event, fails);
        if !written { return false; }
      }
      a[i] := a[i].(oldFlag := a[i].newFlag);
      ok := true;
    }

    /**
      WriteCurEventToTable: every reported event is logged once, in the order of the table; the log loses only oldest
      events, and every entry is left seen. If the write of entry at fails, that event is lost, with its entry not
      valid any more, and the later entries wait for the next call.
     */
    method WriteAll(a: array<Entry>, at: nat, fails: Failure) returns (ok: bool)
      requires Sound(View())
      modifies this, a
      ensures Sound(View()) && (fails.Never? ==> ok)
      ensures !ok ==> at < a.Length && old(a[at]).valid && a[at] == old(a[at]).(valid := false)
      ensures Tail(Log(View()), Log(old(View())) + Reported(if ok then old(a[..]) else old(a[..])[..at]))
      ensures forall k :: 0 <= k < (if ok then a.Length else at) ==>
        a[k] == old(a[k]).(valid := false, oldFlag := old(a[k]).newFlag)
      ensures !ok ==> forall k :: at < k < a.Length ==> a[k] == old(a[k])
    {
      ghost var log, was := Log(View()), a[..];
      for i := 0 to a.Length
        invariant Sound(View()) && Tail(Log(View()), log + Reported(was[..i]))
        invariant forall k :: i <= k < a.Length ==> a[k] == was[k]
        invariant forall k :: 0 <= k < i ==> a[k] == was[k].(valid := false, oldFlag := was[k].newFlag)
      {
        ReportedNext(log, was, i);
        ok := WriteEntry(a, i, if i == at then fails else Never, log + Reported(was[..i]));
        if !ok { return; }
      }
      assert was[..a.Length] == was;
      ok := true;
    }
  }

  lemma ReportedNext(log: seq<Event>, a: seq<Entry>, i: nat)
    requires i < |a|
    ensures log + Reported(a[..i + 1]) == log + Reported(a[..i]) + if a[i].valid then [a[i].event] else []
  {
    assert a[..i + 1][..i] == a[..i];
  }

  /** What is left when the oldest are gone. */
  ghost predicate Tail(t: seq<Event>, all: seq<Event>) {
    |t| <= |all| && t == all[|all| - |t|..]
  }

  lemma TailOf(t: seq<Event>, u: seq<Event>, all: seq<Event>, e: Event)
    requires Tail(t, u) && Tail(u, all)
    ensures Tail(t + [e], all + [e])
  {
    assert t == all[|all| - |t|..];
  }

  /** On the log pruning drops events from the old end. */
  lemma PrunedLog(db: Db)
    requires Sound(db)
    ensures Sound(Pruned(db)) && Log(db) == Events(db.history[..Dropped(db)]) + Log(Pruned(db))
    ensures Tail(Log(Pruned(db)), Log(db))
  {
    PrunedIs(db);
    var n := Dropped(db);
    assert db.history == db.history[..n] + db.history[n..];
    EventsConcat(db.history[..n], db.history[n..]);
    Regroup(Events(db.history[..n]), Events(db.history[n..]), Events(db.current));
  }

  lemma Regroup(a: seq<Event>, b: seq<Event>, c: seq<Event>)
    ensures (a + b) + c == a + (b + c)
  {
  }
}
