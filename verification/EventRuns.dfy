/**
  Any number of daemons writing events: the check of the history and the two sections of a write are separate
  critical sections, and the daemons interleave between them in any order. A write may fail in any of them. Rows
  are moved by a copy and a deletion without a transaction around them, so a failure may also come in between.
 */
module EventRuns {

  import opened EventRotation

  /** Where a daemon is: between the sections, with the event it writes, or between the two of start-up. */
  datatype Pc = Idle | Checked(event: Event) | Renewing(event: Event) | Starting

  /** The database, the daemons, and a record of what pruning removed. */
  datatype State = State(db: Db, pcs: seq<Pc>, pruned: seq<Event>)

  /** The sections, and the ways a call can fail: without effect, behind a spill, or in the middle of a move. */
  datatype Section = Begin(e: Event) | First | Second | Start | Empty | Fail | FailSpilled
    | FailCopied     // the rows are copied, and not deleted
    | FailUnreset    // the rows are moved, and the counter not reset
    | FailCounted    // the counter is set, and the rows not moved

  datatype Move = Move(daemon: nat, section: Section)

  /** The rows that a daemon's next section moves to history. */
  function Moving(db: Db, pc: Pc): seq<Row> {
    match pc
    case Idle => []
    case Checked(_) => if db.seqno < MAX_SEQ then [] else db.current
    case Renewing(_) => if |db.current| < CURRENT_SIZE then [] else Where(db.current, MinId(db.current))
    case Starting => db.current
  }

  predicate Enabled(s: State, m: Move) {
    m.daemon < |s.pcs| &&
    var pc := s.pcs[m.daemon];
    match m.section
    case Begin(_) => pc.Idle?
    case First => pc.Checked?
    case Second => pc.Renewing?
    case Start => pc.Idle?
    case Empty => pc.Starting?
    case Fail => !pc.Idle?
    case FailSpilled => pc.Renewing?
    case FailCopied => Moving(s.db, pc) != []
    case FailUnreset => pc.Checked? && Moving(s.db, pc) != []
    case FailCounted => pc.Starting? && s.db.current != []
  }

  /** The events pruning takes away. */
  function Removed(db: Db): seq<Event> { Events(db.history[..Dropped(db)]) }

  function Next(s: State, m: Move): State
    requires Enabled(s, m)
  {
    var d, pc := m.daemon, s.pcs[m.daemon];
    match m.section
    case Begin(e) => State(Pruned(s.db), s.pcs[d := Checked(e)], s.pruned + Removed(s.db))
    case First =>
      if s.db.current == [] then s.(db := Added(s.db, pc.event), pcs := s.pcs[d := Idle])
      else s.(db := Renewed(s.db), pcs := s.pcs[d := Renewing(pc.event)])
    case Second => s.(db := Added(Spilled(s.db), pc.event), pcs := s.pcs[d := Idle])
    case Start => State(Pruned(s.db), s.pcs[d := Starting], s.pruned + Removed(s.db))
    case Empty => s.(db := Emptied(s.db), pcs := s.pcs[d := Idle])
    case Fail => s.(pcs := s.pcs[d := Idle])
    case FailSpilled => s.(db := Spilled(s.db), pcs := s.pcs[d := Idle])
    case FailCopied => s.(db := s.db.(history := Copied(s.db.history, Moving(s.db, pc))), pcs := s.pcs[d := Idle])
    case FailUnreset => s.(db := Renewed(s.db).(seqno := s.db.seqno), pcs := s.pcs[d := Idle])
    case FailCounted => s.(db := s.db.(seqno := MaxId(s.db.current)), pcs := s.pcs[d := Idle])
  }

  ghost predicate Initial(s: State) {
    Sound(s.db) && s.pruned == [] && forall d :: 0 <= d < |s.pcs| ==> s.pcs[d].Idle?
  }

  predicate ValidRun(s: State, run: seq<Move>)
    decreases |run|
  {
    run == [] || (Enabled(s, run[0]) && ValidRun(Next(s, run[0]), run[1..]))
  }

  function After(s: State, run: seq<Move>): State
    requires ValidRun(s, run)
    decreases |run|
  {
    if run == [] then s else After(Next(s, run[0]), run[1..])
  }

  // ---------- limits ----------

  /** The most rows a daemon can still add to history before it checks its size again. */
  function Room(pc: Pc): nat {
    match pc
    case Idle => 0
    case Checked(_) => CURRENT_SIZE + 1
    case Renewing(_) => 1
    case Starting => CURRENT_SIZE
  }

  function Owed(pcs: seq<Pc>): nat {
    if pcs == [] then 0 else Room(pcs[0]) + Owed(pcs[1..])
  }

  function Max(a: int, b: int): int { if a >= b then a else b }

  /** The largest history: it starts a check below the limit, or as long as it was, and every daemon adds its room. */
  function Bound(before: nat, daemons: nat): int {
    Max(before, HISTORY_SIZE - 1) + daemons * (CURRENT_SIZE + 1)
  }

  ghost predicate Inv(s: State, before: nat) {
    Sound(s.db) && |s.db.history| + Owed(s.pcs) <= Bound(before, |s.pcs|)
  }

  lemma {:induction false} OwedUpdate(pcs: seq<Pc>, d: nat, pc: Pc)
    requires d < |pcs|
    ensures Owed(pcs[d := pc]) == Owed(pcs) - Room(pcs[d]) + Room(pc)
  {
    if d == 0 {
      assert pcs[d := pc][1..] == pcs[1..];
    } else {
      assert pcs[d := pc][1..] == pcs[1..][d - 1 := pc];
      OwedUpdate(pcs[1..], d - 1, pc);
    }
  }

  lemma {:induction false} OwedBound(pcs: seq<Pc>)
    ensures Owed(pcs) <= |pcs| * (CURRENT_SIZE + 1)
    ensures (forall d :: 0 <= d < |pcs| ==> pcs[d].Idle?) ==> Owed(pcs) == 0
  {
    if pcs != [] { OwedBound(pcs[1..]); }
  }

  lemma OwedOthers(pcs: seq<Pc>, d: nat)
    requires d < |pcs| && pcs[d].Idle?
    ensures Owed(pcs) <= (|pcs| - 1) * (CURRENT_SIZE + 1)
  {
    var rest := pcs[..d] + pcs[d + 1..];
    OwedBound(rest);
    OwedSplit(pcs[..d], pcs[d..]);
    OwedSplit(pcs[..d], pcs[d + 1..]);
    assert pcs == pcs[..d] + pcs[d..] && pcs[d..][1..] == pcs[d + 1..];
  }

  lemma {:induction false} OwedSplit(a: seq<Pc>, b: seq<Pc>)
    ensures Owed(a + b) == Owed(a) + Owed(b)
  {
    if a == [] {
      assert a + b == b;
    } else {
      assert (a + b)[1..] == a[1..] + b;
      OwedSplit(a[1..], b);
    }
  }

  /** All events there are or were: pruned, in history, and current. */
  function All(s: State): seq<Event> { s.pruned + Log(s.db) }

  /** The sections after which a write returns success. */
  predicate Succeeds(s: State, m: Move)
    requires Enabled(s, m)
  {
    m.section.Second? || (m.section.First? && s.db.current == [])
  }

  /** The events a section adds by succeeding. */
  function Gain(s: State, m: Move): seq<Event>
    requires Enabled(s, m)
  {
    if Succeeds(s, m) then [s.pcs[m.daemon].event] else []
  }

  /** A check pays for the room it grants. */
  lemma CheckPays(db: Db, pcs: seq<Pc>, d: nat, pc: Pc, before: nat)
    requires Sound(db) && d < |pcs| && pcs[d].Idle? && |db.history| + Owed(pcs) <= Bound(before, |pcs|)
    ensures |Pruned(db).history| + Owed(pcs[d := pc]) <= Bound(before, |pcs|)
  {
    PrunedIs(db);
    OwedUpdate(pcs, d, pc);
    OwedOthers(pcs, d);
  }

  lemma CheckStep(s: State, m: Move, before: nat)
    requires Inv(s, before) && Enabled(s, m) && (m.section.Begin? || m.section.Start?)
    ensures Inv(Next(s, m), before) && All(Next(s, m)) == All(s)
  {
    PrunedLog(s.db);
    Regroup(s.pruned, Removed(s.db), Log(Pruned(s.db)));
    CheckPays(s.db, s.pcs, m.daemon, Next(s, m).pcs[m.daemon], before);
  }

  lemma WriteStep(s: State, m: Move, before: nat)
    requires Inv(s, before) && Enabled(s, m) && (m.section.First? || m.section.Second?)
    ensures Inv(Next(s, m), before) && All(Next(s, m)) == All(s) + Gain(s, m)
  {
    var e := s.pcs[m.daemon].event;
    OwedUpdate(s.pcs, m.daemon, Next(s, m).pcs[m.daemon]);
    Regroup(s.pruned, Log(s.db), [e]);
    if m.section.Second? {
      SpilledIs(s.db);
      AddedIs(Spilled(s.db), e);
    } else if s.db.current == [] {
      AddedIs(s.db, e);
    } else {
      RenewedIs(s.db);
    }
  }

  lemma OtherStep(s: State, m: Move, before: nat)
    requires Inv(s, before) && Enabled(s, m)
    requires m.section.Empty? || m.section.Fail? || m.section.FailSpilled?
      || m.section.FailUnreset? || m.section.FailCounted?
    ensures Inv(Next(s, m), before) && All(Next(s, m)) == All(s)
  {
    OwedUpdate(s.pcs, m.daemon, Idle);
    if m.section.Empty? {
      EmptiedIs(s.db);
    } else if m.section.FailSpilled? {
      SpilledIs(s.db);
    } else if m.section.FailUnreset? {
      RenewedIs(s.db);
    } else if m.section.FailCounted? {
      Extremes(s.db.current);
    }
  }

  /** A move that stops half-way leaves its rows in both tables. */
  lemma HalfStep(s: State, m: Move, before: nat)
    requires Inv(s, before) && Enabled(s, m) && m.section.FailCopied?
    ensures Inv(Next(s, m), before) && |All(Next(s, m))| > |All(s)|
  {
    var rows := Moving(s.db, s.pcs[m.daemon]);
    OwedUpdate(s.pcs, m.daemon, Idle);
    CopiedKeeps(s.db.history, rows);
    if s.pcs[m.daemon].Renewing? {
      Extremes(s.db.current);
      CutAt(s.db.current, 1, s.db.current[0].rowid);
    }
    assert |rows| <= Room(s.pcs[m.daemon]);
    EventCount(rows);
  }

  lemma {:induction false} EventCount(t: seq<Row>)
    ensures |Events(t)| == |t|
  {
    if t != [] { EventCount(t[1..]); }
  }

  /** Every section, failed or not, keeps the limits; only half a move puts anything out of place. */
  lemma InvStep(s: State, m: Move, before: nat)
    requires Inv(s, before) && Enabled(s, m)
    ensures Inv(Next(s, m), before) && |Next(s, m).pcs| == |s.pcs|
    ensures if m.section.FailCopied? then |All(Next(s, m))| > |All(s)| else All(Next(s, m)) == All(s) + Gain(s, m)
  {
    if m.section.Begin? || m.section.Start? {
      CheckStep(s, m, before);
    } else if m.section.First? || m.section.Second? {
      WriteStep(s, m, before);
    } else if m.section.FailCopied? {
      HalfStep(s, m, before);
    } else {
      OtherStep(s, m, before);
    }
  }

  // ---------- whole runs ----------

  /** The events of the writes that succeed in a run, in their order. */
  function Succeeded(s: State, run: seq<Move>): seq<Event>
    requires ValidRun(s, run)
    decreases |run|
  {
    if run == [] then [] else Gain(s, run[0]) + Succeeded(Next(s, run[0]), run[1..])
  }

  /** Some move of rows stops between the copy and the deletion. */
  predicate HalfMoved(run: seq<Move>) { exists k :: 0 <= k < |run| && run[k].section.FailCopied? }

  lemma {:induction false} InvRun(s: State, run: seq<Move>, before: nat)
    requires Inv(s, before) && ValidRun(s, run)
    ensures Inv(After(s, run), before) && |After(s, run).pcs| == |s.pcs|
    decreases |run|
  {
    if run != [] {
      InvStep(s, run[0], before);
      InvRun(Next(s, run[0]), run[1..], before);
    }
  }

  lemma {:induction false} AllRun(s: State, run: seq<Move>, before: nat)
    requires Inv(s, before) && ValidRun(s, run)
    ensures if HalfMoved(run) then |All(After(s, run))| > |All(s)| + |Succeeded(s, run)|
      else All(After(s, run)) == All(s) + Succeeded(s, run)
    decreases |run|
  {
    if run != [] {
      var t, rest := Next(s, run[0]), run[1..];
      InvStep(s, run[0], before);
      AllRun(t, rest, before);
      HalfMovedNext(run);
      Regroup(All(s), Gain(s, run[0]), Succeeded(t, rest));
    }
  }

  lemma HalfMovedNext(run: seq<Move>)
    requires run != []
    ensures HalfMoved(run) <==> run[0].section.FailCopied? || HalfMoved(run[1..])
  {
    if HalfMoved(run) && !run[0].section.FailCopied? {
      var k :| 0 <= k < |run| && run[k].section.FailCopied?;
      assert run[1..][k - 1].section.FailCopied?;
    }
    if HalfMoved(run[1..]) {
      var k :| 0 <= k < |run| - 1 && run[1..][k].section.FailCopied?;
      assert run[k + 1].section.FailCopied?;
    }
  }

  /**
    In every reachable state of any interleaving, whatever fails: the current table is within its limit, and the
    history within its own and what the daemons add between two checks.
   */
  lemma Limits(s: State, run: seq<Move>)
    requires Initial(s) && ValidRun(s, run)
    ensures |After(s, run).db.current| <= 20
    ensures |After(s, run).db.history| <= Max(|s.db.history|, 9999) + 21 * |s.pcs|
  {
    OwedBound(s.pcs);
    InvRun(s, run, |s.db.history|);
  }

  /**
    What pruning removed, then the history, then the current table, are the log at the start and the events of the
    writes that succeeded, in their order, exactly in the runs where no move of rows stops half-way.
   */
  lemma ConservedIff(s: State, run: seq<Move>)
    requires Initial(s) && ValidRun(s, run)
    ensures var t := After(s, run);
      t.pruned + Events(t.db.history) + Events(t.db.current) == Log(s.db) + Succeeded(s, run) <==> !HalfMoved(run)
  {
    OwedBound(s.pcs);
    AllRun(s, run, |s.db.history|);
    var t := After(s, run);
    Regroup(t.pruned, Events(t.db.history), Events(t.db.current));
    assert All(s) == Log(s.db);
  }

  /** Such a run: a daemon starts up and stops behind the copy; the one event is then in both tables. */
  lemma HalfMovedExample(e: Event)
    ensures var s, run := State(Db([Row(1, e)], 1, []), [Idle], []), [Move(0, Start), Move(0, FailCopied)];
      Initial(s) && ValidRun(s, run)
      && Events(After(s, run).db.history) == [e] && Events(After(s, run).db.current) == [e]
  {
    var s := State(Db([Row(1, e)], 1, []), [Idle], []);
    var t := Next(s, Move(0, Start));
    assert t.db == s.db && t.pcs == [Starting];
    var u := Next(t, Move(0, FailCopied));
    assert Copied([], [Row(1, e)]) == Copied(Inserted([], e), [Row(1, e)][1..]);
    assert u.db.history == [Row(1, e)];
    var run := [Move(0, Start), Move(0, FailCopied)];
    assert run[1..] == [Move(0, FailCopied)] && run[1..][1..] == [];
    assert After(s, run) == After(t, run[1..]) == u;
    assert [Row(1, e)][1..] == [];
  }
}
