/**
  The selection with the program's own tables: the port that each kind of board has for each type of source, and the
  alarms that rule a source out, by their names.
 */
module SourceTables {

  import opened SourceSelect

  const SAT: seq<SourceType> := [Gps, S2mh, S2mb, Irigb1, Irigb2]

  const SAT_PLAIN: seq<SourceType> := [NoType, S2mh, S2mb, Irigb1, Irigb2]

  const RTF: seq<SourceType> := [Tod, S1pps, S10mh1, S10mh2]

  /** The board table; a board that gives a port count of 0 has none, and an output board no port table. */
  const BOARDS: map<int, Ports> := map[
    0 := Some([]), 60 := None, 61 := None, 62 := Some(SAT), 63 := Some(SAT), 64 := None, 65 := None,
    66 := Some([]), 67 := Some([]), 68 := Some(SAT_PLAIN), 69 := Some(SAT_PLAIN),
    70 := Some([Tod]), 71 := Some(RTF), 72 := Some([Ntp]), 90 := None, 91 := None, 109 := None, 110 := None]
    + (map b: int | 1 <= b <= 19 :: None)

  /** The alarms that speak against an input, whatever its port. */
  predicate Against(id: AlarmId, t: SourceType, board: int) {
    match id
    case GpbdSgnLos | GpbdSgnDgd | AntShort => t == Gps
    case In2mhzLos => t == S2mh
    case In2mbLos | In2mbAis | In2mbBpv | In2mbCrc | In2mbLof => t == S2mb
    case IrigbInLos => t == Irigb1 || t == Irigb2
    case PtpInLos => t == Tod && board == 70
    case PpsTodInLos => t == Tod && board == 71
    case In10mhzLos => t == S10mh1 || t == S10mh2
    case In1ppsLos => t == S1pps
    case NtpInLos => t == Ntp
  }

  predicate HasTablePort(board: int, t: SourceType) {
    board in BOARDS && BOARDS[board].Some? && t in BOARDS[board].value && t != NoType
  }

  lemma WhichBoards(board: int, t: SourceType)
    requires HasTablePort(board, t)
    ensures board in {62, 63, 68, 69, 70, 71, 72}
    ensures board in {62, 63} ==> BOARDS[board].value == SAT
    ensures board in {68, 69} ==> BOARDS[board].value == SAT_PLAIN
    ensures board == 70 ==> BOARDS[board].value == [Tod]
    ensures board == 71 ==> BOARDS[board].value == RTF
    ensures board == 72 ==> BOARDS[board].value == [Ntp]
  {
  }

  /** The port of a type is where it stands in the table of the board. */
  lemma PortIs(ports: seq<SourceType>, t: SourceType, p: nat)
    requires p < |ports| && ports[p] == t && forall q :: p < q < |ports| ==> ports[q] != t
    ensures LastPort(ports, t) == p
  {
  }

  /** The number that the macros give it. */
  function PortNumber(t: SourceType): int {
    match t
    case Gps | Tod | Ntp => 1
    case S2mh | S1pps => 2
    case S2mb | S10mh1 => 3
    case Irigb1 | S10mh2 => 4
    case Irigb2 => 5
    case NoType | Other => 0
  }

  lemma PortNumberIs(board: int, t: SourceType)
    requires HasTablePort(board, t)
    ensures LastPort(BOARDS[board].value, t) + 1 == PortNumber(t)
  {
    WhichBoards(board, t);
    PortIs(BOARDS[board].value, t, PortNumber(t) - 1);
  }

  lemma AlarmsOfIs(board: int, t: SourceType, id: AlarmId, port: int)
    requires t != Tod || board == 70 || board == 71
    ensures (id, port) in AlarmsOf(t, board) <==> Against(id, t, board) && port == PortNumber(t)
  {
  }

  /** What is looked at for an input is exactly the alarms against it, at the port that its board has for it. */
  lemma AlarmsOfTable(board: int, t: SourceType, id: AlarmId, port: int)
    requires HasTablePort(board, t)
    ensures (id, port) in AlarmsOf(t, board)
      <==> Against(id, t, board) && port == LastPort(BOARDS[board].value, t) + 1
    ensures AlarmsOf(t, board) != []
  {
    WhichBoards(board, t);
    PortNumberIs(board, t);
    AlarmsOfIs(board, t, id, port);
  }

  // ---------- in a configuration ----------

  predicate Listed(c: Config, key: Key) { key in c.alarmInx }

  predicate On(c: Config, key: Key)
    requires c.Valid()
  {
    key in c.alarmInx && c.alarm[c.alarmInx[key]]
  }

  /** The look-ups, whatever their order: all listed and off, or something on, or something unlisted. */
  lemma {:induction false} CheckedIs(c: Config, slot: int, list: seq<(AlarmId, int)>)
    requires c.Valid()
    ensures Checked(c, slot, list).AlarmOff? <==>
      forall a: (AlarmId, int) :: a in list ==> var key := Key(a.0, slot, a.1); Listed(c, key) && !On(c, key)
    ensures Checked(c, slot, list).AlarmOn? ==> exists a: (AlarmId, int) :: a in list && On(c, Key(a.0, slot, a.1))
    ensures Checked(c, slot, list).NotListed? ==>
      exists a: (AlarmId, int) :: a in list && !Listed(c, Key(a.0, slot, a.1))
  {
    if list != [] {
      CheckedIs(c, slot, list[1..]);
      assert list[0] in list && forall a :: a in list <==> a == list[0] || a in list[1..];
    }
  }

  /** A source whose board has a port for it. */
  predicate OnBoard(c: Config, i: nat)
    requires c.Valid() && i < |c.sources|
  {
    HasPort(c, i) && c.sources[i].typ != NoType
  }

  /** The number of that port. */
  function PortOf(c: Config, i: nat): int
    requires c.Valid() && i < |c.sources| && HasPort(c, i)
  {
    LastPort(c.boards[c.SlotOf(i).board].value, c.sources[i].typ) + 1
  }

  /** The row of the alarm table for an alarm at the port of a source. */
  function KeyOf(c: Config, i: nat, id: AlarmId): Key
    requires c.Valid() && i < |c.sources| && HasPort(c, i)
  {
    Key(id, c.sources[i].slot, PortOf(c, i))
  }

  predicate Speaks(c: Config, i: nat, id: AlarmId)
    requires c.Valid() && i < |c.sources| && c.InSlot(i)
  {
    Against(id, c.sources[i].typ, c.SlotOf(i).board)
  }

  /** Every alarm against a source is listed for its port and off. */
  ghost predicate Quiet(c: Config, i: nat)
    requires c.Valid() && i < |c.sources| && HasPort(c, i)
  {
    forall id :: Speaks(c, i, id) ==> Listed(c, KeyOf(c, i, id)) && !On(c, KeyOf(c, i, id))
  }

  ghost predicate SomeOn(c: Config, i: nat)
    requires c.Valid() && i < |c.sources| && HasPort(c, i)
  {
    exists id :: Speaks(c, i, id) && On(c, KeyOf(c, i, id))
  }

  ghost predicate SomeUnlisted(c: Config, i: nat)
    requires c.Valid() && i < |c.sources| && HasPort(c, i)
  {
    exists id :: Speaks(c, i, id) && !Listed(c, KeyOf(c, i, id))
  }

  lemma ListIs(c: Config, i: nat, id: AlarmId, port: int)
    requires c.Valid() && i < |c.sources| && c.boards == BOARDS && OnBoard(c, i)
    ensures (id, port) in AlarmsOf(c.sources[i].typ, c.SlotOf(i).board) <==> Speaks(c, i, id) && port == PortOf(c, i)
    ensures AlarmsOf(c.sources[i].typ, c.SlotOf(i).board) != []
  {
    AlarmsOfTable(c.SlotOf(i).board, c.sources[i].typ, id, port);
  }

  /** The list of a source and the alarms against it, one by one. */
  lemma LookedAt(c: Config, i: nat, list: seq<(AlarmId, int)>, k: Check)
    requires c.Valid() && i < |c.sources| && HasPort(c, i) && k == Checked(c, c.sources[i].slot, list)
    requires forall id, port :: (id, port) in list <==> Speaks(c, i, id) && port == PortOf(c, i)
    ensures k.AlarmOff? <==> Quiet(c, i)
    ensures k.AlarmOn? ==> SomeOn(c, i)
    ensures k.NotListed? ==> SomeUnlisted(c, i)
  {
    var slot, port := c.sources[i].slot, PortOf(c, i);
    CheckedIs(c, slot, list);
    forall a: (AlarmId, int) | a in list ensures Speaks(c, i, a.0) && Key(a.0, slot, a.1) == KeyOf(c, i, a.0) {
      assert a == (a.0, a.1);
    }
    assert forall id :: Speaks(c, i, id) ==> (id, port) in list && Key(id, slot, port) == KeyOf(c, i, id);
  }

  /** The look-ups pass a source exactly when it is quiet; else an alarm against it is on, or one is not listed. */
  lemma CheckIs(c: Config, i: nat)
    requires c.Valid() && i < |c.sources| && c.boards == BOARDS && OnBoard(c, i)
    ensures CheckOf(c, i).AlarmOff? <==> Quiet(c, i)
    ensures CheckOf(c, i).AlarmOn? ==> SomeOn(c, i) || (c.sources[i].typ.Tod? && SomeUnlisted(c, i))
    ensures CheckOf(c, i).NotListed? ==> !c.sources[i].typ.Tod? && SomeUnlisted(c, i)
  {
    var list := AlarmsOf(c.sources[i].typ, c.SlotOf(i).board);
    forall id, port ensures (id, port) in list <==> Speaks(c, i, id) && port == PortOf(c, i) {
      ListIs(c, i, id, port);
    }
    assert list != [] by { ListIs(c, i, NtpInLos, 0); }
    LookedAt(c, i, list, Checked(c, c.sources[i].slot, list));
  }

  /** What a user may expect, without the look-ups: a port, quiet, a digit, and a level that the clock takes. */
  ghost predicate Fit(c: Config, i: nat)
    requires c.Valid() && i < |c.sources| && c.boards == BOARDS
  {
    OnBoard(c, i) && Quiet(c, i) && PrioOf(c, i) >= '0' as int
    && (c.sources[i].flag.FreqFlag? ==>
      (c.clock == 1 && LevelOf(c, i) !in {0x08, 0x0B, 0x0F}) || (c.clock == 2 && LevelOf(c, i) != 0x0F))
  }

  lemma FitIff(c: Config, i: nat)
    requires c.Valid() && i < |c.sources| && c.boards == BOARDS && !GivesUp(c)
    ensures Usable(c, i) <==> Fit(c, i)
  {
    if OnBoard(c, i) {
      CheckIs(c, i);
    } else if HasPort(c, i) {
      NoSuchPort(c, i);
    }
  }

  /** A port without a type has no alarm to look at, and counts as alarmed. */
  lemma NoSuchPort(c: Config, i: nat)
    requires c.Valid() && i < |c.sources| && c.InSlot(i) && c.sources[i].typ == NoType
    ensures CheckOf(c, i).AlarmOn?
  {
  }

  /** The choice with the program's tables: the first fit source of least priority, if there is one. */
  method SelectByTable(c: Config) returns (r: nat)
    requires c.Valid() && c.boards == BOARDS && BoardsKnown(c) && !GivesUp(c)
    ensures r == |c.sources| <==> forall i :: 0 <= i < |c.sources| ==> !Fit(c, i)
    ensures r < |c.sources| ==> Fit(c, r) && forall i :: 0 <= i < |c.sources| && Fit(c, i) ==>
      PrioOf(c, r) <= PrioOf(c, i) && (PrioOf(c, r) == PrioOf(c, i) ==> r <= i)
    ensures r <= |c.sources|
  {
    r := Select(c);
    forall i | 0 <= i < |c.sources| ensures Usable(c, i) <==> Fit(c, i) { FitIff(c, i); }
  }

  /** The alarm table has every input alarm at every slot and port, and the satellite alarms at port 1. */
  ghost predicate TableFull(c: Config) {
    forall id, slot, port :: (1 <= slot <= |c.slots| && 1 <= port <= PortsOf(id)) ==> Key(id, slot, port) in c.alarmInx
  }

  function PortsOf(id: AlarmId): nat { if id in {GpbdSgnLos, GpbdSgnDgd, AntShort} then 1 else 5 }

  lemma PortsLookedAt(t: SourceType, board: int, a: (AlarmId, int))
    requires a in AlarmsOf(t, board)
    ensures 1 <= a.1 <= PortsOf(a.0)
  {
  }

  /** With such a table the selection never gives up. */
  lemma NeverGivesUp(c: Config)
    requires c.Valid() && TableFull(c)
    ensures !GivesUp(c)
  {
    forall i | 0 <= i < |c.sources| && c.InSlot(i) ensures !CheckOf(c, i).NotListed? {
      var slot, list := c.sources[i].slot, AlarmsOf(c.sources[i].typ, c.SlotOf(i).board);
      CheckedIs(c, slot, list);
      forall a: (AlarmId, int) | a in list ensures Listed(c, Key(a.0, slot, a.1)) {
        PortsLookedAt(c.sources[i].typ, c.SlotOf(i).board, a);
      }
    }
  }
}
