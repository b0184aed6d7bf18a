/**
  Free selection of the input source: from the boards in the slots, their alarms and their priorities, the index of
  the best source. The meaning it is measured against: of the eligible sources the least priority digit, and of
  those the lowest index.
 */
module SourceSelect {

  datatype Option<T> = None | Some(value: T)

  datatype SourceType = Gps | S2mh | S2mb | Irigb1 | Irigb2 | Tod | S10mh1 | S10mh2 | S1pps | Ntp | NoType | Other

  datatype Flag = InvalidFlag | TimeFlag | FreqFlag | BothFlag

  datatype AlarmId = GpbdSgnLos | GpbdSgnDgd | AntShort | In2mhzLos | In2mbLos | In2mbAis | In2mbBpv | In2mbCrc
    | In2mbLof | IrigbInLos | PtpInLos | PpsTodInLos | In10mhzLos | In1ppsLos | NtpInLos

  /** A row of the alarm index table, without its index. */
  datatype Key = Key(id: AlarmId, slot: int, port: int)

  /** A row of the time source table, under its index. */
  datatype Source = Source(typ: SourceType, slot: int, flag: Flag)

  /** A slot: its board, and priority and quality level of each of its ports. */
  datatype Slot = Slot(board: int, prio: seq<int>, ssm: seq<int>)

  /** The types of the ports of a kind of board, if the board can be an input at all. */
  type Ports = Option<seq<SourceType>>

  const BID_PTP_IN: int := 70

  const BID_RTF: int := 71

  datatype Config = Config(sources: seq<Source>, slots: seq<Slot>, boards: map<int, Ports>,
    alarmInx: map<Key, nat>, alarm: seq<bool>, clock: int)
  {
    /** The tables fit together: every slot has as many ports as any board may have, every index is in the vector. */
    ghost predicate Valid() {
      sources != []
      && (forall s :: 0 <= s < |slots| ==> |slots[s].prio| == |slots[s].ssm| == MAX_PORTS)
      && (forall s, p :: 0 <= s < |slots| && 0 <= p < MAX_PORTS ==> 0 <= slots[s].prio[p] < 256)
      && (forall b :: b in boards && boards[b].Some? ==> |boards[b].value| <= MAX_PORTS)
      && forall k :: k in alarmInx ==> alarmInx[k] < |alarm|
    }

    predicate InSlot(i: nat)
      requires i < |sources|
    {
      0 < sources[i].slot <= |slots|
    }

    function SlotOf(i: nat): Slot
      requires i < |sources| && InSlot(i)
    {
      slots[sources[i].slot - 1]
    }
  }

  /** INPUT_SLOT_MAX_PORT. */
  const MAX_PORTS: nat := 5

  // ---------- alarms ----------

  /** The alarms that speak against a source, in the order they are looked at, with the port they are kept for. */
  function AlarmsOf(t: SourceType, board: int): seq<(AlarmId, int)> {
    match t
    case Gps => [(GpbdSgnLos, 1), (GpbdSgnDgd, 1), (AntShort, 1)]
    case S2mh => [(In2mhzLos, 2)]
    case S2mb => [(In2mbLos, 3), (In2mbAis, 3), (In2mbBpv, 3), (In2mbCrc, 3), (In2mbLof, 3)]
    case Irigb1 => [(IrigbInLos, 4)]
    case Irigb2 => [(IrigbInLos, 5)]
    case Tod => if board == BID_PTP_IN then [(PtpInLos, 1)] else if board == BID_RTF then [(PpsTodInLos, 1)] else []
    case S10mh1 => [(In10mhzLos, 3)]
    case S10mh2 => [(In10mhzLos, 4)]
    case S1pps => [(In1ppsLos, 2)]
    case Ntp => [(NtpInLos, 1)]
    case NoType => []
    case Other => []
  }

  datatype Check = AlarmOn | AlarmOff | NotListed

  /** The look-ups stop at the first alarm that is on, and at the first one that the table does not list. */
  function Checked(c: Config, slot: int, list: seq<(AlarmId, int)>): Check
    requires forall k :: k in c.alarmInx ==> c.alarmInx[k] < |c.alarm|
  {
    if list == [] then AlarmOff
    else
      var key := Key(list[0].0, slot, list[0].1);
      if key !in c.alarmInx then NotListed
      else if c.alarm[c.alarmInx[key]] then AlarmOn
      else Checked(c, slot, list[1..])
  }

  /** The outcome for a source: with no alarm to look at it counts as alarmed, as does an unlisted time-of-day one. */
  function CheckOf(c: Config, i: nat): Check
    requires c.Valid() && i < |c.sources| && c.InSlot(i)
  {
    var t := c.sources[i].typ;
    var list := AlarmsOf(t, c.SlotOf(i).board);
    var k := Checked(c, c.sources[i].slot, list);
    if list == [] || (t.Tod? && k.NotListed?) then AlarmOn else k
  }

  // ---------- what is known of each source ----------

  datatype Info = Info(enable: bool, alarm: bool, ssm: int, prio: int, flag: Flag)

  /** The last port of a type, as the loop over the ports leaves it; the number of ports when there is none. */
  function LastPort(ports: seq<SourceType>, t: SourceType): (p: nat)
    ensures p <= |ports| && (p < |ports| ==> ports[p] == t)
    ensures forall q :: 0 <= q < |ports| && (q > p || p == |ports|) ==> ports[q] != t
  {
    if ports == [] then 0
    else
      var n := |ports| - 1;
      if ports[n] == t then n
      else if LastPort(ports[..n], t) == n then |ports| else LastPort(ports[..n], t)
  }

  /** What the variable port_attr holds after the look-up for source i: a board that is not in the table leaves it. */
  function PortsSeen(c: Config, i: nat): Ports
    requires i <= |c.sources|
  {
    if i == 0 then None
    else if c.InSlot(i - 1) && c.SlotOf(i - 1).board in c.boards then c.boards[c.SlotOf(i - 1).board]
    else PortsSeen(c, i - 1)
  }

  /** It is the port table of the last source before i whose board is in the table, or still none. */
  lemma {:induction false} PortsSeenIs(c: Config, i: nat)
    requires i <= |c.sources|
    ensures PortsSeen(c, i) == None || exists j :: 0 <= j < i && LastKnown(c, i, j)
    ensures forall j :: 0 <= j < i && LastKnown(c, i, j) ==> PortsSeen(c, i) == c.boards[c.SlotOf(j).board]
  {
    if i > 0 {
      var m := i - 1;
      PortsSeenIs(c, m);
      if Known(c, m) {
        assert LastKnown(c, i, m);
      } else if j: nat :| j < m && LastKnown(c, m, j) {
        assert LastKnown(c, i, j);
      }
      if !Known(c, m) { assert forall j :: 0 <= j < i && LastKnown(c, i, j) ==> LastKnown(c, m, j); }
    }
  }

  predicate Known(c: Config, j: nat)
    requires j < |c.sources|
  {
    c.InSlot(j) && c.SlotOf(j).board in c.boards
  }

  ghost predicate LastKnown(c: Config, i: nat, j: nat)
    requires j < i <= |c.sources|
  {
    Known(c, j) && forall k :: j < k < i ==> !Known(c, k)
  }

  function Seen(c: Config, i: nat, ports: Ports): (info: Info)
    requires c.Valid() && i < |c.sources| && (c.InSlot(i) && ports.Some? ==> |ports.value| <= MAX_PORTS)
    ensures 0 <= info.prio < 256
  {
    var none := Info(false, false, 0, 0, c.sources[i].flag);
    if !c.InSlot(i) || ports.None? then none
    else
      var p := LastPort(ports.value, c.sources[i].typ);
      if p == |ports.value| then none
      else none.(enable := true, prio := c.SlotOf(i).prio[p], ssm := c.SlotOf(i).ssm[p])
  }

  lemma {:induction false} SeenFits(c: Config, i: nat)
    requires c.Valid() && i <= |c.sources|
    ensures PortsSeen(c, i).Some? ==> |PortsSeen(c, i).value| <= MAX_PORTS
  {
    if i > 0 { SeenFits(c, i - 1); }
  }

  /** The four arrays of bis_free for one source. */
  function InfoOf(c: Config, i: nat): (info: Info)
    requires c.Valid() && i < |c.sources|
    ensures 0 <= info.prio < 256
  {
    SeenFits(c, i + 1);
    Seen(c, i, PortsSeen(c, i + 1)).(alarm := c.InSlot(i) && CheckOf(c, i).AlarmOn?)
  }

  // ---------- eligibility ----------

  /** The quality levels that rule a frequency source out, by the kind of clock. */
  predicate Degraded(flag: Flag, ssm: int, clock: int) {
    flag.FreqFlag? &&
    (if clock == 1 then ssm == 0x08 || ssm == 0x0B || ssm == 0x0F
     else if clock == 2 then ssm == 0x0F
     else true)
  }

  /** Enabled, without alarm, with a priority digit, and not degraded. */
  predicate Eligible(info: Info, clock: int) {
    info.enable && !info.alarm && info.prio >= 48 && !Degraded(info.flag, info.ssm, clock)
  }

  /** The answer: the lowest index among the eligible sources of least priority; the length when none is eligible. */
  ghost predicate Answer(infos: seq<Info>, clock: int, r: nat) {
    r <= |infos|
    && (r < |infos| ==> Eligible(infos[r], clock))
    && forall i :: 0 <= i < |infos| && Eligible(infos[i], clock) ==>
      r < |infos| && infos[r].prio <= infos[i].prio && (infos[r].prio == infos[i].prio ==> r <= i)
  }

  lemma AnswerUnique(infos: seq<Info>, clock: int, r: nat, s: nat)
    requires Answer(infos, clock, r) && Answer(infos, clock, s)
    ensures r == s
  {
  }

  // ---------- the program ----------

  const SENTINEL: int := 500

  /** The score of a source: the sentinel, or something less. */
  function Score(info: Info, clock: int): (alg: int)
    requires 0 <= info.prio < 256
    ensures alg == SENTINEL <==> !Eligible(info, clock)
    ensures alg != SENTINEL ==> alg == info.prio - 47 && 1 <= alg <= 208
  {
    if info.enable && !info.alarm && info.prio != 45 && 48 <= info.prio then
      if info.flag.FreqFlag? && clock == 1 && (info.ssm == 0x08 || info.ssm == 0x0B || info.ssm == 0x0F) then SENTINEL
      else if info.flag.FreqFlag? && clock == 2 && info.ssm == 0x0F then SENTINEL
      else if info.flag.FreqFlag? && clock != 1 && clock != 2 then SENTINEL
      else 1 * (info.prio - 48 + 1)
    else SENTINEL
  }

  /** The scan for the least score. */
  method Choose(infos: array<Info>, clock: int) returns (r: nat)
    requires infos.Length > 0 && forall i :: 0 <= i < infos.Length ==> 0 <= infos[i].prio < 256
    ensures Answer(infos[..], clock, r)
  {
    var alg := new int[infos.Length];
    var i := 0;
    while i < infos.Length
      invariant 0 <= i <= infos.Length && fresh(alg)
      invariant forall k :: 0 <= k < i ==> alg[k] == Score(infos[k], clock)
    {
      alg[i] := Score(infos[i], clock);
      i := i + 1;
    }
    var min, line: nat := alg[0], 0;
    i := 1;
    while i < infos.Length
      invariant 1 <= i <= infos.Length && line < i && min == alg[line]
      invariant forall k :: 0 <= k < infos.Length ==> alg[k] == Score(infos[k], clock)
      invariant forall k :: 0 <= k < i ==> min <= alg[k] && (min == alg[k] ==> line <= k)
    {
      if alg[i] < min {
        min, line := alg[i], i;
      }
      i := i + 1;
    }
    r := if min == SENTINEL then infos.Length else line;
  }

  /** The loop over the sources that enables those a board has a port for. */
  method Enable(c: Config, bis: array<Info>)
    requires c.Valid() && bis.Length == |c.sources|
    modifies bis
    ensures forall i :: 0 <= i < bis.Length ==> bis[i] == InfoOf(c, i).(alarm := false)
  {
    var ports: Ports := None;
    var i := 0;
    while i < bis.Length
      invariant 0 <= i <= bis.Length && ports == PortsSeen(c, i)
      invariant forall k :: 0 <= k < i ==> bis[k] == InfoOf(c, k).(alarm := false)
    {
      bis[i] := Info(false, false, 0, 0, c.sources[i].flag);
      if c.InSlot(i) {
        if c.SlotOf(i).board in c.boards { ports := c.boards[c.SlotOf(i).board]; }
        SeenFits(c, i + 1);
        if ports.Some? {
          var info := ScanPorts(ports.value, c.sources[i].typ, c.SlotOf(i), bis[i]);
          bis[i] := info;
        }
      }
      i := i + 1;
    }
  }

  /** The loop over the ports of a board: a later port of the type overrides an earlier one. */
  method ScanPorts(ports: seq<SourceType>, t: SourceType, slot: Slot, start: Info) returns (info: Info)
    requires |ports| <= |slot.prio| == |slot.ssm|
    ensures var p := LastPort(ports, t);
      info == if p == |ports| then start else start.(enable := true, prio := slot.prio[p], ssm := slot.ssm[p])
  {
    info := start;
    var port := 0;
    while port < |ports|
      invariant 0 <= port <= |ports|
      invariant var p := LastPort(ports[..port], t);
        info == if p == port then start else start.(enable := true, prio := slot.prio[p], ssm := slot.ssm[p])
    {
      assert ports[..port + 1][..port] == ports[..port];
      if ports[port] == t {
        info := info.(enable := true, prio := slot.prio[port], ssm := slot.ssm[port]);
      }
      port := port + 1;
    }
    assert ports[..port] == ports;
  }

  /** One source's look-ups, one after the other. */
  method LookUp(c: Config, i: nat) returns (k: Check)
    requires c.Valid() && i < |c.sources| && c.InSlot(i)
    ensures k == CheckOf(c, i)
  {
    var list := AlarmsOf(c.sources[i].typ, c.SlotOf(i).board);
    k := if list == [] then AlarmOn else AlarmOff;
    var n := 0;
    while n < |list|
      invariant 0 <= n <= |list| && k == (if list == [] then AlarmOn else AlarmOff)
      invariant Checked(c, c.sources[i].slot, list) == Checked(c, c.sources[i].slot, list[n..])
    {
      var key := Key(list[n].0, c.sources[i].slot, list[n].1);
      if key !in c.alarmInx {
        return if c.sources[i].typ.Tod? then AlarmOn else NotListed;
      }
      if c.alarm[c.alarmInx[key]] { return AlarmOn; }
      n := n + 1;
    }
  }

  /** Some look-up fails, and the selection gives up. */
  ghost predicate GivesUp(c: Config)
    requires c.Valid()
  {
    exists i :: 0 <= i < |c.sources| && c.InSlot(i) && CheckOf(c, i).NotListed?
  }

  /** The nested loops over slots and sources that set the alarms. */
  method SetAlarms(c: Config, bis: array<Info>) returns (ok: bool)
    requires c.Valid() && bis.Length == |c.sources|
    requires forall i :: 0 <= i < bis.Length ==> bis[i] == InfoOf(c, i).(alarm := false)
    modifies bis
    ensures ok <==> !GivesUp(c)
    ensures ok ==> forall i :: 0 <= i < bis.Length ==> bis[i] == InfoOf(c, i)
  {
    var slot := 1;
    while slot < |c.slots| + 1
      invariant 1 <= slot <= |c.slots| + 1
      invariant forall k :: 0 <= k < bis.Length ==>
        bis[k] == InfoOf(c, k).(alarm := InfoOf(c, k).alarm && c.sources[k].slot < slot)
      invariant forall k :: 0 <= k < bis.Length && 0 < c.sources[k].slot < slot ==> !CheckOf(c, k).NotListed?
    {
      ok := SetSlot(c, bis, slot);
      if !ok { return; }
      slot := slot + 1;
    }
    ok := true;
  }

  method SetSlot(c: Config, bis: array<Info>, slot: int) returns (ok: bool)
    requires c.Valid() && bis.Length == |c.sources| && 0 < slot <= |c.slots|
    requires forall k :: 0 <= k < bis.Length ==>
      bis[k] == InfoOf(c, k).(alarm := InfoOf(c, k).alarm && c.sources[k].slot < slot)
    modifies bis
    ensures !ok ==> GivesUp(c)
    ensures ok ==> forall k :: 0 <= k < bis.Length && c.sources[k].slot == slot ==> !CheckOf(c, k).NotListed?
    ensures ok ==> forall k :: 0 <= k < bis.Length ==>
      bis[k] == InfoOf(c, k).(alarm := InfoOf(c, k).alarm && c.sources[k].slot < slot + 1)
  {
    var i := 0;
    while i < bis.Length
      invariant 0 <= i <= bis.Length
      invariant forall k :: 0 <= k < i && c.sources[k].slot == slot ==> !CheckOf(c, k).NotListed?
      invariant forall k :: 0 <= k < bis.Length ==>
        bis[k] == InfoOf(c, k).(alarm := InfoOf(c, k).alarm && c.sources[k].slot < if k < i then slot + 1 else slot)
    {
      if c.sources[i].slot == slot {
        var k := LookUp(c, i);
        if k.NotListed? { return false; }
        bis[i] := bis[i].(alarm := k.AlarmOn?);
      }
      i := i + 1;
    }
    ok := true;
  }

  /** The choice: the answer over what is known of the sources, none when a look-up fails. */
  ghost predicate Chosen(c: Config, r: nat)
    requires c.Valid()
  {
    if GivesUp(c) then r == |c.sources| else Answer(Infos(c), c.clock, r)
  }

  /** bis_free: the best source, or the index past the last when there is none or a look-up fails. */
  method BisFree(c: Config) returns (r: nat)
    requires c.Valid()
    ensures Chosen(c, r)
  {
    var bis := new Info[|c.sources|];
    Enable(c, bis);
    var ok := SetAlarms(c, bis);
    if !ok { return |c.sources|; }
    r := Choose(bis, c.clock);
    assert bis[..] == Infos(c);
  }

  function Infos(c: Config): (infos: seq<Info>)
    requires c.Valid()
    ensures |infos| == |c.sources| && forall i :: 0 <= i < |infos| ==> infos[i] == InfoOf(c, i)
  {
    seq(|c.sources|, i requires 0 <= i < |c.sources| => InfoOf(c, i))
  }

  // ---------- from the configuration ----------

  /** Its own board has a port for the source. */
  predicate HasPort(c: Config, i: nat)
    requires c.Valid() && i < |c.sources|
  {
    c.InSlot(i) && c.SlotOf(i).board in c.boards && c.boards[c.SlotOf(i).board].Some?
    && c.sources[i].typ in c.boards[c.SlotOf(i).board].value
  }

  /** Its board is not in the table, and the last one before that was has a port for the source. */
  predicate Mistaken(c: Config, i: nat)
    requires c.Valid() && i < |c.sources|
  {
    c.InSlot(i) && c.SlotOf(i).board !in c.boards
    && PortsSeen(c, i).Some? && c.sources[i].typ in PortsSeen(c, i).value
  }

  /** A source is enabled exactly when its own board has a port for it, unless the board is taken for another. */
  lemma EnabledIff(c: Config, i: nat)
    requires c.Valid() && i < |c.sources|
    ensures (InfoOf(c, i).enable <==> HasPort(c, i)) <==> !Mistaken(c, i)
    ensures Mistaken(c, i) ==> InfoOf(c, i).enable
  {
    SeenFits(c, i + 1);
    if PortsSeen(c, i + 1).Some? {
      var ports := PortsSeen(c, i + 1).value;
      if LastPort(ports, c.sources[i].typ) == |ports| {
        assert forall q :: 0 <= q < |ports| ==> ports[q] != c.sources[i].typ;
      }
    }
  }

  /** Every board in a source's slot is in the board table. */
  ghost predicate BoardsKnown(c: Config)
    requires c.Valid()
  {
    forall i :: 0 <= i < |c.sources| && c.InSlot(i) ==> c.SlotOf(i).board in c.boards
  }

  /** The priority that a source's own board gives it. */
  function PrioOf(c: Config, i: nat): int
    requires c.Valid() && i < |c.sources| && HasPort(c, i)
  {
    c.SlotOf(i).prio[LastPort(c.boards[c.SlotOf(i).board].value, c.sources[i].typ)]
  }

  /** And the quality level. */
  function LevelOf(c: Config, i: nat): int
    requires c.Valid() && i < |c.sources| && HasPort(c, i)
  {
    c.SlotOf(i).ssm[LastPort(c.boards[c.SlotOf(i).board].value, c.sources[i].typ)]
  }

  /** What a user may expect of a source: a port, no alarm, a digit, and a level that its clock takes. */
  ghost predicate Usable(c: Config, i: nat)
    requires c.Valid() && i < |c.sources|
  {
    HasPort(c, i) && !CheckOf(c, i).AlarmOn? && PrioOf(c, i) >= 48
    && !Degraded(c.sources[i].flag, LevelOf(c, i), c.clock)
  }

  /** With known boards and listed alarms the choice is the first usable source of least priority, if there is one. */
  method Select(c: Config) returns (r: nat)
    requires c.Valid() && BoardsKnown(c) && !GivesUp(c)
    ensures r == |c.sources| <==> forall i :: 0 <= i < |c.sources| ==> !Usable(c, i)
    ensures r < |c.sources| ==> Usable(c, r) && forall i :: 0 <= i < |c.sources| && Usable(c, i) ==>
      PrioOf(c, r) <= PrioOf(c, i) && (PrioOf(c, r) == PrioOf(c, i) ==> r <= i)
    ensures r <= |c.sources|
  {
    r := BisFree(c);
    forall i | 0 <= i < |c.sources|
      ensures Eligible(Infos(c)[i], c.clock) <==> Usable(c, i)
      ensures Usable(c, i) ==> Infos(c)[i].prio == PrioOf(c, i)
    {
      UsableIff(c, i);
    }
  }

  lemma UsableIff(c: Config, i: nat)
    requires c.Valid() && BoardsKnown(c) && i < |c.sources|
    ensures Eligible(InfoOf(c, i), c.clock) <==> Usable(c, i)
    ensures Usable(c, i) ==> InfoOf(c, i).prio == PrioOf(c, i)
  {
    EnabledIff(c, i);
    SeenFits(c, i + 1);
  }

  // ---------- two configurations ----------

  /** As far as the selection goes d differs from c only in sources, r not among them, that d rules out. */
  ghost predicate Narrower(c: Config, d: Config, r: nat)
    requires c.Valid() && d.Valid()
  {
    |d.sources| == |c.sources| && d.clock == c.clock && (r < |c.sources| ==> InfoOf(d, r) == InfoOf(c, r))
    && forall i :: 0 <= i < |c.sources| ==> InfoOf(d, i) == InfoOf(c, i) || !Eligible(InfoOf(d, i), d.clock)
  }

  /** Then the answer stays. */
  lemma SameAnswer(c: Config, d: Config, r: nat)
    requires c.Valid() && d.Valid() && Narrower(c, d, r) && Answer(Infos(c), c.clock, r)
    ensures Answer(Infos(d), d.clock, r)
  {
  }

  /** The configuration with "-" for the priority of a port. */
  function Dashed(c: Config, slot: nat, port: nat): Config
    requires slot < |c.slots| && port < |c.slots[slot].prio|
  {
    c.(slots := c.slots[slot := c.slots[slot].(prio := c.slots[slot].prio[port := 45])])
  }

  /** A source takes its priority from a port of a slot. */
  predicate Reads(c: Config, i: nat, slot: nat, port: nat)
    requires c.Valid() && i < |c.sources|
  {
    c.sources[i].slot - 1 == slot < |c.slots| && PortsSeen(c, i + 1).Some?
    && LastPort(PortsSeen(c, i + 1).value, c.sources[i].typ) == port < |PortsSeen(c, i + 1).value|
  }

  lemma {:induction false} DashedPorts(c: Config, slot: nat, port: nat, i: nat)
    requires slot < |c.slots| && port < |c.slots[slot].prio| && i <= |c.sources|
    ensures PortsSeen(Dashed(c, slot, port), i) == PortsSeen(c, i)
  {
    if i > 0 { DashedPorts(c, slot, port, i - 1); }
  }

  lemma {:induction false} DashedChecked(c: Config, slot: nat, port: nat, s: int, list: seq<(AlarmId, int)>)
    requires slot < |c.slots| && port < |c.slots[slot].prio|
    requires forall k :: k in c.alarmInx ==> c.alarmInx[k] < |c.alarm|
    ensures Checked(Dashed(c, slot, port), s, list) == Checked(c, s, list)
  {
    if list != [] { DashedChecked(c, slot, port, s, list[1..]); }
  }

  lemma DashedValid(c: Config, slot: nat, port: nat)
    requires c.Valid() && slot < |c.slots| && port < MAX_PORTS
    ensures Dashed(c, slot, port).Valid()
  {
    var d := Dashed(c, slot, port);
    forall s, p | 0 <= s < |d.slots| && 0 <= p < MAX_PORTS ensures 0 <= d.slots[s].prio[p] < 256 {
      assert 0 <= c.slots[s].prio[p] < 256;
    }
  }

  lemma DashedCheck(c: Config, slot: nat, port: nat, i: nat)
    requires c.Valid() && slot < |c.slots| && port < MAX_PORTS && i < |c.sources| && c.InSlot(i)
    ensures Dashed(c, slot, port).Valid() && CheckOf(Dashed(c, slot, port), i) == CheckOf(c, i)
  {
    DashedValid(c, slot, port);
    DashedChecked(c, slot, port, c.sources[i].slot, AlarmsOf(c.sources[i].typ, c.SlotOf(i).board));
  }

  /** A source that does not read the port sees no difference. */
  lemma DashedOther(c: Config, slot: nat, port: nat, i: nat)
    requires c.Valid() && slot < |c.slots| && port < MAX_PORTS && i < |c.sources| && !Reads(c, i, slot, port)
    ensures Dashed(c, slot, port).Valid() && InfoOf(Dashed(c, slot, port), i) == InfoOf(c, i)
  {
    DashedValid(c, slot, port);
    DashedPorts(c, slot, port, i + 1);
    SeenFits(c, i + 1);
    if c.InSlot(i) { DashedCheck(c, slot, port, i); }
  }

  /** One that does is ruled out. */
  lemma DashedReader(c: Config, slot: nat, port: nat, i: nat)
    requires c.Valid() && slot < |c.slots| && port < MAX_PORTS && i < |c.sources| && Reads(c, i, slot, port)
    ensures Dashed(c, slot, port).Valid() && !Eligible(InfoOf(Dashed(c, slot, port), i), c.clock)
  {
    DashedValid(c, slot, port);
    DashedPorts(c, slot, port, i + 1);
    SeenFits(c, i + 1);
  }

  lemma DashedGivesUp(c: Config, slot: nat, port: nat)
    requires c.Valid() && slot < |c.slots| && port < MAX_PORTS
    ensures Dashed(c, slot, port).Valid() && (GivesUp(Dashed(c, slot, port)) <==> GivesUp(c))
  {
    DashedValid(c, slot, port);
    var d := Dashed(c, slot, port);
    forall i | 0 <= i < |c.sources| && c.InSlot(i) ensures d.InSlot(i) && CheckOf(d, i) == CheckOf(c, i) {
      DashedCheck(c, slot, port, i);
    }
    assert forall i :: 0 <= i < |c.sources| ==> (d.InSlot(i) <==> c.InSlot(i));
  }

  /** Disabling a port leaves the choice as it is exactly when the chosen source does not read that port. */
  lemma DashedChoice(c: Config, slot: nat, port: nat, r: nat, s: nat)
    requires c.Valid() && slot < |c.slots| && port < MAX_PORTS && Dashed(c, slot, port).Valid()
    requires Chosen(c, r) && Chosen(Dashed(c, slot, port), s)
    ensures s == r <==> !(r < |c.sources| && Reads(c, r, slot, port))
  {
    var d := Dashed(c, slot, port);
    DashedGivesUp(c, slot, port);
    if r < |c.sources| && Reads(c, r, slot, port) {
      DashedReader(c, slot, port, r);
    } else if !GivesUp(c) {
      forall i | 0 <= i < |c.sources|
        ensures InfoOf(d, i) == InfoOf(c, i) || !Eligible(InfoOf(d, i), d.clock)
        ensures !Reads(c, i, slot, port) ==> InfoOf(d, i) == InfoOf(c, i)
      {
        if Reads(c, i, slot, port) { DashedReader(c, slot, port, i); } else { DashedOther(c, slot, port, i); }
      }
      SameAnswer(c, d, r);
      AnswerUnique(Infos(d), d.clock, r, s);
    }
  }

  /** The selection before and after a port is disabled: r and s are the two choices. */
  method DisablePort(c: Config, slot: nat, port: nat) returns (r: nat, s: nat)
    requires c.Valid() && slot < |c.slots| && port < MAX_PORTS
    ensures Chosen(c, r) && Dashed(c, slot, port).Valid() && Chosen(Dashed(c, slot, port), s)
    ensures s == r <==> !(r < |c.sources| && Reads(c, r, slot, port))
  {
    DashedValid(c, slot, port);
    r := BisFree(c);
    s := BisFree(Dashed(c, slot, port));
    DashedChoice(c, slot, port, r, s);
  }

  /** Two rows of the source table for the same input. */
  predicate SameInput(s: Source, t: Source) { s.slot == t.slot && s.typ == t.typ }

  /** The port that a source's own board has for it is read by the rows for the same input, and by no others. */
  lemma OwnPortReaders(c: Config, j: nat, i: nat)
    requires c.Valid() && j < |c.sources| && HasPort(c, j) && i < |c.sources|
    ensures var port := LastPort(c.boards[c.SlotOf(j).board].value, c.sources[j].typ);
      port < MAX_PORTS && (Reads(c, i, c.sources[j].slot - 1, port) <==> SameInput(c.sources[i], c.sources[j]))
  {
    var ports := c.boards[c.SlotOf(j).board].value;
    assert LastPort(ports, c.sources[j].typ) < |ports|;
  }

  /** Disabling a source leaves the choice as it is exactly when it is not the chosen one: r before, s after. */
  method DisableAnother(c: Config, j: nat) returns (r: nat, s: nat)
    requires c.Valid() && j < |c.sources| && HasPort(c, j)
    ensures var port := LastPort(c.boards[c.SlotOf(j).board].value, c.sources[j].typ);
      var d := Dashed(c, c.sources[j].slot - 1, port);
      Chosen(c, r) && d.Valid() && Chosen(d, s)
    ensures s == r <==> !(r < |c.sources| && SameInput(c.sources[r], c.sources[j]))
  {
    OwnPortReaders(c, j, j);
    r, s := DisablePort(c, c.sources[j].slot - 1, LastPort(c.boards[c.SlotOf(j).board].value, c.sources[j].typ));
    if r < |c.sources| { OwnPortReaders(c, j, r); }
  }

  /** The configuration in which one more alarm is on. */
  function Alarmed(c: Config, k: nat): Config
    requires k < |c.alarm|
  {
    c.(alarm := c.alarm[k := true])
  }

  /** A source looks at an alarm of the vector. */
  ghost predicate LooksAt(c: Config, i: nat, k: nat)
    requires c.Valid() && i < |c.sources| && c.InSlot(i)
  {
    exists p :: p in AlarmsOf(c.sources[i].typ, c.SlotOf(i).board)
      && Key(p.0, c.sources[i].slot, p.1) in c.alarmInx && c.alarmInx[Key(p.0, c.sources[i].slot, p.1)] == k
  }

  lemma {:induction false} AlarmedChecked(c: Config, k: nat, s: int, list: seq<(AlarmId, int)>)
    requires k < |c.alarm| && forall key :: key in c.alarmInx ==> c.alarmInx[key] < |c.alarm|
    ensures Checked(Alarmed(c, k), s, list) == Checked(c, s, list)
      || Checked(Alarmed(c, k), s, list).AlarmOn?
    ensures (forall p :: p in list && Key(p.0, s, p.1) in c.alarmInx ==> c.alarmInx[Key(p.0, s, p.1)] != k) ==>
      Checked(Alarmed(c, k), s, list) == Checked(c, s, list)
  {
    if list != [] {
      assert list[0] in list && forall p :: p in list[1..] ==> p in list;
      AlarmedChecked(c, k, s, list[1..]);
    }
  }

  lemma {:induction false} AlarmedPorts(c: Config, k: nat, i: nat)
    requires k < |c.alarm| && i <= |c.sources|
    ensures PortsSeen(Alarmed(c, k), i) == PortsSeen(c, i)
  {
    if i > 0 { AlarmedPorts(c, k, i - 1); }
  }

  /** An alarm that is looked at is found on, unless an unlisted one comes before it. */
  lemma {:induction false} AlarmedSeen(c: Config, k: nat, s: int, list: seq<(AlarmId, int)>, p: (AlarmId, int))
    requires k < |c.alarm| && forall key :: key in c.alarmInx ==> c.alarmInx[key] < |c.alarm|
    requires p in list && Key(p.0, s, p.1) in c.alarmInx && c.alarmInx[Key(p.0, s, p.1)] == k
    requires !Checked(c, s, list).NotListed?
    ensures Checked(Alarmed(c, k), s, list).AlarmOn?
  {
    if list[0] != p && !c.alarm[c.alarmInx[Key(list[0].0, s, list[0].1)]] { AlarmedSeen(c, k, s, list[1..], p); }
  }

  lemma AlarmedCheck(c: Config, k: nat, i: nat)
    requires c.Valid() && k < |c.alarm| && i < |c.sources| && c.InSlot(i)
    ensures CheckOf(Alarmed(c, k), i) == CheckOf(c, i) || CheckOf(Alarmed(c, k), i).AlarmOn?
    ensures !LooksAt(c, i, k) ==> CheckOf(Alarmed(c, k), i) == CheckOf(c, i)
    ensures LooksAt(c, i, k) && !CheckOf(c, i).NotListed? ==> CheckOf(Alarmed(c, k), i).AlarmOn?
  {
    var s, list := c.sources[i].slot, AlarmsOf(c.sources[i].typ, c.SlotOf(i).board);
    AlarmedChecked(c, k, s, list);
    if LooksAt(c, i, k) && !Checked(c, s, list).NotListed? {
      var p :| p in list && Key(p.0, s, p.1) in c.alarmInx && c.alarmInx[Key(p.0, s, p.1)] == k;
      AlarmedSeen(c, k, s, list, p);
    }
  }

  /** Only the sources that look at the alarm see a difference, and they are ruled out. */
  lemma AlarmedInfo(c: Config, k: nat, i: nat)
    requires c.Valid() && k < |c.alarm| && i < |c.sources|
    ensures if c.InSlot(i) && LooksAt(c, i, k) && !CheckOf(c, i).NotListed?
      then !Eligible(InfoOf(Alarmed(c, k), i), c.clock)
      else InfoOf(Alarmed(c, k), i) == InfoOf(c, i) || !Eligible(InfoOf(Alarmed(c, k), i), c.clock)
    ensures !(c.InSlot(i) && LooksAt(c, i, k)) ==> InfoOf(Alarmed(c, k), i) == InfoOf(c, i)
  {
    AlarmedPorts(c, k, i + 1);
    SeenFits(c, i + 1);
    if c.InSlot(i) { AlarmedCheck(c, k, i); }
  }

  /** One more alarm leaves the choice as it is exactly when the chosen source does not look at it. */
  lemma AlarmedChoice(c: Config, k: nat, r: nat, s: nat)
    requires c.Valid() && k < |c.alarm| && !GivesUp(c) && Chosen(c, r) && Chosen(Alarmed(c, k), s)
    ensures s == r <==> !(r < |c.sources| && c.InSlot(r) && LooksAt(c, r, k))
  {
    var d := Alarmed(c, k);
    forall i | 0 <= i < |c.sources| && c.InSlot(i) ensures !CheckOf(d, i).NotListed? { AlarmedCheck(c, k, i); }
    assert !GivesUp(d);
    if r < |c.sources| && c.InSlot(r) && LooksAt(c, r, k) {
      AlarmedInfo(c, k, r);
    } else {
      forall i | 0 <= i < |c.sources|
        ensures InfoOf(d, i) == InfoOf(c, i) || !Eligible(InfoOf(d, i), d.clock)
        ensures !(c.InSlot(i) && LooksAt(c, i, k)) ==> InfoOf(d, i) == InfoOf(c, i)
      {
        AlarmedInfo(c, k, i);
      }
      SameAnswer(c, d, r);
      AnswerUnique(Infos(d), d.clock, r, s);
    }
  }

  /** The selection before and after one more alarm: r and s are the two choices. */
  method AlarmAnother(c: Config, k: nat) returns (r: nat, s: nat)
    requires c.Valid() && k < |c.alarm| && !GivesUp(c)
    ensures Chosen(c, r) && Chosen(Alarmed(c, k), s)
    ensures s == r <==> !(r < |c.sources| && c.InSlot(r) && LooksAt(c, r, k))
  {
    r := BisFree(c);
    s := BisFree(Alarmed(c, k));
    AlarmedChoice(c, k, r, s);
  }

  /** A board that is not in the table is taken for the last one that was: its source is enabled without a port. */
  lemma UnknownBoardTakenForAnother()
    ensures exists c: Config, i: nat :: c.Valid() && i < |c.sources| && InfoOf(c, i).enable && !HasPort(c, i)
  {
    var five := [54, 54, 54, 54, 54];
    var c := Config(
      [Source(S1pps, 1, BothFlag), Source(S1pps, 2, BothFlag)], [Slot(7, five, five), Slot(9, five, five)],
      map[7 := Some([S1pps])], map[], [], 0);
    assert c.Valid();
    assert PortsSeen(c, 1) == Some([S1pps]) && PortsSeen(c, 2) == PortsSeen(c, 1);
    assert InfoOf(c, 1).enable && !HasPort(c, 1);
  }
}
