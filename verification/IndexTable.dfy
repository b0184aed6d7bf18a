/**
  The alarm and event index tables: for each class of the table of ids one entry per id, slot and port, written by
  nested loops through a running index into an allocation whose size is computed beforehand in 8-bit counters.
 */
module IndexTable {

  /** The classes of ids: system, power or clock, satellite, input, output. */
  datatype Class = Class(sid: int, slots: nat, ports: nat)

  /** A row of the table of ids. */
  datatype IdRow = IdRow(id: int, typ: int)

  datatype BoardType = Power | Input | Output | OtherBoard

  datatype Board = Board(typ: BoardType, maxPort: nat)

  datatype Entry = Entry(id: int, slot: nat, port: nat)

  // ---------- the table that is meant ----------

  /** One id: its slots in order, and in each slot its ports. */
  function Block(id: int, slots: nat, ports: nat): seq<Entry> {
    if slots == 0 then [] else Block(id, slots - 1, ports) + Row(id, slots, ports)
  }

  function Row(id: int, slot: nat, ports: nat): (r: seq<Entry>)
    ensures |r| == ports && forall k :: 0 <= k < ports ==> r[k] == Entry(id, slot, k + 1)
  {
    seq(ports, k requires 0 <= k < ports => Entry(id, slot, k + 1))
  }

  /** One class: its ids in the order of their table. */
  function ClassLayout(c: Class, ids: seq<IdRow>): seq<Entry> {
    if ids == [] then []
    else
      var init, last := ids[..|ids| - 1], ids[|ids| - 1];
      ClassLayout(c, init) + if last.typ == c.sid then Block(last.id, c.slots, c.ports) else []
  }

  function Layout(cs: seq<Class>, ids: seq<IdRow>): seq<Entry> {
    if cs == [] then [] else Layout(cs[..|cs| - 1], ids) + ClassLayout(cs[|cs| - 1], ids)
  }

  function Count(ids: seq<IdRow>, sid: int): nat {
    if ids == [] then 0
    else Count(ids[..|ids| - 1], sid) + if ids[|ids| - 1].typ == sid then 1 else 0
  }

  /** The entries that are needed. */
  function Needed(cs: seq<Class>, ids: seq<IdRow>): nat {
    if cs == [] then 0
    else
      var c := cs[|cs| - 1];
      Needed(cs[..|cs| - 1], ids) + c.slots * c.ports * Count(ids, c.sid)
  }

  /** The entries that are allocated: the counters have eight bits. */
  function Allocated(cs: seq<Class>, ids: seq<IdRow>): nat {
    if cs == [] then 0
    else
      var c := cs[|cs| - 1];
      Allocated(cs[..|cs| - 1], ids) + c.slots * c.ports * (Count(ids, c.sid) % 256)
  }

  function Most(boards: seq<Board>, typ: BoardType): nat {
    if boards == [] then 0
    else
      var rest, last := Most(boards[..|boards| - 1], typ), boards[|boards| - 1];
      if last.typ == typ && rest < last.maxPort then last.maxPort else rest
  }

  /** The classes of alarms: system, power, satellite, input, output; the slots are those of the equipment. */
  function AlarmClasses(boards: seq<Board>, power: nat, input: nat, output: nat): seq<Class> {
    [Class(1, 1, 1), Class(2, power, Most(boards, Power)), Class(5, input, 1),
     Class(6, input, Most(boards, Input)), Class(8, output, Most(boards, Output))]
  }

  /** The classes of events: system, clock, satellite, input, output. */
  function EventClasses(boards: seq<Board>, input: nat, output: nat): seq<Class> {
    [Class(1, 1, 1), Class(7, 1, 1), Class(5, input, 1),
     Class(6, input, Most(boards, Input)), Class(8, output, Most(boards, Output))]
  }

  // ---------- the program ----------

  /** The search for the most ports among the boards of a type. */
  method MaxPorts(boards: seq<Board>, typ: BoardType) returns (most: nat)
    ensures most == Most(boards, typ)
    ensures forall i :: 0 <= i < |boards| && boards[i].typ == typ ==> boards[i].maxPort <= most
    ensures most == 0 || exists i :: 0 <= i < |boards| && boards[i].typ == typ && boards[i].maxPort == most
  {
    most := 0;
    for i := 0 to |boards|
      invariant most == Most(boards[..i], typ)
      invariant forall k :: 0 <= k < i && boards[k].typ == typ ==> boards[k].maxPort <= most
      invariant most == 0 || exists k :: 0 <= k < i && boards[k].typ == typ && boards[k].maxPort == most
    {
      assert boards[..i + 1][..i] == boards[..i];
      if boards[i].typ == typ && most < boards[i].maxPort { most := boards[i].maxPort; }
    }
    assert boards[..|boards|] == boards;
  }

  /** The counting of the ids of a class, in an unsigned char. */
  method CountTypes(ids: seq<IdRow>, sid: int) returns (n: nat)
    ensures n == Count(ids, sid) % 256
  {
    n := 0;
    for i := 0 to |ids|
      invariant n == Count(ids[..i], sid) % 256
    {
      assert ids[..i + 1][..i] == ids[..i];
      if ids[i].typ == sid { n := (n + 1) % 256; }
    }
    assert ids[..|ids|] == ids;
  }

  method TableSize(cs: seq<Class>, ids: seq<IdRow>) returns (size: nat)
    ensures size == Allocated(cs, ids)
  {
    size := 0;
    for m := 0 to |cs|
      invariant size == Allocated(cs[..m], ids)
    {
      AllocatedNext(cs, ids, m);
      var n := CountTypes(ids, cs[m].sid);
      size := size + cs[m].slots * cs[m].ports * n;
    }
    assert cs[..|cs|] == cs;
  }

  lemma AllocatedNext(cs: seq<Class>, ids: seq<IdRow>, m: nat)
    requires m < |cs|
    ensures Allocated(cs[..m + 1], ids)
      == Allocated(cs[..m], ids) + cs[m].slots * cs[m].ports * (Count(ids, cs[m].sid) % 256)
  {
    assert cs[..m + 1][..m] == cs[..m];
  }

  /** The two inner loops: the entries of one id from inx on, and nothing else. */
  method FillId(t: array<Entry>, start: nat, id: int, slots: nat, ports: nat) returns (inx: nat)
    requires start + |Block(id, slots, ports)| <= t.Length
    modifies t
    ensures inx == start + |Block(id, slots, ports)| && t[..inx] == old(t[..start]) + Block(id, slots, ports)
  {
    inx := start;
    for j := 0 to slots
      invariant inx == start + |Block(id, j, ports)| && |Block(id, j, ports)| <= |Block(id, slots, ports)|
      invariant t[..inx] == old(t[..start]) + Block(id, j, ports)
    {
      BlockGrows(id, j + 1, slots, ports);
      inx := FillSlot(t, inx, id, j + 1, ports);
    }
  }

  method FillSlot(t: array<Entry>, start: nat, id: int, slot: nat, ports: nat) returns (inx: nat)
    requires start + ports <= t.Length
    modifies t
    ensures inx == start + ports && t[..inx] == old(t[..start]) + Row(id, slot, ports)
  {
    inx := start;
    for k := 0 to ports
      invariant inx == start + k && t[..start] == old(t[..start])
      invariant t[start..inx] == Row(id, slot, ports)[..k]
    {
      t[inx] := Entry(id, slot, k + 1);
      inx := inx + 1;
    }
    assert t[..inx] == t[..start] + t[start..inx];
  }

  lemma {:induction false} BlockGrows(id: int, i: nat, j: nat, ports: nat)
    requires i <= j
    ensures |Block(id, i, ports)| <= |Block(id, j, ports)|
  {
    if i < j { BlockGrows(id, i, j - 1, ports); }
  }

  /** The loop over the ids, for one class. */
  method FillClass(t: array<Entry>, start: nat, c: Class, ids: seq<IdRow>) returns (inx: nat)
    requires start + |ClassLayout(c, ids)| <= t.Length
    modifies t
    ensures inx == start + |ClassLayout(c, ids)| && t[..inx] == old(t[..start]) + ClassLayout(c, ids)
  {
    inx := start;
    ghost var was := t[..start];
    for i := 0 to |ids|
      invariant inx == start + |ClassLayout(c, ids[..i])| <= t.Length
      invariant t[..inx] == was + ClassLayout(c, ids[..i])
    {
      ClassNext(c, ids, i);
      ClassGrows(c, ids, i + 1);
      if c.sid == ids[i].typ {
        inx := FillId(t, inx, ids[i].id, c.slots, c.ports);
        Regroup(was, ClassLayout(c, ids[..i]), Block(ids[i].id, c.slots, c.ports));
      }
    }
    assert ids[..|ids|] == ids;
  }

  lemma Regroup(a: seq<Entry>, b: seq<Entry>, c: seq<Entry>)
    ensures a + b + c == a + (b + c)
  {
  }

  lemma ClassNext(c: Class, ids: seq<IdRow>, i: nat)
    requires i < |ids|
    ensures ClassLayout(c, ids[..i + 1])
      == ClassLayout(c, ids[..i]) + if ids[i].typ == c.sid then Block(ids[i].id, c.slots, c.ports) else []
  {
    assert ids[..i + 1][..i] == ids[..i];
  }

  lemma {:induction false} ClassGrows(c: Class, ids: seq<IdRow>, n: nat)
    requires n <= |ids|
    ensures |ClassLayout(c, ids[..n])| <= |ClassLayout(c, ids)|
  {
    if n == |ids| {
      assert ids[..n] == ids;
    } else {
      assert ids[..|ids| - 1][..n] == ids[..n];
      ClassGrows(c, ids[..|ids| - 1], n);
    }
  }

  /**
    The allocation and the outer loop. The size is known beforehand; the table is filled to its last entry and no
    further when every counted class fits its counter.
   */
  method Build(cs: seq<Class>, ids: seq<IdRow>) returns (t: array<Entry>, inx: nat)
    requires CountersFit(cs, ids)
    ensures fresh(t) && inx == t.Length == Allocated(cs, ids) && t[..] == Layout(cs, ids)
  {
    var size := TableSize(cs, ids);
    LayoutSize(cs, ids);
    AllocatedIff(cs, ids);
    t := new Entry[size](_ => Entry(0, 0, 0));
    inx := 0;
    for m := 0 to |cs|
      invariant inx == |Layout(cs[..m], ids)| <= t.Length && t[..inx] == Layout(cs[..m], ids)
    {
      assert cs[..m + 1][..m] == cs[..m];
      LayoutGrows(cs, ids, m + 1);
      inx := FillClass(t, inx, cs[m], ids);
    }
    assert cs[..|cs|] == cs;
  }

  /** initializeAlarmIndexTable, for ids whose classes have fewer than 256 members each. */
  method AlarmTable(boards: seq<Board>, ids: seq<IdRow>, power: nat, input: nat, output: nat)
    returns (t: array<Entry>, inx: nat)
    requires forall sid :: Count(ids, sid) < 256
    ensures inx == t.Length && t[..] == Layout(AlarmClasses(boards, power, input, output), ids)
  {
    var p := MaxPorts(boards, Power);
    var i := MaxPorts(boards, Input);
    var o := MaxPorts(boards, Output);
    t, inx := Build(
      [Class(1, 1, 1), Class(2, power, p), Class(5, input, 1), Class(6, input, i), Class(8, output, o)], ids);
  }

  /** initializeEventIndexTable, likewise. */
  method EventTable(boards: seq<Board>, ids: seq<IdRow>, input: nat, output: nat) returns (t: array<Entry>, inx: nat)
    requires forall sid :: Count(ids, sid) < 256
    ensures inx == t.Length && t[..] == Layout(EventClasses(boards, input, output), ids)
  {
    var i := MaxPorts(boards, Input);
    var o := MaxPorts(boards, Output);
    t, inx := Build(
      [Class(1, 1, 1), Class(7, 1, 1), Class(5, input, 1), Class(6, input, i), Class(8, output, o)], ids);
  }

  lemma {:induction false} LayoutGrows(cs: seq<Class>, ids: seq<IdRow>, n: nat)
    requires n <= |cs|
    ensures |Layout(cs[..n], ids)| <= |Layout(cs, ids)|
  {
    if n == |cs| {
      assert cs[..n] == cs;
    } else {
      assert cs[..|cs| - 1][..n] == cs[..n];
      LayoutGrows(cs[..|cs| - 1], ids, n);
    }
  }

  // ---------- the size ----------

  lemma {:induction false} BlockSize(id: int, slots: nat, ports: nat)
    ensures |Block(id, slots, ports)| == slots * ports
  {
    if slots > 0 { BlockSize(id, slots - 1, ports); }
  }

  lemma {:induction false} ClassSize(c: Class, ids: seq<IdRow>)
    ensures |ClassLayout(c, ids)| == c.slots * c.ports * Count(ids, c.sid)
  {
    if ids != [] {
      ClassSize(c, ids[..|ids| - 1]);
      BlockSize(ids[|ids| - 1].id, c.slots, c.ports);
      Distribute(c.slots * c.ports, Count(ids[..|ids| - 1], c.sid));
    }
  }

  lemma Distribute(a: nat, n: nat)
    ensures a * (n + 1) == a * n + a
  {
  }

  lemma {:induction false} LayoutSize(cs: seq<Class>, ids: seq<IdRow>)
    ensures |Layout(cs, ids)| == Needed(cs, ids)
  {
    if cs != [] {
      LayoutSize(cs[..|cs| - 1], ids);
      ClassSize(cs[|cs| - 1], ids);
    }
  }

  /** Every class that takes entries at all has fewer than 256 ids. */
  predicate CountersFit(cs: seq<Class>, ids: seq<IdRow>) {
    forall m :: 0 <= m < |cs| ==> cs[m].slots * cs[m].ports == 0 || Count(ids, cs[m].sid) < 256
  }

  /** The allocation has the size of the table exactly when the counters fit, and is too small otherwise. */
  lemma {:induction false} AllocatedIff(cs: seq<Class>, ids: seq<IdRow>)
    ensures Allocated(cs, ids) <= Needed(cs, ids)
    ensures Allocated(cs, ids) == Needed(cs, ids) <==> CountersFit(cs, ids)
  {
    if cs != [] {
      var init, c := cs[..|cs| - 1], cs[|cs| - 1];
      AllocatedIff(init, ids);
      ModProduct(c.slots * c.ports, Count(ids, c.sid));
      assert CountersFit(cs, ids) <==>
        CountersFit(init, ids) && (c.slots * c.ports == 0 || Count(ids, c.sid) < 256) by {
        assert forall m :: 0 <= m < |init| ==> cs[m] == init[m];
      }
    }
  }

  lemma ModProduct(a: nat, n: nat)
    ensures a * (n % 256) <= a * n
    ensures a * (n % 256) == a * n <==> a == 0 || n < 256
  {
    var q := n / 256;
    assert n == 256 * q + n % 256;
    assert a * n == a * (256 * q) + a * (n % 256);
    if a > 0 && q > 0 { Positive(a, 256 * q); } else if q == 0 { } else { }
  }

  lemma Positive(a: nat, b: nat)
    requires a > 0 && b > 0
    ensures a * b > 0
  {
  }

  // ---------- every place once ----------

  ghost predicate NoRepeats(s: seq<Entry>) {
    forall i, j :: 0 <= i < j < |s| ==> s[i] != s[j]
  }

  lemma {:induction false} BlockHas(id: int, slots: nat, ports: nat, e: Entry)
    ensures e in Block(id, slots, ports) <==> e.id == id && 1 <= e.slot <= slots && 1 <= e.port <= ports
  {
    if slots > 0 {
      BlockHas(id, slots - 1, ports, e);
      var row := Row(id, slots, ports);
      if e.id == id && e.slot == slots && 1 <= e.port <= ports { assert row[e.port - 1] == e; }
    }
  }

  lemma Joined(a: seq<Entry>, b: seq<Entry>)
    requires NoRepeats(a) && NoRepeats(b) && forall e :: e in a ==> e !in b
    ensures NoRepeats(a + b)
  {
    forall i, j | 0 <= i < j < |a + b| ensures (a + b)[i] != (a + b)[j] {
      if i < |a| <= j { assert (a + b)[i] == a[i] && (a + b)[j] in b; }
    }
  }

  lemma {:induction false} BlockOnce(id: int, slots: nat, ports: nat)
    ensures NoRepeats(Block(id, slots, ports))
  {
    if slots > 0 {
      BlockOnce(id, slots - 1, ports);
      forall e | e in Block(id, slots - 1, ports) ensures e !in Row(id, slots, ports) {
        BlockHas(id, slots - 1, ports, e);
      }
      Joined(Block(id, slots - 1, ports), Row(id, slots, ports));
    }
  }

  ghost predicate DistinctIds(ids: seq<IdRow>) {
    forall i, j :: 0 <= i < j < |ids| ==> ids[i].id != ids[j].id
  }

  ghost predicate DistinctClasses(cs: seq<Class>) {
    forall i, j :: 0 <= i < j < |cs| ==> cs[i].sid != cs[j].sid
  }

  /** What belongs in the table for a class. */
  ghost predicate InClass(c: Class, ids: seq<IdRow>, e: Entry) {
    1 <= e.slot <= c.slots && 1 <= e.port <= c.ports && IdRow(e.id, c.sid) in ids
  }

  lemma {:induction false} ClassHas(c: Class, ids: seq<IdRow>, e: Entry)
    ensures e in ClassLayout(c, ids) <==> InClass(c, ids, e)
  {
    if ids != [] {
      var init, last := ids[..|ids| - 1], ids[|ids| - 1];
      ClassHas(c, init, e);
      BlockHas(last.id, c.slots, c.ports, e);
      assert ids == init + [last];
    }
  }

  lemma {:induction false} ClassOnce(c: Class, ids: seq<IdRow>)
    requires DistinctIds(ids)
    ensures NoRepeats(ClassLayout(c, ids))
  {
    if ids != [] {
      var init, last := ids[..|ids| - 1], ids[|ids| - 1];
      ClassOnce(c, init);
      BlockOnce(last.id, c.slots, c.ports);
      forall e | e in ClassLayout(c, init) ensures e !in Block(last.id, c.slots, c.ports) {
        ClassHas(c, init, e);
        BlockHas(last.id, c.slots, c.ports, e);
      }
      Joined(ClassLayout(c, init), Block(last.id, c.slots, c.ports));
      assert ClassLayout(c, init) + [] == ClassLayout(c, init);
    }
  }

  /** What belongs in the table: a slot and a port that its class has, for each id. */
  ghost predicate InRange(cs: seq<Class>, ids: seq<IdRow>, e: Entry) {
    exists m :: 0 <= m < |cs| && InClass(cs[m], ids, e)
  }

  /** The table holds exactly the entries in range. */
  lemma {:induction false} Holds(cs: seq<Class>, ids: seq<IdRow>, e: Entry)
    ensures e in Layout(cs, ids) <==> InRange(cs, ids, e)
  {
    if cs != [] {
      Holds(cs[..|cs| - 1], ids, e);
      ClassHas(cs[|cs| - 1], ids, e);
      InRangeNext(cs, ids, e);
    }
  }

  lemma InRangeNext(cs: seq<Class>, ids: seq<IdRow>, e: Entry)
    requires cs != []
    ensures InRange(cs, ids, e) <==> InRange(cs[..|cs| - 1], ids, e) || InClass(cs[|cs| - 1], ids, e)
  {
    var init := cs[..|cs| - 1];
    if InRange(init, ids, e) {
      var m :| 0 <= m < |init| && InClass(init[m], ids, e);
      assert InClass(cs[m], ids, e);
    }
    if InRange(cs, ids, e) && !InClass(cs[|cs| - 1], ids, e) {
      var m :| 0 <= m < |cs| && InClass(cs[m], ids, e);
      assert InClass(init[m], ids, e);
    }
  }

  /** Each of them at one index only. */
  lemma {:induction false} Once(cs: seq<Class>, ids: seq<IdRow>)
    requires DistinctIds(ids) && DistinctClasses(cs)
    ensures NoRepeats(Layout(cs, ids))
  {
    if cs != [] {
      var init, c := cs[..|cs| - 1], cs[|cs| - 1];
      Once(init, ids);
      ClassOnce(c, ids);
      forall e | e in Layout(init, ids) ensures e !in ClassLayout(c, ids) {
        Holds(init, ids, e);
        ClassHas(c, ids, e);
      }
      Joined(Layout(init, ids), ClassLayout(c, ids));
    }
  }

  ghost predicate OnlyAt(s: seq<Entry>, e: Entry, inx: nat) {
    inx < |s| && s[inx] == e && forall j :: 0 <= j < |s| && s[j] == e ==> j == inx
  }

  /** The index of an entry in a built table: there is one, and there is no other. */
  lemma Bijection(cs: seq<Class>, ids: seq<IdRow>, e: Entry)
    requires DistinctIds(ids) && DistinctClasses(cs) && CountersFit(cs, ids) && InRange(cs, ids, e)
    ensures |Layout(cs, ids)| == Allocated(cs, ids)
    ensures exists inx :: OnlyAt(Layout(cs, ids), e, inx)
  {
    Holds(cs, ids, e);
    Once(cs, ids);
    LayoutSize(cs, ids);
    AllocatedIff(cs, ids);
    var inx :| 0 <= inx < |Layout(cs, ids)| && Layout(cs, ids)[inx] == e;
    assert OnlyAt(Layout(cs, ids), e, inx);
  }

  // ---------- the two tables, class by class ----------

  /** An id of type typ has an entry for each of the slots and ports. */
  predicate Of(ids: seq<IdRow>, e: Entry, typ: int, slots: nat, ports: nat) {
    IdRow(e.id, typ) in ids && 1 <= e.slot <= slots && 1 <= e.port <= ports
  }

  lemma InFive(cs: seq<Class>, ids: seq<IdRow>, e: Entry)
    requires |cs| == 5
    ensures InRange(cs, ids, e) <==>
      (InClass(cs[0], ids, e) || InClass(cs[1], ids, e) || InClass(cs[2], ids, e) || InClass(cs[3], ids, e)
      || InClass(cs[4], ids, e))
  {
  }

  /**
    The alarm table: system alarms at slot and port 1, power alarms at every power slot and port, satellite alarms at
    port 1 of every input slot, input and output alarms at every slot and port of their kind; each once.
   */
  lemma AlarmTableHas(boards: seq<Board>, ids: seq<IdRow>, power: nat, input: nat, output: nat, e: Entry)
    ensures e in Layout(AlarmClasses(boards, power, input, output), ids) <==>
      (Of(ids, e, 1, 1, 1) || Of(ids, e, 2, power, Most(boards, Power)) || Of(ids, e, 5, input, 1)
      || Of(ids, e, 6, input, Most(boards, Input)) || Of(ids, e, 8, output, Most(boards, Output)))
    ensures DistinctIds(ids) ==> NoRepeats(Layout(AlarmClasses(boards, power, input, output), ids))
  {
    var cs := AlarmClasses(boards, power, input, output);
    Holds(cs, ids, e);
    InFive(cs, ids, e);
    assert DistinctClasses(cs);
    if DistinctIds(ids) { Once(cs, ids); }
  }

  /** The event table: the same with clock events, at slot and port 1, in place of power alarms. */
  lemma EventTableHas(boards: seq<Board>, ids: seq<IdRow>, input: nat, output: nat, e: Entry)
    ensures e in Layout(EventClasses(boards, input, output), ids) <==>
      (Of(ids, e, 1, 1, 1) || Of(ids, e, 7, 1, 1) || Of(ids, e, 5, input, 1)
      || Of(ids, e, 6, input, Most(boards, Input)) || Of(ids, e, 8, output, Most(boards, Output)))
    ensures DistinctIds(ids) ==> NoRepeats(Layout(EventClasses(boards, input, output), ids))
  {
    var cs := EventClasses(boards, input, output);
    Holds(cs, ids, e);
    InFive(cs, ids, e);
    assert DistinctClasses(cs);
    if DistinctIds(ids) { Once(cs, ids); }
  }
}
