/**
  What the two alarm lists hold: after any run of comparisons, and exactly when the current list agrees with the
  vector of alarms.
 */
module AlarmTheorems {

  import opened Alarm

  // ---------- the current list ----------

  /** The alarms that a list shows as on. */
  ghost function Shown(list: seq<Record>): set<int> {
    set j | 0 <= j < |list| && list[j].on :: list[j].inx
  }

  ghost predicate Distinct(list: seq<Record>) {
    forall j, k :: 0 <= j < k < |list| && list[j].on && list[k].on ==> list[j].inx != list[k].inx
  }

  ghost function On(v: seq<bool>): set<int> { set k | 0 <= k < |v| && v[k] }

  /** Each alarm that is on is in the list once, and nothing else is. */
  ghost predicate Agrees(list: seq<Record>, v: seq<bool>) { Distinct(list) && Shown(list) == On(v) }

  /** How often a list shows an alarm, and how many places it has taken. */
  function Count(list: seq<Record>, x: int): nat {
    if list == [] then 0 else One(list[0], x) + Count(list[1..], x)
  }

  function One(r: Record, x: int): nat { if r.on && r.inx == x then 1 else 0 }

  function Taken(list: seq<Record>): nat {
    if list == [] then 0 else (if list[0].on then 1 else 0) + Taken(list[1..])
  }

  lemma {:induction false} Counted(list: seq<Record>, j: nat)
    requires j < |list| && list[j].on
    ensures Count(list, list[j].inx) > 0
  {
    if j > 0 { Counted(list[1..], j - 1); }
  }

  lemma {:induction false} Found(list: seq<Record>, x: int) returns (j: nat)
    requires Count(list, x) > 0
    ensures j < |list| && list[j].on && list[j].inx == x
  {
    if One(list[0], x) > 0 {
      j := 0;
    } else {
      var k := Found(list[1..], x);
      j := k + 1;
    }
  }

  lemma {:induction false} CountedTwice(list: seq<Record>, j: nat, k: nat)
    requires j < k < |list| && list[j].on && list[k].on && list[j].inx == list[k].inx
    ensures Count(list, list[j].inx) >= 2
  {
    if j == 0 { Counted(list[1..], k - 1); } else { CountedTwice(list[1..], j - 1, k - 1); }
  }

  lemma {:induction false} CountedOnce(list: seq<Record>, x: int)
    requires Distinct(list)
    ensures Count(list, x) <= 1
  {
    if list != [] {
      CountedOnce(list[1..], x);
      if Count(list[1..], x) > 0 {
        var k := Found(list[1..], x);
        assert list[k + 1] == list[1..][k];
      }
    }
  }

  lemma DistinctIff(list: seq<Record>)
    ensures Distinct(list) <==> forall x :: Count(list, x) <= 1
  {
    if Distinct(list) {
      forall x ensures Count(list, x) <= 1 { CountedOnce(list, x); }
    } else {
      var j, k :| 0 <= j < k < |list| && list[j].on && list[k].on && list[j].inx == list[k].inx;
      CountedTwice(list, j, k);
    }
  }

  /** A list that shows each alarm of a set once, and nothing else. */
  ghost predicate Exactly(list: seq<Record>, on: set<int>) {
    forall x :: Count(list, x) == if x in on then 1 else 0
  }

  lemma AgreesIsExactly(list: seq<Record>, v: seq<bool>)
    ensures Agrees(list, v) <==> Exactly(list, On(v))
  {
    DistinctIff(list);
    forall x ensures x in Shown(list) <==> Count(list, x) > 0 {
      if x in Shown(list) {
        var j :| 0 <= j < |list| && list[j].on && list[j].inx == x;
        Counted(list, j);
      }
      if Count(list, x) > 0 { var j := Found(list, x); }
    }
    if Agrees(list, v) {
      forall x ensures Count(list, x) == if x in On(v) then 1 else 0 { assert x in Shown(list) <==> x in On(v); }
    }
  }

  lemma {:induction false} FullIff(list: seq<Record>)
    ensures Taken(list) <= |list|
    ensures Taken(list) == |list| <==> FirstOff(list) == |list|
  {
    if list != [] { FullIff(list[1..]); }
  }

  /** The sizes of some sets, and how many of them hold an alarm. */
  ghost function Sizes(sets: seq<set<int>>): nat {
    if sets == [] then 0 else Sizes(sets[..|sets| - 1]) + |sets[|sets| - 1]|
  }

  ghost function Holding(sets: seq<set<int>>, x: int): nat {
    if sets == [] then 0 else Holding(sets[..|sets| - 1], x) + if x in sets[|sets| - 1] then 1 else 0
  }

  /** The same sets, with one alarm taken out of one that holds it. */
  lemma {:induction false} TakeOut(sets: seq<set<int>>, x: int) returns (fewer: seq<set<int>>)
    requires Holding(sets, x) > 0
    ensures Sizes(fewer) == Sizes(sets) - 1
    ensures forall y :: Holding(fewer, y) == Holding(sets, y) - if y == x then 1 else 0
  {
    var init, last := sets[..|sets| - 1], sets[|sets| - 1];
    if x in last {
      fewer := init + [last - {x}];
      assert fewer[..|fewer| - 1] == init;
    } else {
      var less := TakeOut(init, x);
      fewer := less + [last];
      assert fewer[..|fewer| - 1] == less;
    }
  }

  /** Alarms that are shown no more often than the sets hold them take no more places than the sets have members. */
  lemma {:induction false} TakenWithin(list: seq<Record>, sets: seq<set<int>>)
    requires forall x :: Count(list, x) <= Holding(sets, x)
    ensures Taken(list) <= Sizes(sets)
  {
    if list != [] {
      var rest, x: int := list[1..], list[0].inx;
      if !list[0].on {
        assert forall y :: Count(rest, y) == Count(list, y);
        TakenWithin(rest, sets);
      } else {
        assert Count(list, x) == Count(rest, x) + 1 && forall y :: y != x ==> Count(rest, y) == Count(list, y);
        var fewer := TakeOut(sets, x);
        TakenWithin(rest, fewer);
      }
    }
  }

  lemma {:induction false} TakenAtLeast(list: seq<Record>, on: set<int>)
    requires forall x :: x in on ==> Count(list, x) >= 1
    ensures |on| <= Taken(list)
  {
    if list == [] {
      forall x ensures x !in on { assert Count(list, x) == 0; }
      assert on == {};
    } else {
      var rest, x: int := list[1..], list[0].inx;
      if !list[0].on {
        assert forall y :: Count(rest, y) == Count(list, y);
        TakenAtLeast(rest, on);
      } else {
        assert forall y :: y != x ==> Count(rest, y) == Count(list, y);
        TakenAtLeast(rest, on - {x});
      }
    }
  }

  lemma OneSet(on: set<int>)
    ensures Sizes([on]) == |on| && forall x :: Holding([on], x) == if x in on then 1 else 0
  {
    var sets := [on];
    assert sets[..|sets| - 1] == [];
    forall x ensures Holding(sets, x) == if x in on then 1 else 0 { assert Holding([], x) == 0; }
  }

  lemma TakenExactly(list: seq<Record>, on: set<int>)
    requires Exactly(list, on)
    ensures Taken(list) == |on|
  {
    OneSet(on);
    TakenWithin(list, [on]);
    TakenAtLeast(list, on);
  }

  lemma {:induction false} Replaced(list: seq<Record>, i: nat, r: Record, x: int)
    requires i < |list|
    ensures Count(list[i := r], x) == Count(list, x) - One(list[i], x) + One(r, x)
  {
    if i == 0 {
      assert list[0 := r][1..] == list[1..];
    } else {
      assert list[i := r][1..] == list[1..][i - 1 := r];
      Replaced(list[1..], i - 1, r, x);
    }
  }

  /** What comparing one alarm does to the list. */
  lemma StepCounts(c: Numbered, was: bool, now: bool, inx: nat, ti: int)
    ensures var d := CurStep(c, was, now, inx, ti).list;
      |d| == |c.list| && (forall x :: x != inx ==> Count(d, x) == Count(c.list, x))
      && Count(d, inx) == Stepped(Count(c.list, inx), was, now, Taken(c.list) < |c.list|)
  {
    FullIff(c.list);
    if !was && now {
      var i, r := FirstOff(c.list), Record(c.last + 1, inx, true, ti);
      if i < |c.list| {
        forall x ensures Count(c.list[i := r], x) == Count(c.list, x) + One(r, x) { Replaced(c.list, i, r, x); }
      }
    } else if was && !now {
      ClearedCounts(c, inx);
    }
  }

  lemma ClearedCounts(c: Numbered, inx: nat)
    ensures forall x :: x != inx ==> Count(Cleared(c, inx).list, x) == Count(c.list, x)
    ensures Count(Cleared(c, inx).list, inx) == if Count(c.list, inx) == 0 then 0 else Count(c.list, inx) - 1
  {
    var i := FirstOn(c.list, inx);
    if i < |c.list| {
      Counted(c.list, i);
      forall x ensures Count(c.list[i := ZERO], x) == Count(c.list, x) - One(c.list[i], x) {
        Replaced(c.list, i, ZERO, x);
      }
    } else {
      NotThere(c.list, inx);
    }
  }

  lemma {:induction false} NotThere(list: seq<Record>, inx: nat)
    requires FirstOn(list, inx) == |list|
    ensures Count(list, inx) == 0
  {
    if list != [] { NotThere(list[1..], inx); }
  }

  /** How often an alarm is shown after its comparison: a full list shows nothing new, nothing is cleared twice. */
  function Stepped(shown: nat, was: bool, now: bool, room: bool): nat {
    if !was && now && room then shown + 1
    else if was && !now && shown > 0 then shown - 1
    else shown
  }

  /** The alarms that count as on when the first n have been compared. */
  ghost function Active(was: seq<bool>, now: seq<bool>, n: nat): set<int>
    requires n <= |was| == |now|
  {
    set k | 0 <= k < |was| && (if k < n then now[k] else was[k])
  }

  /** The list has room all the way: a caller can tell from the two vectors. */
  ghost predicate HasRoom(was: seq<bool>, now: seq<bool>, n: nat)
    requires n <= |was| == |now|
  {
    forall m :: 0 <= m <= n ==> |Active(was, now, m)| <= 50
  }

  lemma ActiveNext(was: seq<bool>, now: seq<bool>, n: nat)
    requires n < |was| == |now|
    ensures Active(was, now, n + 1)
      == if now[n] then Active(was, now, n) + {n as int} else Active(was, now, n) - {n as int}
    ensures n in Active(was, now, n) <==> was[n]
  {
  }

  /** Something that is on is missing from the list. */
  ghost predicate Missing(list: seq<Record>, now: seq<bool>, n: nat)
    requires n <= |now|
  {
    exists x :: 0 <= x < n && now[x] && Count(list, x) == 0
  }

  /** While there is room the list shows the active alarms; from the first alarm without room on, one is missing. */
  ghost predicate Tracks(list: seq<Record>, was: seq<bool>, now: seq<bool>, n: nat)
    requires n <= |was| == |now|
  {
    |list| == CUR && if HasRoom(was, now, n) then Exactly(list, Active(was, now, n)) else Missing(list, now, n)
  }

  lemma TracksStep(c: Numbered, was: seq<bool>, now: seq<bool>, ti: int, n: nat)
    requires n < |was| == |now| && Tracks(c.list, was, now, n)
    ensures Tracks(CurStep(c, was[n], now[n], n, ti).list, was, now, n + 1)
  {
    var d := CurStep(c, was[n], now[n], n, ti).list;
    StepCounts(c, was[n], now[n], n, ti);
    if HasRoom(was, now, n) {
      RoomStep(c, was, now, ti, n);
    } else {
      var x :| 0 <= x < n && now[x] && Count(c.list, x) == 0;
      assert Count(d, x) == 0;
      assert !HasRoom(was, now, n + 1);
    }
  }

  lemma RoomStep(c: Numbered, was: seq<bool>, now: seq<bool>, ti: int, n: nat)
    requires n < |was| == |now| && |c.list| == CUR && HasRoom(was, now, n) && Exactly(c.list, Active(was, now, n))
    ensures var d := CurStep(c, was[n], now[n], n, ti).list;
      if HasRoom(was, now, n + 1) then Exactly(d, Active(was, now, n + 1)) else Missing(d, now, n + 1)
  {
    var d := CurStep(c, was[n], now[n], n, ti).list;
    StepCounts(c, was[n], now[n], n, ti);
    ActiveNext(was, now, n);
    TakenExactly(c.list, Active(was, now, n));
    if !was[n] && now[n] && Taken(c.list) == CUR {
      assert |Active(was, now, n + 1)| == CUR + 1;
      assert Count(d, n) == 0;
    } else {
      RoomNext(was, now, n);
    }
  }

  lemma RoomNext(was: seq<bool>, now: seq<bool>, n: nat)
    requires n < |was| == |now| && HasRoom(was, now, n) && (!was[n] && now[n] ==> |Active(was, now, n)| < CUR)
    ensures HasRoom(was, now, n + 1)
  {
    ActiveNext(was, now, n);
    if was[n] && !now[n] { SubsetSize(Active(was, now, n + 1), Active(was, now, n)); }
    assert was[n] == now[n] ==> Active(was, now, n + 1) == Active(was, now, n);
  }

  lemma {:induction false} TracksAfter(c: Numbered, was: seq<bool>, now: seq<bool>, ti: seq<int>, n: nat)
    requires n <= |was| == |now| == |ti| && |c.list| == CUR && Exactly(c.list, On(was))
    ensures Tracks(CurAfter(c, was, now, ti, n).list, was, now, n)
  {
    if n == 0 {
      TakenExactly(c.list, On(was));
      FullIff(c.list);
      assert Active(was, now, 0) == On(was);
    } else {
      TracksAfter(c, was, now, ti, n - 1);
      TracksStep(CurAfter(c, was, now, ti, n - 1), was, now, ti[n - 1], n - 1);
    }
  }

  /** A successful comparison keeps the list in agreement exactly when it has room all the way. */
  lemma AgreesIff(c: Numbered, was: seq<bool>, now: seq<bool>, ti: seq<int>)
    requires |was| == |now| == |ti| && |c.list| == CUR && Agrees(c.list, was)
    ensures Agrees(CurAfter(c, was, now, ti, |was|).list, now) <==> HasRoom(was, now, |was|)
    ensures |CurAfter(c, was, now, ti, |was|).list| == CUR
  {
    AgreesIsExactly(c.list, was);
    TracksAfter(c, was, now, ti, |was|);
    var d := CurAfter(c, was, now, ti, |was|).list;
    AgreesIsExactly(d, now);
    assert Active(was, now, |was|) == On(now);
    if Missing(d, now, |was|) {
      var x :| 0 <= x < |was| && now[x] && Count(d, x) == 0;
      assert x in On(now);
    }
  }

  lemma SubsetSize(a: set<int>, b: set<int>)
    requires a <= b
    ensures |a| <= |b|
  {
    assert b == a + (b - a);
  }

  /** Old and new alarms together fitting is enough. */
  lemma RoomForUnion(was: seq<bool>, now: seq<bool>, n: nat)
    requires n <= |was| == |now| && |On(was) + On(now)| <= 50
    ensures HasRoom(was, now, n)
  {
    forall m | 0 <= m <= n ensures |Active(was, now, m)| <= CUR {
      SubsetSize(Active(was, now, m), On(was) + On(now));
    }
  }

  // ---------- after failures ----------

  /** A call that fails behind n alarms of the vector it sees. */
  datatype Call = Call(now: seq<bool>, ti: seq<int>, n: nat)

  predicate Fitting(size: nat, calls: seq<Call>) {
    forall i :: 0 <= i < |calls| ==> |calls[i].now| == |calls[i].ti| == size && calls[i].n <= size
  }

  /** The list after any number of failed calls: the old vector is the same for all of them. */
  function Failed(c: Numbered, was: seq<bool>, calls: seq<Call>): Numbered
    requires Fitting(|was|, calls)
  {
    if calls == [] then c
    else
      var last := calls[|calls| - 1];
      CurAfter(Failed(c, was, calls[..|calls| - 1]), was, last.now, last.ti, last.n)
  }

  /** How often it shows an alarm: once more for each call that raised it, and no more once a call has cleared it. */
  function Piled(was: seq<bool>, calls: seq<Call>, k: nat): nat
    requires Fitting(|was|, calls) && k < |was|
  {
    if calls == [] then (if was[k] then 1 else 0)
    else
      var b, last := Piled(was, calls[..|calls| - 1], k), calls[|calls| - 1];
      if k < last.n then Stepped(b, was[k], last.now[k], true) else b
  }

  /** The list after failed calls and then a successful one. */
  function Retried(c: Numbered, was: seq<bool>, calls: seq<Call>, next: seq<bool>, ti: seq<int>): Numbered
    requires Fitting(|was|, calls) && |was| == |next| == |ti|
  {
    CurAfter(Failed(c, was, calls), was, next, ti, |was|)
  }

  ghost function Raising(was: seq<bool>, call: Call): set<int>
    requires |call.now| == |was| && call.n <= |was|
  {
    set k | 0 <= k < call.n && !was[k] && call.now[k]
  }

  /** The alarms that may need a place: those on before or at the end, and again for each call those that it raises. */
  ghost function Needing(was: seq<bool>, calls: seq<Call>, next: seq<bool>): seq<set<int>>
    requires Fitting(|was|, calls)
  {
    if calls == [] then [On(was) + On(next)]
    else Needing(was, calls[..|calls| - 1], next) + [Raising(was, calls[|calls| - 1])]
  }

  ghost predicate RoomForAll(was: seq<bool>, calls: seq<Call>, next: seq<bool>)
    requires Fitting(|was|, calls)
  {
    Sizes(Needing(was, calls, next)) <= 50
  }

  lemma NeedingNext(was: seq<bool>, calls: seq<Call>, next: seq<bool>)
    requires Fitting(|was|, calls) && calls != []
    ensures var init, raising := Needing(was, calls[..|calls| - 1], next), Raising(was, calls[|calls| - 1]);
      Sizes(Needing(was, calls, next)) == Sizes(init) + |raising|
      && forall x :: Holding(Needing(was, calls, next), x) == Holding(init, x) + if x in raising then 1 else 0
  {
    var init := Needing(was, calls[..|calls| - 1], next);
    assert Needing(was, calls, next)[..|init|] == init;
  }

  /** With room no raise is dropped, so a call moves each alarm on by itself. */
  lemma {:induction false} CallCounts(c: Numbered, was: seq<bool>, now: seq<bool>, ti: seq<int>, n: nat,
    sets: seq<set<int>>)
    requires n <= |was| == |now| == |ti| && |c.list| == CUR && Sizes(sets) <= CUR
    requires forall x ::
      Count(c.list, x) + (if 0 <= x < n && !was[x] && now[x] then 1 else 0) <= Holding(sets, x)
    ensures |CurAfter(c, was, now, ti, n).list| == CUR
    ensures var d := CurAfter(c, was, now, ti, n).list;
      forall x :: Count(d, x)
        == if 0 <= x < n then Stepped(Count(c.list, x), was[x], now[x], true) else Count(c.list, x)
  {
    if n > 0 {
      var m := n - 1;
      CallCounts(c, was, now, ti, m, sets);
      var d := CurAfter(c, was, now, ti, m);
      StepCounts(d, was[m], now[m], m, ti[m]);
      if !was[m] && now[m] { RoomLeft(d.list, sets, m); }
    }
  }

  lemma RoomLeft(list: seq<Record>, sets: seq<set<int>>, m: nat)
    requires (forall x :: Count(list, x) <= Holding(sets, x)) && Count(list, m) < Holding(sets, m)
    ensures Taken(list) < Sizes(sets)
  {
    var fewer := TakeOut(sets, m);
    TakenWithin(list, fewer);
  }

  lemma {:induction false} PiledBound(was: seq<bool>, calls: seq<Call>, next: seq<bool>, k: nat)
    requires Fitting(|was|, calls) && |next| == |was| && k < |was|
    ensures Piled(was, calls, k) + (if !was[k] && next[k] then 1 else 0) <= Holding(Needing(was, calls, next), k)
  {
    if calls == [] {
      OneSet(On(was) + On(next));
    } else {
      PiledBound(was, calls[..|calls| - 1], next, k);
      NeedingNext(was, calls, next);
    }
  }

  lemma {:induction false} FailedCounts(c: Numbered, was: seq<bool>, calls: seq<Call>, next: seq<bool>)
    requires Fitting(|was|, calls) && |next| == |was| && |c.list| == CUR && Exactly(c.list, On(was))
    requires RoomForAll(was, calls, next)
    ensures |Failed(c, was, calls).list| == CUR
    ensures forall x ::
      Count(Failed(c, was, calls).list, x) == if 0 <= x < |was| then Piled(was, calls, x) else 0
  {
    if calls != [] {
      var init, last := calls[..|calls| - 1], calls[|calls| - 1];
      NeedingNext(was, calls, next);
      FailedCounts(c, was, init, next);
      forall k: nat | k < |was| ensures Piled(was, init, k) <= Holding(Needing(was, init, next), k) {
        PiledBound(was, init, next, k);
      }
      CallCounts(Failed(c, was, init), was, last.now, last.ti, last.n, Needing(was, calls, next));
    }
  }

  /** With room for all calls, what the list shows of each alarm in the end. */
  lemma RetriedShows(c: Numbered, was: seq<bool>, calls: seq<Call>, next: seq<bool>, ti: seq<int>)
    requires Fitting(|was|, calls) && |was| == |next| == |ti| && |c.list| == CUR && Agrees(c.list, was)
    requires RoomForAll(was, calls, next)
    ensures var d := Retried(c, was, calls, next, ti).list;
      forall x :: Count(d, x) == if 0 <= x < |was| then Stepped(Piled(was, calls, x), was[x], next[x], true) else 0
  {
    AgreesIsExactly(c.list, was);
    FailedCounts(c, was, calls, next);
    forall k: nat | k < |was|
      ensures Piled(was, calls, k) + (if !was[k] && next[k] then 1 else 0) <= Holding(Needing(was, calls, next), k)
    {
      PiledBound(was, calls, next, k);
    }
    CallCounts(Failed(c, was, calls), was, next, ti, |was|, Needing(was, calls, next));
  }

  /** What some failed call did to an alarm. */
  ghost predicate RaisedBefore(was: seq<bool>, calls: seq<Call>, k: nat)
    requires Fitting(|was|, calls) && k < |was|
  {
    exists i :: 0 <= i < |calls| && k < calls[i].n && !was[k] && calls[i].now[k]
  }

  ghost predicate ClearedBefore(was: seq<bool>, calls: seq<Call>, k: nat)
    requires Fitting(|was|, calls) && k < |was|
  {
    exists i :: 0 <= i < |calls| && k < calls[i].n && was[k] && !calls[i].now[k]
  }

  lemma {:induction false} PiledMeans(was: seq<bool>, calls: seq<Call>, k: nat)
    requires Fitting(|was|, calls) && k < |was|
    ensures was[k] ==> Piled(was, calls, k) == if ClearedBefore(was, calls, k) then 0 else 1
    ensures !was[k] ==> (Piled(was, calls, k) > 0 <==> RaisedBefore(was, calls, k))
  {
    if calls != [] {
      var init, n := calls[..|calls| - 1], |calls| - 1;
      PiledMeans(was, init, k);
      BeforeNext(was, calls, k);
    }
  }

  lemma BeforeNext(was: seq<bool>, calls: seq<Call>, k: nat)
    requires Fitting(|was|, calls) && k < |was| && calls != []
    ensures var init, last := calls[..|calls| - 1], calls[|calls| - 1];
      (RaisedBefore(was, calls, k) <==> RaisedBefore(was, init, k) || (k < last.n && !was[k] && last.now[k]))
      && (ClearedBefore(was, calls, k) <==> ClearedBefore(was, init, k) || (k < last.n && was[k] && !last.now[k]))
  {
    var init := calls[..|calls| - 1];
    if RaisedBefore(was, init, k) {
      var i :| 0 <= i < |init| && k < init[i].n && !was[k] && init[i].now[k];
      assert calls[i] == init[i];
    }
    if ClearedBefore(was, init, k) {
      var i :| 0 <= i < |init| && k < init[i].n && was[k] && !init[i].now[k];
      assert calls[i] == init[i];
    }
  }

  /**
    With room for all calls the list agrees again exactly when no failed call raised an alarm, and the alarms that
    they cleared are still off.
   */
  lemma RetriedAgreesIff(c: Numbered, was: seq<bool>, calls: seq<Call>, next: seq<bool>, ti: seq<int>)
    requires Fitting(|was|, calls) && |was| == |next| == |ti| && |c.list| == CUR && Agrees(c.list, was)
    requires RoomForAll(was, calls, next)
    ensures Agrees(Retried(c, was, calls, next, ti).list, next)
      <==> forall k: nat :: k < |was| ==> !RaisedBefore(was, calls, k) && !(ClearedBefore(was, calls, k) && next[k])
  {
    var d := Retried(c, was, calls, next, ti).list;
    RetriedShows(c, was, calls, next, ti);
    AgreesIsExactly(d, next);
    forall k: nat | k < |was|
      ensures Count(d, k) == (if k in On(next) then 1 else 0)
        <==> !RaisedBefore(was, calls, k) && !(ClearedBefore(was, calls, k) && next[k])
    {
      PiledMeans(was, calls, k);
    }
  }

  /** The same call, failing k times. */
  function Repeated(call: Call, k: nat): seq<Call> {
    if k == 0 then [] else Repeated(call, k - 1) + [call]
  }

  lemma {:induction false} RepeatedCalls(was: seq<bool>, call: Call, k: nat)
    requires |was| == |call.now| == |call.ti| == call.n == 1 && !was[0] && call.now[0]
    ensures var calls := Repeated(call, k);
      Fitting(1, calls) && Piled(was, calls, 0) == k && Sizes(Needing(was, calls, was)) == k
  {
    if k == 0 {
      NobodyNeeds(was);
    } else {
      var calls, init := Repeated(call, k), Repeated(call, k - 1);
      RepeatedCalls(was, call, k - 1);
      assert calls == init + [call] && calls[..|calls| - 1] == init;
      OneCallMore(was, calls, k - 1);
    }
  }

  lemma NobodyNeeds(was: seq<bool>)
    requires On(was) == {}
    ensures Sizes(Needing(was, [], was)) == 0
  {
    OneSet(On(was) + On(was));
    assert On(was) + On(was) == {};
  }

  lemma OneCallMore(was: seq<bool>, calls: seq<Call>, k: nat)
    requires |was| == 1 && !was[0] && Fitting(1, calls) && calls != []
    requires calls[|calls| - 1].n == 1 && calls[|calls| - 1].now[0]
    requires Piled(was, calls[..|calls| - 1], 0) == k && Sizes(Needing(was, calls[..|calls| - 1], was)) == k
    ensures Piled(was, calls, 0) == k + 1 && Sizes(Needing(was, calls, was)) == k + 1
  {
    NeedingNext(was, calls, was);
    assert Raising(was, calls[|calls| - 1]) == {0};
  }

  /**
    An alarm that goes on while k calls fail is in an empty list k times, up to all of it, and none of the entries
    leaves when the alarm has gone off at the next call that succeeds.
   */
  lemma PileUp(t1: int, t2: int, k: nat)
    requires k <= CUR
    ensures var calls := Repeated(Call([true], [t1], 1), k);
      Fitting(1, calls) && Count(Retried(Blank(CUR), [false], calls, [false], [t2]).list, 0) == k
  {
    RepeatedCalls([false], Call([true], [t1], 1), k);
    BlankAgrees([false]);
    RetriedShows(Blank(CUR), [false], Repeated(Call([true], [t1], 1), k), [false], [t2]);
  }

  /** And one that is still on then is in it once more. */
  lemma DoubleEntry(t1: int, t2: int)
    ensures var calls := Repeated(Call([true], [t1], 1), 1);
      Fitting(1, calls) && Count(Retried(Blank(CUR), [false], calls, [true], [t2]).list, 0) == 2
  {
    RepeatedCalls([false], Call([true], [t1], 1), 1);
    BlankAgrees([false]);
    var was, now, calls := [false], [true], Repeated(Call([true], [t1], 1), 1);
    assert calls == [Call([true], [t1], 1)] && calls[..0] == [];
    NeedingNext(was, calls, now);
    OneSet(On(was) + On(now));
    assert On(was) + On(now) == {0} && Raising(was, calls[0]) == {0};
    RetriedShows(Blank(CUR), was, calls, now, [t2]);
  }

  lemma BlankAgrees(v: seq<bool>)
    requires On(v) == {}
    ensures Agrees(Blank(CUR).list, v)
  {
  }

  // ---------- ids of current alarms ----------

  /** The ids of the alarms in a list are their own, and above 0. */
  ghost predicate OwnIds(list: seq<Record>) {
    (forall j, k :: 0 <= j < k < |list| && list[j].on && list[k].on ==> list[j].id != list[k].id)
    && forall j :: 0 <= j < |list| && list[j].on ==> list[j].id > 0
  }

  /** No alarm in the list has an id that is still to come. */
  ghost predicate NoneAhead(c: Numbered) {
    forall j :: 0 <= j < |c.list| && c.list[j].on ==> c.list[j].id <= c.last
  }

  /** A new alarm keeps the ids apart exactly when no alarm in the list has the next one. */
  lemma OwnIdsIff(c: Numbered, inx: nat, ti: int)
    requires OwnIds(c.list) && FirstOff(c.list) < |c.list|
    ensures OwnIds(Raised(c, inx, ti).list)
      <==> forall j :: 0 <= j < |c.list| && c.list[j].on ==> c.list[j].id != c.last + 1
  {
    var i, list := FirstOff(c.list), Raised(c, inx, ti).list;
    forall j | 0 <= j < |c.list| && c.list[j].on ensures list[j] == c.list[j] && list[i].id == c.last + 1 && j != i {
    }
  }

  /** What holds after r alarms were raised: ids are apart up to the last one there is. */
  ghost predicate Ids(c: Numbered, r: nat) {
    r <= MAX_ID ==> OwnIds(c.list) && (r < MAX_ID ==> NoneAhead(c) && c.last <= r)
  }

  function Raises(was: seq<bool>, now: seq<bool>, n: nat): nat
    requires n <= |was| == |now|
  {
    if n == 0 then 0 else Raises(was, now, n - 1) + if !was[n - 1] && now[n - 1] then 1 else 0
  }

  lemma IdsStep(c: Numbered, r: nat, was: bool, now: bool, inx: nat, ti: int)
    requires Ids(c, r)
    ensures Ids(CurStep(c, was, now, inx, ti), r + if !was && now then 1 else 0)
  {
    if r < MAX_ID && !was && now && FirstOff(c.list) < |c.list| { OwnIdsIff(c, inx, ti); }
  }

  lemma {:induction false} IdsAfter(c: Numbered, r: nat, was: seq<bool>, now: seq<bool>, ti: seq<int>, n: nat)
    requires n <= |was| == |now| == |ti| && Ids(c, r)
    ensures Ids(CurAfter(c, was, now, ti, n), r + Raises(was, now, n))
  {
    if n > 0 {
      IdsAfter(c, r, was, now, ti, n - 1);
      IdsStep(CurAfter(c, was, now, ti, n - 1), r + Raises(was, now, n - 1), was[n - 1], now[n - 1], n - 1, ti[n - 1]);
    }
  }

  // ---------- the upload list ----------

  /** Newest changes in a ring: change k, under id k + 1, is at place k mod 20. */
  ghost predicate Ring(u: Numbered, since: seq<Change>) {
    |u.list| == UPLOAD && u.last == |since| < MAX_ID
    && (forall j :: |since| <= j < UPLOAD ==> u.list[j] == ZERO)
    && forall k :: 0 <= k < |since| && |since| - UPLOAD <= k ==> u.list[k % UPLOAD] == Entry(since, k)
  }

  function Entry(since: seq<Change>, k: nat): Record
    requires k < |since|
  {
    Record(k + 1, since[k].inx, since[k].on, since[k].ti)
  }

  /** The changes since the list was last cleared: ids are used up by every 2^32 - 1 of them. */
  function Since(log: seq<Change>): seq<Change> { log[|log| - |log| % 0xffff_ffff..] }

  /** The change a place holds. */
  lemma Holder(n: nat, j: nat) returns (k: nat)
    requires j < UPLOAD && j < n
    ensures k < n && n - UPLOAD <= k && k % UPLOAD == j
  {
    var q, r := n / UPLOAD, n % UPLOAD;
    k := if j < r then UPLOAD * q + j else UPLOAD * (q - 1) + j;
  }

  lemma {:induction false} FreeAt(list: seq<Record>, i: nat)
    requires i < |list| && list[i].id == 0 && forall j :: 0 <= j < i ==> list[j].id != 0
    ensures FirstFree(list) == i
  {
    if i > 0 { FreeAt(list[1..], i - 1); }
  }

  /** The search finds the next place of the ring. */
  lemma PlaceInRing(u: Numbered, since: seq<Change>)
    requires Ring(u, since)
    ensures Place(u.list) == |since| % UPLOAD
  {
    var n := |since|;
    if n < UPLOAD {
      forall j | 0 <= j < n ensures u.list[j].id != 0 {
        var k := Holder(n, j);
      }
      FreeAt(u.list, n);
    } else {
      forall j | 0 <= j < UPLOAD
        ensures u.list[j].id >= n - UPLOAD + 1 && (u.list[j].id == n - UPLOAD + 1 ==> j == n % UPLOAD)
      {
        OldestHeld(u, since, j);
      }
      OldestHeld(u, since, n % UPLOAD);
    }
  }

  /** In a full ring the least id is in the next place, and nowhere else. */
  lemma OldestHeld(u: Numbered, since: seq<Change>, j: nat)
    requires Ring(u, since) && |since| >= UPLOAD && j < UPLOAD
    ensures u.list[j].id >= |since| - UPLOAD + 1
    ensures u.list[j].id == |since| - UPLOAD + 1 <==> j == |since| % UPLOAD
  {
    var n := |since|;
    var k := Holder(n, j);
    assert u.list[k % UPLOAD] == Entry(since, k);
    NextPlace(n, k);
  }

  lemma NextPlace(n: nat, k: nat)
    requires k < n && n - UPLOAD <= k
    ensures k == n - UPLOAD <==> k % UPLOAD == n % UPLOAD
  {
  }

  lemma RingStep(u: Numbered, since: seq<Change>, t: Change)
    requires Ring(u, since) && |since| + 1 < MAX_ID
    ensures Ring(Uploaded(u, t), since + [t])
  {
    PlaceInRing(u, since);
    var n := |since|;
    forall k | 0 <= k < n && n + 1 - UPLOAD <= k
      ensures k % UPLOAD != n % UPLOAD && Entry(since + [t], k) == Entry(since, k)
    {
    }
  }

  /** The whole log of a run, and the list it leaves. */
  lemma {:induction false} RingAfter(log: seq<Change>)
    ensures Ring(UploadedAll(Blank(UPLOAD), log), Since(log))
  {
    if log != [] {
      var before, t := log[..|log| - 1], log[|log| - 1];
      RingAfter(before);
      SinceNext(before, t);
      assert before + [t] == log;
      if |Since(before)| + 1 < MAX_ID { RingStep(UploadedAll(Blank(UPLOAD), before), Since(before), t); }
    }
  }

  lemma SinceNext(log: seq<Change>, t: Change)
    ensures |Since(log)| == |log| % MAX_ID
    ensures Since(log + [t]) == if |Since(log)| + 1 == MAX_ID then [] else Since(log) + [t]
  {
    var n, q := |log|, |log| / MAX_ID;
    assert n == MAX_ID * q + n % MAX_ID;
    if n % MAX_ID + 1 == MAX_ID {
      assert n + 1 == MAX_ID * (q + 1);
    } else {
      assert (n + 1) % MAX_ID == n % MAX_ID + 1;
    }
  }

  /** One of the latest twenty changes, under its own id. */
  predicate Newest(r: Record, since: seq<Change>) {
    0 < r.id <= |since| && |since| - 20 < r.id && r == Entry(since, r.id - 1)
  }

  /** The list is exactly the newest changes since it was cleared, at most twenty, each under an id of its own. */
  lemma NewestExactly(u: Numbered, since: seq<Change>)
    requires Ring(u, since)
    ensures |u.list| == 20 && forall j :: 0 <= j < 20 ==>
      u.list[j] == ZERO || Newest(u.list[j], since)
    ensures forall k :: 0 <= k < |since| && |since| - 20 <= k ==> Entry(since, k) in u.list
    ensures forall i, j :: 0 <= i < j < 20 && u.list[i].id == u.list[j].id ==> u.list[i] == u.list[j] == ZERO
  {
    forall j | 0 <= j < UPLOAD
      ensures u.list[j] == ZERO || (Newest(u.list[j], since) && (u.list[j].id - 1) % UPLOAD == j)
    {
      if j < |since| { var k := Holder(|since|, j); }
    }
  }

  // ---------- runs ----------

  /** A run of successful comparisons: the vectors it sees after the first, each with the clock's times. */
  datatype Tick = Tick(now: seq<bool>, ti: seq<int>)

  predicate Shaped(n: nat, run: seq<Tick>) {
    forall k :: 0 <= k < |run| ==> |run[k].now| == |run[k].ti| == n
  }

  /** The vector before the last tick. */
  function Before(v: seq<bool>, run: seq<Tick>): seq<bool> {
    if run == [] then v else run[|run| - 1].now
  }

  function CurRun(c: Numbered, v: seq<bool>, run: seq<Tick>): Numbered
    requires Shaped(|v|, run)
  {
    if run == [] then c
    else
      var init, last := run[..|run| - 1], run[|run| - 1];
      CurAfter(CurRun(c, v, init), Before(v, init), last.now, last.ti, |v|)
  }

  function ChangesRun(v: seq<bool>, run: seq<Tick>): seq<Change>
    requires Shaped(|v|, run)
  {
    if run == [] then []
    else
      var init, last := run[..|run| - 1], run[|run| - 1];
      ChangesRun(v, init) + Changes(Before(v, init), last.now, last.ti, |v|)
  }

  function UploadRun(u: Numbered, v: seq<bool>, run: seq<Tick>): (r: Numbered)
    requires Shaped(|v|, run) && u.list != []
    ensures r.list != []
  {
    if run == [] then u
    else
      var init, last := run[..|run| - 1], run[|run| - 1];
      UploadedAll(UploadRun(u, v, init), Changes(Before(v, init), last.now, last.ti, |v|))
  }

  ghost predicate RoomThroughout(v: seq<bool>, run: seq<Tick>)
    requires Shaped(|v|, run)
  {
    forall k :: 0 <= k < |run| ==> HasRoom(Before(v, run[..k]), run[k].now, |v|)
  }

  /** How many alarms a run raises. */
  function RaisesRun(v: seq<bool>, run: seq<Tick>): nat
    requires Shaped(|v|, run)
  {
    if run == [] then 0
    else
      var init, last := run[..|run| - 1], run[|run| - 1];
      RaisesRun(v, init) + Raises(Before(v, init), last.now, |v|)
  }

  lemma {:induction false} IdsRun(v: seq<bool>, run: seq<Tick>)
    requires Shaped(|v|, run)
    ensures Ids(CurRun(Blank(CUR), v, run), RaisesRun(v, run))
  {
    if run != [] {
      var init, last := run[..|run| - 1], run[|run| - 1];
      IdsRun(v, init);
      IdsAfter(CurRun(Blank(CUR), v, init), RaisesRun(v, init), Before(v, init), last.now, last.ti, |v|);
    }
  }

  /** In every run of at most 2^32 - 1 new alarms the ids in the list are unique, and count from 1. */
  lemma IdsUnique(v: seq<bool>, run: seq<Tick>)
    requires Shaped(|v|, run) && RaisesRun(v, run) <= 0xffff_ffff
    ensures OwnIds(CurRun(Blank(CUR), v, run).list)
  {
    IdsRun(v, run);
  }

  /** One alarm goes on and stays on; the other comes and goes n times. */
  function Flapping(n: nat): seq<Tick> {
    if n == 0 then [Tick([true, false], [0, 0])]
    else Flapping(n - 1) + [Tick([true, true], [0, 0])] + [Tick([true, false], [0, 0])]
  }

  /** The list while only the lasting alarm is on. */
  function Lasting(last: nat): Numbered { Numbered(Blank(CUR).list[0 := Record(1, 0, true, 0)], last) }

  lemma FlapOnce(last: nat)
    ensures CurAfter(Lasting(last), [true, false], [true, true], [0, 0], 2)
      == Numbered(Lasting(last).list[1 := Record(last + 1, 1, true, 0)], NextId(last))
    ensures var d := CurAfter(Lasting(last), [true, false], [true, true], [0, 0], 2);
      CurAfter(d, [true, true], [true, false], [0, 0], 2) == Lasting(NextId(last))
  {
    var c, was, now, ti := Lasting(last), [true, false], [true, true], [0, 0];
    var d := CurAfter(c, was, now, ti, 2);
    assert CurAfter(c, was, now, ti, 1) == c;
    assert FirstOff(c.list) == 1 by { assert !c.list[1..][0].on; }
    assert d == Raised(c, 1, 0);
    assert CurAfter(d, now, was, ti, 1) == d;
    assert FirstOn(d.list, 1) == 1 by { assert d.list[1..][0].on; }
    assert CurAfter(d, now, was, ti, 2) == Cleared(d, 1);
    assert d.list[1 := ZERO] == c.list;
  }

  /** A run that leaves the lasting alarm alone in the list. */
  ghost predicate Leaves(run: seq<Tick>, last: nat, raised: nat) {
    Shaped(2, run) && Before([false, false], run) == [true, false]
    && CurRun(Blank(CUR), [false, false], run) == Lasting(last) && RaisesRun([false, false], run) == raised
  }

  lemma {:induction false} FlappingLeaves(n: nat)
    ensures Leaves(Flapping(n), (n + 1) % MAX_ID, n + 1)
  {
    if n == 0 {
      FlapStart();
    } else {
      FlappingLeaves(n - 1);
      NextIs(n);
      TwoTicks(Flapping(n - 1), n % MAX_ID, n);
    }
  }

  /** The two ticks of one flap, behind any such run. */
  lemma TwoTicks(run: seq<Tick>, last: nat, raised: nat)
    requires Leaves(run, last, raised)
    ensures Leaves(run + [Tick([true, true], [0, 0])] + [Tick([true, false], [0, 0])], NextId(last), raised + 1)
  {
    var v, both, alone := [false, false], Tick([true, true], [0, 0]), Tick([true, false], [0, 0]);
    FlapOnce(last);
    RaisesOfTwo();
    OneTick(v, run, both);
    OneTick(v, run + [both], alone);
  }

  lemma OneTick(v: seq<bool>, run: seq<Tick>, t: Tick)
    requires Shaped(|v|, run) && |t.now| == |t.ti| == |v|
    ensures Shaped(|v|, run + [t]) && Before(v, run + [t]) == t.now
    ensures CurRun(Blank(CUR), v, run + [t])
      == CurAfter(CurRun(Blank(CUR), v, run), Before(v, run), t.now, t.ti, |v|)
    ensures RaisesRun(v, run + [t]) == RaisesRun(v, run) + Raises(Before(v, run), t.now, |v|)
  {
    assert (run + [t])[..|run|] == run;
  }

  lemma FlapStart()
    ensures Leaves([Tick([true, false], [0, 0])], 1, 1)
  {
    var was, now, ti := [false, false], [true, false], [0, 0];
    TwoAlarms(Blank(CUR), was, now, ti);
    FirstRaise();
    assert Raises(was, now, 1) == 1;
    OneTick(was, [], Tick(now, ti));
    assert [] + [Tick(now, ti)] == [Tick(now, ti)];
  }

  lemma FirstRaise()
    ensures Raised(Blank(CUR), 0, 0) == Lasting(1)
  {
    assert !Blank(CUR).list[0].on;
  }

  lemma TwoAlarms(c: Numbered, was: seq<bool>, now: seq<bool>, ti: seq<int>)
    requires |was| == |now| == |ti| == 2
    ensures CurAfter(c, was, now, ti, 2)
      == CurStep(CurStep(c, was[0], now[0], 0, ti[0]), was[1], now[1], 1, ti[1])
  {
    assert CurAfter(c, was, now, ti, 1) == CurStep(CurAfter(c, was, now, ti, 0), was[0], now[0], 0, ti[0]);
  }

  lemma RaisesOfTwo()
    ensures Raises([true, false], [true, true], 2) == 1 && Raises([true, true], [true, false], 2) == 0
  {
    assert Raises([true, false], [true, true], 1) == 0 && Raises([true, true], [true, false], 1) == 0;
  }

  lemma NextIs(n: nat)
    ensures NextId(n % MAX_ID) == (n + 1) % MAX_ID
  {
    var q := n / MAX_ID;
    assert n == MAX_ID * q + n % MAX_ID;
    if n % MAX_ID + 1 == MAX_ID { assert n + 1 == MAX_ID * (q + 1); }
  }

  /** One alarm more is too many: when the counter has wrapped, the lasting alarm shares its id with the next one. */
  lemma WrapRepeatsId(n: nat)
    requires n + 1 == MAX_ID
    ensures var run := Flapping(n) + [Tick([true, true], [0, 0])];
      Shaped(2, run) && RaisesRun([false, false], run) == MAX_ID + 1
      && !OwnIds(CurRun(Blank(CUR), [false, false], run).list)
  {
    var v, a, b := [false, false], Flapping(n), Tick([true, true], [0, 0]);
    FlappingLeaves(n);
    OneTick(v, a, b);
    FlapOnce(0);
    RaisesOfTwo();
    var list := CurRun(Blank(CUR), v, a + [b]).list;
    assert list[0] == Record(1, 0, true, 0) && list[1] == Record(1, 1, true, 0);
  }

  /** In every run the current list agrees with the newest vector, as long as every comparison had room. */
  lemma {:induction false} CurrentAgrees(v: seq<bool>, run: seq<Tick>)
    requires Shaped(|v|, run) && On(v) == {} && RoomThroughout(v, run)
    ensures |CurRun(Blank(CUR), v, run).list| == CUR
    ensures Agrees(CurRun(Blank(CUR), v, run).list, Before(v, run))
  {
    if run != [] {
      var init, last := run[..|run| - 1], run[|run| - 1];
      forall k | 0 <= k < |init| ensures HasRoom(Before(v, init[..k]), init[k].now, |v|) {
        assert init[..k] == run[..k];
      }
      CurrentAgrees(v, init);
      AgreesIff(CurRun(Blank(CUR), v, init), Before(v, init), last.now, last.ti);
    }
  }

  lemma {:induction false} UploadedConcat(u: Numbered, a: seq<Change>, b: seq<Change>)
    requires u.list != []
    ensures UploadedAll(u, a + b) == UploadedAll(UploadedAll(u, a), b)
  {
    if b == [] {
      assert a + b == a;
    } else {
      assert (a + b)[..|a + b| - 1] == a + b[..|b| - 1];
      UploadedConcat(u, a, b[..|b| - 1]);
    }
  }

  lemma {:induction false} UploadIsLog(v: seq<bool>, run: seq<Tick>)
    requires Shaped(|v|, run)
    ensures UploadRun(Blank(UPLOAD), v, run) == UploadedAll(Blank(UPLOAD), ChangesRun(v, run))
  {
    if run != [] {
      var init, last := run[..|run| - 1], run[|run| - 1];
      UploadIsLog(v, init);
      UploadedConcat(Blank(UPLOAD), ChangesRun(v, init), Changes(Before(v, init), last.now, last.ti, |v|));
    }
  }

  /** In every run the upload list is exactly the newest changes of the run since the ids last wrapped. */
  lemma UploadIsNewest(v: seq<bool>, run: seq<Tick>)
    requires Shaped(|v|, run)
    ensures Ring(UploadRun(Blank(UPLOAD), v, run), Since(ChangesRun(v, run)))
  {
    UploadIsLog(v, run);
    RingAfter(ChangesRun(v, run));
  }

  /** The changes of a comparison: one for each alarm that changed, with its new state and time. */
  lemma {:induction false} ChangesAre(was: seq<bool>, now: seq<bool>, ti: seq<int>, n: nat)
    requires n <= |was| == |now| == |ti|
    ensures forall t :: t in Changes(was, now, ti, n) <==>
      (t.inx < n && was[t.inx] != now[t.inx] && t == Change(t.inx, now[t.inx], ti[t.inx]))
  {
    if n > 0 {
      var ts, last := Changes(was, now, ti, n - 1), Change(n - 1, now[n - 1], ti[n - 1]);
      ChangesAre(was, now, ti, n - 1);
      forall t ensures t in Changes(was, now, ti, n) <==> t in ts || (was[n - 1] != now[n - 1] && t == last) {
      }
    }
  }

  /** They come in the order of the vector. */
  lemma {:induction false} ChangesAscend(was: seq<bool>, now: seq<bool>, ti: seq<int>, n: nat, i: nat, j: nat)
    requires n <= |was| == |now| == |ti| && i < j < |Changes(was, now, ti, n)|
    ensures Changes(was, now, ti, n)[i].inx < Changes(was, now, ti, n)[j].inx
  {
    var ts, all := Changes(was, now, ti, n - 1), Changes(was, now, ti, n);
    assert all[i] == ts[i];
    if j < |ts| {
      assert all[j] == ts[j];
      ChangesAscend(was, now, ti, n - 1, i, j);
    } else {
      ChangesAre(was, now, ti, n - 1);
      assert ts[i] in ts;
    }
  }
}
