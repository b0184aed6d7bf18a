/**
  The times in the list of current alarms: an entry keeps the time of the comparison that raised its alarm.
 */
module AlarmTimes {

  import opened Alarm

  import opened AlarmTheorems

  /** Every entry is of an alarm that is on, with the time kept for it, and no alarm has two. */
  ghost predicate Timed(list: seq<Record>, on: seq<bool>, at: seq<int>)
    requires |on| == |at|
  {
    Distinct(list)
    && forall j :: 0 <= j < |list| && list[j].on ==>
      list[j].inx < |on| && on[list[j].inx] && list[j].ti == at[list[j].inx]
  }

  lemma TimedRaise(c: Numbered, on: seq<bool>, at: seq<int>, inx: nat, ti: int)
    requires inx < |on| == |at| && Timed(c.list, on, at) && !on[inx]
    ensures Timed(Raised(c, inx, ti).list, on[inx := true], at[inx := ti])
  {
    var i, list := FirstOff(c.list), Raised(c, inx, ti).list;
    forall j | 0 <= j < |list| && list[j].on && j != i ensures list[j] == c.list[j] && list[j].inx != inx {
    }
  }

  lemma TimedClear(c: Numbered, on: seq<bool>, at: seq<int>, inx: nat)
    requires inx < |on| == |at| && Timed(c.list, on, at)
    ensures Timed(Cleared(c, inx).list, on[inx := false], at)
  {
    var i, list := FirstOn(c.list, inx), Cleared(c, inx).list;
    forall j | 0 <= j < |list| && list[j].on ensures list[j] == c.list[j] && list[j].inx != inx {
    }
  }

  /** The times after the first n alarms have been compared. */
  function Times(was: seq<bool>, now: seq<bool>, ti: seq<int>, at: seq<int>, n: nat): (r: seq<int>)
    requires n <= |was| == |now| == |ti| == |at|
    ensures |r| == |was|
  {
    seq(|was|, k requires 0 <= k < |was| => if k < n && !was[k] && now[k] then ti[k] else at[k])
  }

  lemma {:induction false} TimedAfter(c: Numbered, was: seq<bool>, now: seq<bool>, ti: seq<int>, at: seq<int>, n: nat)
    requires n <= |was| == |now| == |ti| == |at| && Timed(c.list, was, at)
    ensures Timed(CurAfter(c, was, now, ti, n).list, now[..n] + was[n..], Times(was, now, ti, at, n))
  {
    if n == 0 {
      assert now[..0] + was[0..] == was && Times(was, now, ti, at, 0) == at;
    } else {
      var m := n - 1;
      TimedAfter(c, was, now, ti, at, m);
      TimedNext(CurAfter(c, was, now, ti, m), was, now, ti, at, m);
    }
  }

  lemma TimedNext(c: Numbered, was: seq<bool>, now: seq<bool>, ti: seq<int>, at: seq<int>, m: nat)
    requires m < |was| == |now| == |ti| == |at| && Timed(c.list, now[..m] + was[m..], Times(was, now, ti, at, m))
    ensures Timed(CurStep(c, was[m], now[m], m, ti[m]).list, now[..m + 1] + was[m + 1..],
      Times(was, now, ti, at, m + 1))
  {
    var on, held := now[..m] + was[m..], Times(was, now, ti, at, m);
    assert now[..m + 1] + was[m + 1..] == on[m := now[m]];
    if !was[m] && now[m] {
      TimedRaise(c, on, held, m, ti[m]);
      assert Times(was, now, ti, at, m + 1) == held[m := ti[m]];
    } else {
      assert Times(was, now, ti, at, m + 1) == held;
      if was[m] && !now[m] { TimedClear(c, on, held, m); } else { assert on[m := now[m]] == on; }
    }
  }

  /** An alarm went on in comparison k of the run, at time t, and has been on since. */
  ghost predicate OnFrom(v: seq<bool>, run: seq<Tick>, k: nat, x: nat, t: int)
    requires Shaped(|v|, run) && x < |v|
  {
    k < |run| && !Before(v, run[..k])[x] && run[k].now[x] && run[k].ti[x] == t
    && forall m :: k < m < |run| ==> run[m].now[x]
  }

  ghost predicate OnSince(v: seq<bool>, run: seq<Tick>, x: nat, t: int)
    requires Shaped(|v|, run) && x < |v|
  {
    exists k :: OnFrom(v, run, k, x, t)
  }

  function AtRun(v: seq<bool>, run: seq<Tick>): (r: seq<int>)
    requires Shaped(|v|, run)
    ensures |r| == |v|
  {
    if run == [] then seq(|v|, _ => 0)
    else
      var init, last := run[..|run| - 1], run[|run| - 1];
      Times(Before(v, init), last.now, last.ti, AtRun(v, init), |v|)
  }

  lemma {:induction false} TimedRun(v: seq<bool>, run: seq<Tick>)
    requires Shaped(|v|, run) && On(v) == {}
    ensures Timed(CurRun(Blank(CUR), v, run).list, Before(v, run), AtRun(v, run))
  {
    if run != [] {
      var init, last := run[..|run| - 1], run[|run| - 1];
      TimedRun(v, init);
      TimedAfter(CurRun(Blank(CUR), v, init), Before(v, init), last.now, last.ti, AtRun(v, init), |v|);
      assert last.now[..|v|] + Before(v, init)[|v|..] == last.now;
    }
  }

  lemma {:induction false} SinceRun(v: seq<bool>, run: seq<Tick>, x: nat)
    requires Shaped(|v|, run) && On(v) == {} && x < |v| && Before(v, run)[x]
    ensures OnSince(v, run, x, AtRun(v, run)[x])
  {
    assert v[x] ==> x in On(v);
    if run != [] {
      var n := |run| - 1;
      var init, last := run[..n], run[n];
      if Before(v, init)[x] {
        SinceRun(v, init, x);
        SinceLonger(v, run, x, AtRun(v, init)[x]);
      } else {
        assert OnFrom(v, run, n, x, AtRun(v, run)[x]);
      }
    }
  }

  lemma SinceLonger(v: seq<bool>, run: seq<Tick>, x: nat, t: int)
    requires run != [] && Shaped(|v|, run) && x < |v| && run[|run| - 1].now[x]
    requires OnSince(v, run[..|run| - 1], x, t)
    ensures OnSince(v, run, x, t)
  {
    var init := run[..|run| - 1];
    var k: nat :| OnFrom(v, init, k, x, t);
    assert run[..k] == init[..k];
    assert OnFrom(v, run, k, x, t);
  }

  /**
    In every run, with room or without, an alarm has at most one entry; it is on, and the entry's time is that of the
    comparison in which it last went on.
   */
  lemma TimesKept(v: seq<bool>, run: seq<Tick>)
    requires Shaped(|v|, run) && On(v) == {}
    ensures var list := CurRun(Blank(CUR), v, run).list;
      Distinct(list) && forall r :: r in list && r.on ==>
        r.inx < |v| && Before(v, run)[r.inx] && OnSince(v, run, r.inx, r.ti)
  {
    TimedRun(v, run);
    var list := CurRun(Blank(CUR), v, run).list;
    forall r | r in list && r.on ensures r.inx < |v| && Before(v, run)[r.inx] && OnSince(v, run, r.inx, r.ti) {
      SinceRun(v, run, r.inx);
    }
  }
}
