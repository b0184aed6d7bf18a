/**
  The stability counters of the input daemon: one tick at a time, the selected source becomes valid after a run of
  ticks without alarm and invalid after a run with it. The meaning they are measured against is the length of the
  longest run of equal ticks that ends now.
 */
module Hysteresis {

  datatype Reference = Initial | Valid | Invalid

  /** What a tick sees: the selection mode, the selected source, and whether its port has an alarm. */
  datatype Tick = Tick(schema: int, source: int, alarm: bool)

  /** The static variables, the context and the register that tells the hardware "not usable". */
  datatype State = State(almNum: nat, unalmNum: nat, oldSchema: int, refsrc: Reference, register: int)

  const VALID_AT: nat := 50

  const FRESH_AT: nat := 60

  const INVALID_AT: nat := 60

  /** initializeStavalid: the register says not usable. */
  const START: State := State(0, 0, 0, Initial, 1)

  /** The state after a tick in which all calls succeed. */
  function Next(s: State, t: Tick): State {
    var a, u := if t.schema != s.oldSchema then 0 else s.almNum, if t.schema != s.oldSchema then 0 else s.unalmNum;
    if !t.alarm then
      if a == VALID_AT then State(a + 1, 0, t.schema, Valid, 0) else State(a + 1, 0, t.schema, s.refsrc, s.register)
    else
      if u == INVALID_AT then State(0, u + 1, t.schema, Invalid, 1) else State(0, u + 1, t.schema, s.refsrc, s.register)
  }

  /** The ticks that call the hardware or the clock. */
  predicate Calls(s: State, t: Tick) {
    t.schema == s.oldSchema
    && (if t.alarm then s.unalmNum == INVALID_AT else s.almNum == VALID_AT || s.almNum == FRESH_AT)
  }

  /** What a tick leaves when its call fails: the state is already invalid when the register cannot be written. */
  function Stopped(s: State, t: Tick): State { if t.alarm then s.(refsrc := Invalid) else s }

  function After(run: seq<Tick>): State {
    if run == [] then START else Next(After(run[..|run| - 1]), run[|run| - 1])
  }

  /** The daemon's variables. */
  class Daemon {
    var almNum: nat
    var unalmNum: nat
    var oldSchema: int
    var refsrc: Reference
    var register: int

    function View(): State
      reads this
    {
      State(almNum, unalmNum, oldSchema, refsrc, register)
    }

    constructor ()
      ensures View() == START
    {
      almNum, unalmNum, oldSchema, refsrc, register := 0, 0, 0, Initial, 1;
    }

    /**
      Time_Refresh_Strategy, up to the leap second: freshened tells whether it set the time. A call to the hardware
      or the clock that fails ends the daemon's loop.
     */
    method Refresh(t: Tick, works: bool) returns (ok: bool, freshened: bool)
      modifies this
      ensures ok <==> works || !Calls(old(View()), t)
      ensures ok ==> View() == Next(old(View()), t)
      ensures !ok ==> View() == Stopped(old(View()), t)
      ensures ok ==> freshened == (!t.alarm && t.schema == old(oldSchema) && old(almNum) == 60)
    {
      freshened := false;
      if t.schema != oldSchema {
        almNum := 0;
        unalmNum := 0;
      }
      oldSchema := t.schema;
      if !t.alarm {
        if almNum == 50 {
          if !works { return false, false; }
          register := 0;
          refsrc := Valid;
        } else if almNum == 60 {
          if !works { return false, false; }
          freshened := true;
        }
        unalmNum := 0;
        almNum := almNum + 1;
      } else {
        if unalmNum == 60 {
          refsrc := Invalid;
          if !works { return false, false; }
          register := 1;
        }
        almNum := 0;
        unalmNum := unalmNum + 1;
      }
      ok := true;
    }
  }

  // ---------- runs of equal ticks ----------

  predicate Alike(t: Tick, u: Tick) { t.schema == u.schema && t.alarm == u.alarm }

  /** The last n ticks are in one mode and all have the alarm, or all have not. */
  ghost predicate Steady(run: seq<Tick>, n: nat, alarm: bool) {
    n <= |run| && forall k :: |run| - n <= k < |run| ==> run[k].alarm == alarm && Alike(run[k], run[|run| - 1])
  }

  /** n is the length of the longest such run that ends now, 0 if the last tick was of the other kind. */
  ghost predicate Streak(run: seq<Tick>, n: nat, alarm: bool) {
    Steady(run, n, alarm)
    && (n < |run| ==> run[|run| - 1].alarm != alarm || !Alike(run[|run| - 1 - n], run[|run| - 1]))
    && (n == 0 && run != [] ==> run[|run| - 1].alarm != alarm)
  }

  lemma StreakUnique(run: seq<Tick>, m: nat, n: nat, alarm: bool)
    requires Streak(run, m, alarm) && Streak(run, n, alarm)
    ensures m == n
  {
  }

  /** The counters are the lengths of the two streaks, so after every tick at most one of them is not zero. */
  lemma {:induction false} CountersAreStreaks(run: seq<Tick>)
    ensures Streak(run, After(run).almNum, false) && Streak(run, After(run).unalmNum, true)
    ensures run != [] ==> After(run).oldSchema == run[|run| - 1].schema
    ensures After(run).almNum == 0 || After(run).unalmNum == 0
  {
    if run != [] {
      var init, t := run[..|run| - 1], run[|run| - 1];
      CountersAreStreaks(init);
      StreakNext(init, t, After(init).almNum, false);
      StreakNext(init, t, After(init).unalmNum, true);
      assert init + [t] == run;
      if init == [] { assert After(init) == START; }
    }
  }

  lemma StreakNext(init: seq<Tick>, t: Tick, n: nat, alarm: bool)
    requires Streak(init, n, alarm)
    ensures Streak(init + [t],
      if t.alarm != alarm then 0 else if init != [] && t.schema == init[|init| - 1].schema then n + 1 else 1, alarm)
  {
    var run := init + [t];
    if t.alarm == alarm && init != [] && t.schema == init[|init| - 1].schema && n > 0 {
      assert forall k :: |init| - n <= k < |init| ==> run[k] == init[k];
    }
  }

  // ---------- events ----------

  /** The ticks that set the source valid, set it invalid, or set the time, by the counters. */
  predicate SetsValid(run: seq<Tick>) {
    run != [] && !run[|run| - 1].alarm && After(run).almNum == VALID_AT + 1
  }

  predicate SetsInvalid(run: seq<Tick>) {
    run != [] && run[|run| - 1].alarm && After(run).unalmNum == INVALID_AT + 1
  }

  predicate SetsTime(run: seq<Tick>) {
    run != [] && !run[|run| - 1].alarm && After(run).almNum == FRESH_AT + 1
  }

  /** Valid comes at the 51st tick in a row without alarm, invalid at the 61st with it, the time at the 61st without. */
  lemma EventsIff(run: seq<Tick>)
    ensures SetsValid(run) <==> Streak(run, 51, false)
    ensures SetsInvalid(run) <==> Streak(run, 61, true)
    ensures SetsTime(run) <==> Streak(run, 61, false)
  {
    CountersAreStreaks(run);
    if Streak(run, 51, false) { StreakUnique(run, 51, After(run).almNum, false); }
    if Streak(run, 61, true) { StreakUnique(run, 61, After(run).unalmNum, true); }
    if Streak(run, 61, false) { StreakUnique(run, 61, After(run).almNum, false); }
  }

  /** The method sets the time exactly at those ticks. */
  lemma FreshenedIff(run: seq<Tick>, t: Tick)
    ensures SetsTime(run + [t]) <==> !t.alarm && t.schema == After(run).oldSchema && After(run).almNum == 60
  {
    assert (run + [t])[..|run|] == run;
  }

  /** Those are the ticks at which the hardware or the clock is called. */
  lemma CallsIff(run: seq<Tick>, t: Tick)
    ensures Calls(After(run), t) <==> SetsValid(run + [t]) || SetsInvalid(run + [t]) || SetsTime(run + [t])
  {
    assert (run + [t])[..|run|] == run;
  }

  /** The state changes at no other tick. */
  lemma ChangesOnlyAt(run: seq<Tick>)
    requires run != []
    ensures var before := After(run[..|run| - 1]);
      After(run).refsrc == (if SetsValid(run) then Valid else if SetsInvalid(run) then Invalid else before.refsrc)
      && After(run).register == (if SetsValid(run) then 0 else if SetsInvalid(run) then 1 else before.register)
  {
  }

  /** The hardware is told usable exactly while the state is valid. */
  lemma {:induction false} RegisterIff(run: seq<Tick>)
    ensures After(run).register == 0 <==> After(run).refsrc == Valid
    ensures After(run).register == 0 || After(run).register == 1
  {
    if run != [] {
      RegisterIff(run[..|run| - 1]);
      ChangesOnlyAt(run);
    }
  }

  /** Some tick set the source valid, and no later one has set it invalid. */
  ghost predicate SetAndKept(run: seq<Tick>) {
    exists i :: 0 <= i <= |run| && SetsValid(run[..i]) && NotUnset(run, i)
  }

  ghost predicate NotUnset(run: seq<Tick>, i: nat) {
    forall j :: i < j <= |run| ==> !SetsInvalid(run[..j])
  }

  lemma NotUnsetNext(run: seq<Tick>, i: nat)
    requires i < |run|
    ensures NotUnset(run, i) <==> NotUnset(run[..|run| - 1], i) && !SetsInvalid(run)
  {
    var init := run[..|run| - 1];
    assert run[..|run|] == run;
    assert forall j :: 0 <= j <= |init| ==> init[..j] == run[..j];
  }

  lemma SetAndKeptNext(run: seq<Tick>)
    requires run != []
    ensures SetAndKept(run) <==> SetsValid(run) || (SetAndKept(run[..|run| - 1]) && !SetsInvalid(run))
  {
    var n, init := |run|, run[..|run| - 1];
    assert run[..n] == run;
    if SetsValid(run) {
      assert SetsValid(run[..n]) && NotUnset(run, n);
    } else if SetAndKept(run) {
      var i :| 0 <= i <= n && SetsValid(run[..i]) && NotUnset(run, i);
      NotUnsetNext(run, i);
      assert init[..i] == run[..i];
    } else if SetAndKept(init) {
      var i :| 0 <= i < n && SetsValid(init[..i]) && NotUnset(init, i);
      NotUnsetNext(run, i);
      assert init[..i] == run[..i];
    }
  }

  /** The source is valid exactly when some tick set it so and no later one has set it invalid. */
  lemma {:induction false} ValidIff(run: seq<Tick>)
    ensures After(run).refsrc == Valid <==> SetAndKept(run)
  {
    if run == [] {
      assert forall i :: 0 <= i <= |run| ==> run[..i] == [];
    } else {
      ValidIff(run[..|run| - 1]);
      ChangesOnlyAt(run);
      SetAndKeptNext(run);
    }
  }

  /** A streak of the first i ticks, seen in the whole run. */
  lemma StreakWithin(run: seq<Tick>, i: nat, n: nat, alarm: bool)
    requires i <= |run| && 0 < n && Streak(run[..i], n, alarm)
    ensures n <= i && forall k :: i - n <= k < i ==> run[k].alarm == alarm && Alike(run[k], run[i - 1])
    ensures n < i ==> !Alike(run[i - 1 - n], run[i - 1])
  {
    assert forall k :: 0 <= k < i ==> run[..i][k] == run[k];
  }

  /** Opposite flips are apart: 61 ticks from valid to invalid, 51 back. */
  lemma FlipsApart(run: seq<Tick>, i: nat, j: nat)
    requires i <= |run| && j <= |run| && SetsValid(run[..i]) && SetsInvalid(run[..j])
    ensures i < j ==> j - i >= 61
    ensures j < i ==> i - j >= 51
    ensures i != j
  {
    EventsIff(run[..i]);
    EventsIff(run[..j]);
    StreakWithin(run, i, 51, false);
    StreakWithin(run, j, 61, true);
  }

  /** The time is set once in a streak: before it is set again a streak has ended, and 61 ticks have passed. */
  lemma TimeSetOnce(run: seq<Tick>, i: nat, j: nat)
    requires i < j <= |run| && SetsTime(run[..i]) && SetsTime(run[..j])
    ensures j - i >= 61
    ensures exists k :: i <= k < j && (run[k].alarm || !Alike(run[k], run[i - 1]))
  {
    EventsIff(run[..i]);
    EventsIff(run[..j]);
    StreakWithin(run, i, 61, false);
    StreakWithin(run, j, 61, false);
    assert !Alike(run[j - 62], run[j - 1]);
  }

  // ---------- when counting starts again ----------

  /** The counting starts again exactly when the mode or the alarm changes. */
  lemma RestartsIff(run: seq<Tick>, t: Tick)
    requires run != []
    ensures After(run + [t]).almNum + After(run + [t]).unalmNum == 1 <==> !Alike(run[|run| - 1], t)
  {
    assert (run + [t])[..|run|] == run;
    CountersAreStreaks(run);
  }

  lemma {:induction false} CleanTicks(a: Tick, n: nat)
    requires !a.alarm && n <= VALID_AT
    ensures After(seq(n, _ => a)).almNum == n && (n > 0 ==> After(seq(n, _ => a)).oldSchema == a.schema)
  {
    if n > 0 {
      CleanTicks(a, n - 1);
      assert seq(n, _ => a)[..n - 1] == seq(n - 1, _ => a);
    }
  }

  /** So a source that was selected at the last tick is declared valid for the ticks of the one before it. */
  lemma NewSourceValid(a: Tick, b: Tick)
    requires !a.alarm && Alike(a, b) && a.source != b.source
    ensures SetsValid(seq(50, _ => a) + [b])
  {
    var run := seq(VALID_AT, _ => a);
    CleanTicks(a, VALID_AT);
    assert (run + [b])[..|run|] == run;
  }
}
