/**
  NTP time stamps: the table-driven conversion of microseconds to a 32-bit fraction of a second (the timestamp format
  of RFC 5905, section 6) and back. All bounds are stated without division: an error of e units in a fraction f for u
  microseconds is f * 10^6 - u * 2^32 == e * 10^6.
 */
module Timestamp {

  import opened TimestampTables

  const MILLION: int := 1000000

  const UNIT: int := 0x1_0000_0000

  /** struct timeval. */
  datatype TimeVal = TimeVal(sec: int, usec: int)

  /** The 64-bit stamp: seconds and fraction. */
  datatype Stamp = Stamp(ui: int, uf: int)

  predicate Normalised(tv: TimeVal) { -0x8000_0000 <= tv.sec < 0x8000_0000 && 0 <= tv.usec < MILLION }

  predicate ValidStamp(ts: Stamp) { 0 <= ts.ui < UNIT && 0 <= ts.uf < UNIT }

  // ---------- the tables ----------

  function Lo(i: nat): int
    requires i < 256
  {
    LoNear(i / 16); USTOTSLO[i / 16][i % 16]
  }

  function Mid(i: nat): int
    requires i < 256
  {
    MidNear(i / 16); USTOTSMID[i / 16][i % 16]
  }

  function BackHi(i: nat): int
    requires i < 256
  {
    BackHiNear(i / 16); TSTOUSHI[i / 16][i % 16]
  }

  function BackMid(i: nat): int
    requires i < 256
  {
    BackMidNear(i / 16); TSTOUSMID[i / 16][i % 16]
  }

  function BackLo(i: nat): int
    requires i < 128
  {
    BackLoNear(i / 16); TSTOUSLO[i / 16][i % 16]
  }

  // ---------- the program ----------

  function Sum(u: nat): int { Lo(u % 256) + Mid(u / 256 % 256) + USTOTSHI[u / 65536 % 16] }

  /** TVUTOTSF, in unsigned 32-bit arithmetic. */
  function Fraction(u: nat): (f: nat)
    ensures f < UNIT
  {
    Sum(u) % UNIT
  }

  /** The table result of TSFTOTVU, in eighths of a microsecond. */
  function Eighths(f: nat): int
    requires f < UNIT
  {
    BackHi(f / 0x100_0000) + BackMid(f / 0x1_0000 % 256) + BackLo(f / 0x200 % 128)
  }

  /** TSFTOTVU: rounded to the microsecond. */
  function Micros(f: nat): int
    requires f < UNIT
  {
    (Eighths(f) + 4) / 8
  }

  /** TVTOTS. */
  function ToStamp(tv: TimeVal): Stamp
    requires tv.usec >= 0
  {
    Stamp(tv.sec % UNIT, Fraction(tv.usec))
  }

  /** The seconds as a signed 32-bit variable keeps them. */
  function Signed(ui: int): int { if ui < 0x8000_0000 then ui else ui - UNIT }

  /** TSTOTV. */
  method TsToTv(ts: Stamp) returns (tv: TimeVal)
    requires ValidStamp(ts)
    ensures tv == ToTimeVal(ts)
  {
    tv := TimeVal(Signed(ts.ui), Micros(ts.uf));
    if tv.usec == 1000000 {
      tv := tv.(sec := tv.sec + 1);
      tv := tv.(usec := 0);
    }
  }

  function ToTimeVal(ts: Stamp): TimeVal
    requires ValidStamp(ts)
  {
    var usec := Micros(ts.uf);
    if usec == MILLION then TimeVal(Signed(ts.ui) + 1, 0) else TimeVal(Signed(ts.ui), usec)
  }

  // ---------- to a fraction ----------

  /** How far the sum of the entries is off. */
  function FractionError(u: nat): int { Fraction(u) * MILLION - u * UNIT }

  lemma IndexedParts(u: nat)
    requires u < MILLION
    ensures u == u % 256 + 256 * (u / 256 % 256) + 65536 * (u / 65536 % 16)
  {
    assert u / 256 == u / 256 % 256 + 256 * (u / 256 / 256);
    assert u / 256 / 256 == u / 65536 < 16;
  }

  /** How far two of the three table entries are from the multiples they stand for. */
  function LoDrift(i: nat): int
    requires i < 256
  {
    Lo(i) * MILLION - i * UNIT
  }

  function MidDrift(i: nat): int
    requires i < 256
  {
    Mid(i) * MILLION - i * 0x100_0000_0000
  }

  lemma LoError(i: nat)
    requires i < 256
    ensures -510784 <= LoDrift(i) <= 490560
    ensures (i < 16 ==> LoDrift(i) >= 0) && (i == 16 ==> LoDrift(i) == -476736)
    ensures (i == 228 ==> LoDrift(i) == 456512) && (i > 228 ==> LoDrift(i) <= 339520)
  {
    LoNear(i / 16);
    LoEdges(i % 16);
    assert i == 16 * (i / 16) + i % 16;
  }

  lemma MidError(i: nat)
    requires i < 256
    ensures -6571776 <= MidDrift(i) <= 372224 && (i < 24 ==> -927744 <= MidDrift(i))
    ensures (i == 24 ==> MidDrift(i) == -1066624) && (i == 97 ==> MidDrift(i) == -1894272)
    ensures i >= 98 ==> MidDrift(i) <= -2033152
  {
    MidNear(i / 16);
    MidEdges(i % 16);
    assert i == 16 * (i / 16) + i % 16;
  }

  lemma HiError(i: nat)
    requires i < 16
    ensures var e := USTOTSHI[i] * MILLION - i * 0x1_0000_0000_0000;
      -94659840 <= e <= 0 && (i == 0 ==> e == 0) && (i > 0 ==> e <= -6710656)
  {
    HiNear();
  }

  lemma SumBound(u: nat)
    requires u < MILLION
    ensures var e := Sum(u) * MILLION - u * UNIT;
      -101742400 <= e <= 862784 && if u < 0x1_0000 then e == LoDrift(u % 256) + MidDrift(u / 256) else e < -1500000
  {
    IndexedParts(u);
    LoError(u % 256);
    MidError(u / 256 % 256);
    HiError(u / 65536 % 16);
  }

  lemma InRange(sum: int, u: nat)
    requires 0 < u < MILLION && -101742400 <= sum * MILLION - u * UNIT <= 862784
    ensures 0 <= sum < UNIT && sum % UNIT == sum
  {
  }

  lemma SumOfZero()
    ensures Sum(0) == 0
  {
    LoError(0);
    MidError(0);
    HiError(0);
  }

  /** The fraction never overflows 32 bits, and the literals keep it within 102 units below and 0.87 above. */
  lemma FractionBound(u: nat)
    requires u < MILLION
    ensures Fraction(u) == Sum(u) && -101742400 <= FractionError(u) <= 862784
  {
    if u == 0 {
      SumOfZero();
    } else {
      SumBound(u);
      InRange(Sum(u), u);
    }
  }

  /** Where the two tables that small counts use leave the 1.5 units of the header: look-ups made before converting. */
  predicate Promising(u: nat) {
    u < 0x1_0000 && LoDrift(u % 256) + MidDrift(u / 256) >= -1500000
  }

  /** The promise of the header is kept exactly there. */
  lemma PromiseIff(u: nat)
    requires u < MILLION
    ensures -1500000 <= FractionError(u) <= 1500000 <==> Promising(u)
  {
    FractionBound(u);
    SumBound(u);
  }

  /** The first count that breaks it is 6160, the last that keeps it 25060. */
  lemma PromiseRange(u: nat)
    ensures u < 6160 ==> Promising(u)
    ensures u > 25060 ==> !Promising(u)
    ensures !Promising(6160) && Promising(25060)
  {
    LoError(16);
    MidError(24);
    LoError(228);
    MidError(97);
    if u < 0x1_0000 {
      LoError(u % 256);
      MidError(u / 256);
    }
  }

  /** More microseconds, a larger fraction. */
  lemma FractionIncreases(u: nat, v: nat)
    requires u < v < MILLION
    ensures Fraction(u) < Fraction(v)
  {
    FractionBound(u);
    FractionBound(v);
  }

  // ---------- and back ----------

  lemma BackHiExact(i: nat)
    requires i < 256
    ensures BackHi(i) == 31250 * i
  {
    BackHiNear(i / 16);
    assert i == 16 * (i / 16) + i % 16;
  }

  lemma BackMidError(i: nat)
    requires i < 256
    ensures -32768 <= 0x1_0000 * BackMid(i) - 8000000 * i <= 32256
  {
    BackMidNear(i / 16);
    assert i == 16 * (i / 16) + i % 16;
  }

  lemma BackLoError(i: nat)
    requires i < 128
    ensures -4248064 <= 0x80_0000 * BackLo(i) - 8000000 * i <= 4046848
  {
    BackLoNear(i / 16);
    assert i == 16 * (i / 16) + i % 16;
  }

  lemma FractionParts(f: nat)
    requires f < UNIT
    ensures var parts := 0x100_0000 * (f / 0x100_0000) + 0x1_0000 * (f / 0x1_0000 % 256) + 0x200 * (f / 0x200 % 128);
      0 <= f - parts < 0x200
  {
    assert f / 0x1_0000 == f / 0x1_0000 % 256 + 256 * (f / 0x1_0000 / 256);
    assert f / 0x200 == f / 0x200 % 128 + 128 * (f / 0x200 / 128);
    assert f / 0x1_0000 / 256 == f / 0x100_0000 && f / 0x200 / 128 == f / 0x1_0000;
  }

  /** The tables miss the exact eighths by less than two, their last nine bits included. */
  lemma EighthsError(f: nat)
    requires f < UNIT
    ensures -2 * UNIT < UNIT * Eighths(f) - 8 * MILLION * f < UNIT
  {
    FractionParts(f);
    BackHiExact(f / 0x100_0000);
    BackMidError(f / 0x1_0000 % 256);
    BackLoError(f / 0x200 % 128);
  }

  /** The microseconds are in 0..10^6 and within five eighths of the exact value. */
  lemma MicrosBound(f: nat)
    requires f < UNIT
    ensures 0 <= Micros(f) <= MILLION
    ensures -5 * UNIT < 8 * (UNIT * Micros(f) - MILLION * f) < 5 * UNIT
  {
    EighthsError(f);
  }

  /** Every microsecond comes back. */
  lemma MicrosUndoesFraction(u: nat)
    requires u < MILLION
    ensures Micros(Fraction(u)) == u
  {
    FractionBound(u);
    EighthsError(Fraction(u));
    var slack := UNIT * (Eighths(Fraction(u)) - 8 * u);
    assert slack == UNIT * Eighths(Fraction(u)) - 8 * MILLION * Fraction(u) + 8 * FractionError(u);
    assert -3 * UNIT < slack < 2 * UNIT;
  }

  // ---------- whole stamps ----------

  /** A stamp as one 64-bit number. */
  function Value(ts: Stamp): int { ts.ui * UNIT + ts.uf }

  lemma SecondsBack(sec: int)
    requires -0x8000_0000 <= sec < 0x8000_0000
    ensures sec % UNIT == (if sec >= 0 then sec else sec + UNIT) && Signed(sec % UNIT) == sec
  {
  }

  /** Converting there and back is the identity on every normalised time. */
  lemma RoundTrip(tv: TimeVal)
    requires Normalised(tv)
    ensures ValidStamp(ToStamp(tv)) && ToTimeVal(ToStamp(tv)) == tv
    ensures ToStamp(tv).ui == if tv.sec >= 0 then tv.sec else tv.sec + 0x1_0000_0000
  {
    SecondsBack(tv.sec);
    MicrosUndoesFraction(tv.usec);
  }

  predicate Later(a: TimeVal, b: TimeVal) { b.sec < a.sec || (b.sec == a.sec && b.usec < a.usec) }

  lemma LaterStamps(a: TimeVal, b: TimeVal)
    requires Normalised(a) && Normalised(b) && Later(a, b)
    ensures if a.sec >= 0 > b.sec then Value(ToStamp(a)) < Value(ToStamp(b)) else Value(ToStamp(a)) > Value(ToStamp(b))
  {
    SecondsBack(a.sec);
    SecondsBack(b.sec);
    if a.sec == b.sec { FractionIncreases(b.usec, a.usec); }
  }

  /** The stamps order as the times do exactly when both are before the start of 1970 or both are not. */
  lemma StampsIncrease(a: TimeVal, b: TimeVal)
    requires Normalised(a) && Normalised(b)
    ensures (Later(a, b) <==> Value(ToStamp(a)) > Value(ToStamp(b))) <==> (a.sec >= 0 <==> b.sec >= 0)
  {
    if Later(a, b) { LaterStamps(a, b); } else if a != b { LaterStamps(b, a); }
  }

  /** One carry is enough: the time is normalised and the same time to within five eighths of a microsecond. */
  lemma OneCarry(ts: Stamp)
    requires ValidStamp(ts)
    ensures 0 <= ToTimeVal(ts).usec < MILLION
    ensures var tv := ToTimeVal(ts); var exact := Signed(ts.ui) * UNIT + ts.uf;
      -5 * UNIT < 8 * (UNIT * (tv.sec * MILLION + tv.usec) - MILLION * exact) < 5 * UNIT
  {
    MicrosBound(ts.uf);
  }

  /** The carry happens: the largest fraction is closer to the next second. */
  lemma CarryExample()
    ensures ToTimeVal(Stamp(0, 0xffff_ffff)) == TimeVal(1, 0)
  {
    MicrosBound(0xffff_ffff);
  }
}
