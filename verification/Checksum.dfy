/**
  The Internet checksum as the raw-socket layer computes it: a 32-bit sum of 16-bit words in host byte order, folded
  twice. The meaning it is measured against is ones'-complement addition word by word (RFC 1071, section 1).
 */
module Checksum {

  type Byte = x: int | 0 <= x < 256

  type Word = x: int | 0 <= x < 0x1_0000

  /** Which byte of a word the host keeps first. */
  datatype Order = Little | Big

  function WordOf(e: Order, b0: Byte, b1: Byte): Word {
    if e.Little? then b0 + 0x100 * (b1 as int) else 0x100 * (b0 as int) + b1
  }

  /** A word in memory. */
  function Stored(e: Order, w: Word): (m: seq<Byte>)
    ensures |m| == 2 && WordOf(e, m[0], m[1]) == w
  {
    if e.Little? then [w % 0x100, w / 0x100] else [w / 0x100, w % 0x100]
  }

  /** The plain sum of the words, an odd last byte being the first of its word. */
  function WordSum(e: Order, b: seq<Byte>): nat {
    if b == [] then 0
    else if |b| == 1 then WordOf(e, b[0], 0)
    else WordOf(e, b[0], b[1]) + WordSum(e, b[2..])
  }

  /** Addition with end-around carry. */
  function OnesAdd(a: Word, b: Word): Word { if a + b < 0x1_0000 then a + b else a + b - 0xffff }

  /** The ones'-complement sum of RFC 1071. */
  function OnesSum(e: Order, b: seq<Byte>): Word {
    if b == [] then 0
    else if |b| == 1 then WordOf(e, b[0], 0)
    else OnesAdd(WordOf(e, b[0], b[1]), OnesSum(e, b[2..]))
  }

  /** The Internet checksum of a buffer, as it goes on the wire. */
  function Internet(b: seq<Byte>): seq<Byte> { Stored(Big, 0xffff - OnesSum(Big, b)) }

  const WIDTH: int := 0x1_0000_0000

  // ---------- the program ----------

  /** What a 32-bit variable keeps of a sum. */
  function Wrap(x: nat): (r: nat)
    ensures r < WIDTH && (x < WIDTH ==> r == x)
  {
    x % WIDTH
  }

  /** checksum_sum: the sum so far and the words of len bytes at off, in 32 bits. */
  method ChecksumSum(e: Order, buf: array<Byte>, off: nat, length: nat, init: nat) returns (sum: nat)
    requires off + length <= buf.Length && init < WIDTH
    ensures sum == Wrap(init + WordSum(e, buf[off..off + length]))
  {
    sum := init;
    var word, len: nat := off, length;
    ghost var all := init + WordSum(e, buf[off..off + length]);
    ghost var exact: nat := init;
    while len >= 2
      invariant word + len == off + length && off <= word && sum == Wrap(exact)
      invariant exact + WordSum(e, buf[word..word + len]) == all
    {
      assert buf[word..word + len][2..] == buf[word + 2..word + len];
      var w := WordOf(e, buf[word], buf[word + 1]);
      WrapAdd(exact, w);
      sum := (sum + w) % WIDTH;
      exact := exact + w;
      word := word + 2;
      len := len - 2;
    }
    if len == 1 {
      var w := WordOf(e, buf[word], 0);
      WrapAdd(exact, w);
      sum := (sum + w) % WIDTH;
    }
  }

  lemma WrapAdd(x: nat, w: nat)
    ensures (Wrap(x) + w) % WIDTH == Wrap(x + w)
  {
    var y, k := x % WIDTH + w, x / WIDTH;
    assert x + w == y + WIDTH * k == WIDTH * (y / WIDTH + k) + y % WIDTH;
  }

  /** checksum_check: two folds give the residue of any 32-bit sum, and the result is its complement. */
  method ChecksumCheck(total: nat) returns (c: Word)
    requires total < WIDTH
    ensures c == 0xffff - Residue(total)
  {
    var sum := total;
    sum := sum / 0x1_0000 + sum % 0x1_0000;
    assert sum == 0 <==> total == 0;
    sum := sum + sum / 0x1_0000;
    c := 0xffff - sum % 0x1_0000;
    FoldIs(total);
  }

  /** checksum: a whole buffer at once. */
  method ChecksumOf(e: Order, buf: array<Byte>, off: nat, len: nat) returns (c: Word)
    requires off + len <= buf.Length
    ensures WordSum(e, buf[off..off + len]) < WIDTH ==> c == 0xffff - OnesSum(e, buf[off..off + len])
    ensures c == 0xffff - Residue(Wrap(WordSum(e, buf[off..off + len])))
  {
    var sum := ChecksumSum(e, buf, off, len, 0);
    c := ChecksumCheck(sum);
    SumIsResidue(e, buf[off..off + len]);
  }

  // ---------- residues modulo 0xffff ----------

  /** The representative of a sum in 0..0xffff that keeps "nothing added" apart from 0xffff. */
  function Residue(s: nat): Word { if s == 0 then 0 else 1 + (s - 1) % 0xffff }

  lemma ResidueIs(s: nat, r: Word, k: int)
    requires s == r + 0xffff * k && (s == 0 <==> r == 0)
    ensures Residue(s) == r
  {
    if s > 0 { assert s - 1 == 0xffff * k + (r - 1); }
  }

  lemma FoldIs(s: nat)
    requires s < WIDTH
    ensures var f := s / 0x1_0000 + s % 0x1_0000; (f + f / 0x1_0000) % 0x1_0000 == Residue(s)
  {
    var f := s / 0x1_0000 + s % 0x1_0000;
    if f < 0x1_0000 {
      ResidueIs(s, f, s / 0x1_0000);
    } else {
      ResidueIs(s, f - 0xffff, s / 0x1_0000 + 1);
    }
  }

  lemma ResidueSplit(s: nat) returns (k: nat)
    ensures s == Residue(s) + 0xffff * k && (s == 0 <==> Residue(s) == 0)
  {
    k := if s == 0 then 0 else (s - 1) / 0xffff;
  }

  /** Only the residue class of a sum matters, and whether it is zero. */
  lemma ResidueSame(s: nat, t: nat, k: int)
    requires s == t + 0xffff * k && (s == 0 <==> t == 0)
    ensures Residue(s) == Residue(t)
  {
    var j := ResidueSplit(t);
    ResidueIs(s, Residue(t), k + j);
  }

  lemma ResidueAdd(w: Word, s: nat)
    ensures OnesAdd(w, Residue(s)) == Residue(w + s)
  {
    var k := ResidueSplit(s);
    if w + Residue(s) < 0x1_0000 {
      ResidueIs(w + s, w + Residue(s), k);
    } else {
      ResidueIs(w + s, w + Residue(s) - 0xffff, k + 1);
    }
  }

  /** The plain sum keeps the ones'-complement sum. */
  lemma {:induction false} SumIsResidue(e: Order, b: seq<Byte>)
    ensures OnesSum(e, b) == Residue(WordSum(e, b))
  {
    if |b| == 1 {
      ResidueIs(WordSum(e, b), WordSum(e, b), 0);
    } else if |b| > 1 {
      SumIsResidue(e, b[2..]);
      ResidueAdd(WordOf(e, b[0], b[1]), WordSum(e, b[2..]));
    }
  }

  // ---------- sizes ----------

  lemma {:induction false} SumBound(e: Order, b: seq<Byte>)
    ensures WordSum(e, b) <= 0xffff * ((|b| + 1) / 2)
  {
    if |b| > 1 { SumBound(e, b[2..]); }
  }

  /** Every buffer up to 131074 bytes fits, so every IP datagram does. */
  lemma Fits(e: Order, b: seq<Byte>)
    requires |b| <= 131074
    ensures WordSum(e, b) < WIDTH
  {
    SumBound(e, b);
  }

  lemma {:induction false} SumOfOnes(e: Order, b: seq<Byte>)
    requires |b| % 2 == 0 && forall k :: 0 <= k < |b| ==> b[k] == 0xff
    ensures WordSum(e, b) == 0xffff * (|b| / 2)
  {
    if b != [] { SumOfOnes(e, b[2..]); }
  }

  /** One word more and the 32-bit sum loses a carry: the result is 1 where it should be 0. */
  lemma TooLong(e: Order, b: seq<Byte>)
    requires |b| == 131076 && forall k :: 0 <= k < |b| ==> b[k] == 0xff
    ensures OnesSum(e, b) == 0xffff && Residue(Wrap(WordSum(e, b))) == 0xfffe
  {
    SumOfOnes(e, b);
    SumIsResidue(e, b);
    ResidueIs(WordSum(e, b), 0xffff, 65537);
  }

  // ---------- composition ----------

  /** Summing two pieces in turn is summing them together, when the first has an even length. */
  lemma {:induction false} SumConcat(e: Order, a: seq<Byte>, b: seq<Byte>)
    requires |a| % 2 == 0
    ensures WordSum(e, a + b) == WordSum(e, a) + WordSum(e, b)
  {
    if a == [] {
      assert a + b == b;
    } else {
      assert (a + b)[2..] == a[2..] + b;
      SumConcat(e, a[2..], b);
    }
  }

  /** Summing goes on from where it was: the sums of two pieces, and the sum of both. */
  lemma TwoSums(e: Order, first: nat, second: nat, both: seq<Byte>)
    requires WordSum(e, both) == first + second && |both| <= 131074
    ensures first + second < WIDTH && OnesSum(e, both) == Residue(first + second)
  {
    Fits(e, both);
    SumIsResidue(e, both);
  }

  /** checksum_sum called twice is one checksum over the concatenation. */
  method Chained(e: Order, a: array<Byte>, b: array<Byte>) returns (c: Word)
    requires a.Length % 2 == 0 && a.Length + b.Length <= 131074
    ensures c == 0xffff - OnesSum(e, a[..] + b[..])
  {
    assert a[0..a.Length] == a[..] && b[0..b.Length] == b[..];
    var sum := ChecksumSum(e, a, 0, a.Length, 0);
    Fits(e, a[..]);
    SumConcat(e, a[..], b[..]);
    TwoSums(e, sum, WordSum(e, b[..]), a[..] + b[..]);
    sum := ChecksumSum(e, b, 0, b.Length, sum);
    c := ChecksumCheck(sum);
  }

  /** A word put in place of a zero word adds itself. */
  lemma SumField(e: Order, before: seq<Byte>, w: Word, after: seq<Byte>)
    requires |before| % 2 == 0
    ensures WordSum(e, before + Stored(e, w) + after) == WordSum(e, before + [0, 0] + after) + w
  {
    assert before + Stored(e, w) + after == before + (Stored(e, w) + after);
    assert before + [0, 0] + after == before + ([0, 0] + after);
    SumConcat(e, before, Stored(e, w) + after);
    SumConcat(e, before, [0, 0] + after);
    SumConcat(e, Stored(e, w), after);
    SumConcat(e, [0, 0], after);
    assert Stored(e, w)[2..] == [] && [0, 0][2..] == [];
  }

  /** The complement of the sum, stored in the zeroed field, makes the whole sum 0xffff, whose complement is 0. */
  lemma FieldVerifies(e: Order, before: seq<Byte>, after: seq<Byte>)
    requires |before| % 2 == 0
    ensures OnesSum(e, before + Stored(e, 0xffff - OnesSum(e, before + [0, 0] + after)) + after) == 0xffff
  {
    var zeroed := before + [0, 0] + after;
    var c := 0xffff - OnesSum(e, zeroed);
    SumIsResidue(e, zeroed);
    SumIsResidue(e, before + Stored(e, c) + after);
    SumField(e, before, c, after);
    var k := ResidueSplit(WordSum(e, zeroed));
    ResidueIs(WordSum(e, zeroed) + c, 0xffff, k);
  }

  /** A word changed anywhere is noticed unless it was 0 and became 0xffff, or the other way round. */
  lemma OneWordChange(e: Order, before: seq<Byte>, v: Word, w: Word, after: seq<Byte>)
    requires |before| % 2 == 0 && OnesSum(e, before + Stored(e, v) + after) == 0xffff
    ensures OnesSum(e, before + Stored(e, w) + after) == 0xffff
      <==> v == w || ({v, w} == {0, 0xffff} && WordSum(e, before + [0, 0] + after) + w > 0)
  {
    var z := WordSum(e, before + [0, 0] + after);
    SumField(e, before, v, after);
    SumField(e, before, w, after);
    SumIsResidue(e, before + Stored(e, v) + after);
    SumIsResidue(e, before + Stored(e, w) + after);
    SameClass(z, v, w);
  }

  lemma SameClass(z: nat, v: Word, w: Word)
    requires Residue(z + v) == 0xffff
    ensures Residue(z + w) == 0xffff <==> v == w || ({v, w} == {0, 0xffff} && z + w > 0)
  {
    var k: int := ResidueSplit(z + v);
    var j: int := ResidueSplit(z + w);
    assert w - v == Residue(z + w) - 0xffff + 0xffff * (j - k);
    if {v, w} == {0, 0xffff} && z + w > 0 {
      assert v == 0 || v == 0xffff;
      assert w == 0 || w == 0xffff;
      ResidueIs(z + w, 0xffff, k + if w == v then 0 else if w == 0 then -1 else 1);
    } else if Residue(z + w) == 0xffff {
      assert v == w || v == 0 || w == 0;
    }
  }

  // ---------- byte order ----------

  function Swap(w: Word): Word { 0x100 * (w % 0x100) + w / 0x100 }

  lemma SwapIs(w: Word)
    ensures Swap(w) == Residue(0x100 * (w as int))
  {
    ResidueIs(0x100 * (w as int), Swap(w), w / 0x100);
  }

  lemma SwapAdd(a: Word, b: Word)
    ensures Swap(OnesAdd(a, b)) == OnesAdd(Swap(a), Swap(b))
  {
    SwapIs(OnesAdd(a, b));
    SwapIs(a);
    SwapIs(b);
    ResidueAdd(Swap(a), 0x100 * (b as int));
    var k: int := ResidueSplit(0x100 * (a as int));
    ResidueSame(Swap(a) + 0x100 * (b as int), 0x100 * (a + b as int), -k);
    if OnesAdd(a, b) == a + b {
    } else {
      ResidueSame(0x100 * (OnesAdd(a, b) as int), 0x100 * (a + b as int), -0x100);
    }
  }

  lemma SwapWord(x: Byte, y: Byte)
    ensures WordOf(Little, x, y) == Swap(WordOf(Big, x, y))
  {
  }

  lemma SwapStored(w: Word)
    ensures Stored(Little, 0xffff - Swap(w)) == Stored(Big, 0xffff - w)
  {
    var h, l := w / 0x100, w % 0x100;
    assert 0xffff - w == 0x100 * (0xff - h) + (0xff - l);
    assert 0xffff - Swap(w) == 0x100 * (0xff - l) + (0xff - h);
  }

  lemma {:induction false} SwappedSum(b: seq<Byte>)
    ensures OnesSum(Little, b) == Swap(OnesSum(Big, b))
  {
    if |b| == 1 {
      SwapWord(b[0], 0);
    } else if |b| > 1 {
      SwapWord(b[0], b[1]);
      SwappedSum(b[2..]);
      SwapAdd(WordOf(Big, b[0], b[1]), OnesSum(Big, b[2..]));
    }
  }

  /** What is stored is the Internet checksum on either kind of host (RFC 1071, section 2). */
  lemma AnyOrder(e: Order, b: seq<Byte>)
    ensures Stored(e, 0xffff - OnesSum(e, b)) == Internet(b)
  {
    SwappedSum(b);
    SwapStored(OnesSum(Big, b));
  }

  /** On the wire: a buffer whose field holds the Internet checksum of the buffer with that field zero verifies. */
  lemma InternetVerifies(before: seq<Byte>, after: seq<Byte>, zeroed: seq<Byte>, filled: seq<Byte>)
    requires |before| % 2 == 0 && zeroed == before + [0, 0] + after && filled == before + Internet(zeroed) + after
    ensures OnesSum(Big, filled) == 0xffff
  {
    FieldVerifies(Big, before, after);
  }

  /** The result is 0, which RFC 768 keeps for "no checksum" and replaces by 0xffff, exactly when the sum is 0xffff. */
  lemma ZeroIff(b: seq<Byte>)
    ensures Internet(b) == [0, 0] <==> OnesSum(Big, b) == 0xffff
    ensures OnesSum(Big, b) == 0xffff <==> WordSum(Big, b) > 0 && WordSum(Big, b) % 0xffff == 0
  {
    SumIsResidue(Big, b);
    ZeroStored(OnesSum(Big, b));
    FullResidue(WordSum(Big, b));
  }

  lemma ZeroStored(w: Word)
    ensures Stored(Big, 0xffff - w) == [0, 0] <==> w == 0xffff
  {
  }

  lemma FullResidue(s: nat)
    ensures Residue(s) == 0xffff <==> s > 0 && s % 0xffff == 0
  {
    var k := ResidueSplit(s);
  }

  /** The example of RFC 1071, section 3. */
  lemma Rfc1071Example()
    ensures OnesSum(Big, [0x00, 0x01, 0xf2, 0x03, 0xf4, 0xf5, 0xf6, 0xf7]) == 0xddf2
    ensures OnesSum(Little, [0x00, 0x01, 0xf2, 0x03, 0xf4, 0xf5, 0xf6, 0xf7]) == 0xf2dd
    ensures Internet([0x00, 0x01, 0xf2, 0x03, 0xf4, 0xf5, 0xf6, 0xf7]) == [0x22, 0x0d]
  {
    var b: seq<Byte> := [0x00, 0x01, 0xf2, 0x03, 0xf4, 0xf5, 0xf6, 0xf7];
    assert b[2..] == [0xf2, 0x03, 0xf4, 0xf5, 0xf6, 0xf7] && b[2..][2..] == b[4..] && b[4..][2..] == b[6..];
    assert b[6..][2..] == [];
    assert OnesSum(Big, b[6..]) == OnesAdd(0xf6f7, 0);
    assert OnesSum(Big, b[4..]) == OnesAdd(0xf4f5, 0xf6f7);
    SwappedSum(b);
  }
}
