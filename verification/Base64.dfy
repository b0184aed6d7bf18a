/**
  Base64 decoding as the HTTP server does it: a four-phase loop over the characters, skipping everything outside
  the alphabet. The meaning it is measured against is the grouping of RFC 4648, section 4.
 */
module Base64 {

  type Byte = x: int | 0 <= x < 256

  type Sextet = x: int | 0 <= x < 64

  /** b64_decode_table, sixteen entries a row. */
  const DECODE_ROWS: seq<seq<int>> := [
    [-1, -1, -1, -1, -1, -1, -1, -1, -1, -1, -1, -1, -1, -1, -1, -1],
    [-1, -1, -1, -1, -1, -1, -1, -1, -1, -1, -1, -1, -1, -1, -1, -1],
    [-1, -1, -1, -1, -1, -1, -1, -1, -1, -1, -1, 62, -1, -1, -1, 63],
    [52, 53, 54, 55, 56, 57, 58, 59, 60, 61, -1, -1, -1, -1, -1, -1],
    [-1, 0, 1, 2, 3, 4, 5, 6, 7, 8, 9, 10, 11, 12, 13, 14],
    [15, 16, 17, 18, 19, 20, 21, 22, 23, 24, 25, -1, -1, -1, -1, -1],
    [-1, 26, 27, 28, 29, 30, 31, 32, 33, 34, 35, 36, 37, 38, 39, 40],
    [41, 42, 43, 44, 45, 46, 47, 48, 49, 50, 51, -1, -1, -1, -1, -1],
    [-1, -1, -1, -1, -1, -1, -1, -1, -1, -1, -1, -1, -1, -1, -1, -1],
    [-1, -1, -1, -1, -1, -1, -1, -1, -1, -1, -1, -1, -1, -1, -1, -1],
    [-1, -1, -1, -1, -1, -1, -1, -1, -1, -1, -1, -1, -1, -1, -1, -1],
    [-1, -1, -1, -1, -1, -1, -1, -1, -1, -1, -1, -1, -1, -1, -1, -1],
    [-1, -1, -1, -1, -1, -1, -1, -1, -1, -1, -1, -1, -1, -1, -1, -1],
    [-1, -1, -1, -1, -1, -1, -1, -1, -1, -1, -1, -1, -1, -1, -1, -1],
    [-1, -1, -1, -1, -1, -1, -1, -1, -1, -1, -1, -1, -1, -1, -1, -1],
    [-1, -1, -1, -1, -1, -1, -1, -1, -1, -1, -1, -1, -1, -1, -1, -1]
  ]

  /** The alphabet of RFC 4648, table 1, read backwards; -1 outside it. */
  function ValueOf(c: Byte): int {
    if 65 <= c <= 90 then c - 65           // A-Z
    else if 97 <= c <= 122 then c - 71     // a-z
    else if 48 <= c <= 57 then c + 4       // 0-9
    else if c == 43 then 62                // +
    else if c == 47 then 63                // /
    else -1
  }

  /** The character for a value: table 1 read forwards. */
  function CharOf(v: Sextet): (c: Byte)
    ensures ValueOf(c) == v
  {
    if v < 26 then v + 65 else if v < 52 then v + 71 else if v < 62 then v - 4 else if v == 62 then 43 else 47
  }

  lemma RowIs(r: nat, k: nat)
    requires r < 16 && k < 16
    ensures |DECODE_ROWS| == 16 && |DECODE_ROWS[r]| == 16 && DECODE_ROWS[r][k] == ValueOf(16 * r + k)
  {
    assert |DECODE_ROWS[r]| == 16;
    if r < 4 { } else if r < 8 { } else { }
  }

  /** The table of the source is the alphabet. */
  lemma TableIs(c: Byte)
    ensures |DECODE_ROWS| == 16 && |DECODE_ROWS[c / 16]| == 16 && DECODE_ROWS[c / 16][c % 16] == ValueOf(c)
  {
    RowIs(c / 16, c % 16);
  }

  // ---------- what base64 text means ----------

  /** The alphabet characters of a text, as values. */
  function Sextets(text: seq<Byte>): seq<Sextet> {
    if text == [] then []
    else if ValueOf(text[0]) == -1 then Sextets(text[1..])
    else [ValueOf(text[0])] + Sextets(text[1..])
  }

  /** Digits to base 64 or 256 read as one number, most significant first. */
  function Number4(a: int, b: int, c: int, d: int): int { 0x4_0000 * a + 0x1000 * b + 0x40 * c + d }

  function Number3(a: int, b: int, c: int): int { 0x1000 * a + 0x40 * b + c }

  function Number2(a: int, b: int): int { 0x40 * a + b }

  function Bytes3(x: int, y: int, z: int): int { 0x1_0000 * x + 0x100 * y + z }

  function Bytes2(x: int, y: int): int { 0x100 * x + y }

  function First(a: Sextet, b: Sextet): Byte { 4 * (a as int) + b / 16 }

  function Second(b: Sextet, c: Sextet): Byte { (b % 16) * 16 + c / 4 }

  function Third(c: Sextet, d: Sextet): Byte { (c % 4) * 64 + d }

  /** Four values make three bytes; three and two left over at the end make two and one. */
  function Decoded(vs: seq<Sextet>): seq<Byte> {
    if |vs| >= 4 then [First(vs[0], vs[1]), Second(vs[1], vs[2]), Third(vs[2], vs[3])] + Decoded(vs[4..])
    else if |vs| == 3 then [First(vs[0], vs[1]), Second(vs[1], vs[2])]
    else if |vs| == 2 then [First(vs[0], vs[1])]
    else []
  }

  /** The bytes are the bits of the values in order: both read as the same number, up to the unused low bits. */
  lemma SameBits(a: Sextet, b: Sextet, c: Sextet, d: Sextet)
    ensures Bytes3(First(a, b), Second(b, c), Third(c, d)) == Number4(a, b, c, d)
    ensures 4 * Bytes2(First(a, b), Second(b, c)) + c % 4 == Number3(a, b, c)
    ensures 16 * (First(a, b) as int) + b % 16 == Number2(a, b)
  {
    assert b == 16 * (b / 16) + b % 16 && c == 4 * (c / 4) + c % 4;
  }

  function High6(x: Byte): Sextet { x / 4 }

  function Across2(x: Byte, y: Byte): Sextet { (x % 4) * 16 + y / 16 }

  function Across4(y: Byte, z: Byte): Sextet { (y % 16) * 4 + z / 64 }

  function Low6(z: Byte): Sextet { z % 64 }

  /** The values of RFC 4648, section 4: the bits of the bytes, zero-filled at the end. */
  function Values(bytes: seq<Byte>): seq<Sextet> {
    if |bytes| >= 3 then
      var x, y, z := bytes[0], bytes[1], bytes[2];
      [High6(x), Across2(x, y), Across4(y, z), Low6(z)] + Values(bytes[3..])
    else if |bytes| == 2 then [High6(bytes[0]), Across2(bytes[0], bytes[1]), Across4(bytes[1], 0)]
    else if |bytes| == 1 then [High6(bytes[0]), Across2(bytes[0], 0)]
    else []
  }

  function Text(vs: seq<Sextet>): seq<Byte> {
    if vs == [] then [] else [CharOf(vs[0])] + Text(vs[1..])
  }

  /** "=" characters that fill up the last group of four. */
  function Padding(n: nat): seq<Byte> {
    if n % 3 == 0 then [] else if n % 3 == 1 then [61, 61] else [61]
  }

  function Encoded(bytes: seq<Byte>): seq<Byte> { Text(Values(bytes)) + Padding(|bytes|) }

  /** The values are the bits of the bytes in order as well. */
  lemma SameBitsBack(x: Byte, y: Byte, z: Byte)
    ensures Number4(High6(x), Across2(x, y), Across4(y, z), Low6(z)) == Bytes3(x, y, z)
    ensures First(High6(x), Across2(x, y)) == x
    ensures Second(Across2(x, y), Across4(y, z)) == y
    ensures Third(Across4(y, z), Low6(z)) == z
  {
  }

  // ---------- the phases of the loop ----------

  /** The byte the loop emits for value d in each phase, prev being the value before it. */
  function Emitted(phase: nat, prev: Sextet, d: Sextet): seq<Byte> {
    if phase == 1 then [First(prev, d)]
    else if phase == 2 then [Second(prev, d)]
    else if phase == 3 then [Third(prev, d)]
    else []
  }

  function Last(vs: seq<Sextet>): Sextet { if vs == [] then 0 else vs[|vs| - 1] }

  /** One more value adds exactly the byte of its phase. */
  predicate AddsItsByte(vs: seq<Sextet>, d: Sextet) {
    Decoded(vs + [d]) == Decoded(vs) + Emitted(|vs| % 4, Last(vs), d)
  }

  lemma {:induction false} DecodedAppend(vs: seq<Sextet>, d: Sextet)
    ensures AddsItsByte(vs, d)
  {
    if |vs| == 0 {
      assert |vs + [d]| == 1 && vs + [d] != [];
    } else if |vs| == 1 {
      SecondValue(vs, d);
    } else if |vs| == 2 {
      ThirdValue(vs, d);
    } else if |vs| == 3 {
      FourthValue(vs, d);
    } else {
      DecodedAppend(vs[4..], d);
      BehindGroup(vs, d);
    }
  }

  /** The bytes of the first group. */
  function Head(vs: seq<Sextet>): seq<Byte>
    requires |vs| >= 4
  {
    [First(vs[0], vs[1]), Second(vs[1], vs[2]), Third(vs[2], vs[3])]
  }

  lemma GroupOff(vs: seq<Sextet>)
    requires |vs| >= 4
    ensures Decoded(vs) == Head(vs) + Decoded(vs[4..])
  {
  }

  lemma SameHead(vs: seq<Sextet>, d: Sextet)
    requires |vs| >= 4
    ensures Head(vs + [d]) == Head(vs) && (vs + [d])[4..] == vs[4..] + [d]
  {
  }

  lemma BehindGroup(vs: seq<Sextet>, d: Sextet)
    requires |vs| >= 4 && AddsItsByte(vs[4..], d)
    ensures AddsItsByte(vs, d)
  {
    GroupOff(vs);
    GroupOff(vs + [d]);
    SameHead(vs, d);
    SamePhase(vs, d);
    Regroup(Head(vs), Decoded(vs[4..]), Emitted(|vs| % 4, Last(vs), d));
  }

  /** A whole group in front changes neither the phase nor, past its first value, the value before. */
  lemma SamePhase(vs: seq<Sextet>, d: Sextet)
    requires |vs| >= 4
    ensures Emitted(|vs[4..]| % 4, Last(vs[4..]), d) == Emitted(|vs| % 4, Last(vs), d)
  {
    assert |vs[4..]| % 4 == |vs| % 4;
    if |vs| > 4 { assert Last(vs[4..]) == Last(vs); }
  }

  lemma Regroup(a: seq<Byte>, b: seq<Byte>, c: seq<Byte>)
    ensures a + (b + c) == a + b + c
  {
  }

  lemma SecondValue(vs: seq<Sextet>, d: Sextet)
    requires |vs| == 1
    ensures AddsItsByte(vs, d)
  {
    TwoValues(vs + [d]);
    assert Decoded(vs) == [] && Last(vs) == vs[0];
  }

  lemma ThirdValue(vs: seq<Sextet>, d: Sextet)
    requires |vs| == 2
    ensures AddsItsByte(vs, d)
  {
    TwoValues(vs);
    ThreeValues(vs + [d]);
    assert Last(vs) == vs[1];
  }

  lemma FourthValue(vs: seq<Sextet>, d: Sextet)
    requires |vs| == 3
    ensures AddsItsByte(vs, d)
  {
    ThreeValues(vs);
    GroupOff(vs + [d]);
    assert (vs + [d])[4..] == [] && Last(vs) == vs[2];
  }

  lemma TwoValues(vs: seq<Sextet>)
    requires |vs| == 2
    ensures Decoded(vs) == [First(vs[0], vs[1])]
  {
  }

  lemma ThreeValues(vs: seq<Sextet>)
    requires |vs| == 3
    ensures Decoded(vs) == [First(vs[0], vs[1]), Second(vs[1], vs[2])]
  {
  }

  lemma {:induction false} SextetsAppend(xs: seq<Byte>, c: Byte)
    ensures Sextets(xs + [c]) == Sextets(xs) + if ValueOf(c) == -1 then [] else [ValueOf(c)]
  {
    if xs == [] {
      assert xs + [c] == [c] && [c][1..] == [];
    } else {
      assert (xs + [c])[1..] == xs[1..] + [c];
      SextetsAppend(xs[1..], c);
    }
  }

  // ---------- the decoder ----------

  function Min(a: nat, b: nat): nat { if a <= b then a else b }

  /** As much of the bytes as fits. */
  ghost predicate Stored(kept: seq<Byte>, bytes: seq<Byte>, size: nat) {
    |kept| == Min(size, |bytes|) && kept == bytes[..|kept|]
  }

  /** The table look-up for one character. */
  method LookUp(c: Byte) returns (d: int)
    ensures d == ValueOf(c)
  {
    TableIs(c);
    d := DECODE_ROWS[c / 16][c % 16];
  }

  /** The phase and the previous value the loop has after the values vs. */
  ghost predicate InPhase(vs: seq<Sextet>, phase: nat, prev: Sextet) {
    phase == |vs| % 4 && prev == Last(vs)
  }

  lemma NextPhase(vs: seq<Sextet>, phase: nat, prev: Sextet, d: Sextet)
    requires InPhase(vs, phase, prev)
    ensures InPhase(vs + [d], (phase + 1) % 4, d)
  {
  }

  /** One more character of a text. */
  lemma SextetsNext(str: seq<Byte>, cp: nat)
    requires cp < |str|
    ensures Sextets(str[..cp + 1]) == Sextets(str[..cp]) + if ValueOf(str[cp]) == -1 then [] else [ValueOf(str[cp])]
  {
    SextetsAppend(str[..cp], str[cp]);
    assert str[..cp + 1] == str[..cp] + [str[cp]];
  }

  /** b64_decode: the bytes the text means, as many of them as fit; the rest of the buffer is not touched. */
  method Decode(str: seq<Byte>, space: array<Byte>, size: nat) returns (n: nat)
    requires 0 !in str && size <= space.Length
    modifies space
    ensures n <= size && Stored(space[..n], Decoded(Sextets(str)), size)
    ensures space[n..] == old(space[n..])
  {
    n := 0;
    var phase: nat := 0;
    var prev: Sextet := 0;
    var cp := 0;
    ghost var vs: seq<Sextet> := [];
    while cp < |str|
      invariant cp <= |str| && n <= size
      invariant vs == Sextets(str[..cp]) && InPhase(vs, phase, prev)
      invariant Stored(space[..n], Decoded(vs), size)
      invariant space[n..] == old(space[n..])
    {
      var d := LookUp(str[cp]);
      SextetsNext(str, cp);
      if d != -1 {
        n := Accept(space, size, n, phase, prev, d, vs);
        NextPhase(vs, phase, prev, d);
        vs := vs + [d];
        phase := (phase + 1) % 4;
        prev := d;
      }
      cp := cp + 1;
    }
    assert str[..cp] == str;
  }

  /** The switch on the phase. */
  method Accept(space: array<Byte>, size: nat, n: nat, phase: nat, prev: Sextet, d: Sextet, ghost vs: seq<Sextet>)
    returns (m: nat)
    requires n <= size <= space.Length && InPhase(vs, phase, prev) && Stored(space[..n], Decoded(vs), size)
    modifies space
    ensures n <= m <= size && Stored(space[..m], Decoded(vs + [d]), size)
    ensures space[m..] == old(space[m..])
  {
    DecodedAppend(vs, d);
    m := n;
    if phase == 0 {
      assert Decoded(vs) + [] == Decoded(vs);
    } else {
      var c := Shifted(phase, prev, d);
      m := Put(space, size, n, c, Decoded(vs));
    }
  }

  /** The byte of each phase, by shifts and masks. */
  method Shifted(phase: nat, prev: Sextet, d: Sextet) returns (c: Byte)
    requires 0 < phase < 4
    ensures Emitted(phase, prev, d) == [c]
  {
    Masks(d);
    if phase == 1 {
      c := 4 * (prev as int) + d / 16 % 4;
    } else if phase == 2 {
      c := (prev % 16) * 16 + d / 4 % 16;
    } else {
      c := (prev % 4) * 64 + d;
    }
  }

  /** A value has six bits. */
  lemma Masks(d: Sextet)
    ensures d / 16 % 4 == d / 16 && d / 4 % 16 == d / 4
  {
  }

  /** One more byte, if the buffer has room for it. */
  method Put(space: array<Byte>, size: nat, n: nat, c: Byte, ghost was: seq<Byte>) returns (m: nat)
    requires n <= size <= space.Length && Stored(space[..n], was, size)
    modifies space
    ensures m <= size && Stored(space[..m], was + [c], size)
    ensures n <= m <= size
    ensures space[m..] == old(space[m..])
  {
    m := n;
    if n < size {
      space[n] := c;
      m := n + 1;
    }
  }

  // ---------- what the decoder achieves ----------

  lemma SextetsHead(c: Byte, rest: seq<Byte>)
    requires ValueOf(c) != -1
    ensures Sextets([c] + rest) == [ValueOf(c)] + Sextets(rest)
  {
    assert ([c] + rest)[1..] == rest;
  }

  lemma {:induction false} TextBack(vs: seq<Sextet>, pad: seq<Byte>)
    requires Sextets(pad) == []
    ensures Sextets(Text(vs) + pad) == vs
  {
    if vs == [] {
      assert Text(vs) + pad == pad;
    } else {
      var c := CharOf(vs[0]);
      TextBack(vs[1..], pad);
      SextetsHead(c, Text(vs[1..]) + pad);
      assert Text(vs) + pad == [c] + (Text(vs[1..]) + pad);
    }
  }

  lemma TwoBack(x: Byte, y: Byte)
    ensures Decoded(Values([x, y])) == [x, y]
  {
    SameBitsBack(x, y, 0);
    ThreeValues([High6(x), Across2(x, y), Across4(y, 0)]);
  }

  lemma OneBack(x: Byte)
    ensures Decoded(Values([x])) == [x]
  {
    SameBitsBack(x, 0, x);
    TwoValues([High6(x), Across2(x, 0)]);
  }

  lemma ThreeBack(x: Byte, y: Byte, z: Byte, rest: seq<Byte>)
    ensures Decoded(Values([x, y, z] + rest)) == [x, y, z] + Decoded(Values(rest))
  {
    var group, tail := [High6(x), Across2(x, y), Across4(y, z), Low6(z)], Values(rest);
    SameBitsBack(x, y, z);
    assert ([x, y, z] + rest)[3..] == rest;
    GroupOff(group + tail);
    assert (group + tail)[4..] == tail;
  }

  lemma {:induction false} ValuesBack(bytes: seq<Byte>)
    ensures Decoded(Values(bytes)) == bytes
  {
    if |bytes| >= 3 {
      ValuesBack(bytes[3..]);
      ThreeBack(bytes[0], bytes[1], bytes[2], bytes[3..]);
      assert bytes == [bytes[0], bytes[1], bytes[2]] + bytes[3..];
    } else if |bytes| == 2 {
      TwoBack(bytes[0], bytes[1]);
      assert bytes == [bytes[0], bytes[1]];
    } else if |bytes| == 1 {
      OneBack(bytes[0]);
      assert bytes == [bytes[0]];
    }
  }

  /** Decoding undoes encoding, for every byte sequence. */
  lemma RoundTrip(bytes: seq<Byte>)
    ensures Decoded(Sextets(Encoded(bytes))) == bytes
  {
    assert [61, 61][1..] == [61] && [61][1..] == [];
    assert Sextets([61]) == [] && Sextets([61, 61]) == [];
    assert Sextets(Padding(|bytes|)) == [];
    TextBack(Values(bytes), Padding(|bytes|));
    ValuesBack(bytes);
  }

  /** n alphabet characters carry 3 * (n / 4) bytes, and one less than the n mod 4 left over. */
  lemma {:induction false} DecodedLength(vs: seq<Sextet>)
    ensures |Decoded(vs)| == 3 * (|vs| / 4) + if |vs| % 4 == 0 then 0 else |vs| % 4 - 1
  {
    if |vs| >= 4 { DecodedLength(vs[4..]); }
  }

  /** A character outside the alphabet never changes the result, wherever it stands. */
  lemma {:induction false} NoiseIgnored(before: seq<Byte>, c: Byte, after: seq<Byte>)
    requires ValueOf(c) == -1
    ensures Sextets(before + [c] + after) == Sextets(before + after)
  {
    if before == [] {
      assert before + [c] + after == [c] + after && ([c] + after)[1..] == after && before + after == after;
    } else {
      assert (before + [c] + after)[1..] == before[1..] + [c] + after;
      assert (before + after)[1..] == before[1..] + after;
      NoiseIgnored(before[1..], c, after);
    }
  }

  /** The decoder on encoded text, and on the same text with foreign characters anywhere, gives the bytes back. */
  method DecodeEncoded(bytes: seq<Byte>, text: seq<Byte>, space: array<Byte>) returns (n: nat)
    requires 0 !in text && Sextets(text) == Sextets(Encoded(bytes)) && |bytes| <= space.Length
    modifies space
    ensures n == |bytes| && space[..n] == bytes
  {
    RoundTrip(bytes);
    n := Decode(text, space, space.Length);
  }

  // ---------- against the text of the standard ----------

  /** RFC 4648, table 1, a quarter at a time. */
  const ALPHABET: seq<string> := ["ABCDEFGHIJKLMNOP", "QRSTUVWXYZabcdef", "ghijklmnopqrstuv", "wxyz0123456789+/"]

  lemma QuarterIs(q: nat, k: nat)
    requires q < 4 && k < 16
    ensures |ALPHABET| == 4 && |ALPHABET[q]| == 16 && CharOf(16 * q + k) == ALPHABET[q][k] as int
  {
    assert |ALPHABET[q]| == 16;
    if q == 0 { } else if q == 1 { } else if q == 2 { } else { }
  }

  /** The characters for the values are those of the table, in its order. */
  lemma AlphabetIs(v: Sextet)
    ensures |ALPHABET| == 4 && |ALPHABET[v / 16]| == 16 && CharOf(v) == ALPHABET[v / 16][v % 16] as int
  {
    QuarterIs(v / 16, v % 16);
  }

  /** A character has a value exactly when it is the one for that value. */
  lemma ValueIff(c: Byte, v: Sextet)
    ensures ValueOf(c) == v <==> CharOf(v) == c
  {
  }

  lemma EncodedThree(x: Byte, y: Byte, z: Byte, rest: seq<Byte>)
    ensures Encoded([x, y, z] + rest)
      == [CharOf(High6(x)), CharOf(Across2(x, y)), CharOf(Across4(y, z)), CharOf(Low6(z))] + Encoded(rest)
  {
    var group, tail := [High6(x), Across2(x, y), Across4(y, z), Low6(z)], Values(rest);
    ValuesThree(x, y, z, rest);
    TextConcat(group, tail);
    TextFour(group);
    RegroupText(Text(group), Text(tail), Padding(|rest|));
  }

  lemma ValuesThree(x: Byte, y: Byte, z: Byte, rest: seq<Byte>)
    ensures Values([x, y, z] + rest) == [High6(x), Across2(x, y), Across4(y, z), Low6(z)] + Values(rest)
    ensures |[x, y, z] + rest| % 3 == |rest| % 3
  {
    assert ([x, y, z] + rest)[3..] == rest;
  }

  lemma RegroupText(a: seq<Byte>, b: seq<Byte>, c: seq<Byte>)
    ensures (a + b) + c == a + (b + c)
  {
  }

  lemma TextFour(vs: seq<Sextet>)
    requires |vs| == 4
    ensures Text(vs) == [CharOf(vs[0]), CharOf(vs[1]), CharOf(vs[2]), CharOf(vs[3])]
  {
    TextTwo(vs[2], vs[3]);
    assert vs[1..][1..] == vs[2..] == [vs[2], vs[3]];
  }

  lemma {:induction false} TextConcat(a: seq<Sextet>, b: seq<Sextet>)
    ensures Text(a + b) == Text(a) + Text(b)
  {
    if a == [] {
      assert a + b == b;
    } else {
      assert (a + b)[1..] == a[1..] + b;
      TextConcat(a[1..], b);
    }
  }

  /** The last group, of one byte and of two. */
  lemma EncodedRest(x: Byte, y: Byte)
    ensures Encoded([x]) == [CharOf(High6(x)), CharOf(Across2(x, 0)), 61, 61]
    ensures Encoded([x, y]) == [CharOf(High6(x)), CharOf(Across2(x, y)), CharOf(Across4(y, 0)), 61]
  {
    TextTwo(High6(x), Across2(x, 0));
    var two := [High6(x), Across2(x, y), Across4(y, 0)];
    assert two[1..] == [Across2(x, y), Across4(y, 0)];
    TextTwo(Across2(x, y), Across4(y, 0));
  }

  lemma TextTwo(a: Sextet, b: Sextet)
    ensures Text([a, b]) == [CharOf(a), CharOf(b)]
  {
    assert [b][1..] == [];
    assert Text([b]) == [CharOf(b)];
    assert [a, b][1..] == [b];
  }

  /** The vectors of RFC 4648, section 10: "foo" and "bar" in front of anything are "Zm9v" and "YmFy". */
  lemma WholeVectors(rest: seq<Byte>)
    ensures Encoded([102, 111, 111] + rest) == [90, 109, 57, 118] + Encoded(rest)
    ensures Encoded([98, 97, 114] + rest) == [89, 109, 70, 121] + Encoded(rest)
  {
    EncodedThree(102, 111, 111, rest);
    EncodedThree(98, 97, 114, rest);
  }

  /** And at the end: "b" and "ba" are "Yg==" and "YmE=". */
  lemma LastVectors()
    ensures Encoded([]) == [] && Encoded([98]) == [89, 103, 61, 61] && Encoded([98, 97]) == [89, 109, 69, 61]
  {
    EncodedRest(98, 97);
  }
}
