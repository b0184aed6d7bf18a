/**
  The percent codec of the HTTP server: strencode into a bounded buffer, strdecode possibly onto its own input.
  Buffers hold bytes; a string in a buffer ends at the first NUL.
 */
module PercentCodec {

  type Byte = x: int | 0 <= x < 256

  const PERCENT: Byte := 37

  /** The string a buffer holds. */
  function CString(b: seq<Byte>): seq<Byte> {
    if b == [] || b[0] == 0 then [] else [b[0]] + CString(b[1..])
  }

  // ---------- the code ----------

  predicate IsAlnum(c: Byte) { 48 <= c <= 57 || 65 <= c <= 90 || 97 <= c <= 122 }

  predicate IsXdigit(c: Byte) { 48 <= c <= 57 || 65 <= c <= 70 || 97 <= c <= 102 }

  /** Letters, digits and the five of "/_.-~" stand for themselves. */
  predicate Plain(c: Byte) { IsAlnum(c) || c == 47 || c == 95 || c == 46 || c == 45 || c == 126 }

  /** A digit as "%x" prints it. */
  function HexDigit(v: int): (c: Byte)
    requires 0 <= v < 16
    ensures IsXdigit(c) && Hexit(c) == v
  {
    if v < 10 then 48 + v else 87 + v
  }

  function Hexit(c: Byte): int {
    if 48 <= c <= 57 then c - 48 else if 97 <= c <= 102 then c - 87 else if 65 <= c <= 70 then c - 55 else 0
  }

  function Code(c: Byte): seq<Byte> {
    if Plain(c) then [c] else [PERCENT, HexDigit(c / 16), HexDigit(c % 16)]
  }

  function Encoded(s: seq<Byte>): seq<Byte> {
    if s == [] then [] else Code(s[0]) + Encoded(s[1..])
  }

  predicate Escape(s: seq<Byte>) { |s| >= 3 && s[0] == PERCENT && IsXdigit(s[1]) && IsXdigit(s[2]) }

  function HexByte(a: Byte, b: Byte): Byte { Hexit(a) * 16 + Hexit(b) }

  /** What a string means: each escape the byte it names, every other character itself. */
  function Decoded(s: seq<Byte>): seq<Byte> {
    if s == [] then []
    else if Escape(s) then [HexByte(s[1], s[2])] + Decoded(s[3..])
    else [s[0]] + Decoded(s[1..])
  }

  // ---------- its laws ----------

  lemma DecodeCode(c: Byte, rest: seq<Byte>)
    ensures Decoded(Code(c) + rest) == [c] + Decoded(rest)
  {
    var s := Code(c) + rest;
    if Plain(c) {
      assert s[1..] == rest;
    } else {
      assert s[3..] == rest;
      assert Escape(s) && HexByte(s[1], s[2]) == c / 16 * 16 + c % 16;
    }
  }

  /** Decoding undoes encoding, of every byte sequence. */
  lemma {:induction false} RoundTrip(s: seq<Byte>)
    ensures Decoded(Encoded(s)) == s
  {
    if s != [] {
      RoundTrip(s[1..]);
      DecodeCode(s[0], Encoded(s[1..]));
      assert s == [s[0]] + s[1..];
    }
  }

  /** A digit stands for its position among the digits, in either case. */
  lemma HexitIsPosition(k: nat)
    requires k < 16
    ensures var l, u := "0123456789abcdef"[k] as int, "0123456789ABCDEF"[k] as int;
      0 <= l < 256 && 0 <= u < 256 && IsXdigit(l) && IsXdigit(u) && Hexit(l) == k && Hexit(u) == k
  {
  }

  /** And there are no other digits. */
  lemma XdigitIff(c: Byte)
    ensures IsXdigit(c) <==>
      exists k :: 0 <= k < 16 && (c == "0123456789abcdef"[k] as int || c == "0123456789ABCDEF"[k] as int)
    ensures 65 <= c <= 70 ==> Hexit(c) == Hexit(c + 32)
  {
    if IsXdigit(c) {
      HexitIsPosition(Hexit(c));
      assert c == "0123456789abcdef"[Hexit(c)] as int || c == "0123456789ABCDEF"[Hexit(c)] as int;
    }
  }

  /** A digit for a value, in lower or upper case. */
  predicate Spells(d: Byte, v: nat)
    requires v < 16
  {
    d == "0123456789abcdef"[v] as int || d == "0123456789ABCDEF"[v] as int
  }

  /** A text in which each character stands for itself, unless it is "%", or is escaped, in any mix of cases. */
  predicate Spelling(t: seq<Byte>, s: seq<Byte>) {
    if s == [] then t == []
    else
      (t != [] && t[0] == s[0] && s[0] != '%' as int && Spelling(t[1..], s[1..]))
      || (|t| >= 3 && t[0] == '%' as int && Spells(t[1], s[0] / 16) && Spells(t[2], s[0] % 16)
        && Spelling(t[3..], s[1..]))
  }

  /** Decoding reads every such text, whoever encoded it. */
  lemma {:induction false} AnySpelling(t: seq<Byte>, s: seq<Byte>)
    requires Spelling(t, s)
    ensures Decoded(t) == s
  {
    if s != [] {
      if t[0] == s[0] && s[0] != '%' as int && Spelling(t[1..], s[1..]) {
        AnySpelling(t[1..], s[1..]);
      } else {
        HexitIsPosition(s[0] / 16);
        HexitIsPosition(s[0] % 16);
        AnySpelling(t[3..], s[1..]);
      }
      assert s == [s[0]] + s[1..];
    }
  }

  /** The encoder's own text is one of them. */
  lemma {:induction false} EncodedSpells(s: seq<Byte>)
    ensures Spelling(Encoded(s), s)
  {
    if s != [] {
      var c, rest := s[0], Encoded(s[1..]);
      EncodedSpells(s[1..]);
      if Plain(c) {
        assert Encoded(s)[1..] == rest;
      } else {
        HexitIsPosition(c / 16);
        HexitIsPosition(c % 16);
        assert Encoded(s)[3..] == rest;
      }
    }
  }

  lemma {:induction false} EncodedAppend(s: seq<Byte>, c: Byte)
    ensures Encoded(s + [c]) == Encoded(s) + Code(c)
  {
    if s == [] {
      assert s + [c] == [c] && [c][1..] == [];
    } else {
      assert (s + [c])[1..] == s[1..] + [c];
      EncodedAppend(s[1..], c);
      assert Code(s[0]) + (Encoded(s[1..]) + Code(c)) == Code(s[0]) + Encoded(s[1..]) + Code(c);
    }
  }

  lemma EncodedNext(s: seq<Byte>, n: nat)
    requires n < |s|
    ensures Encoded(s[..n + 1]) == Encoded(s[..n]) + Code(s[n])
  {
    assert s[..n + 1] == s[..n] + [s[n]];
    EncodedAppend(s[..n], s[n]);
  }

  lemma {:induction false} EncodedGrows(s: seq<Byte>, m: nat, n: nat)
    requires m <= n <= |s|
    ensures |Encoded(s[..m])| + (n - m) <= |Encoded(s[..n])|
    decreases n - m
  {
    if m < n {
      EncodedNext(s, m);
      EncodedGrows(s, m + 1, n);
    }
  }

  /** The characters that stand for themselves, one by one. */
  predicate Safe(ch: char) {
    'a' <= ch <= 'z' || 'A' <= ch <= 'Z' || '0' <= ch <= '9'
    || ch == '/' || ch == '_' || ch == '.' || ch == '-' || ch == '~'
  }

  /** Encoded text is made of those and "%", and every one of them stands for itself. */
  lemma {:induction false} OnlySafe(s: seq<Byte>)
    ensures forall k :: 0 <= k < |Encoded(s)| ==> Safe(Encoded(s)[k] as char) || Encoded(s)[k] as char == '%'
    ensures 0 !in Encoded(s)
    ensures (forall k :: 0 <= k < |s| ==> Safe(s[k] as char)) ==> Encoded(s) == s
  {
    if s != [] {
      OnlySafe(s[1..]);
      if forall k :: 0 <= k < |s| ==> Safe(s[k] as char) {
        assert forall k :: 0 <= k < |s[1..]| ==> s[1..][k] == s[k + 1];
        assert s == [s[0]] + s[1..];
      }
    }
  }

  lemma {:induction false} StringPrefix(b: seq<Byte>)
    ensures |CString(b)| <= |b| && CString(b) == b[..|CString(b)|] && 0 !in CString(b)
    ensures |CString(b)| < |b| ==> b[|CString(b)|] == 0
  {
    if b != [] && b[0] != 0 {
      StringPrefix(b[1..]);
    }
  }

  lemma {:induction false} StringIs(b: seq<Byte>, n: nat)
    requires n < |b| && b[n] == 0 && 0 !in b[..n]
    ensures CString(b) == b[..n]
  {
    if n > 0 {
      assert b[0] == b[..n][0];
      assert b[1..][..n - 1] == b[..n][1..];
      StringIs(b[1..], n - 1);
      assert b[..n] == [b[0]] + b[1..n];
    }
  }

  lemma StringEnds(b: seq<Byte>)
    requires 0 in b
    ensures |CString(b)| < |b| && b[|CString(b)|] == 0
    ensures forall k :: 0 <= k < |CString(b)| ==> b[k] == CString(b)[k] != 0
  {
    StringPrefix(b);
    assert CString(b) == b ==> 0 !in b;
  }

  // ---------- strencode ----------

  /** The characters strencode takes: the first n, where it stops as soon as fewer than five places are left. */
  ghost predicate Takes(s: seq<Byte>, tosize: nat, n: nat) {
    n <= |s|
    && (n == |s| || |Encoded(s[..n])| + 4 >= tosize)
    && (n == 0 || |Encoded(s[..n - 1])| + 4 < tosize)
  }

  /** The test of a caller: everything is taken exactly when five places are left before the last character. */
  ghost predicate Suffices(s: seq<Byte>, tosize: nat) {
    s == [] || |Encoded(s[..|s| - 1])| + 4 < tosize
  }

  lemma TakesIsUnique(s: seq<Byte>, tosize: nat, m: nat, n: nat)
    requires Takes(s, tosize, m) && Takes(s, tosize, n)
    ensures m == n
  {
    if m < n { EncodedGrows(s, m, n - 1); }
    if n < m { EncodedGrows(s, n, m - 1); }
  }

  lemma TakesAllIff(s: seq<Byte>, tosize: nat, n: nat)
    requires Takes(s, tosize, n)
    ensures n == |s| <==> Suffices(s, tosize)
  {
    if Suffices(s, tosize) {
      TakesIsUnique(s, tosize, n, |s|);
    }
  }

  /**
    Leaves the encoding of the characters it takes, and writes below tosize only, except that an empty buffer still
    gets its NUL.
   */
  method StrEncode(to: array<Byte>, tosize: nat, from: seq<Byte>) returns (n: nat)
    requires 0 in from && tosize <= to.Length && 0 < to.Length
    modifies to
    ensures var s := CString(from);
      Takes(s, tosize, n) && n <= |s| && CString(to[..]) == Encoded(s[..n])
      && (n < |s| ==> |Encoded(s[..n])| + 4 >= tosize) && (n > 0 ==> |Encoded(s[..n - 1])| + 4 < tosize)
    ensures 0 < tosize ==> to[tosize..] == old(to[tosize..])
    ensures tosize == 0 ==> to[0] == 0 && to[1..] == old(to[1..])
  {
    var tolen: nat;
    n, tolen := EncodeLoop(to, tosize, from, CString(from));
    to[tolen] := 0;
    OnlySafe(CString(from)[..n]);
    assert to[..][..tolen] == Encoded(CString(from)[..n]);
    StringIs(to[..], tolen);
  }

  /** The loop, for the string s that the buffer holds. */
  method EncodeLoop(to: array<Byte>, tosize: nat, from: seq<Byte>, ghost s: seq<Byte>) returns (n: nat, tolen: nat)
    requires 0 in from && s == CString(from) && tosize <= to.Length && 0 < to.Length
    modifies to
    ensures Takes(s, tosize, n) && tolen < to.Length && to[..tolen] == Encoded(s[..n])
    ensures if tosize == 0 then tolen == 0 else tolen < tosize
    ensures forall k :: tosize <= k < to.Length ==> to[k] == old(to[k])
  {
    StringEnds(from);
    n, tolen := 0, 0;
    while from[n] != 0 && tolen + 4 < tosize
      invariant n <= |s| && (n == 0 || |Encoded(s[..n - 1])| + 4 < tosize)
      invariant tolen + 1 < tosize || tolen == n == 0
      invariant tolen <= to.Length && to[..tolen] == Encoded(s[..n])
      invariant forall k :: tosize <= k < to.Length ==> to[k] == old(to[k])
      decreases |s| - n
    {
      EncodedNext(s, n);
      tolen := PutCode(to, tolen, from[n]);
      n := n + 1;
    }
  }

  /** One character, or the three of its escape and the NUL of sprintf behind them. */
  method PutCode(to: array<Byte>, tolen: nat, c: Byte) returns (t: nat)
    requires tolen + 4 < to.Length
    modifies to
    ensures t == tolen + |Code(c)| && to[..t] == old(to[..tolen]) + Code(c)
    ensures forall k :: tolen + 4 <= k < to.Length ==> to[k] == old(to[k])
  {
    if Plain(c) {
      to[tolen] := c;
      t := tolen + 1;
    } else {
      to[tolen] := PERCENT;
      to[tolen + 1] := HexDigit(c / 16);
      to[tolen + 2] := HexDigit(c % 16);
      to[tolen + 3] := 0;
      t := tolen + 3;
    }
  }

  // ---------- strdecode ----------

  lemma {:induction false} DecodedShrinks(s: seq<Byte>)
    ensures |Decoded(s)| <= |s|
  {
    if s != [] {
      if Escape(s) { DecodedShrinks(s[3..]); } else { DecodedShrinks(s[1..]); }
    }
  }

  /**
    Leaves what the string means, followed by NUL, and touches nothing else. The two buffers may be one: the write
    position never passes the read position.
   */
  method StrDecode(to: array<Byte>, from: array<Byte>) returns (m: nat)
    requires 0 in from[..] && |Decoded(CString(from[..]))| < to.Length
    modifies to
    ensures m == |Decoded(old(CString(from[..])))| && to[..m] == Decoded(old(CString(from[..])))
    ensures to[m] == 0 && to[m + 1..] == old(to[m + 1..])
  {
    ghost var s := CString(from[..]);
    StringEnds(from[..]);
    m := DecodeLoop(to, from, s);
    to[m] := 0;
  }

  /** The loop, for the string s in the buffer. */
  method DecodeLoop(to: array<Byte>, from: array<Byte>, ghost s: seq<Byte>) returns (m: nat)
    requires |s| < from.Length && from[|s|] == 0 && |Decoded(s)| < to.Length
    requires forall k :: 0 <= k < |s| ==> from[k] == s[k] != 0
    modifies to
    ensures m == |Decoded(s)| && to[..m] == Decoded(s)
    ensures forall k :: m <= k < to.Length ==> to[k] == old(to[k])
  {
    ghost var all, rest := Decoded(s), Decoded(s);
    assert s[0..] == s;
    m := 0;
    var r: nat := 0;
    while from[r] != 0
      invariant m <= r <= |s| && from[|s|] == 0 && forall k :: r <= k < |s| ==> from[k] == s[k] != 0
      invariant m + |rest| == |all| && rest == Decoded(s[r..]) == all[m..]
      invariant to[..m] == all[..m]
      invariant forall k :: m <= k < to.Length ==> to[k] == old(to[k])
      decreases |s| - r
    {
      var c, q := ReadOne(from, r, s);
      rest := rest[1..];
      to[m] := c;
      m, r := m + 1, q;
    }
  }

  /** The byte one turn of the loop writes, and where it reads on. */
  method ReadOne(from: array<Byte>, r: nat, ghost s: seq<Byte>) returns (c: Byte, q: nat)
    requires r < |s| < from.Length && from[|s|] == 0 && forall k :: r <= k < |s| ==> from[k] == s[k]
    ensures r < q <= |s| && Decoded(s[r..]) == [c] + Decoded(s[q..])
  {
    DecodedAt(s, r);
    q := r;
    if from[r] == PERCENT && IsXdigit(from[r + 1]) && IsXdigit(from[r + 2]) {
      c := HexByte(from[r + 1], from[r + 2]);
      q := r + 2;
    } else {
      c := from[r];
    }
    q := q + 1;
  }

  /** The first character or escape of what is left. */
  lemma DecodedAt(s: seq<Byte>, r: nat)
    requires r < |s|
    ensures Escape(s[r..]) <==> r + 2 < |s| && s[r] == PERCENT && IsXdigit(s[r + 1]) && IsXdigit(s[r + 2])
    ensures Escape(s[r..]) ==> Decoded(s[r..]) == [HexByte(s[r + 1], s[r + 2])] + Decoded(s[r + 3..])
    ensures !Escape(s[r..]) ==> Decoded(s[r..]) == [s[r]] + Decoded(s[r + 1..])
  {
    if Escape(s[r..]) { assert s[r..][3..] == s[r + 3..]; } else { assert s[r..][1..] == s[r + 1..]; }
  }

  /** Decoding a path onto itself always has room: a string never means more bytes than it has. */
  method DecodeInPlace(buf: array<Byte>) returns (m: nat)
    requires 0 in buf[..]
    modifies buf
    ensures m < buf.Length && buf[..m] == Decoded(old(CString(buf[..])))
    ensures buf[m] == 0 && buf[m + 1..] == old(buf[m + 1..])
  {
    StringEnds(buf[..]);
    DecodedShrinks(CString(buf[..]));
    m := StrDecode(buf, buf);
  }

  /** Encoding and then decoding in place gives back the characters taken, all of them when the buffer suffices. */
  method ThereAndBack(from: seq<Byte>, buffer: array<Byte>) returns (n: nat)
    requires 0 in from && 0 < buffer.Length
    modifies buffer
    ensures n <= |CString(from)| && CString(buffer[..]) == CString(from)[..n]
    ensures var s := CString(from);
      n == |s| <==> s == [] || |Encoded(s[..|s| - 1])| + 4 < buffer.Length
  {
    n := StrEncode(buffer, buffer.Length, from);
    TakesAllIff(CString(from), buffer.Length, n);
    EncodeRoom(CString(from), buffer.Length, n);
    HoldsString(buffer, Encoded(CString(from)[..n]));
    var m := DecodeInPlace(buffer);
    RoundTrip(CString(from)[..n]);
    StringPrefix(from);
    StringIs(buffer[..], m);
  }

  /** A buffer that holds a shorter string than itself has a NUL. */
  lemma HoldsString(buffer: array<Byte>, s: seq<Byte>)
    requires CString(buffer[..]) == s && |s| < buffer.Length
    ensures 0 in buffer[..]
  {
    StringPrefix(buffer[..]);
    assert buffer[..][|s|] == 0;
  }

  /** The encoding of what is taken, and its NUL, fit. */
  lemma EncodeRoom(s: seq<Byte>, tosize: nat, n: nat)
    requires Takes(s, tosize, n) && tosize > 0
    ensures |Encoded(s[..n])| < tosize
  {
    if n > 0 { EncodedNext(s, n - 1); }
  }
}
