/**
  The shell-style file name matcher: "?" one character, "*" any run without slashes, "**" any run, and
  alternatives separated by "|".
 */
module Match {

  /** A C string: its NUL is implicit, so no character of it is one. */
  ghost predicate IsC(s: string) { '\0' !in s }

  // ---------- what a pattern means ----------

  datatype Token = One | Run | AnyRun | Lit(c: char)

  /** Stars pair up from the left, so "***" is "**" followed by "*". */
  function Tokens(p: string): seq<Token> {
    if p == "" then []
    else if p[0] == '?' then [One] + Tokens(p[1..])
    else if p[0] == '*' && |p| >= 2 && p[1] == '*' then [AnyRun] + Tokens(p[2..])
    else if p[0] == '*' then [Run] + Tokens(p[1..])
    else [Lit(p[0])] + Tokens(p[1..])
  }

  predicate Accepts(t: Token, piece: string) {
    match t
    case One => |piece| == 1
    case Run => '/' !in piece
    case AnyRun => true
    case Lit(c) => piece == [c]
  }

  function Join(pieces: seq<string>): string {
    if pieces == [] then "" else pieces[0] + Join(pieces[1..])
  }

  /** The string falls into pieces, one accepted by each token in turn. */
  ghost predicate FitsBy(ts: seq<Token>, s: string, pieces: seq<string>) {
    |pieces| == |ts| && Join(pieces) == s && forall i :: 0 <= i < |ts| ==> Accepts(ts[i], pieces[i])
  }

  ghost predicate Fits(ts: seq<Token>, s: string) { exists pieces :: FitsBy(ts, s, pieces) }

  /** The alternatives of a pattern. */
  function Alternatives(p: string): (r: seq<string>)
    ensures |r| >= 1
  {
    if p == "" then [""]
    else if p[0] == '|' then [""] + Alternatives(p[1..])
    else [[p[0]] + Alternatives(p[1..])[0]] + Alternatives(p[1..])[1..]
  }

  ghost predicate Matches(p: string, s: string) {
    exists k :: 0 <= k < |Alternatives(p)| && Fits(Tokens(Alternatives(p)[k]), s)
  }

  // ---------- how pieces come off the front ----------

  lemma FitsNil(s: string)
    ensures Fits([], s) <==> s == ""
  {
    if s == "" { assert FitsBy([], s, []); }
  }

  lemma FitsCons(t: Token, ts: seq<Token>, s: string, i: nat)
    requires i <= |s| && Accepts(t, s[..i]) && Fits(ts, s[i..])
    ensures Fits([t] + ts, s)
  {
    var pieces :| FitsBy(ts, s[i..], pieces);
    var all := [s[..i]] + pieces;
    assert all[1..] == pieces;
    assert FitsBy([t] + ts, s, all);
  }

  lemma FitsHead(t: Token, ts: seq<Token>, s: string) returns (i: nat)
    requires Fits([t] + ts, s)
    ensures i <= |s| && Accepts(t, s[..i]) && Fits(ts, s[i..])
  {
    var pieces :| FitsBy([t] + ts, s, pieces);
    i := |pieces[0]|;
    assert s == pieces[0] + Join(pieces[1..]);
    assert FitsBy(ts, s[i..], pieces[1..]) by {
      forall k | 0 <= k < |ts| ensures Accepts(ts[k], pieces[1..][k]) {
        assert ([t] + ts)[k + 1] == ts[k];
      }
    }
    assert s[..i] == pieces[0] && Accepts(([t] + ts)[0], pieces[0]);
  }

  /** A token that takes exactly one character. */
  lemma FitsOne(t: Token, ts: seq<Token>, s: string)
    requires t.One? || t.Lit?
    ensures Fits([t] + ts, s) <==> s != "" && Accepts(t, s[..1]) && Fits(ts, s[1..])
  {
    if Fits([t] + ts, s) {
      var i := FitsHead(t, ts, s);
    }
    if s != "" && Accepts(t, s[..1]) && Fits(ts, s[1..]) { FitsCons(t, ts, s, 1); }
  }

  lemma PrefixSlash(s: string, n: nat)
    ensures forall i: nat :: n < i <= |s| && s[n] == '/' ==> '/' in s[..i]
  {
    forall i: nat | n < i <= |s| && s[n] == '/' ensures '/' in s[..i] { assert s[..i][n] == '/'; }
  }

  /** A run of length up to the longest allowed one. */
  lemma FitsRun(t: Token, ts: seq<Token>, s: string, longest: nat)
    requires longest <= |s|
    requires (t.AnyRun? && longest == |s|)
             || (t.Run? && '/' !in s[..longest] && (longest < |s| ==> s[longest] == '/'))
    ensures Fits([t] + ts, s) <==> exists i: nat :: i <= longest && Fits(ts, s[i..])
  {
    PrefixSlash(s, longest);
    if Fits([t] + ts, s) {
      var i := FitsHead(t, ts, s);
    }
    if i: nat :| i <= longest && Fits(ts, s[i..]) {
      assert forall k :: 0 <= k < i ==> s[..i][k] == s[..longest][k];
      FitsCons(t, ts, s, i);
    }
  }

  // ---------- the matcher ----------

  /** strcspn(string, "/"): how many characters come before the first slash or the end. */
  method SlashFree(s: string) returns (n: nat)
    ensures n <= |s| && '/' !in s[..n] && (n < |s| ==> s[n] == '/')
  {
    n := 0;
    while n < |s| && s[n] != '/'
      invariant n <= |s| && '/' !in s[..n]
    {
      n := n + 1;
    }
  }

  /** The character a C pointer sees: the terminating NUL past the end. */
  function At(s: string, i: nat): char { if i < |s| then s[i] else '\0' }

  /** A pattern character other than a star takes one character of the string. */
  lemma CharStep(text: string, p: nat, len: nat, str: string, q: nat)
    requires p < len <= |text| && q <= |str| && text[p] != '*'
    ensures Fits(Tokens(text[p..len]), str[q..])
            <==> q < |str| && (text[p] == '?' || text[p] == str[q]) && Fits(Tokens(text[p + 1..len]), str[q + 1..])
  {
    assert text[p..len][1..] == text[p + 1..len];
    if q < |str| { assert str[q..][1..] == str[q + 1..] && str[q..][..1] == [str[q]]; }
    FitsOne(if text[p] == '?' then One else Lit(text[p]), Tokens(text[p + 1..len]), str[q..]);
  }

  /** A star at p: what follows it starts at rest, and the run may be at most longest characters. */
  lemma StarStep(text: string, p: nat, len: nat, str: string, q: nat, rest: nat, longest: nat)
    requires p < len <= |text| && q + longest <= |str| && text[p] == '*'
    requires rest == if p + 1 < len && text[p + 1] == '*' then p + 2 else p + 1
    requires if rest == p + 2 then longest == |str| - q
             else '/' !in str[q..][..longest] && (q + longest < |str| ==> str[q + longest] == '/')
    ensures Fits(Tokens(text[p..len]), str[q..])
            <==> exists i: nat :: i <= longest && Fits(Tokens(text[rest..len]), str[q..][i..])
  {
    var t, pattern := if rest == p + 2 then AnyRun else Run, text[p..len];
    assert pattern[0] == '*' && (|pattern| >= 2 ==> pattern[1] == text[p + 1]);
    assert pattern[rest - p..] == text[rest..len];
    assert Tokens(pattern) == [t] + Tokens(text[rest..len]);
    FitsRun(t, Tokens(text[rest..len]), str[q..], longest);
  }

  /**
    match_one: the pattern is the first len characters of text, which a "|" or the end of the string follows;
    the search tries the longest run first.
   */
  method MatchOne(text: string, len: nat, str: string) returns (yes: bool)
    requires IsC(text) && IsC(str) && len <= |text| && (len < |text| ==> text[len] == '|')
    ensures yes <==> Fits(Tokens(text[..len]), str)
    decreases len, 0
  {
    var p, q := 0, 0;
    ghost var fits := Fits(Tokens(text[..len]), str);
    assert text[0..len] == text[..len] && str[0..] == str;
    while p < len
      invariant p <= len && q <= |str| && (fits <==> Fits(Tokens(text[p..len]), str[q..]))
      decreases len - p
    {
      if text[p] == '?' && At(str, q) != '\0' {
        CharStep(text, p, len, str, q);
        p, q := p + 1, q + 1;
        continue;
      }
      if text[p] == '*' {
        var rest, longest := RunAt(text, p, len, str, q);
        StarStep(text, p, len, str, q, rest, longest);
        assert text[rest..][..len - rest] == text[rest..len];
        yes := MatchRun(text[rest..], len - rest, str[q..], longest);
        return;
      }
      CharStep(text, p, len, str, q);
      if text[p] != At(str, q) { return false; }
      p, q := p + 1, q + 1;
    }
    FitsNil(str[q..]);
    return q == |str|;
  }

  /** Where the pattern goes on behind a star or two, and how long the run may be. */
  method RunAt(text: string, p: nat, len: nat, str: string, q: nat) returns (rest: nat, longest: nat)
    requires p < len <= |text| && q <= |str| && (len < |text| ==> text[len] == '|')
    ensures rest == if p + 1 < len && text[p + 1] == '*' then p + 2 else p + 1
    ensures rest <= len && q + longest <= |str|
    ensures if rest == p + 2 then longest == |str| - q
      else '/' !in str[q..][..longest] && (q + longest < |str| ==> str[q + longest] == '/')
  {
    rest := p + 1;
    if At(text, rest) == '*' {
      rest := rest + 1;
      longest := |str| - q;
    } else {
      longest := SlashFree(str[q..]);
    }
  }

  /** The search of match_one over the lengths of a run, from the longest down. */
  method MatchRun(text: string, len: nat, str: string, longest: nat) returns (yes: bool)
    requires IsC(text) && IsC(str) && len <= |text| && (len < |text| ==> text[len] == '|') && longest <= |str|
    ensures yes <==> exists i: nat :: i <= longest && Fits(Tokens(text[..len]), str[i..])
    decreases len, 1
  {
    var i := longest + 1;
    while i > 0
      invariant 0 <= i <= longest + 1
      invariant forall k: nat :: i <= k <= longest ==> !Fits(Tokens(text[..len]), str[k..])
    {
      i := i - 1;
      var here := MatchOne(text, len, str[i..]);
      if here { return true; }
    }
    return false;
  }

  // ---------- alternatives ----------

  lemma {:induction false} AlternativesSplit(p: string, n: nat)
    requires n <= |p| && '|' !in p[..n]
    ensures n < |p| && p[n] == '|' ==> Alternatives(p) == [p[..n]] + Alternatives(p[n + 1..])
    ensures n == |p| ==> Alternatives(p) == [p]
  {
    if n > 0 {
      assert p[1..][..n - 1] == p[..n][1..];
      assert p[0] == p[..n][0];
      AlternativesSplit(p[1..], n - 1);
      if n < |p| {
        assert p[..n] == [p[0]] + p[1..][..n - 1];
        assert p[1..][n..] == p[n + 1..];
      } else {
        assert p == [p[0]] + p[1..];
      }
    } else if p != "" {
      assert p[..0] == "";
    }
  }

  /** The alternative that ends at the next bar, behind those already tried. */
  lemma NextAlternative(p: string, tried: seq<string>, rest: string, bar: nat)
    requires Alternatives(p) == tried + Alternatives(rest)
    requires bar <= |rest| && '|' !in rest[..bar] && (bar < |rest| ==> rest[bar] == '|')
    ensures |Alternatives(p)| > |tried| && Alternatives(p)[|tried|] == rest[..bar]
    ensures bar == |rest| ==> |Alternatives(p)| == |tried| + 1
    ensures bar < |rest| ==> Alternatives(p) == (tried + [rest[..bar]]) + Alternatives(rest[bar + 1..])
  {
    AlternativesSplit(rest, bar);
    if bar < |rest| {
      Regroup(tried, rest[..bar], Alternatives(rest[bar + 1..]));
    } else {
      assert rest[..bar] == rest;
    }
  }

  lemma Regroup(a: seq<string>, x: string, b: seq<string>)
    ensures a + ([x] + b) == (a + [x]) + b && (a + ([x] + b))[|a|] == x
  {
  }

  lemma NoneFits(p: string, tried: seq<string>, s: string)
    requires |Alternatives(p)| == |tried| + 1 && tried <= Alternatives(p)
    requires !Fits(Tokens(Alternatives(p)[|tried|]), s)
    requires forall k :: 0 <= k < |tried| ==> !Fits(Tokens(tried[k]), s)
    ensures !Matches(p, s)
  {
    forall k | 0 <= k < |Alternatives(p)| ensures !Fits(Tokens(Alternatives(p)[k]), s) {
      if k < |tried| { assert Alternatives(p)[k] == tried[k]; }
    }
  }

  /** The scan for the end of an alternative. */
  method FindBar(rest: string) returns (bar: nat)
    ensures bar <= |rest| && '|' !in rest[..bar] && (bar < |rest| ==> rest[bar] == '|')
  {
    bar := 0;
    while bar < |rest| && rest[bar] != '|'
      invariant bar <= |rest| && '|' !in rest[..bar]
    {
      bar := bar + 1;
    }
  }

  /** match: the first alternative that fits decides. */
  method MatchPattern(pattern: string, str: string) returns (yes: bool)
    requires IsC(pattern) && IsC(str)
    ensures yes <==> Matches(pattern, str)
  {
    var rest := pattern;
    ghost var tried: seq<string> := [];
    while true
      invariant IsC(rest) && Alternatives(pattern) == tried + Alternatives(rest)
      invariant forall k :: 0 <= k < |tried| ==> !Fits(Tokens(tried[k]), str)
      decreases |rest|
    {
      var bar := FindBar(rest);
      NextAlternative(pattern, tried, rest, bar);
      var here := MatchOne(rest, bar, str);
      if here {
        assert Fits(Tokens(Alternatives(pattern)[|tried|]), str);
        return true;
      }
      if bar == |rest| {
        NoneFits(pattern, tried, str);
        return false;
      }
      tried := tried + [rest[..bar]];
      rest := rest[bar + 1..];
    }
  }

  // ---------- the meaning by its laws ----------

  /** A pattern character that is no wildcard stands for itself, and "?" for any one. */
  lemma CharLaw(c: char, p: string, s: string)
    requires c != '*'
    ensures Fits(Tokens([c] + p), s) <==> s != "" && (c == '?' || s[0] == c) && Fits(Tokens(p), s[1..])
  {
    assert ([c] + p)[1..] == p;
    FitsOne(if c == '?' then One else Lit(c), Tokens(p), s);
    if s != "" { assert s[..1] == [s[0]]; }
  }

  /** "**" takes any part of the string. */
  lemma AnyRunLaw(p: string, s: string)
    ensures Fits(Tokens("**" + p), s) <==> exists i: nat :: i <= |s| && Fits(Tokens(p), s[i..])
  {
    assert ("**" + p)[2..] == p;
    FitsRun(AnyRun, Tokens(p), s, |s|);
  }

  /** "*" takes any part without a slash. */
  lemma RunLaw(p: string, s: string)
    requires p == "" || p[0] != '*'
    ensures Fits(Tokens("*" + p), s) <==> exists i: nat :: i <= |s| && '/' !in s[..i] && Fits(Tokens(p), s[i..])
  {
    assert ("*" + p)[1..] == p;
    if Fits(Tokens("*" + p), s) {
      var i := FitsHead(Run, Tokens(p), s);
    }
    if i: nat :| i <= |s| && '/' !in s[..i] && Fits(Tokens(p), s[i..]) { FitsCons(Run, Tokens(p), s, i); }
  }

  /** The empty pattern takes the empty string only. */
  lemma EmptyLaw(s: string)
    ensures Fits(Tokens(""), s) <==> s == ""
  {
    FitsNil(s);
  }

  /** "|" is "or". */
  lemma BarLaw(a: string, b: string, s: string)
    requires '|' !in a
    ensures Matches(a, s) <==> Fits(Tokens(a), s)
    ensures Matches(a + "|" + b, s) <==> Matches(a, s) || Matches(b, s)
  {
    var p := a + "|" + b;
    AlternativesSplit(a, |a|);
    assert a[..|a|] == a && p[..|a|] == a && p[|a|] == '|' && p[|a| + 1..] == b;
    AlternativesSplit(p, |a|);
    assert Alternatives(a) == [a];
    OneOrRest(p, a, Alternatives(b), s);
    if Matches(a, s) { assert Fits(Tokens([a][0]), s); }
    if Fits(Tokens(a), s) { assert Fits(Tokens(Alternatives(a)[0]), s); }
  }

  lemma OneOrRest(p: string, a: string, rest: seq<string>, s: string)
    requires Alternatives(p) == [a] + rest
    ensures Matches(p, s) <==>
      Fits(Tokens(a), s) || exists k :: 0 <= k < |rest| && Fits(Tokens(rest[k]), s)
  {
    var all := Alternatives(p);
    assert all[0] == a && forall k :: 0 <= k < |rest| ==> all[k + 1] == rest[k];
    if Fits(Tokens(a), s) {
      assert Fits(Tokens(all[0]), s);
    } else if Matches(p, s) {
      var k :| 0 <= k < |all| && Fits(Tokens(all[k]), s);
      assert all[k] == rest[k - 1];
    } else if k :| 0 <= k < |rest| && Fits(Tokens(rest[k]), s) {
      assert all[k + 1] == rest[k];
    }
  }

  /** A pattern without wildcards matches itself and nothing else. */
  lemma {:induction false} PlainLaw(p: string, s: string)
    requires '?' !in p && '*' !in p
    ensures Fits(Tokens(p), s) <==> s == p
  {
    if p == "" {
      EmptyLaw(s);
    } else {
      assert p == [p[0]] + p[1..];
      CharLaw(p[0], p[1..], s);
      if s != "" {
        PlainLaw(p[1..], s[1..]);
        assert s == [s[0]] + s[1..];
      }
    }
  }
}
