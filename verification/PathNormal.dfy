/**
  In-place path normalisation of the HTTP server (de_dotdot) and the file name check after it.
 */
module PathNormal {

  import opened PathMeaning

  import opened PathResult

  // ---------- the string in its buffer ----------

  /** The array holds the C string s. */
  ghost predicate Holds(a: array<char>, s: string)
    reads a
  {
    |s| < a.Length && a[..|s|] == s && a[|s|] == '\0' && '\0' !in s
  }

  /** strcpy(a + dst, a + src) moving the rest of the string down. */
  method CopyDown(a: array<char>, dst: nat, src: nat, ghost s: string)
    requires Holds(a, s) && dst <= src <= |s|
    modifies a
    ensures Holds(a, Cut(s, dst, src))
    ensures a[|s| + 1..] == old(a[|s| + 1..])
  {
    var d, c := dst, src;
    while a[c] != '\0'
      invariant src <= c <= |s| && d == dst + (c - src)
      invariant forall i :: 0 <= i < d ==> a[i] == Cut(s, dst, src)[i]
      invariant forall i :: c <= i < a.Length ==> a[i] == old(a[i])
      decreases |s| - c
    {
      a[d] := a[c];
      d, c := d + 1, c + 1;
    }
    a[d] := '\0';
    assert a[..d] == Cut(s, dst, src);
  }

  predicate Occurs(s: string, pat: string, i: int) { 0 <= i && i + |pat| <= |s| && s[i..i + |pat|] == pat }

  lemma OccursIs(s: string, i: int)
    ensures Occurs(s, "//", i) <==> DoubleSlash(s, i)
    ensures Occurs(s, "/./", i) <==> DotSegment(s, i)
    ensures Occurs(s, "/../", i) <==> DotDotSegment(s, i)
    ensures Occurs(s, "./", 0) <==> LeadingDot(s)
    ensures Occurs(s, "../", 0) <==> LeadingDotDot(s)
  {
    if 2 <= |s| { assert s[0..2] == [s[0], s[1]]; }
    if 3 <= |s| { assert s[0..3] == [s[0], s[1], s[2]]; }
    if 0 <= i && i + 2 <= |s| { assert s[i..i + 2] == [s[i], s[i + 1]]; }
    if 0 <= i && i + 3 <= |s| { assert s[i..i + 3] == [s[i], s[i + 1], s[i + 2]]; }
    if 0 <= i && i + 4 <= |s| { assert s[i..i + 4] == [s[i], s[i + 1], s[i + 2], s[i + 3]]; }
  }

  /** strncmp(a + at, pat, strlen(pat)) == 0: the NUL ends the comparison at the end of the string. */
  method Matches(a: array<char>, at: nat, pat: string, ghost s: string) returns (b: bool)
    requires Holds(a, s) && at <= |s| && '\0' !in pat
    ensures b <==> Occurs(s, pat, at)
  {
    var k := 0;
    while k < |pat|
      invariant k <= |pat| && at + k <= |s| && forall i :: 0 <= i < k ==> s[at + i] == pat[i]
    {
      assert a[at + k] == if at + k < |s| then s[at + k] else '\0' by { assert a[..|s|] == s; }
      if a[at + k] != pat[k] {
        Differs(s, pat, at, k);
        return false;
      }
      k := k + 1;
    }
    assert s[at..at + |pat|] == pat;
    return true;
  }

  /** A place where the string differs from the pattern, or has ended. */
  lemma Differs(s: string, pat: string, at: nat, k: nat)
    requires k < |pat| && at + k <= |s| && (at + k < |s| ==> s[at + k] != pat[k])
    ensures !Occurs(s, pat, at)
  {
    if at + |pat| <= |s| { assert s[at..at + |pat|][k] == s[at + k]; }
  }

  /** strstr: the first occurrence. */
  method Find(a: array<char>, pat: string, ghost s: string) returns (found: bool, cp: nat)
    requires Holds(a, s) && pat != "" && '\0' !in pat
    ensures found ==> Occurs(s, pat, cp) && forall i :: 0 <= i < cp ==> !Occurs(s, pat, i)
    ensures !found ==> forall i :: !Occurs(s, pat, i)
  {
    cp := 0;
    while a[cp] != '\0'
      invariant cp <= |s| && forall i :: 0 <= i < cp ==> !Occurs(s, pat, i)
      decreases |s| - cp
    {
      var here := Matches(a, cp, pat, s);
      if here { return true, cp; }
      cp := cp + 1;
    }
    return false, cp;
  }

  /** Both paths name one location and normalise to one string. */
  predicate Alike(s: string, t: string) { Location(s) == Location(t) && Result(s) == Result(t) }

  /** Cutting "", "." or a leading ".." keeps the result. */
  lemma LeadsNowhere(s: string, p: nat, q: nat)
    requires AtStarts(s, p, q) && p < q && (p == 0 ==> s[0] != '/' && (q < |s| ==> s[q] != '/'))
    requires var c := s[p..q - 1]; c == "" || c == "." || (c == ".." && p == 0)
    ensures Result(Cut(s, p, q)) == Result(s)
  {
    PassOne(At(s, p), s[p..q - 1]);
    LoopKeepsResult(s, p, q);
  }

  /** Where the run of slashes at cp ends. */
  method RunEnd(a: array<char>, cp: nat, ghost s: string) returns (cp2: nat)
    requires Holds(a, s) && DoubleSlash(s, cp)
    ensures cp + 2 <= cp2 <= |s| && forall i :: cp <= i < cp2 ==> s[i] == '/'
    ensures cp2 < |s| ==> s[cp2] != '/'
  {
    cp2 := cp + 2;
    while a[cp2] == '/'
      invariant cp + 2 <= cp2 <= |s| && forall i :: cp <= i < cp2 ==> s[i] == '/'
      decreases |s| - cp2
    {
      cp2 := cp2 + 1;
    }
  }

  /** The first loop: each run of slashes is cut to its first. */
  method CollapseSlashes(a: array<char>, ghost s0: string) returns (ghost s: string)
    requires Holds(a, s0)
    modifies a
    ensures Holds(a, s) && NoDoubleSlash(s) && Alike(s, s0)
  {
    s := s0;
    var found, cp := Find(a, "//", s);
    while found
      invariant Holds(a, s) && Alike(s, s0)
      invariant found ==> Occurs(s, "//", cp)
      invariant !found ==> forall i :: !Occurs(s, "//", i)
      decreases |s|, found
    {
      OccursIs(s, cp);
      var cp2 := RunEnd(a, cp, s);
      SlashRun(s, cp + 1, cp2);
      CopyDown(a, cp + 1, cp2, s);
      s := Cut(s, cp + 1, cp2);
      found, cp := Find(a, "//", s);
    }
    forall i ensures !DoubleSlash(s, i) { OccursIs(s, i); }
  }

  lemma OneSlash(s: string, p: nat)
    requires 1 <= p < |s| && s[p - 1] == '/' && s[p] == '/'
    ensures Alike(Cut(s, p, p + 1), s)
  {
    assert s[p..p] == "";
    GoWord(Before(s, p), "");
    CutKeepsLocation(s, p, p + 1);
    LeadsNowhere(s, p, p + 1);
  }

  lemma CutCut(s: string, p: nat, q: nat)
    requires p < q <= |s|
    ensures Cut(Cut(s, p, p + 1), p, q - 1) == Cut(s, p, q)
  {
  }

  lemma {:induction false} SlashRun(s: string, p: nat, q: nat)
    requires 1 <= p <= q <= |s| && forall i :: p - 1 <= i < q ==> s[i] == '/'
    ensures Alike(Cut(s, p, q), s)
    decreases q - p
  {
    if p < q {
      assert s[p - 1] == '/' && s[p] == '/';
      OneSlash(s, p);
      SlashRun(Cut(s, p, p + 1), p, q - 1);
      CutCut(s, p, q);
    } else {
      assert Cut(s, p, q) == s;
    }
  }

  lemma CutDot(s: string, p: nat)
    requires AtStarts(s, p, p + 2) && s[p] == '.' && (p == 0 && 2 < |s| ==> s[2] != '/')
    ensures Alike(Cut(s, p, p + 2), s)
  {
    assert s[p..p + 1] == ".";
    GoWord(Before(s, p), ".");
    CutKeepsLocation(s, p, p + 2);
    LeadsNowhere(s, p, p + 2);
  }

  lemma CutLeadingDot(s: string)
    requires NoDoubleSlash(s) && LeadingDot(s)
    ensures NoDoubleSlash(Cut(s, 0, 2)) && Alike(Cut(s, 0, 2), s)
  {
    assert !DoubleSlash(s, 1);
    CutDot(s, 0);
    CutKeepsShape(s, 0, 2);
  }

  lemma CutDotSegment(s: string, cp: nat)
    requires NoDoubleSlash(s) && !LeadingDot(s) && DotSegment(s, cp)
    ensures NoDoubleSlash(Cut(s, cp, cp + 2)) && !LeadingDot(Cut(s, cp, cp + 2))
    ensures Alike(Cut(s, cp, cp + 2), s)
  {
    DotWithSlash(s, cp);
    CutDot(s, cp + 1);
    CutKeepsShape(s, cp + 1, cp + 3);
  }

  /** "/." may as well be cut as "./". */
  lemma DotWithSlash(s: string, cp: nat)
    requires DotSegment(s, cp)
    ensures Cut(s, cp, cp + 2) == Cut(s, cp + 1, cp + 3)
  {
  }

  /** The next two loops: "." components go, at the front and between slashes. */
  method RemoveDots(a: array<char>, ghost s0: string) returns (ghost s: string)
    requires Holds(a, s0) && NoDoubleSlash(s0)
    modifies a
    ensures Holds(a, s) && NoDots(s) && Alike(s, s0)
  {
    s := s0;
    var lead := Matches(a, 0, "./", s);
    OccursIs(s, 0);
    while lead
      invariant Holds(a, s) && NoDoubleSlash(s) && Alike(s, s0)
      invariant lead <==> LeadingDot(s)
      decreases |s|
    {
      CutLeadingDot(s);
      CopyDown(a, 0, 2, s);
      s := Cut(s, 0, 2);
      lead := Matches(a, 0, "./", s);
      OccursIs(s, 0);
    }
    var found, cp := Find(a, "/./", s);
    OccursIs(s, cp);
    while found
      invariant Holds(a, s) && NoDoubleSlash(s) && !LeadingDot(s) && Alike(s, s0)
      invariant found ==> DotSegment(s, cp)
      invariant !found ==> forall i :: !Occurs(s, "/./", i)
      decreases |s|, found
    {
      CutDotSegment(s, cp);
      CopyDown(a, cp, cp + 2, s);
      s := Cut(s, cp, cp + 2);
      found, cp := Find(a, "/./", s);
      OccursIs(s, cp);
    }
    forall i ensures !DotSegment(s, i) { OccursIs(s, i); }
  }

  /** Going into a component and up again leads nowhere; at the root so does any component. */
  lemma InAndOut(at: seq<string>, c: string)
    requires '/' !in c && (Plain(c) || at == [])
    ensures Go(at, c + "/" + "..") == at
  {
    GoApp(at, c, "..");
    GoWord(at, c);
    GoWord(Enter(at, c), "..");
  }

  /** The component between position p and the first "/../" is a plain name, if there is one. */
  lemma ComponentBefore(s: string, p: nat, cp: nat)
    requires NoDots(s) && p <= cp && cp + 3 <= |s| && '/' !in s[p..cp] && (p == 0 || s[p - 1] == '/')
    requires s[cp] == '/' && s[cp + 1] == '.' && s[cp + 2] == '.'
    requires !LeadingDotDot(s) && forall i :: 0 <= i < cp ==> !DotDotSegment(s, i)
    ensures Plain(s[p..cp]) || cp == 0
  {
    var c := s[p..cp];
    if |c| >= 1 { assert c[0] == s[p]; }
    if |c| >= 2 { assert c[1] == s[p + 1]; }
    if p > 0 {
      assert !DoubleSlash(s, p - 1) && !DotSegment(s, p - 1);
      if p - 1 < cp { assert !DotDotSegment(s, p - 1); }
    }
  }

  /** Walk back from cp to the start of the component that ends there. */
  method BackUp(a: array<char>, cp: nat, ghost s: string) returns (p: nat)
    requires Holds(a, s) && cp <= |s|
    ensures p <= cp && '/' !in s[p..cp] && (p == 0 || s[p - 1] == '/')
  {
    p := cp;
    while p > 0 && a[p - 1] != '/'
      invariant p <= cp && '/' !in s[p..cp]
    {
      assert s[p - 1..cp] == [s[p - 1]] + s[p..cp];
      p := p - 1;
    }
  }

  lemma SegmentParts(s: string, p: nat, cp: nat)
    requires p <= cp && cp + 3 <= |s| && s[cp] == '/' && s[cp + 1] == '.' && s[cp + 2] == '.'
    ensures s[p..cp + 3] == s[p..cp] + "/" + ".."
  {
    assert s[p..cp + 3] == s[p..cp] + s[cp..cp + 3];
    assert s[cp..cp + 3] == [s[cp], s[cp + 1], s[cp + 2]] == "/" + "..";
  }

  lemma InAndOutLocation(s: string, p: nat, cp: nat)
    requires DotDotSegment(s, cp) && p <= cp && '/' !in s[p..cp] && (p == 0 || s[p - 1] == '/')
    requires Plain(s[p..cp]) || p == 0
    ensures Location(Cut(s, p, cp + 4)) == Location(s)
  {
    InAndOut(Before(s, p), s[p..cp]);
    SegmentParts(s, p, cp);
    CutKeepsLocation(s, p, cp + 4);
  }

  /** So does cutting a name c and the ".." behind it. */
  lemma InAndOutResult(s: string, p: nat, q: nat, c: string)
    requires AtStarts(s, p, q) && p < q && s[p..q - 1] == c + "/" + ".." && Plain(c) && '/' !in c
    requires p == 0 && q < |s| ==> s[q] != '/'
    ensures Result(Cut(s, p, q)) == Result(s)
  {
    InAndOutPlace(At(s, p), c);
    assert s[p..q - 1][0] == c[0] && c[0] in c;
    LoopKeepsResult(s, p, q);
  }

  lemma NameAndUp(s: string, p: nat, cp: nat, q: nat, c: string)
    requires DotDotSegment(s, cp) && q == cp + 4 && (q < |s| ==> s[q] != '/')
    requires p <= cp && c == s[p..cp] && '/' !in c && (p == 0 || s[p - 1] == '/') && Plain(c)
    ensures Result(Cut(s, p, q)) == Result(s)
  {
    SegmentParts(s, p, cp);
    assert q - 1 == cp + 3;
    InAndOutResult(s, p, q, c);
  }

  lemma InAndOutPlace(at: Place, c: string)
    requires Plain(c) && '/' !in c
    ensures Pass(at, Split(c + "/" + "..")) == at
  {
    PassSlash(at, c, "..");
    PassOne(at, c);
    PassOne(Take(at, c), "..");
    TakeBack(at, c);
  }

  /** And so does cutting the ".." behind a leading slash with that slash. */
  lemma SlashAndUp(s: string)
    requires NoDoubleSlash(s) && DotDotSegment(s, 0)
    ensures Result(Cut(s, 0, 4)) == Result(s)
  {
    assert !DoubleSlash(s, 3);
    AtNext(s, 1, 4);
    assert s[1..3] == "..";
    PassOne(ROOT, "..");
    ResultAt(s, 4);
    assert Cut(s, 0, 4) == s[4..];
    ResultAt(s[4..], 0);
  }

  lemma CutDotDot(s: string, p: nat, cp: nat)
    requires NoDots(s) && !LeadingDotDot(s)
    requires DotDotSegment(s, cp) && forall i :: 0 <= i < cp ==> !DotDotSegment(s, i)
    requires p <= cp && '/' !in s[p..cp] && (p == 0 || s[p - 1] == '/')
    ensures NoDots(Cut(s, p, cp + 4)) && Alike(Cut(s, p, cp + 4), s)
  {
    ComponentBefore(s, p, cp);
    assert !DoubleSlash(s, cp + 3);
    InAndOutLocation(s, p, cp);
    if cp == 0 { SlashAndUp(s); } else { NameAndUp(s, p, cp, cp + 4, s[p..cp]); }
    CutKeepsShape(s, p, cp + 4);
  }

  /** The endless loop: ".." goes at the front, or together with the component before it. */
  method RemoveDotDots(a: array<char>, ghost s0: string) returns (ghost s: string)
    requires Holds(a, s0) && NoDots(s0)
    modifies a
    ensures Holds(a, s) && NoInnerDotDot(s) && Alike(s, s0)
  {
    s := s0;
    while true
      invariant Holds(a, s) && NoDots(s) && Alike(s, s0)
      decreases |s|
    {
      s := RemoveLeadingDotDots(a, s);
      var found, cp := FindDotDot(a, s);
      if !found { return; }
      s := CutBack(a, cp, s);
    }
  }

  /** The ".." at cp and the component before it go. */
  method CutBack(a: array<char>, cp: nat, ghost s0: string) returns (ghost s: string)
    requires Holds(a, s0) && NoDots(s0) && !LeadingDotDot(s0)
    requires DotDotSegment(s0, cp) && forall i :: 0 <= i < cp ==> !DotDotSegment(s0, i)
    modifies a
    ensures Holds(a, s) && NoDots(s) && Alike(s, s0) && |s| < |s0|
  {
    var p := BackUp(a, cp, s0);
    CutDotDot(s0, p, cp);
    CopyDown(a, p, cp + 4, s0);
    s := Cut(s0, p, cp + 4);
  }

  /** strstr(a, "/../"). */
  method FindDotDot(a: array<char>, ghost s: string) returns (found: bool, cp: nat)
    requires Holds(a, s)
    ensures found ==> DotDotSegment(s, cp) && forall i :: 0 <= i < cp ==> !DotDotSegment(s, i)
    ensures !found ==> forall i :: !DotDotSegment(s, i)
  {
    found, cp := Find(a, "/../", s);
    forall i ensures Occurs(s, "/../", i) <==> DotDotSegment(s, i) { OccursIs(s, i); }
  }

  lemma CutLeadingDotDot(s: string)
    requires NoDots(s) && LeadingDotDot(s)
    ensures NoDots(Cut(s, 0, 3)) && Alike(Cut(s, 0, 3), s)
  {
    assert s[0..2] == "..";
    GoWord([], "..");
    CutKeepsLocation(s, 0, 3);
    assert !DoubleSlash(s, 2);
    LeadsNowhere(s, 0, 3);
    CutKeepsShape(s, 0, 3);
  }

  method RemoveLeadingDotDots(a: array<char>, ghost s0: string) returns (ghost s: string)
    requires Holds(a, s0) && NoDots(s0)
    modifies a
    ensures Holds(a, s) && NoDots(s) && !LeadingDotDot(s) && Alike(s, s0) && |s| <= |s0|
  {
    s := s0;
    var lead := Matches(a, 0, "../", s);
    OccursIs(s, 0);
    while lead
      invariant Holds(a, s) && NoDots(s) && Alike(s, s0) && |s| <= |s0|
      invariant lead <==> LeadingDotDot(s)
      decreases |s|
    {
      CutLeadingDotDot(s);
      CopyDown(a, 0, 3, s);
      s := Cut(s, 0, 3);
      lead := Matches(a, 0, "../", s);
      OccursIs(s, 0);
    }
  }

  /** The last loop: a final ".." goes with the component before it, unless that is the only one. */
  method ElideTail(a: array<char>, ghost s0: string) returns (ghost s: string)
    requires Holds(a, s0) && NoInnerDotDot(s0)
    modifies a
    ensures Holds(a, s) && Normal(s) && Alike(s, s0)
  {
    s := s0;
    var l := Length(a, s);
    var up := EndsUp(a, l, s);
    while up
      invariant Holds(a, s) && l == |s| && NoInnerDotDot(s) && Alike(s, s0)
      invariant up <==> l > 3 && TrailingDotDot(s)
      decreases l
    {
      var p := BackUp(a, l - 3, s);
      if p == 0 {
        AloneIsNormal(s);
        return;
      }
      s := CutTail(a, p, s);
      l := p - 1;
      up := EndsUp(a, l, s);
    }
    AloneIsNormal(s);
  }

  /** strlen(a) > 3 and the last three characters are "/..". */
  method EndsUp(a: array<char>, l: nat, ghost s: string) returns (up: bool)
    requires Holds(a, s) && l == |s|
    ensures up <==> l > 3 && TrailingDotDot(s)
  {
    up := l > 3 && a[l - 3] == '/' && a[l - 2] == '.' && a[l - 1] == '.';
  }

  lemma AloneIsNormal(s: string)
    requires NoInnerDotDot(s) && (TrailingDotDot(s) ==> '/' !in s[0..|s| - 3])
    ensures Normal(s)
  {
    if TrailingDotDot(s) { assert s[0..|s| - 3] == s[..|s| - 3]; }
  }

  /** A NUL ends the string at the slash before p. */
  method CutTail(a: array<char>, p: nat, ghost s0: string) returns (ghost s: string)
    requires Holds(a, s0) && NoInnerDotDot(s0) && TrailingDotDot(s0)
    requires 0 < p <= |s0| - 3 && '/' !in s0[p..|s0| - 3] && s0[p - 1] == '/'
    modifies a
    ensures Holds(a, s) && |s| == p - 1 && NoInnerDotDot(s) && Alike(s, s0)
  {
    TailLeadsNowhere(s0, p);
    a[p - 1] := '\0';
    s := s0[..p - 1];
  }

  method Length(a: array<char>, ghost s: string) returns (l: nat)
    requires Holds(a, s)
    ensures l == |s|
  {
    l := 0;
    while a[l] != '\0'
      invariant l <= |s|
      decreases |s| - l
    {
      l := l + 1;
    }
  }

  lemma TailLeadsNowhere(s: string, p: nat)
    requires NoInnerDotDot(s) && TrailingDotDot(s)
    requires 0 < p <= |s| - 3 && '/' !in s[p..|s| - 3] && s[p - 1] == '/'
    ensures Alike(s[..p - 1], s) && NoInnerDotDot(s[..p - 1])
  {
    var head, c := s[..p - 1], s[p..|s| - 3];
    ComponentBefore(s, p, |s| - 3);
    assert s == head + "/" + (c + "/" + "..");
    GoApp([], head, c + "/" + "..");
    InAndOut(Go([], head), c);
    TailResult(s, p);
    HeadIsNormal(s, p);
    NormalIsResult(head);
  }

  /** What stands before a later slash is normal. */
  lemma HeadIsNormal(s: string, p: nat)
    requires NoInnerDotDot(s) && 0 < p <= |s| && s[p - 1] == '/'
    ensures Normal(s[..p - 1])
  {
    var head := s[..p - 1];
    forall i ensures !DoubleSlash(head, i) && !DotSegment(head, i) && !DotDotSegment(head, i) {
      assert !DoubleSlash(s, i) && !DotSegment(s, i) && !DotDotSegment(s, i);
    }
    assert !DotDotSegment(s, p - 4);
  }

  /** de_dotdot: what is left is the result of the path, and that is in normal form and names the same location. */
  method DeDotDot(file: array<char>, ghost s0: string) returns (ghost s: string)
    requires Holds(file, s0)
    modifies file
    ensures Holds(file, s) && s == Result(s0) && Normal(s) && Location(s) == Location(s0)
    ensures s != "" ==> s0 != "" && (s[|s| - 1] == '/' <==> s0[|s0| - 1] == '/')
  {
    s := CollapseSlashes(file, s0);
    s := RemoveDots(file, s);
    s := RemoveDotDots(file, s);
    s := ElideTail(file, s);
    NormalIsResult(s);
    EndsAlike(s0);
    if s0 == "" { OutWord(FREE, ""); }
  }

  // ---------- the file name check ----------

  /** The test after de_dotdot, with the empty name replaced by "./" first. */
  predicate Rejected(s: string) {
    s != "" && (s[0] == '/' || (|s| >= 2 && s[0] == '.' && s[1] == '.' && (|s| == 2 || s[2] == '/')))
  }

  /** The components never climb above the directory they start in. */
  predicate Inside(depth: nat, cs: seq<string>)
    decreases |cs|
  {
    cs == []
    || (if cs[0] == ".." then depth > 0 && Inside(depth - 1, cs[1..])
        else Inside(depth + (if Plain(cs[0]) then 1 else 0), cs[1..]))
  }

  function Names(cs: seq<string>): seq<string> {
    if cs == [] then [] else (if Plain(cs[0]) then [cs[0]] else []) + Names(cs[1..])
  }

  /** c stands at p, between slashes or the ends of the string. */
  predicate Sits(s: string, c: string, p: nat) {
    p + |c| <= |s| && s[p..p + |c|] == c
    && (p == 0 || s[p - 1] == '/') && (p + |c| == |s| || s[p + |c|] == '/')
  }

  lemma Shifted(s: string, c: string, q: nat)
    requires s != "" && Sits(s[1..], c, q) && (q > 0 || s[0] == '/')
    ensures Sits(s, c, q + 1)
  {
    assert s[q + 1..q + 1 + |c|] == s[1..][q..q + |c|];
  }

  /** Where each component is. */
  lemma {:induction false} ComponentAt(s: string, k: nat) returns (p: nat)
    requires k < |Split(s)|
    ensures Sits(s, Split(s)[k], p) && (k == 0 <==> p == 0)
  {
    var c := Split(s)[k];
    if s == "" || (s[0] == '/' && k == 0) {
      p := 0;
    } else if s[0] == '/' || k > 0 {
      var j := if s[0] == '/' then k - 1 else k;
      assert c == Split(s[1..])[j];
      var q := ComponentAt(s[1..], j);
      Shifted(s, c, q);
      p := q + 1;
    } else {
      var q := ComponentAt(s[1..], 0);
      p := 0;
      assert s[0..|c|] == [s[0]] + s[1..][0..|c| - 1];
    }
  }

  lemma {:induction false} WalkNames(at: seq<string>, cs: seq<string>)
    requires ".." !in cs
    ensures Walk(at, cs) == at + Names(cs)
    decreases |cs|
  {
    if cs != [] { WalkNames(Enter(at, cs[0]), cs[1..]); }
  }

  lemma {:induction false} NoDotDotInside(depth: nat, cs: seq<string>)
    requires ".." !in cs
    ensures Inside(depth, cs)
    decreases |cs|
  {
    if cs != [] { NoDotDotInside(depth + (if Plain(cs[0]) then 1 else 0), cs[1..]); }
  }

  /** A normalised name is refused exactly if it is ".." or still starts with a slash. */
  lemma RejectedIff(s: string)
    requires Normal(s)
    ensures Rejected(s) <==> s == ".." || (s != "" && s[0] == '/')
  {
    assert !LeadingDotDot(s);
  }

  lemma NoDotDotComponent(s: string)
    requires Normal(s) && !Rejected(s) && !TrailingDotDot(s)
    ensures ".." !in Split(s)
  {
    forall k | 0 <= k < |Split(s)| ensures Split(s)[k] != ".." {
      var c := Split(s)[k];
      var p := ComponentAt(s, k);
      if |c| == 2 { assert c[0] == s[p] && c[1] == s[p + 1]; }
      assert !LeadingDotDot(s);
      if p > 0 { assert !DotDotSegment(s, p - 1); }
    }
  }

  lemma TailPlain(s: string)
    requires Normal(s) && !Rejected(s) && TrailingDotDot(s)
    ensures '/' !in s[..|s| - 3] && Plain(s[..|s| - 3])
  {
    var x := s[..|s| - 3];
    assert !LeadingDot(s) && !LeadingDotDot(s);
    if |x| >= 1 { assert x[0] == s[0]; }
    if |x| >= 2 { assert x[1] == s[1]; }
  }

  lemma TailName(s: string)
    requires Normal(s) && !Rejected(s) && TrailingDotDot(s)
    ensures Split(s) == [s[..|s| - 3], ".."] && Plain(s[..|s| - 3])
  {
    var x := s[..|s| - 3];
    TailPlain(s);
    SegmentParts(s, 0, |s| - 3);
    assert s == x + "/" + "..";
    SplitTail(x);
  }

  lemma SplitTail(x: string)
    requires '/' !in x
    ensures Split(x + "/" + "..") == [x, ".."]
  {
    SplitApp(x, "..");
    SplitWord(x);
    SplitWord("..");
  }

  lemma TailLeadsHome(s: string)
    requires Normal(s) && !Rejected(s) && TrailingDotDot(s)
    ensures Inside(0, Split(s)) && Location(s) == []
  {
    var x := s[..|s| - 3];
    TailName(s);
    assert Inside(1, [".."]) by { assert [".."][1..] == []; }
    assert [x, ".."][1..] == [".."];
    assert s == x + "/" + "..";
    assert '/' !in x;
    InAndOut([], x);
  }

  /**
    What an accepted name can be: either it has no ".." at all and its names spell the location of the request,
    or it is "x/.." for one plain name x and names the root. Both ways it never climbs above the served tree.
   */
  lemma AcceptedStaysInside(s: string)
    requires Normal(s) && !Rejected(s)
    ensures Inside(0, Split(s))
    ensures !TrailingDotDot(s) ==> ".." !in Split(s) && Names(Split(s)) == Location(s)
    ensures TrailingDotDot(s) ==> Split(s) == [s[..|s| - 3], ".."] && Plain(s[..|s| - 3]) && Location(s) == []
  {
    if TrailingDotDot(s) {
      TailName(s);
      TailLeadsHome(s);
    } else {
      NoDotDotComponent(s);
      WalkNames([], Split(s));
      NoDotDotInside(0, Split(s));
    }
  }
}
