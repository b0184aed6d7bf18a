/**
  The string that normalisation leaves, computed from the components of the request in one pass: names are stacked,
  ".." takes the last one off, or the leading slash when there is none, and the last component is put behind.
 */
module PathResult {

  import opened PathMeaning

  /** A directory on the way: whether a slash leads, and the names so far. */
  datatype Place = Place(rooted: bool, names: seq<string>)

  const FREE: Place := Place(false, [])

  const ROOT: Place := Place(true, [])

  function Take(at: Place, c: string): Place {
    if Plain(c) then at.(names := at.names + [c])
    else if c == ".." then (if at.names != [] then at.(names := at.names[..|at.names| - 1]) else FREE)
    else at
  }

  function Pass(at: Place, cs: seq<string>): Place
    decreases |cs|
  {
    if cs == [] then at else Pass(Take(at, cs[0]), cs[1..])
  }

  /** A directory spelled out, each name with a slash behind it. */
  function Spell(names: seq<string>): string {
    if names == [] then "" else Spell(names[..|names| - 1]) + names[|names| - 1] + "/"
  }

  function Prefix(at: Place): string { (if at.rooted then "/" else "") + Spell(at.names) }

  /** A last ".." takes a name and the slash before it off, unless that leaves nothing to cut at. */
  function Finish(at: Place, last: string): string {
    if last == ".." && at.names != [] && (at.rooted || |at.names| >= 2) then Chop(Prefix(Take(at, "..")))
    else Prefix(at) + last
  }

  function Chop(s: string): string { if s == "" then "" else s[..|s| - 1] }

  function Out(at: Place, s: string): string {
    Finish(Pass(at, Split(s)[..|Split(s)| - 1]), Split(s)[|Split(s)| - 1])
  }

  /** What normalising a path gives. */
  function Result(s: string): string {
    if s != "" && s[0] == '/' then Out(ROOT, s[1..]) else Out(FREE, s)
  }

  // ---------- where a position is ----------

  lemma {:induction false} PassApp(at: Place, xs: seq<string>, ys: seq<string>)
    ensures Pass(at, xs + ys) == Pass(Pass(at, xs), ys)
    decreases |xs|
  {
    if xs == [] {
      assert xs + ys == ys;
    } else {
      assert (xs + ys)[1..] == xs[1..] + ys;
      PassApp(Take(at, xs[0]), xs[1..], ys);
    }
  }

  lemma PassOne(at: Place, c: string)
    requires '/' !in c
    ensures Pass(at, Split(c)) == Take(at, c)
  {
    SplitWord(c);
    assert [c][1..] == [];
  }

  lemma PassSlash(at: Place, a: string, b: string)
    ensures Pass(at, Split(a + "/" + b)) == Pass(Pass(at, Split(a)), Split(b))
  {
    SplitApp(a, b);
    PassApp(at, Split(a), Split(b));
  }

  lemma OutSlash(at: Place, a: string, b: string)
    ensures Out(at, a + "/" + b) == Out(Pass(at, Split(a)), b)
  {
    var x, y := Split(a), Split(b);
    SplitApp(a, b);
    assert (x + y)[..|x + y| - 1] == x + y[..|y| - 1] && (x + y)[|x + y| - 1] == y[|y| - 1];
    PassApp(at, x, y[..|y| - 1]);
  }

  lemma OutWord(at: Place, c: string)
    requires '/' !in c
    ensures Out(at, c) == Finish(at, c)
  {
    SplitWord(c);
    assert [c][..0] == [];
  }

  /** The directory reached before position p, a start of a component. */
  function At(s: string, p: nat): Place
    requires p <= |s|
  {
    if p == 0 then FREE
    else if s[0] != '/' then Pass(FREE, Split(s[..p - 1]))
    else if p == 1 then ROOT
    else Pass(ROOT, Split(s[1..p - 1]))
  }

  predicate Start(s: string, p: nat) { p <= |s| && (p == 0 || s[p - 1] == '/') }

  lemma ResultAt(s: string, p: nat)
    requires Start(s, p) && (p == 0 ==> s == "" || s[0] != '/')
    ensures Result(s) == Out(At(s, p), s[p..])
  {
    if p == 0 {
      assert s[0..] == s;
    } else if s[0] != '/' {
      assert s == s[..p - 1] + "/" + s[p..];
      OutSlash(FREE, s[..p - 1], s[p..]);
    } else if p > 1 {
      assert s[1..] == s[1..p - 1] + "/" + s[p..];
      OutSlash(ROOT, s[1..p - 1], s[p..]);
    }
  }

  /** Past some components, the first of which does not lead with a slash. */
  lemma AtNext(s: string, p: nat, q: nat)
    requires Start(s, p) && Start(s, q) && p < q && (p == 0 ==> s[0] != '/')
    ensures At(s, q) == Pass(At(s, p), Split(s[p..q - 1]))
  {
    var mid := s[p..q - 1];
    if p == 0 {
      assert mid == s[..q - 1];
    } else if s[0] != '/' {
      assert s[..q - 1] == s[..p - 1] + "/" + mid;
      PassSlash(FREE, s[..p - 1], mid);
    } else if p > 1 {
      assert s[1..q - 1] == s[1..p - 1] + "/" + mid;
      PassSlash(ROOT, s[1..p - 1], mid);
    }
  }

  lemma AtSame(s: string, t: string, p: nat)
    requires p <= |s| && p <= |t| && s[..p] == t[..p]
    ensures At(s, p) == At(t, p)
  {
    if p > 0 {
      assert s[0] == s[..p][0] && t[0] == t[..p][0];
      assert s[..p - 1] == s[..p][..p - 1] && t[..p - 1] == t[..p][..p - 1];
      if p > 1 { assert s[1..p - 1] == s[..p][1..p - 1] && t[1..p - 1] == t[..p][1..p - 1]; }
    }
  }

  /** Cutting components that lead back to where they start keeps the result. */
  lemma CutKeepsResult(s: string, p: nat, q: nat)
    requires AtStarts(s, p, q) && p < q && At(s, q) == At(s, p)
    requires p == 0 && q < |s| ==> s[q] != '/'
    ensures Result(Cut(s, p, q)) == Result(s)
  {
    var t := Cut(s, p, q);
    assert t[..p] == s[..p] && t[p..] == s[q..];
    AtSame(s, t, p);
    ResultAt(s, q);
    if p > 0 { assert t[p - 1] == s[p - 1]; } else { assert t == s[q..]; }
    ResultAt(t, p);
  }

  /** As when passing them leads back. */
  lemma LoopKeepsResult(s: string, p: nat, q: nat)
    requires AtStarts(s, p, q) && p < q && Pass(At(s, p), Split(s[p..q - 1])) == At(s, p)
    requires p == 0 ==> s[0] != '/' && (q < |s| ==> s[q] != '/')
    ensures Result(Cut(s, p, q)) == Result(s)
  {
    AtNext(s, p, q);
    CutKeepsResult(s, p, q);
  }

  /** A name and the ".." behind it. */
  lemma TakeBack(at: Place, c: string)
    requires Plain(c)
    ensures Take(Take(at, c), "..") == at
  {
    assert (at.names + [c])[..|at.names|] == at.names;
  }

  lemma SpellMore(at: Place, c: string)
    requires Plain(c)
    ensures Prefix(Take(at, c)) == Prefix(at) + c + "/"
  {
    assert (at.names + [c])[..|at.names|] == at.names;
  }

  // ---------- the last component ----------

  /** Where the last component starts. */
  function LastStart(s: string): (p: nat)
    ensures Start(s, p) && '/' !in s[p..]
  {
    if s == "" || s[|s| - 1] == '/' then |s|
    else
      var p := LastStart(s[..|s| - 1]);
      assert s[p..] == s[..|s| - 1][p..] + [s[|s| - 1]];
      p
  }

  /** A component between two slashes, or before the first, of a string without "..", "." and "" inside. */
  lemma InnerIsPlain(s: string, p: nat, q: nat)
    requires NoInnerDotDot(s) && Start(s, p) && p < q && q <= |s| && s[q - 1] == '/' && '/' !in s[p..q - 1]
    ensures Plain(s[p..q - 1]) || (p == 0 && q == 1)
  {
    var c := s[p..q - 1];
    if |c| >= 1 { assert c[0] == s[p]; }
    if |c| >= 2 { assert c[1] == s[p + 1]; }
    if p > 0 { assert !DoubleSlash(s, p - 1) && !DotSegment(s, p - 1) && !DotDotSegment(s, p - 1); }
    assert !LeadingDot(s) && !LeadingDotDot(s);
  }

  /** In such a string the directory before any component is spelled by what stands there. */
  lemma {:induction false} PrefixIs(s: string, p: nat)
    requires NoInnerDotDot(s) && Start(s, p)
    ensures Prefix(At(s, p)) == s[..p]
  {
    if p == 1 && s[0] == '/' {
      assert s[..1] == "/";
    } else if p > 0 {
      var r := LastStart(s[..p - 1]);
      assert s[r..p - 1] == s[..p - 1][r..];
      if r > 0 { assert s[r - 1] == s[..p - 1][r - 1]; }
      PrefixIs(s, r);
      PrefixStep(s, r, p);
    }
  }

  lemma PrefixStep(s: string, r: nat, p: nat)
    requires NoInnerDotDot(s) && Start(s, r) && r < p <= |s| && s[p - 1] == '/' && '/' !in s[r..p - 1]
    requires !(p == 1 && s[0] == '/') && Prefix(At(s, r)) == s[..r]
    ensures Prefix(At(s, p)) == s[..p]
  {
    InnerIsPlain(s, r, p);
    if r == 0 { assert s[0..p - 1][0] == s[0]; }
    AtNext(s, r, p);
    PassOne(At(s, r), s[r..p - 1]);
    SpellMore(At(s, r), s[r..p - 1]);
    assert s[..p] == s[..r] + s[r..p - 1] + "/";
  }

  /** What stands before one component alone, or before none, has at most one name. */
  lemma AtMostOne(s: string, p: nat)
    requires Start(s, p) && (p > 0 ==> '/' !in s[..p - 1])
    ensures var at := At(s, p); at.names == [] || (!at.rooted && |at.names| == 1)
  {
    if p > 1 {
      assert s[..p - 1][0] == s[0];
      PassOne(FREE, s[..p - 1]);
    }
  }

  /** A normalised path is its own result. */
  lemma NormalIsResult(s: string)
    requires Normal(s)
    ensures Result(s) == s
  {
    var p := LastStart(s);
    var last := s[p..];
    if p == 0 && s != "" { assert s[0] == s[p..][0]; }
    ResultAt(s, p);
    OutWord(At(s, p), last);
    PrefixIs(s, p);
    LastStays(s, p);
    assert s == s[..p] + last;
  }

  /** Its last component is put behind the directory as it is. */
  lemma LastStays(s: string, p: nat)
    requires Normal(s) && Start(s, p) && '/' !in s[p..]
    ensures Finish(At(s, p), s[p..]) == Prefix(At(s, p)) + s[p..]
  {
    if s[p..] == ".." && p > 0 {
      assert s[p..][0] == s[p] && s[p..][1] == s[p + 1];
      AtMostOne(s, p);
    }
  }

  /** Taking the last name off, with the ".." behind it and the slash before it, keeps the result. */
  lemma TailResult(s: string, p: nat)
    requires NoInnerDotDot(s) && TrailingDotDot(s) && 0 < p <= |s| - 3
    requires s[p - 1] == '/' && '/' !in s[p..|s| - 3] && Plain(s[p..|s| - 3])
    ensures Result(s) == s[..p - 1]
  {
    var c := s[p..|s| - 3];
    ResultAt(s, p);
    assert s[p..] == c + "/" + "..";
    OutSlash(At(s, p), c, "..");
    PassOne(At(s, p), c);
    OutWord(Take(At(s, p), c), "..");
    TakeBack(At(s, p), c);
    PrefixIs(s, p);
    SomeBefore(s, p);
  }

  /** What stands before a later component is rooted or has a name. */
  lemma SomeBefore(s: string, p: nat)
    requires NoInnerDotDot(s) && Start(s, p) && p > 0
    ensures At(s, p).rooted || At(s, p).names != []
  {
    PrefixIs(s, p);
  }

  // ---------- what that says of the string ----------

  ghost predicate Words(names: seq<string>) {
    forall k :: 0 <= k < |names| ==> names[k] != "" && '/' !in names[k]
  }

  lemma {:induction false} SplitWords(s: string)
    ensures forall k :: 0 <= k < |Split(s)| ==> '/' !in Split(s)[k]
  {
    if s != "" { SplitWords(s[1..]); }
  }

  lemma {:induction false} PassWords(at: Place, cs: seq<string>)
    requires Words(at.names) && forall k :: 0 <= k < |cs| ==> '/' !in cs[k]
    ensures Words(Pass(at, cs).names)
    ensures !at.rooted ==> !Pass(at, cs).rooted
    ensures at.rooted && ".." !in cs ==> Pass(at, cs).rooted
    decreases |cs|
  {
    if cs != [] { PassWords(Take(at, cs[0]), cs[1..]); }
  }

  lemma LastIs(s: string)
    ensures Split(s)[|Split(s)| - 1] == s[LastStart(s)..]
    ensures s != "" ==> (s[LastStart(s)..] == "" <==> s[|s| - 1] == '/')
  {
    var p := LastStart(s);
    LastSplit(s, p);
    if s != "" && s[p..] != "" { assert s[p..][|s| - 1 - p] == s[|s| - 1]; }
  }

  lemma LastSplit(s: string, p: nat)
    requires Start(s, p) && '/' !in s[p..]
    ensures Split(s)[|Split(s)| - 1] == s[p..]
  {
    SplitWord(s[p..]);
    if p > 0 {
      assert s == s[..p - 1] + "/" + s[p..];
      SplitApp(s[..p - 1], s[p..]);
    } else {
      assert s[0..] == s;
    }
  }

  /** A spelled directory ends with a slash behind a name, and does not start with one. */
  lemma {:induction false} SpellEnds(names: seq<string>)
    requires Words(names) && names != []
    ensures |Spell(names)| >= 2 && Spell(names)[|Spell(names)| - 1] == '/'
    ensures Spell(names)[|Spell(names)| - 2] != '/' && Spell(names)[0] != '/'
  {
    var init, last := names[..|names| - 1], names[|names| - 1];
    if init != [] { SpellEnds(init); }
    assert last[0] in last && last[|last| - 1] in last;
  }

  lemma FinishEnds(at: Place, last: string)
    requires Words(at.names) && '/' !in last
    ensures var r := Finish(at, last); r != "" ==> (r[|r| - 1] == '/' <==> last == "")
    ensures var r := Finish(at, last); r != "" && r[0] == '/' ==> at.rooted
    ensures var r := Finish(at, last); at.rooted && last != ".." ==> r != "" && r[0] == '/'
  {
    if last != "" { assert last[0] in last && last[|last| - 1] in last; }
    if at.names != [] { SpellEnds(at.names); }
    if at.names != [] && at.names[..|at.names| - 1] != [] { SpellEnds(at.names[..|at.names| - 1]); }
  }

  /** The directory and the last component of a path. */
  lemma OutParts(at: Place, s: string) returns (dir: Place, last: string)
    requires Words(at.names)
    ensures Out(at, s) == Finish(dir, last) && Words(dir.names) && '/' !in last
    ensures last == "" <==> s == "" || s[|s| - 1] == '/'
    ensures !at.rooted ==> !dir.rooted
    ensures at.rooted && ".." !in Split(s) ==> dir.rooted && last != ".."
  {
    var cs := Split(s);
    var n := |cs| - 1;
    SplitWords(s);
    LastIs(s);
    PassWords(at, cs[..n]);
    dir, last := Pass(at, cs[..n]), cs[n];
  }

  lemma OutEnds(at: Place, s: string)
    requires Words(at.names)
    ensures var r := Out(at, s); r != "" ==> (r[|r| - 1] == '/' <==> s == "" || s[|s| - 1] == '/')
    ensures var r := Out(at, s); r != "" && r[0] == '/' ==> at.rooted
    ensures var r := Out(at, s); at.rooted && ".." !in Split(s) ==> r != "" && r[0] == '/'
  {
    var dir, last := OutParts(at, s);
    FinishEnds(dir, last);
  }

  /**
    A result that is not empty ends with a slash exactly when the path does. It starts with one only if the path
    does, and if it has no ".." then exactly if it does.
   */
  lemma EndsAlike(s: string)
    ensures var r := Result(s); s != "" && r != "" ==> (r[|r| - 1] == '/' <==> s[|s| - 1] == '/')
    ensures var r := Result(s); r != "" && r[0] == '/' ==> s != "" && s[0] == '/'
    ensures var r := Result(s); s != "" && s[0] == '/' && ".." !in Split(s) ==> r != "" && r[0] == '/'
  {
    if s != "" && s[0] == '/' {
      OutEnds(ROOT, s[1..]);
      assert Split(s) == [""] + Split(s[1..]);
    } else {
      OutEnds(FREE, s);
    }
  }

  // ---------- the corners, for any plain names ----------

  lemma Behind(at: Place, a: string, b: string)
    requires '/' !in a && '/' !in b
    ensures Out(at, a + "/" + b) == Finish(Take(at, a), b)
  {
    OutSlash(at, a, b);
    PassOne(at, a);
    OutWord(Take(at, a), b);
  }

  lemma Behind2(at: Place, a: string, b: string, c: string)
    requires '/' !in a && '/' !in b && '/' !in c
    ensures Out(at, a + "/" + (b + "/" + c)) == Finish(Take(Take(at, a), b), c)
  {
    OutSlash(at, a, b + "/" + c);
    PassOne(at, a);
    Behind(Take(at, a), b, c);
  }

  lemma NameFirst(x: string, t: string)
    requires x != "" && '/' !in x
    ensures Result(x + "/" + t) == Out(FREE, x + "/" + t)
  {
    assert (x + "/" + t)[0] == x[0];
  }

  lemma SlashFirst(t: string)
    ensures Result("/" + t) == Out(ROOT, t)
  {
    assert ("/" + t)[1..] == t;
  }

  lemma PrefixOne(x: string)
    requires Plain(x)
    ensures Take(FREE, x) == Place(false, [x]) && Prefix(FREE) == "" && Prefix(Place(false, [x])) == x + "/"
  {
    SpellMore(FREE, x);
    assert "" + x + "/" == x + "/";
  }

  /** Slashes at either end stay. */
  lemma SlashesStay(x: string)
    requires Plain(x) && '/' !in x
    ensures Result(x + "/" + "") == x + "/" && Result("/" + x) == "/" + x
  {
    assert Result(x + "/" + "") == x + "/" by {
      NameFirst(x, "");
      Behind(FREE, x, "");
      PrefixOne(x);
    }
    assert Result("/" + x) == "/" + x by {
      SlashFirst(x);
      OutWord(ROOT, x);
      assert Prefix(ROOT) == "/";
    }
  }

  /** ".." at the end stays behind a single name. */
  lemma UpFromOne(x: string)
    requires Plain(x) && '/' !in x
    ensures Result(x + "/" + "..") == x + "/" + ".."
  {
    NameFirst(x, "..");
    Behind(FREE, x, "..");
    PrefixOne(x);
  }

  /** Behind a rooted name it takes all. */
  lemma UpFromRooted(x: string)
    requires Plain(x) && '/' !in x
    ensures Result("/" + (x + "/" + "..")) == ""
  {
    SlashFirst(x + "/" + "..");
    Behind(ROOT, x, "..");
    TakeBack(ROOT, x);
    assert Prefix(ROOT) == "/";
  }

  /** Behind the leading slash ".." takes that. */
  lemma UpFromSlash(x: string)
    requires '/' !in x
    ensures Result("/" + (".." + "/" + x)) == x
  {
    SlashFirst(".." + "/" + x);
    Behind(ROOT, "..", x);
    assert Take(ROOT, "..") == FREE && Prefix(FREE) == "" && Finish(FREE, x) == x;
  }

  /** Behind two names ".." takes the second and the slash before it. */
  lemma UpFromTwo(x: string, y: string)
    requires Plain(x) && '/' !in x && Plain(y) && '/' !in y
    ensures Result(x + "/" + (y + "/" + "..")) == x
  {
    NameFirst(x, y + "/" + "..");
    Behind2(FREE, x, y, "..");
    PrefixOne(x);
    FinishTwo(x, y);
  }

  lemma FinishTwo(x: string, y: string)
    requires Plain(x) && Plain(y)
    ensures Finish(Take(Place(false, [x]), y), "..") == x
  {
    TakeBack(Place(false, [x]), y);
    PrefixOne(x);
    assert (x + "/")[..|x|] == x;
  }

  /** Between names a name with its ".." vanishes, and so does ".". */
  lemma BetweenNames(x: string, y: string)
    requires Plain(x) && '/' !in x && '/' !in y
    ensures Result(x + "/" + (".." + "/" + y)) == y
    ensures Result(x + "/" + ("." + "/" + y)) == x + "/" + y
  {
    PrefixOne(x);
    assert Result(x + "/" + (".." + "/" + y)) == y by {
      NameFirst(x, ".." + "/" + y);
      Behind2(FREE, x, "..", y);
      TakeBack(FREE, x);
      assert Finish(FREE, y) == y;
    }
    assert Result(x + "/" + ("." + "/" + y)) == x + "/" + y by {
      NameFirst(x, "." + "/" + y);
      Behind2(FREE, x, ".", y);
    }
  }
}
