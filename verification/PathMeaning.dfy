/**
  Paths as the HTTP server sees them: the location a path names, the shape of a normalised path, and what the one
  rewrite does to both, the cutting of whole components.
 */
module PathMeaning {

  // ---------- what a path means ----------

  /** The components between slashes; "a//b" has an empty one. */
  function Split(s: string): (r: seq<string>)
    ensures |r| >= 1
  {
    if s == "" then [""]
    else if s[0] == '/' then [""] + Split(s[1..])
    else [[s[0]] + Split(s[1..])[0]] + Split(s[1..])[1..]
  }

  predicate Plain(c: string) { c != "" && c != "." && c != ".." }

  /** One component: names descend, ".." goes up and stays at the root, "" and "." stay. */
  function Enter(at: seq<string>, c: string): seq<string> {
    if Plain(c) then at + [c]
    else if c == ".." && at != [] then at[..|at| - 1]
    else at
  }

  function Walk(at: seq<string>, cs: seq<string>): seq<string>
    decreases |cs|
  {
    if cs == [] then at else Walk(Enter(at, cs[0]), cs[1..])
  }

  /** Where the path s leads from the directory at. */
  function Go(at: seq<string>, s: string): seq<string> { Walk(at, Split(s)) }

  /** The location a path names, from the root of the served tree. */
  function Location(s: string): seq<string> { Go([], s) }

  lemma {:induction false} WalkApp(at: seq<string>, xs: seq<string>, ys: seq<string>)
    ensures Walk(at, xs + ys) == Walk(Walk(at, xs), ys)
    decreases |xs|
  {
    if xs == [] {
      assert xs + ys == ys;
    } else {
      assert (xs + ys)[1..] == xs[1..] + ys;
      WalkApp(Enter(at, xs[0]), xs[1..], ys);
    }
  }

  lemma {:induction false} SplitApp(a: string, b: string)
    ensures Split(a + "/" + b) == Split(a) + Split(b)
  {
    var s := a + "/" + b;
    if a == "" {
      assert s[1..] == b;
    } else {
      assert s[1..] == a[1..] + "/" + b;
      SplitApp(a[1..], b);
    }
  }

  lemma GoApp(at: seq<string>, a: string, b: string)
    ensures Go(at, a + "/" + b) == Go(Go(at, a), b)
  {
    SplitApp(a, b);
    WalkApp(at, Split(a), Split(b));
  }

  lemma {:induction false} SplitWord(c: string)
    requires '/' !in c
    ensures Split(c) == [c]
  {
    if c != "" {
      assert c == [c[0]] + c[1..];
      SplitWord(c[1..]);
    }
  }

  lemma GoWord(at: seq<string>, c: string)
    requires '/' !in c
    ensures Go(at, c) == Enter(at, c)
  {
    SplitWord(c);
    assert Walk(at, [c]) == Walk(Enter(at, c), [c][1..]);
  }

  // ---------- the shape of a normalised path ----------

  predicate DoubleSlash(s: string, i: int) { 0 <= i && i + 2 <= |s| && s[i] == '/' && s[i + 1] == '/' }

  predicate DotSegment(s: string, i: int) {
    0 <= i && i + 3 <= |s| && s[i] == '/' && s[i + 1] == '.' && s[i + 2] == '/'
  }

  predicate DotDotSegment(s: string, i: int) {
    0 <= i && i + 4 <= |s| && s[i] == '/' && s[i + 1] == '.' && s[i + 2] == '.' && s[i + 3] == '/'
  }

  predicate LeadingDot(s: string) { |s| >= 2 && s[0] == '.' && s[1] == '/' }

  predicate LeadingDotDot(s: string) { |s| >= 3 && s[0] == '.' && s[1] == '.' && s[2] == '/' }

  predicate TrailingDotDot(s: string) {
    |s| >= 3 && s[|s| - 3] == '/' && s[|s| - 2] == '.' && s[|s| - 1] == '.'
  }

  ghost predicate NoDoubleSlash(s: string) { forall i :: !DoubleSlash(s, i) }

  ghost predicate NoDots(s: string) {
    NoDoubleSlash(s) && !LeadingDot(s) && forall i :: !DotSegment(s, i)
  }

  ghost predicate NoInnerDotDot(s: string) {
    NoDots(s) && !LeadingDotDot(s) && forall i :: !DotDotSegment(s, i)
  }

  /** No "//", "/./" or "/../" anywhere, no "./" or "../" in front, and "/.." at the end only after one component. */
  ghost predicate Normal(s: string) {
    && NoInnerDotDot(s)
    && (TrailingDotDot(s) ==> '/' !in s[..|s| - 3])
  }

  // ---------- one rewrite: cutting whole components ----------

  function Cut(s: string, p: nat, q: nat): string
    requires p <= q <= |s|
  {
    s[..p] + s[q..]
  }

  /** p and q are both component starts. */
  predicate AtStarts(s: string, p: nat, q: nat) {
    p <= q <= |s| && (p == 0 || s[p - 1] == '/') && 1 <= q && s[q - 1] == '/'
  }

  /** The location the walk has reached before position p. */
  function Before(s: string, p: nat): seq<string>
    requires p <= |s|
  {
    if p == 0 then [] else Go([], s[..p - 1])
  }

  /** Cutting components that lead nowhere keeps the location. */
  lemma CutKeepsLocation(s: string, p: nat, q: nat)
    requires AtStarts(s, p, q) && p < q && Go(Before(s, p), s[p..q - 1]) == Before(s, p)
    ensures Location(Cut(s, p, q)) == Location(s)
  {
    var mid, tail := s[p..q - 1], s[q..];
    if p == 0 {
      assert s == mid + "/" + tail;
      assert Cut(s, p, q) == tail;
      GoApp([], mid, tail);
    } else {
      var head := s[..p - 1];
      assert s == head + "/" + (mid + "/" + tail);
      assert Cut(s, p, q) == head + "/" + tail;
      LeadsBack(head, mid, tail);
    }
  }

  lemma LeadsBack(head: string, mid: string, tail: string)
    requires Go(Go([], head), mid) == Go([], head)
    ensures Location(head + "/" + (mid + "/" + tail)) == Location(head + "/" + tail)
  {
    GoApp([], head, mid + "/" + tail);
    GoApp(Go([], head), mid, tail);
    GoApp([], head, tail);
  }

  lemma CutKeepsShape(s: string, p: nat, q: nat)
    requires AtStarts(s, p, q) && NoDoubleSlash(s)
    ensures NoDoubleSlash(Cut(s, p, q))
    ensures (forall i :: !DotSegment(s, i)) ==> (forall i :: !DotSegment(Cut(s, p, q), i))
    ensures NoDots(s) ==> NoDots(Cut(s, p, q))
  {
    var t := Cut(s, p, q);
    forall i ensures !DoubleSlash(t, i) {
      assert !DoubleSlash(s, i) && !DoubleSlash(s, i + q - p);
    }
    if forall i :: !DotSegment(s, i) {
      forall i ensures !DotSegment(t, i) {
        assert !DotSegment(s, i) && !DotSegment(s, i + q - p);
      }
      assert !DotSegment(s, q - 1);
    }
  }
}
