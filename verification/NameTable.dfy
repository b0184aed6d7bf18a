/** The table search of the date scanner: month and weekday names, sorted, by bisection. */
module NameTable {

  datatype Entry = Entry(s: string, l: int)

  datatype Option = None | Some(value: int)

  /** The sign of strcmp, for strings without the terminator. */
  function Strcmp(a: string, b: string): int {
    if a == [] then (if b == [] then 0 else -1)
    else if b == [] then 1
    else if a[0] != b[0] then (if a[0] < b[0] then -1 else 1)
    else Strcmp(a[1..], b[1..])
  }

  lemma {:induction false} SameIsZero(a: string, b: string)
    ensures Strcmp(a, b) == 0 <==> a == b
  {
    if a != [] && b != [] {
      SameIsZero(a[1..], b[1..]);
      assert a == [a[0]] + a[1..] && b == [b[0]] + b[1..];
    }
  }

  lemma {:induction false} Transitive(a: string, b: string, c: string)
    requires (Strcmp(a, b) <= 0 && Strcmp(b, c) < 0) || (Strcmp(a, b) < 0 && Strcmp(b, c) <= 0)
    ensures Strcmp(a, c) < 0
  {
    if a != [] && b != [] && c != [] && a[0] == b[0] == c[0] {
      Transitive(a[1..], b[1..], c[1..]);
    }
  }

  lemma {:induction false} Opposite(a: string, b: string)
    ensures Strcmp(a, b) == -Strcmp(b, a)
  {
    if a != [] && b != [] { Opposite(a[1..], b[1..]); }
  }

  /** The first character that differs decides, and a beginning comes before the whole. */
  lemma {:induction false} FirstDecides(p: string, x: char, y: char, s: string, t: string)
    requires x < y
    ensures Strcmp(p + [x] + s, p + [y] + t) == -1 && Strcmp(p + [y] + t, p + [x] + s) == 1
    ensures Strcmp(p, p + [x] + s) == -1 && Strcmp(p + [x] + s, p) == 1
  {
    if p != "" {
      assert (p + [x] + s)[1..] == p[1..] + [x] + s && (p + [y] + t)[1..] == p[1..] + [y] + t;
      FirstDecides(p[1..], x, y, s, t);
    }
  }

  /** What qsort leaves, for a table of distinct names. */
  predicate Sorted(tab: seq<Entry>) {
    forall i, j :: 0 <= i < j < |tab| ==> Strcmp(tab[i].s, tab[j].s) < 0
  }

  lemma Before(tab: seq<Entry>, i: nat, str: string)
    requires Sorted(tab) && i < |tab| && Strcmp(str, tab[i].s) < 0
    ensures forall j :: i <= j < |tab| ==> tab[j].s != str
  {
    forall j | i <= j < |tab| ensures tab[j].s != str {
      if i < j { Transitive(str, tab[i].s, tab[j].s); }
      SameIsZero(str, tab[j].s);
    }
  }

  lemma After(tab: seq<Entry>, i: nat, str: string)
    requires Sorted(tab) && i < |tab| && Strcmp(str, tab[i].s) > 0
    ensures forall j :: 0 <= j <= i ==> tab[j].s != str
  {
    Opposite(str, tab[i].s);
    forall j | 0 <= j <= i ensures tab[j].s != str {
      if j < i { Transitive(tab[j].s, tab[i].s, str); }
      SameIsZero(tab[j].s, str);
      SameIsZero(tab[i].s, str);
    }
  }

  /** strlong_search: finds a name exactly when the table has it, and gives the value beside it. */
  method Search(str: string, tab: seq<Entry>) returns (r: Option)
    requires Sorted(tab) && |tab| > 0
    ensures r.Some? ==> exists i :: 0 <= i < |tab| && tab[i] == Entry(str, r.value)
    ensures r.None? ==> forall i :: 0 <= i < |tab| ==> tab[i].s != str
  {
    var l, h := 0, |tab| - 1;
    while true
      invariant 0 <= l <= h < |tab|
      invariant forall j :: 0 <= j < l ==> tab[j].s != str
      invariant forall j :: h < j < |tab| ==> tab[j].s != str
      decreases h - l
    {
      var i := (h + l) / 2;
      var c := Strcmp(str, tab[i].s);
      if c < 0 {
        Before(tab, i, str);
        h := i - 1;
      } else if c > 0 {
        After(tab, i, str);
        l := i + 1;
      } else {
        SameIsZero(str, tab[i].s);
        assert tab[i] == Entry(str, tab[i].l);
        return Some(tab[i].l);
      }
      if h < l {
        return None;
      }
    }
  }
}
