/** Python's `min`, `max` and `sorted` on a finite set of integers, and
    ascending enumerations of a set's elements. */
module IntSets {

  /** Strictly ascending, hence without repetitions. */
  predicate Increasing(xs: seq<int>) {
    forall i, j :: 0 <= i < j < |xs| ==> xs[i] < xs[j]
  }

  /** A non-empty set has an element. */
  lemma Inhabited(s: set<int>)
    requires s != {}
    ensures exists y :: y in s
  {
    if forall y :: y !in s { assert false; }
  }

  /** The larger of `y` and the largest other element bounds the whole set. */
  lemma MaxStep(s: set<int>, y: int, m: int)
    requires y in s && m in s && forall x :: x in s && x != y ==> x <= m
    ensures forall x :: x in s ==> x <= (if m < y then y else m)
  {
  }

  lemma MinStep(s: set<int>, y: int, m: int)
    requires y in s && m in s && forall x :: x in s && x != y ==> m <= x
    ensures forall x :: x in s ==> (if y < m then y else m) <= x
  {
  }

  lemma {:induction false} HasMax(s: set<int>)
    requires s != {}
    ensures exists m :: m in s && forall x :: x in s ==> x <= m
  {
    Inhabited(s);
    var y :| y in s;
    if forall x :: x in s ==> x == y {
      assert forall x :: x in s ==> x <= y;
    } else {
      var z :| z in s && z != y;
      var rest := s - {y};
      assert z in rest;
      HasMax(rest);
      var m :| m in rest && forall x :: x in rest ==> x <= m;
      forall x | x in s && x != y ensures x <= m { assert x in rest; }
      MaxStep(s, y, m);
      var top := if m < y then y else m;
      assert top in s;
    }
  }

  lemma {:induction false} HasMin(s: set<int>)
    requires s != {}
    ensures exists m :: m in s && forall x :: x in s ==> m <= x
  {
    Inhabited(s);
    var y :| y in s;
    if forall x :: x in s ==> x == y {
      assert forall x :: x in s ==> y <= x;
    } else {
      var z :| z in s && z != y;
      var rest := s - {y};
      assert z in rest;
      HasMin(rest);
      var m :| m in rest && forall x :: x in rest ==> m <= x;
      forall x | x in s && x != y ensures m <= x { assert x in rest; }
      MinStep(s, y, m);
      var bottom := if y < m then y else m;
      assert bottom in s;
    }
  }

  /** `max(s)`; Python raises on an empty set, so callers must rule it out. */
  function Max(s: set<int>): (m: int)
    requires s != {}
    ensures m in s && forall x :: x in s ==> x <= m
  {
    HasMax(s);
    var m :| m in s && (forall x :: x in s ==> x <= m); m
  }

  /** `min(s)`; Python raises on an empty set, so callers must rule it out. */
  function Min(s: set<int>): (m: int)
    requires s != {}
    ensures m in s && forall x :: x in s ==> m <= x
  {
    HasMin(s);
    var m :| m in s && (forall x :: x in s ==> m <= x); m
  }

  /** The elements of `s` between `lo` and `hi`, ascending. */
  function Numbers(s: set<int>, lo: int, hi: int): (r: seq<int>)
    ensures Increasing(r)
    ensures forall x :: x in r <==> x in s && lo <= x <= hi
    ensures forall k :: 0 <= k < |r| ==> lo <= r[k] <= hi
    decreases hi + 1 - lo
  {
    if lo > hi then []
    else
      var rest := Numbers(s, lo + 1, hi);
      if lo in s then [lo] + rest else rest
  }

  /** `sorted(s)`: every element of `s` once, ascending. */
  function Sorted(s: set<int>): (r: seq<int>)
    ensures Increasing(r)
    ensures forall x :: x in r <==> x in s
  {
    if s == {} then [] else Numbers(s, Min(s), Max(s))
  }

  lemma SameElementsEmpty(a: seq<int>, b: seq<int>)
    requires forall x :: x in a <==> x in b
    ensures a == [] <==> b == []
  {
    if a != [] { var x := a[0]; assert x in a; }
    if b != [] { var x := b[0]; assert x in b; }
  }

  /** Two ascending sequences with the same elements are equal: an ascending
      enumeration of a set is unique. */
  lemma {:induction false} IncreasingUnique(a: seq<int>, b: seq<int>)
    requires Increasing(a) && Increasing(b)
    requires forall x :: x in a <==> x in b
    ensures a == b
    decreases |a|
  {
    SameElementsEmpty(a, b);
    if a != [] {
      assert a[0] in b;
      assert b[0] in a;
      assert a[0] == b[0];
      forall x ensures x in a[1..] <==> x in b[1..] {
        if x in a[1..] { assert x in a && x != a[0]; }
        if x in b[1..] { assert x in b && x != b[0]; }
      }
      IncreasingUnique(a[1..], b[1..]);
    }
  }

  /** The elements of `xs` between `lo` and `hi`, in their order in `xs`. */
  function Within(xs: seq<int>, lo: int, hi: int): (r: seq<int>)
    ensures forall x :: x in r <==> x in xs && lo <= x <= hi
    ensures forall k :: 0 <= k < |r| ==> lo <= r[k] <= hi
    decreases |xs|
  {
    if xs == [] then []
    else
      var rest := Within(xs[1..], lo, hi);
      if lo <= xs[0] <= hi then [xs[0]] + rest else rest
  }

  lemma {:induction false} WithinIncreasing(xs: seq<int>, lo: int, hi: int)
    requires Increasing(xs)
    ensures Increasing(Within(xs, lo, hi))
    decreases |xs|
  {
    if xs != [] {
      WithinIncreasing(xs[1..], lo, hi);
      var rest := Within(xs[1..], lo, hi);
      if lo <= xs[0] <= hi {
        var r := [xs[0]] + rest;
        forall i, j | 0 <= i < j < |r| ensures r[i] < r[j] {
          if i == 0 {
            assert r[j] in rest;
            assert r[j] in xs[1..];
          } else {
            assert r[i] == rest[i - 1] && r[j] == rest[j - 1];
          }
        }
      }
    }
  }

  /** Keeping the part of `sorted(s)` that lies between `lo` and `hi` gives
      the ascending enumeration of exactly those elements of `s`. */
  lemma SortedWithin(s: set<int>, lo: int, hi: int)
    ensures Within(Sorted(s), lo, hi) == Numbers(s, lo, hi)
  {
    WithinIncreasing(Sorted(s), lo, hi);
    IncreasingUnique(Within(Sorted(s), lo, hi), Numbers(s, lo, hi));
  }
}
