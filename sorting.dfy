/** The orders the sweeps rely on: Python's tuple (lexicographic) order, and
    `sorted(points, key=lambda x: x[i], reverse=...)`, a stable sort on one
    coordinate (code/main.py:31, 44; koda/main.py:9). */
module Sorting {
  import opened Dominance

  /** Python's `a <= b` on tuples of integers. */
  predicate LexLe(a: Point, b: Point)
  {
    a == [] || (b != [] && (a[0] < b[0] || (a[0] == b[0] && LexLe(a[1..], b[1..]))))
  }

  lemma {:induction false} LexLeTotal(a: Point, b: Point)
    ensures LexLe(a, b) || LexLe(b, a)
  {
    if a != [] && b != [] && a[0] == b[0] {
      LexLeTotal(a[1..], b[1..]);
    }
  }

  lemma {:induction false} LexLeTransitive(a: Point, b: Point, c: Point)
    requires LexLe(a, b) && LexLe(b, c)
    ensures LexLe(a, c)
  {
    if a != [] && b != [] && c != [] && a[0] == b[0] == c[0] {
      LexLeTransitive(a[1..], b[1..], c[1..]);
    }
  }

  lemma {:induction false} LexLeAntisymmetric(a: Point, b: Point)
    requires LexLe(a, b) && LexLe(b, a)
    ensures a == b
  {
    if a != [] && b != [] {
      LexLeAntisymmetric(a[1..], b[1..]);
      assert a == [a[0]] + a[1..] && b == [b[0]] + b[1..];
    }
  }

  /** On pairs, the tuple order compares `x` first and breaks ties on `y`. */
  lemma LexLePair(a: Point, b: Point)
    requires |a| == 2 && |b| == 2
    ensures LexLe(a, b) <==> a[0] < b[0] || (a[0] == b[0] && a[1] <= b[1])
  {
    assert LexLe(a[1..], b[1..]) <==> a[1] <= b[1] by {
      assert a[1..][1..] == [];
    }
  }

  /** Every vector of `s` has a coordinate `i`. */
  predicate Covers(s: seq<Point>, i: nat)
  {
    forall x | x in s :: i < |x|
  }

  /** The sort key of `sorted(..., key=lambda x: x[i], reverse=desc)`. */
  function Key(x: Point, i: nat, desc: bool): int
    requires i < |x|
  {
    if desc then -x[i] else x[i]
  }

  predicate KeySorted(s: seq<Point>, i: nat, desc: bool)
    requires Covers(s, i)
  {
    forall a, b | 0 <= a < b < |s| :: Key(s[a], i, desc) <= Key(s[b], i, desc)
  }

  /** Places `x` before the first element whose key is not smaller, so that
      equal keys keep their original order. */
  function Insert(x: Point, s: seq<Point>, i: nat, desc: bool): (r: seq<Point>)
    requires i < |x| && Covers(s, i)
    ensures multiset(r) == multiset(s) + multiset{x} && |r| == |s| + 1
    ensures forall y | y in r :: y == x || y in s
  {
    if s == [] || Key(x, i, desc) <= Key(s[0], i, desc) then [x] + s
    else
      assert s == [s[0]] + s[1..];
      [s[0]] + Insert(x, s[1..], i, desc)
  }

  lemma InsertCovers(x: Point, s: seq<Point>, i: nat, desc: bool)
    requires i < |x| && Covers(s, i)
    ensures Covers(Insert(x, s, i, desc), i)
  {
    var r := Insert(x, s, i, desc);
    forall y | y in r ensures i < |y| {
      assert y in multiset(r);
    }
  }

  lemma {:induction false} InsertSorted(x: Point, s: seq<Point>, i: nat, desc: bool)
    requires i < |x| && Covers(s, i) && KeySorted(s, i, desc)
    ensures Covers(Insert(x, s, i, desc), i) && KeySorted(Insert(x, s, i, desc), i, desc)
  {
    InsertCovers(x, s, i, desc);
    var r := Insert(x, s, i, desc);
    if s == [] || Key(x, i, desc) <= Key(s[0], i, desc) {
      assert r == [x] + s;
    } else {
      InsertSorted(x, s[1..], i, desc);
      InsertBehindHead(x, s, i, desc);
    }
  }

  /** When `x` goes behind the head, the head stays first and bounds the rest. */
  lemma InsertBehindHead(x: Point, s: seq<Point>, i: nat, desc: bool)
    requires i < |x| && Covers(s, i) && KeySorted(s, i, desc)
    requires s != [] && Key(s[0], i, desc) < Key(x, i, desc)
    requires Covers(Insert(x, s[1..], i, desc), i) && KeySorted(Insert(x, s[1..], i, desc), i, desc)
    ensures Covers(Insert(x, s, i, desc), i) && KeySorted(Insert(x, s, i, desc), i, desc)
  {
    var t := Insert(x, s[1..], i, desc);
    HeadBoundsTail(x, s, i, desc);
    assert s[0] in s;
    ConsSorted(s[0], t, i, desc);
    assert Insert(x, s, i, desc) == [s[0]] + t;
  }

  /** A head whose key is not larger than any key of a sorted tail keeps it sorted. */
  lemma ConsSorted(h: Point, t: seq<Point>, i: nat, desc: bool)
    requires i < |h| && Covers(t, i) && KeySorted(t, i, desc)
    requires forall y | y in t :: Key(h, i, desc) <= Key(y, i, desc)
    ensures Covers([h] + t, i) && KeySorted([h] + t, i, desc)
  {
    var r := [h] + t;
    forall a, b | 0 <= a < b < |r| ensures Key(r[a], i, desc) <= Key(r[b], i, desc) {
      assert r[b] == t[b - 1] && r[b] in t;
      if a > 0 {
        assert r[a] == t[a - 1];
      }
    }
  }

  /** The head of a sorted list bounds every member of its tail with `x`
      inserted, when `x` has a larger key. */
  lemma HeadBoundsTail(x: Point, s: seq<Point>, i: nat, desc: bool)
    requires i < |x| && Covers(s, i) && KeySorted(s, i, desc)
    requires s != [] && Key(s[0], i, desc) < Key(x, i, desc)
    ensures forall y | y in Insert(x, s[1..], i, desc) :: i < |y| && Key(s[0], i, desc) <= Key(y, i, desc)
  {
    var u := s[1..];
    assert s[0] in s;
    forall y | y in Insert(x, u, i, desc) ensures i < |y| && Key(s[0], i, desc) <= Key(y, i, desc) {
      if y != x {
        assert y in u;
        var c :| 0 <= c < |u| && u[c] == y;
        assert s[c + 1] == y && s[c + 1] in s;
      }
    }
  }

  /** Python's stable `sorted` by coordinate `i`, descending when `desc`. */
  function SortByCoord(s: seq<Point>, i: nat, desc: bool): (r: seq<Point>)
    requires Covers(s, i)
    ensures multiset(r) == multiset(s) && |r| == |s|
    ensures Covers(r, i) && KeySorted(r, i, desc)
  {
    if s == [] then []
    else
      assert s == [s[0]] + s[1..];
      var t := SortByCoord(s[1..], i, desc);
      InsertSorted(s[0], t, i, desc);
      Insert(s[0], t, i, desc)
  }

  /** `assert_sorted(points, d)`: the points equal their stable descending
      sort on the last coordinate. */
  predicate AssertSorted(points: seq<Point>, d: nat)
    requires d >= 1 && Covers(points, d - 1)
  {
    points == SortByCoord(points, d - 1, true)
  }

  /** The check passes exactly on lists that do not increase in coordinate d-1. */
  lemma {:induction false} AssertSortedIff(points: seq<Point>, d: nat)
    requires d >= 1 && Covers(points, d - 1)
    ensures AssertSorted(points, d) <==>
      forall a, b | 0 <= a < b < |points| :: points[a][d - 1] >= points[b][d - 1]
  {
    if forall a, b | 0 <= a < b < |points| :: points[a][d - 1] >= points[b][d - 1] {
      SortedIsFixed(points, d - 1, true);
    }
  }

  lemma {:induction false} SortedIsFixed(s: seq<Point>, i: nat, desc: bool)
    requires Covers(s, i) && KeySorted(s, i, desc)
    ensures SortByCoord(s, i, desc) == s
  {
    if s != [] {
      SortedIsFixed(s[1..], i, desc);
      assert s == [s[0]] + s[1..];
    }
  }

  /** Sorting reorders without introducing comparable pairs. */
  lemma {:induction false} SortKeepsAntichain(s: seq<Point>, i: nat, desc: bool)
    requires Covers(s, i) && Antichain(s)
    ensures Antichain(SortByCoord(s, i, desc))
  {
    if s != [] {
      var t := SortByCoord(s[1..], i, desc);
      SortKeepsAntichain(s[1..], i, desc);
      forall y | y in t ensures Incomparable(s[0], y) {
        assert y in multiset(t);
        var c :| 0 <= c < |s[1..]| && s[1..][c] == y;
        assert s[c + 1] == y;
      }
      InsertKeepsAntichain(s[0], t, i, desc);
    }
  }

  /** Putting `h` in front of an antichain keeps it one when `h` is
      incomparable to every member. */
  lemma AntichainCons(h: Point, t: seq<Point>)
    requires Antichain(t)
    requires forall y | y in t :: Incomparable(h, y)
    ensures Antichain([h] + t)
  {
    var r := [h] + t;
    forall a, b | 0 <= a < b < |r| ensures Incomparable(r[a], r[b]) {
      assert r[b] == t[b - 1] && r[b] in t;
      if a > 0 {
        assert r[a] == t[a - 1];
      }
    }
  }

  lemma {:induction false} InsertKeepsAntichain(x: Point, s: seq<Point>, i: nat, desc: bool)
    requires i < |x| && Covers(s, i) && Antichain(s)
    requires forall y | y in s :: Incomparable(x, y)
    ensures Antichain(Insert(x, s, i, desc))
  {
    if s == [] || Key(x, i, desc) <= Key(s[0], i, desc) {
      AntichainCons(x, s);
    } else {
      var t := Insert(x, s[1..], i, desc);
      forall y | y in s[1..] ensures Incomparable(x, y) {
      }
      InsertKeepsAntichain(x, s[1..], i, desc);
      forall y | y in t ensures Incomparable(s[0], y) {
        assert y in multiset(t);
        if y == x {
          assert s[0] in s && Incomparable(x, s[0]);
        } else {
          assert y in multiset(s[1..]);
          var c :| 0 <= c < |s[1..]| && s[1..][c] == y;
          assert s[c + 1] == y && Incomparable(s[0], s[c + 1]);
        }
      }
      AntichainCons(s[0], t);
    }
  }
}
