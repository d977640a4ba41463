/** Values of the older prototype under koda/: tuples whose coordinates may
    be the floating-point `inf` used for sentinels, compared the way Python
    compares tuples, and the list primitives the prototype relies on
    (`sorted`, `bisect.bisect_left`, indexing with negative indices). */
module KodaPoints {
  import opened Levels
  import opened Seqs

  type ExtPoint = seq<Level>

  /** Python's `a < b` on tuples: the first differing coordinate decides, and
      a proper prefix is smaller. */
  predicate TupleLt(a: ExtPoint, b: ExtPoint)
    decreases |a|
  {
    if a == [] then b != []
    else if b == [] then false
    else LevelLt(a[0], b[0]) || (a[0] == b[0] && TupleLt(a[1..], b[1..]))
  }

  predicate TupleLe(a: ExtPoint, b: ExtPoint)
  {
    TupleLt(a, b) || a == b
  }

  function LeOrder(): (ExtPoint, ExtPoint) -> bool
  {
    (a, b) => TupleLe(a, b)
  }

  lemma {:induction false} TupleLtIrreflexive(a: ExtPoint)
    ensures !TupleLt(a, a)
  {
    if a != [] {
      TupleLtIrreflexive(a[1..]);
    }
  }

  lemma {:induction false} TupleLtTransitive(a: ExtPoint, b: ExtPoint, c: ExtPoint)
    requires TupleLt(a, b) && TupleLt(b, c)
    ensures TupleLt(a, c)
    decreases |a|
  {
    if a != [] && b != [] && c != [] && a[0] == b[0] && b[0] == c[0] {
      TupleLtTransitive(a[1..], b[1..], c[1..]);
    }
  }

  /** Python tuples of levels are totally ordered. */
  lemma {:induction false} TupleTrichotomy(a: ExtPoint, b: ExtPoint)
    ensures TupleLt(a, b) || a == b || TupleLt(b, a)
    decreases |a|
  {
    if a != [] && b != [] && a[0] == b[0] {
      TupleTrichotomy(a[1..], b[1..]);
      if a[1..] == b[1..] {
        assert a == [a[0]] + a[1..] && b == [b[0]] + b[1..];
      }
    }
  }

  lemma TupleLtAsymmetric(a: ExtPoint, b: ExtPoint)
    requires TupleLt(a, b)
    ensures !TupleLt(b, a) && a != b
  {
    TupleLtIrreflexive(a);
    if TupleLt(b, a) {
      TupleLtTransitive(a, b, a);
    }
  }

  lemma TupleLeTransitive(a: ExtPoint, b: ExtPoint, c: ExtPoint)
    requires TupleLe(a, b) && TupleLe(b, c)
    ensures TupleLe(a, c)
  {
    if TupleLt(a, b) && TupleLt(b, c) {
      TupleLtTransitive(a, b, c);
    }
  }

  /** Inserts `x` in front of the first element not smaller than it. */
  function InsertSorted(x: ExtPoint, s: seq<ExtPoint>): (r: seq<ExtPoint>)
    ensures multiset(r) == multiset(s) + multiset{x} && |r| == |s| + 1
  {
    if s == [] || TupleLe(x, s[0]) then [x] + s
    else
      assert s == [s[0]] + s[1..];
      [s[0]] + InsertSorted(x, s[1..])
  }

  /** Putting `h` in front of a sorted list keeps it sorted when `h` is not
      above any member. */
  lemma SortedCons(h: ExtPoint, t: seq<ExtPoint>)
    requires Sorted(t, LeOrder())
    requires forall y | y in t :: TupleLe(h, y)
    ensures Sorted([h] + t, LeOrder())
  {
    SortedInsert(t, 0, h, LeOrder());
    assert [h] + t == t[..0] + [h] + t[0..];
  }

  lemma {:induction false} InsertSortedKeepsOrder(x: ExtPoint, s: seq<ExtPoint>)
    requires Sorted(s, LeOrder())
    ensures Sorted(InsertSorted(x, s), LeOrder())
  {
    if s == [] || TupleLe(x, s[0]) {
      forall y | y in s ensures TupleLe(x, y) {
        var j :| 0 <= j < |s| && s[j] == y;
        if j > 0 {
          assert LeOrder()(s[0], s[j]);
          TupleLeTransitive(x, s[0], s[j]);
        }
      }
      SortedCons(x, s);
    } else {
      var t := InsertSorted(x, s[1..]);
      InsertSortedKeepsOrder(x, s[1..]);
      TupleTrichotomy(x, s[0]);
      forall y | y in t ensures TupleLe(s[0], y) {
        assert y in multiset(t);
        if y != x {
          assert y in multiset(s[1..]);
          var c :| 0 <= c < |s[1..]| && s[1..][c] == y;
          assert LeOrder()(s[0], s[c + 1]);
        }
      }
      SortedCons(s[0], t);
    }
  }

  /** Python's `sorted` on a list of tuples: the same elements in tuple order. */
  function SortTuples(s: seq<ExtPoint>): (r: seq<ExtPoint>)
    ensures multiset(r) == multiset(s) && |r| == |s|
    ensures Sorted(r, LeOrder())
  {
    if s == [] then []
    else
      InsertSortedKeepsOrder(s[0], SortTuples(s[1..]));
      assert s == [s[0]] + s[1..];
      InsertSorted(s[0], SortTuples(s[1..]))
  }

  /** `bisect.bisect_left(s, x)`: the number of leading elements smaller than `x`. */
  function BisectLeft(s: seq<ExtPoint>, x: ExtPoint): (i: nat)
    ensures i <= |s|
    ensures forall j | 0 <= j < i :: TupleLt(s[j], x)
    ensures i < |s| ==> !TupleLt(s[i], x)
  {
    if s == [] || !TupleLt(s[0], x) then 0
    else 1 + BisectLeft(s[1..], x)
  }

  /** On a sorted list no element from the bisect position on is smaller than `x`. */
  lemma BisectLeftSorted(s: seq<ExtPoint>, x: ExtPoint)
    requires Sorted(s, LeOrder())
    ensures forall j | BisectLeft(s, x) <= j < |s| :: !TupleLt(s[j], x)
  {
    var i := BisectLeft(s, x);
    forall j | i <= j < |s| ensures !TupleLt(s[j], x) {
      if TupleLt(s[j], x) {
        assert LeOrder()(s[i], s[j]);
        if s[i] != s[j] {
          TupleLtTransitive(s[i], s[j], x);
        }
      }
    }
  }

  /** Python's `s[k]`: a negative index counts from the end; out of range is IndexError. */
  function PyAt(s: seq<ExtPoint>, k: int): (r: Result<ExtPoint>)
    ensures r.Ok? <==> -|s| <= k < |s|
    ensures 0 <= k < |s| ==> r == Ok(s[k])
    ensures -|s| <= k < 0 ==> r == Ok(s[|s| + k])
  {
    if 0 <= k < |s| then Ok(s[k])
    else if -|s| <= k < 0 then Ok(s[|s| + k])
    else Err(IndexError)
  }

  /** The first two coordinates of `a` are each at least those of `b`. */
  predicate Dominates2(a: ExtPoint, b: ExtPoint)
    requires |a| >= 2 && |b| >= 2
  {
    LevelLe(b[0], a[0]) && LevelLe(b[1], a[1])
  }

  /** An input point with finite coordinates. */
  function Lift(p: seq<int>): (r: ExtPoint)
    ensures |r| == |p| && forall i | 0 <= i < |p| :: r[i] == Fin(p[i])
  {
    seq(|p|, i requires 0 <= i < |p| => Fin(p[i]))
  }

  /** Every member has the two coordinates the 2-D archives read. */
  predicate Pairs(s: seq<ExtPoint>)
  {
    forall x | x in s :: |x| >= 2
  }

  /** `dominates(idx, f)` of the 2-D archives: None outside the list,
      otherwise whether the member at `idx` is at least `f` on both of the
      first two coordinates. */
  function DominatesAt(s: seq<ExtPoint>, idx: int, f: ExtPoint): (r: Option<bool>)
    requires Pairs(s) && |f| >= 2
    ensures r.None? <==> idx < 0 || idx >= |s|
    ensures r.Some? ==> (r.value <==> LevelLe(f[0], s[idx][0]) && LevelLe(f[1], s[idx][1]))
  {
    if idx < 0 || idx >= |s| then None
    else Some(Dominates2(s[idx], f))
  }

  /** The elements at and after the bisect position are not below `el`. */
  lemma AfterBisect(s: seq<ExtPoint>, el: ExtPoint)
    requires Sorted(s, LeOrder())
    ensures forall j | BisectLeft(s, el) <= j < |s| :: TupleLe(el, s[j])
  {
    BisectLeftSorted(s, el);
    forall j | BisectLeft(s, el) <= j < |s| ensures TupleLe(el, s[j]) {
      TupleTrichotomy(el, s[j]);
    }
  }

  /** Deleting a stretch keeps a list sorted. */
  lemma SortedCut(s: seq<ExtPoint>, lo: nat, hi: nat)
    requires lo <= hi <= |s| && Sorted(s, LeOrder())
    ensures Sorted(s[..lo] + s[hi..], LeOrder())
  {
    var t := s[..lo] + s[hi..];
    forall a, b | 0 <= a < b < |t| ensures LeOrder()(t[a], t[b]) {
      var a', b' := if a < lo then a else a + hi - lo, if b < lo then b else b + hi - lo;
      assert t[a] == s[a'] && t[b] == s[b'];
    }
  }

  /** Putting `el` in place of the stretch `idx..e` of a sorted list keeps it
      sorted when `el` is not below what stays before it nor above what
      stays after it. */
  lemma SortedOverwrite(s: seq<ExtPoint>, idx: nat, e: nat, el: ExtPoint)
    requires idx <= e <= |s| && Sorted(s, LeOrder())
    requires forall j | 0 <= j < idx :: TupleLe(s[j], el)
    requires forall j | e <= j < |s| :: TupleLe(el, s[j])
    ensures Sorted(s[..idx] + [el] + s[e..], LeOrder())
  {
    SortedCut(s, idx, e);
    var t := s[..idx] + s[e..];
    assert t[..idx] == s[..idx] && t[idx..] == s[e..];
    forall j | 0 <= j < idx ensures LeOrder()(t[j], el) {
      assert t[j] == s[j];
    }
    forall j | idx <= j < |t| ensures LeOrder()(el, t[j]) {
      assert t[j] == s[j + e - idx];
    }
    SortedInsert(t, idx, el, LeOrder());
  }
}
