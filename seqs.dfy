/** Python list mechanics the archives rely on: filtering, `list.remove`
    (first occurrence), sortedness under an ordering, and the fact that
    removing one by one every element a scan collected leaves exactly the
    elements the scan did not collect. */
module Seqs {

  /** The elements of `s` that satisfy `f`, in their order in `s`. */
  function Filter<T(!new)>(s: seq<T>, f: T -> bool): (r: seq<T>)
    ensures |r| <= |s|
  {
    if s == [] then []
    else if f(s[0]) then [s[0]] + Filter(s[1..], f)
    else Filter(s[1..], f)
  }

  /** The filtered list holds exactly the elements of `s` that satisfy `f`. */
  lemma {:induction false} FilterMembers<T(!new)>(s: seq<T>, f: T -> bool)
    ensures forall x :: x in Filter(s, f) <==> x in s && f(x)
  {
    if s != [] {
      FilterMembers(s[1..], f);
      assert s == [s[0]] + s[1..];
    }
  }

  /** Filtering by `f` and by its complement `g` splits `s` without loss. */
  lemma {:induction false} FilterPartition<T(!new)>(s: seq<T>, f: T -> bool, g: T -> bool)
    requires forall x :: g(x) == !f(x)
    ensures multiset(Filter(s, f)) + multiset(Filter(s, g)) == multiset(s)
  {
    if s != [] {
      var a, t := s[0], s[1..];
      FilterPartition(t, f, g);
      assert s == [a] + t;
      if f(a) {
        assert Filter(s, f) == [a] + Filter(t, f) && Filter(s, g) == Filter(t, g);
      } else {
        assert Filter(s, f) == Filter(t, f) && Filter(s, g) == [a] + Filter(t, g);
      }
    }
  }

  lemma {:induction false} FilterAppend<T(!new)>(s: seq<T>, x: T, f: T -> bool)
    ensures Filter(s + [x], f) == Filter(s, f) + if f(x) then [x] else []
  {
    if s == [] {
      assert [x][1..] == [];
    } else {
      assert (s + [x])[1..] == s[1..] + [x];
      FilterAppend(s[1..], x, f);
    }
  }

  /** Filtering keeps every copy of a value the predicate accepts. */
  lemma {:induction false} FilterKeepsCount<T(!new)>(s: seq<T>, f: T -> bool, x: T)
    requires f(x)
    ensures multiset(Filter(s, f))[x] == multiset(s)[x]
  {
    if s != [] {
      FilterKeepsCount(s[1..], f, x);
      assert s == [s[0]] + s[1..];
    }
  }

  /** When exactly the positions `lo..hi` satisfy `f`, filtering by `f` keeps that slice. */
  lemma {:induction false} FilterContiguous<T(!new)>(s: seq<T>, f: T -> bool, lo: nat, hi: nat)
    requires lo <= hi <= |s|
    requires forall i | 0 <= i < |s| :: f(s[i]) <==> lo <= i < hi
    ensures Filter(s, f) == s[lo..hi]
  {
    if s != [] {
      var t := s[1..];
      var lo', hi' := if lo > 0 then lo - 1 else 0, if hi > 0 then hi - 1 else 0;
      forall i | 0 <= i < |t| ensures f(t[i]) <==> lo' <= i < hi' {
        assert t[i] == s[i + 1];
      }
      FilterContiguous(t, f, lo', hi');
      if lo == 0 && hi > 0 {
        assert f(s[0]);
        calc {
          Filter(s, f);
          [s[0]] + Filter(t, f);
          [s[0]] + t[0..hi - 1];
          s[0..hi];
        }
      } else {
        assert !f(s[0]);
        calc {
          Filter(s, f);
          Filter(t, f);
          t[lo'..hi'];
          s[lo..hi];
        }
      }
    }
  }

  /** ... and filtering by a predicate that holds exactly outside `lo..hi` keeps the rest. */
  lemma {:induction false} FilterOutsideContiguous<T(!new)>(s: seq<T>, g: T -> bool, lo: nat, hi: nat)
    requires lo <= hi <= |s|
    requires forall i | 0 <= i < |s| :: g(s[i]) <==> !(lo <= i < hi)
    ensures Filter(s, g) == s[..lo] + s[hi..]
  {
    if s != [] {
      var t := s[1..];
      var lo', hi' := if lo > 0 then lo - 1 else 0, if hi > 0 then hi - 1 else 0;
      forall i | 0 <= i < |t| ensures g(t[i]) <==> !(lo' <= i < hi') {
        assert t[i] == s[i + 1];
      }
      FilterOutsideContiguous(t, g, lo', hi');
      if lo == 0 && hi > 0 {
        assert Filter(s, g) == Filter(t, g);
        assert s[hi..] == t[hi'..];
      } else {
        assert Filter(s, g) == [s[0]] + Filter(t, g);
        if lo > 0 {
          assert s[..lo] == [s[0]] + t[..lo'];
          assert s[hi..] == t[hi'..];
        } else {
          assert s == [s[0]] + t;
        }
      }
    }
  }

  /** Python's `list.remove(v)`: drops the first occurrence of `v`. */
  function RemoveFirst<T(==)>(s: seq<T>, v: T): (r: seq<T>)
    ensures v in s ==> |r| == |s| - 1 && multiset(r) == multiset(s) - multiset{v}
    ensures v !in s ==> r == s
    ensures forall y | y in r :: y in s
  {
    if s == [] then []
    else
      assert s == [s[0]] + s[1..];
      if s[0] == v then s[1..]
      else [s[0]] + RemoveFirst(s[1..], v)
  }

  /** `s` with its first `k` elements that satisfy `f` dropped. */
  function DropMatching<T>(s: seq<T>, f: T -> bool, k: nat): seq<T>
  {
    if s == [] then []
    else if f(s[0]) && k > 0 then DropMatching(s[1..], f, k - 1)
    else [s[0]] + DropMatching(s[1..], f, k)
  }

  lemma {:induction false} DropNone<T>(s: seq<T>, f: T -> bool)
    ensures DropMatching(s, f, 0) == s
  {
    if s != [] {
      DropNone(s[1..], f);
    }
  }

  /** Dropping as many matches as there are leaves the others (`g` is the complement of `f`). */
  lemma {:induction false} DropAll<T(!new)>(s: seq<T>, f: T -> bool, g: T -> bool)
    requires forall x :: g(x) == !f(x)
    ensures DropMatching(s, f, |Filter(s, f)|) == Filter(s, g)
  {
    if s != [] {
      DropAll(s[1..], f, g);
    }
  }

  /** The (k+1)-th collected element is still present after k removals. */
  lemma {:induction false} DropKeepsNext<T(!new)>(s: seq<T>, f: T -> bool, k: nat)
    requires k < |Filter(s, f)|
    ensures Filter(s, f)[k] in DropMatching(s, f, k)
  {
    var a, t := s[0], s[1..];
    if f(a) {
      if k == 0 {
        DropNone(s, f);
      } else {
        DropKeepsNext(t, f, k - 1);
      }
    } else {
      DropKeepsNext(t, f, k);
    }
  }

  /** Removing the (k+1)-th collected element by value drops exactly it:
      every earlier occurrence of the same value was collected, and dropped, before. */
  lemma {:induction false} DropStep<T(!new)>(s: seq<T>, f: T -> bool, k: nat)
    requires k < |Filter(s, f)|
    ensures RemoveFirst(DropMatching(s, f, k), Filter(s, f)[k]) == DropMatching(s, f, k + 1)
  {
    var a, t := s[0], s[1..];
    if f(a) {
      assert Filter(s, f) == [a] + Filter(t, f);
      assert DropMatching(s, f, k + 1) == DropMatching(t, f, k);
      if k == 0 {
        DropNone(s, f);
        DropNone(t, f);
        assert RemoveFirst(s, a) == t;
      } else {
        assert DropMatching(s, f, k) == DropMatching(t, f, k - 1);
        DropStep(t, f, k - 1);
      }
    } else {
      assert Filter(s, f) == Filter(t, f);
      var v := Filter(t, f)[k];
      FilterMembers(t, f);
      assert v in Filter(t, f) && a != v;
      assert DropMatching(s, f, k) == [a] + DropMatching(t, f, k);
      assert DropMatching(s, f, k + 1) == [a] + DropMatching(t, f, k + 1);
      DropStep(t, f, k);
    }
  }

  /** `s` is ordered by `le` (every earlier element is `le` every later one). */
  ghost predicate Sorted<T>(s: seq<T>, le: (T, T) -> bool)
  {
    forall i, j | 0 <= i < j < |s| :: le(s[i], s[j])
  }

  lemma {:induction false} FilterSorted<T(!new)>(s: seq<T>, f: T -> bool, le: (T, T) -> bool)
    requires Sorted(s, le)
    ensures Sorted(Filter(s, f), le)
  {
    if s != [] {
      FilterSorted(s[1..], f, le);
      FilterMembers(s[1..], f);
      var r := Filter(s[1..], f);
      forall x | x in r ensures le(s[0], x) {
        var j :| 0 <= j < |s[1..]| && s[1..][j] == x;
        assert s[j + 1] == x;
      }
    }
  }

  lemma {:induction false} RemoveFirstSorted<T>(s: seq<T>, v: T, le: (T, T) -> bool)
    requires Sorted(s, le)
    ensures Sorted(RemoveFirst(s, v), le)
  {
    if s != [] && s[0] != v {
      var t := s[1..];
      RemoveFirstSorted(t, v, le);
      var r := RemoveFirst(t, v);
      forall y | y in r ensures le(s[0], y) {
        assert y in t;
        var j :| 0 <= j < |t| && t[j] == y;
        assert s[j + 1] == y;
      }
      SortedCons(s[0], r, le);
      assert RemoveFirst(s, v) == [s[0]] + r;
    }
  }

  /** A head related to every member of a sorted tail keeps it sorted. */
  lemma SortedCons<T>(h: T, t: seq<T>, le: (T, T) -> bool)
    requires Sorted(t, le) && forall y | y in t :: le(h, y)
    ensures Sorted([h] + t, le)
  {
    var r := [h] + t;
    forall a, b | 0 <= a < b < |r| ensures le(r[a], r[b]) {
      assert r[b] == t[b - 1] && r[b] in t;
      if a > 0 {
        assert r[a] == t[a - 1];
      }
    }
  }

  /** Inserting `x` where everything before relates to it and it relates to
      everything after keeps `s` sorted. */
  lemma SortedInsert<T>(s: seq<T>, pos: nat, x: T, le: (T, T) -> bool)
    requires pos <= |s| && Sorted(s, le)
    requires forall j | 0 <= j < pos :: le(s[j], x)
    requires forall j | pos <= j < |s| :: le(x, s[j])
    ensures Sorted(s[..pos] + [x] + s[pos..], le)
  {
    var r := s[..pos] + [x] + s[pos..];
    forall a, b | 0 <= a < b < |r| ensures le(r[a], r[b]) {
      if a == pos {
        assert r[b] == s[b - 1];
      } else if b == pos {
        assert r[a] == s[a];
      } else {
        var a', b' := if a < pos then a else a - 1, if b < pos then b else b - 1;
        assert r[a] == s[a'] && r[b] == s[b'];
      }
    }
  }

  /** Putting `x` in place of the stretch `lo..hi` brings in nothing but `x`. */
  lemma SpliceMembers<T>(s: seq<T>, lo: nat, hi: nat, x: T)
    requires lo <= hi <= |s|
    ensures forall y | y in s[..lo] + [x] + s[hi..] :: y in s || y == x
  {
    var r := s[..lo] + [x] + s[hi..];
    forall i | 0 <= i < |r| ensures r[i] in s || r[i] == x {
      if i < lo {
        assert r[i] == s[i];
      } else if i > lo {
        assert r[i] == s[i - lo - 1 + hi];
      }
    }
  }

  /** Cutting the stretch `lo..hi` out of `s` splits it in two. */
  lemma CutPartition<T>(s: seq<T>, lo: nat, hi: nat)
    requires lo <= hi <= |s|
    ensures multiset(s[lo..hi]) + multiset(s[..lo] + s[hi..]) == multiset(s)
    ensures forall y | y in s[lo..hi] :: y in s
    ensures forall y | y in s[..lo] + s[hi..] :: y in s
  {
    assert s == s[..lo] + s[lo..hi] + s[hi..];
    forall y | y in s[..lo] + s[hi..] ensures y in s {
      assert y in multiset(s[..lo] + s[hi..]);
    }
  }

  /** Where `x` replaces the stretch `lo..hi`, the prefix before it and the
      suffix after it are untouched. */
  lemma SpliceParts<T>(s: seq<T>, lo: nat, hi: nat, x: T)
    requires lo <= hi <= |s|
    ensures (s[..lo] + [x] + s[hi..])[..lo] == s[..lo]
    ensures (s[..lo] + [x] + s[hi..])[lo] == x
    ensures (s[..lo] + [x] + s[hi..])[lo + 1..] == s[hi..]
  {
  }

  /** Inserting `x` at position `i` adds one copy of `x` and nothing else. */
  lemma InsertCount<T>(s: seq<T>, i: nat, x: T)
    requires i <= |s|
    ensures multiset(s[..i] + [x] + s[i..]) == multiset(s) + multiset{x}
  {
    assert s == s[..i] + s[i..];
  }
}
