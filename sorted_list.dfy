/** The sorted container the sweep keeps its archives in (the
    `sortedcontainers.SortedList` of code/main.py:56, 59, 87-88): a list kept
    in order of a key, where `add` inserts behind every element whose key is
    not larger (bisect-right), `remove` drops the first occurrence of a value,
    and slices can be read and deleted. */
module SortedLists {
  import opened Levels
  import opened Dominance
  import opened Sorting
  import opened Seqs

  /** `Natural` is Python's tuple order; `DescLast` is `key=lambda x: -x[-1]`. */
  datatype Key = Natural | DescLast

  /** `a` may precede `b` in a list ordered by `key`. */
  predicate KeyLe(key: Key, a: Point, b: Point)
  {
    match key
    case Natural => LexLe(a, b)
    case DescLast => |a| > 0 && |b| > 0 && a[|a| - 1] >= b[|b| - 1]
  }

  function Order(key: Key): (Point, Point) -> bool
  {
    (a, b) => KeyLe(key, a, b)
  }

  /** A key can be computed for `x`. */
  predicate Keyable(key: Key, x: Point)
  {
    key == DescLast ==> |x| > 0
  }

  lemma KeyLeTotal(key: Key, a: Point, b: Point)
    requires Keyable(key, a) && Keyable(key, b)
    ensures KeyLe(key, a, b) || KeyLe(key, b, a)
  {
    if key == Natural {
      LexLeTotal(a, b);
    }
  }

  lemma KeyLeTransitive(key: Key, a: Point, b: Point, c: Point)
    requires KeyLe(key, a, b) && KeyLe(key, b, c)
    ensures KeyLe(key, a, c)
  {
    if key == Natural {
      LexLeTransitive(a, b, c);
    }
  }

  /** Python's `list.index(v)`: the first position of `v`, or ValueError. */
  function IndexOf(s: seq<Point>, v: Point): (r: Result<nat>)
    ensures r.Ok? <==> v in s
    ensures r.Ok? ==> r.value < |s| && s[r.value] == v && v !in s[..r.value]
  {
    if s == [] then Err(ValueError)
    else if s[0] == v then Ok(0)
    else match IndexOf(s[1..], v)
      case Ok(k) =>
        assert s[..k + 1] == [s[0]] + s[1..][..k];
        Ok(k + 1)
      case Err(e) => Err(e)
  }

  /** The list `add` produces: `x` goes behind the leading elements whose key
      is not larger than its own. */
  function Insort(key: Key, s: seq<Point>, x: Point): (r: seq<Point>)
    ensures multiset(r) == multiset(s) + multiset{x}
    ensures forall y | y in r :: y in s || y == x
  {
    if s == [] then [x]
    else if KeyLe(key, s[0], x) then
      assert s == [s[0]] + s[1..];
      [s[0]] + Insort(key, s[1..], x)
    else [x] + s
  }

  /** `SortedList(init)`: the elements of `init` added one after another. */
  function InsortAll(key: Key, init: seq<Point>): (r: seq<Point>)
    ensures multiset(r) == multiset(init)
  {
    if init == [] then []
    else
      assert init == init[..|init| - 1] + [init[|init| - 1]];
      Insort(key, InsortAll(key, init[..|init| - 1]), init[|init| - 1])
  }

  /** `InsortAll` over one more element inserts that element last. */
  lemma InsortAllSnoc(key: Key, init: seq<Point>, n: nat)
    requires n < |init|
    ensures InsortAll(key, init[..n + 1]) == Insort(key, InsortAll(key, init[..n]), init[n])
  {
    var prefix := init[..n + 1];
    assert prefix[..n] == init[..n] && prefix[n] == init[n];
  }

  /** Inserting at the position that splits the keys not larger than `x`'s from
      the larger ones is what `Insort` computes. */
  lemma {:induction false} InsortAt(key: Key, s: seq<Point>, i: nat, x: Point)
    requires i <= |s|
    requires forall j | 0 <= j < i :: KeyLe(key, s[j], x)
    requires forall j | i <= j < |s| :: !KeyLe(key, s[j], x)
    ensures Insort(key, s, x) == s[..i] + [x] + s[i..]
  {
    if i == 0 {
      if s != [] {
        assert !KeyLe(key, s[0], x);
        assert s[..0] == [] && s[0..] == s;
      }
    } else {
      var t := s[1..];
      assert KeyLe(key, s[0], x);
      SplitOfTail(key, s, i, x);
      InsortAt(key, t, i - 1, x);
      calc {
        Insort(key, s, x);
        [s[0]] + Insort(key, t, x);
        [s[0]] + (t[..i - 1] + [x] + t[i - 1..]);
        { ConsAssoc(s[0], t[..i - 1], x, t[i - 1..]); }
        ([s[0]] + t[..i - 1]) + [x] + t[i - 1..];
        { assert [s[0]] + t[..i - 1] == s[..i] && t[i - 1..] == s[i..]; }
        s[..i] + [x] + s[i..];
      }
    }
  }

  lemma SplitOfTail(key: Key, s: seq<Point>, i: nat, x: Point)
    requires 0 < i <= |s|
    requires forall j | 0 <= j < i :: KeyLe(key, s[j], x)
    requires forall j | i <= j < |s| :: !KeyLe(key, s[j], x)
    ensures forall j | 0 <= j < i - 1 :: KeyLe(key, s[1..][j], x)
    ensures forall j | i - 1 <= j < |s| - 1 :: !KeyLe(key, s[1..][j], x)
  {
    forall j | 0 <= j < i - 1 ensures KeyLe(key, s[1..][j], x) {
      assert s[1..][j] == s[j + 1];
    }
    forall j | i - 1 <= j < |s| - 1 ensures !KeyLe(key, s[1..][j], x) {
      assert s[1..][j] == s[j + 1];
    }
  }

  lemma ConsAssoc(a: Point, u: seq<Point>, x: Point, v: seq<Point>)
    ensures [a] + (u + [x] + v) == ([a] + u) + [x] + v
  {
  }

  class SortedList {
    const key: Key
    var elems: seq<Point>

    ghost predicate Valid()
      reads this
    {
      && Sorted(elems, Order(key))
      && forall x | x in elems :: Keyable(key, x)
    }

    constructor (key: Key)
      ensures Valid() && this.key == key && elems == []
    {
      this.key := key;
      elems := [];
    }

    /** `SortedList(init)`: every element of `init`, in key order. */
    constructor FromSeq(key: Key, init: seq<Point>)
      requires forall x | x in init :: Keyable(key, x)
      ensures Valid() && this.key == key && multiset(elems) == multiset(init)
      ensures elems == InsortAll(key, init)
    {
      this.key := key;
      elems := [];
      new;
      AddAll(init);
    }

    /** Adds the elements of `init`, in order, to an empty list. */
    method AddAll(init: seq<Point>)
      requires Valid() && elems == [] && forall x | x in init :: Keyable(key, x)
      modifies this
      ensures Valid() && elems == InsortAll(key, init)
    {
      for n := 0 to |init|
        invariant Valid() && elems == InsortAll(key, init[..n])
      {
        InsortAllSnoc(key, init, n);
        assert init[n] in init;
        ghost var _ := Add(init[n]);
      }
      assert init[..|init|] == init;
    }

    /** Inserts `x` behind every element whose key is not larger than its own. */
    method Add(x: Point) returns (ghost pos: nat)
      requires Valid() && Keyable(key, x)
      modifies this
      ensures Valid() && multiset(elems) == multiset(old(elems)) + multiset{x}
      ensures pos <= |old(elems)| && elems == old(elems)[..pos] + [x] + old(elems)[pos..]
      ensures forall j | 0 <= j < pos :: KeyLe(key, old(elems)[j], x)
      ensures forall j | pos <= j < |old(elems)| :: !KeyLe(key, old(elems)[j], x)
      ensures elems == Insort(key, old(elems), x)
    {
      var i := 0;
      while i < |elems| && KeyLe(key, elems[i], x)
        invariant 0 <= i <= |elems| && elems == old(elems)
        invariant forall j | 0 <= j < i :: KeyLe(key, elems[j], x)
      {
        i := i + 1;
      }
      forall j | i <= j < |elems| ensures !KeyLe(key, elems[j], x) {
        if KeyLe(key, elems[j], x) {
          assert Order(key)(elems[i], elems[j]);
          KeyLeTransitive(key, elems[i], elems[j], x);
        }
      }
      InsertFits(key, elems, i, x);
      InsortAt(key, elems, i, x);
      elems := elems[..i] + [x] + elems[i..];
      pos := i;
    }

    /** `remove(v)`: drops the first occurrence of `v`. */
    method Remove(v: Point)
      requires Valid() && v in elems
      modifies this
      ensures Valid() && elems == RemoveFirst(old(elems), v)
    {
      RemoveFirstSorted(elems, v, Order(key));
      elems := RemoveFirst(elems, v);
      forall x | x in elems ensures Keyable(key, x) {
        assert x in multiset(elems);
      }
    }

    /** `self[lo:hi]`, empty when the bounds cross. */
    function Slice(lo: nat, hi: nat): (r: seq<Point>)
      reads this
      requires lo <= |elems| && hi <= |elems|
      ensures lo < hi ==> r == elems[lo..hi]
      ensures hi <= lo ==> r == []
    {
      if lo < hi then elems[lo..hi] else []
    }

    /** `del self[lo:hi]`. */
    method DeleteSlice(lo: nat, hi: nat)
      requires Valid() && lo <= |elems| && hi <= |elems|
      modifies this
      ensures Valid()
      ensures elems == if lo < hi then old(elems)[..lo] + old(elems)[hi..] else old(elems)
    {
      if lo < hi {
        var s := elems;
        elems := s[..lo] + s[hi..];
        forall a, b | 0 <= a < b < |elems| ensures Order(key)(elems[a], elems[b]) {
          var a', b' := if a < lo then a else a + hi - lo, if b < lo then b else b + hi - lo;
          assert Order(key)(s[a'], s[b']);
        }
        assert forall x | x in elems :: x in s;
      }
    }
  }

  /** Inserting `x` behind the elements whose key is not larger and before
      the rest keeps a sorted list sorted and adds exactly `x`. */
  lemma InsertFits(key: Key, s: seq<Point>, i: nat, x: Point)
    requires i <= |s| && Sorted(s, Order(key)) && Keyable(key, x)
    requires forall y | y in s :: Keyable(key, y)
    requires forall j | 0 <= j < i :: KeyLe(key, s[j], x)
    requires forall j | i <= j < |s| :: !KeyLe(key, s[j], x)
    ensures Sorted(s[..i] + [x] + s[i..], Order(key))
    ensures forall y | y in s[..i] + [x] + s[i..] :: Keyable(key, y)
    ensures multiset(s[..i] + [x] + s[i..]) == multiset(s) + multiset{x}
  {
    forall j | 0 <= j < i ensures Order(key)(s[j], x) {
    }
    forall j | i <= j < |s| ensures Order(key)(x, s[j]) {
      KeyLeTotal(key, x, s[j]);
    }
    SortedInsert(s, i, x, Order(key));
    SpliceMembers(s, i, i, x);
    InsertCount(s, i, x);
  }
}
