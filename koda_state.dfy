/** The 2-D archive of the older 3-D sweep, koda/state.py: a list kept in
    tuple order.  `add` inserts at the bisect position; when the element
    there is not lower in the second coordinate, the new element overwrites
    it and the following run of members not higher than the new element in
    the second coordinate is deleted.  `remove_dominated` deletes that same
    stretch without inserting. */
module KodaState {
  import opened Levels
  import opened Seqs
  import opened KodaPoints

  /** `add` takes the plain path: the bisect position is the end of the list,
      or `el` is higher there in the second coordinate. */
  predicate Plain(s: seq<ExtPoint>, el: ExtPoint)
    requires Pairs(s) && |el| >= 2
  {
    var idx := BisectLeft(s, el);
    idx == |s| || LevelLt(s[idx][1], el[1])
  }

  /** Where the scan right from `from` stops: the first position whose second
      coordinate exceeds `y`, or the end. */
  function RunEnd(s: seq<ExtPoint>, from: nat, y: Level): (e: nat)
    requires Pairs(s) && from <= |s|
    ensures from <= e <= |s|
    ensures forall j | from <= j < e :: LevelLe(s[j][1], y)
    ensures e < |s| ==> !LevelLe(s[e][1], y)
    decreases |s| - from
  {
    if from == |s| || !LevelLe(s[from][1], y) then from
    else RunEnd(s, from + 1, y)
  }

  /** The list `add(el)` leaves behind when it started from `s`. */
  function Added(s: seq<ExtPoint>, el: ExtPoint): seq<ExtPoint>
    requires Pairs(s) && |el| >= 2
  {
    var idx := BisectLeft(s, el);
    if Plain(s, el) then s[..idx] + [el] + s[idx..]
    else s[..idx] + [el] + s[RunEnd(s, idx + 1, el[1])..]
  }

  /** What `remove_dominated(el)` returns, and the list it leaves behind. */
  function Removed(s: seq<ExtPoint>, el: ExtPoint): (seq<ExtPoint>, seq<ExtPoint>)
    requires Pairs(s) && |el| >= 2
  {
    var idx := BisectLeft(s, el);
    if Plain(s, el) then ([], s)
    else
      var e := RunEnd(s, idx + 1, el[1]);
      (s[idx..e], s[..idx] + s[e..])
  }

  class State {
    var elems: seq<ExtPoint>

    ghost predicate Valid()
      reads this
    {
      Sorted(elems, LeOrder()) && Pairs(elems)
    }

    /** `State(lst)`: the elements of `lst` in tuple order. */
    constructor (lst: seq<ExtPoint>)
      requires Pairs(lst)
      ensures Valid() && elems == SortTuples(lst)
    {
      elems := SortTuples(lst);
      new;
      assert forall x | x in elems :: x in multiset(lst);
    }

    /** `add(el)`; returns the bisect position, where `el` now sits.  The
        dominance check at its start only prints. */
    method Add(el: ExtPoint) returns (idx: nat)
      requires Valid() && |el| >= 2
      modifies this
      ensures Valid()
      ensures idx == BisectLeft(old(elems), el) && elems == Added(old(elems), el)
    {
      ghost var s := elems;
      AddedSorted(s, el);
      idx := BisectLeft(elems, el);
      if idx == |elems| || LevelLt(elems[idx][1], el[1]) {
        assert Added(s, el) == s[..idx] + [el] + s[idx..];
        elems := elems[..idx] + [el] + elems[idx..];
      } else {
        assert Added(s, el) == s[..idx] + [el] + s[RunEnd(s, idx + 1, el[1])..];
        OverwriteRun(el, idx);
      }
    }

    /** The overwriting path of `add`: `el` takes position `idx` and the run
        after it whose second coordinate is at most `el`'s is deleted. */
    method OverwriteRun(el: ExtPoint, idx: nat)
      requires Pairs(elems) && |el| >= 2 && idx < |elems|
      modifies this
      ensures elems == old(elems)[..idx] + [el] + old(elems)[RunEnd(old(elems), idx + 1, el[1])..]
    {
      ghost var s := elems;
      var idx2 := idx + 1;
      while idx2 < |elems| && LevelLe(elems[idx2][1], el[1])
        invariant idx + 1 <= idx2 <= |elems| && elems == s
        invariant RunEnd(s, idx + 1, el[1]) == RunEnd(s, idx2, el[1])
        decreases |elems| - idx2
      {
        idx2 := idx2 + 1;
      }
      elems := elems[idx := el];
      elems := elems[..idx + 1] + elems[idx2..];
      assert elems == s[..idx] + [el] + s[idx2..];
    }

    /** `remove_dominated(el)`: deletes and returns the stretch `add(el)`
        would overwrite, or nothing on the plain path. */
    method RemoveDominated(el: ExtPoint) returns (removed: seq<ExtPoint>)
      requires Valid() && |el| >= 2
      modifies this
      ensures Valid()
      ensures (removed, elems) == Removed(old(elems), el)
    {
      ghost var s := elems;
      RemovedSorted(s, el);
      var idx := BisectLeft(elems, el);
      if idx == |elems| || LevelLt(elems[idx][1], el[1]) {
        return [];
      }
      var idx2 := idx + 1;
      while idx2 < |elems| && LevelLe(elems[idx2][1], el[1])
        invariant idx + 1 <= idx2 <= |elems| && elems == s
        invariant RunEnd(s, idx + 1, el[1]) == RunEnd(s, idx2, el[1])
        decreases |elems| - idx2
      {
        idx2 := idx2 + 1;
      }
      removed := elems[idx..idx2];
      elems := elems[..idx] + elems[idx2..];
    }
  }

  /** Every member after `add` is `el` or was there before. */
  lemma AddedMembers(s: seq<ExtPoint>, el: ExtPoint)
    requires Pairs(s) && |el| >= 2
    ensures forall x | x in Added(s, el) :: x in s || x == el
  {
    var idx := BisectLeft(s, el);
    var e := if Plain(s, el) then idx else RunEnd(s, idx + 1, el[1]);
    assert Added(s, el) == s[..idx] + [el] + s[e..];
    SpliceMembers(s, idx, e, el);
  }

  /** `add` keeps the list sorted, `el` sits at the bisect position
      afterwards, and every member is `el` or was there before. */
  lemma AddedSorted(s: seq<ExtPoint>, el: ExtPoint)
    requires Sorted(s, LeOrder()) && Pairs(s) && |el| >= 2
    ensures Sorted(Added(s, el), LeOrder()) && Pairs(Added(s, el))
    ensures Added(s, el)[BisectLeft(s, el)] == el
    ensures forall x | x in Added(s, el) :: x in s || x == el
  {
    var idx := BisectLeft(s, el);
    var e := if Plain(s, el) then idx else RunEnd(s, idx + 1, el[1]);
    AfterBisect(s, el);
    SortedOverwrite(s, idx, e, el);
    assert Added(s, el) == s[..idx] + [el] + s[e..];
    AddedMembers(s, el);
  }

  /** `remove_dominated` keeps the list sorted and only drops members. */
  lemma RemovedSorted(s: seq<ExtPoint>, el: ExtPoint)
    requires Sorted(s, LeOrder()) && Pairs(s) && |el| >= 2
    ensures Sorted(Removed(s, el).1, LeOrder()) && Pairs(Removed(s, el).1)
  {
    var idx := BisectLeft(s, el);
    if !Plain(s, el) {
      SortedCut(s, idx, RunEnd(s, idx + 1, el[1]));
      assert forall x | x in Removed(s, el).1 :: x in s;
    }
  }

  /** `remove_dominated` splits the list in two: what it returns and what
      it keeps together make up the list it started from. */
  lemma RemovedPartition(s: seq<ExtPoint>, el: ExtPoint)
    requires Pairs(s) && |el| >= 2
    ensures multiset(Removed(s, el).0) + multiset(Removed(s, el).1) == multiset(s)
    ensures forall x | x in Removed(s, el).0 :: x in s
    ensures forall x | x in Removed(s, el).1 :: x in s
  {
    var idx := BisectLeft(s, el);
    if Plain(s, el) {
      assert Removed(s, el) == ([], s);
    } else {
      var e := RunEnd(s, idx + 1, el[1]);
      assert Removed(s, el) == (s[idx..e], s[..idx] + s[e..]);
      CutPartition(s, idx, e);
    }
  }

  /** On the plain path `add` only inserts: the list grows by one and loses
      nothing. */
  lemma AddedInserts(s: seq<ExtPoint>, el: ExtPoint)
    requires Pairs(s) && |el| >= 2 && Plain(s, el)
    ensures |Added(s, el)| == |s| + 1
    ensures multiset(Added(s, el)) == multiset(s) + multiset{el}
  {
    var idx := BisectLeft(s, el);
    assert Added(s, el) == s[..idx] + [el] + s[idx..];
    InsertCount(s, idx, el);
  }

  /** Off the plain path the element at the bisect position is not lower
      than `el` in the second coordinate, the run after it is not higher,
      and the element after the run is higher. */
  lemma RunBounds(s: seq<ExtPoint>, el: ExtPoint)
    requires Pairs(s) && |el| >= 2 && !Plain(s, el)
    ensures BisectLeft(s, el) < |s| && LevelLe(el[1], s[BisectLeft(s, el)][1])
    ensures var e := RunEnd(s, BisectLeft(s, el) + 1, el[1]);
      e < |s| ==> LevelLt(el[1], s[e][1])
  {
    var idx := BisectLeft(s, el);
    var e := RunEnd(s, idx + 1, el[1]);
    LevelTotal(el[1], s[idx][1]);
    if e < |s| {
      LevelTotal(s[e][1], el[1]);
    }
  }

  /** Off the plain path `el` overwrites the element at the bisect position,
      which is not lower than `el` in the second coordinate, and the run
      after it whose second coordinate is at most `el`'s goes; everything
      before the bisect position and after the run stays. */
  lemma AddedOverwrites(s: seq<ExtPoint>, el: ExtPoint)
    requires Pairs(s) && |el| >= 2 && !Plain(s, el)
    ensures var idx := BisectLeft(s, el);
      var e := RunEnd(s, idx + 1, el[1]);
      && idx < |s| && LevelLe(el[1], s[idx][1])
      && (forall j | idx < j < e :: LevelLe(s[j][1], el[1]))
      && (e < |s| ==> LevelLt(el[1], s[e][1]))
      && Added(s, el)[..idx] == s[..idx]
      && Added(s, el)[idx] == el
      && Added(s, el)[idx + 1..] == s[e..]
  {
    RunBounds(s, el);
    var idx := BisectLeft(s, el);
    var e := RunEnd(s, idx + 1, el[1]);
    assert Added(s, el) == s[..idx] + [el] + s[e..];
    SpliceParts(s, idx, e, el);
  }

  /** `remove_dominated` returns nothing exactly on the plain path of `add`,
      and `add` equals `remove_dominated` followed by inserting `el` at the
      bisect position. */
  lemma RemovedMatchesAdded(s: seq<ExtPoint>, el: ExtPoint)
    requires Pairs(s) && |el| >= 2
    ensures Removed(s, el).0 == [] <==> Plain(s, el)
    ensures |Removed(s, el).1| == |s| - |Removed(s, el).0|
    ensures BisectLeft(s, el) <= |Removed(s, el).1|
    ensures Added(s, el) == Removed(s, el).1[..BisectLeft(s, el)] + [el] + Removed(s, el).1[BisectLeft(s, el)..]
  {
    var idx := BisectLeft(s, el);
    if !Plain(s, el) {
      var e := RunEnd(s, idx + 1, el[1]);
      var rest := s[..idx] + s[e..];
      assert rest[..idx] == s[..idx] && rest[idx..] == s[e..];
    } else {
      assert s[..idx] + s[idx..] == s;
    }
  }

  /** The stretch `remove_dominated` returns starts with a member not lower
      than `el` in the second coordinate and continues with members not
      higher. */
  lemma RemovedRun(s: seq<ExtPoint>, el: ExtPoint)
    requires Pairs(s) && |el| >= 2
    ensures Removed(s, el).0 != [] ==> LevelLe(el[1], Removed(s, el).0[0][1])
    ensures forall k | 1 <= k < |Removed(s, el).0| :: LevelLe(Removed(s, el).0[k][1], el[1])
  {
    var idx := BisectLeft(s, el);
    if !Plain(s, el) {
      var e := RunEnd(s, idx + 1, el[1]);
      LevelTotal(el[1], s[idx][1]);
      var removed := s[idx..e];
      forall k | 1 <= k < |removed| ensures LevelLe(removed[k][1], el[1]) {
        assert removed[k] == s[idx + k];
      }
    }
  }

  /** With the two sentinels of the sweep, adding (5, 5) and then the lower
      (3, 3) deletes the sentinel (inf, 0): (3, 3) overwrites (5, 5) and the
      run after it reaches the end of the list. */
  lemma SentinelLost()
    ensures Added([[Fin(0), Inf], [Inf, Fin(0)]], [Fin(5), Fin(5)])
      == [[Fin(0), Inf], [Fin(5), Fin(5)], [Inf, Fin(0)]]
    ensures Added([[Fin(0), Inf], [Fin(5), Fin(5)], [Inf, Fin(0)]], [Fin(3), Fin(3)])
      == [[Fin(0), Inf], [Fin(3), Fin(3)]]
  {
    var s0: seq<ExtPoint> := [[Fin(0), Inf], [Inf, Fin(0)]];
    var p: ExtPoint := [Fin(5), Fin(5)];
    assert TupleLt(s0[0], p) && !TupleLt(s0[1], p);
    assert BisectLeft(s0[1..], p) == 0;
    assert BisectLeft(s0, p) == 1;
    var s1: seq<ExtPoint> := [[Fin(0), Inf], [Fin(5), Fin(5)], [Inf, Fin(0)]];
    var q: ExtPoint := [Fin(3), Fin(3)];
    assert TupleLt(s1[0], q) && !TupleLt(s1[1], q);
    assert BisectLeft(s1[1..], q) == 0;
    assert BisectLeft(s1, q) == 1;
    assert !Plain(s1, q);
    assert RunEnd(s1, 3, q[1]) == 3;
    assert RunEnd(s1, 2, q[1]) == 3;
  }
}
