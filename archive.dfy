/** The non-dominated archive of the sweep (code/main.py:123-167): removal of
    the members a new point dominates, by a linear scan in any dimension or by
    one contiguous slice on a 2-D staircase, and insertion with eviction. */
module Archive {
  import opened Levels
  import opened Dominance
  import opened Sorting
  import opened Seqs
  import opened SortedLists

  /** The `domination` argument, "strict" or "weak". */
  datatype Mode = Strict | Weak

  /** The removal test of code/main.py:144-145. */
  predicate Evicts(mode: Mode, p: Point, x: Point)
  {
    StrictlyDominates(p, x) || (mode == Weak && WeaklyDominates(p, x))
  }

  function Evictor(mode: Mode, p: Point): Point -> bool
  {
    x => Evicts(mode, p, x)
  }

  function Keeper(mode: Mode, p: Point): Point -> bool
  {
    x => !Evicts(mode, p, x)
  }

  /** Weak mode evicts exactly the weakly dominated members; strict mode only
      the strictly dominated ones, which never include an equal point. */
  lemma EvictsMeaning(mode: Mode, p: Point, x: Point)
    ensures Evicts(Weak, p, x) <==> WeaklyDominates(p, x)
    ensures Evicts(Strict, p, x) <==> StrictlyDominates(p, x)
    ensures |p| > 0 ==> !Evicts(Strict, p, p)
  {
    if StrictlyDominates(p, x) {
      StrictImpliesWeak(p, x);
    }
    if |p| > 0 && StrictlyDominates(p, p) {
      StrictImpliesWeak(p, p);
    }
  }

  /** A 2-D staircase: first coordinates strictly rise and second ones strictly
      fall along the list, which is how an antichain of pairs looks in tuple order. */
  predicate StairBefore(a: Point, b: Point)
  {
    |a| == 2 && |b| == 2 && a[0] < b[0] && a[1] > b[1]
  }

  function StairOrder(): (Point, Point) -> bool
  {
    (a, b) => StairBefore(a, b)
  }

  ghost predicate Staircase(s: seq<Point>)
  {
    && HasDim(s, 2)
    && Sorted(s, StairOrder())
  }

  lemma StaircaseIsAntichain(s: seq<Point>)
    requires Staircase(s)
    ensures Antichain(s) && Sorted(s, Order(Natural))
  {
    forall i, j | 0 <= i < j < |s| ensures Incomparable(s[i], s[j]) && LexLe(s[i], s[j]) {
      assert StairOrder()(s[i], s[j]);
      LexLePair(s[i], s[j]);
    }
  }

  function IncomparableOrder(): (Point, Point) -> bool
  {
    (a, b) => Incomparable(a, b)
  }

  lemma AntichainSorted(s: seq<Point>)
    ensures Antichain(s) <==> Sorted(s, IncomparableOrder())
  {
  }

  /** The first position from which `f` holds, for an `f` that, once true
      along `s`, stays true. */
  method LowerBound(s: seq<Point>, f: Point -> bool) returns (k: nat)
    requires forall i, j | 0 <= i <= j < |s| :: f(s[i]) ==> f(s[j])
    ensures k <= |s|
    ensures forall i | 0 <= i < k :: !f(s[i])
    ensures forall i | k <= i < |s| :: f(s[i])
  {
    var lo, hi := 0, |s|;
    while lo < hi
      invariant 0 <= lo <= hi <= |s|
      invariant forall i | 0 <= i < lo :: !f(s[i])
      invariant forall i | hi <= i < |s| :: f(s[i])
    {
      var mid := (lo + hi) / 2;
      if f(s[mid]) {
        hi := mid;
      } else {
        lo := mid + 1;
      }
    }
    k := lo;
  }

  /** `get_dominated_points_bisect`: the slice of a staircase that `p`
      dominates, found by one binary search on each coordinate. */
  method GetDominatedPointsBisect(s: seq<Point>, p: Point, mode: Mode) returns (left: nat, right: nat)
    requires Staircase(s) && |p| == 2
    ensures left <= |s| && right <= |s|
    ensures forall i | 0 <= i < |s| :: (left <= i < right) <==> Evicts(mode, p, s[i])
  {
    var below: Point -> bool := x => |x| == 2 && (if mode == Weak then x[1] <= p[1] else x[1] < p[1]);
    var beyond: Point -> bool := x => |x| == 2 && (if mode == Weak then x[0] > p[0] else x[0] >= p[0]);
    forall i, j | 0 <= i < j < |s| ensures (below(s[i]) ==> below(s[j])) && (beyond(s[i]) ==> beyond(s[j])) {
      assert StairOrder()(s[i], s[j]);
    }
    left := LowerBound(s, below);
    right := LowerBound(s, beyond);
    forall i | 0 <= i < |s| ensures (left <= i < right) <==> Evicts(mode, p, s[i]) {
      EvictsMeaning(mode, p, s[i]);
    }
  }

  /** The first loop of `remove_dominated_nd`: the members `p` evicts, in list order. */
  method CollectEvicted(s: seq<Point>, p: Point, mode: Mode) returns (removed: seq<Point>)
    ensures removed == Filter(s, Evictor(mode, p))
  {
    removed := [];
    for k := 0 to |s|
      invariant removed == Filter(s[..k], Evictor(mode, p))
    {
      FilterAppend(s[..k], s[k], Evictor(mode, p));
      assert s[..k + 1] == s[..k] + [s[k]];
      if Evicts(mode, p, s[k]) {
        removed := removed + [s[k]];
      }
    }
    assert s[..|s|] == s;
  }

  /** `remove_dominated_nd`: collects the members `p` evicts, in list order,
      then removes each of them by value. */
  method RemoveDominatedNd(state: SortedList, p: Point, mode: Mode) returns (removed: seq<Point>)
    requires state.Valid()
    modifies state
    ensures state.Valid()
    ensures removed == Filter(old(state.elems), Evictor(mode, p))
    ensures state.elems == Filter(old(state.elems), Keeper(mode, p))
  {
    ghost var s := state.elems;
    removed := CollectEvicted(state.elems, p, mode);
    DropNone(s, Evictor(mode, p));
    for k := 0 to |removed|
      invariant state.Valid() && state.elems == DropMatching(s, Evictor(mode, p), k)
    {
      DropKeepsNext(s, Evictor(mode, p), k);
      DropStep(s, Evictor(mode, p), k);
      state.Remove(removed[k]);
    }
    DropAll(s, Evictor(mode, p), Keeper(mode, p));
  }

  /** `remove_dominated_3d`: deletes the one slice of a staircase that `p`
      dominates and returns it. */
  method RemoveDominated3d(state: SortedList, p: Point, mode: Mode) returns (removed: seq<Point>)
    requires state.Valid() && state.key == Natural && Staircase(state.elems) && |p| == 2
    modifies state
    ensures state.Valid() && Staircase(state.elems)
    ensures removed == Filter(old(state.elems), Evictor(mode, p))
    ensures state.elems == Filter(old(state.elems), Keeper(mode, p))
    ensures forall x | x in removed :: WeaklyDominates(p, x) && x !in state.elems
  {
    var s := state.elems;
    var left, right := GetDominatedPointsBisect(s, p, mode);
    EvictionIsSlice(s, p, mode, left, right);
    EvictionSplits(s, p, mode);
    removed := state.Slice(left, right);
    state.DeleteSlice(left, right);
  }

  /** When `p` evicts exactly the positions `left..right`, eviction is that
      slice and what stays is the rest. */
  lemma EvictionIsSlice(s: seq<Point>, p: Point, mode: Mode, left: nat, right: nat)
    requires left <= |s| && right <= |s|
    requires forall i | 0 <= i < |s| :: (left <= i < right) <==> Evicts(mode, p, s[i])
    ensures Filter(s, Evictor(mode, p)) == if left < right then s[left..right] else []
    ensures Filter(s, Keeper(mode, p)) == if left < right then s[..left] + s[right..] else s
  {
    var hi := if left < right then right else left;
    EvictedSlice(s, p, mode, left, hi);
    KeptSlice(s, p, mode, left, hi);
    if left >= right {
      assert s[left..hi] == [];
      assert s[..left] + s[hi..] == s;
    }
  }

  /** The evicted members of `s` are the slice `lo..hi` when exactly those
      positions are evicted. */
  lemma EvictedSlice(s: seq<Point>, p: Point, mode: Mode, lo: nat, hi: nat)
    requires lo <= hi <= |s|
    requires forall i | 0 <= i < |s| :: (lo <= i < hi) <==> Evicts(mode, p, s[i])
    ensures Filter(s, Evictor(mode, p)) == s[lo..hi]
  {
    forall i | 0 <= i < |s| ensures Evictor(mode, p)(s[i]) <==> lo <= i < hi {
      assert Evictor(mode, p)(s[i]) == Evicts(mode, p, s[i]);
    }
    FilterContiguous(s, Evictor(mode, p), lo, hi);
  }

  /** The kept members of `s` are everything outside the slice `lo..hi` when
      exactly those positions are evicted. */
  lemma KeptSlice(s: seq<Point>, p: Point, mode: Mode, lo: nat, hi: nat)
    requires lo <= hi <= |s|
    requires forall i | 0 <= i < |s| :: (lo <= i < hi) <==> Evicts(mode, p, s[i])
    ensures Filter(s, Keeper(mode, p)) == s[..lo] + s[hi..]
  {
    forall i | 0 <= i < |s| ensures Keeper(mode, p)(s[i]) <==> !(lo <= i < hi) {
      assert Keeper(mode, p)(s[i]) == !Evicts(mode, p, s[i]);
    }
    FilterOutsideContiguous(s, Keeper(mode, p), lo, hi);
  }

  /** Eviction splits a staircase into the members `p` dominates and a
      remainder that is still a staircase. */
  lemma EvictionSplits(s: seq<Point>, p: Point, mode: Mode)
    requires Staircase(s)
    ensures Staircase(Filter(s, Keeper(mode, p)))
    ensures forall x | x in Filter(s, Evictor(mode, p)) ::
      WeaklyDominates(p, x) && x !in Filter(s, Keeper(mode, p))
  {
    FilterSorted(s, Keeper(mode, p), StairOrder());
    FilterMembers(s, Keeper(mode, p));
    FilterMembers(s, Evictor(mode, p));
    forall x | x in Filter(s, Evictor(mode, p)) ensures WeaklyDominates(p, x) {
      EvictsMeaning(mode, p, x);
    }
  }

  /** The members that survive the weak eviction by `p`. */
  function Kept(s: seq<Point>, p: Point): (r: seq<Point>)
    ensures forall x | x in r :: x in s && !WeaklyDominates(p, x)
  {
    var r := Filter(s, Keeper(Weak, p));
    FilterMembers(s, Keeper(Weak, p));
    assert forall x | x in r :: !Evicts(Weak, p, x);
    forall x | x in r ensures !WeaklyDominates(p, x) {
      EvictsMeaning(Weak, p, x);
    }
    r
  }

  /** The state `add_to_state` leaves: the survivors of the weak eviction,
      with `p` inserted in key order unless one of them dominates it. */
  function AddedState(key: Key, s: seq<Point>, p: Point): (r: seq<Point>)
    ensures HasDim(s, |p|) ==> HasDim(r, |p|)
    ensures p in r <==> !StateDominatesPoint(Kept(s, p), p)
  {
    var k := Kept(s, p);
    WeaklyDominatesReflexive(p);
    if StateDominatesPoint(k, p) then k
    else
      assert p in multiset(Insort(key, k, p));
      Insort(key, k, p)
  }

  /** `add_to_state`: evicts what `p` weakly dominates (by the staircase slice
      when `d == 3`, by the linear scan otherwise), then inserts `p` unless a
      surviving member weakly dominates it. */
  method AddToState(state: SortedList, p: Point, d: int)
    requires state.Valid() && Keyable(state.key, p) && HasDim(state.elems, |p|)
    requires d == 3 ==> state.key == Natural && Staircase(state.elems) && |p| == 2
    modifies state
    ensures state.Valid() && HasDim(state.elems, |p|)
    ensures d == 3 ==> Staircase(state.elems)
    ensures StateDominatesPoint(Kept(old(state.elems), p), p) ==> state.elems == Kept(old(state.elems), p)
    ensures !StateDominatesPoint(Kept(old(state.elems), p), p) ==>
      multiset(state.elems) == multiset(Kept(old(state.elems), p)) + multiset{p}
    ensures p in state.elems <==> !StateDominatesPoint(Kept(old(state.elems), p), p)
    ensures forall x | x in state.elems :: x == p || (x in old(state.elems) && !WeaklyDominates(p, x))
    ensures Antichain(old(state.elems)) ==> Antichain(state.elems)
    ensures state.elems == AddedState(state.key, old(state.elems), p)
  {
    ghost var s := state.elems;
    var removed;
    if d == 3 {
      removed := RemoveDominated3d(state, p, Weak);
    } else {
      removed := RemoveDominatedNd(state, p, Weak);
    }
    ghost var kept := state.elems;
    KeptFacts(s, p);
    if !StateDominatesPoint(state.elems, p) {
      ghost var pos := state.Add(p);
      InsertFacts(s, pos, p);
      if d == 3 {
        StairInsert(kept, pos, p);
      }
    }
  }

  /** What the weak eviction leaves: members of the old state that `p` does not
      dominate, an antichain if the old state was one, and not `p` itself. */
  lemma KeptFacts(s: seq<Point>, p: Point)
    requires HasDim(s, |p|)
    ensures HasDim(Kept(s, p), |p|) && p !in Kept(s, p)
    ensures Antichain(s) ==> Antichain(Kept(s, p))
  {
    WeaklyDominatesReflexive(p);
    if Antichain(s) {
      AntichainSorted(s);
      FilterSorted(s, Keeper(Weak, p), IncomparableOrder());
      AntichainSorted(Kept(s, p));
    }
  }

  /** What inserting `p` into the survivors yields, when none of them dominates it. */
  lemma InsertFacts(s: seq<Point>, pos: nat, p: Point)
    requires HasDim(s, |p|) && pos <= |Kept(s, p)|
    requires !StateDominatesPoint(Kept(s, p), p)
    ensures var r := Kept(s, p)[..pos] + [p] + Kept(s, p)[pos..];
      && multiset(r) == multiset(Kept(s, p)) + multiset{p}
      && HasDim(r, |p|) && p in r
      && (forall x | x in r :: x == p || (x in s && !WeaklyDominates(p, x)))
      && (Antichain(s) ==> Antichain(r))
  {
    var kept := Kept(s, p);
    InsertCount(kept, pos, p);
    SpliceMembers(kept, pos, pos, p);
    KeptFacts(s, p);
    if Antichain(s) {
      assert forall x | x in kept :: Incomparable(x, p);
      AntichainInsert(kept, pos, p);
    }
  }

  /** A point incomparable with every member of an antichain extends it, wherever it goes. */
  lemma AntichainInsert(s: seq<Point>, pos: nat, p: Point)
    requires Antichain(s) && pos <= |s|
    requires forall x | x in s :: Incomparable(x, p)
    ensures Antichain(s[..pos] + [p] + s[pos..])
  {
    forall j | 0 <= j < |s| ensures IncomparableOrder()(s[j], p) && IncomparableOrder()(p, s[j]) {
      assert s[j] in s;
    }
    AntichainSorted(s);
    SortedInsert(s, pos, p, IncomparableOrder());
    AntichainSorted(s[..pos] + [p] + s[pos..]);
  }

  /** Two incomparable pairs lie on a staircase in tuple order. */
  lemma StairPair(a: Point, p: Point)
    requires |a| == 2 && |p| == 2 && Incomparable(a, p)
    ensures LexLe(a, p) ==> StairBefore(a, p)
    ensures !LexLe(a, p) ==> StairBefore(p, a)
  {
    LexLePair(a, p);
  }

  /** A pair that no staircase member dominates or is dominated by, inserted at
      its tuple-order position, extends the staircase. */
  lemma StairInsert(s: seq<Point>, pos: nat, p: Point)
    requires Staircase(s) && |p| == 2 && pos <= |s|
    requires forall x | x in s :: Incomparable(x, p)
    requires forall j | 0 <= j < pos :: LexLe(s[j], p)
    requires forall j | pos <= j < |s| :: !LexLe(s[j], p)
    ensures Staircase(s[..pos] + [p] + s[pos..])
  {
    forall j | 0 <= j < |s| ensures j < pos ==> StairOrder()(s[j], p)
      ensures pos <= j ==> StairOrder()(p, s[j])
    {
      assert s[j] in s;
      StairPair(s[j], p);
    }
    SortedInsert(s, pos, p, StairOrder());
    SpliceMembers(s, pos, pos, p);
  }
}
