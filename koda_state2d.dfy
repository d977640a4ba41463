/** The other 2-D archive of the prototype, koda/state2d.py: a list kept in
    tuple order.  `add` refuses an element that its neighbour at or just
    before the bisect position dominates; otherwise it inserts it, and when
    the element just before is not higher in the second coordinate, the new
    element replaces the run ending there whose second coordinates are at
    most its own.  `remove_dominated` deletes that run without inserting. */
module KodaState2d {
  import opened Levels
  import opened Seqs
  import opened KodaPoints

  /** What `add` returns: `False`, or the position of the new element. */
  datatype AddResult = Rejected | At(idx: nat)

  /** Python reads `False` as 0 where `add`'s result serves as an index. */
  function AsIndex(r: AddResult): (i: nat)
    ensures r.At? ==> i == r.idx
    ensures r.Rejected? ==> i == 0
  {
    match r
    case Rejected => 0
    case At(k) => k
  }

  /** The member just before or at the bisect position dominates `el`. */
  predicate Rejects(s: seq<ExtPoint>, el: ExtPoint)
    requires Pairs(s) && |el| >= 2
  {
    var idx := BisectLeft(s, el);
    DominatesAt(s, idx - 1, el) == Some(true) || DominatesAt(s, idx, el) == Some(true)
  }

  /** `add` inserts without removing: nothing precedes the bisect position,
      or the element before it is higher in the second coordinate. */
  predicate Plain(s: seq<ExtPoint>, el: ExtPoint)
    requires Pairs(s) && |el| >= 2
  {
    var idx := BisectLeft(s, el);
    idx == 0 || LevelLt(el[1], s[idx - 1][1])
  }

  /** Where the scan left from `hi - 1` stops: the start of the longest run
      ending just before `hi` whose second coordinates are at most `y`. */
  function RunStart(s: seq<ExtPoint>, hi: nat, y: Level): (st: nat)
    requires Pairs(s) && hi <= |s|
    ensures st <= hi
    ensures forall j | st <= j < hi :: LevelLe(s[j][1], y)
    ensures st > 0 ==> !LevelLe(s[st - 1][1], y)
  {
    if hi == 0 || !LevelLe(s[hi - 1][1], y) then hi
    else RunStart(s, hi - 1, y)
  }

  /** What `add(el)` returns and the list it leaves behind. */
  function Added(s: seq<ExtPoint>, el: ExtPoint): (AddResult, seq<ExtPoint>)
    requires Pairs(s) && |el| >= 2
  {
    var idx := BisectLeft(s, el);
    if Rejects(s, el) then (Rejected, s)
    else if Plain(s, el) then (At(idx), s[..idx] + [el] + s[idx..])
    else
      var st := RunStart(s, idx, el[1]);
      (At(st), s[..st] + [el] + s[idx..])
  }

  /** What `remove_dominated(el)` returns and the list it leaves behind. */
  function Removed(s: seq<ExtPoint>, el: ExtPoint): (seq<ExtPoint>, seq<ExtPoint>)
    requires Pairs(s) && |el| >= 2
  {
    var idx := BisectLeft(s, el);
    if Rejects(s, el) || Plain(s, el) then ([], s)
    else
      var st := RunStart(s, idx, el[1]);
      (s[st..idx], s[..st] + s[idx..])
  }

  /** Corner `i` of `add_and_get_candidates`: the x of the member at
      `idx + i - 1` with the y of the member at `idx + i`, at `el`'s height. */
  function Corner(s: seq<ExtPoint>, idx: int, el: ExtPoint, i: int): (c: Option<ExtPoint>)
    requires Pairs(s) && |el| >= 3
    ensures c.Some? <==> PyAt(s, idx + i - 1).Ok? && PyAt(s, idx + i).Ok?
    ensures c.Some? ==> |c.value| == 3 && c.value[2] == el[2]
  {
    var a, b := PyAt(s, idx + i - 1), PyAt(s, idx + i);
    if a.Ok? && b.Ok? then
      assert a.value in s && b.value in s;
      Some([a.value[0], b.value[1], el[2]])
    else None
  }

  /** The two triples `add_and_get_candidates` builds around position `idx`
      (left neighbour's x with the element's y, the element's x with the right
      neighbour's y, both at `el`'s third coordinate); IndexError when a
      neighbour is missing, with negative positions counting from the end. */
  function Candidates(s: seq<ExtPoint>, idx: int, el: ExtPoint): (r: Result<seq<ExtPoint>>)
    requires Pairs(s) && |el| >= 3
    ensures r.Ok? <==> -|s| <= idx - 1 && idx + 1 < |s|
    ensures r.Ok? ==> |r.value| == 2 && forall c | c in r.value :: |c| == 3 && c[2] == el[2]
  {
    var c0, c1 := Corner(s, idx, el, 0), Corner(s, idx, el, 1);
    if c0.Some? && c1.Some? then Ok([c0.value, c1.value]) else Err(IndexError)
  }

  class State2d {
    var elems: seq<ExtPoint>

    ghost predicate Valid()
      reads this
    {
      Sorted(elems, LeOrder()) && Pairs(elems)
    }

    /** `State2d(lst)`: the elements of `lst` in tuple order. */
    constructor (lst: seq<ExtPoint>)
      requires Pairs(lst)
      ensures Valid() && elems == SortTuples(lst)
    {
      elems := SortTuples(lst);
      new;
      assert forall x | x in elems :: x in multiset(lst);
    }

    /** `add(el)`. */
    method Add(el: ExtPoint) returns (r: AddResult)
      requires Valid() && |el| >= 2
      modifies this
      ensures Valid()
      ensures (r, elems) == Added(old(elems), el)
    {
      ghost var s := elems;
      AddedSorted(s, el);
      var idx := BisectLeft(elems, el);
      if DominatesAt(elems, idx as int - 1, el) == Some(true) || DominatesAt(elems, idx, el) == Some(true) {
        assert Added(s, el) == (Rejected, s);
        return Rejected;
      }
      assert !Rejects(s, el);
      if idx == 0 || LevelLt(el[1], elems[idx - 1][1]) {
        assert Plain(s, el);
        elems := elems[..idx] + [el] + elems[idx..];
        return At(idx);
      }
      assert !Plain(s, el);
      LevelTotal(el[1], elems[idx - 1][1]);
      var st := ReplaceRun(el, idx);
      r := At(st);
    }

    /** The last branch of `add(el)`: scans left from `idx - 1` over the
        members whose second coordinate is at most `el`'s, puts `el` at
        `idx - 1` and deletes the rest of the run. */
    method ReplaceRun(el: ExtPoint, idx: nat) returns (st: nat)
      requires Pairs(elems) && |el| >= 2 && 0 < idx <= |elems|
      requires LevelLe(elems[idx - 1][1], el[1])
      modifies this
      ensures st == RunStart(old(elems), idx, el[1])
      ensures elems == old(elems)[..st] + [el] + old(elems)[idx..]
    {
      ghost var s := elems;
      var idx0: int := idx - 1;
      while idx0 >= 0 && LevelLe(elems[idx0][1], el[1])
        invariant -1 <= idx0 < idx && elems == s
        invariant RunStart(s, idx, el[1]) == RunStart(s, idx0 + 1, el[1])
      {
        idx0 := idx0 - 1;
      }
      assert idx0 < idx - 1;
      elems := elems[idx - 1 := el];
      assert elems[..idx0 + 1] == s[..idx0 + 1];
      assert elems[idx - 1..] == [el] + s[idx..];
      elems := elems[..idx0 + 1] + elems[idx - 1..];
      st := idx0 + 1;
    }

    /** `remove_dominated(el)`. */
    method RemoveDominated(el: ExtPoint) returns (removed: seq<ExtPoint>)
      requires Valid() && |el| >= 2
      modifies this
      ensures Valid()
      ensures (removed, elems) == Removed(old(elems), el)
    {
      ghost var s := elems;
      RemovedSorted(s, el);
      var idx: int := BisectLeft(elems, el);
      if DominatesAt(elems, idx - 1, el) == Some(true) || DominatesAt(elems, idx, el) == Some(true) {
        return [];
      }
      if idx == 0 || LevelLt(el[1], elems[idx - 1][1]) {
        return [];
      }
      var idx0: int := idx - 1;
      while idx0 >= 0 && LevelLe(elems[idx0][1], el[1])
        invariant -1 <= idx0 < idx && elems == s
        invariant RunStart(s, idx, el[1]) == RunStart(s, idx0 + 1, el[1])
      {
        idx0 := idx0 - 1;
      }
      removed := elems[idx0 + 1..idx];
      elems := elems[..idx0 + 1] + elems[idx..];
    }

    /** `add_and_get_candidates(el)`: adds `el`, then reads the two corner
        triples around the position `add` returned (0 for `False`). */
    method AddAndGetCandidates(el: ExtPoint) returns (r: Result<seq<ExtPoint>>)
      requires Valid() && |el| >= 3
      modifies this
      ensures Valid() && elems == Added(old(elems), el).1
      ensures r == Candidates(elems, AsIndex(Added(old(elems), el).0), el)
      ensures var k := AsIndex(Added(old(elems), el).0);
        Added(old(elems), el).0.At? && 0 < k && k + 1 < |elems| ==>
          r == Ok([[elems[k - 1][0], el[1], el[2]], [el[0], elems[k + 1][1], el[2]]])
    {
      ghost var s := elems;
      AddedSorted(s, el);
      var added := Add(el);
      r := CornerTriples(elems, AsIndex(added), el);
      if added.At? {
        CandidatesAt(elems, added.idx, el);
      }
    }
  }

  /** The loop of `add_and_get_candidates` over its two corners. */
  method CornerTriples(s: seq<ExtPoint>, idx: int, el: ExtPoint) returns (r: Result<seq<ExtPoint>>)
    requires Pairs(s) && |el| >= 3
    ensures r == Candidates(s, idx, el)
  {
    var cands: seq<ExtPoint> := [];
    for i := 0 to 2
      invariant |cands| == i
      invariant i > 0 ==> Corner(s, idx, el, 0).Some? && cands[0] == Corner(s, idx, el, 0).value
      invariant i > 1 ==> Corner(s, idx, el, 1).Some? && cands[1] == Corner(s, idx, el, 1).value
    {
      var c := Corner(s, idx, el, i);
      if c.None? {
        return Err(IndexError);
      }
      cands := cands + [c.value];
    }
    assert cands == [cands[0], cands[1]];
    r := Ok(cands);
  }

  /** `add` keeps the list sorted; a refused element leaves it unchanged, an
      accepted one sits at the returned position, and every member is `el`
      or was there before. */
  lemma AddedSorted(s: seq<ExtPoint>, el: ExtPoint)
    requires Sorted(s, LeOrder()) && Pairs(s) && |el| >= 2
    ensures Sorted(Added(s, el).1, LeOrder()) && Pairs(Added(s, el).1)
    ensures Added(s, el).0.Rejected? <==> Rejects(s, el)
    ensures Added(s, el).0.Rejected? ==> Added(s, el).1 == s
    ensures Added(s, el).0.At? ==>
      Added(s, el).0.idx < |Added(s, el).1| && Added(s, el).1[Added(s, el).0.idx] == el
    ensures forall x | x in Added(s, el).1 :: x in s || x == el
  {
    if !Rejects(s, el) {
      var idx := BisectLeft(s, el);
      var st := if Plain(s, el) then idx else RunStart(s, idx, el[1]);
      AfterBisect(s, el);
      assert forall j | 0 <= j < st :: TupleLt(s[j], el);
      SortedOverwrite(s, st, idx, el);
      SpliceMembers(s, st, idx, el);
      assert Added(s, el).1 == s[..st] + [el] + s[idx..];
    }
  }

  /** `remove_dominated` keeps the list sorted and only drops members. */
  lemma RemovedSorted(s: seq<ExtPoint>, el: ExtPoint)
    requires Sorted(s, LeOrder()) && Pairs(s) && |el| >= 2
    ensures Sorted(Removed(s, el).1, LeOrder()) && Pairs(Removed(s, el).1)
  {
    if !Rejects(s, el) && !Plain(s, el) {
      var idx := BisectLeft(s, el);
      SortedCut(s, RunStart(s, idx, el[1]), idx);
      assert forall x | x in Removed(s, el).1 :: x in s;
    }
  }

  /** Without removal `add` inserts `el` at the bisect position and the list
      grows by one, losing nothing. */
  lemma AddedInserts(s: seq<ExtPoint>, el: ExtPoint)
    requires Pairs(s) && |el| >= 2 && !Rejects(s, el) && Plain(s, el)
    ensures Added(s, el).0 == At(BisectLeft(s, el))
    ensures |Added(s, el).1| == |s| + 1
    ensures multiset(Added(s, el).1) == multiset(s) + multiset{el}
  {
    var idx := BisectLeft(s, el);
    assert Added(s, el) == (At(idx), s[..idx] + [el] + s[idx..]);
    InsertCount(s, idx, el);
  }

  /** Otherwise the run ending just before the bisect position, whose second
      coordinates are at most `el`'s and which is preceded by a higher member
      or the start of the list, is replaced by `el`, which then sits at the
      start of that run. */
  lemma AddedReplaces(s: seq<ExtPoint>, el: ExtPoint)
    requires Pairs(s) && |el| >= 2 && !Rejects(s, el) && !Plain(s, el)
    ensures var idx := BisectLeft(s, el);
      var st := Added(s, el).0.idx;
      && Added(s, el).0.At?
      && st < idx
      && (forall j | st <= j < idx :: LevelLe(s[j][1], el[1]))
      && (st > 0 ==> LevelLt(el[1], s[st - 1][1]))
      && Added(s, el).1 == s[..st] + [el] + s[idx..]
  {
    var idx := BisectLeft(s, el);
    var st := RunStart(s, idx, el[1]);
    assert Added(s, el) == (At(st), s[..st] + [el] + s[idx..]);
    LevelTotal(el[1], s[idx - 1][1]);
    if st > 0 {
      LevelTotal(s[st - 1][1], el[1]);
    }
  }

  /** `remove_dominated` returns nothing exactly when `add` refuses `el` or
      inserts it without removal; otherwise it deletes and returns the run
      that `add` replaces, so `add` equals `remove_dominated` followed by
      inserting `el` where the run started. */
  lemma RemovedMatchesAdded(s: seq<ExtPoint>, el: ExtPoint)
    requires Pairs(s) && |el| >= 2
    ensures Removed(s, el).0 == [] <==> Rejects(s, el) || Plain(s, el)
    ensures |Removed(s, el).1| == |s| - |Removed(s, el).0|
    ensures Added(s, el).0.At? ==>
      var st := Added(s, el).0.idx;
      && st <= |Removed(s, el).1|
      && Added(s, el).1 == Removed(s, el).1[..st] + [el] + Removed(s, el).1[st..]
  {
    var idx := BisectLeft(s, el);
    if !Rejects(s, el) && !Plain(s, el) {
      LevelTotal(el[1], s[idx - 1][1]);
      var st := RunStart(s, idx, el[1]);
      var rest := s[..st] + s[idx..];
      assert rest[..st] == s[..st] && rest[st..] == s[idx..];
    } else if !Rejects(s, el) {
      assert s[..idx] + s[idx..] == s;
    }
  }

  /** Around a member `el` at position `k`, the candidates are (left
      neighbour's x, el's y, el's z) and (el's x, right neighbour's y, el's
      z); without a right neighbour the lookup fails with IndexError. */
  lemma CandidatesAt(t: seq<ExtPoint>, k: nat, el: ExtPoint)
    requires Pairs(t) && |el| >= 3 && k < |t| && t[k] == el
    ensures 0 < k && k + 1 < |t| ==>
      Candidates(t, k, el) == Ok([[t[k - 1][0], el[1], el[2]], [el[0], t[k + 1][1], el[2]]])
    ensures k + 1 == |t| ==> Candidates(t, k, el) == Err(IndexError)
  {
    if 0 < k && k + 1 < |t| {
      assert Corner(t, k, el, 0) == Some([t[k - 1][0], el[1], el[2]]);
      assert Corner(t, k, el, 1) == Some([el[0], t[k + 1][1], el[2]]);
    }
  }
}
