/** The kink-point sweep (code/main.py:43-119).

    Points are processed from the highest last coordinate down.  At each level
    the sweep keeps `points_state`, the non-dominated projections of the points
    seen so far, and `kink_candidates`, the candidate corners of the current
    slice together with `h`, the level at which each candidate first appeared.
    A candidate that the new point's projection strictly dominates becomes a
    kink point at the new point's level, provided it appeared above that level.
    Survivors are lowered to the floor (last coordinate 0) at the end.  In
    dimension d > 3 the candidates are recomputed by recursion on the
    (d-1)-dimensional archive; in dimension 3 they are the two corners next to
    the new projection on the 2-D staircase. */
module KinkEngine {
  import opened Levels
  import opened Dominance
  import opened Sorting
  import opened Seqs
  import opened SortedLists
  import opened Archive
  import opened KinkSpec

  /** Every coordinate of `k` is 0 or the same coordinate of some input point. */
  ghost predicate OnGrid(k: Point, points: seq<Point>)
  {
    forall i | 0 <= i < |k| :: k[i] == 0 || exists p | p in points :: i < |p| && p[i] == k[i]
  }

  /** `k` lies at the level of an input point whose projection strictly
      dominates the projection of `k`: the emission test of code/main.py:67, 98. */
  ghost predicate Activated(k: Point, points: seq<Point>)
    requires |k| >= 1
  {
    exists p | p in points ::
      && |p| == |k|
      && p[|k| - 1] == k[|k| - 1]
      && StrictlyDominates(p[..|k| - 1], k[..|k| - 1])
  }

  /** What every kink point returned for `points` in dimension `d` satisfies:
      it has `d` coordinates on the grid of the input, and either sits on the
      floor or was emitted by a point that strictly dominates it below the last
      coordinate. */
  ghost predicate KinkFacts(kinks: seq<Point>, points: seq<Point>, d: nat)
  {
    forall k | k in kinks ::
      && |k| == d && d >= 1
      && OnGrid(k, points)
      && (k[d - 1] == 0 || Activated(k, points))
  }

  /** The emission loop of code/main.py:66-68 and 97-99: a removed candidate
      becomes a kink point at level `z` exactly when `p` strictly dominates it
      and it appeared strictly above `z`. */
  method EmitRemoved(removed: seq<Point>, p: Point, h: map<Point, Level>, z: int) returns (emitted: seq<Point>)
    requires forall c | c in removed :: c in h
    ensures |emitted| <= |removed|
    ensures forall k | k in emitted ::
      exists c | c in removed :: k == c + [z] && StrictlyDominates(p, c) && LevelLt(Fin(z), h[c])
    ensures forall c | c in removed && StrictlyDominates(p, c) && LevelLt(Fin(z), h[c]) ::
      c + [z] in emitted
    ensures emitted == Emitted(removed, p, h, z)
  {
    emitted := [];
    for n := 0 to |removed|
      invariant |emitted| <= n
      invariant emitted == Emitted(removed[..n], p, h, z)
      invariant forall k | k in emitted ::
        exists c | c in removed :: k == c + [z] && StrictlyDominates(p, c) && LevelLt(Fin(z), h[c])
      invariant forall c | c in removed[..n] && StrictlyDominates(p, c) && LevelLt(Fin(z), h[c]) ::
        c + [z] in emitted
    {
      var c := removed[n];
      assert removed[..n + 1] == removed[..n] + [c];
      assert removed[..n + 1][..n] == removed[..n] && c in removed;
      if StrictlyDominates(p, c) && LevelLt(Fin(z), h[c]) {
        emitted := emitted + [c + [z]];
      }
    }
    assert removed[..|removed|] == removed;
  }

  /** Records level `z` for every candidate not seen before (code/main.py:74-76);
      levels already recorded never change. */
  method StampNew(h: map<Point, Level>, cands: seq<Point>, z: int) returns (h': map<Point, Level>)
    ensures forall c | c in h :: c in h' && h'[c] == h[c]
    ensures forall c | c in cands :: c in h'
    ensures forall c | c in h' :: c in h || (c in cands && h'[c] == Fin(z))
    ensures h' == Stamped(h, cands, z)
  {
    h' := h;
    for n := 0 to |cands|
      invariant forall c | c in cands[..n] :: c in h'
      invariant h' == Stamped(h, cands[..n], z)
    {
      ghost var prefix := cands[..n + 1];
      assert prefix[..n] == cands[..n] && prefix[n] == cands[n];
      assert forall c | c in prefix :: c in cands[..n] || c == cands[n];
      if cands[n] !in h' {
        h' := h'[cands[n] := Fin(z)];
      }
    }
    assert cands[..|cands|] == cands;
  }

  /** The corner loop of code/main.py:110-113: each corner not seen before gets
      level `z` and joins the candidate staircase. */
  method AddCandidates3d(kc: SortedList, h: map<Point, Level>, cands: seq<Point>, z: int)
    returns (h': map<Point, Level>)
    requires kc.Valid() && kc.key == Natural && Staircase(kc.elems) && HasDim(cands, 2)
    modifies kc
    ensures kc.Valid() && Staircase(kc.elems)
    ensures forall c | c in h :: c in h' && h'[c] == h[c]
    ensures forall c | c in cands :: c in h'
    ensures forall c | c in h' :: c in h || (c in cands && h'[c] == Fin(z))
    ensures forall c | c in kc.elems :: c in old(kc.elems) || c in cands
    ensures (h', kc.elems) == Offered(h, old(kc.elems), cands, z)
  {
    h' := h;
    for n := 0 to |cands|
      invariant kc.Valid() && kc.key == Natural && Staircase(kc.elems)
      invariant forall c | c in h' :: c in h || (c in cands && h'[c] == Fin(z))
      invariant forall c | c in kc.elems :: c in old(kc.elems) || c in cands
      invariant (h', kc.elems) == Offered(h, old(kc.elems), cands[..n], z)
    {
      var c := cands[n];
      ghost var prefix := cands[..n + 1];
      assert prefix[..n] == cands[..n] && prefix[n] == c;
      if c !in h' {
        h' := h'[c := Fin(z)];
        AddToState(kc, c, 3);
      }
    }
    assert cands[..|cands|] == cands;
  }

  /** The final loop of code/main.py:79-80 and 116-117: every surviving
      candidate is appended at level 0. */
  method AppendFloor(kinks: seq<Point>, cands: seq<Point>, ghost points: seq<Point>, ghost d: nat)
    returns (r: seq<Point>)
    requires d >= 1 && KinkFacts(kinks, points, d)
    requires forall c | c in cands :: |c| == d - 1 && OnGrid(c, points)
    ensures |r| == |kinks| + |cands| && r[..|kinks|] == kinks
    ensures forall i | 0 <= i < |cands| :: r[|kinks| + i] == cands[i] + [0]
    ensures KinkFacts(r, points, d)
    ensures r == kinks + Floor(cands)
  {
    r := kinks;
    for n := 0 to |cands|
      invariant r == kinks + Floor(cands[..n])
    {
      ghost var prefix := cands[..n + 1];
      assert prefix[..n] == cands[..n] && prefix[n] == cands[n];
      r := r + [cands[n] + [0]];
    }
    assert cands[..|cands|] == cands;
    FloorKinkFacts(kinks, cands, points, d);
  }

  /** The candidates lowered to level 0 follow the kink points already found,
      and all of them are kink points of the input. */
  lemma FloorKinkFacts(kinks: seq<Point>, cands: seq<Point>, points: seq<Point>, d: nat)
    requires d >= 1 && KinkFacts(kinks, points, d)
    requires forall c | c in cands :: |c| == d - 1 && OnGrid(c, points)
    ensures var r := kinks + Floor(cands);
      && |r| == |kinks| + |cands| && r[..|kinks|] == kinks
      && (forall i | 0 <= i < |cands| :: r[|kinks| + i] == cands[i] + [0])
    ensures KinkFacts(kinks + Floor(cands), points, d)
  {
    FloorAt(cands);
    assert (kinks + Floor(cands))[..|kinks|] == kinks;
    forall k | k in kinks + Floor(cands) ensures |k| == d && OnGrid(k, points) && (k[d - 1] == 0 || Activated(k, points)) {
      if k !in kinks {
        var i :| 0 <= i < |cands| && Floor(cands)[i] == k;
        assert cands[i] in cands;
        FloorOnGrid(cands[i], points);
      }
    }
  }


  lemma FloorOnGrid(c: Point, points: seq<Point>)
    requires OnGrid(c, points)
    ensures OnGrid(c + [0], points)
  {
    var k := c + [0];
    forall i | 0 <= i < |k| && k[i] != 0 ensures exists p | p in points :: i < |p| && p[i] == k[i] {
      assert k[i] == c[i];
    }
  }

  /** Appending the emitted points keeps the kink facts: each emitted point is a
      removed candidate lifted to the level of the current point. */
  lemma EmittedKinks(kinks: seq<Point>, emitted: seq<Point>, removed: seq<Point>, points: seq<Point>, n: nat, d: nat)
    requires d >= 1 && n < |points| && |points[n]| == d
    requires KinkFacts(kinks, points, d)
    requires forall c | c in removed :: |c| == d - 1 && OnGrid(c, points)
    requires forall k | k in emitted ::
      exists c | c in removed :: k == c + [points[n][d - 1]] && StrictlyDominates(points[n][..d - 1], c)
    ensures KinkFacts(kinks + emitted, points, d)
  {
    var p := points[n];
    assert p in points;
    forall k | k in emitted
      ensures |k| == d && OnGrid(k, points) && Activated(k, points)
    {
      var c :| c in removed && k == c + [p[d - 1]] && StrictlyDominates(p[..d - 1], c);
      assert k[..d - 1] == c;
      forall i | 0 <= i < |k| && k[i] != 0 ensures exists q | q in points :: i < |q| && q[i] == k[i] {
        if i == d - 1 {
          assert p[i] == k[i];
        } else {
          assert k[i] == c[i];
        }
      }
    }
  }

  /** Kink points over one list remain kink points over any list holding all
      of its members. */
  lemma KinkFactsWiden(kinks: seq<Point>, a: seq<Point>, b: seq<Point>, d: nat)
    requires KinkFacts(kinks, a, d)
    requires forall p | p in a :: p in b
    ensures KinkFacts(kinks, b, d)
  {
    forall k | k in kinks ensures OnGrid(k, b) && (k[d - 1] == 0 || Activated(k, b)) {
      forall i | 0 <= i < |k| && k[i] != 0 ensures exists p | p in b :: i < |p| && p[i] == k[i] {
        var p :| p in a && i < |p| && p[i] == k[i];
      }
      if k[d - 1] != 0 {
        var p :| p in a && |p| == |k| && p[|k| - 1] == k[|k| - 1]
          && StrictlyDominates(p[..|k| - 1], k[..|k| - 1]);
      }
    }
  }

  /** Kink points of the (d-1)-dimensional archive lie on the grid of the
      d-dimensional input whose projections the archive holds. */
  lemma GridLift(nkps: seq<Point>, state: seq<Point>, points: seq<Point>, m: nat)
    requires KinkFacts(nkps, state, m)
    requires forall s | s in state :: exists p | p in points :: m <= |p| && s == p[..m]
    ensures forall k | k in nkps :: |k| == m && OnGrid(k, points)
  {
    forall k | k in nkps ensures OnGrid(k, points) {
      forall i | 0 <= i < |k| && k[i] != 0 ensures exists p | p in points :: i < |p| && p[i] == k[i] {
        var s :| s in state && i < |s| && s[i] == k[i];
        var p :| p in points && m <= |p| && s == p[..m];
        assert p[i] == s[i];
      }
    }
  }

  /** An archive ordered by `key=lambda x: -x[-1]` passes `assert_sorted`. */
  lemma DescLastSorted(s: seq<Point>, m: nat)
    requires m >= 1 && HasDim(s, m) && Sorted(s, Order(DescLast))
    ensures Covers(s, m - 1) && AssertSorted(s, m)
  {
    forall a, b | 0 <= a < b < |s| ensures s[a][m - 1] >= s[b][m - 1] {
      assert Order(DescLast)(s[a], s[b]);
      assert s[a] in s && s[b] in s;
    }
    AssertSortedIff(s, m);
  }

  /** In an antichain sorted by descending z, the projection of a point survives
      its insertion into the archive of earlier projections: an earlier
      projection dominating it would make the earlier point dominate it. */
  lemma ProjectionSurvives(points: seq<Point>, n: nat, before: seq<Point>)
    requires HasDim(points, 3) && Antichain(points) && n < |points|
    requires forall a, b | 0 <= a < b < |points| :: points[a][2] >= points[b][2]
    requires EarlierProjections(before, points, n)
    ensures !StateDominatesPoint(Kept(before, points[n][..2]), points[n][..2])
  {
    var q := points[n][..2];
    forall s | s in Kept(before, q) ensures !WeaklyDominates(s, q) {
      var j :| 0 <= j < n && j < |points| && |points[j]| == 3 && s == points[j][..2];
      assert points[j] in points && points[n] in points;
      assert Incomparable(points[j], points[n]);
      assert points[j][2] >= points[n][2];
    }
  }

  /** The two neighbour corners of code/main.py:106-107 lie on the grid. */
  lemma CornersOnGrid(ps: seq<Point>, i: nat, point: Point, points: seq<Point>, n: nat)
    requires n < |points| && point == points[n] && |point| == 3
    requires i < |ps| && HasDim(ps, 2)
    requires EarlierProjections(ps, points, n + 1)
    ensures OnGrid([if i == 0 then 0 else ps[i - 1][0], point[1]], points)
    ensures OnGrid([point[0], if i == |ps| - 1 then 0 else ps[i + 1][1]], points)
  {
    assert point in points;
    if i > 0 {
      assert ps[i - 1] in ps;
      var j :| 0 <= j < n + 1 && j < |points| && |points[j]| == 3 && ps[i - 1] == points[j][..2];
      assert points[j] in points && points[j][0] == ps[i - 1][0];
    }
    if i < |ps| - 1 {
      assert ps[i + 1] in ps;
      var j :| 0 <= j < n + 1 && j < |points| && |points[j]| == 3 && ps[i + 1] == points[j][..2];
      assert points[j] in points && points[j][1] == ps[i + 1][1];
    }
  }

  /** The candidates of the current slice: `m`-dimensional, stamped in `h`
      and on the grid of the input. */
  ghost predicate CandidatesOk(cands: seq<Point>, h: map<Point, Level>, points: seq<Point>, m: nat)
  {
    forall c | c in cands :: |c| == m && c in h && OnGrid(c, points)
  }

  /** What the loop of `get_kink_points_rec_3d` keeps true after `n` points:
      both lists are staircases, the archive holds projections of points
      already seen, and the candidates and kink points are on the grid. */
  ghost predicate Sweep3Ok(ps: SortedList, kc: SortedList, h: map<Point, Level>, points: seq<Point>, n: nat, kinks: seq<Point>)
    reads ps, kc
  {
    && ps.Valid() && ps.key == Natural && Staircase(ps.elems) && EarlierProjections(ps.elems, points, n)
    && kc.Valid() && kc.key == Natural && Staircase(kc.elems) && CandidatesOk(kc.elems, h, points, 2)
    && ps != kc && KinkFacts(kinks, points, 3)
  }

  /** What the loop of `get_kink_points_rec` keeps true in dimension `d`: the
      archive is an antichain of projections, and the candidates and kink
      points are on the grid. */
  ghost predicate SweepNdOk(ps: SortedList, kc: SortedList, h: map<Point, Level>, points: seq<Point>, d: nat, kinks: seq<Point>)
    reads ps, kc
    requires d >= 1
  {
    && ps.Valid() && ps.key == DescLast && HasDim(ps.elems, d - 1) && Antichain(ps.elems)
    && ProjectionsIn(ps.elems, points, d - 1)
    && kc.Valid() && kc.key == Natural && kc != ps && CandidatesOk(kc.elems, h, points, d - 1)
    && KinkFacts(kinks, points, d)
  }

  /** Every member of `s` is the projection of one of the first `n` points. */
  ghost predicate EarlierProjections(s: seq<Point>, points: seq<Point>, n: nat)
  {
    forall x | x in s :: exists j | 0 <= j < n && j < |points| :: |points[j]| == 3 && x == points[j][..2]
  }

  /** Every member of `s` is the projection on the first `m` coordinates of an input point. */
  ghost predicate ProjectionsIn(s: seq<Point>, points: seq<Point>, m: nat)
  {
    forall x | x in s :: exists p | p in points :: m <= |p| && x == p[..m]
  }

  /** Code/main.py:65-68 and 95-99: evicts the candidates that the projection
      of `points[n]` strictly dominates, and appends those of them activated
      above its level as kink points at that level. */
  method RemoveAndEmit(kc: SortedList, h: map<Point, Level>, points: seq<Point>, n: nat, d: nat, kinks: seq<Point>)
    returns (kinks': seq<Point>)
    requires d >= 3 && n < |points| && |points[n]| == d
    requires kc.Valid() && kc.key == Natural && CandidatesOk(kc.elems, h, points, d - 1)
    requires d == 3 ==> Staircase(kc.elems)
    requires KinkFacts(kinks, points, d)
    modifies kc
    ensures kc.Valid() && CandidatesOk(kc.elems, h, points, d - 1)
    ensures d == 3 ==> Staircase(kc.elems)
    ensures kc.elems == Filter(old(kc.elems), Keeper(Strict, points[n][..d - 1]))
    ensures |kinks'| >= |kinks| && kinks'[..|kinks|] == kinks
    ensures forall k | k in kinks'[|kinks|..] :: |k| == d && k[d - 1] == points[n][d - 1]
    ensures KinkFacts(kinks', points, d)
    ensures var proj := points[n][..d - 1];
      kinks' == kinks + Emitted(Filter(old(kc.elems), Evictor(Strict, proj)), proj, h, points[n][d - 1])
  {
    var proj := points[n][..d - 1];
    var removed;
    if d == 3 {
      removed := RemoveDominated3d(kc, proj, Strict);
    } else {
      removed := RemoveDominatedNd(kc, proj, Strict);
    }
    FilterMembers(old(kc.elems), Evictor(Strict, proj));
    FilterMembers(old(kc.elems), Keeper(Strict, proj));
    assert forall c | c in removed :: c in old(kc.elems);
    assert forall c | c in kc.elems :: c in old(kc.elems);
    var emitted := EmitRemoved(removed, proj, h, points[n][d - 1]);
    EmittedKinks(kinks, emitted, removed, points, n, d);
    kinks' := kinks + emitted;
    assert kinks'[|kinks|..] == emitted;
  }

  /** Code/main.py:102-113: inserts the projection of `points[n]` into the
      staircase archive, looks it up again and offers its two neighbour
      corners as candidates at the level of `points[n]`.  `ok` is false when
      the lookup raises ValueError, which an antichain input never causes. */
  method InsertAndCorners(ps: SortedList, kc: SortedList, h: map<Point, Level>, points: seq<Point>, n: nat)
    returns (h': map<Point, Level>, ok: bool)
    requires HasDim(points, 3) && n < |points|
    requires forall a, b | 0 <= a < b < |points| :: points[a][2] >= points[b][2]
    requires ps.Valid() && ps.key == Natural && Staircase(ps.elems) && EarlierProjections(ps.elems, points, n)
    requires kc.Valid() && kc.key == Natural && Staircase(kc.elems) && CandidatesOk(kc.elems, h, points, 2)
    requires ps != kc
    modifies ps, kc
    ensures Antichain(points) ==> ok
    ensures ps.Valid() && Staircase(ps.elems) && EarlierProjections(ps.elems, points, n + 1)
    ensures kc.Valid() && Staircase(kc.elems) && CandidatesOk(kc.elems, h', points, 2)
    ensures forall c | c in h :: c in h' && h'[c] == h[c]
    ensures ps.elems == AddedState(Natural, old(ps.elems), points[n][..2])
    ensures ok <==> IndexOf(ps.elems, points[n][..2]).Ok?
    ensures ok ==>
      (h', kc.elems) == Offered(h, old(kc.elems), Corners(ps.elems, IndexOf(ps.elems, points[n][..2]).value, points[n]), points[n][2])
    ensures !ok ==> h' == h && kc.elems == old(kc.elems)
  {
    var point := points[n];
    assert point in points;
    var proj := point[..2];
    ghost var before := ps.elems;
    AddToState(ps, proj, 3);
    if Antichain(points) {
      ProjectionSurvives(points, n, before);
    }
    forall s | s in ps.elems ensures exists j | 0 <= j < n + 1 && j < |points| :: |points[j]| == 3 && s == points[j][..2] {
      if s != proj {
        var j :| 0 <= j < n && j < |points| && |points[j]| == 3 && s == points[j][..2];
      }
    }
    var idx := IndexOf(ps.elems, proj);
    if idx.Err? {
      h', ok := h, false;
      return;
    }
    h' := OfferCorners(ps.elems, idx.value, kc, h, points, n);
    ok := true;
  }

  /** Code/main.py:106-113: the corner left of the projection at position `i`
      of the staircase `s` (its left neighbour's x, or 0, with the point's y)
      and the corner below it (the point's x with its right neighbour's y, or
      0) become candidates at the level of `points[n]` unless seen before. */
  method OfferCorners(s: seq<Point>, i: nat, kc: SortedList, h: map<Point, Level>, points: seq<Point>, n: nat)
    returns (h': map<Point, Level>)
    requires n < |points| && |points[n]| == 3 && i < |s| && s[i] == points[n][..2]
    requires HasDim(s, 2) && EarlierProjections(s, points, n + 1)
    requires kc.Valid() && kc.key == Natural && Staircase(kc.elems) && CandidatesOk(kc.elems, h, points, 2)
    modifies kc
    ensures kc.Valid() && Staircase(kc.elems) && CandidatesOk(kc.elems, h', points, 2)
    ensures forall c | c in h :: c in h' && h'[c] == h[c]
    ensures [if i == 0 then 0 else s[i - 1][0], s[i][1]] in h'
    ensures [s[i][0], if i == |s| - 1 then 0 else s[i + 1][1]] in h'
    ensures (h', kc.elems) == Offered(h, old(kc.elems), Corners(s, i, points[n]), points[n][2])
  {
    var point := points[n];
    assert s[i] in s;
    if i > 0 {
      assert s[i - 1] in s;
    }
    if i < |s| - 1 {
      assert s[i + 1] in s;
    }
    var p1 := [if i == 0 then 0 else s[i - 1][0], point[1]];
    var p2 := [point[0], if i == |s| - 1 then 0 else s[i + 1][1]];
    CornersOnGrid(s, i, point, points, n);
    assert [p1, p2] == Corners(s, i, point);
    ghost var cands := kc.elems;
    h' := AddCandidates3d(kc, h, [p1, p2], point[2]);
    forall c | c in kc.elems ensures |c| == 2 && c in h' && OnGrid(c, points) {
      if c in cands {
        assert c in h;
      }
    }
  }

  /** `get_kink_points_rec_3d`: the sweep over a 2-D staircase.  The lookup of
      the new projection in the archive (`points_state.index`) raises
      ValueError when the projection was not inserted, which cannot happen when
      the input is an antichain. */
  method GetKinkPointsRec3d(points: seq<Point>) returns (r: Result<seq<Point>>)
    requires HasDim(points, 3) && AssertSorted(points, 3)
    ensures Antichain(points) ==> r.Ok?
    ensures r.Ok? ==> KinkFacts(r.value, points, 3)
    ensures r == KinkPoints(points, 3)
  {
    AssertSortedIff(points, 3);
    var ps, kc, h := Start3d(points);
    assert Zeros(2) == [0, 0];
    var kinks, ok;
    h, kinks, ok := Loop3d(ps, kc, h, points);
    if !ok {
      return Err(ValueError);
    }
    kinks := AppendFloor(kinks, kc.elems, points, 3);
    r := Ok(kinks);
  }

  /** The loop of `get_kink_points_rec_3d` (code/main.py:93-113) from the
      state `ps`, `kc`, `h` with no kink points yet; `ok` is false when a
      lookup raised ValueError. */
  method Loop3d(ps: SortedList, kc: SortedList, h: map<Point, Level>, points: seq<Point>)
    returns (h': map<Point, Level>, kinks: seq<Point>, ok: bool)
    requires HasDim(points, 3)
    requires forall a, b | 0 <= a < b < |points| :: points[a][2] >= points[b][2]
    requires Sweep3Ok(ps, kc, h, points, 0, [])
    modifies ps, kc
    ensures Antichain(points) ==> ok
    ensures Sweep3Ok(ps, kc, h', points, |points|, kinks)
    ensures ok ==> Sweep3(points, 0, Sweep(old(ps.elems), old(kc.elems), h, [])) == Ok(Sweep(ps.elems, kc.elems, h', kinks))
    ensures !ok ==> Sweep3(points, 0, Sweep(old(ps.elems), old(kc.elems), h, [])) == Err(ValueError)
  {
    ghost var goal := Sweep3(points, 0, Sweep(ps.elems, kc.elems, h, []));
    h', kinks, ok := h, [], true;
    for n := 0 to |points|
      invariant ok && Sweep3Ok(ps, kc, h', points, n, kinks)
      invariant Sweep3(points, n, Sweep(ps.elems, kc.elems, h', kinks)) == goal
    {
      ghost var st := Sweep(ps.elems, kc.elems, h', kinks);
      Sweep3Next(points, n, st);
      h', kinks, ok := Step3d(ps, kc, h', points, n, kinks);
      if !ok {
        return;
      }
    }
  }

  /** The state `get_kink_points_rec_3d` starts from: no projections yet and
      the single candidate (0, 0), stamped with level inf. */
  method Start3d(ghost points: seq<Point>) returns (ps: SortedList, kc: SortedList, h: map<Point, Level>)
    ensures fresh(ps) && fresh(kc) && ps != kc
    ensures ps.Valid() && ps.key == Natural && ps.elems == []
    ensures kc.Valid() && kc.key == Natural && kc.elems == [[0, 0]] && h == map[[0, 0] := Inf]
    ensures Staircase(kc.elems) && CandidatesOk(kc.elems, h, points, 2)
    ensures Sweep3Ok(ps, kc, h, points, 0, [])
  {
    ps := new SortedList(Natural);
    kc := new SortedList(Natural);
    ghost var _ := kc.Add([0, 0]);
    h := map[[0, 0] := Inf];
    assert OnGrid([0, 0], points);
  }

  /** One pass of the loop of `get_kink_points_rec_3d` (code/main.py:94-113):
      eviction and emission, then insertion and the two corners. */
  method Step3d(ps: SortedList, kc: SortedList, h: map<Point, Level>, points: seq<Point>, n: nat, kinks: seq<Point>)
    returns (h': map<Point, Level>, kinks': seq<Point>, ok: bool)
    requires HasDim(points, 3) && n < |points|
    requires forall a, b | 0 <= a < b < |points| :: points[a][2] >= points[b][2]
    requires Sweep3Ok(ps, kc, h, points, n, kinks)
    modifies ps, kc
    ensures Antichain(points) ==> ok
    ensures Sweep3Ok(ps, kc, h', points, n + 1, kinks')
    ensures ok <==> Step3(Sweep(old(ps.elems), old(kc.elems), h, kinks), points[n]).Ok?
    ensures ok ==>
      Step3(Sweep(old(ps.elems), old(kc.elems), h, kinks), points[n]).value == Sweep(ps.elems, kc.elems, h', kinks')
  {
    assert points[n] in points;
    ghost var proj := points[n][..2];
    ghost var cands := Filter(kc.elems, Keeper(Strict, proj));
    kinks' := RemoveAndEmit(kc, h, points, n, 3, kinks);
    assert kc.elems == cands;
    h', ok := InsertAndCorners(ps, kc, h, points, n);
  }

  /** Code/main.py:70-76: inserts the projection of `points[n]` into the
      archive, recurses on the archive one dimension down, and makes the
      result the new candidate list, stamping the candidates not seen before
      with the level of `points[n]`. */
  method InsertAndRecurse(ps: SortedList, h: map<Point, Level>, points: seq<Point>, n: nat, d: nat)
    returns (kc: SortedList, h': map<Point, Level>)
    requires d > 3 && n < |points| && HasDim(points, d)
    requires ps.Valid() && ps.key == DescLast && HasDim(ps.elems, d - 1) && Antichain(ps.elems)
    requires ProjectionsIn(ps.elems, points, d - 1)
    modifies ps
    ensures ps.Valid() && HasDim(ps.elems, d - 1) && Antichain(ps.elems)
    ensures ProjectionsIn(ps.elems, points, d - 1)
    ensures fresh(kc) && kc.Valid() && kc.key == Natural && CandidatesOk(kc.elems, h', points, d - 1)
    ensures forall c | c in h :: c in h' && h'[c] == h[c]
    ensures ps.elems == AddedState(DescLast, old(ps.elems), points[n][..d - 1])
    ensures KinkPoints(ps.elems, d - 1).Ok?
    ensures kc.elems == InsortAll(Natural, KinkPoints(ps.elems, d - 1).value)
    ensures h' == Stamped(h, KinkPoints(ps.elems, d - 1).value, points[n][d - 1])
    decreases d, 0
  {
    var point := points[n];
    assert point in points;
    AddToState(ps, point[..d - 1], d);
    DescLastSorted(ps.elems, d - 1);
    var sub := GetKinkPointsRec(ps.elems, d - 1);
    var nkps := sub.value;
    GridLift(nkps, ps.elems, points, d - 1);
    kc, h' := NewCandidates(nkps, h, points, point[d - 1], d - 1);
  }

  /** Code/main.py:74-76: the kink points of the recursion become the sorted
      candidate list, those not seen before stamped with level `z`. */
  method NewCandidates(nkps: seq<Point>, h: map<Point, Level>, ghost points: seq<Point>, z: int, ghost m: nat)
    returns (kc: SortedList, h': map<Point, Level>)
    requires forall k | k in nkps :: |k| == m && OnGrid(k, points)
    ensures fresh(kc) && kc.Valid() && kc.key == Natural && CandidatesOk(kc.elems, h', points, m)
    ensures forall c | c in h :: c in h' && h'[c] == h[c]
    ensures kc.elems == InsortAll(Natural, nkps) && multiset(kc.elems) == multiset(nkps)
    ensures h' == Stamped(h, nkps, z)
  {
    kc := new SortedList.FromSeq(Natural, nkps);
    assert forall c | c in kc.elems :: c in multiset(nkps);
    h' := StampNew(h, nkps, z);
  }

  /** `get_kink_points_rec`: the sweep in dimension `d`, recursing on the
      archive of (d-1)-dimensional projections after every point.  It never
      fails above dimension 3, since the archive it recurses on is always an
      antichain. */
  method GetKinkPointsRec(points: seq<Point>, d: nat) returns (r: Result<seq<Point>>)
    requires d >= 3 && HasDim(points, d) && AssertSorted(points, d)
    ensures (d > 3 || Antichain(points)) ==> r.Ok?
    ensures r.Ok? ==> KinkFacts(r.value, points, d)
    ensures r == KinkPoints(points, d)
    decreases d, 3
  {
    if d == 3 {
      r := GetKinkPointsRec3d(points);
    } else {
      r := GetKinkPointsRecNd(points, d);
    }
  }

  /** The loop of `get_kink_points_rec` above dimension 3 (code/main.py:56-81). */
  method GetKinkPointsRecNd(points: seq<Point>, d: nat) returns (r: Result<seq<Point>>)
    requires d > 3 && HasDim(points, d) && AssertSorted(points, d)
    ensures r.Ok? && KinkFacts(r.value, points, d)
    ensures r == Finish(SweepNd(points, d, 0, Start(d - 1)))
    decreases d, 2
  {
    var ps := new SortedList(DescLast);
    var zero := Zeros(d - 1);
    var kc := new SortedList.FromSeq(Natural, [zero]);
    assert kc.elems == Insort(Natural, [], zero) == [zero];
    var h := map[zero := Inf];
    assert OnGrid(zero, points);
    var kinks;
    kc, h, kinks := LoopNd(ps, kc, h, points, d);
    kinks := AppendFloor(kinks, kc.elems, points, d);
    r := Ok(kinks);
  }

  /** The loop of `get_kink_points_rec` (code/main.py:64-76) from the state
      `ps`, `kc`, `h` with no kink points yet. */
  method LoopNd(ps: SortedList, kc: SortedList, h: map<Point, Level>, points: seq<Point>, d: nat)
    returns (kc': SortedList, h': map<Point, Level>, kinks: seq<Point>)
    requires d > 3 && HasDim(points, d)
    requires SweepNdOk(ps, kc, h, points, d, [])
    modifies ps, kc
    ensures SweepNdOk(ps, kc', h', points, d, kinks)
    ensures SweepNd(points, d, 0, Sweep(old(ps.elems), old(kc.elems), h, [])) == Ok(Sweep(ps.elems, kc'.elems, h', kinks))
    decreases d, 1, 1
  {
    ghost var goal := SweepNd(points, d, 0, Sweep(ps.elems, kc.elems, h, []));
    kc', h', kinks := kc, h, [];
    for n := 0 to |points|
      invariant SweepNdOk(ps, kc', h', points, d, kinks) && (kc' == kc || fresh(kc'))
      invariant SweepNd(points, d, n, Sweep(ps.elems, kc'.elems, h', kinks)) == goal
    {
      SweepNdNext(points, d, n, Sweep(ps.elems, kc'.elems, h', kinks));
      kc', h', kinks := StepRec(ps, kc', h', points, n, d, kinks);
    }
  }

  /** One pass of the loop of `get_kink_points_rec` (code/main.py:64-76):
      eviction and emission, then insertion and the recursive call. */
  method StepRec(ps: SortedList, kc: SortedList, h: map<Point, Level>, points: seq<Point>, n: nat, d: nat, kinks: seq<Point>)
    returns (kc': SortedList, h': map<Point, Level>, kinks': seq<Point>)
    requires d > 3 && n < |points| && HasDim(points, d)
    requires SweepNdOk(ps, kc, h, points, d, kinks)
    modifies ps, kc
    ensures fresh(kc') && SweepNdOk(ps, kc', h', points, d, kinks')
    ensures StepNd(Sweep(old(ps.elems), old(kc.elems), h, kinks), points[n], d) == Ok(Sweep(ps.elems, kc'.elems, h', kinks'))
    decreases d, 1, 0
  {
    assert points[n] in points;
    kinks' := RemoveAndEmit(kc, h, points, n, d, kinks);
    kc', h' := InsertAndRecurse(ps, h, points, n, d);
  }

  /** `get_kink_points`: sorts by the last coordinate, highest first, then
      sweeps.  Only a 3-D input that is not an antichain can make it fail. */
  method GetKinkPoints(points: seq<Point>, d: nat) returns (r: Result<seq<Point>>)
    requires d >= 3 && HasDim(points, d)
    ensures (d > 3 || Antichain(points)) ==> r.Ok?
    ensures r.Ok? ==> KinkFacts(r.value, points, d)
    ensures r == KinkPointsSorted(points, d)
  {
    var sorted := SortByCoord(points, d - 1, true);
    SortedInput(points, d);
    r := GetKinkPointsRec(sorted, d);
    if r.Ok? {
      KinkFactsWiden(r.value, sorted, points, d);
    }
  }

  /** What the sweep needs of the sorted copy: it has the same points, is
      sorted, and is an antichain when the input is one. */
  lemma SortedInput(points: seq<Point>, d: nat)
    requires d >= 3 && HasDim(points, d)
    ensures var sorted := SortByCoord(points, d - 1, true);
      HasDim(sorted, d) && AssertSorted(sorted, d) && (forall p | p in sorted :: p in points)
      && (Antichain(points) ==> Antichain(sorted))
  {
    var sorted := SortByCoord(points, d - 1, true);
    assert forall p | p in sorted :: p in multiset(points);
    SortedIsFixed(sorted, d - 1, true);
    if Antichain(points) {
      SortKeepsAntichain(points, d - 1, true);
    }
  }
}
