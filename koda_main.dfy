/** The older 3-D sweep, koda/main.py `get_kink_points`: the points, sorted
    by their third coordinate in ascending order, are fed one at a time to
    two archives of the koda/state.py kind: `ps` holds 2-D projections
    between the sentinels (0, inf) and (inf, 0), `kc` the kink candidates,
    seeded with (0, 0, 0).  Each point removes the candidates it reaches,
    emits those of them it beats strictly, enters its projection into `ps`
    and offers the two corners next to it as new candidates; at the end every
    remaining candidate becomes a kink at height 0. */
module KodaMain {
  import opened Levels
  import opened Seqs
  import Sorting
  import opened KodaPoints
  import opened KodaState

  const PairSeed: seq<ExtPoint> := [[Fin(0), Inf], [Inf, Fin(0)]]
  const CandidateSeed: seq<ExtPoint> := [[Fin(0), Fin(0), Fin(0)]]

  /** What the sweep carries from one point to the next: the projections,
      the candidates and the kinks emitted so far. */
  datatype Stage = Stage(ps: seq<ExtPoint>, kc: seq<ExtPoint>, kinks: seq<ExtPoint>)

  /** Every input point has three coordinates. */
  predicate Triples(pts: seq<seq<int>>)
  {
    forall p | p in pts :: |p| == 3
  }

  /** The archives a step of the sweep works on: both sorted; the candidates
      all triples. */
  ghost predicate Archives(ps: seq<ExtPoint>, kc: seq<ExtPoint>)
  {
    Sorted(ps, LeOrder()) && Pairs(ps) && Sorted(kc, LeOrder()) && forall c | c in kc :: |c| == 3
  }

  /** The kinks the removed candidates give: (r0, r1, p2) for each removed `r`
      that `p` beats strictly in the first two coordinates while lying below
      it in the third, in removal order. */
  function Emitted(removed: seq<ExtPoint>, p: seq<int>): (k: seq<ExtPoint>)
    requires |p| == 3 && forall r | r in removed :: |r| == 3
    ensures |k| <= |removed|
    decreases |removed|
  {
    if removed == [] then []
    else
      var r := removed[|removed| - 1];
      assert r in removed;
      Emitted(removed[..|removed| - 1], p)
        + (if LevelLt(r[0], Fin(p[0])) && LevelLt(r[1], Fin(p[1])) && LevelLt(Fin(p[2]), r[2])
           then [[r[0], r[1], Fin(p[2])]] else [])
  }

  /** Every emitted kink is a triple at the height of the point that emits it. */
  lemma {:induction false} EmittedShape(removed: seq<ExtPoint>, p: seq<int>)
    requires |p| == 3 && forall r | r in removed :: |r| == 3
    ensures forall x | x in Emitted(removed, p) :: |x| == 3 && x[2] == Fin(p[2])
    decreases |removed|
  {
    if removed != [] {
      assert forall r | r in removed[..|removed| - 1] :: r in removed;
      EmittedShape(removed[..|removed| - 1], p);
    }
  }

  /** The final loop: each remaining candidate at height 0. */
  function Floor(kc: seq<ExtPoint>): (k: seq<ExtPoint>)
    requires Pairs(kc)
    ensures |k| == |kc|
    decreases |kc|
  {
    if kc == [] then []
    else
      var c := kc[|kc| - 1];
      assert c in kc;
      Floor(kc[..|kc| - 1]) + [[c[0], c[1], Fin(0)]]
  }

  /** Every kink of the final loop is a triple at height 0. */
  lemma {:induction false} FloorShape(kc: seq<ExtPoint>)
    requires Pairs(kc)
    ensures forall x | x in Floor(kc) :: |x| == 3 && x[2] == Fin(0)
    decreases |kc|
  {
    if kc != [] {
      assert forall c | c in kc[..|kc| - 1] :: c in kc;
      FloorShape(kc[..|kc| - 1]);
    }
  }

  /** Corner `i` next to position `idx` of `t`: the x of `t[idx + i]` with
      the y of `t[idx - 1 + i]` at height `z`, with Python's indexing (a
      negative index counts from the end, beyond the end is IndexError). */
  function Corner(t: seq<ExtPoint>, idx: int, i: int, z: int): (c: Result<ExtPoint>)
    requires Pairs(t)
    ensures c.Ok? <==> PyAt(t, idx + i).Ok? && PyAt(t, idx - 1 + i).Ok?
    ensures c.Ok? ==> |c.value| == 3 && c.value[2] == Fin(z)
  {
    var a, b := PyAt(t, idx + i), PyAt(t, idx - 1 + i);
    if a.Ok? && b.Ok? then
      assert a.value in t && b.value in t;
      Ok([a.value[0], b.value[1], Fin(z)])
    else Err(IndexError)
  }

  /** The projection half of the loop body: `p`'s projection enters `ps`
      and the two corners next to where it went are read off, or the lookup
      raises IndexError. */
  function Project(ps: seq<ExtPoint>, p: seq<int>): (r: Result<(seq<ExtPoint>, ExtPoint, ExtPoint)>)
    requires |p| == 3 && Sorted(ps, LeOrder()) && Pairs(ps)
    ensures r.Err? ==> r.error == IndexError
    ensures r.Ok? ==> Sorted(r.value.0, LeOrder()) && Pairs(r.value.0)
    ensures r.Ok? ==> |r.value.1| == 3 && r.value.1[2] == Fin(p[2]) && |r.value.2| == 3 && r.value.2[2] == Fin(p[2])
  {
    var pair := Lift(p)[..2];
    AddedSorted(ps, pair);
    var idx := BisectLeft(ps, pair);
    var ps1 := Added(ps, pair);
    var c0, c1 := Corner(ps1, idx, 0, p[2]), Corner(ps1, idx, 1, p[2]);
    if c0.Err? || c1.Err? then Err(IndexError) else Ok((ps1, c0.value, c1.value))
  }

  /** The candidate half of the loop body: the two corners are added in turn. */
  function Offer(kc: seq<ExtPoint>, c0: ExtPoint, c1: ExtPoint): (r: seq<ExtPoint>)
    requires Sorted(kc, LeOrder()) && (forall c | c in kc :: |c| == 3) && |c0| == 3 && |c1| == 3
    ensures Sorted(r, LeOrder()) && forall c | c in r :: |c| == 3 && (c in kc || c == c0 || c == c1)
  {
    AddedSorted(kc, c0);
    AddedSorted(Added(kc, c0), c1);
    Added(Added(kc, c0), c1)
  }

  /** One pass of the loop body for point `p`: the candidates `p` reaches
      are removed and those it beats strictly emitted, then the projection
      and candidate halves follow. */
  function Step(p: seq<int>, st: Stage): (r: Result<Stage>)
    requires |p| == 3 && Archives(st.ps, st.kc)
    ensures r.Err? <==> Project(st.ps, p).Err?
    ensures r.Err? ==> r.error == IndexError
    ensures r.Ok? ==> r.value.ps == Project(st.ps, p).value.0
  {
    var el := Lift(p);
    RemovedSorted(st.kc, el);
    RemovedPartition(st.kc, el);
    var kc1 := Removed(st.kc, el).1;
    var emitted := Emitted(Removed(st.kc, el).0, p);
    var pr := Project(st.ps, p);
    if pr.Err? then Err(IndexError)
    else Ok(Stage(pr.value.0, Offer(kc1, pr.value.1, pr.value.2), st.kinks + emitted))
  }

  /** A step keeps the archives sorted and the candidates triples; the
      kinks it adds are those `p` emits; every candidate after it was one
      before it or lies at `p`'s height. */
  lemma StepFacts(p: seq<int>, st: Stage)
    requires |p| == 3 && Archives(st.ps, st.kc)
    ensures Step(p, st).Ok? ==> Archives(Step(p, st).value.ps, Step(p, st).value.kc)
    ensures forall x | x in Removed(st.kc, Lift(p)).0 :: x in st.kc
    ensures Step(p, st).Ok? ==> Step(p, st).value.kinks == st.kinks + Emitted(Removed(st.kc, Lift(p)).0, p)
    ensures Step(p, st).Ok? ==> forall c | c in Step(p, st).value.kc :: c in st.kc || c[2] == Fin(p[2])
  {
    RemovedSorted(st.kc, Lift(p));
    RemovedPartition(st.kc, Lift(p));
  }

  /** The sweep over the remaining points `pts` from stage `st`: the kinks
      `get_kink_points` returns, or the IndexError it raises. */
  function Sweep(pts: seq<seq<int>>, st: Stage): Result<seq<ExtPoint>>
    requires Triples(pts) && Archives(st.ps, st.kc)
    decreases |pts|
  {
    if pts == [] then Ok(st.kinks + Floor(st.kc))
    else
      assert pts[0] in pts && forall q | q in pts[1..] :: q in pts;
      var next := Step(pts[0], st);
      StepFacts(pts[0], st);
      if next.Err? then Err(IndexError) else Sweep(pts[1..], next.value)
  }

  /** The inner loop over the removed candidates. */
  method EmitKinks(removed: seq<ExtPoint>, p: seq<int>, kinks: seq<ExtPoint>) returns (r: seq<ExtPoint>)
    requires |p| == 3 && forall x | x in removed :: |x| == 3
    ensures r == kinks + Emitted(removed, p)
  {
    r := kinks;
    for j := 0 to |removed|
      invariant r == kinks + Emitted(removed[..j], p)
    {
      var x := removed[j];
      assert removed[..j + 1][..j] == removed[..j];
      if LevelLt(x[0], Fin(p[0])) && LevelLt(x[1], Fin(p[1])) && LevelLt(Fin(p[2]), x[2]) {
        r := r + [[x[0], x[1], Fin(p[2])]];
      }
    }
    assert removed[..|removed|] == removed;
  }

  /** The loop over the two corners: each is computed, which may raise
      IndexError, and offered to the candidates. */
  method OfferCorners(t: seq<ExtPoint>, idx: int, z: int, kc: State) returns (ok: bool)
    requires Pairs(t) && kc.Valid() && forall c | c in kc.elems :: |c| == 3
    modifies kc
    ensures kc.Valid() && forall c | c in kc.elems :: |c| == 3
    ensures ok <==> Corner(t, idx, 0, z).Ok? && Corner(t, idx, 1, z).Ok?
    ensures ok ==> kc.elems == Added(Added(old(kc.elems), Corner(t, idx, 0, z).value), Corner(t, idx, 1, z).value)
  {
    ghost var k0 := kc.elems;
    for i := 0 to 2
      invariant kc.Valid() && forall c | c in kc.elems :: |c| == 3
      invariant i == 0 ==> kc.elems == k0
      invariant i == 1 ==> Corner(t, idx, 0, z).Ok? && kc.elems == Added(k0, Corner(t, idx, 0, z).value)
      invariant i == 2 ==> Corner(t, idx, 0, z).Ok? && Corner(t, idx, 1, z).Ok?
      invariant i == 2 ==> kc.elems == Added(Added(k0, Corner(t, idx, 0, z).value), Corner(t, idx, 1, z).value)
    {
      var c := Corner(t, idx, i, z);
      if c.Err? {
        return false;
      }
      AddedSorted(kc.elems, c.value);
      var _ := kc.Add(c.value);
    }
    ok := true;
  }

  /** The final loop over the remaining candidates. */
  method AppendFloor(kc: seq<ExtPoint>, kinks: seq<ExtPoint>) returns (r: seq<ExtPoint>)
    requires Pairs(kc)
    ensures r == kinks + Floor(kc)
  {
    r := kinks;
    for j := 0 to |kc|
      invariant r == kinks + Floor(kc[..j])
    {
      assert kc[..j + 1][..j] == kc[..j];
      assert kc[j] in kc;
      r := r + [[kc[j][0], kc[j][1], Fin(0)]];
    }
    assert kc[..|kc|] == kc;
  }

  /** The body of the loop of `get_kink_points` for point `p`: one step
      of the sweep, carried out on the two archives. */
  method SweepStep(p: seq<int>, ps: State, kc: State, kinks: seq<ExtPoint>) returns (kinks': seq<ExtPoint>, ok: bool)
    requires |p| == 3 && ps.Valid() && kc.Valid() && ps != kc
    requires forall c | c in kc.elems :: |c| == 3
    modifies ps, kc
    ensures ps.Valid() && kc.Valid() && forall c | c in kc.elems :: |c| == 3
    ensures Archives(old(ps.elems), old(kc.elems))
    ensures ok <==> Step(p, Stage(old(ps.elems), old(kc.elems), kinks)).Ok?
    ensures ok ==> Step(p, Stage(old(ps.elems), old(kc.elems), kinks)) == Ok(Stage(ps.elems, kc.elems, kinks'))
  {
    ghost var before := Stage(ps.elems, kc.elems, kinks);
    var el := Lift(p);
    RemovedPartition(kc.elems, el);
    var removed := kc.RemoveDominated(el);
    kinks' := EmitKinks(removed, p, kinks);
    var idx := ps.Add(el[..2]);
    ok := OfferCorners(ps.elems, idx, p[2], kc);
    ghost var t := ps.elems;
    if ok {
      assert Project(before.ps, p) == Ok((t, Corner(t, idx, 0, p[2]).value, Corner(t, idx, 1, p[2]).value));
    } else {
      assert Project(before.ps, p).Err?;
    }
  }

  /** The loop of `get_kink_points` over the sorted points, then the final
      loop over the remaining candidates. */
  method RunSweep(pts: seq<seq<int>>, ps: State, kc: State) returns (r: Result<seq<ExtPoint>>)
    requires Triples(pts) && ps.Valid() && kc.Valid() && ps != kc
    requires forall c | c in kc.elems :: |c| == 3
    modifies ps, kc
    ensures r == Sweep(pts, Stage(old(ps.elems), old(kc.elems), []))
  {
    var kinks: seq<ExtPoint> := [];
    ghost var goal := Sweep(pts, Stage(ps.elems, kc.elems, []));
    for n := 0 to |pts|
      invariant ps.Valid() && kc.Valid()
      invariant forall c | c in kc.elems :: |c| == 3
      invariant Sweep(pts[n..], Stage(ps.elems, kc.elems, kinks)) == goal
    {
      assert pts[n..][0] == pts[n] && pts[n..][1..] == pts[n + 1..];
      assert pts[n] in pts;
      var ok;
      kinks, ok := SweepStep(pts[n], ps, kc, kinks);
      if !ok {
        return Err(IndexError);
      }
    }
    var all := AppendFloor(kc.elems, kinks);
    r := Ok(all);
  }

  /** `get_kink_points(points)`: the sweep over the points in ascending order
      of height, from the seeded archives.  It returns triples or raises
      IndexError, and when no point lies below height 0 every kink it
      returns is at height 0. */
  method GetKinkPoints(points: seq<seq<int>>) returns (r: Result<seq<ExtPoint>>)
    requires Triples(points)
    ensures Triples(Sorting.SortByCoord(points, 2, false)) && Archives(PairSeed, CandidateSeed)
    ensures r == Sweep(Sorting.SortByCoord(points, 2, false), Stage(PairSeed, CandidateSeed, []))
    ensures r.Err? ==> r.error == IndexError
    ensures r.Ok? ==> forall k | k in r.value :: |k| == 3
    ensures r.Ok? && (forall p | p in points :: p[2] >= 0) ==> forall k | k in r.value :: k[2] == Fin(0)
  {
    SeedsSorted();
    var pts := Sorting.SortByCoord(points, 2, false);
    assert Triples(pts) by {
      assert forall q | q in pts :: q in multiset(points);
    }
    var ps := new State(PairSeed);
    var kc := new State(CandidateSeed);
    SweepShape(pts, Stage(PairSeed, CandidateSeed, []));
    if forall p | p in points :: p[2] >= 0 {
      SeedBelow(points, pts);
      SweepFloorOnly(pts, Stage(PairSeed, CandidateSeed, []));
    }
    r := RunSweep(pts, ps, kc);
  }

  /** Every result is a list of triples, and the only error is IndexError. */
  lemma {:induction false} SweepShape(pts: seq<seq<int>>, st: Stage)
    requires Triples(pts) && Archives(st.ps, st.kc) && forall k | k in st.kinks :: |k| == 3
    ensures Sweep(pts, st).Err? ==> Sweep(pts, st).error == IndexError
    ensures Sweep(pts, st).Ok? ==> forall k | k in Sweep(pts, st).value :: |k| == 3
    decreases |pts|
  {
    if pts == [] {
      FloorShape(st.kc);
    } else {
      assert pts[0] in pts && forall q | q in pts[1..] :: q in pts;
      var next := Step(pts[0], st);
      StepFacts(pts[0], st);
      EmittedShape(Removed(st.kc, Lift(pts[0])).0, pts[0]);
      if next.Ok? {
        SweepShape(pts[1..], next.value);
      }
    }
  }

  /** No removed candidate lies above the point that removes it, so none is
      emitted. */
  lemma {:induction false} EmittedNone(removed: seq<ExtPoint>, p: seq<int>)
    requires |p| == 3
    requires forall r: ExtPoint | r in removed :: |r| == 3 && r[2].Fin? && r[2].v <= p[2]
    ensures Emitted(removed, p) == []
    decreases |removed|
  {
    if removed != [] {
      assert forall r | r in removed[..|removed| - 1] :: r in removed;
      EmittedNone(removed[..|removed| - 1], p);
      assert removed[|removed| - 1] in removed;
    }
  }

  /** Every candidate is a triple at a finite height of at most `z`. */
  ghost predicate Below(kc: seq<ExtPoint>, z: int)
  {
    forall c: ExtPoint | c in kc :: |c| == 3 && c[2].Fin? && c[2].v <= z
  }

  /** The remaining points are in ascending order of height. */
  predicate Ascending(pts: seq<seq<int>>)
    requires Triples(pts)
  {
    forall a, b | 0 <= a < b < |pts| :: pts[a][2] <= pts[b][2]
  }

  /** Dropping the first point keeps the rest triples in ascending order,
      none of them below the dropped one. */
  lemma AscendingTail(pts: seq<seq<int>>)
    requires pts != [] && Triples(pts) && Ascending(pts)
    ensures Triples(pts[1..]) && Ascending(pts[1..])
    ensures pts[0] in pts && forall q | q in pts[1..] :: pts[0][2] <= q[2]
  {
    var rest := pts[1..];
    forall q | q in rest ensures q in pts && pts[0][2] <= q[2] {
      var b :| 0 <= b < |rest| && rest[b] == q;
      assert pts[b + 1] == q;
    }
    forall a, b | 0 <= a < b < |rest| ensures rest[a][2] <= rest[b][2] {
      assert rest[a] == pts[a + 1] && rest[b] == pts[b + 1];
    }
  }

  /** A step for a point no lower than every candidate emits nothing and
      leaves every candidate at most at the point's height. */
  lemma StepBelow(p: seq<int>, st: Stage)
    requires |p| == 3 && Archives(st.ps, st.kc) && Below(st.kc, p[2])
    ensures Step(p, st).Ok? ==> Step(p, st).value.kinks == st.kinks && Below(Step(p, st).value.kc, p[2])
  {
    StepFacts(p, st);
    RemovedPartition(st.kc, Lift(p));
    EmittedNone(Removed(st.kc, Lift(p)).0, p);
  }

  /** Because the points come in ascending order of height, a candidate is
      never above a later point: the sweep emits nothing, and every kink it
      returns comes from the final loop, at height 0. */
  lemma {:induction false} SweepFloorOnly(pts: seq<seq<int>>, st: Stage)
    requires Triples(pts) && Archives(st.ps, st.kc) && Ascending(pts)
    requires pts != [] ==> Below(st.kc, pts[0][2])
    requires forall k | k in st.kinks :: |k| == 3 && k[2] == Fin(0)
    ensures Sweep(pts, st).Ok? ==> forall k | k in Sweep(pts, st).value :: |k| == 3 && k[2] == Fin(0)
    decreases |pts|
  {
    if pts == [] {
      FloorShape(st.kc);
    } else {
      var p := pts[0];
      assert p in pts;
      StepBelow(p, st);
      StepFacts(p, st);
      var next := Step(p, st);
      if next.Ok? {
        var rest := pts[1..];
        AscendingTail(pts);
        if rest != [] {
          assert rest[0] in rest;
          assert Below(next.value.kc, rest[0][2]);
        }
        SweepFloorOnly(rest, next.value);
      }
    }
  }

  /** Both seeds are already in tuple order, so the constructors keep them. */
  lemma SeedsSorted()
    ensures SortTuples(PairSeed) == PairSeed && SortTuples(CandidateSeed) == CandidateSeed
    ensures Archives(PairSeed, CandidateSeed)
  {
    assert SortTuples(PairSeed[1..]) == [PairSeed[1]];
    assert TupleLt(PairSeed[0], PairSeed[1]);
  }

  /** With heights not below 0, the seed candidate (0, 0, 0) is below every
      point, and sorting puts the points in ascending order of height. */
  lemma SeedBelow(points: seq<seq<int>>, pts: seq<seq<int>>)
    requires Triples(points) && forall p | p in points :: p[2] >= 0
    requires pts == Sorting.SortByCoord(points, 2, false)
    ensures Triples(pts) && Ascending(pts) && (pts != [] ==> Below(CandidateSeed, pts[0][2]))
  {
    assert forall q | q in pts :: q in multiset(points);
    if pts != [] {
      assert pts[0] in pts;
    }
    forall a, b | 0 <= a < b < |pts| ensures pts[a][2] <= pts[b][2] {
      assert Sorting.Key(pts[a], 2, false) <= Sorting.Key(pts[b], 2, false);
    }
  }

  const FirstPairs: seq<ExtPoint> := [[Fin(0), Inf], [Fin(5), Fin(5)], [Inf, Fin(0)]]

  /** (5, 5) enters between the sentinels, at position 1. */
  lemma FirstAdded()
    ensures BisectLeft(PairSeed, [Fin(5), Fin(5)]) == 1
    ensures Added(PairSeed, [Fin(5), Fin(5)]) == FirstPairs
  {
    var pair: ExtPoint := [Fin(5), Fin(5)];
    SentinelLost();
    assert TupleLt(PairSeed[0], pair) && !TupleLt(PairSeed[1], pair);
    assert BisectLeft(PairSeed[1..], pair) == 0;
  }

  /** The point (5, 5, 1) leaves the projections (0, inf), (5, 5), (inf, 0)
      and offers the corners (5, inf, 1) and (inf, 5, 1). */
  lemma FirstProject()
    ensures Sorted(PairSeed, LeOrder()) && Pairs(PairSeed)
    ensures Project(PairSeed, [5, 5, 1]) == Ok((FirstPairs, [Fin(5), Inf, Fin(1)], [Inf, Fin(5), Fin(1)]))
  {
    SeedsSorted();
    assert Lift([5, 5, 1])[..2] == [Fin(5), Fin(5)];
    FirstAdded();
    assert Corner(FirstPairs, 1, 0, 1) == Ok([Fin(5), Inf, Fin(1)]);
    assert Corner(FirstPairs, 1, 1, 1) == Ok([Inf, Fin(5), Fin(1)]);
  }

  /** (3, 3) overwrites (5, 5) at position 1, and the run after it takes the
      sentinel (inf, 0) along. */
  lemma SecondAdded()
    ensures BisectLeft(FirstPairs, [Fin(3), Fin(3)]) == 1
    ensures Added(FirstPairs, [Fin(3), Fin(3)]) == [[Fin(0), Inf], [Fin(3), Fin(3)]]
  {
    var pair: ExtPoint := [Fin(3), Fin(3)];
    SentinelLost();
    assert TupleLt(FirstPairs[0], pair) && !TupleLt(FirstPairs[1], pair);
    assert BisectLeft(FirstPairs[1..], pair) == 0;
  }

  /** With the sentinel gone, the right-hand corner of (3, 3, 2) reads past
      the end of the projections. */
  lemma SecondProject()
    ensures Sorted(FirstPairs, LeOrder()) && Pairs(FirstPairs)
    ensures Project(FirstPairs, [3, 3, 2]) == Err(IndexError)
  {
    FirstProject();
    assert Lift([3, 3, 2])[..2] == [Fin(3), Fin(3)];
    SecondAdded();
    var ps2: seq<ExtPoint> := [[Fin(0), Inf], [Fin(3), Fin(3)]];
    assert Corner(ps2, 1, 1, 2).Err?;
  }

  /** Sorting by height keeps (5, 5, 1) ahead of (3, 3, 2). */
  lemma CrashOrder()
    ensures Sorting.SortByCoord([[5, 5, 1], [3, 3, 2]], 2, false) == [[5, 5, 1], [3, 3, 2]]
  {
    var pts: seq<seq<int>> := [[5, 5, 1], [3, 3, 2]];
    assert Sorting.SortByCoord(pts[1..], 2, false) == [pts[1]];
  }

  /** On the two incomparable points (5, 5, 1) and (3, 3, 2) `get_kink_points`
      raises IndexError. */
  lemma SentinelCrash()
    ensures Sorting.SortByCoord([[5, 5, 1], [3, 3, 2]], 2, false) == [[5, 5, 1], [3, 3, 2]]
    ensures Archives(PairSeed, CandidateSeed)
    ensures Sweep([[5, 5, 1], [3, 3, 2]], Stage(PairSeed, CandidateSeed, [])) == Err(IndexError)
  {
    CrashOrder();
    var pts: seq<seq<int>> := [[5, 5, 1], [3, 3, 2]];
    SeedsSorted();
    var st := Stage(PairSeed, CandidateSeed, []);
    FirstProject();
    StepFacts(pts[0], st);
    var next := Step(pts[0], st).value;
    assert next.ps == FirstPairs;
    assert Sweep(pts[1..], next) == Err(IndexError) by {
      SecondProject();
      assert pts[1..] == [pts[1]];
      assert Step(pts[1], next).Err?;
    }
    assert Sweep(pts, st) == Sweep(pts[1..], next);
  }
}
