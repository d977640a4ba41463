/** The kink-point sweep of code/main.py:43-119 as functions: what
    `get_kink_points_rec` and `get_kink_points_rec_3d` return, pass by pass.

    A `Sweep` holds what the loop keeps between points: `ps`, the archive of
    projections (`points_state`); `kc`, the candidates (`kink_candidates`);
    `h`, the level at which each candidate first appeared; and the kink points
    emitted so far.  The methods of `KinkEngine` are proved to compute exactly
    these functions. */
module KinkSpec {
  import opened Levels
  import opened Dominance
  import opened Sorting
  import opened Seqs
  import opened SortedLists
  import opened Archive

  datatype Sweep = Sweep(ps: seq<Point>, kc: seq<Point>, h: map<Point, Level>, kinks: seq<Point>)

  /** `(0, ) * n`. */
  function Zeros(n: nat): (z: Point)
    ensures |z| == n && forall i | 0 <= i < n :: z[i] == 0
  {
    if n == 0 then [] else Zeros(n - 1) + [0]
  }

  /** The state before the first point: no projections, the single candidate
      at the origin, stamped with level inf (code/main.py:56-62, 87-91). */
  function Start(m: nat): Sweep
  {
    Sweep([], [Zeros(m)], map[Zeros(m) := Inf], [])
  }

  /** The emission test of code/main.py:67 and 98 for a removed candidate `c`
      at level `z`.  Every candidate the sweep removes has a level in `h`, so
      the membership test only keeps the lookup defined. */
  predicate Emits(p: Point, h: map<Point, Level>, z: int, c: Point)
  {
    c in h && StrictlyDominates(p, c) && LevelLt(Fin(z), h[c])
  }

  /** The kink points the emission loop appends for `removed`, in order. */
  function Emitted(removed: seq<Point>, p: Point, h: map<Point, Level>, z: int): (k: seq<Point>)
    ensures |k| <= |removed|
  {
    if removed == [] then []
    else
      var c := removed[|removed| - 1];
      Emitted(removed[..|removed| - 1], p, h, z) + if Emits(p, h, z, c) then [c + [z]] else []
  }

  /** `h` after the stamping loop of code/main.py:74-76. */
  function Stamped(h: map<Point, Level>, cands: seq<Point>, z: int): (h': map<Point, Level>)
    ensures forall c | c in h :: c in h' && h'[c] == h[c]
    ensures forall c | c in h' :: c in h || (c in cands && h'[c] == Fin(z))
  {
    if cands == [] then h
    else
      var h0 := Stamped(h, cands[..|cands| - 1], z);
      var c := cands[|cands| - 1];
      if c in h0 then h0 else h0[c := Fin(z)]
  }

  /** `h` and the candidates after the corner loop of code/main.py:110-113:
      a corner not seen before gets level `z` and is added to the candidates
      as `add_to_state` adds it. */
  function Offered(h: map<Point, Level>, kc: seq<Point>, cands: seq<Point>, z: int): (r: (map<Point, Level>, seq<Point>))
    ensures forall c | c in h :: c in r.0 && r.0[c] == h[c]
    ensures forall c | c in cands :: c in r.0
    ensures HasDim(kc, 2) && HasDim(cands, 2) ==> HasDim(r.1, 2)
  {
    if cands == [] then (h, kc)
    else
      var init := cands[..|cands| - 1];
      assert forall c | c in init :: c in cands;
      assert forall c | c in cands :: c in init || c == cands[|cands| - 1];
      var prev := Offered(h, kc, init, z);
      var c := cands[|cands| - 1];
      if c in prev.0 then prev else (prev.0[c := Fin(z)], AddedState(Natural, prev.1, c))
  }

  /** The two corners of code/main.py:106-107 around the projection at
      position `i` of the staircase `s`: the left neighbour's x (or 0) with
      the point's y, and the point's x with the right neighbour's y (or 0). */
  function Corners(s: seq<Point>, i: nat, p: Point): (c: seq<Point>)
    requires i < |s| && HasDim(s, 2) && |p| >= 2
    ensures |c| == 2 && HasDim(c, 2)
  {
    var left := if i == 0 then 0 else assert s[i - 1] in s; s[i - 1][0];
    var right := if i == |s| - 1 then 0 else assert s[i + 1] in s; s[i + 1][1];
    [[left, p[1]], [p[0], right]]
  }

  /** The final loop of code/main.py:79-80 and 116-117: each candidate
      lowered to level 0. */
  function Floor(kc: seq<Point>): seq<Point>
  {
    if kc == [] then [] else Floor(kc[..|kc| - 1]) + [kc[|kc| - 1] + [0]]
  }

  /** `Floor` is the candidates lowered to level 0, position by position. */
  lemma {:induction false} FloorOf(kc: seq<Point>, f: seq<Point>)
    requires |f| == |kc| && forall i | 0 <= i < |f| :: f[i] == kc[i] + [0]
    ensures Floor(kc) == f
  {
    if kc != [] {
      var m := |kc| - 1;
      FloorOf(kc[..m], f[..m]);
      assert f == f[..m] + [f[m]];
    }
  }

  /** The converse of `FloorOf`: position `i` of `Floor(kc)` is `kc[i]`
      lowered to level 0. */
  lemma {:induction false} FloorAt(kc: seq<Point>)
    ensures |Floor(kc)| == |kc|
    ensures forall i | 0 <= i < |kc| :: Floor(kc)[i] == kc[i] + [0]
  {
    if kc != [] {
      FloorAt(kc[..|kc| - 1]);
    }
  }

  /** The list returned after the loop, or the error raised in it. */
  function Finish(r: Result<Sweep>): Result<seq<Point>>
  {
    if r.Err? then Err(r.error) else Ok(r.value.kinks + Floor(r.value.kc))
  }

  /** One pass of the loop of `get_kink_points_rec_3d` (code/main.py:93-113) on
      the point `p`, or the ValueError of `points_state.index`. */
  function Step3(st: Sweep, p: Point): (r: Result<Sweep>)
    requires |p| == 3 && HasDim(st.ps, 2)
    ensures r.Err? ==> r.error == ValueError
    ensures r.Ok? ==> HasDim(r.value.ps, 2)
  {
    var proj := p[..2];
    var kinks := st.kinks + Emitted(Filter(st.kc, Evictor(Strict, proj)), proj, st.h, p[2]);
    var kc := Filter(st.kc, Keeper(Strict, proj));
    var ps := AddedState(Natural, st.ps, proj);
    var idx := IndexOf(ps, proj);
    if idx.Err? then Err(ValueError)
    else
      var next := Offered(st.h, kc, Corners(ps, idx.value, p), p[2]);
      Ok(Sweep(ps, next.1, next.0, kinks))
  }

  /** The loop of `get_kink_points_rec_3d` over `points[n..]` from `st`. */
  function Sweep3(points: seq<Point>, n: nat, st: Sweep): (r: Result<Sweep>)
    requires HasDim(points, 3) && n <= |points| && HasDim(st.ps, 2)
    ensures r.Err? ==> r.error == ValueError
    decreases |points| - n
  {
    if n == |points| then Ok(st)
    else
      assert points[n] in points;
      var next := Step3(st, points[n]);
      if next.Err? then Err(ValueError) else Sweep3(points, n + 1, next.value)
  }

  /** One pass of `Sweep3`: a failing pass fails the sweep, a succeeding one
      hands its state to the rest of the points. */
  lemma Sweep3Next(points: seq<Point>, n: nat, st: Sweep)
    requires HasDim(points, 3) && n < |points| && HasDim(st.ps, 2)
    ensures |points[n]| == 3
    ensures Step3(st, points[n]).Err? ==> Sweep3(points, n, st) == Err(ValueError)
    ensures Step3(st, points[n]).Ok? ==> Sweep3(points, n, st) == Sweep3(points, n + 1, Step3(st, points[n]).value)
  {
    assert points[n] in points;
  }

  /** `get_kink_points_rec(points, d)`: for `d == 3` the staircase sweep,
      otherwise the sweep that recurses on the archive of projections. */
  function KinkPoints(points: seq<Point>, d: nat): Result<seq<Point>>
    requires d >= 3 && HasDim(points, d)
    decreases d, 1
  {
    if d == 3 then Finish(Sweep3(points, 0, Start(2)))
    else Finish(SweepNd(points, d, 0, Start(d - 1)))
  }

  /** One pass of the loop of `get_kink_points_rec` (code/main.py:64-76): the
      emission, the insertion of the projection, and the kink points of the
      archive one dimension down as the new candidates. */
  function StepNd(st: Sweep, p: Point, d: nat): (r: Result<Sweep>)
    requires d > 3 && |p| == d && HasDim(st.ps, d - 1)
    ensures r.Ok? ==> HasDim(r.value.ps, d - 1)
    decreases d, 0, 0
  {
    var proj := p[..d - 1];
    var kinks := st.kinks + Emitted(Filter(st.kc, Evictor(Strict, proj)), proj, st.h, p[d - 1]);
    var ps := AddedState(DescLast, st.ps, proj);
    var sub := KinkPoints(ps, d - 1);
    if sub.Err? then Err(sub.error)
    else Ok(Sweep(ps, InsortAll(Natural, sub.value), Stamped(st.h, sub.value, p[d - 1]), kinks))
  }

  /** The loop of `get_kink_points_rec` over `points[n..]` from `st`. */
  function SweepNd(points: seq<Point>, d: nat, n: nat, st: Sweep): Result<Sweep>
    requires d > 3 && HasDim(points, d) && n <= |points| && HasDim(st.ps, d - 1)
    decreases d, 0, |points| - n + 1
  {
    if n == |points| then Ok(st)
    else
      assert points[n] in points;
      var next := StepNd(st, points[n], d);
      if next.Err? then next else SweepNd(points, d, n + 1, next.value)
  }

  /** One pass of `SweepNd`: a failing pass fails the sweep, a succeeding one
      hands its state to the rest of the points. */
  lemma SweepNdNext(points: seq<Point>, d: nat, n: nat, st: Sweep)
    requires d > 3 && HasDim(points, d) && n < |points| && HasDim(st.ps, d - 1)
    ensures |points[n]| == d
    ensures StepNd(st, points[n], d).Err? ==> SweepNd(points, d, n, st) == StepNd(st, points[n], d)
    ensures StepNd(st, points[n], d).Ok? ==> SweepNd(points, d, n, st) == SweepNd(points, d, n + 1, StepNd(st, points[n], d).value)
  {
    assert points[n] in points;
  }

  /** `get_kink_points(points, d)`: the sweep over the points sorted by their
      last coordinate, highest first. */
  function KinkPointsSorted(points: seq<Point>, d: nat): Result<seq<Point>>
    requires d >= 3 && HasDim(points, d)
  {
    var sorted := SortByCoord(points, d - 1, true);
    assert forall p | p in sorted :: p in multiset(points);
    KinkPoints(sorted, d)
  }

  /** An empty front has the single kink point at the origin: the seed
      candidate survives the empty sweep and is lowered to level 0. */
  lemma EmptyFront(d: nat)
    requires d >= 3
    ensures KinkPointsSorted([], d) == Ok([Zeros(d)])
  {
    assert SortByCoord([], d - 1, true) == [];
    EmptySweep(d);
  }

  /** The sweep over no points returns the seed candidate at level 0. */
  lemma EmptySweep(d: nat)
    requires d >= 3
    ensures KinkPoints([], d) == Ok([Zeros(d)])
  {
    var st := Start(d - 1);
    var r := if d == 3 then Sweep3([], 0, st) else SweepNd([], d, 0, st);
    assert r == Ok(st);
    assert KinkPoints([], d) == Finish(r);
    assert Floor(st.kc) == [Zeros(d - 1) + [0]];
  }
}
