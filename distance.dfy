/** The distance oracle of code/main.py:11-26.  The square root the source
    takes last is left out: the values here are squared distances. */
module Distance {
  import opened Levels
  import opened Dominance
  import opened KinkSpec
  import opened KinkEngine

  /** Σ max(k[i] - q[i], 0)²: how far the query must rise to reach `k`. */
  function SqDist(k: Point, q: Point): (r: int)
    requires |k| == |q|
    ensures r >= 0
    ensures r == 0 <==> forall i | 0 <= i < |k| :: k[i] <= q[i]
  {
    if k == [] then 0
    else
      var e := if k[0] - q[0] > 0 then k[0] - q[0] else 0;
      e * e + SqDist(k[1..], q[1..])
  }

  /** The running minimum of the squared distances to the first kink points,
      starting from `inf`. */
  function MinSqDist(kinks: seq<Point>, q: Point): (m: Level)
    requires HasDim(kinks, |q|)
    ensures m == Inf <==> kinks == []
    ensures forall k | k in kinks :: LevelLe(m, Fin(SqDist(k, q)))
    ensures m != Inf ==> exists k | k in kinks :: m == Fin(SqDist(k, q))
  {
    if kinks == [] then Inf
    else
      var init := kinks[..|kinks| - 1];
      assert forall k | k in kinks :: k in init || k == kinks[|kinks| - 1];
      LevelMin(MinSqDist(init, q), Fin(SqDist(kinks[|kinks| - 1], q)))
  }

  /** `dist_to_kink_points` before the square root: the least squared
      distance from the query to a kink point, `inf` for no kink points, and
      0 as soon as one kink point lies coordinatewise below the query. */
  method DistToKinkPoints(kinks: seq<Point>, q: Point) returns (m: Level)
    requires HasDim(kinks, |q|)
    ensures m == MinSqDist(kinks, q)
    ensures m.Fin? ==> m.v >= 0
    ensures (exists k | k in kinks :: forall i | 0 <= i < |q| :: k[i] <= q[i]) ==> m == Fin(0)
  {
    m := Inf;
    for n := 0 to |kinks|
      invariant m == MinSqDist(kinks[..n], q)
    {
      assert kinks[..n + 1][..n] == kinks[..n];
      m := LevelMin(m, Fin(SqDist(kinks[n], q)));
    }
    assert kinks[..|kinks|] == kinks;
    if exists k | k in kinks :: forall i | 0 <= i < |q| :: k[i] <= q[i] {
      var k :| k in kinks && forall i | 0 <= i < |q| :: k[i] <= q[i];
      assert SqDist(k, q) == 0;
    }
  }

  /** `distance_to_pareto_front` before the square root: 0 when no front point
      weakly dominates the query (an empty front included), otherwise the
      least squared distance to the kink points of the front. */
  method DistanceToParetoFront(front: seq<Point>, q: Point) returns (r: Result<Level>, ghost kinks: seq<Point>)
    requires HasDim(front, |q|)
    requires |q| >= 3 || !StateDominatesPoint(front, q)
    ensures !StateDominatesPoint(front, q) ==> r == Ok(Fin(0))
    ensures (|q| > 3 || Antichain(front)) ==> r.Ok?
    ensures StateDominatesPoint(front, q) ==>
      && KinkPointsSorted(front, |q|).Err? == r.Err?
      && (r.Ok? ==> kinks == KinkPointsSorted(front, |q|).value && KinkFacts(kinks, front, |q|)
                    && r.value == MinSqDist(kinks, q))
    ensures r.Ok? && r.value.Fin? ==> r.value.v >= 0
  {
    kinks := [];
    if !StateDominatesPoint(front, q) {
      return Ok(Fin(0)), kinks;
    }
    var k := GetKinkPoints(front, |q|);
    if k.Err? {
      return Err(k.error), kinks;
    }
    var found := k.value;
    kinks := found;
    assert HasDim(found, |q|);
    var m := DistToKinkPoints(found, q);
    r := Ok(m);
  }
}
