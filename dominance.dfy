/** Dominance between objective vectors under maximisation (code/utils.py).

    The source passes the dimension `dim` explicitly, and its callers compare
    vectors of that same length; here the dimension is the common length of
    the two vectors, and vectors of different lengths never dominate. */
module Dominance {

  type Point = seq<int>

  /** `p` is at least as large as `q` in every coordinate. */
  predicate WeaklyDominates(p: Point, q: Point)
  {
    |p| == |q| && forall i | 0 <= i < |p| :: p[i] >= q[i]
  }

  /** `p` is larger than `q` in every coordinate. */
  predicate StrictlyDominates(p: Point, q: Point)
  {
    |p| == |q| && forall i | 0 <= i < |p| :: p[i] > q[i]
  }

  /** `p` is larger than `q` in every coordinate but the last, and smaller in the last. */
  predicate StrictlyDominatesExceptLast(p: Point, q: Point)
  {
    && |p| == |q| && |p| >= 1
    && (forall i | 0 <= i < |p| - 1 :: p[i] > q[i])
    && p[|p| - 1] < q[|p| - 1]
  }

  /** Scans `state` in order and answers as soon as one member weakly dominates `point`. */
  function StateDominatesPoint(state: seq<Point>, point: Point): (r: bool)
    ensures r <==> exists s :: s in state && WeaklyDominates(s, point)
    ensures state == [] ==> !r
  {
    if state == [] then false
    else if WeaklyDominates(state[0], point) then true
    else StateDominatesPoint(state[1..], point)
  }

  /** Every vector of `s` has `d` coordinates. */
  predicate HasDim(s: seq<Point>, d: nat)
  {
    forall x | x in s :: |x| == d
  }

  /** Neither vector weakly dominates the other. */
  predicate Incomparable(p: Point, q: Point)
  {
    !WeaklyDominates(p, q) && !WeaklyDominates(q, p)
  }

  /** No member of `s` weakly dominates a member at another position. */
  predicate Antichain(s: seq<Point>)
  {
    forall i, j | 0 <= i < j < |s| :: Incomparable(s[i], s[j])
  }

  lemma WeaklyDominatesReflexive(p: Point)
    ensures WeaklyDominates(p, p)
  {
  }

  lemma WeaklyDominatesTransitive(p: Point, q: Point, r: Point)
    requires WeaklyDominates(p, q) && WeaklyDominates(q, r)
    ensures WeaklyDominates(p, r)
  {
  }

  lemma StrictImpliesWeak(p: Point, q: Point)
    requires StrictlyDominates(p, q)
    ensures WeaklyDominates(p, q) && (p != [] ==> p != q)
  {
    if p != [] {
      assert p[0] != q[0];
    }
  }

  /** Being behind in the last coordinate rules out weak dominance, so the
      relation is also irreflexive. */
  lemma ExceptLastExcludesWeak(p: Point, q: Point)
    requires StrictlyDominatesExceptLast(p, q)
    ensures !WeaklyDominates(p, q) && p != q
  {
  }

  /** Adding members to a state never turns "dominated" into "not dominated". */
  lemma StateDominatesPointMonotone(state: seq<Point>, more: seq<Point>, point: Point)
    requires forall s :: s in state ==> s in more
    ensures StateDominatesPoint(state, point) ==> StateDominatesPoint(more, point)
  {
  }
}
