/** The list-based archive of any dimension, koda/statend.py: a list of
    tuples that is sorted once on construction, loses the members a new
    element weakly dominates, and gets the new element appended at the end
    unless a remaining member weakly dominates it. */
module KodaStateNd {
  import opened Levels
  import opened Seqs
  import opened KodaPoints

  /** `dominates(el1, el2)`: `a` is at least `b` on each of the first `dim`
      coordinates (both tuples have that many). */
  predicate DominatesOn(dim: nat, a: ExtPoint, b: ExtPoint)
  {
    dim <= |a| && dim <= |b| && forall i | 0 <= i < dim :: LevelLe(b[i], a[i])
  }

  function DominatedBy(dim: nat, el: ExtPoint): ExtPoint -> bool
  {
    x => DominatesOn(dim, el, x)
  }

  function NotDominatedBy(dim: nat, el: ExtPoint): ExtPoint -> bool
  {
    x => !DominatesOn(dim, el, x)
  }

  /** No member dominates a member at another position. */
  ghost predicate AntichainOn(dim: nat, s: seq<ExtPoint>)
  {
    forall i, j | 0 <= i < |s| && 0 <= j < |s| && i != j :: !DominatesOn(dim, s[i], s[j])
  }

  /** The dimension chosen by the constructor: the given one, else the length
      of the first element, which fails with IndexError on an empty list. */
  function InitDim(lst: seq<ExtPoint>, dim: Option<nat>): (r: Result<nat>)
    ensures r.Err? <==> dim.None? && lst == []
    ensures r.Ok? ==> r.value == if dim.Some? then dim.value else |lst[0]|
  {
    match dim
    case Some(d) => Ok(d)
    case None => if lst == [] then Err(IndexError) else Ok(|lst[0]|)
  }

  /** The list `add(el)` leaves behind when it started from `s`. */
  function AfterAdd(dim: nat, s: seq<ExtPoint>, el: ExtPoint): seq<ExtPoint>
  {
    var kept := Filter(s, NotDominatedBy(dim, el));
    if exists x | x in kept :: DominatesOn(dim, x, el) then kept else kept + [el]
  }

  /** The first loop of `remove_dominated`: the members `el` dominates, in list order. */
  method CollectDominated(s: seq<ExtPoint>, dim: nat, el: ExtPoint) returns (removed: seq<ExtPoint>)
    ensures removed == Filter(s, DominatedBy(dim, el))
  {
    removed := [];
    for k := 0 to |s|
      invariant removed == Filter(s[..k], DominatedBy(dim, el))
    {
      FilterAppend(s[..k], s[k], DominatedBy(dim, el));
      assert s[..k + 1] == s[..k] + [s[k]];
      if DominatesOn(dim, el, s[k]) {
        removed := removed + [s[k]];
      }
    }
    assert s[..|s|] == s;
  }

  class StateNd {
    const dim: nat
    var elems: seq<ExtPoint>

    /** Every member has the `dim` coordinates `dominates` reads. */
    ghost predicate Valid()
      reads this
    {
      forall x | x in elems :: dim <= |x|
    }

    /** `StateNd(lst, dim)`: the elements of `lst` in tuple order. */
    constructor (lst: seq<ExtPoint>, dim: Option<nat>)
      requires InitDim(lst, dim).Ok?
      requires forall x | x in lst :: InitDim(lst, dim).value <= |x|
      ensures Valid() && this.dim == InitDim(lst, dim).value
      ensures elems == SortTuples(lst)
    {
      this.dim := InitDim(lst, dim).value;
      elems := SortTuples(lst);
      new;
      assert forall x | x in elems :: x in multiset(lst);
    }

    /** `remove_dominated(el)`: collects the members `el` dominates, in list
        order, then removes each of them by value. */
    method RemoveDominated(el: ExtPoint) returns (removed: seq<ExtPoint>)
      requires Valid()
      modifies this
      ensures Valid()
      ensures removed == Filter(old(elems), DominatedBy(dim, el))
      ensures elems == Filter(old(elems), NotDominatedBy(dim, el))
    {
      ghost var s := elems;
      removed := CollectDominated(elems, dim, el);
      DropNone(s, DominatedBy(dim, el));
      for k := 0 to |removed|
        invariant Valid() && elems == DropMatching(s, DominatedBy(dim, el), k)
      {
        DropKeepsNext(s, DominatedBy(dim, el), k);
        DropStep(s, DominatedBy(dim, el), k);
        var e := elems;
        assert removed[k] in e;
        elems := RemoveFirst(e, removed[k]);
        forall x | x in elems ensures dim <= |x| {
          assert x in multiset(elems);
          assert x in multiset(e);
        }
      }
      DropAll(s, DominatedBy(dim, el), NotDominatedBy(dim, el));
    }

    /** `add(el)`: removes what `el` dominates, then appends `el` unless a
        remaining member dominates it. */
    method Add(el: ExtPoint)
      requires Valid() && dim <= |el|
      modifies this
      ensures Valid()
      ensures elems == AfterAdd(dim, old(elems), el)
    {
      var _ := RemoveDominated(el);
      for n := 0 to |elems|
        invariant forall j | 0 <= j < n :: !DominatesOn(dim, elems[j], el)
      {
        if DominatesOn(dim, elems[n], el) {
          return;
        }
      }
      elems := elems + [el];
    }
  }

  /** After `add(el)` no member other than `el` is dominated by `el`, and
      `el` is present exactly when no remaining member dominates it. */
  lemma AfterAddFacts(dim: nat, s: seq<ExtPoint>, el: ExtPoint)
    requires dim <= |el|
    ensures forall x | x in AfterAdd(dim, s, el) :: x == el || !DominatesOn(dim, el, x)
    ensures el in AfterAdd(dim, s, el) <==>
      !exists x | x in Filter(s, NotDominatedBy(dim, el)) :: DominatesOn(dim, x, el)
  {
    var kept := Filter(s, NotDominatedBy(dim, el));
    FilterMembers(s, NotDominatedBy(dim, el));
    assert DominatesOn(dim, el, el);
    assert el !in kept;
  }

  /** Keeping part of a list keeps it an antichain. */
  lemma {:induction false} FilterAntichain(dim: nat, s: seq<ExtPoint>, f: ExtPoint -> bool)
    requires AntichainOn(dim, s)
    ensures AntichainOn(dim, Filter(s, f))
  {
    if s != [] {
      assert AntichainOn(dim, s[1..]) by {
        forall i, j | 0 <= i < |s[1..]| && 0 <= j < |s[1..]| && i != j
          ensures !DominatesOn(dim, s[1..][i], s[1..][j])
        {
          assert s[1..][i] == s[i + 1] && s[1..][j] == s[j + 1];
        }
      }
      FilterAntichain(dim, s[1..], f);
      FilterMembers(s[1..], f);
      var t := Filter(s[1..], f);
      if f(s[0]) {
        var r := [s[0]] + t;
        forall i, j | 0 <= i < |r| && 0 <= j < |r| && i != j ensures !DominatesOn(dim, r[i], r[j]) {
          if i == 0 || j == 0 {
            var k := if i == 0 then j else i;
            assert r[k] in t;
            var c :| 0 <= c < |s[1..]| && s[1..][c] == r[k];
            assert s[c + 1] == r[k];
          } else {
            assert r[i] == t[i - 1] && r[j] == t[j - 1];
          }
        }
      }
    }
  }

  /** `add` keeps the list an antichain. */
  lemma AfterAddAntichain(dim: nat, s: seq<ExtPoint>, el: ExtPoint)
    requires dim <= |el| && AntichainOn(dim, s)
    ensures AntichainOn(dim, AfterAdd(dim, s, el))
  {
    var kept := Filter(s, NotDominatedBy(dim, el));
    FilterAntichain(dim, s, NotDominatedBy(dim, el));
    FilterMembers(s, NotDominatedBy(dim, el));
    if !exists x | x in kept :: DominatesOn(dim, x, el) {
      var r := kept + [el];
      forall i, j | 0 <= i < |r| && 0 <= j < |r| && i != j ensures !DominatesOn(dim, r[i], r[j]) {
        if i == |kept| {
          assert r[j] in kept;
        } else if j == |kept| {
          assert r[i] in kept;
        } else {
          assert r[i] == kept[i] && r[j] == kept[j];
        }
      }
    }
  }

  /** `add` appends rather than inserting in order, so the order the
      constructor established is lost: adding (0, 5) to [(1, 2)] gives
      [(1, 2), (0, 5)]. */
  lemma AddBreaksOrder()
    ensures Sorted([[Fin(1), Fin(2)]], LeOrder())
    ensures AfterAdd(2, [[Fin(1), Fin(2)]], [Fin(0), Fin(5)]) == [[Fin(1), Fin(2)], [Fin(0), Fin(5)]]
    ensures !Sorted(AfterAdd(2, [[Fin(1), Fin(2)]], [Fin(0), Fin(5)]), LeOrder())
  {
    var s: seq<ExtPoint> := [[Fin(1), Fin(2)]];
    var el: ExtPoint := [Fin(0), Fin(5)];
    assert !DominatesOn(2, el, s[0]) by {
      assert !LevelLe(s[0][0], el[0]);
    }
    assert Filter(s[1..], NotDominatedBy(2, el)) == [];
    assert Filter(s, NotDominatedBy(2, el)) == s;
    assert !DominatesOn(2, s[0], el) by {
      assert !LevelLe(el[1], s[0][1]);
    }
    var r := s + [el];
    assert TupleLt(r[1], r[0]);
    TupleLtAsymmetric(r[1], r[0]);
    assert !LeOrder()(r[0], r[1]);
  }
}
