/** A worked run of the 3-D sweep of code/main.py:85-119 on one point. */
module KinkExamples {
  import opened Levels
  import opened Dominance
  import opened Sorting
  import opened Seqs
  import opened SortedLists
  import opened Archive
  import opened KinkSpec

  /** The front made of the single point (1, 1, 1) has the three kink points
      (0, 0, 1), (0, 1, 0) and (1, 0, 0): the seed (0, 0) is emitted at level
      1, and the two corners next to (1, 1) survive to the floor. */
  lemma UnitCube(front: seq<Point>)
    requires front == [[1, 1, 1]]
    ensures KinkPoints(front, 3) == Ok([[0, 0, 1], [0, 1, 0], [1, 0, 0]])
  {
    var st1 := UnitSweep(front);
    UnitFinish(st1);
  }

  /** The 3-D loop over (1, 1, 1) ends with the kink (0, 0, 1) and the
      candidates (0, 1) and (1, 0). */
  lemma UnitSweep(front: seq<Point>) returns (st1: Sweep)
    requires front == [[1, 1, 1]]
    ensures HasDim(front, 3)
    ensures Sweep3(front, 0, Start(2)) == Ok(st1)
    ensures st1.kc == [[0, 1], [1, 0]] && st1.kinks == [[0, 0, 1]]
  {
    var st0 := Start(2);
    UnitStart();
    st1 := FirstPass(front[0], [1, 1], st0);
    Sweep3Next(front, 0, st0);
  }

  /** The start state of the 3-D sweep. */
  lemma UnitStart()
    ensures Start(2) == Sweep([], [[0, 0]], map[[0, 0] := Inf], [])
  {
    assert Zeros(2) == [0, 0];
  }

  /** The kink (0, 0, 1) followed by the two surviving corners lowered to
      the floor. */
  lemma UnitFinish(st: Sweep)
    requires st.kc == [[0, 1], [1, 0]] && st.kinks == [[0, 0, 1]]
    ensures Finish(Ok(st)) == Ok([[0, 0, 1], [0, 1, 0], [1, 0, 0]])
  {
    var floor := [[0, 1, 0], [1, 0, 0]];
    assert floor[0] == st.kc[0] + [0] && floor[1] == st.kc[1] + [0];
    FloorOf(st.kc, floor);
    assert st.kinks + floor == [[0, 0, 1], [0, 1, 0], [1, 0, 0]];
  }

  /** The pass of the 3-D loop on (1, 1, 1) from the start state. */
  lemma FirstPass(p: Point, proj: Point, st0: Sweep) returns (st1: Sweep)
    requires p == [1, 1, 1] && proj == [1, 1]
    requires st0 == Sweep([], [[0, 0]], map[[0, 0] := Inf], [])
    ensures st1.kc == [[0, 1], [1, 0]] && st1.kinks == [[0, 0, 1]]
    ensures Step3(st0, p) == Ok(st1)
  {
    assert p[..2] == proj;
    var kinks := st0.kinks + Emitted(Filter(st0.kc, Evictor(Strict, proj)), proj, st0.h, p[2]);
    var kc := Filter(st0.kc, Keeper(Strict, proj));
    assert kinks == [[0, 0, 1]] && kc == [] by {
      Evicted(proj, st0.h);
    }
    var ps := AddedState(Natural, st0.ps, proj);
    assert ps == [proj] by {
      var placed := Placed(proj);
    }
    var idx := IndexOf(ps, proj);
    assert idx == Ok(0);
    var offered := Offered(st0.h, kc, Corners(ps, 0, p), p[2]);
    assert offered.1 == [[0, 1], [1, 0]] by {
      assert Corners(ps, 0, p) == [[0, 1], [1, 0]];
      var two := TwoCorners(st0.h);
    }
    st1 := Sweep(ps, offered.1, offered.0, kinks);
    assert Step3(st0, p) == Ok(st1);
  }

  /** (1, 1) strictly dominates the seed (0, 0), which was stamped inf, so
      the seed leaves the candidates and is emitted at level 1. */
  lemma Evicted(proj: Point, h: map<Point, Level>)
    requires proj == [1, 1] && h == map[[0, 0] := Inf]
    ensures Filter([[0, 0]], Evictor(Strict, proj)) == [[0, 0]]
    ensures Filter([[0, 0]], Keeper(Strict, proj)) == []
    ensures Emitted([[0, 0]], proj, h, 1) == [[0, 0, 1]]
  {
    assert StrictlyDominates(proj, [0, 0]);
    assert Emits(proj, h, 1, [0, 0]) by {
      assert h[[0, 0]] == Inf;
    }
    var none: seq<Point> := [];
    assert [[0, 0]][..0] == none && Emitted(none, proj, h, 1) == none;
    assert [0, 0] + [1] == [0, 0, 1];
    assert Emitted([[0, 0]], proj, h, 1) == Emitted(none, proj, h, 1) + [[0, 0] + [1]];
  }

  /** `add_to_state` on an empty archive inserts the point. */
  lemma Placed(proj: Point) returns (ps: seq<Point>)
    requires proj == [1, 1]
    ensures ps == [proj] && AddedState(Natural, [], proj) == ps
  {
    assert Filter([], Keeper(Weak, proj)) == [];
    assert Kept([], proj) == [];
    ps := [proj];
  }

  /** Offering the corners (0, 1) and (1, 0), neither seen before, adds both
      to an empty candidate list, in tuple order. */
  lemma TwoCorners(h: map<Point, Level>) returns (r: (map<Point, Level>, seq<Point>))
    requires h == map[[0, 0] := Inf]
    ensures r == Offered(h, [], [[0, 1], [1, 0]], 1) && r.1 == [[0, 1], [1, 0]]
  {
    var a, b := [0, 1], [1, 0];
    assert [[0, 1], [1, 0]][..1] == [a];
    assert Kept([], a) == [] by {
      assert Filter([], Keeper(Weak, a)) == [];
    }
    assert AddedState(Natural, [], a) == [a];
    var h1 := h[a := Fin(1)];
    var none: seq<Point> := [];
    assert Offered(h, [], [a], 1) == (h1, [a]) by {
      assert [a][..0] == none;
    }
    assert !WeaklyDominates(b, a) by {
      assert b[1] < a[1];
    }
    assert Kept([a], b) == [a] by {
      assert Filter([a], Keeper(Weak, b)) == [a] by {
        assert Filter([], Keeper(Weak, b)) == [];
      }
    }
    assert !StateDominatesPoint([a], b) by {
      assert a[0] < b[0];
    }
    assert LexLe(a, b);
    assert Insort(Natural, [a], b) == [a, b];
    assert AddedState(Natural, [a], b) == [a, b];
    r := (h1[b := Fin(1)], [a, b]);
  }
}
