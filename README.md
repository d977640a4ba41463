# Kink points of a Pareto front — a verified model

This project models the core of a small Python code base about Pareto fronts
under maximisation. Given a set of mutually non-dominated points, the code
computes the **kink points**: the corner vertices of the staircase surface
that bounds the region the front dominates. It then uses them to measure how
far a query point lies below the front.

The model covers the following.

- **Dominance predicates** (`code/utils.py`): weak dominance, strict dominance
  on all but the last coordinate, and "some state member dominates a point".
  Strict dominance in every coordinate is also modelled, because the sweep
  imports it.
- **Non-dominated archives** (`code/main.py`):
  - `add_to_state`;
  - `remove_dominated_nd`, which collects the members to evict and then calls
    `list.remove` on each;
  - `remove_dominated_3d`, which deletes one contiguous slice of a 2-D
    staircase.

  The `sortedcontainers.SortedList` these work on is modelled as a class with
  a key (`SortedLists.SortedList`).
- **The kink-point sweep** (`code/main.py`): `get_kink_points`,
  `get_kink_points_rec` and `get_kink_points_rec_3d`. These are the
  activation map `h`, the candidate archive, emission at the level of the
  current point, recursion one dimension down, the two neighbour corners at
  the 3-D floor, and the final loop at level 0.
- **The distance oracle** (`code/main.py`): `distance_to_pareto_front` and
  `dist_to_kink_points`, on squared distances.
- **The quadratic non-dominated filter** `remove_dominated_points`
  (`code/point_sampling.py`).
- **The older prototype** under `koda/`:
  - the list archives `StateNd`, `State` and `State2d`, each a class whose
    list is a `seq` field;
  - the 3-D sweep `koda/main.py`, whose `inf` sentinels are modelled by
    `Levels.Level = Inf | Fin(int)`.

  The `dominates` methods of these archives are modelled as
  `KodaStateNd.DominatesOn` and `KodaPoints.DominatesAt`.

Coordinates are integers. Python tuples are `seq<int>` (`Dominance.Point`).
In `koda/` they are `seq<Level>` (`KodaPoints.ExtPoint`), compared the way
Python compares tuples (`KodaPoints.TupleLt`). Python exceptions the code can
raise are values of `Levels.Result`: `ValueError` from `list.index`, and
`IndexError` from a read past the end of a list or from `lst[0]` on an empty
list.

The state-changing code is imperative Dafny:

- a `SortedList`, `State`, `State2d` or `StateNd` is a class;
- the sweeps are methods with loops;
- each method is proved against a function of its inputs: `Filter`,
  `Added`/`Removed`, `KodaMain.Sweep`, `MinSqDist`, and for the kink-point
  sweep of `code/main.py` the functions of `KinkSpec` (`KinkPoints`,
  `Sweep3`, `SweepNd`), which replay `get_kink_points_rec` pass by pass.

The lemmas about those functions state what the code promises: sortedness,
antichains, which members go and which stay, and the shape of the kinks.
`KinkExamples` works one run of the 3-D sweep through by hand: the front
{(1, 1, 1)} has exactly the kinks (0, 0, 1), (0, 1, 0) and (1, 0, 0).

## Model

| member | source | states |
|---|---|---|
| Levels.LevelMin | code/main.py:21-24 | Python's `min` with `inf` above every finite value: the result is at most both arguments and is one of them |
| Dominance.StateDominatesPoint | code/utils.py:13-18 | true exactly when some member of the state weakly dominates the point; false on an empty state |
| Dominance.StateDominatesPointMonotone | code/utils.py:13-18 | adding members to a state never turns "dominated" into "not dominated" |
| Dominance.WeaklyDominatesReflexive | code/utils.py:8-10 | every point weakly dominates itself |
| Dominance.WeaklyDominatesTransitive | code/utils.py:8-10 | weak dominance is transitive |
| Dominance.ExceptLastExcludesWeak | code/utils.py:1-10 | being strictly better on all but the last coordinate and worse on the last rules out weak dominance, so the relation is irreflexive |
| Dominance.StrictImpliesWeak | code/main.py:144-145 | strict dominance implies weak dominance, and a non-empty point never strictly dominates itself |
| Sorting.SortByCoord | code/main.py:44 | `sorted(..., key=lambda x: x[i], reverse=...)` is a permutation of its input, ordered by the key |
| Sorting.AssertSortedIff | code/main.py:29-36 | `assert_sorted(points, d)` passes exactly when the points do not increase in coordinate d-1 |
| Sorting.SortedIsFixed | code/main.py:29-36 | the stable sort leaves a list already ordered by the key unchanged |
| Sorting.SortKeepsAntichain | code/main.py:43-45 | sorting an antichain gives an antichain |
| Seqs.RemoveFirst | code/main.py:148-149 | `list.remove(v)` drops one copy of `v` and leaves the list unchanged when `v` is absent |
| Seqs.FilterMembers | code/main.py:142-146 | the elements a scan keeps are exactly the elements of the list that pass the test |
| Seqs.DropStep | code/main.py:148-149 | removing, by value, the next element the scan collected deletes exactly that occurrence, because every earlier copy was collected and removed before |
| Seqs.DropAll | code/main.py:142-149 | removing every collected element leaves exactly the elements the scan did not collect, in order |
| Seqs.FilterSorted | code/main.py:148-149 | deleting members keeps a sorted list sorted |
| SortedLists.IndexOf | code/main.py:105 | `list.index(v)` returns the first position of `v`, or ValueError exactly when `v` is absent |
| SortedLists.SortedList.constructor | code/main.py:87-88 | an empty sorted list with the given key |
| SortedLists.SortedList.FromSeq | code/main.py:59 | `SortedList(init)` holds exactly the elements of `init`, in key order |
| SortedLists.SortedList.AddAll | code/main.py:59 | adding the elements of `init` one by one to an empty list gives `InsortAll(init)` |
| SortedLists.SortedList.Add | code/main.py:135 | `add` inserts the element after every element whose key is not larger; the list stays sorted and gains exactly one copy |
| SortedLists.SortedList.Remove | code/main.py:149 | `remove(v)` drops the first occurrence of `v` and keeps the list sorted |
| SortedLists.SortedList.Slice | code/main.py:159 | `self[lo:hi]` is that slice, or empty when the bounds cross |
| SortedLists.SortedList.DeleteSlice | code/main.py:160 | `del self[lo:hi]` removes exactly that slice and keeps the list sorted |
| Archive.EvictsMeaning | code/main.py:144-145 | weak mode evicts exactly the weakly dominated members, strict mode exactly the strictly dominated ones, never the point itself |
| Archive.StaircaseIsAntichain | code/main.py:123-128 | a 2-D staircase (x rising, y falling) is an antichain in tuple order |
| Archive.GetDominatedPointsBisect | code/main.py:157 | the two bisections bound exactly the positions of the staircase members the new point evicts |
| Archive.CollectEvicted | code/main.py:142-146 | the first loop collects exactly the evicted members, in list order |
| Archive.RemoveDominatedNd | code/main.py:138-151 | returns exactly the evicted members in list order; the state keeps exactly the others, in order, and stays sorted |
| Archive.RemoveDominated3d | code/main.py:154-167 | deletes one slice: it returns the evicted members and keeps the others. Every removed member is weakly dominated by the new point and is gone from the state, which stays a staircase |
| Archive.EvictionIsSlice | code/main.py:157-160 | when the new point evicts exactly the positions `left..right`, eviction is that slice and the rest is what stays |
| Archive.EvictionSplits | code/main.py:162-165 | what stays is a staircase; every removed member is weakly dominated by the new point and no longer in the state |
| Archive.Kept | code/main.py:129-132 | the survivors of weak eviction are members the new point does not weakly dominate |
| Archive.AddToState | code/main.py:123-135 | afterwards nothing the new point dominates remains. The point is present exactly when no survivor dominates it. Otherwise the state is the survivors plus one copy of the point, an antichain stays an antichain and a staircase stays a staircase |
| Archive.KeptFacts | code/main.py:129-134 | the survivors exclude the new point itself and stay an antichain |
| Archive.InsertFacts | code/main.py:134-135 | inserting the undominated point adds exactly that point and keeps the antichain |
| Archive.AntichainInsert | code/main.py:134-135 | a point incomparable to every member extends an antichain wherever it goes |
| Archive.StairInsert | code/main.py:129-135 | a pair incomparable to every staircase member, inserted at its tuple-order place, extends the staircase |
| KinkSpec.Zeros | code/main.py:58 | `(0, ) * n` has `n` coordinates, all 0 |
| KinkSpec.Emitted | code/main.py:66-68 | the emission loop appends at most one kink per removed candidate |
| KinkSpec.Stamped | code/main.py:74-76 | levels already in `h` stay; every new key is a candidate stamped with level `z` |
| KinkSpec.Offered | code/main.py:110-113 | levels already in `h` stay, every corner ends up in `h`, and the candidates stay 2-D |
| KinkSpec.Corners | code/main.py:106-107 | exactly two 2-D corners around the projection |
| KinkSpec.FloorOf | code/main.py:79-80 | a list holding each candidate followed by 0, position by position, is `Floor` of the candidates |
| KinkSpec.FloorAt | code/main.py:116-117 | `Floor` has one entry per candidate, the candidate followed by 0 |
| KinkSpec.Step3 | code/main.py:93-113 | one pass of the 3-D loop fails only with the ValueError of `index`, and keeps the archive 2-D |
| KinkSpec.Sweep3 | code/main.py:93-113 | the 3-D loop fails only with ValueError |
| KinkSpec.StepNd | code/main.py:64-76 | one pass of the n-D loop keeps the archive (d-1)-dimensional |
| KinkSpec.Sweep3Next | code/main.py:93 | the 3-D loop runs pass after pass and stops at the first failing one |
| KinkSpec.SweepNdNext | code/main.py:64 | the n-D loop runs pass after pass and stops at the first failing one |
| KinkSpec.EmptySweep | code/main.py:56-62 | the sweep over no points returns the single kink at the origin |
| KinkSpec.EmptyFront | code/main.py:43-45 | `get_kink_points([], d)` is the single kink at the origin, for every d >= 3 |
| KinkExamples.UnitCube | code/main.py:85-119 | the 3-D sweep over the single point (1, 1, 1) returns exactly the kinks (0, 0, 1), (0, 1, 0) and (1, 0, 0), in that order |
| KinkExamples.UnitSweep | code/main.py:93-113 | the loop over (1, 1, 1) ends with the kink (0, 0, 1) and the candidates (0, 1), (1, 0) |
| KinkExamples.FirstPass | code/main.py:93-113 | one loop pass on (1, 1, 1) from the start state: the seed (0, 0) is evicted and emitted at level 1, the archive becomes [(1, 1)], both corners are new and become the candidates |
| KinkExamples.UnitFinish | code/main.py:115-119 | the final loop appends the surviving candidates at level 0 after the kinks already emitted |
| KinkExamples.Evicted | code/main.py:95-99 | the seed (0, 0), stamped inf, is strictly dominated by (1, 1), leaves the candidates and is emitted as (0, 0, 1) |
| KinkExamples.TwoCorners | code/main.py:110-113 | offering (0, 1) then (1, 0), neither stamped, stamps both at level 1 and inserts both, in tuple order |
| KinkEngine.EmitRemoved | code/main.py:97-99 | a removed candidate `c` is emitted as `c + (z,)` exactly when the point strictly dominates it and `h[c] > z`; the result is `Emitted` |
| KinkEngine.StampNew | code/main.py:74-76 | every new candidate gets level `z` the first time it is seen; recorded levels never change; the result is `Stamped` |
| KinkEngine.AddCandidates3d | code/main.py:110-113 | each corner not seen before gets level `z` and is added to the candidate staircase as `add_to_state` adds it (the pair is `Offered`); levels already recorded stay |
| KinkEngine.AppendFloor | code/main.py:116-117 | every surviving candidate is appended with last coordinate 0, in order, after the kinks found so far |
| KinkEngine.FloorKinkFacts | code/main.py:79-80 | the candidates lowered to 0 follow the kinks found so far and keep the kink facts |
| KinkEngine.EmittedKinks | code/main.py:66-68 | emitted kinks have length d, lie on the grid of the input and are activated by a point that strictly dominates them |
| KinkEngine.KinkFactsWiden | code/main.py:43-45 | kink facts over the sorted list carry over to the input list it permutes |
| KinkEngine.GridLift | code/main.py:72-73 | kink points of the recursive call lie on the grid of the d-dimensional input |
| KinkEngine.DescLastSorted | code/main.py:56 | an archive ordered by `key=lambda x: -x[-1]` passes `assert_sorted` in the recursive call |
| KinkEngine.ProjectionSurvives | code/main.py:102-105 | for an antichain sorted by descending z, the projection of the new point survives its insertion, so `index` finds it |
| KinkEngine.CornersOnGrid | code/main.py:106-107 | the two neighbour corners lie on the grid of the input |
| KinkEngine.RemoveAndEmit | code/main.py:95-99 | the candidates keep exactly those the projection does not strictly dominate; the kinks grow by exactly `Emitted` of the evicted ones (those with `h[c] > z`) |
| KinkEngine.InsertAndCorners | code/main.py:102-113 | the archive becomes `add_to_state`'s result; `ok` is whether `index` finds the projection (always on antichains); then `h` and the candidates are `Offered` the two `Corners` |
| KinkEngine.OfferCorners | code/main.py:106-113 | `h` and the candidates become `Offered` the two corners (left x or 0, y) and (x, right y or 0), which both end up in `h` |
| KinkEngine.Start3d | code/main.py:87-89 | an empty projection archive and the single candidate (0, 0) with level inf |
| KinkEngine.Step3d | code/main.py:93-113 | one pass of the 3-D loop computes `Step3` on the state, keeps every invariant and fails only on a non-antichain |
| KinkEngine.Loop3d | code/main.py:93-113 | the 3-D loop computes `Sweep3`, failing exactly when it does |
| KinkEngine.GetKinkPointsRec3d | code/main.py:85-119 | the result is `KinkPoints(points, 3)`; it succeeds on antichains, and every kink has three coordinates, lies on the grid of the input, and is at level 0 or activated by a strictly dominating point |
| KinkEngine.InsertAndRecurse | code/main.py:70-76 | the archive becomes `add_to_state`'s result; the candidate list is replaced by the sorted recursive result `KinkPoints(ps, d-1)`, stamped in `h` by `Stamped` |
| KinkEngine.NewCandidates | code/main.py:73-76 | the candidate list holds exactly the recursive result, in sorted order, and `h` is `Stamped` by it |
| KinkEngine.StepRec | code/main.py:64-76 | one pass of the n-D loop computes `StepNd` and keeps every invariant |
| KinkEngine.LoopNd | code/main.py:64-76 | the n-D loop computes `SweepNd` and never fails |
| KinkEngine.GetKinkPointsRecNd | code/main.py:56-81 | the n-D sweep returns the emitted kinks followed by the survivors at level 0 (`Finish` of `SweepNd`) and keeps the kink facts |
| KinkEngine.GetKinkPointsRec | code/main.py:48-82 | the result is `KinkPoints(points, d)`; it never fails above dimension 3, and every kink has d coordinates, lies on the grid of the input, and is at level 0 or activated |
| KinkEngine.GetKinkPoints | code/main.py:43-45 | the result is `KinkPointsSorted`: the sweep over the points sorted by the last coordinate, highest first; only a 3-D non-antichain input can fail |
| KinkEngine.SortedInput | code/main.py:43-45 | the sorted copy has the same points, passes `assert_sorted`, and is an antichain when the input is one |
| Distance.SqDist | code/main.py:23 | Σ max(k[i]-q[i], 0)² is never negative and is 0 exactly when `k` is coordinatewise at most `q` |
| Distance.MinSqDist | code/main.py:21-24 | the running minimum is inf exactly for no kinks, is at most every squared distance and is one of them |
| Distance.DistToKinkPoints | code/main.py:20-26 | the loop computes that minimum; it is 0 when some kink point is coordinatewise at most the query |
| Distance.DistanceToParetoFront | code/main.py:11-17 | 0 when no front point weakly dominates the query (an empty front included); otherwise it fails exactly when `get_kink_points` does, and is the least squared distance to `KinkPointsSorted(front, d)` |
| PointSampling.RemoveDominatedPoints | code/point_sampling.py:76-87 | keeps exactly the points no different input point weakly dominates, in input order. The result is never longer than the input and no kept point dominates another |
| PointSampling.DuplicatesKept | code/point_sampling.py:82 | equal copies do not eliminate each other: every copy of an undominated point is kept |
| KodaPoints.SortTuples | koda/state.py:6 | `sorted(lst)` on tuples is a permutation in tuple order |
| KodaPoints.BisectLeft | koda/state.py:10 | `bisect_left` counts the leading elements smaller than `x`; the element there is not smaller |
| KodaPoints.BisectLeftSorted | koda/state.py:10 | on a sorted list nothing from the bisect position on is smaller than `x` |
| KodaPoints.PyAt | koda/state2d.py:48 | Python indexing: a negative index counts from the end, and out of range is IndexError |
| KodaPoints.DominatesAt | koda/state.py:46-51 | `dominates(idx, f)` is None out of range, else weak dominance on the first two coordinates |
| KodaStateNd.InitDim | koda/statend.py:7 | the dimension is the given one, else the length of the first element; IndexError exactly for an empty list without `dim` |
| KodaStateNd.CollectDominated | koda/statend.py:22-25 | the first loop collects exactly the dominated members, in list order |
| KodaStateNd.StateNd.constructor | koda/statend.py:5-7 | the elements of `lst` in tuple order, with the chosen dimension |
| KodaStateNd.StateNd.RemoveDominated | koda/statend.py:20-30 | returns exactly the dominated members in order and keeps exactly the others, in their order |
| KodaStateNd.StateNd.Add | koda/statend.py:9-18 | removes what `el` dominates, then appends `el` unless a survivor dominates it |
| KodaStateNd.AfterAddFacts | koda/statend.py:9-18 | afterwards no member but `el` is dominated by `el`, and `el` is present exactly when no survivor dominates it |
| KodaStateNd.FilterAntichain | koda/statend.py:20-30 | removal keeps an antichain an antichain |
| KodaStateNd.AfterAddAntichain | koda/statend.py:9-18 | `add` keeps an antichain an antichain |
| KodaStateNd.AddBreaksOrder | koda/statend.py:6-18 | `add` appends, so the tuple order the constructor set up is lost: (0, 5) added to [(1, 2)] ends up last |
| KodaState.RunEnd | koda/state.py:20-21 | the rightward scan stops at the first member higher than `el` in y, or at the end; everything it passes is not higher |
| KodaState.State.constructor | koda/state.py:6 | the elements of `lst` in tuple order |
| KodaState.State.Add | koda/state.py:9-26 | returns the bisect position; the list becomes `Added(old, el)` and stays sorted |
| KodaState.State.OverwriteRun | koda/state.py:20-25 | `el` takes position `idx` and the run after it that is not higher than `el` in y is deleted |
| KodaState.State.RemoveDominated | koda/state.py:28-44 | returns and deletes the stretch `Removed(old, el)` names; the list stays sorted |
| KodaState.AddedSorted | koda/state.py:9-26 | `add` keeps the list sorted, `el` sits at the returned index afterwards, and nothing new but `el` appears |
| KodaState.AddedMembers | koda/state.py:9-26 | every member after `add` is `el` or was there before |
| KodaState.AddedInserts | koda/state.py:16-18 | on the plain path the list grows by one and loses nothing |
| KodaState.RunBounds | koda/state.py:16-22 | off the plain path the member at idx is not lower than `el` in y, and the member after the run is higher |
| KodaState.AddedOverwrites | koda/state.py:20-26 | off the plain path `el` overwrites position idx and the run after it goes; everything before idx and from the run's end on stays |
| KodaState.RemovedSorted | koda/state.py:28-44 | `remove_dominated` keeps the list sorted |
| KodaState.RemovedPartition | koda/state.py:42-44 | what `remove_dominated` returns plus what it keeps is exactly the old list |
| KodaState.RemovedMatchesAdded | koda/state.py:28-44 | `remove_dominated` returns [] exactly on the plain path of `add`. The length drops by the number removed, and `add` is `remove_dominated` followed by inserting `el` at the bisect position |
| KodaState.RemovedRun | koda/state.py:38-44 | the returned stretch starts with a member not lower than `el` in y and goes on with members not higher |
| KodaState.SentinelLost | koda/state.py:16-25 | with the sentinels (0, inf) and (inf, 0), adding (5, 5) and then (3, 3) deletes the sentinel (inf, 0) |
| KodaState2d.AsIndex | koda/state2d.py:45-48 | Python reads the `False` that `add` returns as index 0 |
| KodaState2d.RunStart | koda/state2d.py:19-21 | the leftward scan stops at the start of the longest run ending at idx-1 that is not higher than `el` in y |
| KodaState2d.Corner | koda/state2d.py:48 | one corner exists exactly when both indices are valid under Python indexing; it is a triple at `el`'s third coordinate |
| KodaState2d.Candidates | koda/state2d.py:44-49 | two triples at `el`'s third coordinate, and an error exactly when a neighbour is missing under Python indexing |
| KodaState2d.State2d.constructor | koda/state2d.py:6 | the elements of `lst` in tuple order |
| KodaState2d.State2d.Add | koda/state2d.py:9-25 | the result and the list are `Added(old, el)`; the list stays sorted |
| KodaState2d.State2d.ReplaceRun | koda/state2d.py:19-25 | returns the start of the run, and `el` replaces the run ending at idx-1 |
| KodaState2d.State2d.RemoveDominated | koda/state2d.py:27-42 | returns and deletes the run `Removed(old, el)` names; the list stays sorted |
| KodaState2d.State2d.AddAndGetCandidates | koda/state2d.py:44-49 | adds `el`, then returns the two corner triples around its position (left x with `el`'s y, `el`'s x with right y), or IndexError |
| KodaState2d.CornerTriples | koda/state2d.py:46-49 | the loop over the two corners computes `Candidates` |
| KodaState2d.AddedSorted | koda/state2d.py:9-25 | `add` keeps the list sorted. It refuses exactly when a neighbour dominates `el`, and then leaves the list unchanged. An accepted `el` sits at the returned index |
| KodaState2d.AddedInserts | koda/state2d.py:15-17 | without removal `el` goes in at the bisect position and the list grows by one, losing nothing |
| KodaState2d.AddedReplaces | koda/state2d.py:19-25 | otherwise the run ending at idx-1 that is not higher than `el` in y, preceded by a higher member or the start, is replaced by `el` at its start |
| KodaState2d.RemovedSorted | koda/state2d.py:27-42 | `remove_dominated` keeps the list sorted |
| KodaState2d.RemovedMatchesAdded | koda/state2d.py:27-42 | `remove_dominated` returns [] exactly when `add` refuses or inserts plainly; `add` is `remove_dominated` followed by inserting `el` at the start of the run |
| KodaState2d.CandidatesAt | koda/state2d.py:44-49 | around `el` at position k the candidates are (left x, el y, el z) and (el x, right y, el z); IndexError without a right neighbour |
| KodaMain.EmittedShape | koda/main.py:17-19 | every emitted kink is a triple at the height of the emitting point |
| KodaMain.FloorShape | koda/main.py:27-28 | every kink of the final loop is a triple at height 0 |
| KodaMain.Corner | koda/main.py:23 | one corner exists exactly when both indices are valid under Python indexing; it is a triple at the point's height |
| KodaMain.Project | koda/main.py:21-23 | entering the projection keeps the archive sorted and yields two triples at the point's height, or IndexError |
| KodaMain.Offer | koda/main.py:22-24 | adding the two corners keeps the candidates sorted triples and brings in nothing but the two corners |
| KodaMain.Step | koda/main.py:15-24 | one pass of the loop fails, with IndexError, exactly when the corner lookup does |
| KodaMain.StepFacts | koda/main.py:15-24 | a pass keeps both archives sorted and appends exactly the emitted kinks; every new candidate was there before or lies at the point's height |
| KodaMain.EmitKinks | koda/main.py:17-19 | the inner loop appends exactly `Emitted(removed, p)` |
| KodaMain.OfferCorners | koda/main.py:22-24 | succeeds exactly when both corners exist, and then adds them in turn |
| KodaMain.AppendFloor | koda/main.py:27-28 | the final loop appends exactly `Floor(kc)` |
| KodaMain.SweepStep | koda/main.py:16-24 | a pass on the two archives computes `Step` |
| KodaMain.RunSweep | koda/main.py:15-30 | the loop and the final loop compute `Sweep` |
| KodaMain.GetKinkPoints | koda/main.py:8-30 | the result is `Sweep` over the points in ascending height from the seeds. It is made of triples or is IndexError, and with no negative heights every kink is at height 0 |
| KodaMain.SweepShape | koda/main.py:15-30 | the sweep returns triples, and its only error is IndexError |
| KodaMain.EmittedNone | koda/main.py:18 | no removed candidate that lies at most at the point's height is emitted |
| KodaMain.AscendingTail | koda/main.py:9 | the remaining points stay in ascending height, none below the current one |
| KodaMain.StepBelow | koda/main.py:16-24 | a point no lower than every candidate emits nothing and leaves every candidate at most at its height |
| KodaMain.SweepFloorOnly | koda/main.py:9-28 | because of the ascending sort the emission test never fires, so every kink comes from the final loop at height 0 |
| KodaMain.SeedsSorted | koda/main.py:11-12 | both seeds are already in tuple order, so the constructors keep them |
| KodaMain.SeedBelow | koda/main.py:9-12 | with heights not below 0 the seed candidate is below every point, and the sort yields ascending heights |
| KodaMain.FirstAdded | koda/main.py:21 | (5, 5) enters between the sentinels at position 1 |
| KodaMain.FirstProject | koda/main.py:21-23 | (5, 5, 1) offers the corners (5, inf, 1) and (inf, 5, 1) |
| KodaMain.SecondAdded | koda/main.py:21 | (3, 3) overwrites (5, 5) and the run takes the sentinel (inf, 0) along |
| KodaMain.SecondProject | koda/main.py:21-23 | the right-hand corner of (3, 3, 2) then reads past the end: IndexError |
| KodaMain.CrashOrder | koda/main.py:9 | sorting by height keeps (5, 5, 1) ahead of (3, 3, 2) |
| KodaMain.SentinelCrash | koda/main.py:8-30 | `get_kink_points` raises IndexError on the two incomparable points (5, 5, 1) and (3, 3, 2) |

## Left out

- `math.sqrt` in `dist_to_kink_points` is not modelled. The model returns the squared distance, so no floating point is involved. Coordinates are integers rather than floats, and `inf` is the `Inf` level.
- `print` is left out. The dominance check at the start of `State.add` and `State.remove_dominated` (koda/state.py:12-14, 31-33) only prints, so it is not modelled.
- `MAKE_EXPENSIVE_ASSERTS` and `assert_dimensionality` are not run as code. They become preconditions (`HasDim`, `AssertSorted`) or proved postconditions (the post-asserts of `remove_dominated_3d`).
- `strictly_dominates` and `get_dominated_points_bisect` are imported from a `utils` that does not define them; they are not part of this model. The first is modelled as strict dominance in every coordinate. The second is modelled as two binary searches over the staircase, proved to bound exactly the evicted members.
- The extra `dim` argument of the dominance predicates is not modelled. The dimension is the common length of the two points, and points of different lengths never dominate. The callers in code/main.py pass two arguments.
- `sortedcontainers.SortedList` is not part of this model. It is modelled by the class `SortedLists.SortedList`, whose methods are specified rather than copied from the library.
- KinkEngine.GetKinkPointsRec: requires d >= 3. At d = 2 the source returns [(0, 0)] for an empty input, and for any other input it recurses to d = 1, where `key=lambda x: -x[-1]` on the empty projection `()` raises IndexError.
- KinkEngine.GetKinkPoints: requires d >= 3, for the same reason.
- Distance.DistanceToParetoFront: requires `|q| >= 3` whenever some front point dominates the query, for the same reason.
- KinkEngine.GetKinkPointsRec: the result is proved equal to the functional sweep `KinkSpec.KinkPoints` and to satisfy the kink facts (length, grid, level 0 or activation by a strictly dominating point). It is not proved that the result is exactly the set of corners of the dominated region, nor that it does not depend on the order of the input.
- KinkEngine.GetKinkPointsRec3d: the result is proved equal to `KinkSpec.KinkPoints(points, 3)` and to satisfy the kink facts. It is not proved that the result is exactly the set of corners of the dominated region, nor that it does not depend on the order of the input. Local maximality is not proved either: it is not shown that lowering any coordinate of a returned kink leaves it undominated by the front.
- KinkEngine.GetKinkPoints: the result is proved equal to `KinkSpec.KinkPointsSorted(points, d)` and to satisfy the kink facts on the input. It is not proved that the result is exactly the set of corners of the dominated region, nor that it is locally maximal, nor that it does not depend on the order of the input.
- KinkEngine.RemoveAndEmit: in dimension d > 3, code/main.py:65 passes the whole d-tuple `point` to `remove_dominated_nd`, whose candidates have d-1 coordinates. The model passes the projection `point[:-1]`, as the 3-D loop does at code/main.py:95 and as the emission test at code/main.py:67 does. The model's strict dominance is false between tuples of different lengths, so the whole tuple would evict nothing.
- KodaStateNd.StateNd.constructor: requires every element to have at least `dim` coordinates. Python accepts shorter elements at construction and raises IndexError only later, in `dominates`.
- Distance.DistanceToParetoFront: code/main.py:13-14 returns 0 when no front point weakly dominates the query. That is the reverse of the usual convention, where a dominated query is at distance 0. The model follows the code.
- Distance.DistanceToParetoFront: the result is proved to be the minimum squared distance over the kinks that `KinkSpec.KinkPointsSorted` returns. That minimum is the squared distance to the dominated region only if the kinks are exactly its corners, which is not proved (see `KinkEngine.GetKinkPointsRec`).
- Distance.DistanceToParetoFront: does not prove that the minimum is finite, which would need a kink for every dominated query.
- KodaMain.Emitted: its own contract states only the length bound. The shape of the emitted kinks is `KodaMain.EmittedShape`, and the loop that computes them is `KodaMain.EmitKinks`.
- KodaMain.Floor: its own contract states only the length. The shape of the floor kinks is `KodaMain.FloorShape`.
- Aliasing between the two archives of a sweep is excluded by `ps != kc` preconditions. The source creates them separately, so they never alias.
- The root `main.py` is not part of this model. It imports a `state` module whose `add` returns a pair, which does not match koda/state.py.
- `main()`, `visualize_kink_points`, the plotting, sampling and test scripts, and koda/point_sampling.py are not part of this model. They are I/O, randomness and floating-point trigonometry.
