# PropPlacer placement core, modelled in Dafny

PropPlacer is a Unity 2D tool that scatters and paints props (prefab
instances) onto surfaces. This project models the logic that decides where
a prop may go and how it ends up, and proves properties of that model:

- **Boundary geometry** (module `Boundary`). The four corners of a box, the
  points of a collider shifted by an offset, and cyclic neighbour access.
  It also covers per-vertex offsetting of a vertex chain along averaged edge
  normals (`ExpandedBy` and the `Path` struct).
- **Arc-length interpolation** along a point chain (module `Perimeter`).
  This includes the `Lerp` extension, `MapLengthToMatchingEdgePoint` and the
  `Edge` struct. The interpolation is modelled twice: `Perimeter.Lerp`
  follows the code as written, and `Perimeter.LerpAsIntended` is the
  evidently intended version (see "Findings").
- **General helpers** (module `RuntimeExtensions`). These are the strict
  "between" test, picking an element at a drawn index, the component
  override `With`, clockwise versus counter-clockwise rotation, and filling
  an array with successive results of a function.
- **Placement rules of a prop**, in both revisions of the `Prop` component.
  They cover the static registry of live props, the same-prefab
  minimum-distance test, surface-normal acceptance and the rotation a prop
  takes.
  - `ScriptsProp.Prop` is the revision with the `_isSurfaceProp` switch.
  - `RuntimeProp.AlwaysSurfaceProp` is the revision without it: every prop is treated as a surface prop.
  - What the two share lives in `PropRules`; `Lists` holds the behaviour of
    `List<T>.Remove`.
- **Renaming rule** of the naming settings (module `Naming`). A name
  override, or a replace-all substitution, is followed by a prefix and a
  postfix. It all goes through one `StringBuilder` shared by every call.
- **Weighted prefab pick** and the weight sort of a prefab collection
  (module `PrefabCollection`).

## How the model is built

- Unity's `Vector2`/`Vector3` are datatypes over reals (`Vectors`). Floats are
  modelled as exact reals.
- The operations that need a square root or trigonometry are parameters:
  `magnitude` (`Norm`), `Vector2.SignedAngle` (`AngleMeasure`) and
  `Quaternion.Euler(0, 0, deg) * v` (`Rotation`).
  - A lemma assumes of them only what it needs: lengths are non-negative
    (`NonNegative`), or the length of a reversed vector is unchanged
    (`Symmetric`).
  - Rotations compose by adding angles, and a turn by zero does nothing
    (`IsRotationGroup`).
- `Vector2.Perpendicular`, `Vector2.Reflect`, `normalized` (with
  `Vector2.kEpsilon`), `Vector2.Lerp` (which clamps), `Mathf.Sign`
  (`Sign(0) = 1`) and `Mathf.Repeat`/`Mathf.PingPong` are written out.
- Random draws are parameters, with a precondition for the range they come
  from:
  - `RND.Next(0, n)` answers 0 when `n = 0`;
  - `Random.Range(-r, r)` may take its bounds in either order.
- C# semantics kept on purpose:
  - `%` truncates toward zero, so `t % 1` keeps the sign of `t`;
  - `List.Remove` removes the first equal element;
  - `float.Equals(object)` is false for a boxed `Vector2`;
  - `Array.FindIndex` answers -1 when nothing matches;
  - a division by a zero edge length gives plus or minus infinity, which
    `Vector2.Lerp` clamps, or no number at all for `0 / 0`.
- The exceptions the code can throw are part of each contract:
  - they are `Failure` values of a `Result` for an invalid collider type,
    `Last()` of an empty edge list, `ElementAt(-1)`, `RND.Next` with a
    negative total, `_prefabs[i]` out of range, and the `OverflowException`
    of `new T[count]` for a negative count;
  - `RuntimeExtensions.GetRandom` answers `None` of an `Option` for the
    empty collection, where `RND.Next(0, 0)` answers 0 and `ElementAt(0)`
    throws. It has only this one failure.
- Objects whose fields the code updates in place are classes:
  - the scene object with its `transform.up`;
  - the registry `PROP_OBJS`;
  - the shared `NAME_BUILDER`;
  - the renamable object;
  - the prefab collection asset;
  - the `Func<T>` seen through its successive calls.
- The loops of the code are methods with loop invariants. Each is proved
  against a specification function:
  - `GetPoints`, and `ExpandedBy` with its `Path` loop;
  - `Lerp` and `LerpAsIntended`, both over the edge loop `BuildEdges`;
  - `MapLengthToMatchingEdgePoint` and `ArrayFiledWithFunctionResults`;
  - the weighted pick `GetRandom`.

### What the code does where a placement tool might be expected to do otherwise

The model follows the code. A placement tool of this kind is commonly
described with rules the code does not have; each is stated here next to
what the code does instead.

- **Distance rule.** One might expect two rules: a minimum distance between
  props of the same category, and one between props of different
  categories, where either side's threshold keeps the two apart. The code
  has only the first. `HasDuplicateWithinMinDistance` compares the querying
  prop's own minimum distance against objects of the same prefab. It does
  not skip the querying prop itself.
- **Surface normals.** One might expect a threshold on the cosine between
  the normal and the prop's direction, where 0 degrees rejects every normal
  and 180 or more accepts any. The code instead requires the signed angle of
  the normal to lie strictly inside an open interval. When it does not, a
  mirrored test is always tried next.
- **Offsetting.** One might expect open chains to be offset as open, and a
  vertex whose edges run back on each other to be moved along an adjacent
  perpendicular. `ExpandedBy` always treats the chain as closed (cyclic
  neighbours) and has no such fallback. At a vertex whose neighbours
  coincide the normals cancel and the vertex is not moved
  (`Boundary.DoublingBackIsNotMoved`).
- **Rotation.** The point direction is jittered by a random offset, and its
  x component is flipped by the sign of the surface normal's x.
- **Registry.** One might expect an explicit registry object. The registry
  of live props is a plain static list. `OnDisable` removes the first
  occurrence of the object.

## Model

| member | source | states |
|---|---|---|
| Boundary.ToPoints | Scripts/Extensions.cs:24-33 | exactly four corners. The first is (-ex, -ey) and the third is (ex, ey). Neighbouring corners share one coordinate and opposite corners are negations of each other, so the box is centred on the origin |
| Boundary.ToPointsArea | Scripts/Extensions.cs:24-33 | the corners enclose the box's area. The doubled signed area is 8·ex·ey, counter-clockwise for positive extents. The result does not depend on the centre of the bounds |
| Boundary.GetPoints | Scripts/Extensions.cs:153-185 | fails exactly when the collider is not a polygon, edge or box collider. Otherwise the collider's points keep their number and order, and each is shifted by `add` when one is given |
| Boundary.NeighboursAreCyclic | Scripts/Extensions.cs:54-56 | the element before index i is element (i-1) mod n and the one after is (i+1) mod n. In particular the last element comes before index 0, and the first comes after index n-1 |
| Boundary.MakePath | Scripts/Extensions.cs:253-264 | the path keeps the three vertices it is built from |
| Boundary.OffsetPoints | Scripts/Extensions.cs:35-52 | the offset chain has as many points as the chain it comes from |
| Boundary.BuildPaths | Scripts/Extensions.cs:38-46 | a new array with one path per vertex, where path k is vertex k between its two cyclic neighbours, all taken from the original points |
| Boundary.ExpandedBy | Scripts/Extensions.cs:35-52 | as many outputs as inputs. Output i is the offset of original vertex i between its original cyclic neighbours: the paths read the original `points` (lines 41-43), while the offsets are written to the copy `pointList` made at line 37 (line 49), so no path sees an offset point |
| Boundary.OffsetIsLocal | Scripts/Extensions.cs:35-52 | output i depends only on the original points i-1, i and i+1 (cyclically). Two chains that agree there give the same output i |
| Boundary.OffsetByZero | Scripts/Extensions.cs:246-251 | an expansion of zero gives back the chain unchanged |
| Boundary.OffsetCommutesWithTranslation | Scripts/Extensions.cs:246-264 | translating the chain and then offsetting it equals offsetting it and then translating the result |
| Boundary.DoublingBackIsNotMoved | Scripts/Extensions.cs:246-264 | when a vertex's two neighbours coincide, its normals cancel and the vertex stays where it is, for any expansion |
| Boundary.NormalsCancel | Scripts/Extensions.cs:259-263 | the unit normal of an edge and the unit normal of the same edge walked back add up to zero |
| Boundary.TwoPointChainIsNotMoved | Scripts/Extensions.cs:35-52 | a two-point chain is left unchanged by any expansion |
| Perimeter.CumulativeLengths | Scripts/Extensions.cs:82-88 | one running sum per edge |
| Perimeter.FindIndexAtLeast | Scripts/Extensions.cs:90 | the index answered is -1 or a valid one. Its entry reaches the target, and every entry before it (every entry, when -1) falls short |
| Perimeter.MapLengthToMatchingEdgePoint | Scripts/Extensions.cs:78-97 | the accumulating loop stores, at each index, the sum of the edge lengths up to and including that edge. The result is the point on the first edge whose running sum reaches the target, or the failure when no edge does |
| Perimeter.SumLengthsPrefixMonotone | Scripts/Extensions.cs:84-88 | with non-negative lengths, a longer prefix never sums to less |
| Perimeter.CumulativeLengthsNonDecreasing | Scripts/Extensions.cs:81-88 | the running sums never decrease, and the last one is the total edge length |
| Perimeter.CumulativeStep | Scripts/Extensions.cs:84-88 | each running sum is the previous one plus its own edge's length |
| Perimeter.ChosenEdgeBracketsTarget | Scripts/Extensions.cs:90-94 | for a target in [0, total] an edge is found, and the target lies between that edge's start and end sums. On an edge of positive length the in-edge parameter lies in [0, 1] |
| Perimeter.NonPositiveTargetGivesFirstPoint | Scripts/Extensions.cs:90-96 | a target at or below zero gives the start of the first edge, when that edge has positive length |
| Perimeter.PointLiesOnAnEdge | Scripts/Extensions.cs:90-96 | every point the lookup returns is edge k interpolated at some s in [0, 1] |
| Perimeter.ClosedEdges | Scripts/Extensions.cs:63-65 | one edge per point |
| Perimeter.BuildEdges | Scripts/Extensions.cs:63-65 | the loop builds one edge from each point to the point after it, the last edge closing the chain |
| Perimeter.OpenEdges | Scripts/Extensions.cs:67-68 | an open chain of n points has n-1 edges: the closed chain without its closing edge |
| Perimeter.EdgesRunAlongTheChain | Scripts/Extensions.cs:63-68 | n edges when closed and n-1 when open. Edge i runs from point i to point (i+1) mod n, with the magnitude of their difference as its length |
| Perimeter.EdgeLengthsNonNegative | Scripts/Extensions.cs:198-204 | edge lengths are non-negative when magnitudes are |
| Perimeter.OpenEdgesAsWrittenSameMultiset | Scripts/Extensions.cs:67-68 | `edges.Remove(edges.Last())` keeps the same edges with the same multiplicities as dropping the last edge; only which of two equal edges goes can differ |
| Perimeter.OpenEdgesAsWrittenAgrees | Scripts/Extensions.cs:67-68 | when no earlier edge equals the closing one, the written removal drops exactly the closing edge |
| Perimeter.RemoveTakesTheWrongEdge | Scripts/Extensions.cs:67-68 | on the chain (0,0),(1,0),(0,0),(1,0), open and cyclic at t = 0.4, the written code gives (0.2, 0) where the intended chain gives (0.8, 0) |
| Perimeter.RemainderAsWritten | Scripts/Extensions.cs:60 | C#'s `t % 1` lies strictly between -1 and 1 and keeps the sign of t |
| Perimeter.WrapAsWritten | Scripts/Extensions.cs:60-71 | the written wrap of t lies strictly between -1 and 1 |
| Perimeter.Wrap | Scripts/Extensions.cs:60-71 | the intended wrap is a fraction of the chain in [0, 1] |
| Perimeter.WrapProperties | Scripts/Extensions.cs:60-71 | `Cyclic` stays below 1 and ignores whole turns. `PingPong` repeats every 2 turns and is symmetric in t. Values in [0, 1) are left alone, `PingPong` maps 1 to 1, and wrapping twice is wrapping once |
| Perimeter.WrapAsWrittenAgreesOnNonNegative | Scripts/Extensions.cs:60 | for t >= 0 the written `Cyclic` wrap is the intended one |
| Perimeter.NonPositiveFractionGivesFirstPoint | Scripts/Extensions.cs:73-75 | a fraction at or below zero gives the start of the first edge, when that edge has positive length |
| Perimeter.FractionLiesOnAnEdge | Scripts/Extensions.cs:73-75 | the point found for a fraction lies on one of the edges |
| Perimeter.FractionFindsAnEdge | Scripts/Extensions.cs:73-75 | a fraction in [0, 1] of a chain with at least one edge never fails for lack of a matching edge |
| Perimeter.OpenEdgesAsWritten | Scripts/Extensions.cs:67-68 | `edges.Remove(edges.Last())` on a non-empty chain leaves one edge fewer than there are points |
| Perimeter.EdgesAsWritten | Scripts/Extensions.cs:63-68 | the written edge list has n-1 edges for an open chain of n points and n for a closed one |
| Perimeter.LerpAsWritten | Scripts/Extensions.cs:58-76 | the written interpolation fails for every empty chain: an empty open chain throws at `Last()`, and an empty closed chain has no edge to match |
| Perimeter.Lerp | Scripts/Extensions.cs:58-76 | the steps of the code as written: the truncating `t %= 1`, the edge loop, `Remove` of the first edge equal to the last one for an open chain (throwing on an empty one), the `PingPong` negation and the lookup of the target length. The result is `LerpAsWritten` |
| Perimeter.LerpAsIntended | Scripts/Extensions.cs:58-76 | the corrected interpolation of Findings 1-3: the same edge loop, the closing edge itself dropped from an open chain, t wrapped by `Mathf.Repeat` or `Mathf.PingPong`. The result is `LerpOf`, about which the next five rows are proved |
| Perimeter.LerpAtZero | Scripts/Extensions.cs:58-76 | for the intended interpolation, at t = 0 the result is the first point, when the first edge has positive length |
| Perimeter.LerpIgnoresWholeTurns | Scripts/Extensions.cs:60 | for the intended interpolation, t and its wrapped value give the same point. So do t and t+1 (`Cyclic`) and t and t+2 (`PingPong`) |
| Perimeter.PingPongAgreesWithinOneTurn | Scripts/Extensions.cs:70-71 | for the intended interpolation and t in [0, 1), both overshoot modes give the same point |
| Perimeter.LerpLiesOnTheChain | Scripts/Extensions.cs:58-76 | every point the intended interpolation returns lies on one of the chain's edges |
| Perimeter.LerpFindsAnEdge | Scripts/Extensions.cs:58-76 | on a chain with at least one edge, the intended interpolation neither runs out of edges nor meets an empty chain |
| Perimeter.PingPongAsWrittenCollapses | Scripts/Extensions.cs:70-71 | as written, `PingPong` returns the first point for every t |
| Perimeter.NegativeCyclicAsWrittenCollapses | Scripts/Extensions.cs:60 | as written, `Cyclic` returns the first point for every negative t |
| Perimeter.AsWrittenNonPositiveFraction | Scripts/Extensions.cs:58-76 | on the written edge list, any fraction at or below zero gives the first point |
| Perimeter.AsWrittenFirstEdge | Scripts/Extensions.cs:63-68 | when the first two points differ, the written edge list keeps the first edge |
| Perimeter.AsWrittenLengthsNonNegative | Scripts/Extensions.cs:63-68 | the written edge list has non-negative lengths when magnitudes are non-negative |
| RuntimeExtensions.CompareTo | Runtime/Extensions.cs:13 | -1, 0 or 1 exactly when the first value is smaller, equal or larger |
| RuntimeExtensions.IsBetweenBothExclusive | Runtime/Extensions.cs:13 | true iff a < v < b or b < v < a, hence symmetric in a and b. It is false whenever v = a, v = b or a = b |
| RuntimeExtensions.GetRandom | Runtime/Extensions.cs:15 | some element exactly when the collection is non-empty; it is the element at the drawn index and belongs to the collection. The empty collection throws |
| RuntimeExtensions.With | Runtime/Extensions.cs:19-26 | each component passed is replaced and each one not passed is kept. With no arguments the vector is unchanged |
| RuntimeExtensions.ClockwiseUndoesCounterClockwise | Runtime/Extensions.cs:28-30 | turning clockwise by d undoes turning counter-clockwise by d, and the other way round |
| RuntimeExtensions.ClockwiseByZero | Runtime/Extensions.cs:28-30 | turning clockwise by zero degrees changes nothing |
| RuntimeExtensions.CallSequence.Invoke | Runtime/Extensions.cs:40 | each call answers the next outcome and counts one more call |
| RuntimeExtensions.ArrayFiledWithFunctionResults | Runtime/Extensions.cs:36-43 | fails exactly when `count` is negative (the `OverflowException` of `new T[count]`), before any call. Otherwise a new array of length `count` whose element i is the result of the (i+1)-th call, the function being called exactly `count` times |
| Lists.IndexOf | Scripts/Prop.cs:55 | the position of the first occurrence, or the length when there is none. No earlier element is equal |
| Lists.RemoveFirstPresent | Scripts/Prop.cs:55 | removing a present element shortens the list by one and removes exactly one copy of it. What remains keeps its order |
| Lists.RemoveFirstAbsent | Scripts/Prop.cs:55 | removing an absent element changes nothing |
| Lists.AddThenRemove | Scripts/Prop.cs:54-55 | adding an element that is not yet registered and then removing it restores the list |
| PropRules.PropRegistry.Add | Scripts/Prop.cs:54 | the object is appended and no other entry changes |
| PropRules.PropRegistry.Remove | Scripts/Prop.cs:55 | the first occurrence of the object is removed and no other entry changes |
| PropRules.Nearby | Scripts/Prop.cs:116-120 | keeps exactly the objects strictly closer than the minimum distance: each kept object is registered and near, and each near object is kept |
| PropRules.AnyOfSamePrefab | Scripts/Prop.cs:122 | true iff some object has the same prefab |
| PropRules.DuplicateWithin | Scripts/Prop.cs:114-123 | true iff some registered object has the owner's prefab and a squared distance strictly below the squared minimum distance |
| PropRules.SelfIsNear | Scripts/Prop.cs:118-119 | a point is near itself for any non-zero minimum distance |
| PropRules.OwnObjectIsNear | Scripts/Prop.cs:116-122 | a registered owner counts as its own duplicate at its own position: the query does not skip it |
| PropRules.NormalAccepted | Scripts/Prop.cs:93-107 | the normal is accepted iff the direct test or the mirrored test passes. The mirrored test measures the normal against `Vector2.left`, with bounds from the point direction reflected in the horizontal axis. A range of zero accepts no normal, and negating the range changes nothing |
| PropRules.RangeFacts | Scripts/Prop.cs:95-106 | with a range of zero neither strict test passes, and negating the range does not change either test |
| PropRules.SignAdjusted | Scripts/Prop.cs:127-129 | x is negated exactly when a normal with negative x is given (`Mathf.Sign(0) = 1`), and y is kept |
| ScriptsProp.Prop.RangeTestsFollowTheSwitch | Scripts/Prop.cs:24-25 | `HasSurfaceNormalRange` and `HasPointDirectionRange` both equal `IsSurfaceProp`, whatever the ranges |
| ScriptsProp.Prop.OnEnable | Scripts/Prop.cs:54 | the prop's object is appended to the registry |
| ScriptsProp.Prop.OnDisable | Scripts/Prop.cs:55 | the first occurrence of the prop's object leaves the registry |
| ScriptsProp.Prop.PlacedOnNormalExactly | Scripts/Prop.cs:87-112 | `CanBePlacedOnNormal` is true iff the prop is a surface prop and the direct or the mirrored test passes. A prop that is not a surface prop is never placed |
| ScriptsProp.Prop.ZeroRangeAcceptsNoNormal | Scripts/Prop.cs:91-106 | a surface-normal range of zero accepts no normal |
| ScriptsProp.Prop.DuplicateIsANearSamePrefabObject | Scripts/Prop.cs:114-123 | `HasDuplicateWithinMinDistance` is true iff a registered object of the same prefab lies at a squared distance strictly below the prop's own minimum distance squared. A distance exactly equal to the minimum is allowed |
| ScriptsProp.Prop.OwnPositionIsADuplicate | Scripts/Prop.cs:114-123 | a registered prop asked about its own position finds itself, for a non-zero minimum distance |
| ScriptsProp.Prop.NoSwitchKeepsPointDirection | Scripts/Prop.cs:134-143 | under `GetValidPointDirection`, a prop that is not a surface prop keeps its point direction |
| ScriptsProp.Prop.OffsetIsAllThatIsApplied | Scripts/Prop.cs:136-140 | for a surface prop, turning the result back counter-clockwise by the drawn offset gives the point direction |
| ScriptsProp.Prop.ZeroRangeKeepsPointDirection | Scripts/Prop.cs:136-140 | with a zero range the point direction is kept |
| ScriptsProp.Prop.Rotate | Scripts/Prop.cs:125-132 | the new `up` is the valid point direction with x negated exactly when a normal with negative x is given. The position is unchanged |
| RuntimeProp.AlwaysSurfaceProp.RangeTestsAlwaysHold | Runtime/Prop.cs:19-20 | `HasSurfaceNormalRange` and `HasPointDirectionRange` both hold for every range, so the early rejection in `CanBePlacedOnNormal` never fires |
| RuntimeProp.AlwaysSurfaceProp.OnEnable | Runtime/Prop.cs:49 | the prop's object is appended to the registry |
| RuntimeProp.AlwaysSurfaceProp.OnDisable | Runtime/Prop.cs:50 | the first occurrence of the prop's object leaves the registry |
| RuntimeProp.AlwaysSurfaceProp.AcceptedByEitherTest | Runtime/Prop.cs:82-106 | `CanBePlacedOnNormal` is true iff the direct test or the mirrored test passes |
| RuntimeProp.AlwaysSurfaceProp.NoNormalFitsZeroRange | Runtime/Prop.cs:84-101 | a surface-normal range of zero accepts no normal |
| RuntimeProp.AlwaysSurfaceProp.DuplicateMeansNearSamePrefab | Runtime/Prop.cs:108-117 | `HasDuplicateWithinMinDistance` is true iff a registered object of the same prefab lies at a squared distance strictly below the prop's own minimum distance squared |
| RuntimeProp.AlwaysSurfaceProp.FindsItselfWhenRegistered | Runtime/Prop.cs:108-117 | a registered prop asked about its own position finds itself, for a non-zero minimum distance |
| RuntimeProp.AlwaysSurfaceProp.AlwaysTurnedByOffset | Runtime/Prop.cs:128-137 | `GetValidPointDirection` is always the point direction turned clockwise by the drawn offset |
| RuntimeProp.AlwaysSurfaceProp.OnlyTheOffsetTurns | Runtime/Prop.cs:130-134 | turning the result back counter-clockwise by the drawn offset gives the point direction |
| RuntimeProp.AlwaysSurfaceProp.NoOffsetWithoutRange | Runtime/Prop.cs:130-134 | with a zero range the point direction is kept |
| RuntimeProp.AlwaysSurfaceProp.Rotate | Runtime/Prop.cs:119-126 | the new `up` is the rotated point direction with x negated exactly when a normal with negative x is given, and y kept. The position is unchanged |
| Naming.AbsentPatternIsKept | Editor/NamingSettings.cs:35-38 | a name in which the substitution input does not occur is left as it is |
| Naming.SelfReplacementIsKept | Editor/NamingSettings.cs:37 | replacing a pattern by itself changes nothing |
| Naming.PatternAloneIsReplaced | Editor/NamingSettings.cs:37 | a name that is the pattern alone becomes the replacement alone |
| Naming.NameBuilder.Append | Editor/NamingSettings.cs:28 | the text is added at the end |
| Naming.NameBuilder.Clear | Editor/NamingSettings.cs:32 | the builder becomes empty |
| Naming.NameBuilder.Replace | Editor/NamingSettings.cs:37 | every occurrence, found left to right without overlap, is replaced |
| Naming.NameBuilder.InsertAtStart | Editor/NamingSettings.cs:40 | the text is added at the front |
| Naming.NamingData.NewName | Editor/NamingSettings.cs:30-42 | the new name starts with the prefix and ends with the postfix, and is at least as long as both together |
| Naming.NamingData.ApplyToObject | Editor/NamingSettings.cs:26-45 | the new name is the rewrite of the builder's leftover text followed by the old name. When the builder comes in empty it is the rewrite of the old name. The builder is left empty, so "empty on entry" is kept from call to call |
| Naming.NamingData.OverrideDiscardsName | Editor/NamingSettings.cs:30-34 | with an override, every name becomes prefix + override + postfix: the old name is discarded and no substitution happens |
| Naming.NamingData.SubstitutionTouchesOnlyTheName | Editor/NamingSettings.cs:35-40 | without an override and with a substitution input, the new name is prefix + (name with the input replaced) + postfix, so the prefix and postfix are never substituted |
| Naming.NamingData.AbsentInputOnlyFrames | Editor/NamingSettings.cs:35-42 | without an override, a name that does not contain the substitution input is only framed by prefix and postfix |
| Naming.NamingData.IdentitySubstitutionOnlyFrames | Editor/NamingSettings.cs:35-42 | substituting the input by itself only frames the name |
| Naming.NamingData.AllEmptyKeepsName | Editor/NamingSettings.cs:28-42 | with every field empty the name is unchanged |
| PrefabCollection.WeightedIndex | Scripts/Editor/PrefabCollection.cs:21-27 | the loop stops at a position of the weights or one past the last |
| PrefabCollection.Pick | Scripts/Editor/PrefabCollection.cs:16-30 | a picked prefab is one of the prefabs. A negative total, and only that, makes the draw throw |
| PrefabCollection.WeightedIndexBracket | Scripts/Editor/PrefabCollection.cs:21-27 | for a non-negative draw r, the weights before the index found sum to at most r, and when the index is a position the weights up to it sum to more than r |
| PrefabCollection.InRangeValueFindsAWeight | Scripts/Editor/PrefabCollection.cs:18-27 | a draw in [0, total) from non-negative weights stops the loop at a valid position |
| PrefabCollection.PickedBracket | Scripts/Editor/PrefabCollection.cs:18-29 | for r in [0, total) and non-negative weights, the index i satisfies sum(weights[..i]) <= r < sum(weights[..i+1]) |
| PrefabCollection.ZeroWeightNeverPicked | Scripts/Editor/PrefabCollection.cs:23 | a position of weight zero is never picked |
| PrefabCollection.PositiveTotalPicksAWeightedPrefab | Scripts/Editor/PrefabCollection.cs:18-29 | with a positive total and enough prefabs, the pick is the prefab at a position of positive weight whose bracket holds the draw |
| PrefabCollection.AllZeroRunsOff | Scripts/Editor/PrefabCollection.cs:21-27 | with every weight zero the loop never breaks and ends one past the last weight |
| PrefabCollection.AllZeroNeedsAnExtraPrefab | Scripts/Editor/PrefabCollection.cs:18-29 | with every weight zero the pick fails exactly when there are no more prefabs than weights |
| PrefabCollection.PrefabCollection.GetRandom | Scripts/Editor/PrefabCollection.cs:16-30 | the loop keeps the remaining value equal to the draw less the weights passed, and never negative. It returns the outcome of the pick, throwing for a negative total or an index past the prefabs |
| PrefabCollection.Insert | Scripts/Editor/PrefabCollection.cs:36 | the element is added to the multiset of the list |
| PrefabCollection.InsertKeepsSorted | Scripts/Editor/PrefabCollection.cs:36 | inserting into an ascending list keeps it ascending |
| PrefabCollection.SortedWeights | Scripts/Editor/PrefabCollection.cs:36 | the result is ascending and a permutation of the weights |
| PrefabCollection.SortingSortedKeepsIt | Scripts/Editor/PrefabCollection.cs:36 | sorting weights that are already ascending changes nothing |
| PrefabCollection.SortKeepsTotal | Scripts/Editor/PrefabCollection.cs:36 | sorting keeps the total, so the range of the draw does not change |
| PrefabCollection.PrefabCollection.OnValidate | Scripts/Editor/PrefabCollection.cs:34-37 | the weights become their ascending permutation and the prefabs are not reordered |
| PrefabCollection.SortDetachesWeightsFromPrefabs | Scripts/Editor/PrefabCollection.cs:34-37 | weights 5, 1 become 1, 5, so the first prefab's weight changes from 5 to 1: sorting the weights alone pairs them with other prefabs |

## Left out

- `ToPerimeter` (Scripts/Extensions.cs:99-110): a physics raycast that toggles a global `Physics2D` setting.
- `GetRandomDirection` and `RandomVector2Range`: thin wrappers over Unity's random source, which is not modelled.
- The duplicate helpers in Scripts/Extensions.cs:112-150 (`IsBetweenBothExclusive`, `GetRandom`, `With`, the rotations, `CreateArrayFiledWithFunctionResults`, `IsOfSamePrefabAs`) are the same code as Runtime/Extensions.cs. They are modelled once, in `RuntimeExtensions` and `PropRules`.
- `IsOfSamePrefabAs`: `PrefabUtility.GetCorrespondingObjectFromSource` is modelled by an abstract prefab identity (`PrefabSource`), not by the editor's asset database.
- Gizmo and debug drawing, `Face`, `Tilt`, `Reposition`, `Spawn` and the `OnSpawn`/`OnRotate`/`OnReposition` events: transform side effects and broadcasts, outside the placement rules.
- `Edge`/`Path` `GetHashCode`, `Deconstruct` and the tuple conversions: these are conveniences. `Edge.Line` is not kept, because `Equals` ignores it.
- Floats are exact reals. Rounding, NaN propagation and integer overflow of float-to-int conversions are not modelled.
- `magnitude`, `Vector2.SignedAngle` and quaternion rotation are parameters. Nothing is proved about cone geometry or trigonometry.
- The editor windows, the scatter and brush settings assets and the interface declarations: UI, scene input and plain data.
- Null strings of the naming settings are the empty string, which is how `StringBuilder` and `string.IsNullOrEmpty` treat them.
- `StringBuilder.Replace` with an empty pattern throws in .NET. The code never calls it that way, so `Naming.ReplaceAll` requires a non-empty pattern.
- PrefabCollection.PrefabCollection.GetRandom: does not model the `OverflowException` that `_chances.Sum()` throws when the total exceeds 32 bits, because integers here are unbounded.
- PrefabCollection.PrefabCollection.OnValidate: `List.Sort` is modelled by its result (the ascending permutation), not by its in-place introsort.
- Perimeter.Wrap: the intended `PingPong` is taken to be `Mathf.PingPong(t, 1)`, since the written negation has no other evident meaning.
- `HasSurfaceNormalRange` and `HasPointDirectionRange` compare a float with a boxed `Vector2`, so the range value never matters. This is modelled as written and not reported as a finding.
  - For the point direction the outcome is the same either way: a zero range draws a zero offset.
  - For the surface normal in Scripts/Prop.cs, a zero range makes the written code reject every normal (`ScriptsProp.Prop.ZeroRangeAcceptsNoNormal`). A working comparison at lines 89-91 would skip the test and accept every normal. Which of the two was meant is not evident.
  - For the surface normal in Runtime/Prop.cs, a working comparison at line 84 would return false for a zero range, which is what the written code ends with too (`RuntimeProp.AlwaysSurfaceProp.NoNormalFitsZeroRange`).
- ScriptsProp.Prop.Rotate and RuntimeProp.AlwaysSurfaceProp.Rotate: the new `transform.up` is stored as given. Unity's setter stores a rotation instead, so reading `up` back gives the normalized vector; unit length is not modelled, because `normalized` needs a square root.
- Loops over `IEnumerable` (`ElementAt` inside a loop) are modelled by their results. Their quadratic cost is not.

## Findings

| source | as written | input that shows it | evidently intended | confidence | as-written member | corrected member |
|---|---|---|---|---|---|---|
| Scripts/Extensions.cs:67-68 | `edges.Remove(edges.Last())` removes the first edge equal to the closing edge, which may be an earlier edge | points (0,0),(1,0),(0,0),(1,0), `OpenEnded`, `Cyclic`, t = 0.4: the result is (0.2, 0) | drop the closing edge, giving (0.8, 0) | not executed | Perimeter.RemoveTakesTheWrongEdge | Perimeter.OpenEdges |
| Scripts/Extensions.cs:70-71 | `t *= t % 1 > 0 ? -1 : 1` makes every positive remainder negative, so the target length is never positive and every t gives the first point | any chain whose first two points differ and whose first edge has positive length, `PingPong`, t = 0.5: the result is the first point | bounce t between 0 and 1 (`Mathf.PingPong`), so t = 0.5 is half way along; the properties are proved in Perimeter.WrapProperties | not executed | Perimeter.PingPongAsWrittenCollapses | Perimeter.Wrap |
| Scripts/Extensions.cs:60 | `t %= 1` truncates toward zero, so a negative t stays negative and gives the first point | any chain whose first two points differ and whose first edge has positive length, `Cyclic`, t = -0.25: the result is the first point | wrap into [0, 1) (`Mathf.Repeat`), so t = -0.25 counts as 0.75; proved in Perimeter.LerpIgnoresWholeTurns | not executed | Perimeter.NegativeCyclicAsWrittenCollapses | Perimeter.Wrap |
