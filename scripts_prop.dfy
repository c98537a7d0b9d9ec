/** The `Prop` component in the revision with a `_isSurfaceProp` switch. */
module ScriptsProp {
  import opened Vectors
  import opened Wrappers
  import Lists
  import RuntimeExtensions
  import opened PropRules

  class Prop {
    const minDistanceToSameProp: real
    const isSurfaceProp: bool
    const surfaceNormalRange: real
    const pointDirectionRange: real
    /** The object this component is attached to. */
    const gameObject: GameObject
    /** The static `PROP_OBJS`, shared by every prop. */
    const registry: PropRegistry

    constructor (minDistanceToSameProp: real, isSurfaceProp: bool, surfaceNormalRange: real,
                 pointDirectionRange: real, gameObject: GameObject, registry: PropRegistry)
      ensures this.minDistanceToSameProp == minDistanceToSameProp && this.isSurfaceProp == isSurfaceProp
      ensures this.surfaceNormalRange == surfaceNormalRange && this.pointDirectionRange == pointDirectionRange
      ensures this.gameObject == gameObject && this.registry == registry
    {
      this.minDistanceToSameProp := minDistanceToSameProp;
      this.isSurfaceProp := isSurfaceProp;
      this.surfaceNormalRange := surfaceNormalRange;
      this.pointDirectionRange := pointDirectionRange;
      this.gameObject := gameObject;
      this.registry := registry;
    }

    /** `HasSurfaceNormalRange`: the switch, and the range compared with a
        boxed `Vector2.zero`. */
    predicate HasSurfaceNormalRange()
    {
      isSurfaceProp && !FloatEquals(surfaceNormalRange, BoxedVector2(Zero))
    }

    /** `HasPointDirectionRange`: the same for the point-direction range. */
    predicate HasPointDirectionRange()
    {
      isSurfaceProp && !FloatEquals(pointDirectionRange, BoxedVector2(Zero))
    }

    /** A float never equals a boxed `Vector2`, so both range tests come down
        to the switch, whatever the ranges are. */
    lemma RangeTestsFollowTheSwitch()
      ensures HasSurfaceNormalRange() == isSurfaceProp
      ensures HasPointDirectionRange() == isSurfaceProp
    {
    }

    /** `OnEnable`: the object joins the registry at the end. */
    method OnEnable()
      modifies registry
      ensures registry.objects == old(registry.objects) + [gameObject]
    {
      registry.Add(gameObject);
    }

    /** `OnDisable`: the first occurrence of the object leaves the registry. */
    method OnDisable()
      modifies registry
      ensures registry.objects == Lists.RemoveFirst(old(registry.objects), gameObject)
    {
      registry.Remove(gameObject);
    }

    /** `CanBePlacedOnNormal`: the normal measured against the bounds the
        prop's point direction and range give. */
    predicate CanBePlacedOnNormal(angle: AngleMeasure, rotate: Rotation, surfaceNormal: Vec2)
      reads gameObject
    {
      if !isSurfaceProp then false
      else !HasSurfaceNormalRange() || NormalAccepted(angle, rotate, gameObject.up, surfaceNormalRange, surfaceNormal)
    }

    /** A prop that is no surface prop is never placed; otherwise the normal
        is accepted by the direct test or, failing that, by the mirrored one. */
    lemma PlacedOnNormalExactly(angle: AngleMeasure, rotate: Rotation, surfaceNormal: Vec2)
      ensures CanBePlacedOnNormal(angle, rotate, surfaceNormal) <==> (isSurfaceProp
        && (DirectTest(angle, rotate, gameObject.up, surfaceNormalRange, surfaceNormal)
            || MirroredTest(angle, rotate, gameObject.up, surfaceNormalRange, surfaceNormal)))
    {
    }

    /** A surface-normal range of zero accepts no normal at all. */
    lemma ZeroRangeAcceptsNoNormal(angle: AngleMeasure, rotate: Rotation, surfaceNormal: Vec2)
      requires surfaceNormalRange == 0.0
      ensures !CanBePlacedOnNormal(angle, rotate, surfaceNormal)
    {
      RangeFacts(angle, rotate, gameObject.up, 0.0, surfaceNormal);
    }

    /** `HasDuplicateWithinMinDistance(point)`: the registry searched with
        this prop's object and its own minimum distance. */
    predicate HasDuplicateWithinMinDistance(point: Vec2)
      reads registry, registry.objects
    {
      DuplicateWithin(registry.objects, gameObject, point, minDistanceToSameProp)
    }

    /** A duplicate is some registered object of the same prefab strictly
        closer to the point than this prop's own minimum distance. The prop's
        own object is not skipped. */
    lemma DuplicateIsANearSamePrefabObject(point: Vec2)
      ensures HasDuplicateWithinMinDistance(point) <==> exists i :: (0 <= i < |registry.objects|
        && registry.objects[i].prefab == gameObject.prefab
        && SqrMagnitude(Sub(registry.objects[i].position, point)) < minDistanceToSameProp * minDistanceToSameProp)
    {
    }

    /** A registered prop asked about its own position finds itself, unless
        its minimum distance is zero. */
    lemma OwnPositionIsADuplicate()
      requires gameObject in registry.objects
      requires minDistanceToSameProp != 0.0
      ensures HasDuplicateWithinMinDistance(gameObject.position)
    {
      OwnObjectIsNear(registry.objects, gameObject, minDistanceToSameProp);
    }

    /** `GetValidPointDirection`: with a point-direction range, the point
        direction turned clockwise by the drawn offset, otherwise the point
        direction itself. `randomRotationOffset` is the value
        `Random.Range(-range, range)` draws. */
    function GetValidPointDirection(rotate: Rotation, randomRotationOffset: real): Vec2
      reads gameObject
      requires HasPointDirectionRange() ==> InRange(randomRotationOffset, pointDirectionRange)
    {
      ValidPointDirection(HasPointDirectionRange(), rotate, gameObject.up, randomRotationOffset)
    }

    /** A prop that is no surface prop keeps its point direction. */
    lemma NoSwitchKeepsPointDirection(rotate: Rotation, randomRotationOffset: real)
      requires !isSurfaceProp
      ensures GetValidPointDirection(rotate, randomRotationOffset) == gameObject.up
    {
    }

    /** For a surface prop, turning the result back counter-clockwise by the
        offset gives the point direction: the offset is all that was applied. */
    lemma OffsetIsAllThatIsApplied(rotate: Rotation, randomRotationOffset: real)
      requires RuntimeExtensions.IsRotationGroup(rotate)
      requires HasPointDirectionRange() ==> InRange(randomRotationOffset, pointDirectionRange)
      requires isSurfaceProp
      ensures RuntimeExtensions.RotatedCounterClockwise(rotate, GetValidPointDirection(rotate, randomRotationOffset), randomRotationOffset)
           == gameObject.up
    {
      RangeTestsFollowTheSwitch();
      assert GetValidPointDirection(rotate, randomRotationOffset)
          == RuntimeExtensions.RotatedClockwise(rotate, gameObject.up, randomRotationOffset);
      RuntimeExtensions.ClockwiseUndoesCounterClockwise(rotate, gameObject.up, randomRotationOffset);
    }

    /** With a zero range the only offset is zero, and the point direction is kept. */
    lemma ZeroRangeKeepsPointDirection(rotate: Rotation, randomRotationOffset: real)
      requires RuntimeExtensions.IsRotationGroup(rotate)
      requires pointDirectionRange == 0.0
      requires HasPointDirectionRange() ==> InRange(randomRotationOffset, pointDirectionRange)
      ensures GetValidPointDirection(rotate, randomRotationOffset) == gameObject.up
    {
      RuntimeExtensions.ClockwiseByZero(rotate, gameObject.up);
    }

    /** `Rotate(surfaceNormal)`: the new `transform.up` is the valid point
        direction with its x negated exactly when a normal with negative x is
        given. The position does not change. */
    method Rotate(rotate: Rotation, randomRotationOffset: real, surfaceNormal: Option<Vec2>)
      modifies gameObject
      requires HasPointDirectionRange() ==> InRange(randomRotationOffset, pointDirectionRange)
      ensures gameObject.up == SignAdjusted(old(GetValidPointDirection(rotate, randomRotationOffset)), surfaceNormal)
      ensures gameObject.position == old(gameObject.position)
    {
      var newRotation := GetValidPointDirection(rotate, randomRotationOffset);
      if surfaceNormal.Some? {
        newRotation := newRotation.(x := newRotation.x * Sign(surfaceNormal.value.x));
      }
      gameObject.up := newRotation;
    }
  }
}
