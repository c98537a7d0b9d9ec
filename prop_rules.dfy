/** What both revisions of `Prop` share: scene objects and their prefab
    identity, the static registry of live props, the registry query and the
    two surface-normal tests. */
module PropRules {
  import opened Vectors
  import opened Wrappers
  import Lists
  import RuntimeExtensions

  /** What `PrefabUtility.GetCorrespondingObjectFromSource` returns: null for
      an object that is no prefab instance, otherwise the prefab asset.
      `IsOfSamePrefabAs` compares these by reference, so two objects that are
      no prefab instances count as the same prefab. */
  datatype PrefabSource = NotAPrefabInstance | PrefabAsset(asset: nat)

  /** A scene object: where its prefab comes from, its position (as the
      `Vector2` the code reads) and its `transform.up`. */
  class GameObject {
    const prefab: PrefabSource
    var position: Vec2
    var up: Vec2

    constructor (prefab: PrefabSource, position: Vec2, up: Vec2)
      ensures this.prefab == prefab && this.position == position && this.up == up
    {
      this.prefab := prefab;
      this.position := position;
      this.up := up;
    }
  }

  /** `a.IsOfSamePrefabAs(b)`: the two prefab sources are the same reference. */
  predicate IsOfSamePrefabAs(a: GameObject, b: GameObject)
  {
    a.prefab == b.prefab
  }

  /** The static `PROP_OBJS` list: every prop adds its object when enabled
      and removes it when disabled. */
  class PropRegistry {
    var objects: seq<GameObject>

    constructor ()
      ensures objects == []
    {
      objects := [];
    }

    /** `PROP_OBJS.Add(obj)`. */
    method Add(obj: GameObject)
      modifies this
      ensures objects == old(objects) + [obj]
    {
      objects := objects + [obj];
    }

    /** `PROP_OBJS.Remove(obj)`: the first occurrence goes, if there is one. */
    method Remove(obj: GameObject)
      modifies this
      ensures objects == Lists.RemoveFirst(old(objects), obj)
    {
      objects := Lists.RemoveFirst(objects, obj);
    }
  }

  /** The `Where` filter: the object's squared distance to the point is
      strictly below the squared minimum distance. */
  predicate IsNear(position: Vec2, point: Vec2, minDistance: real)
  {
    SqrMagnitude(Sub(position, point)) < minDistance * minDistance
  }

  /** `objects.Where(obj => IsNear(obj.position, point, minDistance))`: the
      near objects, in their order. */
  function Nearby(objects: seq<GameObject>, point: Vec2, minDistance: real): (r: seq<GameObject>)
    reads objects
    ensures |r| <= |objects|
    ensures forall o :: o in r ==> o in objects && IsNear(o.position, point, minDistance)
    ensures forall i :: 0 <= i < |objects| && IsNear(objects[i].position, point, minDistance) ==> objects[i] in r
  {
    if |objects| == 0 then []
    else
      var rest := Nearby(objects[1..], point, minDistance);
      if IsNear(objects[0].position, point, minDistance) then [objects[0]] + rest else rest
  }

  /** `objects.Any(obj => obj.IsOfSamePrefabAs(target))`. */
  function AnyOfSamePrefab(objects: seq<GameObject>, target: GameObject): (r: bool)
    ensures r <==> exists i :: 0 <= i < |objects| && IsOfSamePrefabAs(objects[i], target)
  {
    if |objects| == 0 then false
    else IsOfSamePrefabAs(objects[0], target) || AnyOfSamePrefab(objects[1..], target)
  }

  /** The registry query of `HasDuplicateWithinMinDistance`: some registered
      object of the owner's prefab is strictly closer than the minimum
      distance. The owner's own object is not skipped. */
  function DuplicateWithin(objects: seq<GameObject>, owner: GameObject, point: Vec2, minDistance: real): (r: bool)
    reads objects
    ensures r <==> exists i :: 0 <= i < |objects| && IsOfSamePrefabAs(objects[i], owner)
                                && IsNear(objects[i].position, point, minDistance)
  {
    var nearbyProps := Nearby(objects, point, minDistance);
    var r := AnyOfSamePrefab(nearbyProps, owner);
    assert r ==> exists i :: 0 <= i < |objects| && IsOfSamePrefabAs(objects[i], owner)
                             && IsNear(objects[i].position, point, minDistance) by {
      if r {
        var j :| 0 <= j < |nearbyProps| && IsOfSamePrefabAs(nearbyProps[j], owner);
        assert nearbyProps[j] in objects;
        var i :| 0 <= i < |objects| && objects[i] == nearbyProps[j];
        assert IsNear(objects[i].position, point, minDistance);
      }
    }
    r
  }

  /** A non-positive value lies below a positive product; stated over two
      factors so that the solver keeps the product as one term. */
  lemma BelowProduct(s: real, a: real, b: real)
    requires 0.0 < a * b
    requires s <= 0.0
    ensures s < a * b
  {
  }

  /** A non-positive value lies below the square of a non-zero number. */
  lemma BelowSquare(s: real, m: real)
    requires m != 0.0
    requires s <= 0.0
    ensures s < m * m
  {
    BelowProduct(s, m, m);
  }

  /** A point is at squared distance zero from itself. */
  lemma SelfDistanceZero(p: Vec2)
    ensures SqrMagnitude(Sub(p, p)) == 0.0
  {
  }

  /** Every point is near itself, for any non-zero minimum distance. */
  lemma SelfIsNear(p: Vec2, minDistance: real)
    requires minDistance != 0.0
    ensures IsNear(p, p, minDistance)
  {
    SelfDistanceZero(p);
    BelowSquare(SqrMagnitude(Sub(p, p)), minDistance);
  }

  /** A registered object queried at its own position finds itself: its
      squared distance is zero, below any non-zero minimum squared. */
  lemma OwnObjectIsNear(objects: seq<GameObject>, owner: GameObject, minDistance: real)
    requires owner in objects
    requires minDistance != 0.0
    ensures DuplicateWithin(objects, owner, owner.position, minDistance)
  {
    SelfIsNear(owner.position, minDistance);
    var i :| 0 <= i < |objects| && objects[i] == owner;
    assert IsOfSamePrefabAs(objects[i], owner) && IsNear(objects[i].position, owner.position, minDistance);
  }

  /** The direct surface-normal test: the normal's signed angle against
      `Vector2.right` lies strictly between the angles of the point direction
      turned clockwise by the range and by minus the range. */
  predicate DirectTest(angle: AngleMeasure, rotate: Rotation, pointDirection: Vec2, range: real, surfaceNormal: Vec2)
  {
    RuntimeExtensions.IsBetweenBothExclusive(
      angle(surfaceNormal, Right),
      angle(RuntimeExtensions.RotatedClockwise(rotate, pointDirection, range), Right),
      angle(RuntimeExtensions.RotatedClockwise(rotate, pointDirection, -range), Right))
  }

  /** The fallback test: the normal's angle is measured against
      `Vector2.left`, and the bounds come from the point direction reflected
      in the horizontal axis (`Vector2.Reflect(direction, Vector2.up)`). */
  predicate MirroredTest(angle: AngleMeasure, rotate: Rotation, pointDirection: Vec2, range: real, surfaceNormal: Vec2)
  {
    var reflected := Reflect(pointDirection, Up);
    RuntimeExtensions.IsBetweenBothExclusive(
      angle(surfaceNormal, Left),
      angle(RuntimeExtensions.RotatedClockwise(rotate, reflected, range), Right),
      angle(RuntimeExtensions.RotatedClockwise(rotate, reflected, -range), Right))
  }

  /** The two tests as the code runs them: the normal's angle against
      `Vector2.right` inside the bounds from the point direction, and only
      when that fails, its angle against `Vector2.left` inside the bounds
      from the reflected point direction. The normal is accepted exactly
      when one of the two tests passes; a zero range accepts nothing, and
      the sign of the range does not matter. */
  predicate NormalAccepted(angle: AngleMeasure, rotate: Rotation, pointDirection: Vec2, range: real, surfaceNormal: Vec2): (r: bool)
    ensures r <==> (DirectTest(angle, rotate, pointDirection, range, surfaceNormal)
                    || MirroredTest(angle, rotate, pointDirection, range, surfaceNormal))
    ensures range == 0.0 ==> !r
    ensures r <==> (DirectTest(angle, rotate, pointDirection, -range, surfaceNormal)
                    || MirroredTest(angle, rotate, pointDirection, -range, surfaceNormal))
  {
    RangeFacts(angle, rotate, pointDirection, range, surfaceNormal);
    var normalAngle := angle(surfaceNormal, Right);
    var minNormalAngle := angle(RuntimeExtensions.RotatedClockwise(rotate, pointDirection, range), Right);
    var maxNormalAngle := angle(RuntimeExtensions.RotatedClockwise(rotate, pointDirection, -range), Right);
    if RuntimeExtensions.IsBetweenBothExclusive(normalAngle, minNormalAngle, maxNormalAngle) then true
    else
      var mirroredAngle := angle(surfaceNormal, Left);
      var reflectedPointDirection := Reflect(pointDirection, Up);
      var mirroredMin := angle(RuntimeExtensions.RotatedClockwise(rotate, reflectedPointDirection, range), Right);
      var mirroredMax := angle(RuntimeExtensions.RotatedClockwise(rotate, reflectedPointDirection, -range), Right);
      RuntimeExtensions.IsBetweenBothExclusive(mirroredAngle, mirroredMin, mirroredMax)
  }

  /** With a range of zero both bounds of each test are the same angle, so
      neither strict test can pass; and the sign of the range does not matter,
      since it only swaps the two bounds. */
  lemma RangeFacts(angle: AngleMeasure, rotate: Rotation, pointDirection: Vec2, range: real, surfaceNormal: Vec2)
    ensures !DirectTest(angle, rotate, pointDirection, 0.0, surfaceNormal)
    ensures !MirroredTest(angle, rotate, pointDirection, 0.0, surfaceNormal)
    ensures DirectTest(angle, rotate, pointDirection, -range, surfaceNormal)
        == DirectTest(angle, rotate, pointDirection, range, surfaceNormal)
    ensures MirroredTest(angle, rotate, pointDirection, -range, surfaceNormal)
        == MirroredTest(angle, rotate, pointDirection, range, surfaceNormal)
  {
    assert -0.0 == 0.0;
    assert - -range == range;
  }

  /** What `Random.Range(-range, range)` can return: a value between the
      two bounds, whichever is the larger. */
  predicate InRange(offset: real, range: real)
  {
    (-range <= offset <= range) || (range <= offset <= -range)
  }

  /** `GetValidPointDirection` once the range test is evaluated: with a
      range, the point direction turned clockwise by the drawn offset,
      otherwise the point direction itself. */
  function ValidPointDirection(hasRange: bool, rotate: Rotation, pointDirection: Vec2, randomRotationOffset: real): Vec2
  {
    if hasRange then RuntimeExtensions.RotatedClockwise(rotate, pointDirection, randomRotationOffset)
    else pointDirection
  }

  /** A value handed to `object.Equals`: the code passes a `Vector2` where a
      float is compared. */
  datatype Boxed = BoxedFloat(f: real) | BoxedVector2(v: Vec2)

  /** `float.Equals(object obj)`: true only for a boxed float of the same value. */
  predicate FloatEquals(f: real, obj: Boxed)
  {
    obj.BoxedFloat? && obj.f == f
  }

  /** The point direction with its x multiplied by `Mathf.Sign` of the
      normal's x, when a normal is given: x is negated exactly when the
      normal's x is negative, and y is kept. */
  function SignAdjusted(direction: Vec2, surfaceNormal: Option<Vec2>): (r: Vec2)
    ensures r.y == direction.y
    ensures r.x == if surfaceNormal.Some? && surfaceNormal.value.x < 0.0 then -direction.x else direction.x
  {
    if surfaceNormal.Some? then direction.(x := direction.x * Sign(surfaceNormal.value.x)) else direction
  }
}
