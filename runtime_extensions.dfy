/** The general-purpose helpers of the placement tool: an exclusive "between"
    test, picking a collection element, overriding vector components, rotating
    a direction and filling an array with successive results of a function. */
module RuntimeExtensions {
  import opened Vectors
  import opened Wrappers

  /** `float.CompareTo(float)`, which answers -1, 0 or 1. */
  function CompareTo(a: real, b: real): (r: int)
    ensures r == -1 <==> a < b
    ensures r == 0 <==> a == b
    ensures r == 1 <==> a > b
  {
    if a < b then -1 else if a > b then 1 else 0
  }

  /** True when `v` lies strictly between `a` and `b`, in either order: the
      product of the two comparisons is -1 exactly when they disagree in sign. */
  predicate IsBetweenBothExclusive(v: real, a: real, b: real): (r: bool)
    ensures r <==> (a < v < b) || (b < v < a)
    ensures v == a || v == b || a == b ==> !r
  {
    CompareTo(v, a) * CompareTo(v, b) == -1
  }

  /** `collection.ElementAt(RND.Next(0, collection.Count()))`, with the random
      draw passed in as `index`. `Next(0, 0)` answers 0 and `ElementAt(0)` then
      throws on the empty collection, which is the `None` case. */
  function GetRandom<T>(collection: seq<T>, index: int): (r: Option<T>)
    requires |collection| > 0 ==> 0 <= index < |collection|
    requires |collection| == 0 ==> index == 0
    ensures r.Some? <==> |collection| > 0
    ensures r.Some? ==> r.value in collection && r.value == collection[index]
  {
    if |collection| == 0 then None else Some(collection[index])
  }

  /** `Vector3.With(x, y, z)`: each component given is overwritten in the
      struct copy, the others are kept. */
  method With(v: Vec3, x: Option<real> := None, y: Option<real> := None, z: Option<real> := None)
    returns (r: Vec3)
    ensures r.x == (if x.Some? then x.value else v.x)
    ensures r.y == (if y.Some? then y.value else v.y)
    ensures r.z == (if z.Some? then z.value else v.z)
    ensures x.None? && y.None? && z.None? ==> r == v
  {
    r := v;
    if x.Some? { r := r.(x := x.value); }
    if y.Some? { r := r.(y := y.value); }
    if z.Some? { r := r.(z := z.value); }
  }

  /** `Quaternion.Euler(0, 0, deg) * v`. */
  function RotatedCounterClockwise(rotate: Rotation, v: Vec2, deg: real): Vec2
  {
    rotate(v, deg)
  }

  /** Clockwise rotation is, by definition, counter-clockwise rotation by the
      opposite angle. */
  function RotatedClockwise(rotate: Rotation, v: Vec2, deg: real): Vec2
  {
    RotatedCounterClockwise(rotate, v, -deg)
  }

  /** What every rotation by quaternions satisfies: turning by zero degrees
      does nothing, and two turns compose into one by the sum of the angles. */
  ghost predicate IsRotationGroup(rotate: Rotation)
  {
    && (forall v :: rotate(v, 0.0) == v)
    && (forall v, a, b :: rotate(rotate(v, a), b) == rotate(v, a + b))
  }

  /** Turning clockwise by `deg` undoes turning counter-clockwise by `deg`,
      and the other way round. */
  lemma ClockwiseUndoesCounterClockwise(rotate: Rotation, v: Vec2, deg: real)
    requires IsRotationGroup(rotate)
    ensures RotatedClockwise(rotate, RotatedCounterClockwise(rotate, v, deg), deg) == v
    ensures RotatedCounterClockwise(rotate, RotatedClockwise(rotate, v, deg), deg) == v
  {
    assert rotate(rotate(v, deg), -deg) == rotate(v, deg + -deg);
    assert rotate(rotate(v, -deg), deg) == rotate(v, -deg + deg);
  }

  /** Turning clockwise by zero degrees does nothing. */
  lemma ClockwiseByZero(rotate: Rotation, v: Vec2)
    requires IsRotationGroup(rotate)
    ensures RotatedClockwise(rotate, v, 0.0) == v
  {
    assert -0.0 == 0.0;
  }

  /** A `Func<T>` seen through its successive calls: the k-th call made on it
      (counting from 0) answers `outcomes(k)`. */
  class CallSequence<T> {
    const outcomes: nat -> T
    var calls: nat

    constructor (outcomes: nat -> T)
      ensures this.outcomes == outcomes && calls == 0
    {
      this.outcomes := outcomes;
      calls := 0;
    }

    /** `function.Invoke()`. */
    method Invoke() returns (v: T)
      modifies this
      ensures calls == old(calls) + 1
      ensures v == outcomes(old(calls))
    {
      v := outcomes(calls);
      calls := calls + 1;
    }
  }

  /** The exception `new T[count]` throws: an `OverflowException` for a
      negative count. */
  datatype ArrayError = NegativeCount

  /** `ArrayFiledWithFunctionResults(function, count)`: a negative count
      fails before any call; otherwise a new array whose element i is the
      result of the (i+1)-th call, with exactly `count` calls. */
  method ArrayFiledWithFunctionResults<T(0)>(source: CallSequence<T>, count: int)
    returns (r: Result<array<T>, ArrayError>)
    modifies source
    ensures r.Failure? <==> count < 0
    ensures r.Failure? ==> source.calls == old(source.calls)
    ensures r.Success? ==> fresh(r.value) && r.value.Length == count
    ensures r.Success? ==> source.calls == old(source.calls) + count
    ensures r.Success? ==> forall i :: 0 <= i < count ==> r.value[i] == source.outcomes(old(source.calls) + i)
  {
    if count < 0 {
      return Failure(NegativeCount);
    }
    var result := new T[count];
    for i := 0 to count
      invariant source.calls == old(source.calls) + i
      invariant forall k :: 0 <= k < i ==> result[k] == source.outcomes(old(source.calls) + k)
    {
      result[i] := source.Invoke();
    }
    r := Success(result);
  }
}
