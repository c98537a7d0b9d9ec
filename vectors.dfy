/** Unity's `Vector2`/`Vector3` value types over Dafny reals, with the vector
    operations the placement code uses. Operations whose Unity implementation
    needs a square root or trigonometry (`magnitude`, `SignedAngle`, quaternion
    rotation) are parameters: `Norm`, `AngleMeasure` and `Rotation`. */
module Vectors {

  datatype Vec2 = Vec2(x: real, y: real)

  datatype Vec3 = Vec3(x: real, y: real, z: real)

  const Zero := Vec2(0.0, 0.0)
  const Up := Vec2(0.0, 1.0)
  const Right := Vec2(1.0, 0.0)
  const Left := Vec2(-1.0, 0.0)

  /** `Vector2.kEpsilon`, the magnitude below which `normalized` is zero. */
  const Epsilon: real := 0.00001

  /** `Vector2.magnitude`, a length function. */
  type Norm = Vec2 -> real

  /** What every length function satisfies: no length is negative. */
  ghost predicate NonNegative(mag: Norm)
  {
    forall v :: 0.0 <= mag(v)
  }

  /** `Vector2.SignedAngle(from, to)`, in degrees. */
  type AngleMeasure = (Vec2, Vec2) -> real

  /** `Quaternion.Euler(0, 0, deg) * v`: counter-clockwise rotation by `deg` degrees. */
  type Rotation = (Vec2, real) -> Vec2

  function Add(a: Vec2, b: Vec2): Vec2 { Vec2(a.x + b.x, a.y + b.y) }

  function Sub(a: Vec2, b: Vec2): Vec2 { Vec2(a.x - b.x, a.y - b.y) }

  function Scale(v: Vec2, k: real): Vec2 { Vec2(v.x * k, v.y * k) }

  function Dot(a: Vec2, b: Vec2): real { a.x * b.x + a.y * b.y }

  /** `Vector2.SqrMagnitude`. */
  function SqrMagnitude(v: Vec2): (r: real)
    ensures r >= 0.0
  {
    v.x * v.x + v.y * v.y
  }

  /** `Vector2.Perpendicular`: the vector turned a quarter turn counter-clockwise. */
  function Perpendicular(v: Vec2): (r: Vec2)
    ensures Dot(r, v) == 0.0
    ensures SqrMagnitude(r) == SqrMagnitude(v)
  {
    Vec2(-v.y, v.x)
  }

  /** `Vector2.Reflect(inDirection, inNormal)`. */
  function Reflect(inDirection: Vec2, inNormal: Vec2): (r: Vec2)
    ensures inNormal == Up ==> r == Vec2(inDirection.x, -inDirection.y)
  {
    Add(Scale(inNormal, -2.0 * Dot(inNormal, inDirection)), inDirection)
  }

  /** `Vector2.normalized`: the vector divided by its length, or zero when
      the length is not above `Epsilon`. */
  function Normalized(mag: Norm, v: Vec2): (r: Vec2)
    ensures mag(v) <= Epsilon ==> r == Zero
  {
    if mag(v) > Epsilon then Vec2(v.x / mag(v), v.y / mag(v)) else Zero
  }

  /** `Mathf.Clamp01`. */
  function Clamp01(t: real): (r: real)
    ensures 0.0 <= r <= 1.0
    ensures 0.0 <= t <= 1.0 ==> r == t
    ensures t <= 0.0 ==> r == 0.0
    ensures t >= 1.0 ==> r == 1.0
  {
    if t < 0.0 then 0.0 else if t > 1.0 then 1.0 else t
  }

  /** `Vector2.Lerp(a, b, t)`, which clamps `t` to [0, 1] first. */
  function Lerp(a: Vec2, b: Vec2, t: real): (r: Vec2)
    ensures t <= 0.0 ==> r == a
    ensures t >= 1.0 ==> r == b
  {
    var c := Clamp01(t);
    Vec2(a.x + (b.x - a.x) * c, a.y + (b.y - a.y) * c)
  }

  /** `Mathf.Sign`: 1 for zero and positive numbers, -1 otherwise. */
  function Sign(f: real): (r: real)
    ensures r == 1.0 || r == -1.0
    ensures r * f >= 0.0
  {
    if f >= 0.0 then 1.0 else -1.0
  }
}
