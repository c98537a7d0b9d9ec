/** Boundary vertices: the corners of a box, the points of a collider shifted
    by an offset, cyclic neighbour access, and the per-vertex offsetting of a
    vertex chain along averaged edge normals (the `Path` struct). */
module Boundary {
  import opened Vectors
  import opened Wrappers

  /** Unity's `Bounds`: an axis-aligned box given by its centre and half sizes. */
  datatype Bounds = Bounds(center: Vec3, extents: Vec3)

  /** `Bounds.ToPoints()`: the four corners of a box of the bounds' extents
      centred on the origin, starting at the lower-left corner and going
      counter-clockwise. The centre of the bounds is not used. */
  function ToPoints(bounds: Bounds): (r: seq<Vec2>)
    ensures |r| == 4
    ensures r[0] == Vec2(-bounds.extents.x, -bounds.extents.y)
    ensures r[2] == Vec2(bounds.extents.x, bounds.extents.y)
    ensures r[0].y == r[1].y && r[1].x == r[2].x && r[2].y == r[3].y && r[3].x == r[0].x
    ensures r[2] == Vec2(-r[0].x, -r[0].y) && r[3] == Vec2(-r[1].x, -r[1].y)
  {
    var ex, ey := bounds.extents.x, bounds.extents.y;
    [Vec2(-ex, -ey), Vec2(ex, -ey), Vec2(ex, ey), Vec2(-ex, ey)]
  }

  /** Twice the signed area enclosed by a closed vertex chain (shoelace formula);
      positive for counter-clockwise winding. */
  function DoubleSignedArea(points: seq<Vec2>): real
  {
    if |points| == 0 then 0.0 else CrossSum(points, points[0])
  }

  /** Sum of the cross products of consecutive vertices, closing onto `first`. */
  function CrossSum(points: seq<Vec2>, first: Vec2): real
    requires |points| > 0
  {
    var next := if |points| == 1 then first else points[1];
    points[0].x * next.y - next.x * points[0].y
      + (if |points| == 1 then 0.0 else CrossSum(points[1..], first))
  }

  /** The corners enclose the box's area, 4 * ex * ey: counter-clockwise
      winding whenever both extents are positive, whatever the centre. */
  lemma {:induction false} ToPointsArea(bounds: Bounds)
    ensures DoubleSignedArea(ToPoints(bounds)) == 8.0 * bounds.extents.x * bounds.extents.y
    ensures forall c :: ToPoints(Bounds(c, bounds.extents)) == ToPoints(bounds)
  {
    var p := ToPoints(bounds);
    var ex, ey := bounds.extents.x, bounds.extents.y;
    assert p[1..][1..][1..] == [p[3]];
    assert CrossSum(p[1..][1..][1..], p[0]) == p[3].x * p[0].y - p[0].x * p[3].y;
    assert CrossSum(p[1..][1..], p[0]) == p[2].x * p[3].y - p[3].x * p[2].y + CrossSum(p[1..][1..][1..], p[0]);
    assert CrossSum(p[1..], p[0]) == p[1].x * p[2].y - p[2].x * p[1].y + CrossSum(p[1..][1..], p[0]);
    assert CrossSum(p, p[0]) == p[0].x * p[1].y - p[1].x * p[0].y + CrossSum(p[1..], p[0]);
  }

  /** The collider kinds `GetPoints` distinguishes; any other collider type is
      `OtherCollider2D`. */
  datatype Collider2D =
    | PolygonCollider2D(points: seq<Vec2>)
    | EdgeCollider2D(points: seq<Vec2>)
    | BoxCollider2D(bounds: Bounds)
    | OtherCollider2D

  /** `ArgumentException("Collider is not of a valid type")`. */
  datatype ColliderError = InvalidColliderType

  /** `HasPoints`: polygon, edge and box colliders. */
  predicate HasPoints(collider: Collider2D)
  {
    collider.PolygonCollider2D? || collider.EdgeCollider2D? || collider.BoxCollider2D?
  }

  /** The local `ToPoints(collider)` of `GetPoints`: a polygon's or an edge
      chain's own points, or the corners of a box collider's bounds. */
  function ColliderPoints(collider: Collider2D): seq<Vec2>
    requires HasPoints(collider)
  {
    match collider
    case PolygonCollider2D(points) => points
    case EdgeCollider2D(points) => points
    case BoxCollider2D(bounds) => ToPoints(bounds)
  }

  /** `GetPoints(collider, add)`: refuses collider types without points;
      otherwise copies the collider's points and, when `add` is given, shifts
      every one of them by it, keeping their number and order. */
  method GetPoints(collider: Collider2D, add: Option<Vec2> := None)
    returns (r: Result<seq<Vec2>, ColliderError>)
    ensures r.Failure? <==> !HasPoints(collider)
    ensures r.Success? ==> |r.value| == |ColliderPoints(collider)|
    ensures r.Success? ==> forall i :: 0 <= i < |r.value| ==>
      r.value[i] == if add.Some? then Add(ColliderPoints(collider)[i], add.value)
                    else ColliderPoints(collider)[i]
  {
    if !HasPoints(collider) {
      return Failure(InvalidColliderType);
    }
    var source := ColliderPoints(collider);
    var points := new Vec2[|source|](i requires 0 <= i < |source| => source[i]);
    if add.Some? {
      for i := 0 to points.Length
        invariant forall k :: 0 <= k < i ==> points[k] == Add(source[k], add.value)
        invariant forall k :: i <= k < points.Length ==> points[k] == source[k]
      {
        points[i] := Add(points[i], add.value);
      }
    }
    r := Success(points[..]);
  }

  /** `ElementBefore(index)`: the previous element, the last one before the first. */
  function ElementBefore<T>(collection: seq<T>, index: int): T
    requires 0 <= index < |collection|
  {
    if index == 0 then collection[|collection| - 1] else collection[index - 1]
  }

  /** `ElementAfter(index)`: the next element, the first one after the last. */
  function ElementAfter<T>(collection: seq<T>, index: int): T
    requires 0 <= index < |collection|
  {
    if index == |collection| - 1 then collection[0] else collection[index + 1]
  }

  /** The neighbours are the elements one step back and one step forward,
      counting modulo the length: the first element's predecessor is the last
      element and the last element's successor is the first. */
  lemma NeighboursAreCyclic<T>(collection: seq<T>, index: int)
    requires 0 <= index < |collection|
    ensures ElementBefore(collection, index) == collection[(index - 1 + |collection|) % |collection|]
    ensures ElementAfter(collection, index) == collection[(index + 1) % |collection|]
    ensures ElementBefore(collection, 0) == collection[|collection| - 1]
    ensures ElementAfter(collection, |collection| - 1) == collection[0]
  {
    CyclicSteps(index, |collection|);
  }

  /** One step back and one step forward, modulo n. */
  lemma CyclicSteps(index: int, n: int)
    requires 0 <= index < n
    ensures (index - 1 + n) % n == if index == 0 then n - 1 else index - 1
    ensures (index + 1) % n == if index == n - 1 then 0 else index + 1
  {
  }

  /** The `Path` struct: a vertex with its two neighbours, the two edge
      vectors and their unit perpendiculars. */
  datatype Path = Path(
    start: Vec2, middle: Vec2, end: Vec2,
    startEdge: Vec2, endEdge: Vec2,
    startNormal: Vec2, endNormal: Vec2)
  {
    /** `Path.Expanded(expansion)`: the middle vertex moved by `expansion`
        along the normalised sum of the two edge normals. */
    function Expanded(mag: Norm, expansion: real): Vec2
    {
      Add(middle, Scale(Normalized(mag, Add(startNormal, endNormal)), expansion))
    }
  }

  /** The `Path(start, middle, end)` constructor. */
  function MakePath(mag: Norm, start: Vec2, middle: Vec2, end: Vec2): (p: Path)
    ensures p.start == start && p.middle == middle && p.end == end
  {
    var startEdge := Sub(start, middle);
    var endEdge := Sub(middle, end);
    Path(start, middle, end, startEdge, endEdge,
         Normalized(mag, Perpendicular(startEdge)), Normalized(mag, Perpendicular(endEdge)))
  }

  /** Where `ExpandedBy` moves vertex i of `points`: a function of that vertex
      and its two cyclic neighbours only. */
  function OffsetVertex(mag: Norm, points: seq<Vec2>, i: nat, expansion: real): Vec2
    requires i < |points|
  {
    PathAt(mag, points, i).Expanded(mag, expansion)
  }

  /** The whole offset chain. */
  function OffsetPoints(mag: Norm, points: seq<Vec2>, expansion: real): (r: seq<Vec2>)
    ensures |r| == |points|
  {
    seq(|points|, i requires 0 <= i < |points| => OffsetVertex(mag, points, i, expansion))
  }

  /** `Path` i of `ExpandedBy`: vertex i with its two cyclic neighbours. */
  function PathAt(mag: Norm, points: seq<Vec2>, i: nat): Path
    requires i < |points|
  {
    MakePath(mag, ElementBefore(points, i), points[i], ElementAfter(points, i))
  }

  /** The first loop of `ExpandedBy`: a `Path` for every vertex, all built
      from the original points. */
  method BuildPaths(mag: Norm, points: seq<Vec2>) returns (paths: array<Path>)
    ensures fresh(paths) && paths.Length == |points|
    ensures forall k :: 0 <= k < |points| ==> paths[k] == PathAt(mag, points, k)
  {
    paths := new Path[|points|];
    for i := 0 to |points|
      invariant forall k :: 0 <= k < i ==> paths[k] == PathAt(mag, points, k)
    {
      paths[i] := PathAt(mag, points, i);
    }
  }

  /** `ExpandedBy(points, expansion)`: every `Path` is built from the original
      points before any point is overwritten, so output i depends only on the
      original points i-1, i and i+1 (cyclically), and there are as many
      outputs as inputs. */
  method ExpandedBy(mag: Norm, points: seq<Vec2>, expansion: real) returns (r: seq<Vec2>)
    ensures |r| == |points|
    ensures forall i :: 0 <= i < |points| ==> r[i] == OffsetVertex(mag, points, i, expansion)
  {
    var n := |points|;
    var pointList := new Vec2[n](i requires 0 <= i < n => points[i]);
    var paths := BuildPaths(mag, points);
    for i := 0 to n
      modifies pointList
      invariant forall k :: 0 <= k < i ==> pointList[k] == paths[k].Expanded(mag, expansion)
    {
      pointList[i] := paths[i].Expanded(mag, expansion);
    }
    r := pointList[..];
  }

  /** Vertex i of the offset chain depends only on the original vertices
      i-1, i and i+1 (cyclically): two chains of the same length that agree
      there are moved to the same place. */
  lemma OffsetIsLocal(mag: Norm, p: seq<Vec2>, q: seq<Vec2>, i: nat, expansion: real)
    requires |p| == |q| && i < |p|
    requires ElementBefore(p, i) == ElementBefore(q, i)
    requires p[i] == q[i]
    requires ElementAfter(p, i) == ElementAfter(q, i)
    ensures OffsetVertex(mag, p, i, expansion) == OffsetVertex(mag, q, i, expansion)
  {
  }

  /** Offsetting by zero returns the chain unchanged. */
  lemma OffsetByZero(mag: Norm, points: seq<Vec2>)
    ensures OffsetPoints(mag, points, 0.0) == points
  {
  }

  /** Offsetting commutes with translation: shifting every vertex by `c` and
      then offsetting gives the offset chain shifted by `c`. */
  lemma {:induction false} OffsetCommutesWithTranslation(mag: Norm, points: seq<Vec2>, c: Vec2, expansion: real)
    ensures OffsetPoints(mag, seq(|points|, i requires 0 <= i < |points| => Add(points[i], c)), expansion)
         == seq(|points|, i requires 0 <= i < |OffsetPoints(mag, points, expansion)| => Add(OffsetPoints(mag, points, expansion)[i], c))
  {
    var shifted := seq(|points|, i requires 0 <= i < |points| => Add(points[i], c));
    forall i | 0 <= i < |points|
      ensures OffsetVertex(mag, shifted, i, expansion) == Add(OffsetVertex(mag, points, i, expansion), c)
    {
      var a, b, e := ElementBefore(points, i), points[i], ElementAfter(points, i);
      assert ElementBefore(shifted, i) == Add(a, c);
      assert ElementAfter(shifted, i) == Add(e, c);
      assert Sub(Add(a, c), Add(b, c)) == Sub(a, b);
      assert Sub(Add(b, c), Add(e, c)) == Sub(b, e);
    }
  }

  /** A length that does not depend on direction: reversing a vector keeps it. */
  ghost predicate Symmetric(mag: Norm)
  {
    forall v: Vec2 {:trigger Negated(v)} :: mag(Negated(v)) == mag(v)
  }

  function Negated(v: Vec2): Vec2 { Vec2(-v.x, -v.y) }

  /** Normalising the reversed vector gives the reversed unit vector. */
  lemma NormalizedOfNegated(mag: Norm, u: Vec2)
    requires mag(Negated(u)) == mag(u)
    ensures Normalized(mag, Negated(u)) == Negated(Normalized(mag, u))
  {
    var m := mag(u);
    if m > Epsilon {
      assert (-u.x) / m == -(u.x / m);
      assert (-u.y) / m == -(u.y / m);
    }
  }

  /** A vertex whose two neighbours coincide (the chain turns back on itself,
      as at both vertices of a two-point chain) is not moved: its two edge
      normals cancel, and the code has no fallback for that case. */
  lemma {:induction false} DoublingBackIsNotMoved(mag: Norm, points: seq<Vec2>, i: nat, expansion: real)
    requires Symmetric(mag)
    requires i < |points|
    requires ElementBefore(points, i) == ElementAfter(points, i)
    ensures OffsetVertex(mag, points, i, expansion) == points[i]
  {
    var p := PathAt(mag, points, i);
    NormalsCancel(mag, ElementBefore(points, i), points[i]);
    assert Add(p.startNormal, p.endNormal) == Zero;
  }

  /** The normals of an edge and of the same edge walked back are opposite. */
  lemma NormalsCancel(mag: Norm, a: Vec2, b: Vec2)
    requires Symmetric(mag)
    ensures Add(Normalized(mag, Perpendicular(Sub(a, b))), Normalized(mag, Perpendicular(Sub(b, a)))) == Zero
  {
    var u := Perpendicular(Sub(a, b));
    assert Perpendicular(Sub(b, a)) == Negated(u);
    assert mag(Negated(u)) == mag(u);
    NormalizedOfNegated(mag, u);
  }

  /** Offsetting a two-point chain leaves both of its points where they are. */
  lemma TwoPointChainIsNotMoved(mag: Norm, points: seq<Vec2>, expansion: real)
    requires Symmetric(mag)
    requires |points| == 2
    ensures OffsetPoints(mag, points, expansion) == points
  {
    DoublingBackIsNotMoved(mag, points, 0, expansion);
    DoublingBackIsNotMoved(mag, points, 1, expansion);
  }
}
