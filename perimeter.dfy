/** Arc-length interpolation along a chain of points: the `Lerp` extension
    over a point sequence and `MapLengthToMatchingEdgePoint`, with the `Edge`
    struct they use. Lengths come from an abstract `Norm`. */
module Perimeter {
  import opened Vectors
  import opened Wrappers
  import Lists
  import Boundary

  datatype LerpEndType = OpenEnded | Closed

  datatype LerpOvershootType = Cyclic | PingPong

  datatype LerpError =
    | EmptyChain      // `edges.Last()` on an empty edge list
    | NoMatchingEdge  // `Array.FindIndex` found nothing, so `ElementAt(-1)` throws
    | UndefinedPoint  // `0 / 0` on a zero-length edge: the point is not a number

  /** The `Edge` struct. Its `Line` field is not modelled: `Equals` compares
      start, end and length only, which is what equality of this datatype does. */
  datatype Edge = Edge(start: Vec2, end: Vec2, length: real)
  {
    /** `Edge.Lerp(t)`: `Vector2.Lerp` from start to end. */
    function Lerp(t: real): Vec2
    {
      Vectors.Lerp(start, end, t)
    }
  }

  /** The `Edge(start, end)` constructor: its length is the magnitude of
      `end - start`. */
  function MakeEdge(mag: Norm, start: Vec2, end: Vec2): Edge
  {
    Edge(start, end, mag(Sub(end, start)))
  }

  predicate NonNegativeLengths(edges: seq<Edge>)
  {
    forall i :: 0 <= i < |edges| ==> edges[i].length >= 0.0
  }

  /** `edges.Sum(edge => edge.Length)`, summed from the front. */
  function SumLengths(edges: seq<Edge>): real
  {
    if |edges| == 0 then 0.0 else SumLengths(edges[..|edges| - 1]) + edges[|edges| - 1].length
  }

  /** The running sums that `MapLengthToMatchingEdgePoint` stores:
      entry i is the length of edges 0 through i. */
  function CumulativeLengths(edges: seq<Edge>): (r: seq<real>)
    ensures |r| == |edges|
  {
    seq(|edges|, i requires 0 <= i < |edges| => SumLengths(edges[..i + 1]))
  }

  /** `Array.FindIndex(xs, x => x >= target)`: the first index whose entry
      reaches the target, or -1 when there is none. */
  function FindIndexAtLeast(xs: seq<real>, target: real): (r: int)
    ensures -1 <= r < |xs|
    ensures r >= 0 ==> xs[r] >= target
    ensures forall j :: 0 <= j < |xs| && (r < 0 || j < r) ==> xs[j] < target
  {
    if |xs| == 0 then -1
    else if xs[0] >= target then 0
    else
      var k := FindIndexAtLeast(xs[1..], target);
      if k < 0 then -1 else k + 1
  }

  /** The point at `target` on the chosen edge, whose running sum is
      `cumulative`: parameter `1 - (cumulative - target) / length`. On a
      zero-length edge the division is by zero: a positive numerator gives
      minus infinity, clamped to the start; a negative one plus infinity,
      clamped to the end; a zero one gives no number at all. */
  function PointOnEdge(edge: Edge, cumulative: real, target: real): Result<Vec2, LerpError>
  {
    if edge.length != 0.0 then Success(edge.Lerp(1.0 - (cumulative - target) / edge.length))
    else if cumulative - target > 0.0 then Success(edge.start)
    else if cumulative - target < 0.0 then Success(edge.end)
    else Failure(UndefinedPoint)
  }

  /** What `MapLengthToMatchingEdgePoint(edges, target)` returns. */
  function PointAtLength(edges: seq<Edge>, target: real): Result<Vec2, LerpError>
  {
    var cumulative := CumulativeLengths(edges);
    var k := FindIndexAtLeast(cumulative, target);
    if k < 0 then Failure(NoMatchingEdge) else PointOnEdge(edges[k], cumulative[k], target)
  }

  /** `MapLengthToMatchingEdgePoint`: fill the running sums into an array,
      find the first one that reaches the target and interpolate on its edge. */
  method MapLengthToMatchingEdgePoint(edges: seq<Edge>, targetLength: real) returns (r: Result<Vec2, LerpError>)
    ensures r == PointAtLength(edges, targetLength)
  {
    var edgeCount := |edges|;
    var cumulativeLengths := new real[edgeCount];
    var cumulativeLength := 0.0;
    for i := 0 to edgeCount
      invariant cumulativeLength == SumLengths(edges[..i])
      invariant forall k :: 0 <= k < i ==> cumulativeLengths[k] == SumLengths(edges[..k + 1])
    {
      assert edges[..i + 1][..i] == edges[..i];
      cumulativeLength := cumulativeLength + edges[i].length;
      cumulativeLengths[i] := cumulativeLength;
    }
    assert cumulativeLengths[..] == CumulativeLengths(edges);
    var ledgeIndex := FindIndexAtLeast(cumulativeLengths[..], targetLength);
    if ledgeIndex < 0 {
      return Failure(NoMatchingEdge);
    }
    r := PointOnEdge(edges[ledgeIndex], cumulativeLengths[ledgeIndex], targetLength);
  }

  /** Summing a longer prefix never gives less. */
  lemma {:induction false} SumLengthsPrefixMonotone(edges: seq<Edge>, i: nat, j: nat)
    requires NonNegativeLengths(edges)
    requires i <= j <= |edges|
    ensures SumLengths(edges[..i]) <= SumLengths(edges[..j])
  {
    if i < j {
      SumLengthsPrefixMonotone(edges, i, j - 1);
      assert edges[..j][..j - 1] == edges[..j - 1];
    }
  }

  /** The running sums never decrease, and the last one is the total length. */
  lemma CumulativeLengthsNonDecreasing(edges: seq<Edge>)
    requires NonNegativeLengths(edges)
    ensures forall i, j :: 0 <= i <= j < |edges| ==>
      CumulativeLengths(edges)[i] <= CumulativeLengths(edges)[j]
    ensures |edges| > 0 ==> CumulativeLengths(edges)[|edges| - 1] == SumLengths(edges)
  {
    forall i, j | 0 <= i <= j < |edges|
      ensures CumulativeLengths(edges)[i] <= CumulativeLengths(edges)[j]
    {
      CumulativeEntry(edges, i);
      CumulativeEntry(edges, j);
      SumLengthsPrefixMonotone(edges, i + 1, j + 1);
    }
    if |edges| > 0 {
      CumulativeEntry(edges, |edges| - 1);
      assert edges[..|edges|] == edges;
    }
  }

  lemma CumulativeEntry(edges: seq<Edge>, i: nat)
    requires i < |edges|
    ensures CumulativeLengths(edges)[i] == SumLengths(edges[..i + 1])
  {
  }

  /** Each running sum adds the length of its own edge to the one before. */
  lemma CumulativeStep(edges: seq<Edge>, i: nat)
    requires i < |edges|
    ensures CumulativeLengths(edges)[i]
         == (if i == 0 then 0.0 else CumulativeLengths(edges)[i - 1]) + edges[i].length
  {
    assert edges[..i + 1][..i] == edges[..i];
    assert SumLengths(edges[..i + 1]) == SumLengths(edges[..i]) + edges[i].length;
  }

  /** For a target between zero and the total length the search finds an
      edge, the edges before it end short of the target, and on an edge of
      positive length the interpolation parameter lies in [0, 1]. */
  lemma ChosenEdgeBracketsTarget(edges: seq<Edge>, target: real)
    requires NonNegativeLengths(edges)
    requires |edges| > 0
    requires 0.0 <= target <= SumLengths(edges)
    ensures var cumulative := CumulativeLengths(edges);
      var k := FindIndexAtLeast(cumulative, target);
      && 0 <= k
      && cumulative[k] - edges[k].length <= target <= cumulative[k]
      && (edges[k].length > 0.0 ==>
            0.0 <= 1.0 - (cumulative[k] - target) / edges[k].length <= 1.0)
  {
    var cumulative := CumulativeLengths(edges);
    CumulativeLengthsNonDecreasing(edges);
    var k := FindIndexAtLeast(cumulative, target);
    assert k >= 0 by {
      assert cumulative[|edges| - 1] >= target;
    }
    CumulativeStep(edges, k);
    var len := edges[k].length;
    if len > 0.0 {
      var d := cumulative[k] - target;
      assert 0.0 <= d <= len;
      UnitQuotient(d, len);
    }
  }

  lemma UnitQuotient(d: real, len: real)
    requires 0.0 <= d <= len && len > 0.0
    ensures 0.0 <= d / len <= 1.0
  {
    assert d / len * len == d;
  }

  /** A target at or before the start of the chain is placed at the start of
      the first edge, provided that edge has positive length. */
  lemma NonPositiveTargetGivesFirstPoint(edges: seq<Edge>, target: real)
    requires NonNegativeLengths(edges)
    requires |edges| > 0 && edges[0].length > 0.0
    requires target <= 0.0
    ensures PointAtLength(edges, target) == Success(edges[0].start)
  {
    var cumulative := CumulativeLengths(edges);
    CumulativeStep(edges, 0);
    assert FindIndexAtLeast(cumulative, target) == 0;
    var len := edges[0].length;
    QuotientAtLeastOne(len - target, len);
  }

  lemma QuotientAtLeastOne(d: real, len: real)
    requires d >= len > 0.0
    ensures d / len >= 1.0
  {
    assert d / len * len == d;
  }

  /** Whatever point the search returns lies on one of the edges. */
  lemma PointLiesOnAnEdge(edges: seq<Edge>, target: real)
    requires PointAtLength(edges, target).Success?
    ensures exists k, s :: (0 <= k < |edges| && 0.0 <= s <= 1.0
      && PointAtLength(edges, target).value == edges[k].Lerp(s))
  {
    var cumulative := CumulativeLengths(edges);
    var k := FindIndexAtLeast(cumulative, target);
    var e := edges[k];
    if e.length != 0.0 {
      var t := 1.0 - (cumulative[k] - target) / e.length;
      assert e.Lerp(t) == e.Lerp(Clamp01(t));
      assert PointAtLength(edges, target).value == e.Lerp(Clamp01(t));
    } else if cumulative[k] - target > 0.0 {
      assert PointAtLength(edges, target).value == e.Lerp(0.0);
    } else {
      assert false;
    }
  }

  /** The first loop of `Lerp`: one edge from every point to the point after
      it, the last one closing the chain. */
  function ClosedEdges(mag: Norm, points: seq<Vec2>): (r: seq<Edge>)
    ensures |r| == |points|
  {
    seq(|points|, i requires 0 <= i < |points| => MakeEdge(mag, points[i], Boundary.ElementAfter(points, i)))
  }

  /** The open chain as intended: the closed chain without its closing edge. */
  function OpenEdges(mag: Norm, points: seq<Vec2>): (r: seq<Edge>)
    requires |points| > 0
    ensures |r| == |points| - 1
  {
    ClosedEdges(mag, points)[..|points| - 1]
  }

  /** The open chain as written: `edges.Remove(edges.Last())`, which removes
      the FIRST edge equal to the closing one. */
  function OpenEdgesAsWritten(mag: Norm, points: seq<Vec2>): (r: seq<Edge>)
    requires |points| > 0
    ensures |r| == |points| - 1
  {
    var closed := ClosedEdges(mag, points);
    assert closed[|closed| - 1] in closed;
    Lists.RemoveFirstPresent(closed, closed[|closed| - 1]);
    Lists.RemoveFirst(closed, closed[|closed| - 1])
  }

  function Edges(mag: Norm, points: seq<Vec2>, lerpEndType: LerpEndType): seq<Edge>
    requires lerpEndType == OpenEnded ==> |points| > 0
  {
    if lerpEndType == OpenEnded then OpenEdges(mag, points) else ClosedEdges(mag, points)
  }

  /** A closed chain of n points has n edges, an open one n - 1, and edge i
      runs from point i to point (i + 1) mod n, with its length measured from
      start to end. Non-negative magnitudes give non-negative lengths. */
  lemma EdgesRunAlongTheChain(mag: Norm, points: seq<Vec2>, lerpEndType: LerpEndType, i: nat)
    requires lerpEndType == OpenEnded ==> |points| > 0
    requires i < |Edges(mag, points, lerpEndType)|
    ensures |Edges(mag, points, lerpEndType)| == if lerpEndType == Closed then |points| else |points| - 1
    ensures Edges(mag, points, lerpEndType)[i].start == points[i]
    ensures Edges(mag, points, lerpEndType)[i].end == points[(i + 1) % |points|]
    ensures Edges(mag, points, lerpEndType)[i].length == mag(Sub(points[(i + 1) % |points|], points[i]))
  {
    Boundary.NeighboursAreCyclic(points, i);
  }

  lemma EdgeLengthsNonNegative(mag: Norm, points: seq<Vec2>, lerpEndType: LerpEndType)
    requires NonNegative(mag)
    requires lerpEndType == OpenEnded ==> |points| > 0
    ensures NonNegativeLengths(Edges(mag, points, lerpEndType))
  {
  }

  /** The open chain as written holds the same edges as the intended one,
      counted with multiplicity: only which of two equal edges goes differs. */
  lemma OpenEdgesAsWrittenSameMultiset(mag: Norm, points: seq<Vec2>)
    requires |points| > 0
    ensures multiset(OpenEdgesAsWritten(mag, points)) == multiset(OpenEdges(mag, points))
  {
    Lists.RemoveLastValueSameMultiset(ClosedEdges(mag, points));
  }

  /** When no earlier edge equals the closing one, the two agree. */
  lemma OpenEdgesAsWrittenAgrees(mag: Norm, points: seq<Vec2>)
    requires |points| > 0
    requires ClosedEdges(mag, points)[|points| - 1] !in OpenEdges(mag, points)
    ensures OpenEdgesAsWritten(mag, points) == OpenEdges(mag, points)
  {
    var closed := ClosedEdges(mag, points);
    assert closed == OpenEdges(mag, points) + [closed[|points| - 1]];
    Lists.AddThenRemove(OpenEdges(mag, points), closed[|points| - 1]);
  }

  // ---- wrapping of t ----

  /** C#'s conversion toward zero. */
  function TruncateTowardZero(t: real): int
  {
    if t >= 0.0 then t.Floor else -((-t).Floor)
  }

  /** C#'s `t % 1`: the remainder takes the sign of `t`. */
  function RemainderAsWritten(t: real): (r: real)
    ensures -1.0 < r < 1.0
    ensures t >= 0.0 ==> r >= 0.0
    ensures t <= 0.0 ==> r <= 0.0
  {
    t - TruncateTowardZero(t) as real
  }

  /** Lines `t %= 1` and `t *= t % 1 > 0 ? -1 : 1` as written: for
      `PingPong` a positive remainder is negated. */
  function WrapAsWritten(t: real, lerpOvershootType: LerpOvershootType): (r: real)
    ensures -1.0 < r < 1.0
  {
    var w := RemainderAsWritten(t);
    if lerpOvershootType == PingPong then w * (if RemainderAsWritten(w) > 0.0 then -1.0 else 1.0) else w
  }

  /** `Mathf.Repeat(t, 1)`: t wrapped into [0, 1). */
  function Repeat1(t: real): (r: real)
    ensures 0.0 <= r < 1.0
  {
    t - t.Floor as real
  }

  /** `Mathf.Repeat(t, 2)`: t wrapped into [0, 2). */
  function Repeat2(t: real): (r: real)
    ensures 0.0 <= r < 2.0
  {
    t - (t / 2.0).Floor as real * 2.0
  }

  /** `Mathf.PingPong(t, 1)`: t bounced back and forth between 0 and 1. */
  function PingPong1(t: real): (r: real)
    ensures 0.0 <= r <= 1.0
  {
    var d := Repeat2(t) - 1.0;
    1.0 - (if d < 0.0 then -d else d)
  }

  /** The fraction of the chain that t stands for: `Cyclic` wraps t into
      [0, 1), `PingPong` bounces it between 0 and 1. */
  function Wrap(t: real, lerpOvershootType: LerpOvershootType): (r: real)
    ensures 0.0 <= r <= 1.0
  {
    if lerpOvershootType == Cyclic then Repeat1(t) else PingPong1(t)
  }

  /** The wrapped value stays in [0, 1) for `Cyclic`, ignores whole turns,
      is left alone inside the unit range and wraps to itself. */
  lemma WrapProperties(t: real, lerpOvershootType: LerpOvershootType)
    ensures lerpOvershootType == Cyclic ==> Wrap(t, Cyclic) < 1.0
    ensures lerpOvershootType == Cyclic ==> Wrap(t + 1.0, Cyclic) == Wrap(t, Cyclic)
    ensures lerpOvershootType == PingPong ==> Wrap(t + 2.0, PingPong) == Wrap(t, PingPong)
    ensures lerpOvershootType == PingPong ==> Wrap(-t, PingPong) == Wrap(t, PingPong)
    ensures 0.0 <= t < 1.0 ==> Wrap(t, lerpOvershootType) == t
    ensures lerpOvershootType == PingPong && t == 1.0 ==> Wrap(t, PingPong) == 1.0
    ensures Wrap(Wrap(t, lerpOvershootType), lerpOvershootType) == Wrap(t, lerpOvershootType)
  {
    assert (t + 1.0).Floor == t.Floor + 1;
    assert ((t + 2.0) / 2.0).Floor == (t / 2.0).Floor + 1;
    var w := Wrap(t, lerpOvershootType);
    if lerpOvershootType == PingPong {
      NegationBounce(t);
      if w < 1.0 {
        assert (w / 2.0).Floor == 0;
      } else {
        assert (w / 2.0).Floor == 0;
      }
    } else {
      assert w.Floor == 0;
    }
    if 0.0 <= t < 1.0 {
      assert t.Floor == 0;
      assert (t / 2.0).Floor == 0;
    }
    if t == 1.0 {
      assert (t / 2.0).Floor == 0;
    }
  }

  lemma NegationBounce(t: real)
    ensures PingPong1(-t) == PingPong1(t)
  {
    var q := (t / 2.0).Floor;
    var r := t - q as real * 2.0;
    if r == 0.0 {
      assert (-t / 2.0).Floor == -q;
    } else {
      assert (-t / 2.0).Floor == -q - 1;
    }
  }

  /** On non-negative t the written `Cyclic` wrap is the intended one. */
  lemma WrapAsWrittenAgreesOnNonNegative(t: real)
    requires t >= 0.0
    ensures WrapAsWritten(t, Cyclic) == Wrap(t, Cyclic)
  {
  }

  // ---- the whole interpolation ----

  /** What the intended `Lerp(points, t, lerpEndType, lerpOvershootType)`
      returns: the point at the wrapped fraction of the chain's length. */
  function LerpOf(mag: Norm, points: seq<Vec2>, t: real, lerpEndType: LerpEndType,
                  lerpOvershootType: LerpOvershootType): Result<Vec2, LerpError>
  {
    PointAtFraction(mag, points, lerpEndType, Wrap(t, lerpOvershootType))
  }

  /** The point a given fraction of the way along the chain's edges. */
  function PointAtFraction(mag: Norm, points: seq<Vec2>, lerpEndType: LerpEndType, fraction: real): Result<Vec2, LerpError>
  {
    if lerpEndType == OpenEnded && |points| == 0 then Failure(EmptyChain)
    else PointAtFractionOf(Edges(mag, points, lerpEndType), fraction)
  }

  /** `edges.MapLengthToMatchingEdgePoint(totalEdgeLength * t)`. */
  function PointAtFractionOf(edges: seq<Edge>, fraction: real): Result<Vec2, LerpError>
  {
    PointAtLength(edges, TargetLength(SumLengths(edges), fraction))
  }

  /** `targetLength = totalEdgeLength * t`. */
  function TargetLength(totalEdgeLength: real, t: real): real
  {
    totalEdgeLength * t
  }

  /** A fraction at or below zero gives the start of the first edge, when
      that edge has positive length. */
  lemma NonPositiveFractionGivesFirstPoint(edges: seq<Edge>, fraction: real)
    requires NonNegativeLengths(edges)
    requires |edges| > 0 && edges[0].length > 0.0
    requires fraction <= 0.0
    ensures PointAtFractionOf(edges, fraction) == Success(edges[0].start)
  {
    TotalNonNegative(edges);
    NonPositiveTarget(SumLengths(edges), fraction);
    NonPositiveTargetGivesFirstPoint(edges, TargetLength(SumLengths(edges), fraction));
  }

  lemma FractionLiesOnAnEdge(edges: seq<Edge>, fraction: real)
    requires PointAtFractionOf(edges, fraction).Success?
    ensures exists k, s :: (0 <= k < |edges| && 0.0 <= s <= 1.0
      && PointAtFractionOf(edges, fraction).value == edges[k].Lerp(s))
  {
    PointLiesOnAnEdge(edges, TargetLength(SumLengths(edges), fraction));
  }

  /** A fraction in [0, 1] of a chain with at least one edge always finds an edge. */
  lemma FractionFindsAnEdge(edges: seq<Edge>, fraction: real)
    requires NonNegativeLengths(edges)
    requires |edges| > 0
    requires 0.0 <= fraction <= 1.0
    ensures PointAtFractionOf(edges, fraction) != Failure(NoMatchingEdge)
  {
    var total := SumLengths(edges);
    TotalNonNegative(edges);
    ScaledWithin(total, fraction);
    ChosenEdgeBracketsTarget(edges, TargetLength(total, fraction));
  }

  /** What `Lerp` returns as written: the wrong edge may be dropped from an
      open chain, and t is wrapped by the truncating remainder and the
      `PingPong` negation. */
  function LerpAsWritten(mag: Norm, points: seq<Vec2>, t: real, lerpEndType: LerpEndType,
                         lerpOvershootType: LerpOvershootType): (r: Result<Vec2, LerpError>)
    ensures |points| == 0 ==> r.Failure?
    ensures lerpEndType == Closed && |points| == 0 ==> r == Failure(NoMatchingEdge)
  {
    if lerpEndType == OpenEnded && |points| == 0 then Failure(EmptyChain)
    else PointAtFractionOf(EdgesAsWritten(mag, points, lerpEndType), WrapAsWritten(t, lerpOvershootType))
  }

  function EdgesAsWritten(mag: Norm, points: seq<Vec2>, lerpEndType: LerpEndType): (r: seq<Edge>)
    requires lerpEndType == OpenEnded ==> |points| > 0
    ensures |r| == if lerpEndType == OpenEnded then |points| - 1 else |points|
  {
    if lerpEndType == OpenEnded then OpenEdgesAsWritten(mag, points) else ClosedEdges(mag, points)
  }

  /** The first loop of `Lerp`: one edge from each point to the next. */
  method BuildEdges(mag: Norm, points: seq<Vec2>) returns (edges: seq<Edge>)
    ensures edges == ClosedEdges(mag, points)
  {
    var pointCount := |points|;
    edges := [];
    for i := 0 to pointCount
      invariant |edges| == i
      invariant forall k :: 0 <= k < i ==> edges[k] == MakeEdge(mag, points[k], Boundary.ElementAfter(points, k))
    {
      edges := edges + [MakeEdge(mag, points[i], Boundary.ElementAfter(points, i))];
    }
  }

  /** `Lerp` as written: the truncating `t %= 1`, the edge list, `Remove`
      of the first edge equal to the last one for an open chain, the
      `PingPong` negation, and the lookup of the target length. */
  method Lerp(mag: Norm, points: seq<Vec2>, t: real, lerpEndType: LerpEndType,
              lerpOvershootType: LerpOvershootType) returns (r: Result<Vec2, LerpError>)
    ensures r == LerpAsWritten(mag, points, t, lerpEndType, lerpOvershootType)
  {
    var fraction := RemainderAsWritten(t);
    var edges := BuildEdges(mag, points);
    if lerpEndType == OpenEnded {
      if |edges| == 0 {
        return Failure(EmptyChain);
      }
      edges := Lists.RemoveFirst(edges, edges[|edges| - 1]);
    }
    assert edges == EdgesAsWritten(mag, points, lerpEndType);
    if lerpOvershootType == PingPong {
      fraction := fraction * (if RemainderAsWritten(fraction) > 0.0 then -1.0 else 1.0);
    }
    assert fraction == WrapAsWritten(t, lerpOvershootType);
    var totalEdgeLength := SumLengths(edges);
    r := MapLengthToMatchingEdgePoint(edges, TargetLength(totalEdgeLength, fraction));
    SameEdgesSamePoint(edges, EdgesAsWritten(mag, points, lerpEndType), fraction);
  }

  /** `Lerp` as intended: the same steps with the closing edge itself
      dropped from an open chain and t wrapped by `Mathf.Repeat` or
      `Mathf.PingPong`. */
  method LerpAsIntended(mag: Norm, points: seq<Vec2>, t: real, lerpEndType: LerpEndType,
                        lerpOvershootType: LerpOvershootType) returns (r: Result<Vec2, LerpError>)
    ensures r == LerpOf(mag, points, t, lerpEndType, lerpOvershootType)
  {
    var edges := BuildEdges(mag, points);
    if lerpEndType == OpenEnded {
      if |edges| == 0 {
        return Failure(EmptyChain);
      }
      edges := edges[..|edges| - 1];
    }
    assert edges == Edges(mag, points, lerpEndType);
    var fraction := Wrap(t, lerpOvershootType);
    var totalEdgeLength := SumLengths(edges);
    r := MapLengthToMatchingEdgePoint(edges, TargetLength(totalEdgeLength, fraction));
    SameEdgesSamePoint(edges, Edges(mag, points, lerpEndType), fraction);
  }

  lemma SameEdgesSamePoint(a: seq<Edge>, b: seq<Edge>, fraction: real)
    requires a == b
    ensures PointAtLength(a, TargetLength(SumLengths(a), fraction)) == PointAtFractionOf(b, fraction)
  {
  }

  /** At t = 0 the interpolation starts at the first point, when the first
      edge has positive length. */
  lemma LerpAtZero(mag: Norm, points: seq<Vec2>, lerpEndType: LerpEndType, lerpOvershootType: LerpOvershootType)
    requires NonNegative(mag)
    requires |points| >= 2 && mag(Sub(points[1], points[0])) > 0.0
    ensures LerpOf(mag, points, 0.0, lerpEndType, lerpOvershootType) == Success(points[0])
  {
    WrapProperties(0.0, lerpOvershootType);
    var edges := Edges(mag, points, lerpEndType);
    EdgesRunAlongTheChain(mag, points, lerpEndType, 0);
    NonPositiveFractionGivesFirstPoint(edges, 0.0);
  }

  /** Whole turns do not matter: t and its wrapped value give the same point,
      and so do t and t + 1 (`Cyclic`) or t and t + 2 (`PingPong`). */
  lemma LerpIgnoresWholeTurns(mag: Norm, points: seq<Vec2>, t: real, lerpEndType: LerpEndType,
                              lerpOvershootType: LerpOvershootType)
    ensures LerpOf(mag, points, Wrap(t, lerpOvershootType), lerpEndType, lerpOvershootType)
         == LerpOf(mag, points, t, lerpEndType, lerpOvershootType)
    ensures lerpOvershootType == Cyclic ==>
      LerpOf(mag, points, t + 1.0, lerpEndType, Cyclic) == LerpOf(mag, points, t, lerpEndType, Cyclic)
    ensures lerpOvershootType == PingPong ==>
      LerpOf(mag, points, t + 2.0, lerpEndType, PingPong) == LerpOf(mag, points, t, lerpEndType, PingPong)
  {
    WrapProperties(t, lerpOvershootType);
  }

  /** Inside one turn both overshoot modes give the same point: `PingPong`
      only differs once t leaves [0, 1]. */
  lemma PingPongAgreesWithinOneTurn(mag: Norm, points: seq<Vec2>, t: real, lerpEndType: LerpEndType)
    requires 0.0 <= t < 1.0
    ensures LerpOf(mag, points, t, lerpEndType, PingPong) == LerpOf(mag, points, t, lerpEndType, Cyclic)
  {
    WrapProperties(t, PingPong);
    WrapProperties(t, Cyclic);
  }

  /** The interpolated point, when there is one, lies on an edge of the chain. */
  lemma LerpLiesOnTheChain(mag: Norm, points: seq<Vec2>, t: real, lerpEndType: LerpEndType,
                           lerpOvershootType: LerpOvershootType)
    requires LerpOf(mag, points, t, lerpEndType, lerpOvershootType).Success?
    ensures exists k, s :: (0 <= k < |Edges(mag, points, lerpEndType)| && 0.0 <= s <= 1.0
      && LerpOf(mag, points, t, lerpEndType, lerpOvershootType).value == Edges(mag, points, lerpEndType)[k].Lerp(s))
  {
    var edges := Edges(mag, points, lerpEndType);
    assert LerpOf(mag, points, t, lerpEndType, lerpOvershootType) == PointAtFractionOf(edges, Wrap(t, lerpOvershootType));
    FractionLiesOnAnEdge(edges, Wrap(t, lerpOvershootType));
  }

  /** A chain with at least one edge and non-negative lengths always has a
      matching edge: the only failure left is the undefined point on a chain
      of zero length. */
  lemma LerpFindsAnEdge(mag: Norm, points: seq<Vec2>, t: real, lerpEndType: LerpEndType,
                        lerpOvershootType: LerpOvershootType)
    requires NonNegative(mag)
    requires |points| > 0 && (lerpEndType == OpenEnded ==> |points| > 1)
    ensures LerpOf(mag, points, t, lerpEndType, lerpOvershootType) != Failure(NoMatchingEdge)
    ensures LerpOf(mag, points, t, lerpEndType, lerpOvershootType) != Failure(EmptyChain)
  {
    var edges := Edges(mag, points, lerpEndType);
    EdgeLengthsNonNegative(mag, points, lerpEndType);
    FractionFindsAnEdge(edges, Wrap(t, lerpOvershootType));
    assert LerpOf(mag, points, t, lerpEndType, lerpOvershootType) == PointAtFractionOf(edges, Wrap(t, lerpOvershootType));
  }

  lemma TotalNonNegative(edges: seq<Edge>)
    requires NonNegativeLengths(edges)
    ensures SumLengths(edges) >= 0.0
  {
    SumLengthsPrefixMonotone(edges, 0, |edges|);
    assert edges[..0] == [] && edges[..|edges|] == edges;
  }

  lemma ScaledWithin(total: real, w: real)
    requires total >= 0.0 && 0.0 <= w <= 1.0
    ensures 0.0 <= TargetLength(total, w) <= total
  {
  }

  // ---- the written code, against the intended behaviour ----

  /** As written, `PingPong` makes every t collapse to the start of the
      chain: the negated remainder is never positive, so the target length
      is never past the first edge's start. Intended (`Wrap`): t = 0.5 is
      half way round. */
  lemma PingPongAsWrittenCollapses(mag: Norm, points: seq<Vec2>, t: real, lerpEndType: LerpEndType)
    requires NonNegative(mag)
    requires |points| >= 2 && points[0] != points[1] && mag(Sub(points[1], points[0])) > 0.0
    ensures LerpAsWritten(mag, points, t, lerpEndType, PingPong) == Success(points[0])
  {
    var w := WrapAsWritten(t, PingPong);
    assert w <= 0.0;
    AsWrittenNonPositiveFraction(mag, points, lerpEndType, w);
  }

  /** As written, `Cyclic` sends every negative t to the start of the chain,
      because the truncating remainder keeps its sign. Intended (`Wrap`): t
      counts the same as t + 1. */
  lemma NegativeCyclicAsWrittenCollapses(mag: Norm, points: seq<Vec2>, t: real, lerpEndType: LerpEndType)
    requires NonNegative(mag)
    requires |points| >= 2 && points[0] != points[1] && mag(Sub(points[1], points[0])) > 0.0
    requires t < 0.0
    ensures LerpAsWritten(mag, points, t, lerpEndType, Cyclic) == Success(points[0])
  {
    var w := WrapAsWritten(t, Cyclic);
    assert w <= 0.0;
    AsWrittenNonPositiveFraction(mag, points, lerpEndType, w);
  }

  lemma AsWrittenNonPositiveFraction(mag: Norm, points: seq<Vec2>, lerpEndType: LerpEndType, w: real)
    requires NonNegative(mag)
    requires |points| >= 2 && points[0] != points[1] && mag(Sub(points[1], points[0])) > 0.0
    requires w <= 0.0
    ensures PointAtFractionOf(EdgesAsWritten(mag, points, lerpEndType), w) == Success(points[0])
  {
    AsWrittenFirstEdge(mag, points, lerpEndType);
    AsWrittenLengthsNonNegative(mag, points, lerpEndType);
    NonPositiveFractionGivesFirstPoint(EdgesAsWritten(mag, points, lerpEndType), w);
  }

  lemma NonPositiveTarget(total: real, w: real)
    requires total >= 0.0 && w <= 0.0
    ensures TargetLength(total, w) <= 0.0
  {
  }

  lemma AsWrittenFirstEdge(mag: Norm, points: seq<Vec2>, lerpEndType: LerpEndType)
    requires |points| >= 2 && points[0] != points[1]
    ensures var edges := EdgesAsWritten(mag, points, lerpEndType);
      |edges| > 0 && edges[0] == MakeEdge(mag, points[0], points[1])
  {
    var closed := ClosedEdges(mag, points);
    assert closed[0].end == points[1];
    assert closed[|closed| - 1].end == points[0];
    var k := Lists.IndexOf(closed, closed[|closed| - 1]);
    assert k != 0;
  }

  lemma AsWrittenLengthsNonNegative(mag: Norm, points: seq<Vec2>, lerpEndType: LerpEndType)
    requires NonNegative(mag)
    requires |points| > 0
    ensures NonNegativeLengths(EdgesAsWritten(mag, points, lerpEndType))
  {
    var closed := ClosedEdges(mag, points);
    var k := Lists.IndexOf(closed, closed[|closed| - 1]);
    if lerpEndType == OpenEnded && k < |closed| {
      var r := OpenEdgesAsWritten(mag, points);
      forall i | 0 <= i < |r| ensures r[i].length >= 0.0 {
        if i < k { assert r[i] == closed[i]; } else { assert r[i] == closed[i + 1]; }
      }
    }
  }

  /** The chain (0,0), (1,0), (0,0), (1,0) walked open: its closing edge
      (1,0) -> (0,0) also occurs as the second edge, which is the one the
      written code removes. A fraction 0.4 of the length 3 is 1.2: as written
      it lands on the third edge (0,0) -> (1,0) at (0.2, 0); intended, it
      lands on the second edge (1,0) -> (0,0) at (0.8, 0). */
  lemma RemoveTakesTheWrongEdge(mag: Norm)
    requires mag(Vec2(1.0, 0.0)) == 1.0 && mag(Vec2(-1.0, 0.0)) == 1.0
    ensures var points := [Vec2(0.0, 0.0), Vec2(1.0, 0.0), Vec2(0.0, 0.0), Vec2(1.0, 0.0)];
      && LerpAsWritten(mag, points, 0.4, OpenEnded, Cyclic) == Success(Vec2(0.2, 0.0))
      && LerpOf(mag, points, 0.4, OpenEnded, Cyclic) == Success(Vec2(0.8, 0.0))
  {
    assert [Vec2(0.0, 0.0), Vec2(1.0, 0.0), Vec2(0.0, 0.0), Vec2(1.0, 0.0)] == SamplePoints;
    SampleEdges(mag);
    SampleWrap();
    SampleLookupAsWritten();
    SampleLookupIntended();
    assert EdgesAsWritten(mag, SamplePoints, OpenEnded) == [Forward, Forward, Back];
    assert Edges(mag, SamplePoints, OpenEnded) == [Forward, Back, Forward];
  }

  const SamplePoints := [Vec2(0.0, 0.0), Vec2(1.0, 0.0), Vec2(0.0, 0.0), Vec2(1.0, 0.0)]
  const Forward := Edge(Vec2(0.0, 0.0), Vec2(1.0, 0.0), 1.0)
  const Back := Edge(Vec2(1.0, 0.0), Vec2(0.0, 0.0), 1.0)

  /** Both wraps leave 0.4 as it is. */
  lemma SampleWrap()
    ensures WrapAsWritten(0.4, Cyclic) == 0.4
    ensures Wrap(0.4, Cyclic) == 0.4
  {
    assert (0.4).Floor == 0;
    assert TruncateTowardZero(0.4) == 0;
  }

  /** The edges of the sample chain: as written the second edge goes, as
      intended the fourth. */
  lemma SampleEdges(mag: Norm)
    requires mag(Vec2(1.0, 0.0)) == 1.0 && mag(Vec2(-1.0, 0.0)) == 1.0
    ensures OpenEdgesAsWritten(mag, SamplePoints) == [Forward, Forward, Back]
    ensures OpenEdges(mag, SamplePoints) == [Forward, Back, Forward]
  {
    SampleClosedEdges(mag);
    var closed := [Forward, Back, Forward, Back];
    assert Lists.IndexOf(closed, Back) == 1 by {
      assert closed[0] != Back && closed[1] == Back;
      assert closed[1..][0] == Back;
    }
    assert closed[..1] + closed[2..] == [Forward, Forward, Back];
  }

  /** The closing edge of the sample chain is also its second edge. */
  lemma SampleClosedEdges(mag: Norm)
    requires mag(Vec2(1.0, 0.0)) == 1.0 && mag(Vec2(-1.0, 0.0)) == 1.0
    ensures ClosedEdges(mag, SamplePoints) == [Forward, Back, Forward, Back]
  {
    SampleEdgeAt(mag, 0);
    SampleEdgeAt(mag, 1);
    SampleEdgeAt(mag, 2);
    SampleEdgeAt(mag, 3);
    assert |ClosedEdges(mag, SamplePoints)| == 4;
  }

  /** Edge i of the sample chain goes forward for even i and back for odd i. */
  lemma SampleEdgeAt(mag: Norm, i: nat)
    requires mag(Vec2(1.0, 0.0)) == 1.0 && mag(Vec2(-1.0, 0.0)) == 1.0
    requires i < 4
    ensures ClosedEdges(mag, SamplePoints)[i] == if i % 2 == 0 then Forward else Back
  {
    var p := SamplePoints;
    if i % 2 == 0 {
      assert p[i] == Vec2(0.0, 0.0) && Boundary.ElementAfter(p, i) == Vec2(1.0, 0.0);
      assert Sub(Vec2(1.0, 0.0), Vec2(0.0, 0.0)) == Vec2(1.0, 0.0);
    } else {
      assert p[i] == Vec2(1.0, 0.0) && Boundary.ElementAfter(p, i) == Vec2(0.0, 0.0);
      assert Sub(Vec2(0.0, 0.0), Vec2(1.0, 0.0)) == Vec2(-1.0, 0.0);
    }
  }

  /** A fraction 0.4 along the written edges is 0.2 into the second, forward edge. */
  lemma SampleLookupAsWritten()
    ensures PointAtFractionOf([Forward, Forward, Back], 0.4) == Success(Vec2(0.2, 0.0))
  {
    UnitSums([Forward, Forward, Back]);
    LookupOnSecondEdge([Forward, Forward, Back]);
    assert Forward.Lerp(0.2) == Vec2(0.2, 0.0) by { assert Clamp01(0.2) == 0.2; }
  }

  /** A fraction 0.4 along the intended edges is 0.2 into the second, backward edge. */
  lemma SampleLookupIntended()
    ensures PointAtFractionOf([Forward, Back, Forward], 0.4) == Success(Vec2(0.8, 0.0))
  {
    UnitSums([Forward, Back, Forward]);
    LookupOnSecondEdge([Forward, Back, Forward]);
    assert Back.Lerp(0.2) == Vec2(0.8, 0.0) by { assert Clamp01(0.2) == 0.2; }
  }

  /** On three unit edges, 0.4 of the way is 0.2 into the second edge. */
  lemma LookupOnSecondEdge(edges: seq<Edge>)
    requires |edges| == 3 && edges[1].length == 1.0
    requires SumLengths(edges) == 3.0 && CumulativeLengths(edges) == [1.0, 2.0, 3.0]
    ensures PointAtFractionOf(edges, 0.4) == Success(edges[1].Lerp(0.2))
  {
    assert TargetLength(3.0, 0.4) == 1.2;
    assert FindIndexAtLeast([1.0, 2.0, 3.0], 1.2) == 1 by {
      assert [1.0, 2.0, 3.0][1..] == [2.0, 3.0];
    }
    assert 1.0 - (2.0 - 1.2) / 1.0 == 0.2;
  }

  /** Three unit edges have the running sums 1, 2 and 3. */
  lemma UnitSums(edges: seq<Edge>)
    requires |edges| == 3
    requires edges[0].length == 1.0 && edges[1].length == 1.0 && edges[2].length == 1.0
    ensures SumLengths(edges) == 3.0 && CumulativeLengths(edges) == [1.0, 2.0, 3.0]
  {
    assert edges[..1][..0] == [];
    assert SumLengths(edges[..1]) == 1.0;
    assert edges[..2][..1] == edges[..1];
    assert SumLengths(edges[..2]) == 2.0;
    assert edges[..3][..2] == edges[..2];
    assert edges[..3] == edges;
  }
}
