/**
 * The two queries the application attaches to the map polyline: the point a given number of
 * metres along the path, and the vertex count reached at that distance. Both walk the path from
 * vertex 0, summing segment lengths until the running total reaches the requested distance.
 */
module Polyline {
  import opened Wrappers
  import opened Geometry

  /** What GetPointAtDistance hands back: a point, null (NoPoint), or undefined (getAt(0) of an empty path). */
  datatype PointResult = Point(p: LatLng) | NoPoint | Undefined

  /**
   * What GetIndexAtDistance hands back. At zero metres the source returns the path's first vertex
   * object (undefined when the path is empty) instead of a number; otherwise a vertex count or null (NoIndex).
   */
  datatype IndexResult = Vertex(v: Option<LatLng>) | Index(i: nat) | NoIndex

  /** getAt(i) of the path: the vertex, or undefined past the end. */
  function GetAt(path: seq<LatLng>, i: nat): Option<LatLng>
  {
    if i < |path| then Some(path[i]) else None
  }

  /**
   * Cumulative distance from vertex 0 to vertex k: the sum of the segment lengths, each measured
   * from vertex j to vertex j - 1 as the walk measures it.
   */
  function Cum(path: seq<LatLng>, segLen: Metric, k: nat): real
    requires k < |path|
  {
    if k == 0 then 0.0 else Cum(path, segLen, k - 1) + segLen(path[k], path[k - 1])
  }

  /** With no negative segment, the cumulative distance to any vertex is not negative. */
  lemma {:induction false} CumNonNegative(path: seq<LatLng>, segLen: Metric, k: nat)
    requires k < |path|
    ensures NonNegative(segLen) ==> Cum(path, segLen, k) >= 0.0
  {
    if k > 0 {
      CumNonNegative(path, segLen, k - 1);
    }
  }

  /**
   * The length of the whole path (what computeLength reports): the cumulative distance to the last
   * vertex, zero for fewer than two vertices and never negative when no segment is.
   */
  function PathLength(path: seq<LatLng>, segLen: Metric): (r: real)
    ensures |path| < 2 ==> r == 0.0
    ensures NonNegative(segLen) ==> r >= 0.0
  {
    if |path| == 0 then 0.0
    else
      CumNonNegative(path, segLen, |path| - 1);
      Cum(path, segLen, |path| - 1)
  }

  /** The first vertex at or after `from` whose cumulative distance reaches `metres`, if any. */
  function FirstReaching(path: seq<LatLng>, segLen: Metric, metres: real, from: nat): (r: Option<nat>)
    decreases |path| - from
    ensures r.Some? ==> from <= r.value < |path| && Cum(path, segLen, r.value) >= metres
    ensures r.Some? ==> forall l :: from <= l < r.value ==> Cum(path, segLen, l) < metres
    ensures r.None? ==> forall l :: from <= l < |path| ==> Cum(path, segLen, l) < metres
  {
    if from >= |path| then None
    else if Cum(path, segLen, from) >= metres then Some(from)
    else FirstReaching(path, segLen, metres, from + 1)
  }

  /**
   * The reference meaning of GetPointAtDistance. At zero metres, the first vertex. For a negative
   * distance or a path of fewer than two vertices, null. Otherwise the first vertex k from 1 on
   * whose cumulative distance reaches `metres` brackets the distance with k - 1, and the result is
   * interpolated between them; with no such vertex, null.
   */
  function PointAtDistance(path: seq<LatLng>, segLen: Metric, metres: real): PointResult
  {
    if metres == 0.0 then
      (match GetAt(path, 0) case Some(p) => Point(p) case None => Undefined)
    else if metres < 0.0 || |path| < 2 then NoPoint
    else
      match FirstReaching(path, segLen, metres, 1)
      case None => NoPoint
      case Some(k) =>
        var before := Cum(path, segLen, k - 1);
        var at := Cum(path, segLen, k);
        Point(Interpolate(path[k - 1], path[k], (metres - before) / (at - before)))
  }

  /**
   * The reference meaning of GetIndexAtDistance. At zero metres, the first vertex object; for a
   * negative distance, null. Otherwise one more than the first vertex from 1 on whose cumulative
   * distance reaches `metres`, or null when none does (always so for fewer than two vertices).
   */
  function IndexAtDistance(path: seq<LatLng>, segLen: Metric, metres: real): IndexResult
  {
    if metres == 0.0 then Vertex(GetAt(path, 0))
    else if metres < 0.0 then NoIndex
    else
      match FirstReaching(path, segLen, metres, 1)
      case None => NoIndex
      case Some(k) => Index(k + 1)
  }

  /** The walk of GetPointAtDistance, carrying currentDistance, oldDistance and i. */
  method GetPointAtDistance(path: seq<LatLng>, segLen: Metric, metres: real) returns (r: PointResult)
    ensures r == PointAtDistance(path, segLen, metres)
  {
    if metres == 0.0 {
      if |path| > 0 {
        return Point(path[0]);
      }
      return Undefined;
    }
    if metres < 0.0 || |path| < 2 {
      return NoPoint;
    }
    var currentDistance := 0.0;
    var oldDistance := 0.0;
    var i := 1;
    while i < |path| && currentDistance < metres
      invariant 1 <= i <= |path|
      invariant currentDistance == Cum(path, segLen, i - 1)
      invariant i >= 2 ==> oldDistance == Cum(path, segLen, i - 2)
      invariant forall l :: 1 <= l < i - 1 ==> Cum(path, segLen, l) < metres
    {
      oldDistance := currentDistance;
      currentDistance := currentDistance + segLen(path[i], path[i - 1]);
      i := i + 1;
    }
    if currentDistance < metres {
      return NoPoint;
    }
    var p1 := path[i - 2];
    var p2 := path[i - 1];
    var m := (metres - oldDistance) / (currentDistance - oldDistance);
    r := Point(Interpolate(p1, p2, m));
  }

  /** The walk of GetIndexAtDistance, carrying currentDistance and i. */
  method GetIndexAtDistance(path: seq<LatLng>, segLen: Metric, metres: real) returns (r: IndexResult)
    ensures r == IndexAtDistance(path, segLen, metres)
  {
    if metres == 0.0 {
      if |path| > 0 {
        return Vertex(Some(path[0]));
      }
      return Vertex(None);
    }
    if metres < 0.0 {
      return NoIndex;
    }
    var currentDistance := 0.0;
    var i := 1;
    while i < |path| && currentDistance < metres
      invariant 1 <= i
      invariant i <= |path| || (i == 1 && |path| <= 1)
      invariant i <= |path| ==> currentDistance == Cum(path, segLen, i - 1)
      invariant i > |path| ==> currentDistance == 0.0
      invariant forall l :: 1 <= l < i - 1 ==> Cum(path, segLen, l) < metres
    {
      currentDistance := currentDistance + segLen(path[i], path[i - 1]);
      i := i + 1;
    }
    if currentDistance < metres {
      return NoIndex;
    }
    r := Index(i);
  }

  /** Cumulative distance never decreases along the path when no segment is negative. */
  lemma {:induction false} CumMonotone(path: seq<LatLng>, segLen: Metric, j: nat, k: nat)
    requires NonNegative(segLen)
    requires j <= k < |path|
    ensures Cum(path, segLen, j) <= Cum(path, segLen, k)
  {
    if j < k {
      CumMonotone(path, segLen, j, k - 1);
      assert segLen(path[k], path[k - 1]) >= 0.0;
    }
  }

  /** The length of the path bounds the cumulative distance to every vertex. */
  lemma CumAtMostLength(path: seq<LatLng>, segLen: Metric, k: nat)
    requires NonNegative(segLen)
    requires k < |path|
    ensures 0.0 <= Cum(path, segLen, k) <= PathLength(path, segLen)
  {
    CumMonotone(path, segLen, 0, k);
    CumMonotone(path, segLen, k, |path| - 1);
  }

  /**
   * The special cases at the head of GetPointAtDistance: zero metres gives vertex 0 (undefined on an
   * empty path, even on a one-vertex path it is that vertex), a negative distance or a path of fewer
   * than two vertices gives null.
   */
  lemma PointAtDistanceSpecialCases(path: seq<LatLng>, segLen: Metric, metres: real)
    ensures metres == 0.0 && |path| > 0 ==> PointAtDistance(path, segLen, metres) == Point(path[0])
    ensures metres == 0.0 && |path| == 0 ==> PointAtDistance(path, segLen, metres) == Undefined
    ensures metres < 0.0 ==> PointAtDistance(path, segLen, metres) == NoPoint
    ensures metres != 0.0 && |path| < 2 ==> PointAtDistance(path, segLen, metres) == NoPoint
  {
  }

  /**
   * For a positive distance the point query succeeds exactly when the distance is within the path's
   * length and the path has two vertices; the index query exactly when the distance is within the
   * length (a path of fewer than two vertices has length zero).
   */
  lemma DefinedIffWithinLength(path: seq<LatLng>, segLen: Metric, metres: real)
    requires NonNegative(segLen)
    requires metres > 0.0
    ensures PointAtDistance(path, segLen, metres).Point? <==> |path| >= 2 && metres <= PathLength(path, segLen)
    ensures IndexAtDistance(path, segLen, metres).Index? <==> metres <= PathLength(path, segLen)
  {
    var n := |path|;
    var r := FirstReaching(path, segLen, metres, 1);
    if n >= 2 {
      if r.Some? {
        CumAtMostLength(path, segLen, r.value);
      } else {
        assert Cum(path, segLen, n - 1) < metres;
      }
    }
  }

  /** Past the end of the path, both queries give null. */
  lemma BeyondEndIsNull(path: seq<LatLng>, segLen: Metric, metres: real)
    requires NonNegative(segLen)
    requires metres > 0.0 && metres > PathLength(path, segLen)
    ensures PointAtDistance(path, segLen, metres) == NoPoint
    ensures IndexAtDistance(path, segLen, metres) == NoIndex
  {
    DefinedIffWithinLength(path, segLen, metres);
  }

  /** A positive part of a positive whole is a fraction in (0, 1]. */
  lemma FractionInUnitInterval(part: real, whole: real)
    requires 0.0 < part <= whole
    ensures 0.0 < part / whole <= 1.0
  {
    var m := part / whole;
    assert m * whole == part;
  }

  /**
   * When the point query succeeds on a positive distance, the walk has just crossed it: the two
   * vertices k - 1 and k bracket `metres` strictly below and from above, so the divisor
   * currentDistance - oldDistance is positive and the fraction m lies in (0, 1]. A zero-length
   * segment is never the bracketing one.
   */
  lemma WalkBracketsMetres(path: seq<LatLng>, segLen: Metric, metres: real)
    requires metres > 0.0 && PointAtDistance(path, segLen, metres).Point?
    ensures FirstReaching(path, segLen, metres, 1).Some?
    ensures var k := FirstReaching(path, segLen, metres, 1).value;
      && 1 <= k < |path|
      && Cum(path, segLen, k - 1) < metres <= Cum(path, segLen, k)
      && Cum(path, segLen, k) - Cum(path, segLen, k - 1) > 0.0
      && 0.0 < (metres - Cum(path, segLen, k - 1)) / (Cum(path, segLen, k) - Cum(path, segLen, k - 1)) <= 1.0
  {
    var k := FirstReaching(path, segLen, metres, 1).value;
    var before := Cum(path, segLen, k - 1);
    var at := Cum(path, segLen, k);
    if k >= 2 {
      assert before < metres;
    }
    FractionInUnitInterval(metres - before, at - before);
  }

  /**
   * A successful point lies on the segment from vertex k - 1 to vertex k that brackets the distance:
   * it is their interpolation, and its latitude and longitude lie between theirs.
   */
  lemma PointLiesOnBracketingSegment(path: seq<LatLng>, segLen: Metric, metres: real)
    requires metres > 0.0 && PointAtDistance(path, segLen, metres).Point?
    ensures FirstReaching(path, segLen, metres, 1).Some?
    ensures var k := FirstReaching(path, segLen, metres, 1).value;
      var p := PointAtDistance(path, segLen, metres).p;
      && 1 <= k < |path|
      && Between(path[k - 1].lat, path[k].lat, p.lat)
      && Between(path[k - 1].lng, path[k].lng, p.lng)
  {
    WalkBracketsMetres(path, segLen, metres);
    var k := FirstReaching(path, segLen, metres, 1).value;
    var before := Cum(path, segLen, k - 1);
    var at := Cum(path, segLen, k);
    InterpolateBetween(path[k - 1], path[k], (metres - before) / (at - before));
  }

  /** When the distance lands exactly on the first vertex that reaches it, the point is that vertex. */
  lemma PointAtReachedVertex(path: seq<LatLng>, segLen: Metric, metres: real, k: nat)
    requires metres > 0.0 && |path| >= 2
    requires FirstReaching(path, segLen, metres, 1) == Some(k)
    requires Cum(path, segLen, k) == metres
    ensures PointAtDistance(path, segLen, metres) == Point(path[k])
  {
    var before := Cum(path, segLen, k - 1);
    if k >= 2 {
      assert before < metres;
    }
    assert (metres - before) / (metres - before) == 1.0;
  }

  /**
   * For a positive distance a successful index i satisfies 2 <= i <= |path|, vertex i - 1 is the
   * first vertex whose cumulative distance reaches `metres`, and null means no vertex reaches it.
   */
  lemma IndexIsFirstReaching(path: seq<LatLng>, segLen: Metric, metres: real)
    requires metres > 0.0
    ensures IndexAtDistance(path, segLen, metres).Index? ==>
      var i := IndexAtDistance(path, segLen, metres).i;
      && 2 <= i <= |path|
      && Cum(path, segLen, i - 1) >= metres
      && forall l :: 0 <= l < i - 1 ==> Cum(path, segLen, l) < metres
    ensures IndexAtDistance(path, segLen, metres) == NoIndex <==>
      forall l :: 0 <= l < |path| ==> Cum(path, segLen, l) < metres
  {
    if 0 < |path| {
      assert Cum(path, segLen, 0) == 0.0;
    }
  }

  /** The vertex count never decreases as the distance grows. */
  lemma IndexMonotone(path: seq<LatLng>, segLen: Metric, a: real, b: real)
    requires 0.0 < a <= b
    requires IndexAtDistance(path, segLen, b).Index?
    ensures IndexAtDistance(path, segLen, a).Index?
    ensures IndexAtDistance(path, segLen, a).i <= IndexAtDistance(path, segLen, b).i
  {
    var kb := FirstReaching(path, segLen, b, 1).value;
    assert Cum(path, segLen, kb) >= a;
  }

  /**
   * On the same positive distance over a path of two or more vertices, the two queries agree: one
   * succeeds exactly when the other does, and the point is interpolated between vertices i - 2 and
   * i - 1, where i is the index, by the fraction the walk computes.
   */
  lemma PointAndIndexAgree(path: seq<LatLng>, segLen: Metric, metres: real)
    requires metres > 0.0 && |path| >= 2
    ensures PointAtDistance(path, segLen, metres).Point? <==> IndexAtDistance(path, segLen, metres).Index?
    ensures IndexAtDistance(path, segLen, metres).Index? ==>
      var i := IndexAtDistance(path, segLen, metres).i;
      && 2 <= i <= |path|
      && Cum(path, segLen, i - 2) < metres <= Cum(path, segLen, i - 1)
      && PointAtDistance(path, segLen, metres).p
         == Interpolate(path[i - 2], path[i - 1],
                        (metres - Cum(path, segLen, i - 2)) / (Cum(path, segLen, i - 1) - Cum(path, segLen, i - 2)))
  {
    if IndexAtDistance(path, segLen, metres).Index? {
      WalkBracketsMetres(path, segLen, metres);
    }
  }
}
