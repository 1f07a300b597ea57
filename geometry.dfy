/** Geographic points and the straight-line interpolation the route walk uses between two vertices. */
module Geometry {

  /** A latitude/longitude pair in degrees, as a google.maps.LatLng carries it. */
  datatype LatLng = LatLng(lat: real, lng: real)

  /**
   * The spherical distance between two points, in metres. The mapping library computes it in
   * floating point; here it is whatever function the caller supplies.
   */
  type Metric = (LatLng, LatLng) -> real

  /** Every distance the metric reports is non-negative, as a great-circle distance is. */
  ghost predicate NonNegative(segLen: Metric)
  {
    forall a, b :: segLen(a, b) >= 0.0
  }

  /** x lies between a and b, whichever of the two is larger. */
  predicate Between(a: real, b: real, x: real)
  {
    (a <= x <= b) || (b <= x <= a)
  }

  /**
   * The point the fraction m of the way from p1 to p2, component-wise on latitude and longitude
   * (a linear interpolation in coordinates, not along the great circle).
   */
  function Interpolate(p1: LatLng, p2: LatLng, m: real): (r: LatLng)
    ensures m == 0.0 ==> r == p1
    ensures m == 1.0 ==> r == p2
  {
    LatLng(p1.lat + (p2.lat - p1.lat) * m, p1.lng + (p2.lng - p1.lng) * m)
  }

  /** Moving a fraction in [0, 1] of the way from a to b stays between a and b. */
  lemma ScaledOffsetBetween(a: real, b: real, m: real)
    requires 0.0 <= m <= 1.0
    ensures Between(a, b, a + (b - a) * m)
  {
    var d := b - a;
    assert d - d * m == d * (1.0 - m);
    if d >= 0.0 {
      assert 0.0 <= d * m && 0.0 <= d * (1.0 - m);
    } else {
      assert d * m <= 0.0 && d * (1.0 - m) <= 0.0;
    }
  }

  /** An interpolated point lies in the box spanned by the two end points. */
  lemma InterpolateBetween(p1: LatLng, p2: LatLng, m: real)
    requires 0.0 <= m <= 1.0
    ensures Between(p1.lat, p2.lat, Interpolate(p1, p2, m).lat)
    ensures Between(p1.lng, p2.lng, Interpolate(p1, p2, m).lng)
  {
    ScaledOffsetBetween(p1.lat, p2.lat, m);
    ScaledOffsetBetween(p1.lng, p2.lng, m);
  }
}
