/** An athlete's yearly running total, and where that total puts their marker on the route. */
module Athletes {
  import opened Geometry
  import opened Polyline
  import opened Route

  /** The `full` summary of one year of an athlete's stats document: activity type and total metres. */
  datatype FullStats = FullStats(kind: string, total: real)

  /** One year's entry in the athlete's stats. */
  datatype YearStats = YearStats(full: FullStats)

  /**
   * The distance that counts for the map's year: that year's full total when the year has an entry
   * whose type is "run", and 0 otherwise.
   */
  function AthleteDistanceForYear(stats: map<int, YearStats>, year: int): (r: real)
    ensures year in stats && stats[year].full.kind == "run" ==> r == stats[year].full.total
    ensures year !in stats || stats[year].full.kind != "run" ==> r == 0.0
  {
    if year in stats && stats[year].full.kind == "run" then stats[year].full.total else 0.0
  }

  /** Every year's recorded total is a distance, so not negative. */
  ghost predicate TotalsNonNegative(stats: map<int, YearStats>)
  {
    forall y :: y in stats ==> stats[y].full.total >= 0.0
  }

  /**
   * An athlete whose recorded totals are non-negative always gets a marker position on a plotted
   * route whose stored length is its polyline's length: the end when they have covered the route,
   * otherwise the point their total reaches along the polyline.
   */
  lemma AthletePositionIsDefined(stats: map<int, YearStats>, year: int,
                                 routeDistance: real, routeEnd: Place,
                                 line: seq<LatLng>, segLen: Metric)
    requires TotalsNonNegative(stats)
    requires routeDistance == PathLength(line, segLen)
    requires routeEnd.Place?
    ensures var total := AthleteDistanceForYear(stats, year);
      && PositionOnRoute(total, routeDistance, routeEnd, line, segLen).Point?
      && (total >= routeDistance ==>
            PositionOnRoute(total, routeDistance, routeEnd, line, segLen) == Point(routeEnd.latlng))
      && (total < routeDistance ==>
            PositionOnRoute(total, routeDistance, routeEnd, line, segLen) == PointAtDistance(line, segLen, total))
  {
    var total := AthleteDistanceForYear(stats, year);
    assert total >= 0.0;
  }
}
