# MapMe route walk, in Dafny

MapMe shows a group of athletes moving along a shared route. Its front end builds one polyline
from a directions response and puts each athlete's marker on it. The marker goes at the point their
yearly running total reaches along the route. A second, shorter polyline draws their progress up to
the vertex they have reached. This project models that front-end logic and proves properties of it:

- the two polyline queries, `GetPointAtDistance` and `GetIndexAtDistance` (module `Polyline`). Each
  is written as a method with the loop of src/script.js, and proved equal to a reference function
  (`PointAtDistance`, `IndexAtDistance`). The reference functions are defined by the cumulative
  distance `Cum` and by `FirstReaching`, the first vertex whose cumulative distance reaches the
  requested metres;
- the interpolation between two vertices (module `Geometry`);
- the flattening of a directions response into the route polyline, with the route's start, end and
  length (class `Route.RouteState`; its method `PushSteps` holds the two inner loops over steps and points), and the choice of a marker position (`Route.PositionOnRoute`);
- the athlete's distance for the map's year (module `Athletes`);
- the choice of nearest locality and country from a reverse-geocoding response (module `Geocode`);
- the lookup of the map code from the URL fragment or local storage (module `MapCode`).

The segment length the mapping library computes (a great-circle distance, in floating point) is a
parameter `segLen: Metric`. It is called with the same arguments as in the source: vertex `i`, then
vertex `i - 1`. The route length that the library's `computeLength` reports is modelled as
`PathLength`, the sum of the same segment lengths. Distances are `real`s. Where a lemma needs
segment lengths to be non-negative, it says so with `NonNegative(segLen)`.

Points of src/script.js that the model keeps as written:

- At zero metres the point query returns `getAt(0)`. That is undefined on an empty path
  (`Undefined`); on a one-vertex path it is that vertex.
- At zero metres the index query returns the first vertex object, not `0` (`Vertex(...)`).
- The index query has no fewer-than-two-vertices guard. For a positive distance such a path still
  gives null: the loop never runs and 0 is less than the distance.
- For a positive distance the index is one more than the first vertex whose cumulative distance
  reaches the distance; it is not that vertex.
- No guard against zero-length segments is needed: `WalkBracketsMetres` proves that the divisor at
  src/script.js:599 is positive.
- At exactly the route's length, the point query returns the first vertex whose cumulative distance
  reaches that length (`PointAtReachedVertex`). If the path ends in zero-length segments, that vertex
  comes before the last one.
- `lookupMapCode` accepts "#/" anywhere in the fragment, and it always drops the fragment's first
  two characters.
- `reverseGeoCodeLookups` throws on a results list that exists but is empty (`TypeError`).

## Model

| member | source | states |
|---|---|---|
| `Polyline.GetPointAtDistance` | src/script.js:575-601 | the walk that carries currentDistance, oldDistance and i returns exactly the reference point `PointAtDistance`; every division it does is by a non-zero segment length |
| `Polyline.GetIndexAtDistance` | src/script.js:605-626 | the walk that carries currentDistance and i returns exactly the reference result `IndexAtDistance`, including the vertex object at zero metres |
| `Polyline.FirstReaching` | src/script.js:588-591 | the vertex the walk stops at: the first one from `from` on whose cumulative distance reaches the metres, every earlier one stays below; none means no vertex reaches it |
| `Polyline.PathLength` | src/script.js:379 | the route length is the cumulative distance to the last vertex: zero for fewer than two vertices, never negative when no segment is |
| `Polyline.CumMonotone` | src/script.js:588-591 | with non-negative segment lengths, cumulative distance never decreases along the path, zero-length segments included |
| `Polyline.CumAtMostLength` | src/script.js:379 | every vertex's cumulative distance lies between 0 and the path length |
| `Polyline.PointAtDistanceSpecialCases` | src/script.js:577-583 | zero metres gives vertex 0 (undefined on an empty path); a negative distance, or a non-zero one on a path of fewer than two vertices, gives null |
| `Polyline.DefinedIffWithinLength` | src/script.js:585-623 | for positive metres, the point is defined exactly when the path has two vertices and metres is at most the path length; the index exactly when metres is at most the length |
| `Polyline.BeyondEndIsNull` | src/script.js:585-623 | for positive metres past the path length, both queries give null, for paths of 0 or 1 vertices too |
| `Polyline.WalkBracketsMetres` | src/script.js:588-599 | on success, the bracketing vertices satisfy oldDistance < metres <= currentDistance, so the divisor is positive and the fraction m lies in (0, 1] |
| `Polyline.PointLiesOnBracketingSegment` | src/script.js:597-600 | the returned point's latitude and longitude lie between those of vertices k - 1 and k of the bracketing segment |
| `Polyline.PointAtReachedVertex` | src/script.js:597-600 | when metres equals the cumulative distance of the first vertex reaching it, the result is exactly that vertex |
| `Polyline.IndexIsFirstReaching` | src/script.js:615-625 | for positive metres a returned index i has 2 <= i <= path length and vertex i - 1 is the first whose cumulative distance reaches metres; null means no vertex reaches it |
| `Polyline.IndexMonotone` | src/script.js:615-625 | for 0 < a <= b, if b gives an index then so does a, and a's index is no larger |
| `Polyline.PointAndIndexAgree` | src/script.js:585-625 | for the same positive metres on a path of two or more vertices, one query succeeds exactly when the other does, and the point interpolates vertices i - 2 and i - 1 where i is the index |
| `Geometry.Interpolate` | src/script.js:600 | the fraction 0 gives the first vertex and 1 the second |
| `Geometry.InterpolateBetween` | src/script.js:600 | a fraction in [0, 1] gives a latitude and a longitude between those of the two vertices |
| `Route.StepsPathAppend` | src/script.js:363-370 | flattening the steps of a leg respects their order: the points of earlier steps come first |
| `Route.LegsPathAppend` | src/script.js:350-371 | flattening legs respects their order: the points of earlier legs come first |
| `Route.StepsPathMembers` | src/script.js:363-370 | a point is on a leg's flattened path exactly when some step of that leg carries it |
| `Route.LegsPathMembers` | src/script.js:350-371 | a point is on the flattened route exactly when some step of some leg carries it |
| `Route.RouteState.constructor` | src/script.js:10-19 | a fresh route has empty start and end, length 0 and an empty polyline |
| `Route.RouteState.PushSteps` | src/script.js:363-370 | the polyline becomes its old points followed by each step's points in step order, then point order; only the polyline changes |
| `Route.RouteState.PlotRoute` | src/script.js:342-385 | on an OK status the polyline becomes its old points followed by every step's points in leg, step, point order; the start comes from the first leg and the end from the last (with no legs neither changes); the length is the polyline's length; otherwise nothing changes |
| `Route.PositionOnRoute` | src/script.js:408 | the route end once the total reaches the stored length, otherwise the walk's point at that total; when the stored length is the polyline's length, the end is set and the total is non-negative, the position is always a defined point |
| `Athletes.AthleteDistanceForYear` | src/script.js:431-438 | the year's full total when that year has stats of type "run", else 0 |
| `Athletes.AthletePositionIsDefined` | src/script.js:398-408 | an athlete whose recorded totals are non-negative always gets a defined marker position on a plotted route: the end once their total reaches the length, otherwise the point that total reaches along the polyline |
| `Geocode.ComponentsOfType` | src/script.js:480-482 | the result holds exactly the components listing the type, and is no longer than the input |
| `Geocode.ComponentsOfTypeAppend` | src/script.js:480-482 | filtering keeps the components' order: filtering a concatenation concatenates the filtered parts |
| `Geocode.FirstIndexOfType` | src/script.js:466-474 | the first component from `from` on that lists the type, with none before it; none means no component lists it |
| `Geocode.ComponentsOfTypeHead` | src/script.js:480-482 | the filtered list is non-empty exactly when some component lists the type, and its head is the first such component |
| `Geocode.ReverseGeocodeLookups` | src/script.js:455-478 | no results give empty names; a present but empty results list throws |
| `Geocode.NearestLocalityAndCountry` | src/script.js:459-476 | on a non-empty results list, the locality is the first "locality" short name of result 0, else the first "postal_town" one, else ""; the country is the first "country" long name, else "" |
| `MapCode.IndexOfFrom` | src/script.js:208 | the first occurrence of the pattern at or after `from`, none earlier; -1 exactly when none occurs |
| `MapCode.LookupMapCode` | src/script.js:206-214 | with "#/" anywhere in the fragment, the fragment after its first two characters; otherwise the stored code (null if none) |
| `MapCode.LinkGivesCode` | src/script.js:206-214 | a fragment "#/" + code, as the map list links write it, gives back exactly that code |

## Left out

- app.js: server routing, OAuth, token refresh and database access; I/O and foreign libraries.
- The spherical-geometry primitives `computeDistanceBetween` and `computeLength`: they become the `segLen` parameter and `PathLength`. Floating-point rounding, NaN and infinities are not modelled; distances are exact reals.
- `PathLength` assumes that `computeLength` sums the same segment lengths the walk sums. The library's own summation order and rounding are not modelled.
- Polyline prototype extension and the mapping library's MVC array: the path is a `seq`, and the queries are methods over it.
- `plotRouteOnMap`'s display calls (`setDirections`, `bounds.extend`, `setMap`, `setCenter`, `fitBounds`, `updateRouteDetailsDistance`) and the loading spinner: these are UI.
- `response.routes[0]`: the model receives the legs of the first route. A response without routes (which throws in the source) is not modelled.
- Script injection, API loading, the fetches, the geocoder and directions calls, and their promises: network and asynchronous plumbing.
- `updateAthleteDistanceLine`'s `slice(0, result)`: JavaScript's conversion of the vertex object and of null to a number is not emulated. The result type records which of the three cases occurred.
- Percentage, popup and marker arithmetic (`toFixed`, `parseFloat`, the `zIndex` bit-shift): floating-point formatting.
- DOM, leaderboard, markers, info windows and `checkUrlExists`: UI and asynchronous callbacks.
- `location.hash` and `localStorage` become the parameters of `LookupMapCode`; the map code's year and the athlete's stats become parameters of `AthleteDistanceForYear`.
- AthleteDistanceForYear: a stats entry without a `full` summary (which would throw) is not modelled, because the datatype always carries one.
