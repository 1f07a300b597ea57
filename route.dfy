/**
 * The route held for the current map view: the polyline built from the directions response, its
 * start and end places and its length, and the choice of where an athlete's marker goes on it.
 */
module Route {
  import opened Geometry
  import opened Polyline

  /** One manoeuvre of a directions leg, with its own points. */
  datatype Step = Step(path: seq<LatLng>)

  /** One origin-to-destination leg of the first route in a directions response. */
  datatype Leg = Leg(startLocation: LatLng, startAddress: string,
                     endLocation: LatLng, endAddress: string, steps: seq<Step>)

  /** The route's start or end: empty (the `{}` of a fresh configuration) or a location and address. */
  datatype Place = Unset | Place(latlng: LatLng, address: string)

  /** The points of the steps, step by step and in order within each step. */
  function StepsPath(steps: seq<Step>): seq<LatLng>
  {
    if steps == [] then [] else StepsPath(steps[..|steps| - 1]) + steps[|steps| - 1].path
  }

  /** The points of the legs, leg by leg, then step by step, then in order within each step. */
  function LegsPath(legs: seq<Leg>): seq<LatLng>
  {
    if legs == [] then [] else LegsPath(legs[..|legs| - 1]) + StepsPath(legs[|legs| - 1].steps)
  }

  /** Flattening respects concatenation of step sequences. */
  lemma {:induction false} StepsPathAppend(a: seq<Step>, b: seq<Step>)
    ensures StepsPath(a + b) == StepsPath(a) + StepsPath(b)
    decreases |b|
  {
    if b == [] {
      assert a + b == a;
    } else {
      var last := |b| - 1;
      var ab := a + b;
      assert ab[..|ab| - 1] == a + b[..last];
      assert ab[|ab| - 1] == b[last];
      StepsPathAppend(a, b[..last]);
      calc {
        StepsPath(ab);
        StepsPath(a + b[..last]) + b[last].path;
        StepsPath(a) + StepsPath(b[..last]) + b[last].path;
        StepsPath(a) + (StepsPath(b[..last]) + b[last].path);
        StepsPath(a) + StepsPath(b);
      }
    }
  }

  /** Flattening respects concatenation of leg sequences: earlier legs' points come first. */
  lemma {:induction false} LegsPathAppend(a: seq<Leg>, b: seq<Leg>)
    ensures LegsPath(a + b) == LegsPath(a) + LegsPath(b)
    decreases |b|
  {
    if b == [] {
      assert a + b == a;
    } else {
      var last := |b| - 1;
      var ab := a + b;
      assert ab[..|ab| - 1] == a + b[..last];
      assert ab[|ab| - 1] == b[last];
      LegsPathAppend(a, b[..last]);
      calc {
        LegsPath(ab);
        LegsPath(a + b[..last]) + StepsPath(b[last].steps);
        LegsPath(a) + LegsPath(b[..last]) + StepsPath(b[last].steps);
        LegsPath(a) + (LegsPath(b[..last]) + StepsPath(b[last].steps));
        LegsPath(a) + LegsPath(b);
      }
    }
  }

  /** Flattening one more step appends that step's points. */
  lemma StepsPathSnoc(steps: seq<Step>, j: nat)
    requires j < |steps|
    ensures StepsPath(steps[..j + 1]) == StepsPath(steps[..j]) + steps[j].path
  {
    assert steps[..j + 1][..j] == steps[..j];
  }

  /** Flattening one more leg appends that leg's flattened steps. */
  lemma LegsPathSnoc(legs: seq<Leg>, i: nat)
    requires i < |legs|
    ensures LegsPath(legs[..i + 1]) == LegsPath(legs[..i]) + StepsPath(legs[i].steps)
  {
    assert legs[..i + 1][..i] == legs[..i];
  }

  /** A point is in the flattened steps exactly when some step carries it. */
  lemma {:induction false} StepsPathMembers(steps: seq<Step>, p: LatLng)
    ensures p in StepsPath(steps) <==> exists j :: 0 <= j < |steps| && p in steps[j].path
  {
    if steps != [] {
      var front := steps[..|steps| - 1];
      StepsPathMembers(front, p);
      assert forall j :: 0 <= j < |front| ==> front[j] == steps[j];
    }
  }

  /** A point is in the flattened route exactly when some step of some leg carries it. */
  lemma {:induction false} LegsPathMembers(legs: seq<Leg>, p: LatLng)
    ensures p in LegsPath(legs) <==>
      exists i, j :: 0 <= i < |legs| && 0 <= j < |legs[i].steps| && p in legs[i].steps[j].path
  {
    if legs != [] {
      var front := legs[..|legs| - 1];
      LegsPathMembers(front, p);
      StepsPathMembers(legs[|legs| - 1].steps, p);
      assert forall i :: 0 <= i < |front| ==> front[i] == legs[i];
    }
  }

  /** The `route` part of the page's configuration. */
  class RouteState {
    var start: Place
    var end: Place
    var distance: real
    var line: seq<LatLng>

    /** The route of a fresh configuration: empty places, zero length, an empty polyline. */
    constructor ()
      ensures start == Unset && end == Unset && distance == 0.0 && line == []
    {
      start := Unset;
      end := Unset;
      distance := 0.0;
      line := [];
    }

    /** The two inner loops of the directions callback: push each step's points onto the polyline. */
    method PushSteps(steps: seq<Step>)
      modifies this`line
      ensures line == old(line) + StepsPath(steps)
    {
      var j := 0;
      while j < |steps|
        invariant 0 <= j <= |steps|
        invariant line == old(line) + StepsPath(steps[..j])
      {
        var nextSegment := steps[j].path;
        ghost var stepBefore := line;
        var k := 0;
        while k < |nextSegment|
          invariant 0 <= k <= |nextSegment|
          invariant line == stepBefore + nextSegment[..k]
        {
          line := line + [nextSegment[k]];
          k := k + 1;
        }
        assert nextSegment[..k] == nextSegment;
        StepsPathSnoc(steps, j);
        j := j + 1;
      }
      assert steps[..j] == steps;
    }

    /**
     * The directions callback: when the status is OK, push every point of every step of every leg
     * onto the polyline, take the start from the first leg and the end from the last, and store
     * the polyline's length; otherwise reject and change nothing.
     */
    method PlotRoute(statusOk: bool, legs: seq<Leg>, segLen: Metric) returns (resolved: bool)
      modifies this
      ensures resolved == statusOk
      ensures !statusOk ==>
        start == old(start) && end == old(end) && distance == old(distance) && line == old(line)
      ensures statusOk ==> line == old(line) + LegsPath(legs)
      ensures statusOk ==>
        start == if |legs| > 0 then Place(legs[0].startLocation, legs[0].startAddress) else old(start)
      ensures statusOk ==>
        end == if |legs| > 0 then Place(legs[|legs| - 1].endLocation, legs[|legs| - 1].endAddress)
               else old(end)
      ensures statusOk ==> distance == PathLength(line, segLen)
    {
      if !statusOk {
        return false;
      }
      var i := 0;
      while i < |legs|
        invariant 0 <= i <= |legs|
        invariant line == old(line) + LegsPath(legs[..i])
        invariant start == if i > 0 then Place(legs[0].startLocation, legs[0].startAddress) else old(start)
        invariant end == if i > 0 then Place(legs[i - 1].endLocation, legs[i - 1].endAddress) else old(end)
      {
        if i == 0 {
          start := Place(legs[i].startLocation, legs[i].startAddress);
        }
        end := Place(legs[i].endLocation, legs[i].endAddress);
        PushSteps(legs[i].steps);
        LegsPathSnoc(legs, i);
        i := i + 1;
      }
      assert legs[..i] == legs;
      distance := PathLength(line, segLen);
      return true;
    }
  }

  /**
   * Where an athlete's marker goes: the route end once their total reaches the route's length,
   * otherwise the point that far along the polyline. On a route whose stored length is its
   * polyline's length and whose end is set, a non-negative total always gets a defined position:
   * a total short of the length falls within the polyline, so the walk's null is never chosen.
   */
  function PositionOnRoute(totalDistance: real, routeDistance: real, routeEnd: Place,
                           line: seq<LatLng>, segLen: Metric): (r: PointResult)
    ensures totalDistance >= routeDistance ==>
      r == (if routeEnd.Place? then Point(routeEnd.latlng) else Undefined)
    ensures totalDistance < routeDistance ==> r == PointAtDistance(line, segLen, totalDistance)
    ensures routeDistance == PathLength(line, segLen) && routeEnd.Place? && totalDistance >= 0.0 ==>
      r.Point?
  {
    if totalDistance >= routeDistance then
      (match routeEnd case Place(p, _) => Point(p) case Unset => Undefined)
    else PointAtDistance(line, segLen, totalDistance)
  }
}
