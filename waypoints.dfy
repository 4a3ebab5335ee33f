/** `get_closest_waypoint`: the stop location for an event part-way along
    a leg, picked from the route's points by the progress ratio. */
module Waypoints {
  import opened DutyLog

  /** Every route point is a GeoJSON position with a longitude and a latitude. */
  predicate ValidWaypoints(waypoints: seq<seq<real>>)
  {
    forall i :: 0 <= i < |waypoints| ==> |waypoints[i]| >= 2
  }

  /** The share of a leg already covered when `remaining` of its
      `distance` miles are left: `1 - remaining / distance`. */
  function Progress(remaining: nat, distance: nat): (ratio: real)
    requires 0 < distance && remaining <= distance
    ensures 0.0 <= ratio <= 1.0
  {
    1.0 - remaining as real / distance as real
  }

  /** Of the `n` route points, the one at the whole part of `ratio * n`,
      capped at the last point; its second coordinate is the latitude and
      its first the longitude. The origin when the route has no points. */
  function ClosestWaypoint(ratio: real, waypoints: seq<seq<real>>): (loc: Location)
    requires 0.0 <= ratio
    requires ValidWaypoints(waypoints)
    ensures waypoints == [] ==> loc == Location(0.0, 0.0)
    ensures waypoints != [] ==>
      exists i :: 0 <= i < |waypoints| && loc == Location(waypoints[i][1], waypoints[i][0])
    ensures waypoints != [] && ratio * |waypoints| as real < (|waypoints| - 1) as real ==>
      var i := (ratio * |waypoints| as real).Floor;
      0 <= i < |waypoints| && loc == Location(waypoints[i][1], waypoints[i][0])
    ensures waypoints != [] && ratio * |waypoints| as real >= (|waypoints| - 1) as real ==>
      loc == Location(waypoints[|waypoints| - 1][1], waypoints[|waypoints| - 1][0])
  {
    if waypoints == [] then
      Location(0.0, 0.0)
    else
      var scaled := ratio * |waypoints| as real;
      var index := if scaled.Floor < |waypoints| - 1 then scaled.Floor else |waypoints| - 1;
      Location(waypoints[index][1], waypoints[index][0])
  }
}
