/** Creating a trip: the three rejections `create` can answer with, in the
    order it checks them, and the log generated for a trip it admits. */
module TripCreation {
  import opened Clock
  import opened DutyLog
  import opened Waypoints
  import opened LogGenerator
  import opened Availability

  /** The three `400 Bad Request` answers. */
  datatype Rejection =
    | HoursExhausted          // no hours left of the 70 in the 8-day window
    | RouteUnavailable        // a route lookup returned nothing
    | ExceedsAvailableHours   // the two legs take longer than the hours left

  /** A stored trip: its date, end date, total miles and hours, and its log. */
  datatype Trip = Trip(date: int, endDate: int, distanceMiles: nat, durationHours: real, logs: seq<LogEntry>)

  /** The gate of `create`: no hours left, then a missing route, then a
      trip longer than the hours left; otherwise both legs. */
  function Admit(available: real, toPickup: Option<Route>, toDropoff: Option<Route>): (r: Result<(Route, Route), Rejection>)
    ensures r == Err(HoursExhausted) <==> available <= 0.0
    ensures r == Err(RouteUnavailable) <==> available > 0.0 && (toPickup.None? || toDropoff.None?)
    ensures r == Err(ExceedsAvailableHours) <==>
      && available > 0.0 && toPickup.Some? && toDropoff.Some?
      && toPickup.value.hours + toDropoff.value.hours > available
    ensures r.Ok? <==>
      && available > 0.0 && toPickup.Some? && toDropoff.Some?
      && toPickup.value.hours + toDropoff.value.hours <= available
    ensures r.Ok? ==> r.value == (toPickup.value, toDropoff.value)
  {
    if available <= 0.0 then Err(HoursExhausted)
    else if toPickup.None? || toDropoff.None? then Err(RouteUnavailable)
    else if toPickup.value.hours + toDropoff.value.hours > available then Err(ExceedsAvailableHours)
    else Ok((toPickup.value, toDropoff.value))
  }

  /** The trip date plus the number of whole days in the trip's total
      hours: the end date stored when the trip is created, before the
      generated log replaces it. */
  function ProvisionalEndDate(tripDate: int, totalHours: real): (endDate: int)
    ensures 24.0 * (endDate - tripDate) as real <= totalHours < 24.0 * (endDate - tripDate + 1) as real
  {
    tripDate + (totalHours / 24.0).Floor
  }

  /** Both legs' route points are GeoJSON positions, when the lookups succeeded. */
  predicate RoutesValid(toPickup: Option<Route>, toDropoff: Option<Route>)
  {
    && (toPickup.Some? ==> ValidWaypoints(toPickup.value.waypoints))
    && (toDropoff.Some? ==> ValidWaypoints(toDropoff.value.waypoints))
  }

  /** `create`: the availability on the trip date, the gate, and for an
      admitted trip its generated log and the end date taken from it. */
  method CreateTrip(history: seq<LogEntry>, tripDate: int, nowSecond: int,
                    toPickup: Option<Route>, toDropoff: Option<Route>,
                    pickup: Location, dropoff: Location) returns (r: Result<Trip, Rejection>)
    requires RoutesValid(toPickup, toDropoff)
    ensures var gate := Admit(AvailableHours(history, tripDate), toPickup, toDropoff);
      && (r.Err? <==> gate.Err?)
      && (r.Err? ==> r.error == gate.error)
    ensures r.Ok? ==>
      var p := toPickup.value;
      var d := toDropoff.value;
      var s := Schedule(StartInstant(tripDate, nowSecond), p, d, pickup, dropoff);
      && r.value.date == tripDate
      && r.value.logs == s.Entries()
      && r.value.endDate == Day(s.finish)
      && r.value.distanceMiles == p.miles + d.miles
      && r.value.durationHours == p.hours + d.hours
  {
    var availableHours := AvailableHours(history, tripDate);
    var gate := Admit(availableHours, toPickup, toDropoff);
    if gate.Err? {
      return Err(gate.error);
    }
    var (p, d) := gate.value;
    var totalDuration := p.hours + d.hours;
    var trip := Trip(tripDate, ProvisionalEndDate(tripDate, totalDuration), p.miles + d.miles, totalDuration, []);
    var logs, endDate := GenerateLogs(tripDate, nowSecond, p, d, pickup, dropoff);
    trip := trip.(endDate := endDate, logs := logs);
    r := Ok(trip);
  }

  /** An admitted trip never asks for more than 70 hours, and asks for no
      more than the driver has left. */
  lemma AdmittedWithinLimit(history: seq<LogEntry>, tripDate: int, toPickup: Option<Route>, toDropoff: Option<Route>)
    requires WellFormedHistory(history, tripDate)
    requires Admit(AvailableHours(history, tripDate), toPickup, toDropoff).Ok?
    ensures toPickup.value.hours + toDropoff.value.hours <= AvailableHours(history, tripDate) <= LimitHours
  {
    AvailableAtMostLimit(history, tripDate);
  }

  /** More logged work never turns a rejection into an admission: a trip
      turned away stays turned away once another counted row is added. */
  lemma MoreWorkNeverAdmits(a: seq<LogEntry>, e: LogEntry, b: seq<LogEntry>, tripDate: int,
                            toPickup: Option<Route>, toDropoff: Option<Route>)
    requires InWindow(e, tripDate) && Counted(e) && EntrySeconds(e) >= 0
    requires Admit(AvailableHours(a + b, tripDate), toPickup, toDropoff).Err?
    ensures Admit(AvailableHours(a + [e] + b, tripDate), toPickup, toDropoff).Err?
  {
    CountedRow(a, e, b, tripDate);
  }

  /** A driver with no counted row in the window has all 70 hours: a trip
      is admitted exactly when both routes exist and fit in 70 hours. */
  lemma FreshDriverAdmission(history: seq<LogEntry>, tripDate: int, toPickup: Option<Route>, toDropoff: Option<Route>)
    requires forall i :: 0 <= i < |history| ==> !(InWindow(history[i], tripDate) && Counted(history[i]))
    ensures Admit(AvailableHours(history, tripDate), toPickup, toDropoff).Ok? <==>
      && toPickup.Some? && toDropoff.Some?
      && toPickup.value.hours + toDropoff.value.hours <= LimitHours
  {
    NothingCountedLeavesLimit(history, tripDate);
  }
}
