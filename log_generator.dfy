/** `generate_logs`: the log being built and the counters its nested
    helpers update in place, held by one generator object. */
module LogGenerator {
  import opened Clock
  import opened DutyLog
  import opened MidnightSplit
  import opened Waypoints
  import opened DriveSegment

  class Generator {
    var logs: seq<LogEntry>
    var milesDriven: nat
    var minutesDriven: nat      // hours_driven * 60
    var lastFuelStop: nat
    var dayCounter: int

    /** The shared counters as one value. */
    function State(): Counters
      reads this
    {
      Counters(milesDriven, minutesDriven, lastFuelStop, dayCounter)
    }

    /** The state `generate_logs` starts from: no entries, zero miles and
        hours, trip day 1. */
    constructor ()
      ensures logs == []
      ensures State() == Counters(0, 0, 0, 1)
    {
      logs := [];
      milesDriven := 0;
      minutesDriven := 0;
      lastFuelStop := 0;
      dayCounter := 1;
    }

    /** `add_log_entry`: appends one entry, or two around midnight, and
        returns the instant the next entry starts at. */
    method AddLogEntry(start: int, duration: nat, status: Status, remarks: string,
                       stop: Option<Location>) returns (next: int)
      modifies this`logs, this`dayCounter
      ensures var r := SplitEntry(start, duration, status, remarks, stop, old(dayCounter));
        logs == old(logs) + r.entries && dayCounter == r.day && next == r.next
    {
      var endTime := start + duration;
      if Day(endTime) > Day(start) {
        var endBeforeMidnight := Instant(Day(start), 86399);
        logs := logs + [LogEntry(Day(start), TimeOfDay(start), TimeOfDay(endBeforeMidnight),
                                 status, remarks + " (before midnight)", stop, dayCounter)];
        var newStart := Instant(Day(start) + 1, 0);
        var remainingDuration := duration - (endBeforeMidnight - start);
        dayCounter := dayCounter + 1;
        logs := logs + [LogEntry(Day(newStart), 0, TimeOfDay(newStart + remainingDuration),
                                 status, remarks + " (after midnight)", stop, dayCounter)];
        next := newStart + remainingDuration;
      } else {
        logs := logs + [LogEntry(Day(start), TimeOfDay(start), TimeOfDay(endTime),
                                 status, remarks, stop, dayCounter)];
        next := endTime;
      }
    }

    /** `handle_drive_segment`: drives one leg from `currentTime`, logging
        drives, breaks, fuel stops and sleeper periods, and returns the
        clock at the end of the leg. */
    method HandleDriveSegment(currentTime: int, distance: nat, segmentText: string,
                              waypoints: seq<seq<real>>, isOffDuty: bool) returns (t: int)
      requires ValidWaypoints(waypoints)
      modifies this
      ensures var out := DriveRun(Cursor(old(State()), currentTime, distance, 0),
                                  Segment(distance, segmentText, waypoints, isOffDuty));
        logs == old(logs) + out.entries && State() == out.cursor.counters && t == out.cursor.clock
    {
      var seg := Segment(distance, segmentText, waypoints, isOffDuty);
      ghost var whole := DriveRun(Cursor(State(), currentTime, distance, 0), seg);
      ghost var emitted: seq<LogEntry> := [];
      var remainingDistance: nat := distance;
      var lastRestTime: nat := 0;
      t := currentTime;
      while remainingDistance > TrailingMiles
        invariant remainingDistance <= distance
        invariant logs == old(logs) + emitted
        invariant var here := DriveRun(Cursor(State(), t, remainingDistance, lastRestTime), seg);
          whole.cursor == here.cursor && whole.entries == emitted + here.entries
        decreases remainingDistance
      {
        ghost var c := Cursor(State(), t, remainingDistance, lastRestTime);
        RunUnfold(c, seg, emitted);
        ghost var step := DriveStep(c, seg);
        t, remainingDistance, lastRestTime := NextEvent(t, remainingDistance, lastRestTime, seg);
        AppendTwice(old(logs), emitted, step.entries);
        emitted := emitted + step.entries;
      }
    }

    /** One pass of the loop body of `handle_drive_segment`: a sleeper
        period once 11 hours have been driven, a drive otherwise. */
    method NextEvent(t0: int, remaining0: nat, lastRest0: nat, seg: Segment)
      returns (t: int, remainingDistance: nat, lastRestTime: nat)
      requires seg.Valid() && TrailingMiles < remaining0 <= seg.distance
      modifies this
      ensures var step := DriveStep(Cursor(old(State()), t0, remaining0, lastRest0), seg);
        Cursor(State(), t, remainingDistance, lastRestTime) == step.cursor
        && logs == old(logs) + step.entries
    {
      if minutesDriven >= MaxDriveMinutes && remaining0 > 0 {
        t, remainingDistance, lastRestTime := MandatorySleep(t0, remaining0, lastRest0, seg);
      } else {
        t, remainingDistance, lastRestTime := DriveToNextEvent(t0, remaining0, lastRest0, seg);
      }
    }

    /** The sleeper branch of the loop body. */
    method MandatorySleep(t0: int, remaining0: nat, lastRest0: nat, seg: Segment)
      returns (t: int, remainingDistance: nat, lastRestTime: nat)
      requires seg.Valid() && TrailingMiles < remaining0 <= seg.distance
      requires minutesDriven >= MaxDriveMinutes
      modifies this
      ensures var step := SleepStep(Cursor(old(State()), t0, remaining0, lastRest0), seg);
        Cursor(State(), t, remainingDistance, lastRestTime) == step.cursor
        && logs == old(logs) + step.entries
    {
      var c := Cursor(State(), t0, remaining0, lastRest0);
      var nextEventMiles := NextEventMiles(c);
      var stopLocation := StopAt(remaining0, seg);
      t := AddLogEntry(t0, SleeperSeconds, Sleeper, "Mandatory sleep " + seg.text, Some(stopLocation));
      minutesDriven := 0;
      lastRestTime := milesDriven;
      remainingDistance := remaining0 - nextEventMiles;
      milesDriven := milesDriven + nextEventMiles;
    }

    /** The driving branch of the loop body: the drive, then a rest or a
        fuel stop when that threshold is the one reached. */
    method DriveToNextEvent(t0: int, remaining0: nat, lastRest0: nat, seg: Segment)
      returns (t: int, remainingDistance: nat, lastRestTime: nat)
      requires seg.Valid() && TrailingMiles < remaining0 <= seg.distance
      requires minutesDriven < MaxDriveMinutes
      modifies this
      ensures var step := DrivingStep(Cursor(old(State()), t0, remaining0, lastRest0), seg);
        Cursor(State(), t, remainingDistance, lastRestTime) == step.cursor
        && logs == old(logs) + step.entries
    {
      var c := Cursor(State(), t0, remaining0, lastRest0);
      var milesUntilRest := MilesUntilRest(milesDriven, lastRest0);
      var milesUntilFuel := MilesUntilFuel(milesDriven, lastFuelStop);
      var nextEventMiles := NextEventMiles(c);
      remainingDistance := remaining0 - nextEventMiles;
      lastRestTime := lastRest0;

      if nextEventMiles == milesUntilRest {
        DrivingStepRest(c, seg);
        t := DriveThenStop(c, seg, "Mandatory rest ");
        lastRestTime := milesDriven;
      } else if nextEventMiles == milesUntilFuel {
        DrivingStepFuel(c, seg);
        t := DriveThenStop(c, seg, "Fuel stop ");
        lastFuelStop := milesDriven;
      } else {
        DrivingStepPlain(c, seg);
        t := Drive(c, seg);
      }
    }

    /** The drive, then the 30-minute on-duty stop named by `activity` at
        the position the drive reaches. */
    method DriveThenStop(c: Cursor, seg: Segment, activity: string) returns (t: int)
      requires seg.Valid() && TrailingMiles < c.remaining <= seg.distance
      requires c.counters == State()
      modifies this`logs, this`dayCounter, this`milesDriven, this`minutesDriven
      ensures var drive := DriveSplit(c, seg);
        var brk := BreakAfter(drive, c.remaining - NextEventMiles(c), seg, activity);
        logs == old(logs) + (drive.entries + brk.entries) && t == brk.next
        && State() == Counters(c.counters.milesDriven + NextEventMiles(c),
                               c.counters.minutesDriven + NextEventMiles(c),
                               c.counters.lastFuelStop, brk.day)
    {
      ghost var before := logs;
      ghost var drive := DriveSplit(c, seg);
      var remaining := c.remaining - NextEventMiles(c);
      ghost var brk := BreakAfter(drive, remaining, seg, activity);
      t := Drive(c, seg);
      t := TakeBreak(t, remaining, seg, activity);
      AppendTwice(before, drive.entries, brk.entries);
    }

    /** The drive of `next_event_miles` that opens the driving branch:
        logged, and added to the miles and the hours driven. */
    method Drive(c: Cursor, seg: Segment) returns (t: int)
      requires c.counters == State() && 0 < c.remaining
      modifies this`logs, this`dayCounter, this`milesDriven, this`minutesDriven
      ensures var drive := DriveSplit(c, seg);
        logs == old(logs) + drive.entries && t == drive.next
        && State() == Counters(c.counters.milesDriven + NextEventMiles(c),
                               c.counters.minutesDriven + NextEventMiles(c),
                               c.counters.lastFuelStop, drive.day)
    {
      var nextEventMiles := NextEventMiles(c);
      t := AddLogEntry(c.clock, nextEventMiles * 60, DriveStatus(seg.offDuty),
                       DriveActivity(seg.offDuty) + " " + seg.text, None);
      milesDriven := milesDriven + nextEventMiles;
      minutesDriven := minutesDriven + nextEventMiles;
    }

    /** A 30-minute on-duty stop `remaining` miles before the end of the leg. */
    method TakeBreak(t0: int, remaining: nat, seg: Segment, activity: string) returns (t: int)
      requires seg.Valid() && 0 < seg.distance && remaining <= seg.distance
      modifies this`logs, this`dayCounter
      ensures var r := SplitEntry(t0, BreakSeconds, OnDuty, activity + seg.text,
                                  Some(StopAt(remaining, seg)), old(dayCounter));
        logs == old(logs) + r.entries && dayCounter == r.day && t == r.next
    {
      var stopLocation := StopAt(remaining, seg);
      t := AddLogEntry(t0, BreakSeconds, OnDuty, activity + seg.text, Some(stopLocation));
    }
  }

  /** The five phases of a trip's log, in order. */
  datatype TripLog = TripLog(
    pickupLeg: seq<LogEntry>,
    loading: seq<LogEntry>,
    dropoffLeg: seq<LogEntry>,
    unloading: seq<LogEntry>,
    finished: seq<LogEntry>,
    finish: int)
  {
    function Entries(): seq<LogEntry>
    {
      pickupLeg + loading + dropoffLeg + unloading + finished
    }
  }

  const LoadingSeconds: nat := 3600
  const FinishSeconds: nat := 900

  /** The instant the log starts at: the trip date at the current time of
      day, given here as `nowSecond`, the seconds since midnight. */
  function StartInstant(tripDate: int, nowSecond: int): (t: int)
    ensures 0 <= nowSecond < 86400 ==> Day(t) == tripDate && TimeOfDay(t) == nowSecond
  {
    Instant(tripDate, nowSecond)
  }

  function PickupSegment(toPickup: Route): Segment
  {
    Segment(toPickup.miles, "to pickup location", toPickup.waypoints, true)
  }

  function DropoffSegment(toDropoff: Route): Segment
  {
    Segment(toDropoff.miles, "to dropoff location", toDropoff.waypoints, false)
  }

  /** The log `generate_logs` builds: the pickup leg off duty, one hour
      loading, the dropoff leg driving, one hour unloading and 15 minutes
      off duty, with the counters carried from one step to the next. */
  function Schedule(start: int, toPickup: Route, toDropoff: Route,
                    pickup: Location, dropoff: Location): (r: TripLog)
    requires ValidWaypoints(toPickup.waypoints) && ValidWaypoints(toDropoff.waypoints)
    // loading and unloading are logged on duty at the stop itself, and the
    // trip closes with an off-duty row without a location
    ensures r.loading != [] && forall e :: e in r.loading ==> e.status == OnDuty && e.stopLocation == Some(pickup)
    ensures r.unloading != [] && forall e :: e in r.unloading ==> e.status == OnDuty && e.stopLocation == Some(dropoff)
    ensures r.finished != [] && forall e :: e in r.finished ==> e.status == OffDuty && e.stopLocation == None
  {
    var leg1 := DriveRun(Cursor(Counters(0, 0, 0, 1), start, toPickup.miles, 0), PickupSegment(toPickup));
    var load := SplitEntry(leg1.cursor.clock, LoadingSeconds, OnDuty, "Pickup location - Loading cargo",
                           Some(pickup), leg1.cursor.counters.dayCounter);
    var leg2 := DriveRun(Cursor(leg1.cursor.counters.(dayCounter := load.day), load.next, toDropoff.miles, 0),
                         DropoffSegment(toDropoff));
    var unload := SplitEntry(leg2.cursor.clock, LoadingSeconds, OnDuty, "Drop-off location - Unloading cargo",
                             Some(dropoff), leg2.cursor.counters.dayCounter);
    var fin := SplitEntry(unload.next, FinishSeconds, OffDuty, "Finished", None, unload.day);
    SplitRows(leg1.cursor.clock, LoadingSeconds, OnDuty, "Pickup location - Loading cargo",
              Some(pickup), leg1.cursor.counters.dayCounter);
    SplitRows(leg2.cursor.clock, LoadingSeconds, OnDuty, "Drop-off location - Unloading cargo",
              Some(dropoff), leg2.cursor.counters.dayCounter);
    SplitRows(unload.next, FinishSeconds, OffDuty, "Finished", None, unload.day);
    TripLog(leg1.entries, load.entries, leg2.entries, unload.entries, fin.entries, fin.next)
  }

  /** A leg followed by a one-hour stop extends the timeline, and the day
      counter still tracks the date. */
  lemma LegThenStop(c: Cursor, seg: Segment, remarks: string, stop: Location, k: int)
    requires seg.Valid() && c.remaining <= seg.distance
    requires c.counters.dayCounter == Day(c.clock) + k
    ensures var leg := DriveRun(c, seg);
      var st := SplitEntry(leg.cursor.clock, LoadingSeconds, OnDuty, remarks, Some(stop),
                           leg.cursor.counters.dayCounter);
      Timeline(leg.entries + st.entries, c.clock, st.next, k) && st.day == Day(st.next) + k
  {
    var leg := DriveRun(c, seg);
    RunTimeline(c, seg, k);
    SplitTimeline(leg.cursor.clock, LoadingSeconds, OnDuty, remarks, Some(stop),
                  leg.cursor.counters.dayCounter, k);
    var st := SplitEntry(leg.cursor.clock, LoadingSeconds, OnDuty, remarks, Some(stop),
                         leg.cursor.counters.dayCounter);
    TimelineConcat(leg.entries, st.entries, c.clock, leg.cursor.clock, st.next, k);
  }

  /** The whole trip log is one gap-free timeline from the start instant to
      the finish, and its trip day is the date counted from the trip date. */
  lemma ScheduleTimeline(tripDate: int, nowSecond: int, toPickup: Route, toDropoff: Route,
                         pickup: Location, dropoff: Location)
    requires ValidWaypoints(toPickup.waypoints) && ValidWaypoints(toDropoff.waypoints)
    requires 0 <= nowSecond < 86400
    ensures var start := StartInstant(tripDate, nowSecond);
      var s := Schedule(start, toPickup, toDropoff, pickup, dropoff);
      Timeline(s.Entries(), start, s.finish, 1 - tripDate) && s.Entries() != []
  {
    var k := 1 - tripDate;
    var start := StartInstant(tripDate, nowSecond);
    InstantParts(tripDate, nowSecond);
    var s := Schedule(start, toPickup, toDropoff, pickup, dropoff);
    var c1 := Cursor(Counters(0, 0, 0, 1), start, toPickup.miles, 0);
    var leg1 := DriveRun(c1, PickupSegment(toPickup));
    LegThenStop(c1, PickupSegment(toPickup), "Pickup location - Loading cargo", pickup, k);
    var load := SplitEntry(leg1.cursor.clock, LoadingSeconds, OnDuty, "Pickup location - Loading cargo",
                           Some(pickup), leg1.cursor.counters.dayCounter);
    var c2 := Cursor(leg1.cursor.counters.(dayCounter := load.day), load.next, toDropoff.miles, 0);
    var leg2 := DriveRun(c2, DropoffSegment(toDropoff));
    LegThenStop(c2, DropoffSegment(toDropoff), "Drop-off location - Unloading cargo", dropoff, k);
    var unload := SplitEntry(leg2.cursor.clock, LoadingSeconds, OnDuty, "Drop-off location - Unloading cargo",
                             Some(dropoff), leg2.cursor.counters.dayCounter);
    SplitTimeline(unload.next, FinishSeconds, OffDuty, "Finished", None, unload.day, k);
    var fin := SplitEntry(unload.next, FinishSeconds, OffDuty, "Finished", None, unload.day);
    TimelineConcat(leg1.entries + load.entries, leg2.entries + unload.entries, start, load.next, unload.next, k);
    TimelineConcat(leg1.entries + load.entries + (leg2.entries + unload.entries), fin.entries,
                   start, unload.next, fin.next, k);
    assert s == TripLog(leg1.entries, load.entries, leg2.entries, unload.entries, fin.entries, fin.next);
    AppendTwice(leg1.entries + load.entries, leg2.entries, unload.entries);
  }

  /** The log starts on trip day 1, and the end date `generate_logs` stores
      is the date of its last entry. */
  lemma ScheduleEnds(tripDate: int, nowSecond: int, toPickup: Route, toDropoff: Route,
                     pickup: Location, dropoff: Location)
    requires ValidWaypoints(toPickup.waypoints) && ValidWaypoints(toDropoff.waypoints)
    requires 0 <= nowSecond < 86400
    ensures var s := Schedule(StartInstant(tripDate, nowSecond), toPickup, toDropoff, pickup, dropoff);
      && s.Entries() != []
      && s.Entries()[0].day == 1
      && s.Entries()[0].date == tripDate
      && s.Entries()[|s.Entries()| - 1].date == Day(s.finish)
  {
    var start := StartInstant(tripDate, nowSecond);
    var es := Schedule(start, toPickup, toDropoff, pickup, dropoff).Entries();
    ScheduleTimeline(tripDate, nowSecond, toPickup, toDropoff, pickup, dropoff);
    TimelineLastDate(es, start, Schedule(start, toPickup, toDropoff, pickup, dropoff).finish, 1 - tripDate);
    assert WithinDay(es[0]) && es[0].day == es[0].date + 1 - tripDate;
    InstantParts(es[0].date, es[0].startTime);
    InstantParts(tripDate, nowSecond);
  }

  /** Any two entries of the trip log are in chronological order and do not
      overlap, and the trip day never goes back. */
  lemma ScheduleChronological(tripDate: int, nowSecond: int, toPickup: Route, toDropoff: Route,
                              pickup: Location, dropoff: Location, i: int, j: int)
    requires ValidWaypoints(toPickup.waypoints) && ValidWaypoints(toDropoff.waypoints)
    requires 0 <= nowSecond < 86400
    requires var es := Schedule(StartInstant(tripDate, nowSecond), toPickup, toDropoff, pickup, dropoff).Entries();
      0 <= i < j < |es|
    ensures var es := Schedule(StartInstant(tripDate, nowSecond), toPickup, toDropoff, pickup, dropoff).Entries();
      End(es[i]) <= Start(es[j]) && es[i].day <= es[j].day
  {
    var s := Schedule(StartInstant(tripDate, nowSecond), toPickup, toDropoff, pickup, dropoff);
    ScheduleTimeline(tripDate, nowSecond, toPickup, toDropoff, pickup, dropoff);
    TimelineOrdered(s.Entries(), StartInstant(tripDate, nowSecond), s.finish, 1 - tripDate, i, j);
  }

  /** The pickup leg is logged as off-duty travel: it holds no driving entry. */
  lemma PickupLegNotDriving(start: int, toPickup: Route, toDropoff: Route, pickup: Location, dropoff: Location)
    requires ValidWaypoints(toPickup.waypoints) && ValidWaypoints(toDropoff.waypoints)
    ensures forall e :: e in Schedule(start, toPickup, toDropoff, pickup, dropoff).pickupLeg ==>
      e.status != Driving
  {
    RunStatuses(Cursor(Counters(0, 0, 0, 1), start, toPickup.miles, 0), PickupSegment(toPickup));
  }

  /** Across both legs of the trip log the drive clock never passes 11
      hours: neither the pickup leg nor the dropoff leg of `Schedule` ends
      with more than 660 minutes driven. */
  lemma ScheduleKeepsDriveLimit(start: int, toPickup: Route, toDropoff: Route, pickup: Location, dropoff: Location)
    requires ValidWaypoints(toPickup.waypoints) && ValidWaypoints(toDropoff.waypoints)
    ensures var leg1 := DriveRun(Cursor(Counters(0, 0, 0, 1), start, toPickup.miles, 0), PickupSegment(toPickup));
      var load := SplitEntry(leg1.cursor.clock, LoadingSeconds, OnDuty, "Pickup location - Loading cargo",
                             Some(pickup), leg1.cursor.counters.dayCounter);
      var leg2 := DriveRun(Cursor(leg1.cursor.counters.(dayCounter := load.day), load.next, toDropoff.miles, 0),
                           DropoffSegment(toDropoff));
      var s := Schedule(start, toPickup, toDropoff, pickup, dropoff);
      && s.pickupLeg == leg1.entries && s.dropoffLeg == leg2.entries
      && leg1.cursor.counters.minutesDriven <= MaxDriveMinutes
      && leg2.cursor.counters.minutesDriven <= MaxDriveMinutes
  {
    var c1 := Cursor(Counters(0, 0, 0, 1), start, toPickup.miles, 0);
    RunKeepsDriveLimit(c1, PickupSegment(toPickup));
    var leg1 := DriveRun(c1, PickupSegment(toPickup));
    var load := SplitEntry(leg1.cursor.clock, LoadingSeconds, OnDuty, "Pickup location - Loading cargo",
                           Some(pickup), leg1.cursor.counters.dayCounter);
    RunKeepsDriveLimit(Cursor(leg1.cursor.counters.(dayCounter := load.day), load.next, toDropoff.miles, 0),
                       DropoffSegment(toDropoff));
  }

  /** `generate_logs`: returns the trip's log entries and its end date, the
      date of the instant the last entry ends at. */
  method GenerateLogs(tripDate: int, nowSecond: int, toPickup: Route, toDropoff: Route,
                      pickup: Location, dropoff: Location) returns (logs: seq<LogEntry>, endDate: int)
    requires ValidWaypoints(toPickup.waypoints) && ValidWaypoints(toDropoff.waypoints)
    ensures var s := Schedule(StartInstant(tripDate, nowSecond), toPickup, toDropoff, pickup, dropoff);
      logs == s.Entries() && endDate == Day(s.finish)
  {
    var startDatetime := StartInstant(tripDate, nowSecond);
    ghost var s := Schedule(startDatetime, toPickup, toDropoff, pickup, dropoff);
    ghost var leg1 := DriveRun(Cursor(Counters(0, 0, 0, 1), startDatetime, toPickup.miles, 0),
                               PickupSegment(toPickup));
    var g := new Generator();
    var currentDatetime := g.HandleDriveSegment(startDatetime, toPickup.miles, "to pickup location",
                                                toPickup.waypoints, true);
    assert g.logs == s.pickupLeg && currentDatetime == leg1.cursor.clock;
    ghost var load := SplitEntry(leg1.cursor.clock, LoadingSeconds, OnDuty, "Pickup location - Loading cargo",
                                 Some(pickup), leg1.cursor.counters.dayCounter);
    currentDatetime := g.AddLogEntry(currentDatetime, LoadingSeconds, OnDuty,
                                     "Pickup location - Loading cargo", Some(pickup));
    assert g.logs == s.pickupLeg + s.loading;
    assert g.State() == leg1.cursor.counters.(dayCounter := load.day) && currentDatetime == load.next;
    ghost var leg2 := DriveRun(Cursor(g.State(), load.next, toDropoff.miles, 0), DropoffSegment(toDropoff));
    ghost var logs2 := g.logs;
    currentDatetime := g.HandleDriveSegment(currentDatetime, toDropoff.miles, "to dropoff location",
                                            toDropoff.waypoints, false);
    assert g.logs == logs2 + s.dropoffLeg && currentDatetime == leg2.cursor.clock;
    ghost var logs3 := g.logs;
    currentDatetime := g.AddLogEntry(currentDatetime, LoadingSeconds, OnDuty,
                                     "Drop-off location - Unloading cargo", Some(dropoff));
    assert g.logs == logs3 + s.unloading;
    ghost var logs4 := g.logs;
    currentDatetime := g.AddLogEntry(currentDatetime, FinishSeconds, OffDuty, "Finished", None);
    assert g.logs == logs4 + s.finished && currentDatetime == s.finish;
    endDate := Day(currentDatetime);
    logs := g.logs;
  }
}
