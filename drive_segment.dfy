/** The event loop of `handle_drive_segment` as functions: one iteration
    (`DriveStep`) and the whole loop (`DriveRun`), with the rules for the
    30-minute rest every 300 miles, the fuel stop every 1000 miles and the
    10-hour sleeper after 11 hours of driving at 60 mph. */
module DriveSegment {
  import opened Clock
  import opened DutyLog
  import opened MidnightSplit
  import opened Waypoints

  const RestIntervalMiles: nat := 300   // 5 * 60
  const FuelIntervalMiles: nat := 1000
  const MaxDriveMinutes: nat := 660     // 11 hours at one mile a minute
  const SleeperSeconds: nat := 36000    // 10 hours
  const BreakSeconds: nat := 1800       // 30 minutes
  const TrailingMiles: nat := 5         // the loop stops with at most this many miles left

  /** The counters the generator shares between legs. `minutesDriven` is
      `hours_driven * 60`: at 60 mph a mile takes a minute. */
  datatype Counters = Counters(milesDriven: nat, minutesDriven: nat, lastFuelStop: nat, dayCounter: int)

  /** The loop's state: the shared counters, the clock, the miles left in
      the leg and the leg-local `last_rest_time`. */
  datatype Cursor = Cursor(counters: Counters, clock: int, remaining: nat, lastRest: nat)

  /** One leg: its length, the text used in remarks, its route points and
      whether it is logged as off-duty travel. */
  datatype Segment = Segment(distance: nat, text: string, waypoints: seq<seq<real>>, offDuty: bool)
  {
    predicate Valid() { ValidWaypoints(waypoints) }
  }

  /** The entries produced and the state reached. */
  datatype Emitted = Emitted(cursor: Cursor, entries: seq<LogEntry>)

  function Max(a: int, b: int): int { if a >= b then a else b }

  // The four candidates for the distance to the next event.

  /** Miles to the next 30-minute rest: none once 300 miles have passed
      since the last one, else what is left of the 300. */
  function MilesUntilRest(milesDriven: int, lastRest: int): (r: nat)
    ensures r == 0 <==> milesDriven - lastRest >= RestIntervalMiles
    ensures r > 0 ==> milesDriven - lastRest + r == RestIntervalMiles
  {
    var sinceRest := milesDriven - lastRest;
    if sinceRest < RestIntervalMiles then Max(0, RestIntervalMiles - sinceRest) else 0
  }

  /** Miles to the next fuel stop: none once 1000 miles have passed since
      the last one, else what is left of the 1000. */
  function MilesUntilFuel(milesDriven: int, lastFuelStop: int): (r: nat)
    ensures r == 0 <==> milesDriven - lastFuelStop >= FuelIntervalMiles
    ensures r > 0 ==> milesDriven - lastFuelStop + r == FuelIntervalMiles
  {
    Max(0, FuelIntervalMiles - (milesDriven - lastFuelStop))
  }

  /** Miles (minutes at 60 mph) left before the 11-hour drive limit, none
      once it is reached. */
  function MilesUntilSleep(minutesDriven: int): (r: nat)
    ensures r == 0 <==> minutesDriven >= MaxDriveMinutes
    ensures r > 0 ==> minutesDriven + r == MaxDriveMinutes
  {
    Max(0, MaxDriveMinutes - minutesDriven)
  }

  function Candidates(c: Cursor): seq<int>
  {
    [MilesUntilRest(c.counters.milesDriven, c.lastRest),
     MilesUntilFuel(c.counters.milesDriven, c.counters.lastFuelStop),
     MilesUntilSleep(c.counters.minutesDriven),
     c.remaining]
  }

  /** The strictly positive elements of `ds`, in their order. */
  function Positives(ds: seq<int>): (ps: seq<int>)
    ensures forall x :: x in ps <==> x in ds && x > 0
  {
    if ds == [] then []
    else if ds[0] > 0 then [ds[0]] + Positives(ds[1..])
    else Positives(ds[1..])
  }

  /** The smallest element of a non-empty sequence. */
  function Min(s: seq<int>): (m: int)
    requires s != []
    ensures m in s
    ensures forall x :: x in s ==> m <= x
  {
    if |s| == 1 then s[0]
    else
      var rest := Min(s[1..]);
      assert forall x :: x in s ==> x == s[0] || x in s[1..];
      if s[0] <= rest then s[0] else rest
  }

  /** `next_event_miles`: the smallest strictly positive candidate. It is
      positive, never past the end of the leg, and no positive candidate
      comes earlier. */
  function NextEventMiles(c: Cursor): (m: nat)
    requires c.remaining > 0
    ensures 0 < m <= c.remaining
    ensures m in Candidates(c)
    ensures forall d :: d in Candidates(c) && d > 0 ==> m <= d
  {
    assert c.remaining in Positives(Candidates(c));
    Min(Positives(Candidates(c)))
  }

  /** The status and activity word of a leg's driving entries. */
  function DriveStatus(offDuty: bool): Status { if offDuty then OffDuty else Driving }
  function DriveActivity(offDuty: bool): string { if offDuty then "Traveling" else "Driving" }

  /** The stop location `remaining` miles before the end of the leg. */
  function StopAt(remaining: nat, seg: Segment): Location
    requires seg.Valid() && 0 < seg.distance && remaining <= seg.distance
  {
    ClosestWaypoint(Progress(remaining, seg.distance), seg.waypoints)
  }

  /** One iteration of the `while remaining_distance > 5` loop. */
  function DriveStep(c: Cursor, seg: Segment): (r: Emitted)
    requires seg.Valid()
    requires TrailingMiles < c.remaining <= seg.distance
    // progress: the leg shrinks by exactly the miles the counters gain
    ensures r.cursor.remaining < c.remaining
    ensures c.remaining - r.cursor.remaining
            == r.cursor.counters.milesDriven - c.counters.milesDriven
            == NextEventMiles(c)
    ensures r.entries != []
    // the sleeper branch: one 10-hour sleeper split, the drive clock reset,
    // no driving entry, the rest mark moved to the miles before the step
    ensures c.counters.minutesDriven >= MaxDriveMinutes ==>
      && r.entries == SplitEntry(c.clock, SleeperSeconds, Sleeper, "Mandatory sleep " + seg.text,
                                 Some(StopAt(c.remaining, seg)), c.counters.dayCounter).entries
      && r.cursor.counters.minutesDriven == 0
      && r.cursor.lastRest == c.counters.milesDriven
      && r.cursor.counters.lastFuelStop == c.counters.lastFuelStop
    // the driving branch: a drive of next_event_miles minutes that never
    // takes the drive clock past 11 hours
    ensures c.counters.minutesDriven < MaxDriveMinutes ==>
      && r.cursor.counters.minutesDriven == c.counters.minutesDriven + NextEventMiles(c) <= MaxDriveMinutes
      && DriveSplit(c, seg).entries <= r.entries
      && StopAfterDrive(c, seg, r.entries)
    // rest wins over fuel; either one resets its own mark to the new mileage
    ensures c.counters.minutesDriven < MaxDriveMinutes ==>
      var m := r.cursor.counters.milesDriven;
      if NextEventMiles(c) == MilesUntilRest(c.counters.milesDriven, c.lastRest) then
        r.cursor.lastRest == m && r.cursor.counters.lastFuelStop == c.counters.lastFuelStop
      else if NextEventMiles(c) == MilesUntilFuel(c.counters.milesDriven, c.counters.lastFuelStop) then
        r.cursor.counters.lastFuelStop == m && r.cursor.lastRest == c.lastRest
      else
        r.cursor.lastRest == c.lastRest && r.cursor.counters.lastFuelStop == c.counters.lastFuelStop
    ensures forall e :: e in r.entries ==>
      e.status == Sleeper || e.status == OnDuty || e.status == DriveStatus(seg.offDuty)
  {
    if c.counters.minutesDriven >= MaxDriveMinutes && c.remaining > 0 then SleepStep(c, seg) else DrivingStep(c, seg)
  }

  /** The sleeper branch: ten hours in the sleeper berth at the current
      position. The miles up to the next event are consumed without a
      driving entry. */
  function SleepStep(c: Cursor, seg: Segment): (r: Emitted)
    requires seg.Valid()
    requires TrailingMiles < c.remaining <= seg.distance
    requires c.counters.minutesDriven >= MaxDriveMinutes
    ensures r.cursor.remaining == c.remaining - NextEventMiles(c)
    ensures r.cursor.counters.milesDriven == c.counters.milesDriven + NextEventMiles(c)
    ensures r.entries == SplitEntry(c.clock, SleeperSeconds, Sleeper, "Mandatory sleep " + seg.text,
                                    Some(StopAt(c.remaining, seg)), c.counters.dayCounter).entries
    ensures r.cursor.counters.minutesDriven == 0
    ensures r.cursor.lastRest == c.counters.milesDriven
    ensures r.cursor.counters.lastFuelStop == c.counters.lastFuelStop
    // the clock and the day counter are where the sleeper split leaves them
    ensures var sleep := SplitEntry(c.clock, SleeperSeconds, Sleeper, "Mandatory sleep " + seg.text,
                                    Some(StopAt(c.remaining, seg)), c.counters.dayCounter);
      r.cursor.clock == sleep.next && r.cursor.counters.dayCounter == sleep.day
    ensures r.entries != [] && forall e :: e in r.entries ==> e.status == Sleeper
  {
    var k := c.counters;
    var next := NextEventMiles(c);
    var sleep := SplitEntry(c.clock, SleeperSeconds, Sleeper, "Mandatory sleep " + seg.text,
                            Some(StopAt(c.remaining, seg)), k.dayCounter);
    Emitted(Cursor(Counters(k.milesDriven + next, 0, k.lastFuelStop, sleep.day),
                   sleep.next, c.remaining - next, k.milesDriven),
            sleep.entries)
  }

  /** The entry a driving step starts with. */
  function DriveSplit(c: Cursor, seg: Segment): Appended
    requires c.remaining > 0
  {
    SplitEntry(c.clock, NextEventMiles(c) * 60, DriveStatus(seg.offDuty),
               DriveActivity(seg.offDuty) + " " + seg.text, None, c.counters.dayCounter)
  }

  /** The 30-minute on-duty stop that follows a drive `remaining` miles
      before the end of the leg. */
  function BreakAfter(drive: Appended, remaining: nat, seg: Segment, activity: string): Appended
    requires seg.Valid() && 0 < seg.distance && remaining <= seg.distance
  {
    SplitEntry(drive.next, BreakSeconds, OnDuty, activity + seg.text, Some(StopAt(remaining, seg)), drive.day)
  }

  /** The rows of a driving step: the drive, then the 30-minute
      "Mandatory rest" stop when the rest threshold is the one reached,
      else the 30-minute "Fuel stop" when the fuel threshold is, and
      otherwise the drive alone. */
  predicate StopAfterDrive(c: Cursor, seg: Segment, entries: seq<LogEntry>)
    requires seg.Valid() && TrailingMiles < c.remaining <= seg.distance
  {
    var next := NextEventMiles(c);
    var drive := DriveSplit(c, seg);
    var remaining := c.remaining - next;
    if next == MilesUntilRest(c.counters.milesDriven, c.lastRest) then
      entries == drive.entries + BreakAfter(drive, remaining, seg, "Mandatory rest ").entries
    else if next == MilesUntilFuel(c.counters.milesDriven, c.counters.lastFuelStop) then
      entries == drive.entries + BreakAfter(drive, remaining, seg, "Fuel stop ").entries
    else
      entries == drive.entries
  }

  /** Which 30-minute stop follows a drive: a rest when the rest threshold
      is the event reached, else a fuel stop when the fuel threshold is,
      else none. */
  function StopActivity(c: Cursor): (r: Option<string>)
    requires c.remaining > 0
    ensures r == Some("Mandatory rest ") <==> NextEventMiles(c) == MilesUntilRest(c.counters.milesDriven, c.lastRest)
    ensures r == Some("Fuel stop ") <==>
      && NextEventMiles(c) != MilesUntilRest(c.counters.milesDriven, c.lastRest)
      && NextEventMiles(c) == MilesUntilFuel(c.counters.milesDriven, c.counters.lastFuelStop)
    ensures r.Some? ==> r == Some("Mandatory rest ") || r == Some("Fuel stop ")
  {
    var next := NextEventMiles(c);
    if next == MilesUntilRest(c.counters.milesDriven, c.lastRest) then Some("Mandatory rest ")
    else if next == MilesUntilFuel(c.counters.milesDriven, c.counters.lastFuelStop) then Some("Fuel stop ")
    else None
  }

  /** The rows a driving step logs, with the instant and the day counter
      they leave behind: the drive, then the stop `StopActivity` names. */
  function AfterDrive(c: Cursor, seg: Segment): (r: Appended)
    requires seg.Valid()
    requires TrailingMiles < c.remaining <= seg.distance
    ensures StopAfterDrive(c, seg, r.entries)
    ensures r.entries != [] && forall e :: e in r.entries ==>
      e.status == OnDuty || e.status == DriveStatus(seg.offDuty)
  {
    var drive := DriveSplit(c, seg);
    match StopActivity(c)
    case Some(activity) =>
      var stop := BreakAfter(drive, c.remaining - NextEventMiles(c), seg, activity);
      Appended(drive.entries + stop.entries, stop.next, stop.day)
    case None => drive
  }

  /** The driving branch: a drive of `next_event_miles` minutes, then a
      rest if the rest threshold was reached, else a fuel stop if the fuel
      threshold was. */
  function DrivingStep(c: Cursor, seg: Segment): (r: Emitted)
    requires seg.Valid()
    requires TrailingMiles < c.remaining <= seg.distance
    requires c.counters.minutesDriven < MaxDriveMinutes
    ensures r.cursor.remaining == c.remaining - NextEventMiles(c)
    ensures r.cursor.counters.milesDriven == c.counters.milesDriven + NextEventMiles(c)
    ensures r.cursor.counters.minutesDriven == c.counters.minutesDriven + NextEventMiles(c) <= MaxDriveMinutes
    ensures DriveSplit(c, seg).entries <= r.entries
    ensures StopAfterDrive(c, seg, r.entries)
    ensures var m := r.cursor.counters.milesDriven;
      if NextEventMiles(c) == MilesUntilRest(c.counters.milesDriven, c.lastRest) then
        r.cursor.lastRest == m && r.cursor.counters.lastFuelStop == c.counters.lastFuelStop
      else if NextEventMiles(c) == MilesUntilFuel(c.counters.milesDriven, c.counters.lastFuelStop) then
        r.cursor.counters.lastFuelStop == m && r.cursor.lastRest == c.lastRest
      else
        r.cursor.lastRest == c.lastRest && r.cursor.counters.lastFuelStop == c.counters.lastFuelStop
    ensures r.entries != [] && forall e :: e in r.entries ==>
      e.status == OnDuty || e.status == DriveStatus(seg.offDuty)
  {
    var k := c.counters;
    var next := NextEventMiles(c);
    assert MilesUntilSleep(k.minutesDriven) in Candidates(c);
    var rows := AfterDrive(c, seg);
    var miles := k.milesDriven + next;
    var remaining := c.remaining - next;
    var minutes := k.minutesDriven + next;
    if next == MilesUntilRest(k.milesDriven, c.lastRest) then
      Emitted(Cursor(Counters(miles, minutes, k.lastFuelStop, rows.day), rows.next, remaining, miles), rows.entries)
    else if next == MilesUntilFuel(k.milesDriven, k.lastFuelStop) then
      Emitted(Cursor(Counters(miles, minutes, miles, rows.day), rows.next, remaining, c.lastRest), rows.entries)
    else
      Emitted(Cursor(Counters(miles, minutes, k.lastFuelStop, rows.day), rows.next, remaining, c.lastRest), rows.entries)
  }

  // The three shapes of a driving step, one lemma per branch.

  lemma DrivingStepRest(c: Cursor, seg: Segment)
    requires seg.Valid() && TrailingMiles < c.remaining <= seg.distance
    requires c.counters.minutesDriven < MaxDriveMinutes
    requires NextEventMiles(c) == MilesUntilRest(c.counters.milesDriven, c.lastRest)
    ensures var k := c.counters;
      var next := NextEventMiles(c);
      var drive := DriveSplit(c, seg);
      var brk := BreakAfter(drive, c.remaining - next, seg, "Mandatory rest ");
      DrivingStep(c, seg) == Emitted(Cursor(Counters(k.milesDriven + next, k.minutesDriven + next, k.lastFuelStop, brk.day),
                                            brk.next, c.remaining - next, k.milesDriven + next),
                                     drive.entries + brk.entries)
  {
    var drive := DriveSplit(c, seg);
    var brk := BreakAfter(drive, c.remaining - NextEventMiles(c), seg, "Mandatory rest ");
    assert StopActivity(c) == Some("Mandatory rest ");
    assert AfterDrive(c, seg) == Appended(drive.entries + brk.entries, brk.next, brk.day);
  }

  lemma DrivingStepFuel(c: Cursor, seg: Segment)
    requires seg.Valid() && TrailingMiles < c.remaining <= seg.distance
    requires c.counters.minutesDriven < MaxDriveMinutes
    requires NextEventMiles(c) != MilesUntilRest(c.counters.milesDriven, c.lastRest)
    requires NextEventMiles(c) == MilesUntilFuel(c.counters.milesDriven, c.counters.lastFuelStop)
    ensures var k := c.counters;
      var next := NextEventMiles(c);
      var drive := DriveSplit(c, seg);
      var brk := BreakAfter(drive, c.remaining - next, seg, "Fuel stop ");
      DrivingStep(c, seg) == Emitted(Cursor(Counters(k.milesDriven + next, k.minutesDriven + next, k.milesDriven + next, brk.day),
                                            brk.next, c.remaining - next, c.lastRest),
                                     drive.entries + brk.entries)
  {
    var drive := DriveSplit(c, seg);
    var brk := BreakAfter(drive, c.remaining - NextEventMiles(c), seg, "Fuel stop ");
    assert StopActivity(c) == Some("Fuel stop ");
    assert AfterDrive(c, seg) == Appended(drive.entries + brk.entries, brk.next, brk.day);
  }

  lemma DrivingStepPlain(c: Cursor, seg: Segment)
    requires seg.Valid() && TrailingMiles < c.remaining <= seg.distance
    requires c.counters.minutesDriven < MaxDriveMinutes
    requires NextEventMiles(c) != MilesUntilRest(c.counters.milesDriven, c.lastRest)
    requires NextEventMiles(c) != MilesUntilFuel(c.counters.milesDriven, c.counters.lastFuelStop)
    ensures var k := c.counters;
      var next := NextEventMiles(c);
      var drive := DriveSplit(c, seg);
      DrivingStep(c, seg) == Emitted(Cursor(Counters(k.milesDriven + next, k.minutesDriven + next, k.lastFuelStop, drive.day),
                                            drive.next, c.remaining - next, c.lastRest),
                                     drive.entries)
  {
    assert AfterDrive(c, seg) == DriveSplit(c, seg);
  }

  /** The whole loop, from cursor `c` until at most 5 miles are left. */
  function DriveRun(c: Cursor, seg: Segment): (r: Emitted)
    requires seg.Valid()
    requires c.remaining <= seg.distance
    ensures r.cursor.remaining <= TrailingMiles
    ensures r.cursor.remaining <= c.remaining
    ensures c.remaining - r.cursor.remaining
            == r.cursor.counters.milesDriven - c.counters.milesDriven
    ensures r.entries == [] <==> c.remaining <= TrailingMiles
    ensures c.remaining <= TrailingMiles ==> r.cursor == c
    decreases c.remaining
  {
    if c.remaining > TrailingMiles then
      var step := DriveStep(c, seg);
      var rest := DriveRun(step.cursor, seg);
      Emitted(rest.cursor, step.entries + rest.entries)
    else
      Emitted(c, [])
  }

  // Unfolding of DriveRun by one step.

  lemma RunUnfold(c: Cursor, seg: Segment, done: seq<LogEntry>)
    requires seg.Valid() && TrailingMiles < c.remaining <= seg.distance
    ensures var step := DriveStep(c, seg);
      var rest := DriveRun(step.cursor, seg);
      DriveRun(c, seg).cursor == rest.cursor
      && done + DriveRun(c, seg).entries == (done + step.entries) + rest.entries
  {
  }

  /** The drive clock stays within 11 hours across the whole leg. */
  lemma {:induction false} RunKeepsDriveLimit(c: Cursor, seg: Segment)
    requires seg.Valid() && c.remaining <= seg.distance
    requires c.counters.minutesDriven <= MaxDriveMinutes
    ensures DriveRun(c, seg).cursor.counters.minutesDriven <= MaxDriveMinutes
    decreases c.remaining
  {
    if c.remaining > TrailingMiles {
      RunKeepsDriveLimit(DriveStep(c, seg).cursor, seg);
    }
  }

  /** A leg logs only sleeper, on-duty stops and its own driving status; an
      off-duty leg logs no driving time at all. */
  lemma {:induction false} RunStatuses(c: Cursor, seg: Segment)
    requires seg.Valid() && c.remaining <= seg.distance
    ensures forall e :: e in DriveRun(c, seg).entries ==>
      e.status == Sleeper || e.status == OnDuty || e.status == DriveStatus(seg.offDuty)
    ensures seg.offDuty ==> forall e :: e in DriveRun(c, seg).entries ==> e.status != Driving
    decreases c.remaining
  {
    if c.remaining > TrailingMiles {
      var step := DriveStep(c, seg);
      RunStatuses(step.cursor, seg);
      assert DriveRun(c, seg).entries == step.entries + DriveRun(step.cursor, seg).entries;
    }
  }

  /** The leg's entries form a gap-free timeline from the start clock to the
      end clock, and the day counter keeps tracking the date. */
  lemma {:induction false} RunTimeline(c: Cursor, seg: Segment, k: int)
    requires seg.Valid() && c.remaining <= seg.distance
    requires c.counters.dayCounter == Day(c.clock) + k
    ensures var r := DriveRun(c, seg);
      Timeline(r.entries, c.clock, r.cursor.clock, k)
      && r.cursor.counters.dayCounter == Day(r.cursor.clock) + k
    decreases c.remaining
  {
    if c.remaining > TrailingMiles {
      var step := DriveStep(c, seg);
      StepTimeline(c, seg, k);
      RunTimeline(step.cursor, seg, k);
      var rest := DriveRun(step.cursor, seg);
      TimelineConcat(step.entries, rest.entries, c.clock, step.cursor.clock, rest.cursor.clock, k);
    }
  }

  lemma StepTimeline(c: Cursor, seg: Segment, k: int)
    requires seg.Valid() && TrailingMiles < c.remaining <= seg.distance
    requires c.counters.dayCounter == Day(c.clock) + k
    ensures var r := DriveStep(c, seg);
      Timeline(r.entries, c.clock, r.cursor.clock, k)
      && r.cursor.counters.dayCounter == Day(r.cursor.clock) + k
  {
    if c.counters.minutesDriven >= MaxDriveMinutes {
      SplitTimeline(c.clock, SleeperSeconds, Sleeper, "Mandatory sleep " + seg.text,
                    Some(StopAt(c.remaining, seg)), c.counters.dayCounter, k);
    } else {
      DrivingStepTimeline(c, seg, k);
    }
  }

  lemma DrivingStepTimeline(c: Cursor, seg: Segment, k: int)
    requires seg.Valid() && TrailingMiles < c.remaining <= seg.distance
    requires c.counters.minutesDriven < MaxDriveMinutes
    requires c.counters.dayCounter == Day(c.clock) + k
    ensures var r := DriveStep(c, seg);
      Timeline(r.entries, c.clock, r.cursor.clock, k)
      && r.cursor.counters.dayCounter == Day(r.cursor.clock) + k
  {
    var rows := AfterDrive(c, seg);
    AfterDriveTimeline(c, seg, k);
    var r := DrivingStep(c, seg);
    assert r.entries == rows.entries && r.cursor.clock == rows.next && r.cursor.counters.dayCounter == rows.day;
  }

  /** The drive and its stop form a gap-free timeline from the cursor's clock. */
  lemma AfterDriveTimeline(c: Cursor, seg: Segment, k: int)
    requires seg.Valid() && TrailingMiles < c.remaining <= seg.distance
    requires c.counters.minutesDriven < MaxDriveMinutes
    requires c.counters.dayCounter == Day(c.clock) + k
    ensures var rows := AfterDrive(c, seg);
      Timeline(rows.entries, c.clock, rows.next, k) && rows.day == Day(rows.next) + k
  {
    var rows := AfterDrive(c, seg);
    var drive := DriveSplit(c, seg);
    var remaining := c.remaining - NextEventMiles(c);
    match StopActivity(c)
    case Some(activity) =>
      var brk := BreakAfter(drive, remaining, seg, activity);
      assert rows == Appended(drive.entries + brk.entries, brk.next, brk.day);
      DriveTimeline(c, seg, k);
      SplitTimeline(drive.next, BreakSeconds, OnDuty, activity + seg.text, Some(StopAt(remaining, seg)), drive.day, k);
      TimelineConcat(drive.entries, brk.entries, c.clock, drive.next, brk.next, k);
    case None =>
      assert rows == drive;
      DriveTimeline(c, seg, k);
  }

  /** The drive alone is a gap-free timeline of at most 11 hours. */
  lemma DriveTimeline(c: Cursor, seg: Segment, k: int)
    requires seg.Valid() && TrailingMiles < c.remaining <= seg.distance
    requires c.counters.minutesDriven < MaxDriveMinutes
    requires c.counters.dayCounter == Day(c.clock) + k
    ensures var drive := DriveSplit(c, seg);
      Timeline(drive.entries, c.clock, drive.next, k) && drive.day == Day(drive.next) + k
  {
    var next := NextEventMiles(c);
    assert MilesUntilSleep(c.counters.minutesDriven) in Candidates(c);
    SplitTimeline(c.clock, next * 60, DriveStatus(seg.offDuty), DriveActivity(seg.offDuty) + " " + seg.text,
                  None, c.counters.dayCounter, k);
  }

  /** A 50-mile leg from fresh counters that does not reach midnight: one
      50-minute driving entry, and the counters move by 50 miles. */
  lemma FiftyMileLeg(start: int, text: string)
    requires TimeOfDay(start) + 3000 < 86400
    ensures var seg := Segment(50, text, [], false);
      var r := DriveRun(Cursor(Counters(0, 0, 0, 1), start, 50, 0), seg);
      && r.entries == [LogEntry(Day(start), TimeOfDay(start), TimeOfDay(start) + 3000,
                                Driving, "Driving " + text, None, 1)]
      && r.cursor.counters == Counters(50, 50, 0, 1)
      && r.cursor.clock == start + 3000
  {
    var seg := Segment(50, text, [], false);
    var c := Cursor(Counters(0, 0, 0, 1), start, 50, 0);
    assert Candidates(c) == [300, 1000, 660, 50];
    assert NextEventMiles(c) == 50;
    assert !CrossesMidnight(start, 3000);
    assert DriveActivity(false) + " " + text == "Driving " + text;
    var step := DriveStep(c, seg);
    assert step.cursor.remaining == 0;
    assert step.entries == [LogEntry(Day(start), TimeOfDay(start), TimeOfDay(start) + 3000,
                                     Driving, "Driving " + text, None, 1)];
    assert DriveRun(c, seg).entries == step.entries + DriveRun(step.cursor, seg).entries;
  }
}
