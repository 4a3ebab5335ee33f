# Hours-of-service duty log in Dafny

This project models the core of a trip planner for truck drivers. The
planner does three things:
- It works out how many of a driver's 70 hours in the 8-day window are
  left on the trip date.
- It turns a trip away when no hours are left, when a route lookup
  failed, or when the trip is longer than the hours left.
- For a trip it admits, it writes the trip's duty log. Each interval
  gives one row, or two when it crosses midnight. A row has a date, start
  and end time of day, status (off duty, sleeper, driving, on duty),
  remarks, an optional stop location and the 1-based trip day.

The log is generated in a fixed order:
1. The leg to the pickup, logged as off-duty travel.
2. One hour on duty, loading.
3. The leg to the drop-off, logged as driving.
4. One hour on duty, unloading.
5. Fifteen minutes off duty, "Finished".

Within a leg the drive is cut at the next event: a 30-minute rest every
300 miles, a fuel stop every 1000 miles, or a 10-hour sleeper break once
11 hours have been driven. Any interval that crosses midnight is split into
a "(before midnight)" row ending at 23:59:59 and an "(after midnight)" row
starting at 00:00:00, and the trip day advances.

Modules, in dependency order:
- `Clock` (`duty_log.dfy`): naive wall-clock instants in whole seconds. A
  date is `t / 86400` and a time of day is `t % 86400`.
- `DutyLog` (`duty_log.dfy`): the log row, route and location records,
  and the `Timeline` predicate. `Timeline` says that rows cover an interval
  without overlap, that each row stays in its day, and that the trip day
  is the date plus a fixed offset.
- `MidnightSplit` (`midnight_split.dfy`): `add_log_entry` as the function
  `SplitEntry`.
- `Waypoints` (`waypoints.dfy`): `get_closest_waypoint`.
- `DriveSegment` (`drive_segment.dfy`): the loop of `handle_drive_segment`
  as functions. `DriveStep` is one iteration, split into `SleepStep` and
  `DrivingStep`. `StopActivity` picks the stop that follows a drive, and
  `AfterDrive` gives the drive's rows followed by that stop. `DriveRun` is
  the whole loop.
- `LogGenerator` (`log_generator.dfy`): the generator object. It is a class
  whose fields are the log and the counters the Python code keeps as
  `nonlocal` variables. Its methods are proved against the functions
  above, and `Schedule` is the whole trip log as a value.
- `Availability` (`availability.dfy`): `get_hours_last_8_days` and
  `get_available_hours`.
- `TripCreation` (`trip_creation.dfy`): the gate of `create` and the
  creation of an admitted trip.

Units:
- Instants are `int` seconds.
- Miles are `nat`.
- At the fixed 60 mph one mile takes one minute, so `hours_driven` is
  carried exactly as `minutesDriven` (hours × 60), and a drive of `n` miles
  lasts `n * 60` seconds.
- Hours in the availability calculation are `real`.
- The module-local `Option` and `Result` datatypes stand for `None` and
  for the error responses.

## Behaviour kept as written

The model follows the code in these places:
- `last_rest_time` is local to one call of `handle_drive_segment` and
  starts at 0 on every leg, while the miles driven carry over between legs
  (backend/trip/views.py:187). On the drop-off leg the first rest is
  therefore measured from mile 0 of the trip.
- The sleeper branch takes `next_event_miles` off the leg without logging
  any drive for them (backend/trip/views.py:220-221).
- A midnight split returns `start + duration + 1` second, because the
  first part ends at 23:59:59 and the second starts at 00:00:00. Each
  split loses one second of wall-clock time. `SplitEntry` states this, and
  `Timeline` allows that one-second gap after a row ending at 23:59:59.
- When the rest and the fuel thresholds fall on the same mile, only the
  rest is logged (backend/trip/views.py:238-262).
- The fuel mark `last_fuel_stop` moves only in the fuel branch
  (backend/trip/views.py:251-255). If the fuel threshold is reached in a tie
  with the rest, or during a sleeper step, the mark stays where it was.
  From then on `miles_until_fuel` is 0, a candidate that is never chosen
  (backend/trip/views.py:196, 219-221), so no fuel stop is logged again.
- The rest mark starts at 0 on each leg. If `miles_driven` is already 300
  or more when the drop-off leg starts, `miles_until_rest` is 0 and no rest
  is logged until a sleeper step moves the mark
  (backend/trip/views.py:187-195).
- The loop stops once at most 5 miles are left, and those miles are never
  logged (backend/trip/views.py:189).
- The window of `get_hours_last_8_days` holds nine dates, from `ref - 8`
  to `ref` with both ends included (backend/trip/models.py:20-23).

## Model

| member | source | states |
|---|---|---|
| Clock.Day | backend/trip/views.py:131 | The date of an instant: the instant lies in the 86400 seconds starting at that date's midnight. |
| Clock.TimeOfDay | backend/trip/views.py:139-140 | The time of day of an instant is a second in [0, 86400). |
| Clock.Instant | backend/trip/views.py:133 | The instant at a given time of day on a given date; its two parts are stated by `Clock.InstantParts`. |
| Clock.InstantParts | backend/trip/views.py:148-149 | Combining a date with a time of day in [0, 86400) gives an instant whose date and time of day are exactly those. |
| Clock.Recombine | backend/trip/views.py:131-140 | Every instant is its own date combined with its own time of day. |
| MidnightSplit.CrossesMidnight | backend/trip/views.py:131 | An interval crosses midnight when its end falls on a later date than its start. |
| MidnightSplit.SplitEntry | backend/trip/views.py:127-180 | The interval crosses midnight exactly when time-of-day + duration reaches 86400. Otherwise it gives one row from start to start + duration, with the day unchanged and the next instant start + duration. When it crosses, it gives two rows: [start, 23:59:59] with "(before midnight)" and the old day, then from 00:00:00 of the next date with "(after midnight)" and day + 1. The day counter goes up by exactly one, the two parts add up to the duration, and the next instant is start + duration + 1. |
| MidnightSplit.SplitTimeline | backend/trip/views.py:127-180 | For a duration under a day, the appended rows cover [start, next] without overlap, and the day counter still equals the date plus the same offset. |
| MidnightSplit.SplitRows | backend/trip/views.py:127-180 | Split or not, the interval gives at least one row, and every row has the status and the stop location asked for. |
| MidnightSplit.SplitIdempotent | backend/trip/views.py:131-180 | Re-logging a row that already lies within one day gives back exactly that row. |
| Waypoints.Progress | backend/trip/views.py:208-210 | The progress ratio `1 - remaining/distance` lies in [0, 1]. |
| Waypoints.ClosestWaypoint | backend/trip/views.py:121-125 | An empty route gives lat 0, lng 0. Otherwise the result is the point at index `min(floor(ratio·n), n-1)`, which is always an index of the route, with lat taken from element [1] and lng from element [0]. |
| DriveSegment.MilesUntilRest | backend/trip/views.py:190-195 | Zero exactly when 300 or more miles have passed since the rest mark; otherwise the miles that complete the 300. |
| DriveSegment.MilesUntilFuel | backend/trip/views.py:196 | Zero exactly when 1000 or more miles have passed since the fuel mark; otherwise the miles that complete the 1000. |
| DriveSegment.MilesUntilSleep | backend/trip/views.py:197 | Zero exactly when 11 hours (660 minutes) have been driven; otherwise the minutes, at one mile a minute, that complete the 660. |
| DriveSegment.Candidates | backend/trip/views.py:199-204 | The four candidate distances in the code's order: to the rest, to the fuel stop, to the sleeper break and to the end of the leg. |
| DriveSegment.Positives | backend/trip/views.py:205 | An element is kept exactly when it is in the input and strictly positive. |
| DriveSegment.Min | backend/trip/views.py:205 | The result is an element of the list and no larger than any element. |
| DriveSegment.NextEventMiles | backend/trip/views.py:190-205 | `next_event_miles` is one of the four candidate distances, no larger than any positive candidate and within (0, remaining]. |
| DriveSegment.DriveStep | backend/trip/views.py:189-262 | One iteration shrinks the leg by exactly the miles added to `miles_driven`, which equal `next_event_miles`, and logs at least one row. With 11 hours driven it logs one 10-hour sleeper interval, split at midnight like any other, and no drive. It resets the drive clock and moves the rest mark. Otherwise it logs the rows `StopAfterDrive` names, and the drive clock stays at or below 11 hours. A rest wins over a fuel stop and resets its own mark; a fuel stop resets the fuel mark. Only sleeper, on-duty and the leg's own drive status appear. |
| DriveSegment.SleepStep | backend/trip/views.py:207-222 | The sleeper branch: one 10-hour "Mandatory sleep" sleeper interval at the current position, split at midnight like any other. The clock and the day counter are where that split leaves them. The drive clock goes to 0, the rest mark to the miles before the step, the fuel mark is unchanged and the miles are consumed. |
| DriveSegment.DriveStatus | backend/trip/views.py:224 | A leg logged as off-duty travel drives with status off duty; any other leg with status driving. |
| DriveSegment.DriveActivity | backend/trip/views.py:225 | The remarks word: "Traveling" for an off-duty leg, "Driving" otherwise. |
| DriveSegment.StopAt | backend/trip/views.py:208-210 | The stop location `remaining` miles before the end of the leg: the closest waypoint to the progress ratio. The rest and fuel branches use the same call (backend/trip/views.py:239-241, 252-254). |
| DriveSegment.DriveSplit | backend/trip/views.py:226-232 | The drive entry: `next_event_miles` minutes with the leg's drive status and activity word, no stop location, split at midnight by `SplitEntry`. |
| DriveSegment.BreakAfter | backend/trip/views.py:242-248 | The 30-minute on-duty stop right after the drive, with the activity prefixed to the leg text and the stop location for the miles left. The fuel stop is the same call (backend/trip/views.py:256-262). |
| DriveSegment.StopAfterDrive | backend/trip/views.py:238-262 | The rows of a driving step: the drive and "Mandatory rest" when the rest threshold is the event reached. Otherwise the drive and "Fuel stop" when the fuel threshold is. Otherwise the drive alone. |
| DriveSegment.StopActivity | backend/trip/views.py:238-262 | A "Mandatory rest " stop exactly when `next_event_miles` equals the miles to the rest. A "Fuel stop " exactly when it does not, but equals the miles to the fuel stop. No stop otherwise. |
| DriveSegment.AfterDrive | backend/trip/views.py:224-262 | The rows of the driving branch are those `StopAfterDrive` names, and they are on-duty rows or the leg's own drive status. |
| DriveSegment.DrivingStep | backend/trip/views.py:224-262 | The driving branch. It logs the drive of `next_event_miles` (split at midnight if need be). When the rest threshold is reached, the drive is followed by the 30-minute on-duty "Mandatory rest" at the waypoint for the miles left. Otherwise, when the fuel threshold is reached, it is followed by the same "Fuel stop". Otherwise the drive is logged alone. Miles and the drive clock grow by `next_event_miles`, never above 660 minutes, and the rest and fuel marks move as the branch taken requires. |
| DriveSegment.DrivingStepRest | backend/trip/views.py:224-249 | When the rest threshold is reached, the step's new state and rows are those of the drive followed by the rest, with the rest mark at the new miles. |
| DriveSegment.DrivingStepFuel | backend/trip/views.py:224-262 | When only the fuel threshold is reached, the step's new state and rows are those of the drive followed by the fuel stop, with the fuel mark at the new miles. |
| DriveSegment.DrivingStepPlain | backend/trip/views.py:224-236 | When neither threshold is reached, the step logs the drive alone and no mark moves. |
| DriveSegment.DriveRun | backend/trip/views.py:186-264 | The loop ends with at most 5 miles left. The miles consumed equal the miles added to `miles_driven`. It logs nothing exactly when the leg starts with 5 miles or fewer, and then nothing changes. |
| DriveSegment.RunKeepsDriveLimit | backend/trip/views.py:197-236 | Starting at or below 11 hours driven, the leg ends with the drive clock at or below 11 hours. The bound after each single step is in `DriveStep`'s contract. |
| DriveSegment.RunStatuses | backend/trip/views.py:224-232 | A leg logs only sleeper, on-duty and its own drive status, and an off-duty leg logs no driving row. |
| DriveSegment.RunTimeline | backend/trip/views.py:189-264 | The leg's rows form a gap-free timeline from the start clock to the returned clock, and the trip day keeps tracking the date. |
| DriveSegment.StepTimeline | backend/trip/views.py:207-262 | The same for one iteration. |
| DriveSegment.DrivingStepTimeline | backend/trip/views.py:224-262 | The same for the driving branch. |
| DriveSegment.AfterDriveTimeline | backend/trip/views.py:224-262 | The drive and its stop are one gap-free timeline from the cursor's clock. |
| DriveSegment.DriveTimeline | backend/trip/views.py:224-232 | The drive alone is a gap-free timeline from the cursor's clock. |
| DriveSegment.FiftyMileLeg | backend/trip/views.py:189-236 | From fresh counters, a 50-mile leg that stays within one day logs one 50-minute "Driving" row and adds 50 miles and 50 minutes. |
| LogGenerator.Generator.constructor | backend/trip/views.py:115-119 | The generator starts with no rows, zero miles, zero hours, fuel mark 0 and trip day 1. |
| LogGenerator.Generator.AddLogEntry | backend/trip/views.py:127-180 | Appends exactly the rows of `SplitEntry`, sets the day counter to its day, and returns its next instant. |
| LogGenerator.Generator.HandleDriveSegment | backend/trip/views.py:182-264 | Appends exactly the rows of `DriveRun` from the current counters with the rest mark at 0. The counters and the returned clock are `DriveRun`'s final state. |
| LogGenerator.Generator.NextEvent | backend/trip/views.py:189-262 | One loop pass changes the log, counters, clock and leg-local variables exactly as `DriveStep` does. |
| LogGenerator.Generator.MandatorySleep | backend/trip/views.py:207-222 | The sleeper branch, as `SleepStep`. |
| LogGenerator.Generator.DriveToNextEvent | backend/trip/views.py:224-262 | The driving branch, as `DrivingStep`. |
| LogGenerator.Generator.DriveThenStop | backend/trip/views.py:224-262 | Logs the drive and then the named 30-minute on-duty stop at the waypoint the drive reaches. It adds the drive's miles to the miles and the drive clock. |
| LogGenerator.Generator.Drive | backend/trip/views.py:224-236 | Appends the rows of the drive of `next_event_miles` (two when it crosses midnight, as `DriveSplit` gives them) and adds those miles to the miles and the drive clock. The fuel mark is unchanged. |
| LogGenerator.Generator.TakeBreak | backend/trip/views.py:239-262 | Logs a 30-minute on-duty stop at the waypoint for the miles left. |
| LogGenerator.PickupSegment | backend/trip/views.py:266-272 | The pickup leg: its miles, "to pickup location", its route points, logged as off-duty travel. |
| LogGenerator.DropoffSegment | backend/trip/views.py:280-286 | The drop-off leg: its miles, "to dropoff location", its route points, logged as driving. |
| LogGenerator.StartInstant | backend/trip/views.py:114 | For a time of day in [0, 86400), the start instant falls on the trip date, at that time of day. |
| LogGenerator.Schedule | backend/trip/views.py:266-298 | The whole trip log as a value. Loading and unloading are non-empty runs of on-duty rows at the pickup and at the drop-off. The trip closes with a non-empty run of off-duty rows without a location. |
| LogGenerator.GenerateLogs | backend/trip/views.py:266-298 | Returns exactly the rows of `Schedule`: the pickup leg off duty, loading, the drop-off leg driving, unloading and "Finished", with the counters carried between steps. The end date is the date of the final instant. |
| LogGenerator.LegThenStop | backend/trip/views.py:266-293 | A leg followed by its one-hour stop is one gap-free timeline. |
| LogGenerator.ScheduleTimeline | backend/trip/views.py:266-296 | The whole trip log is one gap-free timeline from the start instant to the finish. Every row's trip day is its date minus the trip date plus 1. |
| LogGenerator.ScheduleEnds | backend/trip/views.py:266-298 | The log is never empty. Its first row is on the trip date with trip day 1, and the stored end date is the date of the last row. |
| LogGenerator.ScheduleChronological | backend/trip/views.py:266-296 | Any two rows come in chronological order without overlap, and the trip day never decreases. |
| LogGenerator.PickupLegNotDriving | backend/trip/views.py:266-272 | The pickup leg holds no driving row. |
| LogGenerator.ScheduleKeepsDriveLimit | backend/trip/views.py:266-286 | The two legs are the ones `Schedule` logs, the drop-off leg starting from the counters and clock the loading stop leaves. The drive clock is at or below 11 hours at the end of each. |
| Availability.InWindow | backend/trip/models.py:20-23 | A row is in the window when its date lies from 8 days before the reference date to the reference date, both included. |
| Availability.Counted | backend/trip/models.py:31 | Only driving and on-duty rows count. |
| Availability.EntrySeconds | backend/trip/models.py:27-29 | A row lasts its end instant minus its start instant on its own date. |
| Availability.Contribution | backend/trip/models.py:25-32 | What one row adds to the sum: its seconds when it is in the window and counted, else nothing. |
| Availability.CountedSeconds | backend/trip/models.py:25-32 | The sum of the contributions of all rows of the history. |
| Availability.HoursLast8Days | backend/trip/models.py:14-35 | The hours used are the counted seconds divided by 3600. |
| Availability.AvailableHours | backend/trip/models.py:37-39 | The available hours are never negative, at least 70 − used, and equal to either 0 or 70 − used. |
| Availability.CountedSecondsConcat | backend/trip/models.py:25-32 | The sum over two pieces of history is the sum of the two sums. |
| Availability.CountedSecondsNonNegative | backend/trip/models.py:25-32 | When no driving or on-duty row in the window ends before it starts, the counted seconds are never negative. Rows outside the window and off-duty or sleeper rows may hold anything. |
| Availability.AvailableAtMostLimit | backend/trip/models.py:25-39 | Under the same condition on the counted rows only, the available hours lie in [0, 70]. |
| Availability.NothingCountedLeavesLimit | backend/trip/models.py:20-39 | With no driving or on-duty row in the window, the sum is 0 and exactly 70 hours are available. |
| Availability.IgnoredRow | backend/trip/models.py:20-39 | Inserting a row outside the window, or one that is off duty or in the sleeper berth, changes neither the sum nor the available hours. |
| Availability.CountedRow | backend/trip/models.py:20-39 | Inserting a driving or on-duty row in the window adds its duration. If that is non-negative, the available hours do not grow; if positive, they strictly shrink while any are left. |
| Availability.RemoveRow | backend/trip/models.py:25-32 | Taking one row out removes exactly its contribution. |
| Availability.OrderIndependent | backend/trip/models.py:21-35 | Any rearrangement of the rows the query returns gives the same sum and the same available hours. |
| TripCreation.Admit | backend/trip/views.py:32-76 | Rejects for no hours left exactly when available ≤ 0. Otherwise it rejects for a missing route exactly when a lookup failed. Otherwise it rejects for an over-long trip exactly when the total duration exceeds the hours left. It admits in every other case and returns both legs. |
| TripCreation.ProvisionalEndDate | backend/trip/views.py:78 | The provisional end date is the trip date plus the whole number of 24-hour blocks in the total duration. |
| TripCreation.CreateTrip | backend/trip/views.py:19-102 | Rejects with exactly the gate's error, computed from the available hours on the trip date. An admitted trip stores the generated log, the end date of its last instant, and the sums of both legs' miles and hours. |
| TripCreation.AdmittedWithinLimit | backend/trip/views.py:30-76 | When no counted row in the trip date's window ends before it starts, an admitted trip needs no more than the hours left, which are at most 70. |
| TripCreation.MoreWorkNeverAdmits | backend/trip/views.py:30-76 | A trip that is rejected stays rejected once another counted row of non-negative duration is added to the history. |
| TripCreation.FreshDriverAdmission | backend/trip/views.py:30-76 | A driver with nothing counted in the window is admitted exactly when both routes exist and their hours total at most 70. |

## Left out

- The route lookup call (backend/trip/views.py:43-62) is network I/O. Its result is an `Option<Route>` parameter for each leg: `None` when the lookup failed, otherwise miles, hours and route points.
- The stored trip keeps only the date, end date, miles, hours and log. The driver, the vehicle and the three locations are not stored.
- Database access is left out: `Driver.objects.get`, `Vehicle.objects.get`, `Trip.objects.create`, `trip.save` and the saving of the rows. The driver's history is a list of rows passed in. The `DailyLog.objects.filter` query is modelled by the window and status tests over that list; the list is expected to hold only this driver's rows.
- The HTTP view, response, serializer, URL and migration code is framework configuration.
- `datetime.now()`, `today()` and `now()` become parameters: the trip date, the second of the day the log starts at, and the reference date.
- Time zone handling (`make_aware`) is left out; instants are naive.
- Date-string parsing (`strptime`) and its error responses are left out, as is the `None` / string handling of `reference_date`. Dates are day numbers.
- Floating point is left out. Leg distances are whole miles and hours are exact reals. The float equality tests at backend/trip/views.py:238 and 251 become exact integer comparisons. The meters-to-miles and milliseconds-to-hours conversions are not modelled.
- Waypoints: every route point is required to hold at least a longitude and a latitude; this is `ValidWaypoints`. The code would raise an index error on a shorter point.
- The `__str__` methods are left out.
- TripCreation.ProvisionalEndDate: the value is stored at creation time and then overwritten by `generate_logs`. Only its floor-division meaning is stated.
