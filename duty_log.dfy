/** Naive wall-clock arithmetic on instants counted in whole seconds.
    A calendar date is a day number; a time of day is a second in [0, 86400). */
module Clock {

  /** The calendar date of instant `t` (the `.date()` of a naive datetime). */
  function Day(t: int): (d: int)
    ensures d * 86400 <= t < d * 86400 + 86400
  {
    t / 86400
  }

  /** The time of day of instant `t`, in seconds after 00:00:00 (the `.time()`). */
  function TimeOfDay(t: int): (s: int)
    ensures 0 <= s < 86400
  {
    t % 86400
  }

  /** The instant `time` seconds after 00:00:00 on `date` (`datetime.combine`). */
  function Instant(date: int, time: int): int
  {
    date * 86400 + time
  }

  lemma InstantParts(date: int, time: int)
    requires 0 <= time < 86400
    ensures Day(Instant(date, time)) == date
    ensures TimeOfDay(Instant(date, time)) == time
  {
  }

  lemma Recombine(t: int)
    ensures Instant(Day(t), TimeOfDay(t)) == t
  {
  }
}

/** The records the duty-log generator produces and the availability
    calculator reads: the `DailyLog` rows, and the route lookup's result. */
module DutyLog {
  import opened Clock

  datatype Option<T> = None | Some(value: T)

  datatype Result<T, E> = Ok(value: T) | Err(error: E)

  /** The four duty statuses of a `DailyLog` row. */
  datatype Status = OffDuty | Sleeper | Driving | OnDuty

  /** A `{"lat": .., "lng": ..}` location. */
  datatype Location = Location(lat: real, lng: real)

  /** One `DailyLog` row: a date, a start and an end time of day, a status,
      remarks, an optional stop location and the 1-based trip day. */
  datatype LogEntry = LogEntry(
    date: int,
    startTime: int,
    endTime: int,
    status: Status,
    remarks: string,
    stopLocation: Option<Location>,
    day: int)

  /** What the routing lookup returns for one leg: miles, hours and the
      route's points as GeoJSON positions `[lng, lat, ...]`. */
  datatype Route = Route(miles: nat, hours: real, waypoints: seq<seq<real>>)

  /** The instant an entry starts and the instant it ends. */
  function Start(e: LogEntry): int { Instant(e.date, e.startTime) }
  function End(e: LogEntry): int { Instant(e.date, e.endTime) }

  /** The entry lies inside one calendar day and does not run backwards. */
  ghost predicate WithinDay(e: LogEntry)
  {
    0 <= e.startTime <= e.endTime < 86400
  }

  /** `b` begins where `a` ended, or one second later when `a` stopped at
      23:59:59 (the second that a midnight split skips). */
  ghost predicate Link(a: LogEntry, b: LogEntry)
  {
    Start(b) == End(a) || (a.endTime == 86399 && Start(b) == End(a) + 1)
  }

  /** `es` covers the time from `t0` to `t1` without overlaps: each entry
      stays within its day, each one follows its predecessor, and every
      entry's trip day is its date shifted by the constant `k`, so the day
      counter moves exactly when the date does. */
  ghost predicate Timeline(es: seq<LogEntry>, t0: int, t1: int, k: int)
  {
    if es == [] then t0 == t1
    else
      && Start(es[0]) == t0
      && End(es[|es| - 1]) == t1
      && (forall i :: 0 <= i < |es| ==> WithinDay(es[i]) && es[i].day == es[i].date + k)
      && (forall i :: 0 <= i < |es| - 1 ==> Link(es[i], es[i + 1]))
  }

  /** Appending twice is appending the two pieces at once. */
  lemma AppendTwice<T>(a: seq<T>, x: seq<T>, y: seq<T>)
    ensures (a + x) + y == a + (x + y)
  {
  }

  /** Two timelines that meet at `t1` join into one. */
  lemma TimelineConcat(a: seq<LogEntry>, b: seq<LogEntry>, t0: int, t1: int, t2: int, k: int)
    requires Timeline(a, t0, t1, k) && Timeline(b, t1, t2, k)
    ensures Timeline(a + b, t0, t2, k)
  {
    var ab := a + b;
    if a != [] && b != [] {
      forall i | 0 <= i < |ab| - 1
        ensures Link(ab[i], ab[i + 1])
      {
        if i < |a| - 1 {
          assert ab[i] == a[i] && ab[i + 1] == a[i + 1];
        } else if i == |a| - 1 {
          assert ab[i] == a[|a| - 1] && ab[i + 1] == b[0];
        } else {
          assert ab[i] == b[i - |a|] && ab[i + 1] == b[i - |a| + 1];
        }
      }
      forall i | 0 <= i < |ab|
        ensures WithinDay(ab[i]) && ab[i].day == ab[i].date + k
      {
        if i < |a| {
          assert ab[i] == a[i];
        } else {
          assert ab[i] == b[i - |a|];
        }
      }
    } else if a == [] {
      assert ab == b;
    } else {
      assert ab == a;
    }
  }

  /** Entries of a timeline never overlap and come in chronological order. */
  lemma {:induction false} TimelineOrdered(es: seq<LogEntry>, t0: int, t1: int, k: int, i: int, j: int)
    requires Timeline(es, t0, t1, k)
    requires 0 <= i < j < |es|
    ensures End(es[i]) <= Start(es[j])
    ensures es[i].day <= es[j].day
    decreases j - i
  {
    assert Link(es[i], es[i + 1]);
    if i + 1 < j {
      TimelineOrdered(es, t0, t1, k, i + 1, j);
      assert WithinDay(es[i + 1]);
    }
    assert es[i].date <= es[j].date by {
      InstantParts(es[i].date, es[i].startTime);
      InstantParts(es[j].date, es[j].startTime);
      assert WithinDay(es[i]) && WithinDay(es[j]);
      assert Start(es[i]) <= End(es[i]) <= Start(es[j]);
    }
  }

  /** A non-empty timeline ending at `t1` ends with an entry dated `Day(t1)`. */
  lemma TimelineLastDate(es: seq<LogEntry>, t0: int, t1: int, k: int)
    requires Timeline(es, t0, t1, k) && es != []
    ensures es[|es| - 1].date == Day(t1)
  {
    assert WithinDay(es[|es| - 1]);
    InstantParts(es[|es| - 1].date, es[|es| - 1].endTime);
  }
}
