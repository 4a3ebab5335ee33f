/** The 70-hour / 8-day availability of a driver: the on-duty time logged
    in the window ending at a reference date, and what is left of the 70
    hours. The driver's history is the list of its trips' log rows. */
module Availability {
  import opened DutyLog

  const WindowDays: int := 8
  const LimitHours: real := 70.0

  /** `ref - 8 days <= date <= ref`: nine calendar dates, both ends included. */
  predicate InWindow(e: LogEntry, ref: int)
  {
    ref - WindowDays <= e.date <= ref
  }

  /** Only "driving" and "onDuty" rows count towards the limit. */
  predicate Counted(e: LogEntry)
  {
    e.status == Driving || e.status == OnDuty
  }

  /** The seconds between a row's start and end times, both taken on the
      row's own date. */
  function EntrySeconds(e: LogEntry): (s: int)
    ensures s == End(e) - Start(e)
  {
    e.endTime - e.startTime
  }

  /** What one row adds to the sum. */
  function Contribution(e: LogEntry, ref: int): int
  {
    if InWindow(e, ref) && Counted(e) then EntrySeconds(e) else 0
  }

  /** The `total_seconds` sum over the history, in its order. */
  function CountedSeconds(history: seq<LogEntry>, ref: int): int
  {
    if history == [] then 0
    else Contribution(history[0], ref) + CountedSeconds(history[1..], ref)
  }

  /** `get_hours_last_8_days(ref)`: the counted seconds in hours. */
  function HoursLast8Days(history: seq<LogEntry>, ref: int): (hours: real)
    ensures hours * 3600.0 == CountedSeconds(history, ref) as real
  {
    CountedSeconds(history, ref) as real / 3600.0
  }

  /** `get_available_hours(ref)`: what is left of the 70 hours, never
      less than zero. */
  function AvailableHours(history: seq<LogEntry>, ref: int): (available: real)
    ensures available >= 0.0
    ensures available >= LimitHours - HoursLast8Days(history, ref)
    ensures available == 0.0 || available == LimitHours - HoursLast8Days(history, ref)
  {
    var used := HoursLast8Days(history, ref);
    if LimitHours - used >= 0.0 then LimitHours - used else 0.0
  }

  /** No row that counts for the window ending at `ref` ends before it
      starts; rows that are not counted may be anything. */
  predicate WellFormedHistory(history: seq<LogEntry>, ref: int)
  {
    forall i :: 0 <= i < |history| ==> Contribution(history[i], ref) >= 0
  }

  /** The sum over a concatenation is the sum of the sums. */
  lemma {:induction false} CountedSecondsConcat(a: seq<LogEntry>, b: seq<LogEntry>, ref: int)
    ensures CountedSeconds(a + b, ref) == CountedSeconds(a, ref) + CountedSeconds(b, ref)
    decreases |a|
  {
    if a == [] {
      assert a + b == b;
    } else {
      assert (a + b)[1..] == a[1..] + b;
      CountedSecondsConcat(a[1..], b, ref);
    }
  }

  /** When no counted row in the window ends before it starts, the sum is
      never negative, whatever the other rows hold. */
  lemma {:induction false} CountedSecondsNonNegative(history: seq<LogEntry>, ref: int)
    requires WellFormedHistory(history, ref)
    ensures CountedSeconds(history, ref) >= 0
    decreases |history|
  {
    if history != [] {
      assert Contribution(history[0], ref) >= 0;
      CountedSecondsNonNegative(history[1..], ref);
    }
  }

  /** With well-formed rows the driver never has more than 70 hours. */
  lemma AvailableAtMostLimit(history: seq<LogEntry>, ref: int)
    requires WellFormedHistory(history, ref)
    ensures 0.0 <= AvailableHours(history, ref) <= LimitHours
  {
    CountedSecondsNonNegative(history, ref);
  }

  /** A history without any counted row in the window leaves all 70 hours. */
  lemma {:induction false} NothingCountedLeavesLimit(history: seq<LogEntry>, ref: int)
    requires forall i :: 0 <= i < |history| ==> !(InWindow(history[i], ref) && Counted(history[i]))
    ensures CountedSeconds(history, ref) == 0
    ensures AvailableHours(history, ref) == LimitHours
    decreases |history|
  {
    if history != [] {
      NothingCountedLeavesLimit(history[1..], ref);
    }
  }

  /** A row outside the window, or one that is off duty or in the sleeper
      berth, changes nothing wherever it sits in the history. */
  lemma IgnoredRow(a: seq<LogEntry>, e: LogEntry, b: seq<LogEntry>, ref: int)
    requires !InWindow(e, ref) || !Counted(e)
    ensures CountedSeconds(a + [e] + b, ref) == CountedSeconds(a + b, ref)
    ensures AvailableHours(a + [e] + b, ref) == AvailableHours(a + b, ref)
  {
    CountedSecondsConcat(a + [e], b, ref);
    CountedSecondsConcat(a, [e], ref);
    CountedSecondsConcat(a, b, ref);
  }

  /** A counted row in the window adds its duration: the available hours
      never grow, and they shrink while any are left and the row has a
      positive duration. */
  lemma CountedRow(a: seq<LogEntry>, e: LogEntry, b: seq<LogEntry>, ref: int)
    requires InWindow(e, ref) && Counted(e)
    ensures CountedSeconds(a + [e] + b, ref) == CountedSeconds(a + b, ref) + EntrySeconds(e)
    ensures EntrySeconds(e) >= 0 ==> AvailableHours(a + [e] + b, ref) <= AvailableHours(a + b, ref)
    ensures EntrySeconds(e) > 0 && AvailableHours(a + b, ref) > 0.0 ==>
      AvailableHours(a + [e] + b, ref) < AvailableHours(a + b, ref)
  {
    CountedSecondsConcat(a + [e], b, ref);
    CountedSecondsConcat(a, [e], ref);
    CountedSecondsConcat(a, b, ref);
  }

  /** Taking the row at index `i` out of the history takes its
      contribution out of the sum. */
  lemma RemoveRow(b: seq<LogEntry>, i: int, ref: int)
    requires 0 <= i < |b|
    ensures var rest := b[..i] + b[i + 1..];
      && CountedSeconds(b, ref) == Contribution(b[i], ref) + CountedSeconds(rest, ref)
      && multiset(b) == multiset(rest) + multiset{b[i]}
  {
    assert b == b[..i] + [b[i]] + b[i + 1..];
    CountedSecondsConcat(b[..i] + [b[i]], b[i + 1..], ref);
    CountedSecondsConcat(b[..i], [b[i]], ref);
    CountedSecondsConcat(b[..i], b[i + 1..], ref);
  }

  /** The query returns the rows in no particular order, and the result does
      not depend on it: any rearrangement of the history gives the same sum. */
  lemma {:induction false} OrderIndependent(a: seq<LogEntry>, b: seq<LogEntry>, ref: int)
    requires multiset(a) == multiset(b)
    ensures CountedSeconds(a, ref) == CountedSeconds(b, ref)
    ensures AvailableHours(a, ref) == AvailableHours(b, ref)
    decreases |a|
  {
    if a == [] {
      assert |b| == |multiset(b)| == 0;
    } else {
      assert a == [a[0]] + a[1..];
      assert a[0] in multiset(b);
      var i :| 0 <= i < |b| && b[i] == a[0];
      RemoveRow(b, i, ref);
      var rest := b[..i] + b[i + 1..];
      assert multiset(a[1..]) == multiset(a) - multiset{a[0]};
      assert multiset(rest) == multiset(b) - multiset{a[0]};
      OrderIndependent(a[1..], rest, ref);
    }
  }
}
