/** The midnight-splitting rule of `add_log_entry`: an interval that ends on
    a later date than it starts is logged as two entries, one up to 23:59:59
    and one from 00:00:00 of the next date, and the trip day advances. */
module MidnightSplit {
  import opened Clock
  import opened DutyLog

  /** The entries one call appends, the instant it returns and the day
      counter it leaves behind. */
  datatype Appended = Appended(entries: seq<LogEntry>, next: int, day: int)

  /** The interval `[start, start + duration]` ends on a later date. */
  predicate CrossesMidnight(start: int, duration: nat)
  {
    Day(start + duration) > Day(start)
  }

  /** The entries `add_log_entry(start, duration, status, remarks, stop)`
      appends when the day counter is `day`. */
  function SplitEntry(start: int, duration: nat, status: Status, remarks: string,
                      stop: Option<Location>, day: int): (r: Appended)
    ensures CrossesMidnight(start, duration) <==> TimeOfDay(start) + duration >= 86400
    // an interval that stays within its day: one entry, nothing else moves
    ensures !CrossesMidnight(start, duration) ==>
      && r.entries == [LogEntry(Day(start), TimeOfDay(start), TimeOfDay(start) + duration,
                                status, remarks, stop, day)]
      && r.next == start + duration
      && r.day == day
    // an interval that crosses midnight: two entries around the boundary
    ensures CrossesMidnight(start, duration) ==>
      && |r.entries| == 2
      && r.entries[0] == LogEntry(Day(start), TimeOfDay(start), 86399,
                                  status, remarks + " (before midnight)", stop, day)
      && r.entries[1].date == Day(start) + 1
      && r.entries[1].startTime == 0
      && r.entries[1].status == status
      && r.entries[1].remarks == remarks + " (after midnight)"
      && r.entries[1].stopLocation == stop
      && r.entries[1].day == day + 1
      && r.day == day + 1
      // the two parts add up to the duration, and the returned instant
      // is one second past start + duration
      && (86399 - TimeOfDay(start)) + (r.next - Instant(Day(start) + 1, 0)) == duration
      && r.next == start + duration + 1
      && (duration < 86400 ==> r.entries[1].endTime == r.next - Instant(Day(start) + 1, 0))
  {
    var endTime := start + duration;
    if Day(endTime) > Day(start) then
      var endBeforeMidnight := Instant(Day(start), 86399);
      var first := LogEntry(Day(start), TimeOfDay(start), TimeOfDay(endBeforeMidnight),
                            status, remarks + " (before midnight)", stop, day);
      var newStart := Instant(Day(start) + 1, 0);
      var remaining := duration - (endBeforeMidnight - start);
      var second := LogEntry(Day(newStart), 0, TimeOfDay(newStart + remaining),
                             status, remarks + " (after midnight)", stop, day + 1);
      Appended([first, second], newStart + remaining, day + 1)
    else
      Appended([LogEntry(Day(start), TimeOfDay(start), TimeOfDay(endTime),
                         status, remarks, stop, day)], endTime, day)
  }

  /** Whether it is split or not, the interval is logged with at least one
      row, and every row carries the status and stop location asked for. */
  lemma SplitRows(start: int, duration: nat, status: Status, remarks: string,
                  stop: Option<Location>, day: int)
    ensures var r := SplitEntry(start, duration, status, remarks, stop, day);
      r.entries != [] && forall e :: e in r.entries ==> e.status == status && e.stopLocation == stop
  {
    var r := SplitEntry(start, duration, status, remarks, stop, day);
    if CrossesMidnight(start, duration) {
      assert r.entries == [r.entries[0], r.entries[1]];
    }
  }

  /** An interval shorter than a day becomes a gap-free piece of timeline
      from `start` to the returned instant, and the day counter keeps
      tracking the date. */
  lemma SplitTimeline(start: int, duration: nat, status: Status, remarks: string,
                      stop: Option<Location>, day: int, k: int)
    requires duration < 86400
    requires day == Day(start) + k
    ensures var r := SplitEntry(start, duration, status, remarks, stop, day);
      Timeline(r.entries, start, r.next, k) && r.day == Day(r.next) + k
  {
    var r := SplitEntry(start, duration, status, remarks, stop, day);
    Recombine(start);
    if CrossesMidnight(start, duration) {
      InstantParts(Day(start) + 1, r.next - Instant(Day(start) + 1, 0));
      assert Link(r.entries[0], r.entries[1]);
    } else {
      InstantParts(Day(start), TimeOfDay(start) + duration);
    }
  }

  /** Splitting again an entry that already fits in its day gives it back
      unchanged. */
  lemma SplitIdempotent(e: LogEntry)
    requires WithinDay(e)
    ensures SplitEntry(Start(e), e.endTime - e.startTime, e.status, e.remarks,
                       e.stopLocation, e.day).entries == [e]
  {
    InstantParts(e.date, e.startTime);
  }
}
