/** The log of periods in which the local backend was unhealthy. */
module Downtime {
  import opened Options
  import opened Sets

  type Time = int

  /** end is None while the period lasts. */
  datatype Interval = Interval(start: Time, end: Option<Time>)

  datatype Report = Report(at: Time, healthy: bool)

  /** The state after the reports; a backend starts healthy. */
  function HealthyAfter(reports: seq<Report>): bool {
    reports == [] || reports[|reports| - 1].healthy
  }

  /** The time of the last report, or of the start. */
  function LastTime(startTime: Time, reports: seq<Report>): Time {
    if reports == [] then startTime else reports[|reports| - 1].at
  }

  predicate Ordered(startTime: Time, reports: seq<Report>) {
    && (reports != [] ==> startTime <= reports[0].at)
    && forall i, j | 0 <= i < j < |reports| :: reports[i].at <= reports[j].at
  }

  /** The time spent unhealthy from the start until t, measured from the reports. */
  function TimeDown(startTime: Time, reports: seq<Report>, t: Time): int {
    if reports == [] then 0
    else
      var n := |reports| - 1;
      TimeDown(startTime, reports[..n], reports[n].at) + if reports[n].healthy then 0 else t - reports[n].at
  }

  /** The last report up to time x says unhealthy. */
  ghost predicate DownAt(reports: seq<Report>, x: Time) {
    exists i :: 0 <= i < |reports| && !reports[i].healthy && LastBefore(reports, i, x)
  }

  ghost predicate LastBefore(reports: seq<Report>, i: nat, x: Time)
    requires i < |reports|
  {
    reports[i].at <= x && forall j | i < j < |reports| :: x < reports[j].at
  }

  /** The instants from the start until t at which the backend was unhealthy. */
  ghost function DownTimes(startTime: Time, reports: seq<Report>, t: Time): set<Time> {
    set x | startTime <= x < t && DownAt(reports, x)
  }

  predicate Within(a: Time, b: Time, x: Time) {
    a <= x < b
  }

  function Span(a: Time, b: Time): set<Time> {
    set x | a <= x < b && Within(a, b, x)
  }

  lemma {:induction false} SpanSize(a: Time, b: Time)
    requires a <= b
    ensures |Span(a, b)| == b - a
    decreases b - a
  {
    if a < b {
      SpanSize(a, b - 1);
      assert Span(a, b) == Span(a, b - 1) + {b - 1};
    } else {
      assert Span(a, b) == {};
    }
  }

  lemma DownAtSnoc(reports: seq<Report>, r: Report, x: Time)
    ensures x >= r.at ==> (DownAt(reports + [r], x) <==> !r.healthy)
    ensures x < r.at ==> (DownAt(reports + [r], x) <==> DownAt(reports, x))
  {
    var all, n := reports + [r], |reports|;
    assert all[n] == r;
    if x >= r.at {
      assert LastBefore(all, n, x);
      forall i | 0 <= i < n ensures !LastBefore(all, i, x) {
      }
    } else {
      assert !LastBefore(all, n, x);
      forall i | 0 <= i < n ensures LastBefore(all, i, x) <==> LastBefore(reports, i, x) {
        assert forall j | i < j < n :: all[j] == reports[j];
        if LastBefore(reports, i, x) {
          assert forall j | i < j < n + 1 :: x < all[j].at;
        }
      }
      assert forall i | 0 <= i < n :: all[i] == reports[i];
    }
  }

  lemma DownTimesSnoc(startTime: Time, before: seq<Report>, r: Report, t: Time)
    requires startTime <= r.at <= t
    ensures var down, last := DownTimes(startTime, before, r.at), if r.healthy then {} else Span(r.at, t);
            DownTimes(startTime, before + [r], t) == down + last && |down + last| == |down| + |last|
  {
    var down, last := DownTimes(startTime, before, r.at), if r.healthy then {} else Span(r.at, t);
    forall x ensures x in DownTimes(startTime, before + [r], t) <==> x in down + last {
      DownAtSnoc(before, r, x);
    }
    SizeOfUnion(down, last);
  }

  /** The time spent unhealthy is the number of instants at which the backend was unhealthy. */
  lemma {:induction false} TimeDownCounts(startTime: Time, reports: seq<Report>, t: Time)
    requires Ordered(startTime, reports) && LastTime(startTime, reports) <= t
    ensures TimeDown(startTime, reports, t) == |DownTimes(startTime, reports, t)|
  {
    if reports == [] {
      assert DownTimes(startTime, reports, t) == {};
    } else {
      var n := |reports| - 1;
      var r, before := reports[n], reports[..n];
      assert Ordered(startTime, before) && reports == before + [r];
      TimeDownCounts(startTime, before, r.at);
      SpanSize(r.at, t);
      DownTimesSnoc(startTime, before, r, t);
    }
  }

  /** The total of the logged periods at time t, as the status page adds it up. */
  function Total(log: seq<Interval>, t: Time): int {
    if log == [] then 0
    else
      var last := log[|log| - 1];
      Total(log[..|log| - 1], t) + (if last.end.None? then t else last.end.value) - last.start
  }

  /** All periods but the last are closed; they are in order and do not overlap. */
  ghost predicate InOrder(startTime: Time, log: seq<Interval>) {
    && (log != [] ==> startTime <= log[0].start)
    && (forall i | 0 <= i < |log| - 1 :: log[i].end.Some? && log[i].end.value <= log[i + 1].start)
    && (forall i | 0 <= i < |log| && log[i].end.Some? :: log[i].start <= log[i].end.value)
  }

  lemma {:induction false} ClosedTotal(log: seq<Interval>, t: Time, u: Time)
    requires forall i | 0 <= i < |log| :: log[i].end.Some?
    ensures Total(log, t) == Total(log, u)
  {
    if log != [] {
      ClosedTotal(log[..|log| - 1], t, u);
    }
  }

  lemma {:induction false} TimeDownBounded(startTime: Time, reports: seq<Report>, t: Time)
    requires Ordered(startTime, reports) && LastTime(startTime, reports) <= t
    ensures 0 <= TimeDown(startTime, reports, t) <= t - startTime
  {
    if reports != [] {
      var n := |reports| - 1;
      assert Ordered(startTime, reports[..n]);
      TimeDownBounded(startTime, reports[..n], reports[n].at);
    }
  }

  /** The log agrees with the reports: its last period is open exactly when the last state was
      unhealthy, and its total is the time spent unhealthy. */
  ghost predicate Agrees(startTime: Time, log: seq<Interval>, reports: seq<Report>) {
    && Ordered(startTime, reports) && InOrder(startTime, log)
    && (log != [] && log[|log| - 1].end.None? <==> !HealthyAfter(reports))
    && (log != [] ==> log[|log| - 1].start <= LastTime(startTime, reports))
    && (log != [] && log[|log| - 1].end.Some? ==> log[|log| - 1].end.value <= LastTime(startTime, reports))
    && forall t :: Total(log, t) == TimeDown(startTime, reports, t)
  }

  lemma SameState(startTime: Time, log: seq<Interval>, reports: seq<Report>, r: Report)
    requires Agrees(startTime, log, reports) && LastTime(startTime, reports) <= r.at
    requires r.healthy == HealthyAfter(reports)
    ensures Agrees(startTime, log, reports + [r])
  {
    assert (reports + [r])[..|reports|] == reports;
    forall t ensures Total(log, t) == TimeDown(startTime, reports + [r], t) {
      if r.healthy && log != [] {
        ClosedTotal(log, t, r.at);
      }
    }
  }

  lemma Opens(startTime: Time, log: seq<Interval>, reports: seq<Report>, r: Report)
    requires Agrees(startTime, log, reports) && LastTime(startTime, reports) <= r.at
    requires !r.healthy && HealthyAfter(reports)
    ensures Agrees(startTime, log + [Interval(r.at, None)], reports + [r])
  {
    var log' := log + [Interval(r.at, None)];
    assert (reports + [r])[..|reports|] == reports && log'[..|log|] == log;
    forall t ensures Total(log', t) == TimeDown(startTime, reports + [r], t) {
      ClosedTotal(log, t, r.at);
    }
  }

  lemma Closes(startTime: Time, log: seq<Interval>, reports: seq<Report>, r: Report)
    requires Agrees(startTime, log, reports) && LastTime(startTime, reports) <= r.at
    requires r.healthy && !HealthyAfter(reports)
    ensures var n := |log| - 1;
            n >= 0 && log[n].end.None? && Agrees(startTime, log[n := log[n].(end := Some(r.at))], reports + [r])
  {
    var n := |log| - 1;
    var log' := log[n := log[n].(end := Some(r.at))];
    assert (reports + [r])[..|reports|] == reports && log'[..n] == log[..n];
    forall t ensures Total(log', t) == TimeDown(startTime, reports + [r], t) {
      ClosedTotal(log', t, r.at);
      assert Total(log', r.at) == Total(log, r.at);
    }
  }

  class Log {
    var downtimeIntervals: seq<Interval>
    var lastHealthyState: bool
    const startTime: Time

    ghost var reports: seq<Report>

    ghost predicate Valid()
      reads this
    {
      Agrees(startTime, downtimeIntervals, reports) && lastHealthyState == HealthyAfter(reports)
    }

    constructor (startTime: Time)
      ensures Valid() && this.startTime == startTime && downtimeIntervals == [] && reports == []
    {
      downtimeIntervals, lastHealthyState, this.startTime, reports := [], true, startTime, [];
    }

    method TrackHealthTransition(nowHealthy: bool, now: Time)
      requires Valid() && LastTime(startTime, reports) <= now
      modifies this
      ensures Valid() && reports == old(reports) + [Report(now, nowHealthy)]
    {
      ghost var r := Report(now, nowHealthy);
      if lastHealthyState && !nowHealthy {
        Opens(startTime, downtimeIntervals, reports, r);
        downtimeIntervals := downtimeIntervals + [Interval(now, None)];
      } else if !lastHealthyState && nowHealthy {
        Closes(startTime, downtimeIntervals, reports, r);
        if |downtimeIntervals| > 0 {
          var lastIdx := |downtimeIntervals| - 1;
          if downtimeIntervals[lastIdx].end.None? {
            downtimeIntervals := downtimeIntervals[lastIdx := downtimeIntervals[lastIdx].(end := Some(now))];
          }
        }
      } else {
        SameState(startTime, downtimeIntervals, reports, r);
      }
      lastHealthyState := nowHealthy;
      reports := reports + [r];
    }

    /** The status page's downtime figure: the time actually spent unhealthy, at most the uptime. */
    method TotalDowntime(now: Time) returns (total: int)
      requires Valid() && LastTime(startTime, reports) <= now
      ensures total == TimeDown(startTime, reports, now) && 0 <= total <= now - startTime
      ensures total == |DownTimes(startTime, reports, now)|
    {
      total := 0;
      for i := 0 to |downtimeIntervals|
        invariant total == Total(downtimeIntervals[..i], now)
      {
        assert downtimeIntervals[..i + 1][..i] == downtimeIntervals[..i];
        if downtimeIntervals[i].end.None? {
          total := total + (now - downtimeIntervals[i].start);
        } else {
          total := total + (downtimeIntervals[i].end.value - downtimeIntervals[i].start);
        }
      }
      assert downtimeIntervals[..|downtimeIntervals|] == downtimeIntervals;
      TimeDownBounded(startTime, reports, now);
      TimeDownCounts(startTime, reports, now);
    }
  }
}
