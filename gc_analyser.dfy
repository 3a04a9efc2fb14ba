/**
 * Pause aggregation over a GC log. Each line is either a "total time for
 * which application threads were stopped" line carrying a pause duration, a
 * GC line carrying a timestamp, or neither. Pauses are summed (and their
 * maximum kept) per accepted timestamp; when a later accepted timestamp
 * arrives with a non-zero total, one pause record and one percent record are
 * emitted for the previous timestamp and the totals restart, and at the end
 * of the log a last pause record is emitted for a pending non-zero total.
 */
module GcAnalysis {
  import opened Wrappers

  /** A pause duration in seconds, as matched by `[0-9.]+`. */
  type Duration = r: real | 0.0 <= r

  /**
   * One log line as the two patterns see it: the duration captured by the
   * stopped-time pattern and the timestamp (milliseconds) captured by the GC
   * line pattern, `None` where a pattern does not match.
   */
  datatype LogLine = LogLine(stopped: Option<Duration>, stamp: Option<int>)

  /** A line of the pause file: timestamp, total pause and longest pause. */
  datatype PauseRecord = PauseRecord(timestamp: int, totalTime: real, maxTime: real)

  /** A line of the percent file: the new timestamp, the previous one and the total pause between. */
  datatype PercentRecord = PercentRecord(timestamp: int, lastTimestamp: int, totalTime: real)

  /** The analyser's variables and what it has written so far. */
  datatype Analysis = Analysis(
    currentDateTime: Option<int>,
    totalTime: real,
    maxTime: real,
    pauses: seq<PauseRecord>,
    percents: seq<PercentRecord>)

  /** Both output files at the end of the run. */
  datatype Report = Report(pauses: seq<PauseRecord>, percents: seq<PercentRecord>)

  const Start: Analysis := Analysis(None, 0.0, 0.0, [], [])

  function Max(a: real, b: real): real
  {
    if a >= b then a else b
  }

  /** What the analyser does with one line; the stopped-time pattern is tried first. */
  function Step(a: Analysis, line: LogLine, monitoringStart: int): Analysis
  {
    match line.stopped
    case Some(d) =>
      if a.currentDateTime.Some? then a.(totalTime := a.totalTime + d, maxTime := Max(a.maxTime, d))
      else a
    case None =>
      match line.stamp
      case None => a
      case Some(t) =>
        if t <= monitoringStart then a
        else if a.currentDateTime.Some? && a.totalTime != 0.0 then
          var last := a.currentDateTime.value;
          Analysis(Some(t), 0.0, 0.0,
                   a.pauses + [PauseRecord(last, a.totalTime, a.maxTime)],
                   a.percents + [PercentRecord(t, last, a.totalTime)])
        else
          a.(currentDateTime := Some(t))
  }

  /** The analyser's state after reading `lines`. */
  function Scan(lines: seq<LogLine>, monitoringStart: int): Analysis
    decreases |lines|
  {
    if lines == [] then Start
    else Step(Scan(lines[..|lines| - 1], monitoringStart), lines[|lines| - 1], monitoringStart)
  }

  /** The final flush: a last pause record for a pending non-zero total. */
  function Finish(a: Analysis): Report
  {
    if a.currentDateTime.Some? && a.totalTime != 0.0 then
      Report(a.pauses + [PauseRecord(a.currentDateTime.value, a.totalTime, a.maxTime)], a.percents)
    else
      Report(a.pauses, a.percents)
  }

  /**
   * `runAnalysis`: reads the lines one by one, updating the current
   * timestamp and the pause totals, appending records as it goes.
   */
  method RunAnalysis(lines: seq<LogLine>, monitoringStart: int)
    returns (pauses: seq<PauseRecord>, percents: seq<PercentRecord>)
    ensures Report(pauses, percents) == Finish(Scan(lines, monitoringStart))
  {
    var currentDateTime: Option<int> := None;
    var totalTime: real := 0.0;
    var maxTime: real := 0.0;
    pauses, percents := [], [];
    var i := 0;
    while i < |lines|
      invariant 0 <= i <= |lines|
      invariant Analysis(currentDateTime, totalTime, maxTime, pauses, percents) == Scan(lines[..i], monitoringStart)
    {
      var line := lines[i];
      assert lines[..i + 1][..i] == lines[..i];
      if line.stopped.Some? {
        if currentDateTime.Some? {
          var d := line.stopped.value;
          totalTime := totalTime + d;
          maxTime := Max(maxTime, d);
        }
      } else if line.stamp.Some? {
        var dateTime := line.stamp.value;
        if dateTime > monitoringStart {
          if currentDateTime.Some? {
            if totalTime != 0.0 {
              pauses := pauses + [PauseRecord(currentDateTime.value, totalTime, maxTime)];
              percents := percents + [PercentRecord(dateTime, currentDateTime.value, totalTime)];
              totalTime := 0.0;
              maxTime := 0.0;
            }
          }
          currentDateTime := Some(dateTime);
        }
      }
      i := i + 1;
    }
    assert lines[..i] == lines;
    if currentDateTime.Some? && totalTime != 0.0 {
      pauses := pauses + [PauseRecord(currentDateTime.value, totalTime, maxTime)];
    }
  }

  // ---------------------------------------------------------------------------
  // One line at a time

  /** A pause line before any accepted timestamp changes nothing and writes nothing. */
  lemma PauseBeforeTimestampIgnored(a: Analysis, line: LogLine, monitoringStart: int)
    requires line.stopped.Some? && a.currentDateTime.None?
    ensures Step(a, line, monitoringStart) == a
  {
  }

  /** A pause line after an accepted timestamp adds to the total and raises the maximum, writing nothing. */
  lemma PauseAccumulates(a: Analysis, d: Duration, stamp: Option<int>, monitoringStart: int)
    requires a.currentDateTime.Some?
    ensures Step(a, LogLine(Some(d), stamp), monitoringStart)
         == a.(totalTime := a.totalTime + d, maxTime := Max(a.maxTime, d))
  {
  }

  /** A pause line is never treated as a timestamp line, whatever the GC pattern would capture from it. */
  lemma PauseLineIsNoTimestamp(a: Analysis, d: Duration, stamp: Option<int>, monitoringStart: int)
    ensures Step(a, LogLine(Some(d), stamp), monitoringStart).currentDateTime == a.currentDateTime
    ensures Step(a, LogLine(Some(d), stamp), monitoringStart)
         == Step(a, LogLine(Some(d), None), monitoringStart)
  {
  }

  /** A timestamp not after the monitoring start changes nothing and writes nothing. */
  lemma EarlyTimestampIgnored(a: Analysis, t: int, monitoringStart: int)
    requires t <= monitoringStart
    ensures Step(a, LogLine(None, Some(t)), monitoringStart) == a
  {
  }

  /**
   * An accepted timestamp becomes the current one. It flushes one pause
   * record for the previous timestamp and one percent record, and restarts
   * the totals, exactly when there was a previous timestamp and a non-zero
   * total; otherwise it writes nothing and keeps the totals.
   */
  lemma AcceptedTimestamp(a: Analysis, t: int, monitoringStart: int)
    requires t > monitoringStart
    ensures Step(a, LogLine(None, Some(t)), monitoringStart).currentDateTime == Some(t)
    ensures a.currentDateTime.Some? && a.totalTime != 0.0 ==>
              Step(a, LogLine(None, Some(t)), monitoringStart)
              == Analysis(Some(t), 0.0, 0.0,
                          a.pauses + [PauseRecord(a.currentDateTime.value, a.totalTime, a.maxTime)],
                          a.percents + [PercentRecord(t, a.currentDateTime.value, a.totalTime)])
    ensures !(a.currentDateTime.Some? && a.totalTime != 0.0) ==>
              Step(a, LogLine(None, Some(t)), monitoringStart) == a.(currentDateTime := Some(t))
  {
  }

  // ---------------------------------------------------------------------------
  // Invariants of the whole run

  /** Does `line` carry a timestamp the analyser accepts? */
  predicate Accepts(line: LogLine, monitoringStart: int)
  {
    line.stopped.None? && line.stamp.Some? && line.stamp.value > monitoringStart
  }

  /** Has some line of `lines` been accepted as a timestamp? */
  predicate AnyAccepted(lines: seq<LogLine>, monitoringStart: int)
  {
    exists k :: 0 <= k < |lines| && Accepts(lines[k], monitoringStart)
  }

  /**
   * Reference definition of the pause time the analyser must account for:
   * the durations of all pause lines that follow some accepted timestamp.
   */
  function CountedPause(lines: seq<LogLine>, monitoringStart: int): real
    decreases |lines|
  {
    if lines == [] then 0.0
    else
      var init, last := lines[..|lines| - 1], lines[|lines| - 1];
      CountedPause(init, monitoringStart)
        + (if last.stopped.Some? && AnyAccepted(init, monitoringStart) then last.stopped.value else 0.0)
  }

  function SumTotals(pauses: seq<PauseRecord>): real
    decreases |pauses|
  {
    if pauses == [] then 0.0 else SumTotals(pauses[..|pauses| - 1]) + pauses[|pauses| - 1].totalTime
  }

  /** Every record is for an accepted timestamp, with a positive total no smaller than its maximum. */
  predicate WellFormedRecord(r: PauseRecord, monitoringStart: int)
  {
    r.timestamp > monitoringStart && 0.0 <= r.maxTime <= r.totalTime && r.totalTime > 0.0
  }

  /** What holds of the analyser's state after any prefix of the log. */
  predicate Invariant(a: Analysis, lines: seq<LogLine>, monitoringStart: int)
  {
    && 0.0 <= a.maxTime <= a.totalTime
    && (a.currentDateTime.Some? <==> AnyAccepted(lines, monitoringStart))
    && (a.currentDateTime.Some? ==> a.currentDateTime.value > monitoringStart)
    && (a.currentDateTime.None? ==> a.totalTime == 0.0 && a.pauses == [])
    && |a.pauses| == |a.percents|
    && (forall k :: 0 <= k < |a.pauses| ==> WellFormedRecord(a.pauses[k], monitoringStart))
    && (forall k :: 0 <= k < |a.percents| ==>
          a.percents[k].lastTimestamp == a.pauses[k].timestamp
          && a.percents[k].totalTime == a.pauses[k].totalTime
          && a.percents[k].timestamp > monitoringStart)
    && SumTotals(a.pauses) + a.totalTime == CountedPause(lines, monitoringStart)
  }

  lemma AnyAcceptedSnoc(init: seq<LogLine>, line: LogLine, monitoringStart: int)
    ensures AnyAccepted(init + [line], monitoringStart)
        <==> AnyAccepted(init, monitoringStart) || Accepts(line, monitoringStart)
  {
    var lines := init + [line];
    if AnyAccepted(init, monitoringStart) {
      var k :| 0 <= k < |init| && Accepts(init[k], monitoringStart);
      assert lines[k] == init[k];
    }
    if AnyAccepted(lines, monitoringStart) && !Accepts(line, monitoringStart) {
      var k :| 0 <= k < |lines| && Accepts(lines[k], monitoringStart);
      assert k < |init| && init[k] == lines[k];
    }
    if Accepts(line, monitoringStart) {
      assert lines[|init|] == line;
    }
  }

  /** One more line keeps the invariant. */
  lemma StepKeepsInvariant(a: Analysis, init: seq<LogLine>, line: LogLine, monitoringStart: int)
    requires Invariant(a, init, monitoringStart)
    ensures Invariant(Step(a, line, monitoringStart), init + [line], monitoringStart)
  {
    var lines := init + [line];
    assert lines[..|lines| - 1] == init && lines[|lines| - 1] == line;
    AnyAcceptedSnoc(init, line, monitoringStart);
    var b := Step(a, line, monitoringStart);
    if line.stopped.Some? {
      assert b.pauses == a.pauses && b.percents == a.percents;
    } else if Accepts(line, monitoringStart) && a.currentDateTime.Some? && a.totalTime != 0.0 {
      var r := PauseRecord(a.currentDateTime.value, a.totalTime, a.maxTime);
      assert b.pauses == a.pauses + [r];
      assert b.pauses[..|b.pauses| - 1] == a.pauses;
      assert SumTotals(b.pauses) == SumTotals(a.pauses) + a.totalTime;
    } else {
      assert b.pauses == a.pauses && b.percents == a.percents && b.totalTime == a.totalTime;
    }
  }

  /** The invariant holds after every prefix of the log. */
  lemma {:induction false} ScanInvariant(lines: seq<LogLine>, monitoringStart: int)
    ensures Invariant(Scan(lines, monitoringStart), lines, monitoringStart)
    decreases |lines|
  {
    if lines != [] {
      var init, line := lines[..|lines| - 1], lines[|lines| - 1];
      assert lines == init + [line];
      ScanInvariant(init, monitoringStart);
      StepKeepsInvariant(Scan(init, monitoringStart), init, line, monitoringStart);
    }
  }

  /**
   * At the end of the log there is one more pause record than percent
   * records exactly when a timestamp was accepted and its total is non-zero,
   * and as many otherwise; every pause record is well formed.
   */
  lemma RecordCounts(lines: seq<LogLine>, monitoringStart: int)
    ensures var a := Scan(lines, monitoringStart);
            var r := Finish(a);
            var flush := a.currentDateTime.Some? && a.totalTime != 0.0;
            && |r.pauses| == |r.percents| + (if flush then 1 else 0)
            && (forall k :: 0 <= k < |r.pauses| ==> WellFormedRecord(r.pauses[k], monitoringStart))
  {
    ScanInvariant(lines, monitoringStart);
  }

  /**
   * No pause time is lost or counted twice: the totals of the pause records
   * add up to the durations of all pause lines after the first accepted
   * timestamp.
   */
  lemma NoPauseTimeLost(lines: seq<LogLine>, monitoringStart: int)
    ensures SumTotals(Finish(Scan(lines, monitoringStart)).pauses) == CountedPause(lines, monitoringStart)
  {
    var a := Scan(lines, monitoringStart);
    ScanInvariant(lines, monitoringStart);
    var ps := Finish(a).pauses;
    if a.currentDateTime.Some? && a.totalTime != 0.0 {
      assert ps[..|ps| - 1] == a.pauses;
    }
  }

  /** A log without any accepted timestamp produces no output at all. */
  lemma NoTimestampNoOutput(lines: seq<LogLine>, monitoringStart: int)
    requires !AnyAccepted(lines, monitoringStart)
    ensures Finish(Scan(lines, monitoringStart)) == Report([], [])
  {
    ScanInvariant(lines, monitoringStart);
  }
}
