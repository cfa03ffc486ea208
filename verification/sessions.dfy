/**
  The detector driven by a stream of readings: the callback applied to each
  reading in turn, and what a whole measurement reports.
 */
module Sessions {
  import opened Detector

  /** One linear-acceleration reading together with the time it is handled. */
  datatype Sample = Sample(x: real, y: real, z: real, now: int)

  /** The state after a stream of readings, and what each reading reported. */
  datatype Trace = Trace(final: State, reports: seq<Option<real>>)

  function SamplePower(smp: Sample): (p: real)
    ensures p >= 0.0
  {
    Power(smp.x, smp.y, smp.z)
  }

  function StepSample(s: State, smp: Sample): (r: StepResult)
  {
    Step(s, smp.x, smp.y, smp.z, smp.now)
  }

  /** Feeds the readings to the callback one after another, starting in `s`;
      reading `i` produces report `i`. */
  function Run(s: State, ss: seq<Sample>): (t: Trace)
    ensures |t.reports| == |ss|
    decreases |ss|
  {
    if |ss| == 0 then Trace(s, [])
    else
      var r := StepSample(s, ss[0]);
      var rest := Run(r.next, ss[1..]);
      Trace(rest.final, [r.completedWith] + rest.reports)
  }

  /** The largest of `m` and the powers of the readings in `ss`. */
  function PeakFrom(m: real, ss: seq<Sample>): (r: real)
    ensures r >= m
    ensures forall i :: 0 <= i < |ss| ==> r >= SamplePower(ss[i])
    ensures r == m || exists i :: 0 <= i < |ss| && r == SamplePower(ss[i])
    decreases |ss|
  {
    if |ss| == 0 then m
    else
      var r := PeakFrom(Max(m, SamplePower(ss[0])), ss[1..]);
      assert forall i :: 1 <= i < |ss| ==> ss[i] == ss[1..][i - 1];
      r
  }

  /** No reading of the stream reported a completed measurement. */
  predicate Silent(reports: seq<Option<real>>)
  {
    forall i :: 0 <= i < |reports| ==> reports[i].None?
  }

  /** Running two streams back to back is running their concatenation. */
  lemma {:induction false} RunAppend(s: State, a: seq<Sample>, b: seq<Sample>)
    ensures Run(s, a + b).final == Run(Run(s, a).final, b).final
    ensures Run(s, a + b).reports == Run(s, a).reports + Run(Run(s, a).final, b).reports
    decreases |a|
  {
    if |a| > 0 {
      assert (a + b)[0] == a[0];
      assert (a + b)[1..] == a[1..] + b;
      RunAppend(StepSample(s, a[0]).next, a[1..], b);
    } else {
      assert a + b == b;
    }
  }

  /** While idle, readings that never exceed the threshold change nothing and
      report nothing, however many of them there are. */
  lemma {:induction false} QuietStreamStaysIdle(s: State, ss: seq<Sample>)
    requires !s.isStart
    requires forall i :: 0 <= i < |ss| ==> SamplePower(ss[i]) <= StartThreshold
    ensures Run(s, ss).final == s
    ensures Silent(Run(s, ss).reports)
    decreases |ss|
  {
    if |ss| > 0 {
      assert forall i :: 0 <= i < |ss[1..]| ==> ss[1..][i] == ss[i + 1];
      QuietStreamStaysIdle(s, ss[1..]);
    }
  }

  /** While a measurement runs, readings no later than the window's end keep
      it running from the same start time, report nothing, and leave as peak
      the largest of the old peak and their powers. */
  lemma {:induction false} WindowAccumulatesPeak(s: State, ss: seq<Sample>)
    requires s.isStart
    requires forall i :: 0 <= i < |ss| ==> ss[i].now - s.startTime <= WindowMs
    ensures Run(s, ss).final == State(PeakFrom(s.maxPower, ss), true, s.startTime)
    ensures Silent(Run(s, ss).reports)
    decreases |ss|
  {
    if |ss| > 0 {
      var r := StepSample(s, ss[0]);
      assert forall i :: 0 <= i < |ss[1..]| ==> ss[1..][i] == ss[i + 1];
      WindowAccumulatesPeak(r.next, ss[1..]);
    }
  }

  /** A running measurement fed readings within the window and then the
      first reading strictly past it: only that reading reports, and it
      reports the largest of the old peak and all their powers. */
  lemma RunningMeasurementCompletes(s: State, window: seq<Sample>, last: Sample)
    requires s.isStart
    requires forall i :: 0 <= i < |window| ==> window[i].now - s.startTime <= WindowMs
    requires last.now - s.startTime > WindowMs
    ensures var t := Run(s, window + [last]);
            var peak := PeakFrom(s.maxPower, window + [last]);
            && t.final == State(peak, false, s.startTime)
            && t.reports == Run(s, window).reports + [Some(peak)]
            && Silent(Run(s, window).reports)
  {
    RunAppend(s, window, [last]);
    WindowAccumulatesPeak(s, window);
    PeakAppendOne(s.maxPower, window, last);
    var running := Run(s, window).final;
    var lastStep := StepSample(running, last);
    assert Run(running, [last]) == Trace(lastStep.next, [lastStep.completedWith]);
  }

  lemma SilentAppend(a: seq<Option<real>>, b: seq<Option<real>>)
    requires Silent(a) && Silent(b)
    ensures Silent(a + b)
  {
  }

  /** One whole measurement, starting idle: some readings at or below the
      threshold, the reading that exceeds it, readings within the window, and
      the first reading strictly past the window. Only that last reading
      reports, and it reports the largest of the old peak and the powers of
      every reading from the activating one to itself; afterwards the detector
      is idle, with that peak and the activation time still in its fields. */
  lemma MeasurementReportsPeak(
    s: State, quiet: seq<Sample>, trigger: Sample, window: seq<Sample>, last: Sample)
    requires !s.isStart
    requires forall i :: 0 <= i < |quiet| ==> SamplePower(quiet[i]) <= StartThreshold
    requires SamplePower(trigger) > StartThreshold
    requires forall i :: 0 <= i < |window| ==> window[i].now - trigger.now <= WindowMs
    requires last.now - trigger.now > WindowMs
    ensures var t := Run(s, quiet + [trigger] + window + [last]);
            var peak := PeakFrom(s.maxPower, [trigger] + window + [last]);
            && t.final == State(peak, false, trigger.now)
            && t.reports[|t.reports| - 1] == Some(peak)
            && Silent(t.reports[..|t.reports| - 1])
  {
    var tail := [trigger] + window + [last];
    assert quiet + [trigger] + window + [last] == quiet + tail;
    RunAppend(s, quiet, tail);
    QuietStreamStaysIdle(s, quiet);

    var started := StepSample(s, trigger).next;
    assert started == State(Max(s.maxPower, SamplePower(trigger)), true, trigger.now);
    assert tail[0] == trigger && tail[1..] == window + [last];
    RunningMeasurementCompletes(started, window, last);
    var session := Run(started, window).reports;
    assert Run(s, tail).reports == [None] + session + [Some(PeakFrom(started.maxPower, window + [last]))];

    var t := Run(s, quiet + tail);
    assert t.reports[..|t.reports| - 1] == Run(s, quiet).reports + [None] + session;
    assert Silent([None]);
    SilentAppend(Run(s, quiet).reports, [None]);
    SilentAppend(Run(s, quiet).reports + [None], session);
  }

  /** Extending a stream by one reading raises its peak to that reading's power. */
  lemma {:induction false} PeakAppendOne(m: real, ss: seq<Sample>, smp: Sample)
    ensures PeakFrom(m, ss + [smp]) == Max(PeakFrom(m, ss), SamplePower(smp))
    decreases |ss|
  {
    if |ss| == 0 {
      assert ss + [smp] == [smp];
    } else {
      assert (ss + [smp])[1..] == ss[1..] + [smp];
      PeakAppendOne(Max(m, SamplePower(ss[0])), ss[1..], smp);
    }
  }

  /** The first measurement after the game's reset reports the largest power
      among the readings from the activating one to the completing one: no
      reading of that stretch is stronger, and one of them has exactly it. */
  lemma MeasurementFromResetReportsMaximum(
    quiet: seq<Sample>, trigger: Sample, window: seq<Sample>, last: Sample)
    requires forall i :: 0 <= i < |quiet| ==> SamplePower(quiet[i]) <= StartThreshold
    requires SamplePower(trigger) > StartThreshold
    requires forall i :: 0 <= i < |window| ==> window[i].now - trigger.now <= WindowMs
    requires last.now - trigger.now > WindowMs
    ensures var reports := Run(Init(), quiet + [trigger] + window + [last]).reports;
            var session := [trigger] + window + [last];
            && reports[|reports| - 1].Some?
            && (forall i :: 0 <= i < |session| ==> reports[|reports| - 1].value >= SamplePower(session[i]))
            && (exists i :: 0 <= i < |session| && reports[|reports| - 1].value == SamplePower(session[i]))
  {
    MeasurementReportsPeak(Init(), quiet, trigger, window, last);
    var session := [trigger] + window + [last];
    var peak := PeakFrom(0.0, session);
    assert session[0] == trigger;
    assert peak >= SamplePower(trigger) > 0.0;
  }

  /** From any idle state, a complete measurement reports at least the peak
      the state already holds. */
  lemma NextMeasurementKeepsPeak(
    s: State, quiet: seq<Sample>, trigger: Sample, window: seq<Sample>, last: Sample)
    requires !s.isStart
    requires forall i :: 0 <= i < |quiet| ==> SamplePower(quiet[i]) <= StartThreshold
    requires SamplePower(trigger) > StartThreshold
    requires forall i :: 0 <= i < |window| ==> window[i].now - trigger.now <= WindowMs
    requires last.now - trigger.now > WindowMs
    ensures var reports := Run(s, quiet + [trigger] + window + [last]).reports;
            reports[|reports| - 1].Some? && reports[|reports| - 1].value >= s.maxPower
  {
    MeasurementReportsPeak(s, quiet, trigger, window, last);
  }

  /** A worked stream: idle, a start at 10 ms with power 27, a weaker reading,
      a stronger one with power 48, and a reading 3590 ms after the start,
      which completes the measurement with 48. */
  lemma WorkedExample()
    ensures var ss := [Sample(0.0, 0.0, 0.0, 0), Sample(3.0, 3.0, 3.0, 10), Sample(1.0, 1.0, 1.0, 500),
                       Sample(4.0, 4.0, 4.0, 2000), Sample(0.0, 0.0, 0.0, 3600)];
            Run(Init(), ss) == Trace(State(48.0, false, 10), [None, None, None, None, Some(48.0)])
  {
  }

  /** Completion does not clear the peak, so a second measurement run without
      the game's reset reports at least what the first one reported. */
  lemma SecondMeasurementReportsAtLeastFirst(
    s: State, done: Sample, quiet: seq<Sample>, trigger: Sample, window: seq<Sample>, last: Sample)
    requires StepSample(s, done).completedWith.Some?
    requires forall i :: 0 <= i < |quiet| ==> SamplePower(quiet[i]) <= StartThreshold
    requires SamplePower(trigger) > StartThreshold
    requires forall i :: 0 <= i < |window| ==> window[i].now - trigger.now <= WindowMs
    requires last.now - trigger.now > WindowMs
    ensures var first := StepSample(s, done);
            var reports := Run(first.next, quiet + [trigger] + window + [last]).reports;
            reports[|reports| - 1].Some? && reports[|reports| - 1].value >= first.completedWith.value
  {
    NextMeasurementKeepsPeak(StepSample(s, done).next, quiet, trigger, window, last);
  }
}
