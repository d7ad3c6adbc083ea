/** The agent's collector, whose one piece of state is the previous reading. */
module Collection {
  import opened Common
  import opened Numerals
  import opened Database
  import opened Counters

  datatype NetCounters = NetCounters(receive: Word, transmit: Word)

  /** What one pass over the kernel's files found. */
  datatype Readings = Readings(cpu: CpuStats, memoryUsed: nat, load1: real, net: NetCounters, diskUsed: nat)

  datatype CounterSample = CounterSample(at: Instant, cpu: CpuStats, net: NetCounters)

  /** One call of the collector; a file that cannot be read or parsed leaves no readings. */
  datatype Pass = Pass(at: Instant, readings: Option<Readings>)

  function MetricsFrom(previous: Option<CounterSample>, at: Instant, now: Readings): Metrics {
    match previous
    case None => Metrics(0.0, now.memoryUsed, now.diskUsed, now.load1, 0.0, 0.0)
    case Some(p) =>
      Metrics(CpuPercent(p.cpu, now.cpu), now.memoryUsed, now.diskUsed, now.load1,
              CounterRate(p.net.receive, now.net.receive, at - p.at),
              CounterRate(p.net.transmit, now.net.transmit, at - p.at))
  }

  class Collector {
    var previous: Option<CounterSample>

    constructor ()
      ensures previous == None
    {
      previous := None;
    }

    /** A failed pass leaves the previous reading in place; a report always starts the next interval. */
    method SampleAt(node: NodeId, pass: Pass) returns (report: Option<Report>)
      modifies this
      ensures (report, previous) == Collect(old(previous), node, pass)
      ensures report.Some? <==> Reportable(node, pass)
      ensures previous == if report.Some? then Some(Kept(pass)) else old(previous)
      ensures report.Some? ==>
                && report.value.node == node
                && Shows(old(previous), pass.at, pass.readings.value, report.value.metrics)
    {
      CollectsReportable(previous, node, pass);
      if pass.readings.None? {
        return None;
      }
      MetricsShow(previous, pass.at, pass.readings.value);
      var now := pass.readings.value;
      var cpu, ingress, egress := 0.0, 0.0, 0.0;
      if previous.Some? {
        cpu := CpuPercent(previous.value.cpu, now.cpu);
        var elapsed := pass.at - previous.value.at;
        ingress := CounterRate(previous.value.net.receive, now.net.receive, elapsed);
        egress := CounterRate(previous.value.net.transmit, now.net.transmit, elapsed);
      }
      var made := Report(node, Metrics(cpu, now.memoryUsed, now.diskUsed, now.load1, ingress, egress));
      if !ValidReport(made) {
        return None;
      }
      previous := Some(CounterSample(pass.at, now.cpu, now.net));
      return Some(made);
    }
  }

  function Collect(previous: Option<CounterSample>, node: NodeId, pass: Pass): (Option<Report>, Option<CounterSample>) {
    if pass.readings.None? then (None, previous)
    else
      var now := pass.readings.value;
      var made := Report(node, MetricsFrom(previous, pass.at, now));
      if !ValidReport(made) then (None, previous) else (Some(made), Some(CounterSample(pass.at, now.cpu, now.net)))
  }

  /** Every report of a series of passes, in order. */
  function Reports(previous: Option<CounterSample>, node: NodeId, passes: seq<Pass>): seq<Report>
    decreases passes
  {
    if passes == [] then []
    else
      var (made, kept) := Collect(previous, node, passes[0]);
      (if made.Some? then [made.value] else []) + Reports(kept, node, passes[1..])
  }

  /** Readings from which a report is made; the derived figures are always valid. */
  predicate Reportable(node: NodeId, pass: Pass) {
    TrimSpace(node) != "" && pass.readings.Some? && pass.readings.value.load1 >= 0.0
  }

  function Reported(node: NodeId, passes: seq<Pass>): seq<Pass> {
    if passes == [] then []
    else (if Reportable(node, passes[0]) then [passes[0]] else []) + Reported(node, passes[1..])
  }

  /** A pass makes a report exactly when its readings are reportable. */
  lemma CollectsReportable(previous: Option<CounterSample>, node: NodeId, pass: Pass)
    ensures Collect(previous, node, pass).0.Some? <==> Reportable(node, pass)
    ensures !Reportable(node, pass) ==> Collect(previous, node, pass) == (None, previous)
  {
    if pass.readings.Some? && previous.Some? {
      var p, now := previous.value, pass.readings.value;
      PercentIsBounded(p.cpu, now.cpu);
      RateTimesElapsed(p.net.receive, now.net.receive, pass.at - p.at);
      RateTimesElapsed(p.net.transmit, now.net.transmit, pass.at - p.at);
    }
  }

  /** Failed passes leave no trace: the reports are those of the other passes alone. */
  lemma {:induction false} FailedPassesLeaveNoTrace(previous: Option<CounterSample>, node: NodeId, passes: seq<Pass>)
    ensures Reports(previous, node, passes) == Reports(previous, node, Reported(node, passes))
    ensures |Reports(previous, node, passes)| == |Reported(node, passes)|
    decreases passes
  {
    if passes != [] {
      CollectsReportable(previous, node, passes[0]);
      FailedPassesLeaveNoTrace(Collect(previous, node, passes[0]).1, node, passes[1..]);
      if Reportable(node, passes[0]) {
        assert Reported(node, passes)[0] == passes[0] && Reported(node, passes)[1..] == Reported(node, passes[1..]);
      } else {
        assert Reported(node, passes) == Reported(node, passes[1..]);
        assert Reports(previous, node, passes) == Reports(previous, node, passes[1..]);
      }
    }
  }

  /** What a reading leaves for the next one. */
  function Kept(pass: Pass): CounterSample
    requires pass.readings.Some?
  {
    CounterSample(pass.at, pass.readings.value.cpu, pass.readings.value.net)
  }

  predicate AllReportable(node: NodeId, passes: seq<Pass>) {
    forall k :: 0 <= k < |passes| ==> Reportable(node, passes[k])
  }

  /** Each report but the first measures from the reading before it. */
  lemma {:induction false} ReportMeasuresInterval(previous: Option<CounterSample>, node: NodeId, passes: seq<Pass>, i: nat)
    requires 0 < i < |passes| && AllReportable(node, passes)
    ensures |Reports(previous, node, passes)| == |passes|
    ensures Reports(previous, node, passes)[i]
         == Report(node, MetricsFrom(Some(Kept(passes[i - 1])), passes[i].at, passes[i].readings.value))
    decreases passes
  {
    CollectsReportable(previous, node, passes[0]);
    var kept := Collect(previous, node, passes[0]).1;
    if i > 1 {
      ReportMeasuresInterval(kept, node, passes[1..], i - 1);
    } else {
      CollectsReportable(kept, node, passes[1]);
      ReportsOfReportable(Collect(kept, node, passes[1]).1, node, passes[2..]);
      assert passes[1..][1..] == passes[2..];
    }
  }

  /** The reading that a report measures from: that of the pass before, or what the collector started with. */
  function Before(previous: Option<CounterSample>, passes: seq<Pass>, i: nat): Option<CounterSample>
    requires i < |passes| && (i > 0 ==> passes[i - 1].readings.Some?)
  {
    if i == 0 then previous
    else Some(CounterSample(passes[i - 1].at, passes[i - 1].readings.value.cpu, passes[i - 1].readings.value.net))
  }

  /** The rate is the counter's increase over the interval, and none over no time. */
  predicate IsRate(rate: real, was: Word, now: Word, elapsed: Instant) {
    && rate >= 0.0 && rate * Seconds(elapsed) == Increase(was, now, elapsed) as real
    && (elapsed <= 0 || now < was ==> rate == 0.0)
  }

  /** The processor was busy for this share of the ticks, as far as they can be told. */
  predicate IsBusyShare(percent: real, was: CpuStats, now: CpuStats) {
    && (NoneDecreased(was, now) && 0 < BusyBetween(was, now) + IdleBetween(was, now) < MODULUS ==>
          percent == Share(BusyBetween(was, now), BusyBetween(was, now) + IdleBetween(was, now)))
    && (!NoneDecreased(was, now) || was == now ==> percent == 0.0)
  }

  /**
   The figures are the memory, disk and load now; and the processor share and rates since the reading before, or
   zero if there is none.
   */
  predicate Shows(was: Option<CounterSample>, at: Instant, now: Readings, shown: Metrics) {
    && shown.memoryUsed == now.memoryUsed && shown.diskUsed == now.diskUsed && shown.load1 == now.load1
    && (was.None? ==> shown.cpuPercent == 0.0 && shown.ingress == 0.0 && shown.egress == 0.0)
    && (was.Some? ==>
          && IsBusyShare(shown.cpuPercent, was.value.cpu, now.cpu)
          && IsRate(shown.ingress, was.value.net.receive, now.net.receive, at - was.value.at)
          && IsRate(shown.egress, was.value.net.transmit, now.net.transmit, at - was.value.at))
  }

  /**
   Every report of a series shows the memory, disk and load of its own reading; its processor share and rates are
   those between the reading before and its own, and zero if there is none before.
   */
  lemma ReportShowsReadings(previous: Option<CounterSample>, node: NodeId, passes: seq<Pass>, i: nat)
    requires i < |passes| && AllReportable(node, passes)
    ensures |Reports(previous, node, passes)| == |passes|
    ensures
      var report, now := Reports(previous, node, passes)[i], passes[i].readings.value;
      report.node == node && Shows(Before(previous, passes, i), passes[i].at, now, report.metrics)
  {
    var now, was := passes[i].readings.value, Before(previous, passes, i);
    ReportsOfReportable(previous, node, passes);
    if i > 0 {
      ReportMeasuresInterval(previous, node, passes, i);
    } else {
      CollectsReportable(previous, node, passes[0]);
    }
    assert Reports(previous, node, passes)[i] == Report(node, MetricsFrom(was, passes[i].at, now));
    MetricsShow(was, passes[i].at, now);
  }

  lemma MetricsShow(was: Option<CounterSample>, at: Instant, now: Readings)
    ensures Shows(was, at, now, MetricsFrom(was, at, now))
  {
    if was.Some? {
      PercentIsShare(was.value.cpu, now.cpu);
      CounterRateIsRate(was.value.net.receive, now.net.receive, at - was.value.at);
      CounterRateIsRate(was.value.net.transmit, now.net.transmit, at - was.value.at);
    }
  }

  lemma CounterRateIsRate(was: Word, now: Word, elapsed: Instant)
    ensures IsRate(CounterRate(was, now, elapsed), was, now, elapsed)
  {
    RateTimesElapsed(was, now, elapsed);
  }

  lemma PercentIsShare(was: CpuStats, now: CpuStats)
    ensures IsBusyShare(CpuPercent(was, now), was, now)
  {
    PercentIsBounded(was, now);
    if NoneDecreased(was, now) && 0 < BusyBetween(was, now) + IdleBetween(was, now) < MODULUS {
      PercentIsExact(was, now);
    }
  }

  lemma {:induction false} ReportsOfReportable(previous: Option<CounterSample>, node: NodeId, passes: seq<Pass>)
    requires AllReportable(node, passes)
    ensures |Reports(previous, node, passes)| == |passes|
    decreases passes
  {
    if passes != [] {
      CollectsReportable(previous, node, passes[0]);
      ReportsOfReportable(Collect(previous, node, passes[0]).1, node, passes[1..]);
    }
  }
}
