/** The traffic that the dashboard adds up from a node's samples, against what the agent's counters did. */
module Traffic {
  import opened Common
  import opened Database
  import opened Counters
  import opened Collection

  datatype Direction = In | Out

  function Rate(sample: SampleRow, direction: Direction): real {
    if direction.In? then sample.metrics.ingress else sample.metrics.egress
  }

  /** The time between two neighbouring samples, as the dashboard reads it from their receive times. */
  function Gap(samples: seq<SampleRow>, i: nat): Instant
    requires 0 < i < |samples|
  {
    FromMillis(samples[i].receivedAt) - FromMillis(samples[i - 1].receivedAt)
  }

  /** Rate by time over the first `n` samples; a gap that is not positive adds nothing. */
  function Usage(samples: seq<SampleRow>, n: nat, direction: Direction): real
    requires n <= |samples|
  {
    if n < 2 then 0.0
    else Usage(samples, n - 1, direction) + UsageOver(samples, n - 1, direction)
  }

  function UsageOver(samples: seq<SampleRow>, i: nat, direction: Direction): real
    requires 0 < i < |samples|
  {
    if Gap(samples, i) <= 0 then 0.0 else Rate(samples[i], direction) * Seconds(Gap(samples, i))
  }

  predicate RatesAreNonNegative(samples: seq<SampleRow>) {
    forall i, d :: 0 <= i < |samples| ==> Rate(samples[i], d) >= 0.0
  }

  lemma {:induction false} UsageIsNonNegative(samples: seq<SampleRow>, n: nat, direction: Direction)
    requires n <= |samples| && RatesAreNonNegative(samples)
    ensures Usage(samples, n, direction) >= 0.0
  {
    if n >= 2 {
      UsageIsNonNegative(samples, n - 1, direction);
      if Gap(samples, n - 1) > 0 {
        ProductIsNonNegative(Rate(samples[n - 1], direction), Seconds(Gap(samples, n - 1)));
      }
    }
  }

  lemma ProductIsNonNegative(x: real, y: real)
    requires x >= 0.0 && y >= 0.0
    ensures x * y >= 0.0
  {
  }

  /** Whole bytes in each direction; the fraction is cut off. */
  method TrafficUsage(samples: seq<SampleRow>) returns (inbound: nat, outbound: nat)
    requires RatesAreNonNegative(samples)
    ensures inbound == Usage(samples, |samples|, In).Floor && outbound == Usage(samples, |samples|, Out).Floor
  {
    var received, transmitted := 0.0, 0.0;
    var index := 1;
    while index < |samples|
      invariant 1 <= index && (index <= |samples| || samples == [])
      invariant received == Usage(samples, if samples == [] then 0 else index, In)
      invariant transmitted == Usage(samples, if samples == [] then 0 else index, Out)
    {
      var seconds := Seconds(FromMillis(samples[index].receivedAt) - FromMillis(samples[index - 1].receivedAt));
      if seconds > 0.0 {
        received := received + samples[index].metrics.ingress * seconds;
        transmitted := transmitted + samples[index].metrics.egress * seconds;
      }
      index := index + 1;
    }
    UsageIsNonNegative(samples, |samples|, In);
    UsageIsNonNegative(samples, |samples|, Out);
    return received.Floor, transmitted.Floor;
  }

  // ---- From the agent's counters to the dashboard ----

  function Counter(pass: Pass, direction: Direction): Word
    requires pass.readings.Some?
  {
    if direction.In? then pass.readings.value.net.receive else pass.readings.value.net.transmit
  }

  /** The time between two neighbouring passes of the collector. */
  function SamplingGap(passes: seq<Pass>, i: nat): Instant
    requires 0 < i < |passes|
  {
    passes[i].at - passes[i - 1].at
  }

  /** What the counter rose by between two neighbouring passes. */
  function IncreaseOver(node: NodeId, passes: seq<Pass>, i: nat, direction: Direction): nat
    requires 0 < i < |passes| && AllReportable(node, passes)
  {
    Increase(Counter(passes[i - 1], direction), Counter(passes[i], direction), SamplingGap(passes, i))
  }

  /** What the counter rose by over the first `n` passes, resets and standing clocks apart. */
  function Increases(node: NodeId, passes: seq<Pass>, n: nat, direction: Direction): nat
    requires n <= |passes| && AllReportable(node, passes)
  {
    if n < 2 then 0
    else Increases(node, passes, n - 1, direction) + IncreaseOver(node, passes, n - 1, direction)
  }

  /** Every report arrives, at these times. */
  function Delivered(previous: Option<CounterSample>, node: NodeId, passes: seq<Pass>, received: seq<Millis>)
    : seq<SampleRow>
    requires |received| == |Reports(previous, node, passes)|
  {
    var reports := Reports(previous, node, passes);
    seq(|reports|, i requires 0 <= i < |reports| => SampleRow(node, received[i], reports[i].metrics))
  }

  /** The samples carry the rates that the passes measured. */
  ghost predicate Carries(node: NodeId, passes: seq<Pass>, samples: seq<SampleRow>) {
    && |samples| == |passes| && AllReportable(node, passes)
    && forall i, d :: 0 < i < |passes| ==>
         Rate(samples[i], d) == CounterRate(Counter(passes[i - 1], d), Counter(passes[i], d), SamplingGap(passes, i))
  }

  lemma DeliveredCarries(previous: Option<CounterSample>, node: NodeId, passes: seq<Pass>, received: seq<Millis>)
    requires AllReportable(node, passes) && |received| == |Reports(previous, node, passes)|
    ensures Carries(node, passes, Delivered(previous, node, passes, received))
  {
    ReportsOfReportable(previous, node, passes);
    forall i, d | 0 < i < |passes|
      ensures Rate(Delivered(previous, node, passes, received)[i], d)
           == CounterRate(Counter(passes[i - 1], d), Counter(passes[i], d), SamplingGap(passes, i))
    {
      ReportMeasuresInterval(previous, node, passes, i);
    }
  }

  /** A carried rate gives the increase back over the time between the readings. */
  lemma LegGivesIncrease(node: NodeId, passes: seq<Pass>, samples: seq<SampleRow>, i: nat, direction: Direction)
    requires Carries(node, passes, samples) && 0 < i < |passes|
    ensures Rate(samples[i], direction) >= 0.0
    ensures SamplingGap(passes, i) <= 0 ==> Rate(samples[i], direction) == 0.0
    ensures Rate(samples[i], direction) * Seconds(SamplingGap(passes, i))
         == IncreaseOver(node, passes, i, direction) as real
  {
    RateTimesElapsed(Counter(passes[i - 1], direction), Counter(passes[i], direction), SamplingGap(passes, i));
  }

  // ---- Equal gaps ----

  ghost predicate EqualGaps(passes: seq<Pass>, samples: seq<SampleRow>)
    requires |samples| == |passes|
  {
    forall i :: 0 < i < |passes| ==> Gap(samples, i) == SamplingGap(passes, i)
  }

  lemma LegTelescopes(node: NodeId, passes: seq<Pass>, samples: seq<SampleRow>, i: nat, direction: Direction)
    requires Carries(node, passes, samples) && 0 < i < |passes| && Gap(samples, i) == SamplingGap(passes, i)
    ensures UsageOver(samples, i, direction) == IncreaseOver(node, passes, i, direction) as real
  {
    LegGivesIncrease(node, passes, samples, i, direction);
  }

  lemma {:induction false} UsageTelescopes(node: NodeId, passes: seq<Pass>, samples: seq<SampleRow>, n: nat,
                                           direction: Direction)
    requires Carries(node, passes, samples) && EqualGaps(passes, samples) && n <= |passes|
    ensures Usage(samples, n, direction) == Increases(node, passes, n, direction) as real
  {
    if n >= 2 {
      UsageTelescopes(node, passes, samples, n - 1, direction);
      LegTelescopes(node, passes, samples, n - 1, direction);
    }
  }

  /**
   From the collector to the dashboard, whatever reading the collector started from: when every report arrives
   and the gaps between arrivals equal the gaps between readings, the dashboard shows exactly the bytes by
   which the counters rose, resets left out.
   */
  lemma TrafficTelescopes(previous: Option<CounterSample>, node: NodeId, passes: seq<Pass>, received: seq<Millis>,
                          direction: Direction)
    requires AllReportable(node, passes) && |received| == |passes| == |Reports(previous, node, passes)|
    requires EqualGaps(passes, Delivered(previous, node, passes, received))
    ensures
      Usage(Delivered(previous, node, passes, received), |passes|, direction).Floor
        == Increases(node, passes, |passes|, direction)
  {
    DeliveredCarries(previous, node, passes, received);
    UsageTelescopes(node, passes, Delivered(previous, node, passes, received), |passes|, direction);
  }

  ghost predicate Climbs(node: NodeId, passes: seq<Pass>, direction: Direction)
    requires AllReportable(node, passes)
  {
    forall i :: 0 < i < |passes| ==>
      SamplingGap(passes, i) > 0 && Counter(passes[i - 1], direction) <= Counter(passes[i], direction)
  }

  /** Without resets, on a clock that moves, the increases are last minus first. */
  lemma {:induction false} IncreasesTelescope(node: NodeId, passes: seq<Pass>, n: nat, direction: Direction)
    requires AllReportable(node, passes) && Climbs(node, passes, direction) && 0 < n <= |passes|
    ensures Increases(node, passes, n, direction)
         == Counter(passes[n - 1], direction) - Counter(passes[0], direction)
  {
    if n >= 2 {
      IncreasesTelescope(node, passes, n - 1, direction);
      assert Counter(passes[n - 2], direction) <= Counter(passes[n - 1], direction);
    }
  }

  // ---- Unequal gaps ----

  /** What a leg adds to the dashboard beyond the true increase: rate by the difference of the gaps. */
  function Surplus(passes: seq<Pass>, samples: seq<SampleRow>, i: nat, direction: Direction): real
    requires 0 < i < |samples| && |samples| == |passes|
  {
    var seen := if Gap(samples, i) <= 0 then 0 else Gap(samples, i);
    Rate(samples[i], direction) * Seconds(seen - SamplingGap(passes, i))
  }

  function Surpluses(passes: seq<Pass>, samples: seq<SampleRow>, n: nat, direction: Direction): real
    requires n <= |samples| && |samples| == |passes|
  {
    if n < 2 then 0.0 else Surpluses(passes, samples, n - 1, direction) + Surplus(passes, samples, n - 1, direction)
  }

  function Abs(x: real): real {
    if x < 0.0 then -x else x
  }

  function AbsInt(x: int): int {
    if x < 0 then -x else x
  }

  /** The bound: rate by the absolute difference of the gaps, over every leg. */
  function Distortion(passes: seq<Pass>, samples: seq<SampleRow>, n: nat, direction: Direction): real
    requires n <= |samples| && |samples| == |passes|
  {
    if n < 2 then 0.0
    else Distortion(passes, samples, n - 1, direction) + DistortionOver(passes, samples, n - 1, direction)
  }

  function DistortionOver(passes: seq<Pass>, samples: seq<SampleRow>, i: nat, direction: Direction): real
    requires 0 < i < |samples| && |samples| == |passes|
  {
    Rate(samples[i], direction) * Seconds(AbsInt(Gap(samples, i) - SamplingGap(passes, i)))
  }

  lemma SecondsOfDifference(rate: real, seen: Instant, sampled: Instant)
    ensures rate * Seconds(seen) == rate * Seconds(sampled) + rate * Seconds(seen - sampled)
  {
    assert Seconds(seen) == Seconds(sampled) + Seconds(seen - sampled);
  }

  lemma LegHasSurplus(node: NodeId, passes: seq<Pass>, samples: seq<SampleRow>, i: nat, direction: Direction)
    requires Carries(node, passes, samples) && 0 < i < |passes|
    ensures UsageOver(samples, i, direction)
         == IncreaseOver(node, passes, i, direction) as real + Surplus(passes, samples, i, direction)
  {
    LegGivesIncrease(node, passes, samples, i, direction);
    var seen := if Gap(samples, i) <= 0 then 0 else Gap(samples, i);
    SecondsOfDifference(Rate(samples[i], direction), seen, SamplingGap(passes, i));
    assert UsageOver(samples, i, direction) == Rate(samples[i], direction) * Seconds(seen);
  }

  /** The error is known exactly: what the dashboard shows is the true increase plus the surpluses. */
  lemma {:induction false} UsageIsIncreasesPlusSurpluses(node: NodeId, passes: seq<Pass>, samples: seq<SampleRow>,
                                                         n: nat, direction: Direction)
    requires Carries(node, passes, samples) && n <= |passes|
    ensures Usage(samples, n, direction)
         == Increases(node, passes, n, direction) as real + Surpluses(passes, samples, n, direction)
  {
    if n >= 2 {
      var i := n - 1;
      UsageIsIncreasesPlusSurpluses(node, passes, samples, i, direction);
      LegHasSurplus(node, passes, samples, i, direction);
    }
  }

  lemma SurplusIsBounded(passes: seq<Pass>, samples: seq<SampleRow>, i: nat, direction: Direction)
    requires 0 < i < |samples| && |samples| == |passes| && Rate(samples[i], direction) >= 0.0
    requires SamplingGap(passes, i) <= 0 ==> Rate(samples[i], direction) == 0.0
    ensures Abs(Surplus(passes, samples, i, direction)) <= DistortionOver(passes, samples, i, direction)
  {
    var rate := Rate(samples[i], direction);
    var seen := if Gap(samples, i) <= 0 then 0 else Gap(samples, i);
    if rate > 0.0 {
      ScaledAbs(rate, seen - SamplingGap(passes, i), AbsInt(Gap(samples, i) - SamplingGap(passes, i)));
    }
  }

  lemma ScaledAbs(rate: real, d: Instant, bound: Instant)
    requires rate >= 0.0 && -bound <= d <= bound
    ensures Abs(rate * Seconds(d)) <= rate * Seconds(bound)
  {
    assert -Seconds(bound) <= Seconds(d) <= Seconds(bound);
    ProductIsNonNegative(rate, Seconds(bound) - Seconds(d));
    ProductIsNonNegative(rate, Seconds(bound) + Seconds(d));
    assert rate * (Seconds(bound) - Seconds(d)) == rate * Seconds(bound) - rate * Seconds(d);
    assert rate * (Seconds(bound) + Seconds(d)) == rate * Seconds(bound) + rate * Seconds(d);
  }

  lemma LegIsBounded(node: NodeId, passes: seq<Pass>, samples: seq<SampleRow>, i: nat, direction: Direction)
    requires Carries(node, passes, samples) && 0 < i < |passes|
    ensures Abs(Surplus(passes, samples, i, direction)) <= DistortionOver(passes, samples, i, direction)
  {
    LegGivesIncrease(node, passes, samples, i, direction);
    SurplusIsBounded(passes, samples, i, direction);
  }

  lemma AbsOfSum(x: real, y: real)
    ensures Abs(x + y) <= Abs(x) + Abs(y)
  {
  }

  lemma {:induction false} SurplusesAreBounded(node: NodeId, passes: seq<Pass>, samples: seq<SampleRow>, n: nat,
                                               direction: Direction)
    requires Carries(node, passes, samples) && n <= |passes|
    ensures Abs(Surpluses(passes, samples, n, direction)) <= Distortion(passes, samples, n, direction)
  {
    if n >= 2 {
      var i := n - 1;
      SurplusesAreBounded(node, passes, samples, i, direction);
      LegIsBounded(node, passes, samples, i, direction);
      AbsOfSum(Surpluses(passes, samples, i, direction), Surplus(passes, samples, i, direction));
    }
  }

  /**
   For any arrival times, the dashboard differs from the true increase by at most the sum, over every leg, of
   the rate times the difference between the two gaps.
   */
  lemma TrafficErrorIsBounded(previous: Option<CounterSample>, node: NodeId, passes: seq<Pass>, received: seq<Millis>,
                              direction: Direction)
    requires AllReportable(node, passes) && |received| == |passes| == |Reports(previous, node, passes)|
    ensures
      var samples := Delivered(previous, node, passes, received);
      Abs(Usage(samples, |samples|, direction) - Increases(node, passes, |passes|, direction) as real)
        <= Distortion(passes, samples, |samples|, direction)
  {
    var samples := Delivered(previous, node, passes, received);
    DeliveredCarries(previous, node, passes, received);
    UsageIsIncreasesPlusSurpluses(node, passes, samples, |passes|, direction);
    SurplusesAreBounded(node, passes, samples, |passes|, direction);
  }

  // ---- The bound over positive gaps alone ----

  /** A leg on which the dashboard counts too much, or too little, or which it drops. */
  datatype Part = Over | Under | Lost

  function PartOf(passes: seq<Pass>, samples: seq<SampleRow>, i: nat, direction: Direction, part: Part): real
    requires 0 < i < |samples| && |samples| == |passes|
  {
    Amount(Rate(samples[i], direction), Gap(samples, i), SamplingGap(passes, i), part)
  }

  /** Rate by the time that a leg is out by in this way. */
  function Amount(rate: real, seen: Instant, sampled: Instant, part: Part): real {
    match part
    case Over => if seen > 0 && seen > sampled then rate * Seconds(seen - sampled) else 0.0
    case Under => if seen > 0 && seen <= sampled then rate * Seconds(sampled - seen) else 0.0
    case Lost => if seen <= 0 then rate * Seconds(sampled) else 0.0
  }

  function Parts(passes: seq<Pass>, samples: seq<SampleRow>, n: nat, direction: Direction, part: Part): real
    requires n <= |samples| && |samples| == |passes|
  {
    if n < 2 then 0.0
    else Parts(passes, samples, n - 1, direction, part) + PartOf(passes, samples, n - 1, direction, part)
  }

  /** The bound of `Distortion`, with the legs left out whose gap is not positive. */
  function PositiveDistortion(passes: seq<Pass>, samples: seq<SampleRow>, n: nat, direction: Direction): real
    requires n <= |samples| && |samples| == |passes|
  {
    if n < 2 then 0.0
    else PositiveDistortion(passes, samples, n - 1, direction)
         + (if Gap(samples, n - 1) > 0 then DistortionOver(passes, samples, n - 1, direction) else 0.0)
  }

  /** No part is negative; together they are the surplus, and the first two the distortion of a positive gap. */
  lemma LegHasParts(node: NodeId, passes: seq<Pass>, samples: seq<SampleRow>, i: nat, direction: Direction)
    requires Carries(node, passes, samples) && 0 < i < |passes|
    ensures forall part :: PartOf(passes, samples, i, direction, part) >= 0.0
    ensures Surplus(passes, samples, i, direction)
         == PartOf(passes, samples, i, direction, Over) - PartOf(passes, samples, i, direction, Under)
            - PartOf(passes, samples, i, direction, Lost)
    ensures (if Gap(samples, i) > 0 then DistortionOver(passes, samples, i, direction) else 0.0)
         == PartOf(passes, samples, i, direction, Over) + PartOf(passes, samples, i, direction, Under)
  {
    LegGivesIncrease(node, passes, samples, i, direction);
    AmountsAddUp(Rate(samples[i], direction), Gap(samples, i), SamplingGap(passes, i));
  }

  lemma AmountsAddUp(rate: real, seen: Instant, sampled: Instant)
    requires rate >= 0.0 && (sampled <= 0 ==> rate == 0.0)
    ensures forall part :: Amount(rate, seen, sampled, part) >= 0.0
    ensures rate * Seconds((if seen <= 0 then 0 else seen) - sampled)
         == Amount(rate, seen, sampled, Over) - Amount(rate, seen, sampled, Under) - Amount(rate, seen, sampled, Lost)
    ensures (if seen > 0 then rate * Seconds(AbsInt(seen - sampled)) else 0.0)
         == Amount(rate, seen, sampled, Over) + Amount(rate, seen, sampled, Under)
  {
    if seen <= 0 {
      OppositeTime(rate, sampled);
      if sampled > 0 {
        ScaledTime(rate, sampled);
      }
    } else if seen > sampled {
      ScaledTime(rate, seen - sampled);
    } else {
      ScaledTime(rate, sampled - seen);
      OppositeTime(rate, seen - sampled);
    }
  }

  lemma ScaledTime(rate: real, d: Instant)
    requires rate >= 0.0 && d >= 0
    ensures rate * Seconds(d) >= 0.0
  {
    ProductIsNonNegative(rate, Seconds(d));
  }

  lemma OppositeTime(rate: real, d: Instant)
    ensures rate * Seconds(-d) == -(rate * Seconds(d))
  {
    assert Seconds(-d) == -Seconds(d);
  }

  lemma {:induction false} SurplusesHaveParts(node: NodeId, passes: seq<Pass>, samples: seq<SampleRow>, n: nat,
                                              direction: Direction)
    requires Carries(node, passes, samples) && n <= |passes|
    ensures forall part :: Parts(passes, samples, n, direction, part) >= 0.0
    ensures Surpluses(passes, samples, n, direction)
         == Parts(passes, samples, n, direction, Over) - Parts(passes, samples, n, direction, Under)
            - Parts(passes, samples, n, direction, Lost)
    ensures PositiveDistortion(passes, samples, n, direction)
         == Parts(passes, samples, n, direction, Over) + Parts(passes, samples, n, direction, Under)
  {
    if n >= 2 {
      SurplusesHaveParts(node, passes, samples, n - 1, direction);
      LegHasParts(node, passes, samples, n - 1, direction);
    }
  }

  /**
   The bound with only the legs of positive gap holds if and only if the legs without one lost no more than twice
   what the dashboard counted too much on the others.
   */
  lemma PositiveGapsBoundError(previous: Option<CounterSample>, node: NodeId, passes: seq<Pass>, received: seq<Millis>,
                               direction: Direction)
    requires AllReportable(node, passes) && |received| == |passes| == |Reports(previous, node, passes)|
    ensures
      var samples := Delivered(previous, node, passes, received);
      var error := Usage(samples, |samples|, direction) - Increases(node, passes, |passes|, direction) as real;
      var lost := Parts(passes, samples, |samples|, direction, Lost);
      var over := Parts(passes, samples, |samples|, direction, Over);
      Abs(error) <= PositiveDistortion(passes, samples, |samples|, direction) <==> lost <= 2.0 * over
  {
    var samples := Delivered(previous, node, passes, received);
    DeliveredCarries(previous, node, passes, received);
    UsageIsIncreasesPlusSurpluses(node, passes, samples, |passes|, direction);
    SurplusesHaveParts(node, passes, samples, |passes|, direction);
  }

  /**
   Legs whose gap is not positive cannot be left out of that bound: two reports that arrive within one
   millisecond lose all the bytes between them, though the bound over positive gaps is empty.
   */
  lemma LegsWithoutGapCount()
    ensures
      var net0, net1 := NetCounters(0, 0), NetCounters(1000, 0);
      var idle := CpuStats(0, 0, 0, 0, 0, 0, 0, 0);
      var passes := [Pass(0, Some(Readings(idle, 0, 0.0, net0, 0))),
                     Pass(NANOS_PER_SECOND, Some(Readings(idle, 0, 0.0, net1, 0)))];
      && AllReportable("n", passes)
      && |Reports(None, "n", passes)| == 2
      && var samples := Delivered(None, "n", passes, [0, 0]);
         && Gap(samples, 1) == 0 && Usage(samples, 2, In) == 0.0
         && Increases("n", passes, 2, In) == 1000
  {
    var idle := CpuStats(0, 0, 0, 0, 0, 0, 0, 0);
    var passes := [Pass(0, Some(Readings(idle, 0, 0.0, NetCounters(0, 0), 0))),
                   Pass(NANOS_PER_SECOND, Some(Readings(idle, 0, 0.0, NetCounters(1000, 0), 0)))];
    ReportsOfReportable(None, "n", passes);
    assert Increases("n", passes, 1, In) == 0;
  }
}
