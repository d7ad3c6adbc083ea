/** The trend chart: a node's samples thinned out to at most 144 points. */
module Trend {
  import opened Common
  import opened Database

  const MAXIMUM_POINTS: nat := 144

  datatype TrendPoint = TrendPoint(receivedAt: Millis, cpu: real, memory: nat, disk: nat, ingress: real, egress: real)

  function PointOf(sample: SampleRow): TrendPoint {
    TrendPoint(sample.receivedAt, sample.metrics.cpuPercent, sample.metrics.memoryUsed, sample.metrics.diskUsed,
               sample.metrics.ingress, sample.metrics.egress)
  }

  function CeilDivide(n: nat, d: nat): nat
    requires d > 0
  {
    (n + d - 1) / d
  }

  lemma CeilDivideBounds(n: nat, d: nat)
    requires d > 0
    ensures n <= CeilDivide(n, d) * d < n + d
  {
    var q := (n + d - 1) / d;
    assert n + d - 1 == q * d + (n + d - 1) % d;
  }

  /** Samples at increasing places, none more than a stride after the one before, the first in the first stride. */
  ghost predicate Thinned(samples: seq<SampleRow>, points: seq<TrendPoint>, places: seq<nat>, stride: nat) {
    && |points| == |places|
    && (forall k :: 0 <= k < |places| ==> places[k] < |samples| && points[k] == PointOf(samples[places[k]]))
    && (forall k :: 0 <= k < |places| ==> (if k == 0 then 0 else places[k - 1] + 1) <= places[k])
    && (forall k :: 0 <= k < |places| ==> places[k] < (if k == 0 then 0 else places[k - 1] + 1) + stride)
  }

  /** Every point shows the figures of its own sample. */
  ghost predicate Shows(samples: seq<SampleRow>, points: seq<TrendPoint>, places: seq<nat>) {
    && |points| == |places|
    && forall k :: 0 <= k < |places| ==>
         && places[k] < |samples|
         && points[k].receivedAt == samples[places[k]].receivedAt
         && points[k].cpu == samples[places[k]].metrics.cpuPercent
         && points[k].memory == samples[places[k]].metrics.memoryUsed
         && points[k].disk == samples[places[k]].metrics.diskUsed
         && points[k].ingress == samples[places[k]].metrics.ingress
         && points[k].egress == samples[places[k]].metrics.egress
  }

  /** The chart covers the whole list: after its last place there is less than a stride, and the newest time is shown. */
  ghost predicate Covers(samples: seq<SampleRow>, points: seq<TrendPoint>, places: seq<nat>, stride: nat)
    requires samples != []
  {
    && 0 < |places| == |points| && |samples| <= places[|places| - 1] + stride
    && points[|points| - 1].receivedAt == samples[|samples| - 1].receivedAt
  }

  lemma {:induction false} TimesStride(a: nat, b: nat, stride: nat)
    requires a < b
    ensures a * stride + stride <= b * stride
    decreases b
  {
    assert b * stride == (b - 1) * stride + stride;
    if a < b - 1 {
      TimesStride(a, b - 1, stride);
    }
  }

  lemma OneMore(a: nat, stride: nat)
    ensures (a + 1) * stride == a * stride + stride
  {
  }

  /** Where the next place may be. */
  function NextPlace(places: seq<nat>): nat {
    if places == [] then 0 else places[|places| - 1] + 1
  }

  lemma ThinnedExtends(samples: seq<SampleRow>, points: seq<TrendPoint>, places: seq<nat>, stride: nat, place: nat)
    requires Thinned(samples, points, places, stride) && place < |samples|
    requires NextPlace(places) <= place < NextPlace(places) + stride
    ensures Thinned(samples, points + [PointOf(samples[place])], places + [place], stride)
  {
  }

  /** Fewer full strides than the limit of points, whatever the number of samples. */
  lemma FullStrides(n: nat, stride: nat, taken: nat)
    requires stride == CeilDivide(n, MAXIMUM_POINTS) && taken * stride <= n && n > 0
    ensures stride > 0 && taken <= MAXIMUM_POINTS && taken <= CeilDivide(n, stride)
    ensures taken * stride < n ==> taken < MAXIMUM_POINTS && taken < CeilDivide(n, stride)
  {
    CeilDivideBounds(n, MAXIMUM_POINTS);
    CeilDivideBounds(n, stride);
    if taken > MAXIMUM_POINTS {
      TimesStride(MAXIMUM_POINTS, taken, stride);
    }
    if taken > CeilDivide(n, stride) {
      TimesStride(CeilDivide(n, stride), taken, stride);
    }
  }

  /** The last sample of every full stride. */
  method TakeStrides(samples: seq<SampleRow>, stride: nat) returns (points: seq<TrendPoint>, ghost places: seq<nat>)
    requires stride > 0
    ensures Thinned(samples, points, places, stride)
    ensures NextPlace(places) == |points| * stride <= |samples| < |points| * stride + stride
  {
    points, places := [], [];
    var index := stride - 1;
    ghost var taken := 0;
    while index < |samples|
      invariant index == taken + stride - 1 && taken <= |samples|
      invariant taken == |points| * stride
      invariant NextPlace(places) == taken
      invariant Thinned(samples, points, places, stride)
    {
      ThinnedExtends(samples, points, places, stride, index);
      OneMore(|points|, stride);
      points := points + [PointOf(samples[index])];
      places := places + [index];
      index := index + stride;
      taken := taken + stride;
    }
  }

  /**
   One sample of each stride, and the newest one if its time is not shown yet. `capacity` is what the list of
   points is allocated for.
   */
  method TrendPoints(samples: seq<SampleRow>)
    returns (points: seq<TrendPoint>, stride: nat, capacity: nat, ghost places: seq<nat>)
    ensures samples == [] ==> points == []
    ensures samples != [] ==>
              && stride == CeilDivide(|samples|, 144) && stride > 0
              && 1 <= |points| <= 144 && |points| <= capacity == CeilDivide(|samples|, stride)
              && Thinned(samples, points, places, stride)
              && Covers(samples, points, places, stride)
              && Shows(samples, points, places)
  {
    points, stride, capacity, places := [], 0, 0, [];
    var n := |samples|;
    if n == 0 {
      return;
    }
    stride := CeilDivide(n, MAXIMUM_POINTS);
    FullStrides(n, stride, 0);
    capacity := CeilDivide(n, stride);
    points, places := TakeStrides(samples, stride);
    FullStrides(n, stride, |points|);
    SomeStride(n, stride, |points|);
    var last := samples[n - 1];
    if points[|points| - 1].receivedAt != last.receivedAt {
      assert NextPlace(places) < n;
      ThinnedExtends(samples, points, places, stride, n - 1);
      points := points + [PointOf(last)];
      places := places + [n - 1];
    }
  }

  lemma SomeStride(n: nat, stride: nat, taken: nat)
    requires n > 0 && stride == CeilDivide(n, MAXIMUM_POINTS) && n < taken * stride + stride
    ensures taken > 0
  {
    if n >= MAXIMUM_POINTS {
      CeilDivideBounds(n, MAXIMUM_POINTS);
    }
  }
}
