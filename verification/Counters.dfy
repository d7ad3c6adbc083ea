/** Kernel counters, which are unsigned 64-bit words, and the figures the agent derives from two readings. */
module Counters {
  import opened Common

  const MODULUS: int := 0x1_0000_0000_0000_0000

  type Word = w: int | 0 <= w < MODULUS

  /** The word that an overflowing sum or difference leaves: the integer, less or more as many moduli as it takes. */
  function Wrap(i: int): Word
    decreases if i < 0 then MODULUS - i else i
  {
    if i < 0 then Wrap(i + MODULUS) else if i >= MODULUS then Wrap(i - MODULUS) else i
  }

  datatype CpuStats = CpuStats(user: Word, nice: Word, system: Word, idle: Word,
                               ioWait: Word, irq: Word, softIrq: Word, steal: Word) {
    function Busy(): nat { user + nice + system + irq + softIrq + steal }

    function Idle(): nat { idle + ioWait }

    // The sums wrap around.
    function Total(): Word { Wrap(user + nice + system + idle + ioWait + irq + softIrq + steal) }

    function IdleTicks(): Word { Wrap(idle + ioWait) }
  }

  predicate NoneDecreased(previous: CpuStats, current: CpuStats) {
    && current.user >= previous.user && current.nice >= previous.nice
    && current.system >= previous.system && current.idle >= previous.idle
    && current.ioWait >= previous.ioWait && current.irq >= previous.irq
    && current.softIrq >= previous.softIrq && current.steal >= previous.steal
  }

  function CpuPercent(previous: CpuStats, current: CpuStats): real {
    if !NoneDecreased(previous, current) then 0.0
    else PercentOfDeltas(Wrap(current.Total() - previous.Total()), Wrap(current.IdleTicks() - previous.IdleTicks()))
  }

  function PercentOfDeltas(totalDelta: Word, idleDelta: Word): real {
    if totalDelta == 0 || idleDelta > totalDelta then 0.0 else Clamped(Share(totalDelta - idleDelta, totalDelta))
  }

  function Share(part: int, whole: int): real
    requires whole > 0
  {
    100.0 * part as real / whole as real
  }

  function Clamped(percent: real): real {
    if percent < 0.0 then 0.0 else if percent > 100.0 then 100.0 else percent
  }

  /** Wrapping takes away a multiple of the modulus. */
  lemma {:induction false} WrapIsCongruent(i: int) returns (q: int)
    ensures i == Wrap(i) + q * MODULUS
    decreases if i < 0 then MODULUS - i else i
  {
    if i < 0 {
      q := WrapIsCongruent(i + MODULUS);
      q := q - 1;
    } else if i >= MODULUS {
      q := WrapIsCongruent(i - MODULUS);
      q := q + 1;
    } else {
      q := 0;
    }
  }

  /** A difference that fits in a word survives the wrapping of both sides and of itself. */
  lemma WrapDifference(a: int, b: int)
    requires 0 <= a - b < MODULUS
    ensures Wrap(Wrap(a) - Wrap(b)) == a - b
  {
    var p := WrapIsCongruent(a);
    var q := WrapIsCongruent(b);
    assert a - b == Wrap(a) - Wrap(b) + (p - q) * MODULUS;
    assert p - q == 0 || p - q == 1;
  }

  lemma ShareIsPercent(busy: nat, idle: nat)
    requires 0 < busy + idle < MODULUS
    ensures PercentOfDeltas(busy + idle, idle) == Share(busy, busy + idle)
  {
    QuotientIsBounded(100.0 * busy as real, (busy + idle) as real, 100.0);
    assert busy + idle - idle == busy;
  }

  lemma QuotientIsBounded(x: real, y: real, bound: real)
    requires y > 0.0 && 0.0 <= x <= bound * y
    ensures 0.0 <= x / y <= bound
  {
  }

  /**
   The percentage is the true share of busy ticks whatever the totals do at the word boundary, as long as
   fewer than a word of ticks passed in all.
   */
  lemma PercentIsExact(previous: CpuStats, current: CpuStats)
    requires NoneDecreased(previous, current)
    requires 0 < BusyBetween(previous, current) + IdleBetween(previous, current) < MODULUS
    ensures CpuPercent(previous, current)
         == Share(BusyBetween(previous, current), BusyBetween(previous, current) + IdleBetween(previous, current))
  {
    DeltasAreExact(previous, current);
    ShareIsPercent(BusyBetween(previous, current), IdleBetween(previous, current));
  }

  /** The ticks that passed, before any wrapping. */
  function BusyBetween(previous: CpuStats, current: CpuStats): int {
    current.Busy() - previous.Busy()
  }

  function IdleBetween(previous: CpuStats, current: CpuStats): int {
    current.Idle() - previous.Idle()
  }

  lemma TotalIsSum(s: CpuStats)
    ensures s.Total() == Wrap(s.Busy() + s.Idle()) && s.IdleTicks() == Wrap(s.Idle())
  {
    assert s.user + s.nice + s.system + s.idle + s.ioWait + s.irq + s.softIrq + s.steal == s.Busy() + s.Idle();
  }

  lemma DeltasAreExact(previous: CpuStats, current: CpuStats)
    requires NoneDecreased(previous, current)
    requires BusyBetween(previous, current) + IdleBetween(previous, current) < MODULUS
    ensures BusyBetween(previous, current) >= 0 && IdleBetween(previous, current) >= 0
    ensures Wrap(current.Total() - previous.Total()) == BusyBetween(previous, current) + IdleBetween(previous, current)
    ensures Wrap(current.IdleTicks() - previous.IdleTicks()) == IdleBetween(previous, current)
  {
    TotalIsSum(previous);
    TotalIsSum(current);
    WrapDifference(current.Busy() + current.Idle(), previous.Busy() + previous.Idle());
    WrapDifference(current.Idle(), previous.Idle());
  }

  /** It is a percentage for any two readings, and zero when a counter went back. */
  lemma PercentIsBounded(previous: CpuStats, current: CpuStats)
    ensures 0.0 <= CpuPercent(previous, current) <= 100.0
    ensures !NoneDecreased(previous, current) ==> CpuPercent(previous, current) == 0.0
  {
  }

  function Seconds(d: Instant): real {
    d as real / 1_000_000_000.0
  }

  function CounterRate(previous: Word, current: Word, elapsed: Instant): real {
    if elapsed <= 0 || current < previous then 0.0 else (current - previous) as real / Seconds(elapsed)
  }

  /** The bytes between two readings, as far as they can be known: none over no time or across a reset. */
  function Increase(previous: Word, current: Word, elapsed: Instant): nat {
    if elapsed <= 0 || current < previous then 0 else current - previous
  }

  /** A rate is never negative, and over the time it was measured on it gives the increase back. */
  lemma RateTimesElapsed(previous: Word, current: Word, elapsed: Instant)
    ensures CounterRate(previous, current, elapsed) >= 0.0
    ensures CounterRate(previous, current, elapsed) * Seconds(elapsed) == Increase(previous, current, elapsed) as real
  {
    if elapsed > 0 {
      assert Seconds(elapsed) > 0.0;
      if current >= previous {
        QuotientTimes((current - previous) as real, Seconds(elapsed));
      }
    }
  }

  lemma QuotientTimes(x: real, y: real)
    requires x >= 0.0 && y > 0.0
    ensures x / y >= 0.0 && x / y * y == x
  {
  }
}
