/** What the limiter decides over whole runs of calls. */
module LimiterRuns {
  import opened Common
  import opened Windows
  import opened LimiterSteps

  /** A call at a reading of the clock; an `AllowAt` carries the key that an eviction would choose. */
  datatype Op =
    | AllowAt(key: string, now: Instant, victim: string)
    | CheckAt(key: string, now: Instant)

  function Perform(config: Config, events: Events, op: Op): (Events, Verdict) {
    match op
    case AllowAt(key, now, victim) => Allow(config, events, key, now, victim)
    case CheckAt(key, now) => Check(config, events, key, now)
  }

  function Final(config: Config, events: Events, ops: seq<Op>): Events
    decreases |ops|
  {
    if ops == [] then events else Final(config, Perform(config, events, ops[0]).0, ops[1..])
  }

  function Verdicts(config: Config, events: Events, ops: seq<Op>): seq<Verdict>
    decreases |ops|
  {
    if ops == [] then []
    else [Perform(config, events, ops[0]).1] + Verdicts(config, Perform(config, events, ops[0]).0, ops[1..])
  }

  /** The clock never goes back. */
  predicate Monotone(ops: seq<Op>, since: Instant) {
    ops == [] || (ops[0].now >= since && Monotone(ops[1..], ops[0].now))
  }

  // ---- The simple limiter: keep every admission for ever, and count those inside the window ----

  function Within(times: Times, cutoff: Instant): Times {
    if times == [] then []
    else (if times[0] > cutoff then [times[0]] else []) + Within(times[1..], cutoff)
  }

  function NaiveVerdict(config: Config, log: Events, key: string, now: Instant): Verdict {
    if !config.Active() then Allowed else Judge(config, Within(TimesOf(log, key), now - config.window), now)
  }

  /** The log after a call was answered with this verdict. */
  function Logged(log: Events, op: Op, verdict: Verdict): Events {
    if op.AllowAt? && verdict.Allowed? then log[op.key := TimesOf(log, op.key) + [op.now]] else log
  }

  function NaiveVerdicts(config: Config, log: Events, ops: seq<Op>): seq<Verdict>
    decreases |ops|
  {
    if ops == [] then []
    else
      var verdict := NaiveVerdict(config, log, ops[0].key, ops[0].now);
      [verdict] + NaiveVerdicts(config, Logged(log, ops[0], verdict), ops[1..])
  }

  /** Every admission that the limiter makes in a run, by key. */
  function Admissions(config: Config, events: Events, log: Events, ops: seq<Op>): Events
    decreases |ops|
  {
    if ops == [] then log
    else
      var done := Perform(config, events, ops[0]);
      Admissions(config, done.0, Logged(log, ops[0], done.1), ops[1..])
  }

  // ---- Sorted logs ----

  ghost predicate SortedUpTo(times: Times, last: Instant) {
    && (forall i, j :: 0 <= i <= j < |times| ==> times[i] <= times[j])
    && (times != [] ==> times[|times| - 1] <= last)
  }

  lemma {:induction false} RecentIsWithin(times: Times, last: Instant, cutoff: Instant)
    requires SortedUpTo(times, last)
    ensures Recent(times, cutoff) == Within(times, cutoff)
  {
    if times != [] {
      assert SortedUpTo(times[1..], last);
      RecentIsWithin(times[1..], last, cutoff);
      if times[0] > cutoff {
        AllRecent(times[1..], cutoff);
      }
    }
  }

  lemma AllRecent(times: Times, cutoff: Instant)
    requires forall i :: 0 <= i < |times| ==> times[i] > cutoff
    ensures Recent(times, cutoff) == times
  {
  }

  // ---- Refinement: without evictions the limiter is the simple limiter ----

  /** The lists are exactly the part of the log inside the window that ends at the last call. */
  ghost predicate Refines(config: Config, events: Events, log: Events, last: Instant) {
    forall k :: SortedUpTo(TimesOf(log, k), last)
                && TimesOf(Pruned(events, last - config.window), k) == Recent(TimesOf(log, k), last - config.window)
  }

  /** No call of the run evicts. */
  predicate NoEviction(config: Config, events: Events, ops: seq<Op>)
    decreases |ops|
  {
    ops != [] ==>
      && (ops[0].AllowAt? && config.Active() ==> !Evicts(config, events, ops[0].key, ops[0].now))
      && NoEviction(config, Perform(config, events, ops[0]).0, ops[1..])
  }

  lemma RefinesLater(config: Config, events: Events, log: Events, last: Instant, now: Instant, key: string)
    requires Refines(config, events, log, last) && last <= now
    ensures SortedUpTo(TimesOf(log, key), now)
    ensures TimesOf(Pruned(events, now - config.window), key) == Recent(TimesOf(log, key), now - config.window)
  {
    var early, late := last - config.window, now - config.window;
    assert SortedUpTo(TimesOf(log, key), last);
    assert TimesOf(Pruned(events, early), key) == Recent(TimesOf(log, key), early);
    PrunedTimes(events, early, key);
    PrunedTimes(events, late, key);
    RecentTwice(TimesOf(events, key), early, late);
    RecentTwice(TimesOf(log, key), early, late);
  }

  /** The list of every key after a call that evicts nothing. */
  lemma TimesAfter(config: Config, events: Events, op: Op, k: string)
    requires config.Active() && (op.AllowAt? ==> !Evicts(config, events, op.key, op.now))
    ensures
      var done, recent := Perform(config, events, op), Recent(TimesOf(events, k), op.now - config.window);
      TimesOf(done.0, k) == if k == op.key && op.AllowAt? && done.1.Allowed? then recent + [op.now] else recent
  {
    PrunedTimes(events, op.now - config.window, k);
  }

  lemma LoggedTimes(log: Events, op: Op, verdict: Verdict, k: string)
    ensures TimesOf(Logged(log, op, verdict), k)
         == if k == op.key && op.AllowAt? && verdict.Allowed? then TimesOf(log, k) + [op.now] else TimesOf(log, k)
  {
  }

  lemma StepRefinesKey(config: Config, events: Events, log: Events, op: Op, k: string)
    requires config.Active() && (op.AllowAt? ==> !Evicts(config, events, op.key, op.now))
    requires SortedUpTo(TimesOf(log, k), op.now)
    requires Recent(TimesOf(events, k), op.now - config.window) == Recent(TimesOf(log, k), op.now - config.window)
    ensures
      var done, cutoff := Perform(config, events, op), op.now - config.window;
      var times := TimesOf(Logged(log, op, done.1), k);
      SortedUpTo(times, op.now) && Recent(TimesOf(done.0, k), cutoff) == Recent(times, cutoff)
  {
    var done := Perform(config, events, op);
    TimesAfter(config, events, op, k);
    LoggedTimes(log, op, done.1, k);
    ListAfter(TimesOf(events, k), TimesOf(done.0, k), TimesOf(log, k), TimesOf(Logged(log, op, done.1), k),
              op.now - config.window, op.now);
  }

  lemma StepRefinesAt(config: Config, events: Events, log: Events, last: Instant, op: Op, k: string)
    requires config.Active() && Refines(config, events, log, last) && last <= op.now
    requires op.AllowAt? ==> !Evicts(config, events, op.key, op.now)
    ensures
      var done, cutoff := Perform(config, events, op), op.now - config.window;
      var times := TimesOf(Logged(log, op, done.1), k);
      && SortedUpTo(times, op.now)
      && TimesOf(Pruned(done.0, cutoff), k) == Recent(times, cutoff)
  {
    RefinesLater(config, events, log, last, op.now, k);
    PrunedTimes(events, op.now - config.window, k);
    StepRefinesKey(config, events, log, op, k);
    PrunedTimes(Perform(config, events, op).0, op.now - config.window, k);
  }

  /** One key's list and log, before and after a call: cut only, or with the admission at the end of both. */
  lemma ListAfter(times: Times, held: Times, log: Times, log': Times, cutoff: Instant, now: Instant)
    requires SortedUpTo(log, now) && Recent(times, cutoff) == Recent(log, cutoff) && cutoff < now
    requires
      || (held == Recent(times, cutoff) && log' == log)
      || (held == Recent(times, cutoff) + [now] && log' == log + [now])
    ensures SortedUpTo(log', now) && Recent(held, cutoff) == Recent(log', cutoff)
  {
    AppendBoth(log, Recent(times, cutoff), cutoff, now);
  }

  lemma AppendBoth(log: Times, recent: Times, cutoff: Instant, now: Instant)
    requires SortedUpTo(log, now) && recent == Recent(log, cutoff) && cutoff < now
    ensures SortedUpTo(log + [now], now)
    ensures Recent(recent, cutoff) == recent
    ensures Recent(recent + [now], cutoff) == Recent(log + [now], cutoff)
  {
    RecentTwice(log, cutoff, cutoff);
    RecentAppends(log, cutoff, now);
    RecentAppends(recent, cutoff, now);
  }

  lemma StepRefines(config: Config, events: Events, log: Events, last: Instant, op: Op)
    requires config.Active() && Refines(config, events, log, last) && last <= op.now
    requires op.AllowAt? ==> !Evicts(config, events, op.key, op.now)
    ensures
      var done := Perform(config, events, op);
      && done.1 == NaiveVerdict(config, log, op.key, op.now)
      && Refines(config, done.0, Logged(log, op, done.1), op.now)
  {
    RefinesLater(config, events, log, last, op.now, op.key);
    RecentIsWithin(TimesOf(log, op.key), op.now, op.now - config.window);
    forall k {
      StepRefinesAt(config, events, log, last, op, k);
    }
  }

  lemma {:induction false} RunRefines(config: Config, events: Events, log: Events, last: Instant, ops: seq<Op>)
    requires config.Active() && Refines(config, events, log, last)
    requires Monotone(ops, last) && NoEviction(config, events, ops)
    ensures Verdicts(config, events, ops) == NaiveVerdicts(config, log, ops)
    decreases |ops|
  {
    if ops != [] {
      var done := Perform(config, events, ops[0]);
      StepRefines(config, events, log, last, ops[0]);
      RunRefines(config, done.0, Logged(log, ops[0], done.1), ops[0].now, ops[1..]);
    }
  }

  lemma {:induction false} InactiveAllowsAll(config: Config, events: Events, log: Events, ops: seq<Op>)
    requires !config.Active()
    ensures Verdicts(config, events, ops) == NaiveVerdicts(config, log, ops)
    decreases |ops|
  {
    if ops != [] {
      var done := Perform(config, events, ops[0]);
      InactiveAllowsAll(config, done.0, Logged(log, ops[0], done.1), ops[1..]);
    }
  }

  /**
   With a clock that never goes back, and as long as nothing is evicted, the limiter answers every call of
   every run as the simple limiter does that keeps every admission for ever, retry times included.
   */
  lemma LimiterIsNaive(config: Config, ops: seq<Op>, since: Instant)
    requires Monotone(ops, since) && NoEviction(config, map[], ops)
    ensures Verdicts(config, map[], ops) == NaiveVerdicts(config, map[], ops)
  {
    if config.Active() {
      RunRefines(config, map[], map[], since, ops);
    } else {
      InactiveAllowsAll(config, map[], map[], ops);
    }
  }

  // ---- When nothing is evicted ----

  function AllowedKeys(ops: seq<Op>): set<string> {
    set op | op in ops && op.AllowAt? :: op.key
  }

  lemma StepKeepsKeys(config: Config, events: Events, op: Op, keys: set<string>)
    requires NonEmpty(events).Keys <= keys && (op.AllowAt? ==> op.key in keys)
    ensures NonEmpty(Perform(config, events, op).0).Keys <= keys
  {
  }

  lemma SubsetIsSmaller(a: set<string>, b: set<string>)
    requires a <= b
    ensures |a| <= |b|
  {
    assert |b - a| == |b| - |a|;
  }

  lemma FewKeysNoEviction(config: Config, events: Events, key: string, now: Instant, keys: set<string>)
    requires NonEmpty(events).Keys <= keys && key in keys && |keys| <= MAX_KEYS
    ensures !Evicts(config, events, key, now)
  {
    var pruned := Pruned(events, now - config.window);
    if key !in pruned {
      SubsetIsSmaller(pruned.Keys, keys - {key});
    }
  }

  lemma AllowedKeysSplit(ops: seq<Op>)
    requires ops != []
    ensures ops[0].AllowAt? ==> ops[0].key in AllowedKeys(ops)
    ensures AllowedKeys(ops[1..]) <= AllowedKeys(ops)
  {
  }

  lemma {:induction false} FewKeysNeverEvict(config: Config, events: Events, ops: seq<Op>, keys: set<string>)
    requires NonEmpty(events).Keys <= keys && AllowedKeys(ops) <= keys && |keys| <= MAX_KEYS
    ensures NoEviction(config, events, ops)
    decreases |ops|
  {
    if ops != [] {
      var op := ops[0];
      AllowedKeysSplit(ops);
      if op.AllowAt? {
        FewKeysNoEviction(config, events, op.key, op.now, keys);
      }
      StepKeepsKeys(config, events, op, keys);
      FewKeysNeverEvict(config, Perform(config, events, op).0, ops[1..], keys);
    }
  }

  /** With at most 4096 different keys ever allowed, the limiter is the simple limiter. */
  lemma LimiterIsNaiveForFewKeys(config: Config, ops: seq<Op>, since: Instant)
    requires Monotone(ops, since) && |AllowedKeys(ops)| <= 4096
    ensures Verdicts(config, map[], ops) == NaiveVerdicts(config, map[], ops)
  {
    FewKeysNeverEvict(config, map[], ops, AllowedKeys(ops));
    LimiterIsNaive(config, ops, since);
  }

  // ---- How many admissions a window holds ----

  /** Admissions that are `limit` apart in the list are a window apart in time. */
  ghost predicate Spaced(config: Config, times: Times) {
    forall i, j :: 0 <= i < j < |times| && j - i >= config.limit ==> times[j] - times[i] >= config.window
  }

  lemma AllowedStaysSpaced(config: Config, log: Times, now: Instant)
    requires config.Active() && SortedUpTo(log, now) && Spaced(config, log)
    requires |Within(log, now - config.window)| < config.limit
    ensures Spaced(config, log + [now])
  {
    RecentIsWithin(log, now, now - config.window);
    RecentIsSuffix(log, now - config.window);
    DroppedAreOld(log, now - config.window);
  }

  lemma {:induction false} DroppedAreOld(times: Times, cutoff: Instant)
    ensures |Recent(times, cutoff)| <= |times|
    ensures forall i :: 0 <= i < |times| - |Recent(times, cutoff)| ==> times[i] <= cutoff
  {
    if times != [] && times[0] <= cutoff {
      DroppedAreOld(times[1..], cutoff);
    }
  }

  lemma StepIsSpaced(config: Config, log: Events, op: Op, verdict: Verdict, k: string)
    requires config.Active() && SortedUpTo(TimesOf(log, k), op.now)
    requires verdict == NaiveVerdict(config, log, op.key, op.now) && Spaced(config, TimesOf(log, k))
    ensures Spaced(config, TimesOf(Logged(log, op, verdict), k))
  {
    if op.AllowAt? && op.key == k && verdict.Allowed? {
      var times := TimesOf(log, k);
      AllowedStaysSpaced(config, times, op.now);
      assert TimesOf(log[k := times + [op.now]], k) == times + [op.now];
    }
  }

  lemma {:induction false} RunIsSpaced(config: Config, events: Events, log: Events, last: Instant, ops: seq<Op>, k: string)
    requires config.Active() && Refines(config, events, log, last) && Spaced(config, TimesOf(log, k))
    requires Monotone(ops, last) && NoEviction(config, events, ops)
    ensures Spaced(config, TimesOf(Admissions(config, events, log, ops), k))
    decreases |ops|
  {
    if ops != [] {
      var op, done := ops[0], Perform(config, events, ops[0]);
      StepRefines(config, events, log, last, op);
      RefinesLater(config, events, log, last, op.now, k);
      StepIsSpaced(config, log, op, done.1, k);
      RunIsSpaced(config, done.0, Logged(log, op, done.1), op.now, ops[1..], k);
    }
  }

  predicate InWindow(config: Config, time: Instant, at: Instant) {
    at - config.window < time <= at
  }

  /** How many admissions fall inside the window that ends at `at`. */
  function CountIn(config: Config, times: Times, at: Instant): nat {
    if times == [] then 0
    else CountIn(config, times[..|times| - 1], at) + (if InWindow(config, times[|times| - 1], at) then 1 else 0)
  }

  /** In every such run, no window of any key holds more than `limit` admissions. */
  lemma WindowsHoldLimit(config: Config, ops: seq<Op>, since: Instant, key: string, at: Instant)
    requires config.Active() && Monotone(ops, since) && NoEviction(config, map[], ops)
    ensures CountIn(config, TimesOf(Admissions(config, map[], map[], ops), key), at) <= config.limit
  {
    RunIsSpaced(config, map[], map[], since, ops, key);
    SpacedFitsLimit(config, TimesOf(Admissions(config, map[], map[], ops), key), at);
  }

  lemma {:induction false} SpacedFitsLimit(config: Config, times: Times, at: Instant)
    requires config.Active() && Spaced(config, times)
    ensures CountIn(config, times, at) <= config.limit
  {
    if times != [] {
      if InWindow(config, times[|times| - 1], at) {
        CountAfter(config, times, at, if |times| > config.limit then |times| - config.limit else 0);
      } else {
        SpacedFitsLimit(config, times[..|times| - 1], at);
      }
    }
  }

  lemma {:induction false} CountAfter(config: Config, times: Times, at: Instant, skipped: nat)
    requires skipped <= |times| && forall i :: 0 <= i < skipped ==> !InWindow(config, times[i], at)
    ensures CountIn(config, times, at) <= |times| - skipped
  {
    if times != [] {
      CountAfter(config, times[..|times| - 1], at, if skipped == |times| then skipped - 1 else skipped);
    }
  }

  // ---- With evictions ----

  /** Whatever the limiter holds for a key is the end of the key's log. */
  ghost predicate HoldsEnds(events: Events, log: Events) {
    forall k :: IsSuffixOf(TimesOf(events, k), TimesOf(log, k))
  }

  lemma SuffixOfSuffix(a: Times, b: Times, c: Times)
    requires IsSuffixOf(a, b) && IsSuffixOf(b, c)
    ensures IsSuffixOf(a, c)
  {
  }

  /** The list of every key after any call: its recent part, or nothing, plus the admission just made. */
  lemma StepTimes(config: Config, events: Events, op: Op, k: string)
    requires config.Active()
    ensures
      var done, recent := Perform(config, events, op), Recent(TimesOf(events, k), op.now - config.window);
      if k != op.key then TimesOf(done.0, k) in {recent, []}
      else TimesOf(done.0, k) == if op.AllowAt? && done.1.Allowed? then recent + [op.now] else recent
  {
    PrunedTimes(events, op.now - config.window, k);
    match op
    case AllowAt(key, now, victim) =>
      RoomTimes(config, events, key, now, victim, k);
    case CheckAt(_, _) =>
  }

  lemma RoomTimes(config: Config, events: Events, key: string, now: Instant, victim: string, k: string)
    ensures
      var room, pruned := Room(config, events, key, now, victim), Pruned(events, now - config.window);
      TimesOf(room, k) == TimesOf(pruned, k) || (k != key && TimesOf(room, k) == [])
  {
  }

  lemma HeldIsEnd(times: Times, held: Times, log: Times, log': Times, cutoff: Instant, now: Instant)
    requires IsSuffixOf(times, log)
    requires
      || held == []
      || (held == Recent(times, cutoff) && log' == log)
      || (held == Recent(times, cutoff) + [now] && log' == log + [now])
    ensures IsSuffixOf(held, log')
  {
    RecentIsSuffix(times, cutoff);
    SuffixOfSuffix(Recent(times, cutoff), times, log);
  }

  lemma StepHoldsEnd(config: Config, events: Events, log: Events, op: Op, k: string)
    requires config.Active() && IsSuffixOf(TimesOf(events, k), TimesOf(log, k))
    ensures
      var done := Perform(config, events, op);
      IsSuffixOf(TimesOf(done.0, k), TimesOf(Logged(log, op, done.1), k))
  {
    var done := Perform(config, events, op);
    StepTimes(config, events, op, k);
    HeldIsEnd(TimesOf(events, k), TimesOf(done.0, k), TimesOf(log, k), TimesOf(Logged(log, op, done.1), k),
              op.now - config.window, op.now);
  }

  lemma StepHoldsEnds(config: Config, events: Events, log: Events, op: Op)
    requires config.Active() && HoldsEnds(events, log)
    ensures HoldsEnds(Perform(config, events, op).0, Logged(log, op, Perform(config, events, op).1))
  {
    forall k {
      StepHoldsEnd(config, events, log, op, k);
    }
  }

  lemma {:induction false} RunHoldsEnds(config: Config, events: Events, log: Events, ops: seq<Op>)
    requires config.Active() && HoldsEnds(events, log)
    ensures HoldsEnds(Final(config, events, ops), Admissions(config, events, log, ops))
    decreases |ops|
  {
    if ops != [] {
      var done := Perform(config, events, ops[0]);
      StepHoldsEnds(config, events, log, ops[0]);
      RunHoldsEnds(config, done.0, Logged(log, ops[0], done.1), ops[1..]);
    }
  }

  lemma {:induction false} LogIsSorted(config: Config, events: Events, log: Events, ops: seq<Op>, last: Instant,
                                       next: Instant, k: string)
    requires Monotone(ops, last) && SortedUpTo(TimesOf(log, k), last)
    requires last <= next && (ops != [] ==> ops[|ops| - 1].now <= next)
    ensures SortedUpTo(TimesOf(Admissions(config, events, log, ops), k), next)
    decreases |ops|
  {
    if ops != [] {
      var done := Perform(config, events, ops[0]);
      MonotoneFrom(ops, last);
      LogIsSorted(config, done.0, Logged(log, ops[0], done.1), ops[1..], ops[0].now, next, k);
    }
  }

  lemma {:induction false} MonotoneFrom(ops: seq<Op>, since: Instant)
    requires ops != [] && Monotone(ops, since)
    ensures since <= ops[0].now <= ops[|ops| - 1].now
    decreases |ops|
  {
    if |ops| > 1 {
      MonotoneFrom(ops[1..], ops[0].now);
    }
  }

  lemma {:induction false} MonotoneSplit(ops: seq<Op>, op: Op, since: Instant)
    requires Monotone(ops + [op], since)
    ensures Monotone(ops, since) && since <= op.now && (ops != [] ==> ops[|ops| - 1].now <= op.now)
    decreases |ops|
  {
    if ops != [] {
      assert (ops + [op])[1..] == ops[1..] + [op];
      MonotoneSplit(ops[1..], op, ops[0].now);
    }
  }

  lemma WholeLogIsSorted(config: Config, before: seq<Op>, op: Op, since: Instant)
    requires Monotone(before + [op], since)
    ensures SortedUpTo(TimesOf(Admissions(config, map[], map[], before), op.key), op.now)
  {
    MonotoneSplit(before, op, since);
    LogIsSorted(config, map[], map[], before, since, op.now, op.key);
  }

  /**
   Evictions only forget. After any run, with any evictions, a denial means that the key really has at least
   `limit` admissions inside the window, by the limiter's own record of what it admitted.
   */
  lemma DenialIsReal(config: Config, before: seq<Op>, op: Op, since: Instant)
    requires Monotone(before + [op], since)
    requires config.Active() && Perform(config, Final(config, map[], before), op).1.Denied?
    ensures |Within(TimesOf(Admissions(config, map[], map[], before), op.key), op.now - config.window)| >= config.limit
  {
    RunHoldsEnds(config, map[], map[], before);
    WholeLogIsSorted(config, before, op, since);
    DenialIsRealIn(config, Final(config, map[], before), Admissions(config, map[], map[], before), op);
  }

  lemma DenialIsRealIn(config: Config, events: Events, log: Events, op: Op)
    requires HoldsEnds(events, log) && SortedUpTo(TimesOf(log, op.key), op.now)
    requires Perform(config, events, op).1.Denied?
    ensures |Within(TimesOf(log, op.key), op.now - config.window)| >= config.limit
  {
    DenialHasTimes(config, events, op);
    FullEndIsWithin(config, TimesOf(events, op.key), TimesOf(log, op.key), op.now);
  }

  lemma DenialHasTimes(config: Config, events: Events, op: Op)
    requires Perform(config, events, op).1.Denied?
    ensures config.Active() && |Recent(TimesOf(events, op.key), op.now - config.window)| >= config.limit
  {
    PrunedTimes(events, op.now - config.window, op.key);
  }

  lemma FullEndIsWithin(config: Config, times: Times, log: Times, now: Instant)
    requires IsSuffixOf(times, log) && SortedUpTo(log, now)
    requires |Recent(times, now - config.window)| >= config.limit
    ensures |Within(log, now - config.window)| >= config.limit
  {
    RecentOfSuffix(times, log, now - config.window);
    RecentIsWithin(log, now, now - config.window);
  }

  // ---- How much the limiter holds ----

  ghost predicate LegalRun(config: Config, events: Events, ops: seq<Op>)
    decreases |ops|
  {
    ops != [] ==>
      && (ops[0].AllowAt? ==> Legal(config, events, ops[0].key, ops[0].now, ops[0].victim))
      && LegalRun(config, Perform(config, events, ops[0]).0, ops[1..])
  }

  ghost predicate WithinLimit(config: Config, events: Events) {
    forall k :: k in events ==> |events[k]| <= config.limit
  }

  /** At most 4096 keys have times, and at most one key is there without any. */
  ghost predicate Bounded(events: Events) {
    |NonEmpty(events)| <= MAX_KEYS && |events| <= |NonEmpty(events)| + 1
  }

  /** What holds after a run, the more after an `Allow`. */
  ghost predicate Held(events: Events, afterAllow: bool) {
    Bounded(events) && (afterAllow ==> Full(events) && |events| <= MAX_KEYS)
  }

  ghost predicate Full(events: Events) {
    NonEmpty(events) == events
  }

  lemma PrunedIsSmaller(events: Events, cutoff: Instant)
    ensures NonEmpty(Pruned(events, cutoff)) == Pruned(events, cutoff)
    ensures |Pruned(events, cutoff)| <= |NonEmpty(events)|
  {
    SubsetIsSmaller(Pruned(events, cutoff).Keys, NonEmpty(events).Keys);
    assert |Pruned(events, cutoff)| == |Pruned(events, cutoff).Keys|;
    assert |NonEmpty(events)| == |NonEmpty(events).Keys|;
  }

  lemma InsertSize(events: Events, key: string, times: Times)
    ensures |events[key := times]| == if key in events then |events| else |events| + 1
  {
    assert events[key := times].Keys == events.Keys + {key};
    assert |events[key := times]| == |events[key := times].Keys| && |events| == |events.Keys|;
  }

  lemma AllowIsBounded(config: Config, events: Events, key: string, now: Instant, victim: string)
    requires config.Active() && Bounded(events) && Legal(config, events, key, now, victim)
    ensures
      var after := Allow(config, events, key, now, victim).0;
      Full(after) && |after| <= MAX_KEYS
  {
    var pruned, room := Pruned(events, now - config.window), Room(config, events, key, now, victim);
    PrunedIsSmaller(events, now - config.window);
    if Evicts(config, events, key, now) {
      assert room.Keys == pruned.Keys - {victim};
      assert |room| == |room.Keys| && |pruned| == |pruned.Keys|;
    }
    var after := Allow(config, events, key, now, victim).0;
    InsertSize(room, key, after[key]);
  }

  lemma InsertKeepsNonEmpty(events: Events, key: string)
    requires Full(events)
    ensures NonEmpty(events[key := TimesOf(events, key)]) == events
  {
    forall k ensures k in events ==> events[k] != [] {
      assert k in events ==> k in NonEmpty(events);
    }
  }

  lemma CheckIsBounded(config: Config, events: Events, key: string, now: Instant)
    requires config.Active() && Bounded(events)
    ensures Bounded(Check(config, events, key, now).0)
  {
    var pruned := Pruned(events, now - config.window);
    PrunedIsSmaller(events, now - config.window);
    InsertSize(pruned, key, TimesOf(pruned, key));
    InsertKeepsNonEmpty(pruned, key);
  }

  lemma StepWithinLimitAt(config: Config, events: Events, op: Op, k: string)
    requires config.Active() && WithinLimit(config, events)
    ensures |TimesOf(Perform(config, events, op).0, k)| <= config.limit
  {
    RecentIsSuffix(TimesOf(events, k), op.now - config.window);
    StepTimes(config, events, op, k);
    PrunedTimes(events, op.now - config.window, k);
  }

  lemma StepWithinLimit(config: Config, events: Events, op: Op)
    requires config.Active() && WithinLimit(config, events)
    ensures WithinLimit(config, Perform(config, events, op).0)
  {
    var after := Perform(config, events, op).0;
    forall k | k in after ensures |after[k]| <= config.limit {
      StepWithinLimitAt(config, events, op, k);
    }
  }

  lemma StepHeld(config: Config, events: Events, op: Op)
    requires config.Active() && Bounded(events)
    requires op.AllowAt? ==> Legal(config, events, op.key, op.now, op.victim)
    ensures Held(Perform(config, events, op).0, op.AllowAt?)
  {
    match op
    case AllowAt(key, now, victim) => AllowIsBounded(config, events, key, now, victim);
    case CheckAt(key, now) => CheckIsBounded(config, events, key, now);
  }

  lemma {:induction false} RunHeld(config: Config, events: Events, ops: seq<Op>, afterAllow: bool)
    requires config.Active() && LegalRun(config, events, ops) && Held(events, afterAllow)
    ensures Held(Final(config, events, ops), if ops == [] then afterAllow else ops[|ops| - 1].AllowAt?)
    decreases |ops|
  {
    if ops != [] {
      StepHeld(config, events, ops[0]);
      RunHeld(config, Perform(config, events, ops[0]).0, ops[1..], ops[0].AllowAt?);
    }
  }

  lemma {:induction false} RunWithinLimit(config: Config, events: Events, ops: seq<Op>)
    requires config.Active() && WithinLimit(config, events)
    ensures WithinLimit(config, Final(config, events, ops))
    decreases |ops|
  {
    if ops != [] {
      StepWithinLimit(config, events, ops[0]);
      RunWithinLimit(config, Perform(config, events, ops[0]).0, ops[1..]);
    }
  }

  /**
   After any run, even of a clock that goes back: no key holds more than `limit` times; there are at most 4097
   keys, at most one of them without times; and right after an `Allow` at most 4096, all with times.
   */
  lemma KeysAreBounded(config: Config, ops: seq<Op>)
    requires config.Active() && LegalRun(config, map[], ops)
    ensures
      var after := Final(config, map[], ops);
      && WithinLimit(config, after)
      && |NonEmpty(after)| <= 4096 && |after| <= |NonEmpty(after)| + 1 && |after| <= 4097
      && (ops != [] && ops[|ops| - 1].AllowAt? ==> NonEmpty(after) == after && |after| <= 4096)
  {
    assert NonEmpty(map[]) == map[];
    RunHeld(config, map[], ops, true);
    RunWithinLimit(config, map[], ops);
  }

  // ---- Checking is transparent ----

  function AllowVerdicts(config: Config, events: Events, ops: seq<Op>): seq<Verdict>
    decreases |ops|
  {
    if ops == [] then []
    else
      var done := Perform(config, events, ops[0]);
      (if ops[0].AllowAt? then [done.1] else []) + AllowVerdicts(config, done.0, ops[1..])
  }

  function WithoutChecks(ops: seq<Op>): seq<Op> {
    if ops == [] then [] else (if ops[0].AllowAt? then [ops[0]] else []) + WithoutChecks(ops[1..])
  }

  /** Two states of which the next call, at any later time, sees the same. */
  ghost predicate Indistinct(config: Config, a: Events, b: Events, last: Instant) {
    Pruned(a, last - config.window) == Pruned(b, last - config.window)
  }

  lemma IndistinctLater(config: Config, a: Events, b: Events, last: Instant, now: Instant)
    requires Indistinct(config, a, b, last) && last <= now
    ensures Indistinct(config, a, b, now)
  {
    PrunedTwice(a, last - config.window, now - config.window);
    PrunedTwice(b, last - config.window, now - config.window);
  }

  lemma CheckIsIndistinct(config: Config, events: Events, key: string, now: Instant)
    ensures Indistinct(config, Check(config, events, key, now).0, events, now)
  {
    var cutoff := now - config.window;
    var pruned := Pruned(events, cutoff);
    PrunedTwice(events, cutoff, cutoff);
    if key in pruned {
      assert pruned[key := pruned[key]] == pruned;
    } else {
      PrunedIgnoresEmpty(pruned, key, cutoff);
    }
  }

  lemma AllowSeesSame(config: Config, a: Events, b: Events, op: Op)
    requires Indistinct(config, a, b, op.now) && op.AllowAt? && config.Active()
    ensures Perform(config, a, op) == Perform(config, b, op)
  {
  }

  lemma {:induction false} ChecksCanGo(config: Config, a: Events, b: Events, ops: seq<Op>, last: Instant)
    requires config.Active() && Indistinct(config, a, b, last) && Monotone(ops, last)
    ensures AllowVerdicts(config, a, ops) == AllowVerdicts(config, b, WithoutChecks(ops))
    decreases |ops|
  {
    if ops != [] {
      var op := ops[0];
      IndistinctLater(config, a, b, last, op.now);
      if op.AllowAt? {
        AllowSeesSame(config, a, b, op);
        ChecksCanGo(config, Perform(config, a, op).0, Perform(config, b, op).0, ops[1..], op.now);
        assert WithoutChecks(ops)[0] == op && WithoutChecks(ops)[1..] == WithoutChecks(ops[1..]);
      } else {
        CheckIsIndistinct(config, a, op.key, op.now);
        assert WithoutChecks(ops) == WithoutChecks(ops[1..]);
        ChecksCanGo(config, Perform(config, a, op).0, b, ops[1..], op.now);
      }
    }
  }

  /** What the limiter may evict does not depend on checks either. */
  lemma {:induction false} LegalWithoutChecks(config: Config, a: Events, b: Events, ops: seq<Op>, last: Instant)
    requires config.Active() && Indistinct(config, a, b, last) && Monotone(ops, last)
    ensures LegalRun(config, a, ops) <==> LegalRun(config, b, WithoutChecks(ops))
    decreases |ops|
  {
    if ops != [] {
      var op := ops[0];
      IndistinctLater(config, a, b, last, op.now);
      if op.AllowAt? {
        AllowSeesSame(config, a, b, op);
        LegalWithoutChecks(config, Perform(config, a, op).0, Perform(config, b, op).0, ops[1..], op.now);
        assert WithoutChecks(ops)[0] == op && WithoutChecks(ops)[1..] == WithoutChecks(ops[1..]);
        SameVictims(config, a, b, op);
      } else {
        CheckIsIndistinct(config, a, op.key, op.now);
        assert WithoutChecks(ops) == WithoutChecks(ops[1..]);
        LegalWithoutChecks(config, Perform(config, a, op).0, b, ops[1..], op.now);
      }
    }
  }

  lemma SameVictims(config: Config, a: Events, b: Events, op: Op)
    requires Indistinct(config, a, b, op.now) && op.AllowAt?
    ensures Legal(config, a, op.key, op.now, op.victim) <==> Legal(config, b, op.key, op.now, op.victim)
  {
  }

  /**
   With a clock that never goes back, runs that differ only in their checks, wherever and however many, allow
   and deny alike, evictions included, and may evict the same keys: checking writes to the map, and no `Allow`
   can tell.
   */
  lemma ChecksAreTransparent(config: Config, ops: seq<Op>, others: seq<Op>, since: Instant)
    requires config.Active() && Monotone(ops, since) && Monotone(others, since)
    requires WithoutChecks(ops) == WithoutChecks(others)
    ensures AllowVerdicts(config, map[], ops) == AllowVerdicts(config, map[], others)
    ensures LegalRun(config, map[], ops) <==> LegalRun(config, map[], others)
  {
    LegalWithoutChecks(config, map[], map[], ops, since);
    LegalWithoutChecks(config, map[], map[], others, since);
    ChecksCanGo(config, map[], map[], ops, since);
    ChecksCanGo(config, map[], map[], others, since);
  }

  /** A check answers what an `Allow` would answer at that instant, whatever it would evict. */
  lemma CheckPredictsAllow(config: Config, events: Events, key: string, now: Instant, victim: string)
    requires Legal(config, events, key, now, victim)
    ensures Check(config, events, key, now).1 == Allow(config, events, key, now, victim).1
  {
  }
}
