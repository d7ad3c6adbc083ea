/** A rate-limit answer on its way from the limiter through the response header to the agent's next try. */
module RateLimit {
  import opened Common
  import opened Numerals
  import opened Windows
  import opened LimiterSteps
  import opened LimiterRuns

  const MAX_WAIT: Instant := 3_600_000_000_000

  // Whole seconds, rounded up; the float that the code rounds is exact for every window of practical length.
  function CeilSeconds(d: Instant): int {
    -(-d / NANOS_PER_SECOND)
  }

  function RetryHeader(retryAfter: Instant): string {
    var seconds := CeilSeconds(retryAfter);
    IntText(if seconds < 1 then 1 else seconds, 10)
  }

  /** The wait that the agent reads in the header: one second for text it does not take. */
  function ParsedWait(raw: string): Instant {
    match ParseInt(TrimSpace(raw), 10)
    case None => NANOS_PER_SECOND
    case Some(seconds) => if seconds < 0 || seconds > 3600 then NANOS_PER_SECOND else seconds * NANOS_PER_SECOND
  }

  function AgentWait(retryAfter: Instant): Instant {
    ParsedWait(RetryHeader(retryAfter))
  }

  lemma HeaderIsRead(seconds: int)
    requires seconds >= 1
    ensures ParsedWait(IntText(seconds, 10))
         == if seconds > 3600 then NANOS_PER_SECOND else seconds * NANOS_PER_SECOND
  {
    NatTextParses(seconds, 10);
    DigitsAreTrimmed(IntText(seconds, 10));
    TextRoundTrip(seconds, 10);
  }

  /**
   The agent waits long enough exactly when the limiter asked for at most an hour, and then less than a
   second too long; a longer request is cut to one second.
   */
  lemma WaitCovers(retryAfter: Instant)
    requires retryAfter > 0
    ensures AgentWait(retryAfter) >= retryAfter <==> retryAfter <= MAX_WAIT
    ensures retryAfter <= MAX_WAIT ==> AgentWait(retryAfter) < retryAfter + NANOS_PER_SECOND
    ensures retryAfter > MAX_WAIT ==> AgentWait(retryAfter) == NANOS_PER_SECOND
  {
    var seconds := CeilSeconds(retryAfter);
    assert seconds * 1_000_000_000 >= retryAfter > (seconds - 1) * 1_000_000_000;
    HeaderIsRead(seconds);
  }

  /** No header at all makes the agent wait for more than an hour; one that is no number of seconds, a second. */
  lemma HeaderIsBounded(header: string)
    ensures 0 <= ParsedWait(header) <= 3_600_000_000_000
    ensures ParseInt(TrimSpace(header), 10) == None ==> ParsedWait(header) == 1_000_000_000
    ensures forall seconds :: ParseInt(TrimSpace(header), 10) == Some(seconds) ==>
              ParsedWait(header) == if 0 <= seconds <= 3600 then seconds * 1_000_000_000 else 1_000_000_000
  {
  }

  // ---- What happens to the key's list until the next try ----

  /** No call of the run admits the key. */
  predicate NotAdmitted(config: Config, events: Events, ops: seq<Op>, key: string)
    decreases |ops|
  {
    ops != [] ==>
      var done := Perform(config, events, ops[0]);
      !(ops[0].AllowAt? && ops[0].key == key && done.1.Allowed?) && NotAdmitted(config, done.0, ops[1..], key)
  }

  lemma {:induction false} RunShrinks(config: Config, events: Events, ops: seq<Op>, key: string, held: Times)
    requires config.Active() && NotAdmitted(config, events, ops, key) && IsSuffixOf(TimesOf(events, key), held)
    ensures IsSuffixOf(TimesOf(Final(config, events, ops), key), held)
    decreases |ops|
  {
    if ops != [] {
      var op := ops[0];
      var recent := Recent(TimesOf(events, key), op.now - config.window);
      StepTimes(config, events, op, key);
      RecentIsSuffix(TimesOf(events, key), op.now - config.window);
      SuffixOfSuffix(recent, TimesOf(events, key), held);
      RunShrinks(config, Perform(config, events, op).0, ops[1..], key, held);
    }
  }

  /** A full list has room again once its first time is out of the window. */
  lemma RoomAgain(config: Config, events: Events, held: Times, op: Op)
    requires config.Active() && op.AllowAt? && IsSuffixOf(TimesOf(events, op.key), held)
    requires 0 < |held| <= config.limit && held[0] + config.window <= op.now
    ensures Perform(config, events, op).1.Allowed?
  {
    var cutoff := op.now - config.window;
    RecentOfSuffix(TimesOf(events, op.key), held, cutoff);
    RecentIsSuffix(held, cutoff);
    RecentIsSuffix(held[1..], cutoff);
    DenialNeedsTimes(config, events, op);
  }

  lemma DenialNeedsTimes(config: Config, events: Events, op: Op)
    requires config.Active() && |Recent(TimesOf(events, op.key), op.now - config.window)| < config.limit
    ensures Perform(config, events, op).1.Allowed?
  {
    if Perform(config, events, op).1.Denied? {
      DenialHasTimes(config, events, op);
    }
  }

  /** A denial keeps the recent times, and its answer is when the first of them leaves the window. */
  lemma DenialEffect(config: Config, events: Events, op: Op)
    requires Perform(config, events, op).1.Denied? && WithinLimit(config, events)
    ensures config.Active()
    ensures
      var done := Perform(config, events, op);
      var held := TimesOf(done.0, op.key);
      && |held| == config.limit
      && held[0] > op.now - config.window
      && done.1.retryAfter == held[0] + config.window - op.now
  {
    var recent := Recent(TimesOf(events, op.key), op.now - config.window);
    DenialHasTimes(config, events, op);
    StepTimes(config, events, op, op.key);
    DenialAsksForFirst(config, events, op);
    RecentFits(config, events, op.key, op.now - config.window);
    RecentIsSuffix(TimesOf(events, op.key), op.now - config.window);
    assert TimesOf(Perform(config, events, op).0, op.key) == recent;
  }

  /** The retry time is when the first recent time leaves the window. */
  lemma DenialAsksForFirst(config: Config, events: Events, op: Op)
    requires Perform(config, events, op).1.Denied?
    ensures
      var recent := Recent(TimesOf(events, op.key), op.now - config.window);
      && recent != []
      && Perform(config, events, op).1.retryAfter == recent[0] + config.window - op.now
  {
    var cutoff := op.now - config.window;
    PrunedTimes(events, cutoff, op.key);
    match op
    case AllowAt(key, now, victim) => RoomTimes(config, events, key, now, victim, key);
    case CheckAt(_, _) =>
  }

  lemma RecentFits(config: Config, events: Events, key: string, cutoff: Instant)
    requires WithinLimit(config, events) && config.limit > 0
    ensures |Recent(TimesOf(events, key), cutoff)| <= config.limit
  {
    RecentIsSuffix(TimesOf(events, key), cutoff);
  }

  /**
   In any run, an agent that was denied and waits as its header says is admitted at its next try, if the
   limiter asked for at most an hour and no one else was admitted under the key meanwhile.
   */
  lemma WaitIsHonoured(config: Config, before: seq<Op>, denied: Op, between: seq<Op>, retry: Op)
    requires denied.AllowAt? && retry.AllowAt? && retry.key == denied.key
    requires Perform(config, Final(config, map[], before), denied).1.Denied?
    requires
      var done := Perform(config, Final(config, map[], before), denied);
      && done.1.retryAfter <= MAX_WAIT
      && retry.now >= denied.now + AgentWait(done.1.retryAfter)
      && NotAdmitted(config, done.0, between, denied.key)
    ensures
      var done := Perform(config, Final(config, map[], before), denied);
      Perform(config, Final(config, done.0, between), retry).1.Allowed?
  {
    DenialAsks(config, before, denied);
    WaitCovers(Perform(config, Final(config, map[], before), denied).1.retryAfter);
    WaitingIsEnough(config, before, denied, between, retry);
  }

  /** A denial always asks for some time. */
  lemma DenialAsks(config: Config, before: seq<Op>, denied: Op)
    requires Perform(config, Final(config, map[], before), denied).1.Denied?
    ensures Perform(config, Final(config, map[], before), denied).1.retryAfter > 0
  {
    DenialHasTimes(config, Final(config, map[], before), denied);
    RunWithinLimit(config, map[], before);
    DenialEffect(config, Final(config, map[], before), denied);
  }

  /** A try after the time that the limiter asked for is admitted, if no one else was under the key meanwhile. */
  lemma WaitingIsEnough(config: Config, before: seq<Op>, denied: Op, between: seq<Op>, retry: Op)
    requires denied.AllowAt? && retry.AllowAt? && retry.key == denied.key
    requires Perform(config, Final(config, map[], before), denied).1.Denied?
    requires
      var done := Perform(config, Final(config, map[], before), denied);
      && retry.now >= denied.now + done.1.retryAfter && NotAdmitted(config, done.0, between, denied.key)
    ensures
      var done := Perform(config, Final(config, map[], before), denied);
      Perform(config, Final(config, done.0, between), retry).1.Allowed?
  {
    var events := Final(config, map[], before);
    var done := Perform(config, events, denied);
    DenialHasTimes(config, events, denied);
    RunWithinLimit(config, map[], before);
    DenialEffect(config, events, denied);
    RunShrinks(config, done.0, between, denied.key, TimesOf(done.0, denied.key));
    RoomAgain(config, Final(config, done.0, between), TimesOf(done.0, denied.key), retry);
  }

  /** With a clock that never goes back no denial asks for more than the window. */
  lemma RetryWithinWindow(config: Config, before: seq<Op>, denied: Op, since: Instant)
    requires Monotone(before + [denied], since)
    requires Perform(config, Final(config, map[], before), denied).1.Denied?
    ensures 0 < Perform(config, Final(config, map[], before), denied).1.retryAfter <= config.window
  {
    var events, log := Final(config, map[], before), Admissions(config, map[], map[], before);
    DenialHasTimes(config, events, denied);
    RunWithinLimit(config, map[], before);
    DenialEffect(config, events, denied);
    RunHoldsEnds(config, map[], map[], before);
    WholeLogIsSorted(config, before, denied, since);
    HeldIsPast(TimesOf(events, denied.key), TimesOf(log, denied.key), denied.now - config.window, denied.now);
    StepTimes(config, events, denied, denied.key);
  }

  lemma HeldIsPast(times: Times, log: Times, cutoff: Instant, now: Instant)
    requires IsSuffixOf(times, log) && SortedUpTo(log, now)
    ensures Recent(times, cutoff) != [] ==> Recent(times, cutoff)[0] <= now
  {
    RecentIsSuffix(times, cutoff);
    SuffixOfSuffix(Recent(times, cutoff), times, log);
  }

  /**
   The whole round trip: with a clock that never goes back and a window of at most an hour, a denied agent
   that waits the advertised time is admitted at its next try, whatever other keys do and whatever is evicted.
   */
  lemma RateLimitRoundTrip(config: Config, before: seq<Op>, denied: Op, between: seq<Op>, retry: Op, since: Instant)
    requires Monotone(before + [denied], since) && config.window <= MAX_WAIT
    requires denied.AllowAt? && retry.AllowAt? && retry.key == denied.key
    requires Perform(config, Final(config, map[], before), denied).1.Denied?
    requires
      var done := Perform(config, Final(config, map[], before), denied);
      && retry.now >= denied.now + AgentWait(done.1.retryAfter)
      && NotAdmitted(config, done.0, between, denied.key)
    ensures
      var done := Perform(config, Final(config, map[], before), denied);
      Perform(config, Final(config, done.0, between), retry).1.Allowed?
  {
    RetryWithinWindow(config, before, denied, since);
    WaitIsHonoured(config, before, denied, between, retry);
  }

  /** A try denied in this state is admitted when repeated after exactly the wait that the agent reads. */
  predicate AdmittedAfterWait(config: Config, events: Events, denied: Op, victim: string)
    requires Perform(config, events, denied).1.Denied?
  {
    var done := Perform(config, events, denied);
    Perform(config, done.0, AllowAt(denied.key, denied.now + AgentWait(done.1.retryAfter), victim)).1.Allowed?
  }

  lemma RetryAtOnce(config: Config, events: Events, denied: Op, victim: string)
    requires denied.AllowAt? && Perform(config, events, denied).1.Denied? && WithinLimit(config, events)
    ensures AdmittedAfterWait(config, events, denied, victim)
       <==> Perform(config, events, denied).1.retryAfter <= MAX_WAIT
  {
    var done := Perform(config, events, denied);
    DenialHasTimes(config, events, denied);
    DenialEffect(config, events, denied);
    RetryOfFull(config, done.0, denied.key, denied.now, done.1.retryAfter, victim);
  }

  lemma RetryOfFull(config: Config, events: Events, key: string, now: Instant, retryAfter: Instant, victim: string)
    requires config.Active() && |TimesOf(events, key)| == config.limit
    requires 0 < retryAfter == TimesOf(events, key)[0] + config.window - now
    ensures Perform(config, events, AllowAt(key, now + AgentWait(retryAfter), victim)).1.Allowed?
       <==> retryAfter <= MAX_WAIT
  {
    var retry := AllowAt(key, now + AgentWait(retryAfter), victim);
    WaitCovers(retryAfter);
    if retryAfter <= MAX_WAIT {
      RoomAgain(config, events, TimesOf(events, key), retry);
    } else {
      StillFull(config, events, retry);
    }
  }

  /**
   After any run, an agent that retries after exactly the wait it read, nothing else having happened, is
   admitted if and only if the limiter asked for at most an hour: longer requests are read as one second.
   */
  lemma PromptRetry(config: Config, before: seq<Op>, denied: Op, victim: string)
    requires denied.AllowAt? && Perform(config, Final(config, map[], before), denied).1.Denied?
    ensures AdmittedAfterWait(config, Final(config, map[], before), denied, victim)
       <==> Perform(config, Final(config, map[], before), denied).1.retryAfter <= MAX_WAIT
  {
    DenialHasTimes(config, Final(config, map[], before), denied);
    RunWithinLimit(config, map[], before);
    RetryAtOnce(config, Final(config, map[], before), denied, victim);
  }

  lemma StillFull(config: Config, events: Events, op: Op)
    requires config.Active() && |TimesOf(events, op.key)| >= config.limit
    requires TimesOf(events, op.key)[0] > op.now - config.window
    ensures Perform(config, events, op).1.Denied?
  {
    PrunedTimes(events, op.now - config.window, op.key);
  }

  // ---- A request for more than an hour ----

  // The limiter that the server puts before its report handler.
  const REPORT_LIMITS := Config(4, 60_000_000_000)

  /** The state after so many admissions at one instant. */
  function Holding(admissions: nat): Events {
    if admissions == 0 then map[] else map["n" := seq(admissions, _ => MAX_WAIT)]
  }

  /** Four admissions, and a clock that then goes back by an hour. */
  const BEFORE_SETBACK := seq(4, _ => AllowAt("n", MAX_WAIT, ""))
  const AFTER_SETBACK := AllowAt("n", 0, "")

  /**
   The report limiter has a window of a minute, so it asks for more than an hour only if its clock went back; then
   it does, and the agent, which reads one second, is denied again.
   */
  lemma LongRetryIsReachable()
    ensures
      var events := Final(REPORT_LIMITS, map[], BEFORE_SETBACK);
      && Perform(REPORT_LIMITS, events, AFTER_SETBACK).1 == Denied(MAX_WAIT + 60_000_000_000)
      && !AdmittedAfterWait(REPORT_LIMITS, events, AFTER_SETBACK, "")
  {
    AdmitsFour();
    var events := Final(REPORT_LIMITS, map[], BEFORE_SETBACK);
    FourAreFull();
    assert WithinLimit(REPORT_LIMITS, events);
    RetryAtOnce(REPORT_LIMITS, events, AFTER_SETBACK, "");
  }

  lemma AdmitsFour()
    ensures Final(REPORT_LIMITS, map[], BEFORE_SETBACK) == Holding(4)
  {
    var states := seq(5, i requires 0 <= i < 5 => Holding(i));
    forall i | 0 <= i < 4 ensures Perform(REPORT_LIMITS, states[i], BEFORE_SETBACK[i]).0 == states[i + 1] {
      AdmitsNext(i);
    }
    FinalFollows(REPORT_LIMITS, states, BEFORE_SETBACK);
  }

  lemma {:induction false} FinalFollows(config: Config, states: seq<Events>, ops: seq<Op>)
    requires |states| == |ops| + 1
    requires forall i :: 0 <= i < |ops| ==> Perform(config, states[i], ops[i]).0 == states[i + 1]
    ensures Final(config, states[0], ops) == states[|ops|]
    decreases |ops|
  {
    if ops != [] {
      forall i | 0 <= i < |ops| - 1 ensures Perform(config, states[1..][i], ops[1..][i]).0 == states[1..][i + 1] {
        assert states[1..][i] == states[i + 1] && ops[1..][i] == ops[i + 1];
      }
      assert Perform(config, states[0], ops[0]).0 == states[1];
      FinalFollows(config, states[1..], ops[1..]);
    }
  }

  lemma AdmitsNext(admissions: nat)
    requires admissions < 4
    ensures Perform(REPORT_LIMITS, Holding(admissions), AllowAt("n", MAX_WAIT, "")).0 == Holding(admissions + 1)
  {
    var events := Holding(admissions);
    assert Pruned(events, MAX_WAIT - 60_000_000_000) == events;
    assert TimesOf(events, "n") + [MAX_WAIT] == seq(admissions + 1, _ => MAX_WAIT);
  }

  lemma FourAreFull()
    ensures Perform(REPORT_LIMITS, Holding(4), AFTER_SETBACK).1 == Denied(MAX_WAIT + 60_000_000_000)
  {
    assert Pruned(Holding(4), -60_000_000_000) == Holding(4);
  }
}
