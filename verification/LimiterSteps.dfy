/** What one call of the limiter does to its lists of admission times. */
module LimiterSteps {
  import opened Common
  import opened Windows

  const MAX_KEYS := 4096

  datatype Config = Config(limit: int, window: Instant) {
    predicate Active() { limit > 0 && window > 0 }
  }

  /** Allowed, or denied with the time after which to retry. */
  datatype Verdict = Allowed | Denied(retryAfter: Instant)

  function Judge(config: Config, recent: Times, now: Instant): Verdict
    requires config.Active()
  {
    if |recent| >= config.limit then Denied(recent[0] + config.window - now) else Allowed
  }

  /** A new key meets a full map: the key with the oldest first admission is evicted. */
  predicate Evicts(config: Config, events: Events, key: string, now: Instant) {
    var pruned := Pruned(events, now - config.window);
    key !in pruned && |pruned| >= MAX_KEYS
  }

  ghost predicate Legal(config: Config, events: Events, key: string, now: Instant, victim: string) {
    config.Active() && Evicts(config, events, key, now) ==> Oldest(Pruned(events, now - config.window), victim)
  }

  /** The lists after pruning and eviction; ties for the oldest are broken by `victim`. */
  function Room(config: Config, events: Events, key: string, now: Instant, victim: string): Events {
    var pruned := Pruned(events, now - config.window);
    if Evicts(config, events, key, now) then pruned - {victim} else pruned
  }

  function Allow(config: Config, events: Events, key: string, now: Instant, victim: string): (Events, Verdict) {
    if !config.Active() then (events, Allowed)
    else
      var room := Room(config, events, key, now, victim);
      var recent := TimesOf(room, key);
      var verdict := Judge(config, recent, now);
      (room[key := if verdict.Allowed? then recent + [now] else recent], verdict)
  }

  /** Checking prunes, and leaves an empty list behind for a key that has none. */
  function Check(config: Config, events: Events, key: string, now: Instant): (Events, Verdict) {
    if !config.Active() then (events, Allowed)
    else
      var pruned := Pruned(events, now - config.window);
      var recent := TimesOf(pruned, key);
      (pruned[key := recent], Judge(config, recent, now))
  }
}
