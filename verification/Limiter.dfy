/** The limiter itself: a map of lists, pruned and written in place. */
module Limiter {
  import opened Common
  import opened Windows
  import opened LimiterSteps

  class SlidingWindowLimiter {
    const config: Config
    var events: Events

    // The empty key stands for "none yet" while the oldest key is sought, so it must not be in use.
    ghost predicate Valid()
      reads this
    {
      "" !in events
    }

    constructor (limit: int, window: Instant)
      ensures Valid() && config == Config(limit, window) && events == map[]
    {
      config := Config(limit, window);
      events := map[];
    }

    method CountExpired(times: Times, cutoff: Instant) returns (first: nat)
      ensures first <= |times| && times[first..] == Recent(times, cutoff)
    {
      first := 0;
      while first < |times| && times[first] <= cutoff
        invariant first <= |times| && Recent(times[first..], cutoff) == Recent(times, cutoff)
      {
        assert times[first..][1..] == times[first + 1..];
        first := first + 1;
      }
    }

    method PruneExpired(now: Instant)
      modifies this`events
      ensures events == Pruned(old(events), now - config.window)
    {
      var cutoff := now - config.window;
      var rest := events.Keys;
      ghost var before, after := events, Pruned(events, cutoff);
      while rest != {}
        invariant rest <= before.Keys
        invariant forall k :: k in events <==> k in rest || k in after
        invariant forall k :: k in events ==> events[k] == if k in rest then before[k] else after[k]
        decreases |rest|
      {
        var key :| key in rest;
        rest := rest - {key};
        var first := CountExpired(events[key], cutoff);
        if first == |events[key]| {
          events := events - {key};
        } else {
          events := events[key := events[key][first..]];
        }
      }
    }

    /** Deletes the key whose first time is oldest, and on the way every key that has no times. */
    method EvictOldest() returns (ghost victim: string)
      requires Valid()
      modifies this`events
      ensures Valid()
      ensures NonEmpty(old(events)) == map[] ==> events == map[]
      // No other key's first time is before the victim's.
      ensures NonEmpty(old(events)) != map[] ==>
                && victim in old(events) && old(events)[victim] != []
                && (forall k :: k in old(events) && old(events)[k] != [] ==>
                      old(events)[victim][0] <= old(events)[k][0])
                && events == NonEmpty(old(events)) - {victim}
    {
      var oldestKey, oldest := "", 0;
      var rest := events.Keys;
      ghost var before := events;
      while rest != {}
        invariant rest <= events.Keys <= before.Keys && "" !in before
        invariant forall k :: k in before ==> (k in events <==> k in rest || before[k] != [])
        invariant forall k :: k in events ==> events[k] == before[k]
        invariant oldestKey == "" ==> events.Keys == rest
        invariant oldestKey != "" ==>
          && oldestKey in events && oldestKey !in rest && events[oldestKey] != [] && oldest == events[oldestKey][0]
          && forall k :: k in events && k !in rest ==> oldest <= before[k][0]
        decreases |rest|
      {
        var key :| key in rest;
        rest := rest - {key};
        if events[key] == [] {
          events := events - {key};
        } else if oldestKey == "" || events[key][0] < oldest {
          oldestKey, oldest := key, events[key][0];
        }
      }
      assert events == NonEmpty(before);
      victim := oldestKey;
      if oldestKey != "" {
        events := events - {oldestKey};
      }
    }

    method RecentEvents(key: string, now: Instant) returns (recent: Times)
      modifies this`events
      ensures recent == Recent(TimesOf(old(events), key), now - config.window)
      ensures events == if recent == [] then old(events) - {key} else old(events)[key := recent]
    {
      var cutoff := now - config.window;
      var times := if key in events then events[key] else [];
      var first := CountExpired(times, cutoff);
      if first == |times| {
        events := events - {key};
        return [];
      }
      recent := times[first..];
      events := events[key := recent];
    }

    /** The first half of `Allow`: prune, and evict for a new key when the map is full. */
    method MakeRoom(key: string, now: Instant) returns (ghost victim: string)
      requires Valid() && config.Active()
      modifies this`events
      ensures Valid() && Legal(config, old(events), key, now, victim)
      ensures events == Room(config, old(events), key, now, victim)
    {
      victim := "";
      PruneExpired(now);
      if key !in events && |events| >= MAX_KEYS {
        assert NonEmpty(events) == events;
        victim := EvictOldest();
      }
    }

    method Allow(key: string, now: Instant) returns (ok: bool, retryAfter: Instant, ghost victim: string)
      requires Valid() && key != ""
      modifies this`events
      ensures Valid() && Legal(config, old(events), key, now, victim)
      ensures events == LimiterSteps.Allow(config, old(events), key, now, victim).0
      ensures LimiterSteps.Allow(config, old(events), key, now, victim).1
           == if ok then Allowed else Denied(retryAfter)
      ensures ok ==> retryAfter == 0
    {
      victim := "";
      if config.limit <= 0 || config.window <= 0 {
        return true, 0, victim;
      }
      victim := MakeRoom(key, now);
      ghost var room := events;
      RecentIsRoom(old(events), room, key, now);
      var recent := RecentEvents(key, now);
      WrittenOver(room, key, recent, if |recent| >= config.limit then recent else recent + [now]);
      if |recent| >= config.limit {
        events := events[key := recent];
        return false, recent[0] + config.window - now, victim;
      }
      events := events[key := recent + [now]];
      return true, 0, victim;
    }

    lemma WrittenOver(room: Events, key: string, first: Times, second: Times)
      ensures room[key := first][key := second] == room[key := second]
      ensures (room - {key})[key := second] == room[key := second]
    {
    }

    lemma RecentIsRoom(before: Events, room: Events, key: string, now: Instant)
      requires var pruned := Pruned(before, now - config.window);
               forall k :: k in room ==> k in pruned && room[k] == pruned[k]
      ensures Recent(TimesOf(room, key), now - config.window) == TimesOf(room, key)
    {
      if key in room {
        RecentTwice(before[key], now - config.window, now - config.window);
      }
    }

    method Check(key: string, now: Instant) returns (ok: bool, retryAfter: Instant)
      requires Valid() && key != ""
      modifies this`events
      ensures Valid() && events == LimiterSteps.Check(config, old(events), key, now).0
      ensures LimiterSteps.Check(config, old(events), key, now).1 == if ok then Allowed else Denied(retryAfter)
      ensures config.limit > 0 && config.window > 0 ==> key in events
      ensures ok ==> retryAfter == 0
    {
      if config.limit <= 0 || config.window <= 0 {
        return true, 0;
      }
      PruneExpired(now);
      RecentIsRoom(old(events), events, key, now);
      var recent := RecentEvents(key, now);
      events := events[key := recent];
      if |recent| >= config.limit {
        return false, recent[0] + config.window - now;
      }
      return true, 0;
    }
  }
}
