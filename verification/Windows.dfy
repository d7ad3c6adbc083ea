/** Lists of admission times, oldest first, and what is left of them inside a window. */
module Windows {
  import opened Common

  type Times = seq<Instant>
  type Events = map<string, Times>

  /** Without the leading times at or before the cutoff. */
  function Recent(times: Times, cutoff: Instant): Times {
    if times == [] || times[0] > cutoff then times else Recent(times[1..], cutoff)
  }

  /** Every list cut to its recent part, and keys whose list is empty gone. */
  function Pruned(events: Events, cutoff: Instant): Events {
    map k | k in events && Recent(events[k], cutoff) != [] :: Recent(events[k], cutoff)
  }

  function TimesOf(events: Events, key: string): Times {
    if key in events then events[key] else []
  }

  predicate IsSuffixOf(a: Times, b: Times) {
    |a| <= |b| && a == b[|b| - |a|..]
  }

  lemma {:induction false} RecentIsSuffix(times: Times, cutoff: Instant)
    ensures IsSuffixOf(Recent(times, cutoff), times)
    ensures Recent(times, cutoff) != [] ==> Recent(times, cutoff)[0] > cutoff
  {
    if times != [] && times[0] <= cutoff {
      RecentIsSuffix(times[1..], cutoff);
      var kept := |Recent(times, cutoff)|;
      assert times[1..][|times| - 1 - kept..] == times[|times| - kept..];
    } else {
      assert times[0..] == times;
    }
  }

  /** Cutting twice is cutting once at the later cutoff. */
  lemma {:induction false} RecentTwice(times: Times, early: Instant, late: Instant)
    requires early <= late
    ensures Recent(Recent(times, early), late) == Recent(times, late)
  {
    if times != [] && times[0] <= early {
      RecentTwice(times[1..], early, late);
    }
  }

  lemma {:induction false} RecentOfSuffix(a: Times, b: Times, cutoff: Instant)
    requires IsSuffixOf(a, b)
    ensures IsSuffixOf(Recent(a, cutoff), Recent(b, cutoff))
  {
    RecentIsSuffix(a, cutoff);
    if |a| < |b| && b[0] <= cutoff {
      assert IsSuffixOf(a, b[1..]);
      RecentOfSuffix(a, b[1..], cutoff);
    } else if |a| == |b| {
      assert a == b;
    }
  }

  lemma {:induction false} RecentAppends(times: Times, cutoff: Instant, now: Instant)
    requires now > cutoff
    ensures Recent(times + [now], cutoff) == Recent(times, cutoff) + [now]
  {
    if times != [] && times[0] <= cutoff {
      assert (times + [now])[1..] == times[1..] + [now];
      RecentAppends(times[1..], cutoff, now);
    }
  }

  lemma PrunedTimes(events: Events, cutoff: Instant, key: string)
    ensures TimesOf(Pruned(events, cutoff), key) == Recent(TimesOf(events, key), cutoff)
  {
  }

  lemma PrunedTwice(events: Events, early: Instant, late: Instant)
    requires early <= late
    ensures Pruned(Pruned(events, early), late) == Pruned(events, late)
  {
    forall k | k in events ensures Recent(Recent(events[k], early), late) == Recent(events[k], late) {
      RecentTwice(events[k], early, late);
    }
  }

  /** An empty list is pruned away wherever it came from. */
  lemma PrunedIgnoresEmpty(events: Events, key: string, cutoff: Instant)
    requires key !in events
    ensures Pruned(events[key := []], cutoff) == Pruned(events, cutoff)
  {
  }

  function NonEmpty(events: Events): Events {
    map k | k in events && events[k] != [] :: events[k]
  }

  ghost predicate Oldest(events: Events, victim: string) {
    && victim in events && events[victim] != []
    && forall k :: k in events && events[k] != [] ==> events[victim][0] <= events[k][0]
  }
}
