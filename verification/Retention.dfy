/** What sample retention keeps: the newest samples, in the order of receive time and then row id. */
module Retention {
  import opened Common
  import opened Database

  const RETENTION_DAYS := 30
  const DEFAULT_SIZE_LIMIT := 2_147_483_648

  function SizeLimit(maxDatabaseBytes: int): int {
    if maxDatabaseBytes <= 0 then DEFAULT_SIZE_LIMIT else maxDatabaseBytes
  }

  /** `kept` is an end segment of `samples` in age order: nothing kept is older than anything dropped. */
  ghost predicate IsSuffix(samples: map<nat, SampleRow>, kept: map<nat, SampleRow>) {
    && kept.Keys <= samples.Keys
    && (forall i :: i in kept ==> kept[i] == samples[i])
    && (forall i, j :: i in samples && i !in kept && j in kept ==> Older(samples, i, j))
  }

  /** `kept` is what is left of `samples` after its `deleted` oldest rows are gone. */
  ghost predicate Pruned(samples: map<nat, SampleRow>, kept: map<nat, SampleRow>, deleted: nat) {
    IsSuffix(samples, kept) && |kept| + deleted == |samples|
  }

  predicate OverLimit(limit: int, sizes: nat -> Option<int>, round: nat) {
    sizes(round).Some? && sizes(round).value > limit
  }

  ghost predicate AllOver(limit: int, sizes: nat -> Option<int>, rounds: nat) {
    forall i :: 0 <= i < rounds ==> OverLimit(limit, sizes, i)
  }

  /**
   Every reading before the last was over the limit, and the last was within it, or failed, or found
   nothing left to delete.
   */
  ghost predicate StoppedAt(after: map<nat, SampleRow>, limit: int, sizes: nat -> Option<int>, deleted: nat, ok: bool) {
    && AllOver(limit, sizes, deleted)
    && ok == sizes(deleted).Some?
    && (ok ==> !OverLimit(limit, sizes, deleted) || after == map[])
  }

  /** The outcome of maintenance: the purged samples without the `deleted` oldest. */
  ghost predicate Maintained(before: map<nat, SampleRow>, after: map<nat, SampleRow>, now: Instant, limit: int,
                             sizes: nat -> Option<int>, deleted: nat, ok: bool) {
    && Pruned(SamplesFrom(before, ToMillis(now - RETENTION_DAYS * DAY)), after, deleted)
    && StoppedAt(after, limit, sizes, deleted, ok)
  }

  lemma NothingPruned(samples: map<nat, SampleRow>)
    ensures Pruned(samples, samples, 0)
  {
  }

  lemma PruningKeepsConstraints(db: Db, kept: map<nat, SampleRow>, deleted: nat)
    requires WellFormed(db) && Pruned(db.samples, kept, deleted)
    ensures WellFormed(db.(samples := kept))
  {
  }

  lemma PruneStep(samples: map<nat, SampleRow>, kept: map<nat, SampleRow>, deleted: nat, oldest: nat)
    requires Pruned(samples, kept, deleted) && IsOldest(kept, oldest)
    ensures Pruned(samples, kept - {oldest}, deleted + 1)
    ensures |kept - {oldest}| < |kept|
  {
    var rest := kept - {oldest};
    assert rest.Keys == kept.Keys - {oldest};
    assert |rest| == |rest.Keys| == |kept.Keys| - 1;
    forall i, j | i in samples && i !in rest && j in rest ensures Older(samples, i, j) {
      assert j in kept;
      if i == oldest {
        assert Older(kept, oldest, j);
      }
    }
  }

  /** How many rows are deleted decides which: two end segments of one size are the same. */
  lemma PrunedIsUnique(samples: map<nat, SampleRow>, a: map<nat, SampleRow>, b: map<nat, SampleRow>, deleted: nat)
    requires Pruned(samples, a, deleted) && Pruned(samples, b, deleted)
    ensures a == b
  {
    SuffixesNest(samples, a, b);
    SuffixesNest(samples, b, a);
    if a.Keys <= b.Keys {
      SameSizeSubset(a.Keys, b.Keys);
    } else {
      SameSizeSubset(b.Keys, a.Keys);
    }
  }

  lemma SuffixesNest(samples: map<nat, SampleRow>, a: map<nat, SampleRow>, b: map<nat, SampleRow>)
    requires IsSuffix(samples, a) && IsSuffix(samples, b)
    ensures a.Keys <= b.Keys || b.Keys <= a.Keys
  {
    if i :| i in a.Keys && i !in b.Keys {
      assert forall j :: j in b ==> Older(samples, i, j);
    }
  }

  lemma SameSizeSubset(a: set<nat>, b: set<nat>)
    requires a <= b && |a| == |b|
    ensures a == b
  {
    assert |b - a| == |b| - |a|;
    assert b - a == {};
  }

  /** For every way the database size can read, maintenance has exactly one outcome. */
  lemma MaintenanceIsDeterministic(before: map<nat, SampleRow>, now: Instant, limit: int, sizes: nat -> Option<int>,
                                   a: map<nat, SampleRow>, deletedA: nat, okA: bool,
                                   b: map<nat, SampleRow>, deletedB: nat, okB: bool)
    requires Maintained(before, a, now, limit, sizes, deletedA, okA)
    requires Maintained(before, b, now, limit, sizes, deletedB, okB)
    ensures a == b && deletedA == deletedB && okA == okB
  {
    if deletedA < deletedB {
      MaintenanceStopsFirst(before, now, limit, sizes, a, deletedA, okA, b, deletedB, okB);
    } else if deletedB < deletedA {
      MaintenanceStopsFirst(before, now, limit, sizes, b, deletedB, okB, a, deletedA, okA);
    }
    PrunedIsUnique(SamplesFrom(before, ToMillis(now - RETENTION_DAYS * DAY)), a, b, deletedA);
  }

  lemma MaintenanceStopsFirst(before: map<nat, SampleRow>, now: Instant, limit: int, sizes: nat -> Option<int>,
                              a: map<nat, SampleRow>, deletedA: nat, okA: bool,
                              b: map<nat, SampleRow>, deletedB: nat, okB: bool)
    requires Maintained(before, a, now, limit, sizes, deletedA, okA)
    requires Maintained(before, b, now, limit, sizes, deletedB, okB)
    ensures deletedB <= deletedA
  {
    if OverLimit(limit, sizes, deletedA) {
      assert a == map[];
      assert |a| == 0;
    }
  }

  // Thirty days, and two gibibytes.
  const KEPT_FOR: Instant := 2_592_000_000_000_000
  const KEPT_BYTES := 2_147_483_648

  /**
   What maintenance leaves: never a sample older than thirty days; and every younger one, as it was, unless the
   first reading of the size is over the limit, which is two gibibytes if none is set. If it succeeds and leaves any
   sample, the last reading is within the limit.
   */
  lemma MaintenanceKeepsThirtyDays(before: map<nat, SampleRow>, after: map<nat, SampleRow>, now: Instant,
                                   maxDatabaseBytes: int, sizes: nat -> Option<int>, deleted: nat, ok: bool)
    requires Maintained(before, after, now, SizeLimit(maxDatabaseBytes), sizes, deleted, ok)
    ensures forall i :: i in after ==>
              i in before && after[i] == before[i] && before[i].receivedAt >= ToMillis(now - KEPT_FOR)
    ensures
      var limit := if maxDatabaseBytes <= 0 then KEPT_BYTES else maxDatabaseBytes;
      sizes(0).None? || sizes(0).value <= limit ==>
        forall i :: i in before && before[i].receivedAt >= ToMillis(now - KEPT_FOR) ==> i in after
    ensures
      var limit := if maxDatabaseBytes <= 0 then KEPT_BYTES else maxDatabaseBytes;
      ok && after != map[] ==> sizes(deleted).Some? && sizes(deleted).value <= limit
  {
    var recent := SamplesFrom(before, ToMillis(now - KEPT_FOR));
    assert Pruned(recent, after, deleted);
    if sizes(0).None? || !OverLimit(SizeLimit(maxDatabaseBytes), sizes, 0) {
      assert deleted > 0 ==> OverLimit(SizeLimit(maxDatabaseBytes), sizes, 0);
      SameSizeSubset(after.Keys, recent.Keys);
    }
  }
}
