/** Whatever the dashboard reads from the store, its rates can be added up. */
module StoredRates {
  import opened Common
  import opened Database
  import opened Handlers
  import opened Identity
  import opened Protocol
  import opened Invariants
  import opened Traffic
  import Reporting

  ghost predicate SamplesAreValid(samples: map<nat, SampleRow>) {
    forall i :: i in samples ==> ValidReport(Report(samples[i].node, samples[i].metrics))
  }

  /** The node's samples since then, in order of arrival; `ids` says which rows they are. */
  ghost predicate IsSamplesSince(samples: map<nat, SampleRow>, node: NodeId, since: Instant, rows: seq<SampleRow>,
                                 ids: seq<nat>) {
    && |ids| == |rows|
    && (forall k :: 0 <= k < |ids| ==> ids[k] in samples && rows[k] == samples[ids[k]] && rows[k].node == node
                                       && rows[k].receivedAt >= ToMillis(since))
    && (forall j, k :: 0 <= j < k < |ids| ==> ids[j] != ids[k] && rows[j].receivedAt <= rows[k].receivedAt)
    && (forall i :: i in samples && samples[i].node == node && samples[i].receivedAt >= ToMillis(since) ==> i in ids)
  }

  lemma RecordKeepsSamplesValid(db: Db, report: Report, at: Instant)
    requires SamplesAreValid(db.samples)
    ensures SamplesAreValid(RecordReport(db, report, at).db.samples)
  {
  }

  lemma ReportStepKeepsSamplesValid(db: Db, signed: Signatures, call: ReportCall, admitted: bool)
    requires SamplesAreValid(db.samples)
    ensures SamplesAreValid(ReportStep(db, signed, call, admitted).0.samples)
  {
    if call.phase.Recording? && admitted {
      RecordKeepsSamplesValid(db, call.report, call.now);
    } else {
      assert ReportStep(db, signed, call, admitted).0 == db;
    }
  }

  lemma ReportKeepsSamplesValid(w: World, id: nat, admitted: bool)
    requires id in w.reports && SamplesAreValid(w.db.samples)
    ensures SamplesAreValid(DoReport(w, id, admitted).db.samples)
  {
    assert DoReport(w, id, admitted).db == ReportStep(w.db, w.signed, w.reports[id], admitted).0;
    ReportStepKeepsSamplesValid(w.db, w.signed, w.reports[id], admitted);
  }

  lemma DoKeepsSamplesValid(w: World, a: Action)
    requires Basic(w) && SamplesAreValid(w.db.samples)
    ensures SamplesAreValid(Do(w, a).db.samples)
  {
    if !a.StepReport? {
      Reporting.OtherActionsRecordNothing(w, a);
      KeptSamplesStayValid(w.db.samples, Do(w, a).db.samples);
    } else if a.call in w.reports {
      ReportKeepsSamplesValid(w, a.call, a.admitted);
    }
  }

  lemma KeptSamplesStayValid(before: map<nat, SampleRow>, after: map<nat, SampleRow>)
    requires SamplesAreValid(before)
    requires forall i :: i in after ==> i in before && after[i] == before[i]
    ensures SamplesAreValid(after)
  {
  }

  lemma {:induction false} RunKeepsSamplesValid(actions: seq<Action>)
    ensures Basic(After(actions)) && SamplesAreValid(After(actions).db.samples)
    decreases |actions|
  {
    if actions != [] {
      var init := actions[..|actions| - 1];
      RunKeepsSamplesValid(init);
      DoKeepsBasic(After(init), actions[|actions| - 1]);
      DoKeepsSamplesValid(After(init), actions[|actions| - 1]);
    }
  }

  /** In every run, the samples read for a node add up: their rates are not negative and their times in order. */
  lemma ReadSamplesAddUp(actions: seq<Action>, node: NodeId, since: Instant, rows: seq<SampleRow>, ids: seq<nat>)
    requires IsSamplesSince(After(actions).db.samples, node, since, rows, ids)
    ensures RatesAreNonNegative(rows)
    ensures forall i :: 0 <= i < |rows| ==> 0.0 <= rows[i].metrics.cpuPercent <= 100.0 && rows[i].metrics.load1 >= 0.0
    ensures forall i :: 0 < i < |rows| ==> Gap(rows, i) >= 0
  {
    RunKeepsSamplesValid(actions);
    forall i, d | 0 <= i < |rows| ensures Rate(rows[i], d) >= 0.0 {
      var row := After(actions).db.samples[ids[i]];
      assert ValidReport(Report(row.node, row.metrics));
    }
    forall i | 0 <= i < |rows| ensures 0.0 <= rows[i].metrics.cpuPercent <= 100.0 && rows[i].metrics.load1 >= 0.0 {
      var row := After(actions).db.samples[ids[i]];
      assert ValidReport(Report(row.node, row.metrics));
    }
    forall i | 0 < i < |rows| ensures Gap(rows, i) >= 0 {
      assert rows[i - 1].receivedAt <= rows[i].receivedAt;
    }
  }
}
