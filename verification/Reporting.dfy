/** A node's last report time and its newest stored sample, over whole runs. */
module Reporting {
  import opened Common
  import opened Database
  import opened Handlers
  import opened Protocol
  import opened Invariants
  import opened NodeStates

  type Samples = map<nat, SampleRow>

  /** The greatest receive time ever recorded. */
  ghost predicate IsMaximum(last: Option<Millis>, times: seq<Millis>) {
    && (last.None? <==> times == [])
    && (last.Some? ==> last.value in times && forall t :: t in times ==> t <= last.value)
  }

  ghost predicate StoredFor(samples: Samples, n: NodeId, i: nat) {
    i in samples && samples[i].node == n
  }

  ghost predicate NoneNewer(samples: Samples, n: NodeId, last: Option<Millis>) {
    forall i :: StoredFor(samples, n, i) ==> last.Some? && samples[i].receivedAt <= last.value
  }

  /** The sample of the last report is still there. */
  ghost predicate NewestStored(samples: Samples, n: NodeId, last: Option<Millis>) {
    last.Some? && exists i :: StoredFor(samples, n, i) && samples[i].receivedAt == last.value
  }

  ghost predicate NoneStored(samples: Samples, n: NodeId) {
    forall i :: !StoredFor(samples, n, i)
  }

  /** The newest stored sample and the last report time speak of one instant. */
  ghost predicate InStep(db: Db, n: NodeId)
    requires n in db.nodes
  {
    NoneStored(db.samples, n) || NewestStored(db.samples, n, db.nodes[n].lastReportAt)
  }

  ghost predicate TimesSound(db: Db, times: seq<Millis>, n: NodeId)
    requires n in db.nodes
  {
    IsMaximum(db.nodes[n].lastReportAt, times) && NoneNewer(db.samples, n, db.nodes[n].lastReportAt)
  }

  ghost predicate Reported(w: World) {
    && Basic(w)
    && forall n :: n in w.db.nodes ==> TimesSound(w.db, HistoryOf(w.received, n), n)
  }

  // ---- Recording ----

  lemma RecordEffect(db: Db, report: Report, at: Instant)
    requires WellFormed(db) && RecordReport(db, report, at).answer.Ok?
    ensures report.node in db.nodes && db.nextSample !in db.samples
    ensures
      var after, n := RecordReport(db, report, at).db, report.node;
      && after.nodes.Keys == db.nodes.Keys
      && after.nodes[n].lastReportAt == Some(LaterOf(db.nodes[n].lastReportAt, ToMillis(at)))
      && (forall m :: m in db.nodes && m != n ==> after.nodes[m] == db.nodes[m])
      && after.samples == db.samples[db.nextSample := SampleRow(n, ToMillis(at), report.metrics)]
  {
  }

  lemma MaximumExtends(last: Option<Millis>, times: seq<Millis>, at: Millis)
    requires IsMaximum(last, times)
    ensures IsMaximum(Some(LaterOf(last, at)), times + [at])
  {
    assert at in times + [at];
    assert forall t :: t in times ==> t in times + [at];
  }

  lemma RecordKeepsTimes(db: Db, report: Report, at: Instant, times: seq<Millis>)
    requires WellFormed(db) && RecordReport(db, report, at).answer.Ok?
    requires report.node in db.nodes && TimesSound(db, times, report.node)
    ensures
      var after := RecordReport(db, report, at).db;
      report.node in after.nodes && TimesSound(after, times + [ToMillis(at)], report.node)
  {
    RecordEffect(db, report, at);
    MaximumExtends(db.nodes[report.node].lastReportAt, times, ToMillis(at));
    var after := RecordReport(db, report, at).db;
    forall i | StoredFor(after.samples, report.node, i)
      ensures after.samples[i].receivedAt <= after.nodes[report.node].lastReportAt.value
    {
      assert i != db.nextSample ==> StoredFor(db.samples, report.node, i);
    }
  }

  /** A report as new as the last one. */
  predicate InOrder(last: Option<Millis>, at: Instant) {
    last.None? || ToMillis(at) >= last.value
  }

  /**
   Recording a report leaves the newest sample and the last report time in step exactly when the report is
   in order or the sample of the last report is still stored: a report that overtook an older one, whose
   own sample is then pruned before the older one is recorded, leaves them apart.
   */
  lemma RecordIsInStep(db: Db, report: Report, at: Instant)
    requires WellFormed(db) && RecordReport(db, report, at).answer.Ok?
    requires report.node in db.nodes && NoneNewer(db.samples, report.node, db.nodes[report.node].lastReportAt)
    ensures
      var after, last := RecordReport(db, report, at).db, db.nodes[report.node].lastReportAt;
      && report.node in after.nodes
      && (InStep(after, report.node) <==> InOrder(last, at) || NewestStored(db.samples, report.node, last))
  {
    RecordEffect(db, report, at);
    var after, n, last := RecordReport(db, report, at).db, report.node, db.nodes[report.node].lastReportAt;
    assert StoredFor(after.samples, n, db.nextSample);
    assert forall i :: StoredFor(after.samples, n, i) && i != db.nextSample ==>
        StoredFor(db.samples, n, i) && after.samples[i] == db.samples[i];
    if !InOrder(last, at) && NewestStored(db.samples, n, last) {
      var i :| StoredFor(db.samples, n, i) && db.samples[i].receivedAt == last.value;
      assert StoredFor(after.samples, n, i);
    }
  }

  // ---- Losing samples ----

  /** Whatever of the node's samples is gone was no newer than whatever of them is left. */
  ghost predicate LosesOldest(db: Db, after: Db, n: NodeId) {
    && n in db.nodes && n in after.nodes && after.nodes[n].lastReportAt == db.nodes[n].lastReportAt
    && (forall i :: StoredFor(after.samples, n, i) ==> StoredFor(db.samples, n, i) && after.samples[i] == db.samples[i])
    && (forall i, j :: StoredFor(after.samples, n, i) && StoredFor(db.samples, n, j) && j !in after.samples ==>
          db.samples[j].receivedAt <= after.samples[i].receivedAt)
    && (forall j :: StoredFor(db.samples, n, j) && j in after.samples ==> after.samples[j] == db.samples[j])
  }

  /** Retention never takes the newest sample and leaves an older one. */
  lemma LosingOldestStaysInStep(db: Db, after: Db, n: NodeId)
    requires LosesOldest(db, after, n) && InStep(db, n) && NoneNewer(db.samples, n, db.nodes[n].lastReportAt)
    ensures InStep(after, n)
  {
    if i :| StoredFor(after.samples, n, i) {
      var last := db.nodes[n].lastReportAt;
      assert StoredFor(db.samples, n, i);
      var j :| StoredFor(db.samples, n, j) && db.samples[j].receivedAt == last.value;
      if j in after.samples {
        assert StoredFor(after.samples, n, j);
      } else {
        assert after.samples[i].receivedAt == last.value;
      }
    }
  }

  lemma RetentionLosesOldest(w: World, cutoff: Instant, sample: nat, n: NodeId)
    requires n in w.db.nodes
    ensures LosesOldest(w.db, DoPurge(w, cutoff).db, n) && LosesOldest(w.db, DoPrune(w, sample).db, n)
  {
    var pruned := DoPrune(w, sample).db;
    assert pruned.nodes == w.db.nodes;
    forall i, j | StoredFor(pruned.samples, n, i) && StoredFor(w.db.samples, n, j) && j !in pruned.samples
      ensures w.db.samples[j].receivedAt <= pruned.samples[i].receivedAt
    {
      assert j == sample && Older(w.db.samples, j, i);
    }
  }

  // ---- Runs ----

  lemma ReportKeepsReported(w: World, id: nat, admitted: bool)
    requires Reported(w) && id in w.reports
    ensures Reported(DoReport(w, id, admitted))
  {
    ReportKeepsBasic(w, id, admitted);
    var call, after := w.reports[id], DoReport(w, id, admitted);
    if call.phase.Recording? && after.reports[id].phase.answer.Ok? {
      assert after.db == RecordReport(w.db, call.report, call.now).db;
      var n := call.report.node;
      assert after.received == w.received[n := HistoryOf(w.received, n) + [ToMillis(call.now)]];
      forall m | m in after.db.nodes ensures TimesSound(after.db, HistoryOf(after.received, m), m) {
        RecordKeepsTimesOf(w.db, call.report, call.now, w.received, m);
      }
    } else {
      assert after.db == w.db && after.received == w.received;
    }
  }

  lemma RecordKeepsTimesOf(db: Db, report: Report, at: Instant, received: map<NodeId, seq<Millis>>, m: NodeId)
    requires WellFormed(db) && RecordReport(db, report, at).answer.Ok?
    requires forall n :: n in db.nodes ==> TimesSound(db, HistoryOf(received, n), n)
    requires m in RecordReport(db, report, at).db.nodes
    ensures
      var times := received[report.node := HistoryOf(received, report.node) + [ToMillis(at)]];
      TimesSound(RecordReport(db, report, at).db, HistoryOf(times, m), m)
  {
    RecordEffect(db, report, at);
    assert TimesSound(db, HistoryOf(received, m), m);
    if m == report.node {
      RecordKeepsTimes(db, report, at, HistoryOf(received, m));
    } else {
      var after := RecordReport(db, report, at).db;
      assert forall i :: StoredFor(after.samples, m, i) ==> StoredFor(db.samples, m, i);
    }
  }

  /** Actions that record nothing: no new samples, and the times of every node as they were. */
  ghost predicate RecordsNothing(w: World, after: World) {
    && after.received == w.received
    && (forall n :: n in after.db.nodes ==>
          if n in w.db.nodes then after.db.nodes[n].lastReportAt == w.db.nodes[n].lastReportAt
          else after.db.nodes[n].lastReportAt.None? && n !in w.everNodes)
    && (forall i :: i in after.db.samples ==> i in w.db.samples && after.db.samples[i] == w.db.samples[i])
  }

  lemma RecordingNothingKeepsReported(w: World, after: World)
    requires Reported(w) && Basic(after) && RecordsNothing(w, after)
    ensures Reported(after)
  {
    forall n | n in after.db.nodes ensures TimesSound(after.db, HistoryOf(after.received, n), n) {
      assert forall i :: StoredFor(after.db.samples, n, i) ==> StoredFor(w.db.samples, n, i);
      if n in w.db.nodes {
        assert TimesSound(w.db, HistoryOf(w.received, n), n);
      }
    }
  }

  lemma CreateNodeRecordsNothing(w: World, id: NodeId, name: string, at: Instant)
    requires Remembered(w)
    ensures RecordsNothing(w, DoCreateNode(w, id, name, at))
  {
    CreateNodeEffect(w.db, id, name, at);
    if id in w.everNodes {
      assert DoCreateNode(w, id, name, at) == w;
    } else {
      assert DoCreateNode(w, id, name, at).db == Database.CreateNode(w.db, id, name, at).db;
    }
  }

  lemma RetiringRecordsNothing(w: World, id: NodeId, at: Instant)
    ensures RecordsNothing(w, DoDisableNode(w, id, at))
    ensures RecordsNothing(w, DoRemoveNode(w, id))
  {
  }

  lemma CreateCodeRecordsNothing(w: World, node: NodeId, code: Code, now: Instant)
    ensures RecordsNothing(w, DoCreateCode(w, node, code, now))
  {
    var after := DoCreateCode(w, node, code, now);
    assert after.db == w.db.(codes := after.db.codes) && after.received == w.received;
  }

  lemma EnrollRecordsNothing(w: World, id: nat, serial: nat)
    requires CanStepEnroll(w, id, serial)
    ensures RecordsNothing(w, DoEnroll(w, id, serial))
  {
    var after := DoEnroll(w, id, serial);
    assert after.db.nodes == w.db.nodes && after.db.samples == w.db.samples && after.received == w.received;
  }

  lemma RenewRecordsNothing(w: World, id: nat, serial: nat)
    requires CanStepRenew(w, id, serial)
    ensures RecordsNothing(w, DoRenew(w, id, serial))
  {
    var after := DoRenew(w, id, serial);
    assert after.db.nodes == w.db.nodes && after.db.samples == w.db.samples && after.received == w.received;
  }

  lemma RetentionRecordsNothing(w: World, cutoff: Instant, sample: nat)
    ensures RecordsNothing(w, DoPurge(w, cutoff)) && RecordsNothing(w, DoPrune(w, sample))
  {
  }

  lemma OtherActionsRecordNothing(w: World, a: Action)
    requires Remembered(w) && !a.StepReport?
    ensures RecordsNothing(w, Do(w, a))
  {
    match a
    case CreateNode(id, name, at) => CreateNodeRecordsNothing(w, id, name, at);
    case DisableNode(id, at) => RetiringRecordsNothing(w, id, at);
    case RemoveNode(id) => RetiringRecordsNothing(w, id, 0);
    case CreateCode(node, code, now) => CreateCodeRecordsNothing(w, node, code, now);
    case StepEnroll(id, serial) => if CanStepEnroll(w, id, serial) { EnrollRecordsNothing(w, id, serial); }
    case StepRenew(id, serial) => if CanStepRenew(w, id, serial) { RenewRecordsNothing(w, id, serial); }
    case PurgeSamples(cutoff) => RetentionRecordsNothing(w, cutoff, 0);
    case PruneOldest(sample) => RetentionRecordsNothing(w, 0, sample);
    case BeginEnroll(_, _, _, _) | BeginRenew(_, _, _, _) | BeginReport(_, _, _, _) =>
      assert Do(w, a).db == w.db && Do(w, a).received == w.received;
  }

  lemma DoKeepsReported(w: World, a: Action)
    requires Reported(w)
    ensures Reported(Do(w, a))
  {
    if a.StepReport? {
      if a.call in w.reports {
        ReportKeepsReported(w, a.call, a.admitted);
      }
    } else {
      DoKeepsBasic(w, a);
      OtherActionsRecordNothing(w, a);
      RecordingNothingKeepsReported(w, Do(w, a));
    }
  }

  lemma {:induction false} RunKeepsReported(w: World, actions: seq<Action>)
    requires Reported(w)
    ensures Reported(Run(w, actions))
    decreases |actions|
  {
    if actions != [] {
      var init := actions[..|actions| - 1];
      RunKeepsReported(w, init);
      DoKeepsReported(Run(w, init), actions[|actions| - 1]);
    }
  }

  // ---- Main results ----

  /**
   In every run, a stored node's last report time is the maximum of all receive times ever recorded for it,
   in whatever order they were recorded, and no stored sample of it is newer.
   */
  lemma LastReportIsMaximum(actions: seq<Action>, n: NodeId)
    requires n in After(actions).db.nodes
    ensures
      var w := After(actions);
      TimesSound(w.db, HistoryOf(w.received, n), n)
  {
    RunKeepsReported(INITIAL, actions);
  }

  /** The action records a report of the node. */
  ghost predicate RecordsFor(w: World, a: Action, n: NodeId) {
    && a.StepReport? && a.admitted && a.call in w.reports && w.reports[a.call].phase.Recording?
    && w.reports[a.call].report.node == n
    && RecordReport(w.db, w.reports[a.call].report, w.reports[a.call].now).answer.Ok?
  }

  /** If the action records a report of the node, it does so in order or while the newest sample is stored. */
  ghost predicate Orderly(w: World, a: Action, n: NodeId) {
    RecordsFor(w, a, n) ==>
      && n in w.db.nodes
      && (InOrder(w.db.nodes[n].lastReportAt, w.reports[a.call].now)
          || NewestStored(w.db.samples, n, w.db.nodes[n].lastReportAt))
  }

  ghost predicate OrderlyAt(actions: seq<Action>, k: nat, n: NodeId)
    requires k < |actions|
  {
    Orderly(After(actions[..k]), actions[k], n)
  }

  ghost predicate OrderlyRun(actions: seq<Action>, n: NodeId) {
    forall k :: 0 <= k < |actions| ==> OrderlyAt(actions, k, n)
  }

  /**
   In every run whose recordings for a node are orderly, the sample that the dashboard shows as latest was
   received at the node's last report time, so both give the node the same state at any time.
   */
  lemma LatestSampleShowsState(actions: seq<Action>, n: NodeId, i: nat, at: Instant)
    requires OrderlyRun(actions, n) && n in After(actions).db.nodes
    requires IsLatestOf(After(actions).db.samples, n, i)
    ensures
      var db := After(actions).db;
      && db.nodes[n].lastReportAt == Some(db.samples[i].receivedAt)
      && NodeStateAt(Some(FromMillis(db.nodes[n].lastReportAt.value)), at, db.nodes[n].disabled)
         == NodeStateAt(Some(FromMillis(db.samples[i].receivedAt)), at, db.nodes[n].disabled)
  {
    OrderlyRunsStayInStep(actions, n);
    assert actions[..|actions|] == actions && InStepAt(After(actions[..|actions|]), n);
    LastReportIsMaximum(actions, n);
    LatestIsLastReport(After(actions).db, HistoryOf(After(actions).received, n), n, i);
  }

  lemma LatestIsLastReport(db: Db, times: seq<Millis>, n: NodeId, i: nat)
    requires n in db.nodes && TimesSound(db, times, n) && InStep(db, n) && IsLatestOf(db.samples, n, i)
    ensures db.nodes[n].lastReportAt == Some(db.samples[i].receivedAt)
  {
    assert StoredFor(db.samples, n, i);
    var j :| StoredFor(db.samples, n, j) && db.samples[j].receivedAt == db.nodes[n].lastReportAt.value;
  }

  ghost predicate InStepAt(w: World, n: NodeId) {
    n in w.db.nodes ==> InStep(w.db, n)
  }

  ghost predicate AlwaysInStep(actions: seq<Action>, n: NodeId) {
    forall k :: 0 <= k <= |actions| ==> InStepAt(After(actions[..k]), n)
  }

  /**
   Exactly in the runs whose recordings for a node are all orderly are the node's newest sample and last report
   time in step all along.
   */
  lemma {:induction false} OrderlyRunsStayInStep(actions: seq<Action>, n: NodeId)
    ensures OrderlyRun(actions, n) <==> AlwaysInStep(actions, n)
    decreases |actions|
  {
    if actions == [] {
      assert actions[..0] == [];
    } else {
      var init := actions[..|actions| - 1];
      OrderlyRunsStayInStep(init, n);
      PrefixIsOrderly(actions, n);
      PrefixIsInStep(actions, n);
      LastStepStaysInStep(init, actions[|actions| - 1], n);
    }
  }

  lemma LastStepStaysInStep(init: seq<Action>, last: Action, n: NodeId)
    ensures AlwaysInStep(init, n) ==> (InStepAt(Do(After(init), last), n) <==> Orderly(After(init), last, n))
  {
    RunKeepsReported(INITIAL, init);
    if AlwaysInStep(init, n) {
      assert init[..|init|] == init && InStepAt(After(init[..|init|]), n);
      StepStaysInStep(After(init), last, n);
    }
  }

  lemma PrefixIsInStep(actions: seq<Action>, n: NodeId)
    requires actions != []
    ensures
      var init, last := actions[..|actions| - 1], actions[|actions| - 1];
      AlwaysInStep(actions, n) <==> AlwaysInStep(init, n) && InStepAt(Do(After(init), last), n)
  {
    var init := actions[..|actions| - 1];
    assert actions[..|actions|] == actions;
    if AlwaysInStep(actions, n) {
      assert InStepAt(After(actions[..|actions|]), n);
      forall k | 0 <= k <= |init| ensures InStepAt(After(init[..k]), n) {
        assert init[..k] == actions[..k] && InStepAt(After(actions[..k]), n);
      }
    }
    if AlwaysInStep(init, n) && InStepAt(After(actions), n) {
      forall k | 0 <= k <= |actions| ensures InStepAt(After(actions[..k]), n) {
        if k < |actions| {
          assert init[..k] == actions[..k] && InStepAt(After(init[..k]), n);
        }
      }
    }
  }

  lemma PrefixIsOrderly(actions: seq<Action>, n: NodeId)
    requires actions != []
    ensures
      var init, last := actions[..|actions| - 1], actions[|actions| - 1];
      OrderlyRun(actions, n) <==> OrderlyRun(init, n) && Orderly(After(init), last, n)
  {
    var init, end := actions[..|actions| - 1], |actions| - 1;
    forall k | 0 <= k < end ensures OrderlyAt(init, k, n) == OrderlyAt(actions, k, n) {
      assert init[..k] == actions[..k];
    }
    if OrderlyRun(init, n) && OrderlyAt(actions, end, n) {
      forall k | 0 <= k < |actions| ensures OrderlyAt(actions, k, n) {
        assert k < end ==> OrderlyAt(init, k, n);
      }
    }
    if OrderlyRun(actions, n) {
      assert OrderlyAt(actions, end, n);
      forall k | 0 <= k < end ensures OrderlyAt(init, k, n) {
        assert OrderlyAt(actions, k, n);
      }
    }
  }

  lemma StepStaysInStep(w: World, a: Action, n: NodeId)
    requires Reported(w) && InStepAt(w, n)
    ensures InStepAt(Do(w, a), n) <==> Orderly(w, a, n)
  {
    if !a.StepReport? {
      OtherActionsStayInStep(w, a, n);
    } else if a.call in w.reports {
      ReportStaysInStep(w, a.call, a.admitted, n);
    }
  }

  lemma ReportStaysInStep(w: World, id: nat, admitted: bool, n: NodeId)
    requires Reported(w) && id in w.reports && InStepAt(w, n)
    ensures InStepAt(DoReport(w, id, admitted), n) <==> Orderly(w, StepReport(id, admitted), n)
  {
    var call, after := w.reports[id], DoReport(w, id, admitted);
    if call.phase.Recording? && admitted && RecordReport(w.db, call.report, call.now).answer.Ok? {
      assert after.db == RecordReport(w.db, call.report, call.now).db;
      assert n in w.db.nodes ==> TimesSound(w.db, HistoryOf(w.received, n), n);
      RecordStaysInStep(w.db, call.report, call.now, n);
    } else {
      assert after.db == w.db;
    }
  }

  lemma RecordStaysInStep(db: Db, report: Report, at: Instant, n: NodeId)
    requires WellFormed(db) && RecordReport(db, report, at).answer.Ok?
    requires n in db.nodes ==> InStep(db, n) && NoneNewer(db.samples, n, db.nodes[n].lastReportAt)
    ensures
      var after := RecordReport(db, report, at).db;
      if report.node != n then n in after.nodes ==> InStep(after, n)
      else
        && n in db.nodes && n in after.nodes
        && (InStep(after, n) <==>
              InOrder(db.nodes[n].lastReportAt, at) || NewestStored(db.samples, n, db.nodes[n].lastReportAt))
  {
    RecordEffect(db, report, at);
    if report.node == n {
      RecordIsInStep(db, report, at);
    } else if n in db.nodes {
      OtherNodeStaysInStep(db, RecordReport(db, report, at).db, n);
    }
  }

  lemma OtherNodeStaysInStep(db: Db, after: Db, n: NodeId)
    requires n in db.nodes && n in after.nodes && after.nodes[n] == db.nodes[n] && InStep(db, n)
    requires forall i :: StoredFor(after.samples, n, i) <==> StoredFor(db.samples, n, i)
    requires forall i :: StoredFor(db.samples, n, i) && i in after.samples ==> after.samples[i] == db.samples[i]
    ensures InStep(after, n)
  {
    if NewestStored(db.samples, n, db.nodes[n].lastReportAt) {
      var i :| StoredFor(db.samples, n, i) && db.samples[i].receivedAt == db.nodes[n].lastReportAt.value;
      assert StoredFor(after.samples, n, i);
    }
  }

  lemma OtherActionsStayInStep(w: World, a: Action, n: NodeId)
    requires Reported(w) && !a.StepReport? && (n in w.db.nodes ==> InStep(w.db, n))
    ensures n in Do(w, a).db.nodes ==> InStep(Do(w, a).db, n)
  {
    OtherActionsRecordNothing(w, a);
    var after := Do(w, a);
    if n in after.db.nodes {
      if n !in w.db.nodes {
        assert forall i :: !StoredFor(after.db.samples, n, i);
      } else {
        assert TimesSound(w.db, HistoryOf(w.received, n), n);
        OtherActionsLoseOldest(w, a, n);
        LosingOldestStaysInStep(w.db, after.db, n);
      }
    }
  }

  lemma OtherActionsLoseOldest(w: World, a: Action, n: NodeId)
    requires Remembered(w) && !a.StepReport? && n in w.db.nodes && n in Do(w, a).db.nodes
    ensures LosesOldest(w.db, Do(w, a).db, n)
  {
    match a
    case PurgeSamples(cutoff) => RetentionLosesOldest(w, cutoff, 0, n);
    case PruneOldest(sample) => RetentionLosesOldest(w, 0, sample, n);
    case CreateNode(_, _, _) | DisableNode(_, _) | RemoveNode(_) | CreateCode(_, _, _) | StepEnroll(_, _)
       | StepRenew(_, _) | BeginEnroll(_, _, _, _) | BeginRenew(_, _, _, _) | BeginReport(_, _, _, _) =>
      KeepersLoseOldest(w, a, n);
  }

  lemma KeepersLoseOldest(w: World, a: Action, n: NodeId)
    requires Remembered(w) && !a.StepReport? && !a.PurgeSamples? && !a.PruneOldest?
    requires n in w.db.nodes && n in Do(w, a).db.nodes
    ensures LosesOldest(w.db, Do(w, a).db, n)
  {
    OtherActionsRecordNothing(w, a);
    OtherActionsKeepSamples(w, a, n);
    KeepingSamplesLosesOldest(w.db, Do(w, a).db, n);
  }

  lemma OtherActionsKeepSamples(w: World, a: Action, n: NodeId)
    requires !a.StepReport? && !a.PurgeSamples? && !a.PruneOldest?
    requires n in w.db.nodes && n in Do(w, a).db.nodes
    ensures forall i :: StoredFor(w.db.samples, n, i) ==> i in Do(w, a).db.samples
  {
    if a.RemoveNode? {
      assert a.id != n;
    } else {
      assert Do(w, a).db.samples == w.db.samples;
    }
  }

  lemma KeepingSamplesLosesOldest(db: Db, after: Db, n: NodeId)
    requires n in db.nodes && n in after.nodes && after.nodes[n].lastReportAt == db.nodes[n].lastReportAt
    requires forall i :: i in after.samples ==> i in db.samples && after.samples[i] == db.samples[i]
    requires forall i :: StoredFor(db.samples, n, i) ==> i in after.samples
    ensures LosesOldest(db, after, n)
  {
  }
}
