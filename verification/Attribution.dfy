/** Whose report every stored sample is: what authentication found, kept through every interleaving. */
module Attribution {
  import opened Common
  import opened Database
  import opened Identity
  import opened Handlers
  import opened Protocol
  import opened Invariants
  import Reporting

  /** A call that may still record, or has recorded, is for the node that its credential identified. */
  ghost predicate IsOwn(w: World, id: nat)
    requires id in w.reports
  {
    w.reports[id].phase == Recording || w.reports[id].phase == Answered(Ok(())) ==>
      id in w.reporters && w.reports[id].report.node == w.reporters[id].node
  }

  /** Whom a call identified is on record once, under a certificate that names it. */
  ghost predicate IsOnRecord(w: World, id: nat)
    requires id in w.reporters
  {
    && id in w.reports && !w.reports[id].phase.Authenticating?
    && Names(w.signed, w.reporters[id])
  }

  /** A sample is what a recorded report said, when the report came in. */
  ghost predicate HasOrigin(w: World, i: nat)
    requires i in w.db.samples
  {
    && i in w.origins && w.origins[i] in w.reports
    && var call := w.reports[w.origins[i]];
    && call.phase == Answered(Ok(()))
    && w.db.samples[i] == SampleRow(call.report.node, ToMillis(call.now), call.report.metrics)
  }

  ghost predicate Attributed(w: World) {
    && (forall id :: id in w.reports ==> IsOwn(w, id))
    && (forall id :: id in w.reporters ==> IsOnRecord(w, id))
    && (forall i :: i in w.db.samples ==> HasOrigin(w, i))
  }

  /** Reports in progress are as they were, but for new ones; samples are only lost, certificates only signed. */
  ghost predicate KeepsReports(w: World, after: World) {
    && after.reporters == w.reporters && after.origins == w.origins
    && (forall id :: id in w.reports ==> id in after.reports && after.reports[id] == w.reports[id])
    && (forall id :: id in after.reports ==> id in w.reports || after.reports[id].phase.Authenticating?)
    && (forall i :: i in after.db.samples ==> i in w.db.samples && after.db.samples[i] == w.db.samples[i])
    && (forall s :: s in w.signed ==> s in after.signed && after.signed[s] == w.signed[s])
  }

  lemma KeepingReportsKeepsAttributed(w: World, after: World)
    requires Attributed(w) && KeepsReports(w, after)
    ensures Attributed(after)
  {
    forall id | id in after.reports ensures IsOwn(after, id) {
      assert id in w.reports ==> IsOwn(w, id);
    }
    forall id | id in after.reporters ensures IsOnRecord(after, id) {
      assert IsOnRecord(w, id);
    }
    forall i | i in after.db.samples ensures HasOrigin(after, i) {
      assert HasOrigin(w, i);
    }
  }

  lemma EnrollKeepsReports(w: World, id: nat, serial: nat)
    requires CanStepEnroll(w, id, serial)
    ensures KeepsReports(w, DoEnroll(w, id, serial))
  {
    var after := DoEnroll(w, id, serial);
    assert after.reports == w.reports && after.db.samples == w.db.samples;
  }

  lemma RenewKeepsReports(w: World, id: nat, serial: nat)
    requires CanStepRenew(w, id, serial)
    ensures KeepsReports(w, DoRenew(w, id, serial))
  {
    var after := DoRenew(w, id, serial);
    assert after.reports == w.reports && after.db.samples == w.db.samples;
  }

  lemma BeginReportKeepsReports(w: World, id: nat, credential: Credential, report: Report, now: Instant)
    ensures KeepsReports(w, DoBeginReport(w, id, credential, report, now))
  {
    var after := DoBeginReport(w, id, credential, report, now);
    assert after.db == w.db && after.signed == w.signed;
    if id !in w.reports {
      assert after.reports == w.reports[id := ReportCall(report, now, Authenticating(credential))];
    }
  }

  lemma OtherActionsKeepReports(w: World, a: Action)
    requires Remembered(w) && !a.StepReport?
    ensures KeepsReports(w, Do(w, a))
  {
    match a
    case StepEnroll(id, serial) => if CanStepEnroll(w, id, serial) { EnrollKeepsReports(w, id, serial); }
    case StepRenew(id, serial) => if CanStepRenew(w, id, serial) { RenewKeepsReports(w, id, serial); }
    case BeginReport(id, credential, report, now) => BeginReportKeepsReports(w, id, credential, report, now);
    case CreateNode(_, _, _) | DisableNode(_, _) | RemoveNode(_) | CreateCode(_, _, _) | BeginEnroll(_, _, _, _)
       | BeginRenew(_, _, _, _) | PurgeSamples(_) | PruneOldest(_) =>
      Reporting.OtherActionsRecordNothing(w, a);
      ReportsUntouched(w, a);
  }

  ghost predicate SameReports(w: World, after: World) {
    && after.reports == w.reports && after.reporters == w.reporters && after.origins == w.origins
    && after.signed == w.signed
  }

  lemma ReportsUntouched(w: World, a: Action)
    requires !a.StepReport? && !a.BeginReport? && !a.StepEnroll? && !a.StepRenew?
    ensures SameReports(w, Do(w, a))
  {
    match a
    case CreateNode(id, name, at) => CreateNodeKeepsReports(w, id, name, at);
    case CreateCode(node, code, now) => CreateCodeKeepsReports(w, node, code, now);
    case DisableNode(_, _) | RemoveNode(_) => RetiringKeepsReports(w, a);
    case BeginEnroll(_, _, _, _) | BeginRenew(_, _, _, _) => OtherRequestsKeepReports(w, a);
    case PurgeSamples(_) | PruneOldest(_) => RetentionKeepsReports(w, a);
  }

  lemma CreateNodeKeepsReports(w: World, id: NodeId, name: string, at: Instant)
    ensures SameReports(w, DoCreateNode(w, id, name, at))
  {
    var after := DoCreateNode(w, id, name, at);
    if id !in w.everNodes {
      CreateNodeEffect(w.db, id, name, at);
      assert after.db == Database.CreateNode(w.db, id, name, at).db;
    }
    assert after.reports == w.reports && after.signed == w.signed;
  }

  lemma CreateCodeKeepsReports(w: World, node: NodeId, code: Code, now: Instant)
    ensures SameReports(w, DoCreateCode(w, node, code, now))
  {
    var after := DoCreateCode(w, node, code, now);
    assert after.reports == w.reports && after.signed == w.signed;
  }

  lemma RetiringKeepsReports(w: World, a: Action)
    requires a.DisableNode? || a.RemoveNode?
    ensures SameReports(w, Do(w, a))
  {
  }

  lemma OtherRequestsKeepReports(w: World, a: Action)
    requires a.BeginEnroll? || a.BeginRenew?
    ensures SameReports(w, Do(w, a))
  {
  }

  lemma RetentionKeepsReports(w: World, a: Action)
    requires a.PurgeSamples? || a.PruneOldest?
    ensures SameReports(w, Do(w, a))
  {
  }

  // ---- A step of a report ----

  /** Authentication puts the client on record; only a report for its own node goes on. */
  lemma AuthenticatingKeepsAttributed(w: World, id: nat, admitted: bool)
    requires Basic(w) && Attributed(w) && id in w.reports && w.reports[id].phase.Authenticating?
    ensures Attributed(DoReport(w, id, admitted))
  {
    var call, after := w.reports[id], DoReport(w, id, admitted);
    var client := Identify(w.db, w.signed, call.phase.credential, call.now);
    AuthenticatingEffect(w, id, admitted);
    IdentityIsBacked(w.db, w.signed, call.phase.credential, call.now);
    assert forall other :: other in after.reports && other != id ==>
        other in w.reports && after.reports[other] == w.reports[other];
    OthersKeepAttributed(w, after, id);
    assert IsOwn(after, id) && (id in after.reporters ==> IsOnRecord(after, id));
  }

  lemma AuthenticatingEffect(w: World, id: nat, admitted: bool)
    requires id in w.reports && w.reports[id].phase.Authenticating?
    ensures
      var call, after := w.reports[id], DoReport(w, id, admitted);
      var client := Identify(w.db, w.signed, call.phase.credential, call.now);
      && after.db == w.db && after.origins == w.origins && after.signed == w.signed
      && after.reports == w.reports[id := after.reports[id]]
      && after.reporters == (if client.Ok? then w.reporters[id := client.value] else w.reporters)
      && !after.reports[id].phase.Authenticating? && after.reports[id].phase != Answered(Ok(()))
      && (after.reports[id].phase == Recording ==> client.Ok? && after.reports[id].report.node == client.value.node)
  {
    AuthenticatedIsOwn(w.db, w.signed, w.reports[id], admitted);
    assert ReportStep(w.db, w.signed, w.reports[id], admitted).0 == w.db;
  }

  lemma AuthenticatedIsOwn(db: Db, signed: Signatures, call: ReportCall, admitted: bool)
    requires call.phase.Authenticating?
    ensures
      var next, client := ReportStep(db, signed, call, admitted).1, Identify(db, signed, call.phase.credential, call.now);
      && !next.phase.Authenticating? && next.phase != Answered(Ok(()))
      && (next.phase == Recording ==> client.Ok? && next.report.node == client.value.node)
  {
  }

  /** The other calls, and the samples, when one call that has recorded nothing goes on and records nothing. */
  lemma OthersKeepAttributed(w: World, after: World, id: nat)
    requires Attributed(w) && id in w.reports && id in after.reports && w.reports[id].phase != Answered(Ok(()))
    requires after.signed == w.signed && after.origins == w.origins && after.db == w.db
    requires forall other :: other in after.reports && other != id ==>
               other in w.reports && after.reports[other] == w.reports[other]
    requires forall other :: other in w.reports ==> other in after.reports
    requires forall other :: other in after.reporters && other != id ==>
               other in w.reporters && after.reporters[other] == w.reporters[other]
    requires forall other :: other in w.reporters && other != id ==> other in after.reporters
    ensures forall other :: other in after.reports && other != id ==> IsOwn(after, other)
    ensures forall other :: other in after.reporters && other != id ==> IsOnRecord(after, other)
    ensures forall i :: i in after.db.samples ==> HasOrigin(after, i)
  {
    forall other | other in after.reports && other != id ensures IsOwn(after, other) {
      assert IsOwn(w, other);
    }
    forall other | other in after.reporters && other != id ensures IsOnRecord(after, other) {
      assert IsOnRecord(w, other);
    }
    forall i | i in after.db.samples ensures HasOrigin(after, i) {
      assert HasOrigin(w, i);
    }
  }

  /** Recording writes one sample, under the node on record. */
  lemma RecordingKeepsAttributed(w: World, id: nat, admitted: bool)
    requires Basic(w) && Attributed(w) && id in w.reports && w.reports[id].phase.Recording?
    ensures Attributed(DoReport(w, id, admitted))
  {
    var call, after := w.reports[id], DoReport(w, id, admitted);
    assert IsOwn(w, id) && IsOnRecord(w, id);
    assert after.signed == w.signed && after.reporters == w.reporters;
    assert after.reports == w.reports[id := after.reports[id]];
    assert after.reports[id] == call.(phase := after.reports[id].phase);
    RecordingWrites(w.db, w.signed, call, admitted);
    forall other | other in after.reports ensures IsOwn(after, other) {
      assert other != id ==> IsOwn(w, other);
    }
    forall other | other in after.reporters ensures IsOnRecord(after, other) {
      assert IsOnRecord(w, other);
    }
    forall i | i in after.db.samples ensures HasOrigin(after, i) {
      if i in w.db.samples && i != w.db.nextSample {
        assert HasOrigin(w, i);
      }
    }
  }

  lemma RecordingWrites(db: Db, signed: Signatures, call: ReportCall, admitted: bool)
    requires WellFormed(db) && call.phase.Recording?
    ensures
      var (after, next) := ReportStep(db, signed, call, admitted);
      && next == call.(phase := next.phase) && next.phase.Answered?
      && var row := SampleRow(call.report.node, ToMillis(call.now), call.report.metrics);
      after.samples == if next.phase.answer.Ok? then db.samples[db.nextSample := row] else db.samples
  {
  }

  lemma ReportKeepsAttributed(w: World, id: nat, admitted: bool)
    requires Basic(w) && Attributed(w) && id in w.reports
    ensures Attributed(DoReport(w, id, admitted))
  {
    match w.reports[id].phase
    case Authenticating(_) => AuthenticatingKeepsAttributed(w, id, admitted);
    case Recording => RecordingKeepsAttributed(w, id, admitted);
    case Answered(_) => AnsweredStays(w, id, admitted);
  }

  lemma AnsweredStays(w: World, id: nat, admitted: bool)
    requires id in w.reports && w.reports[id].phase.Answered?
    ensures DoReport(w, id, admitted) == w
  {
    assert w.reports[id := w.reports[id]] == w.reports;
  }

  lemma {:induction false} RunKeepsAttributed(actions: seq<Action>)
    ensures Basic(After(actions)) && Attributed(After(actions))
    decreases |actions|
  {
    if actions != [] {
      var init, last := actions[..|actions| - 1], actions[|actions| - 1];
      RunKeepsAttributed(init);
      DoKeepsBasic(After(init), last);
      DoKeepsAttributed(After(init), last);
    }
  }

  lemma DoKeepsAttributed(w: World, a: Action)
    requires Basic(w) && Attributed(w)
    ensures Attributed(Do(w, a))
  {
    if !a.StepReport? {
      OtherActionsKeepReports(w, a);
      KeepingReportsKeepsAttributed(w, Do(w, a));
    } else if a.call in w.reports {
      ReportKeepsAttributed(w, a.call, a.admitted);
    }
  }

  // ---- Main results ----

  /** A report that was recorded is for the node that its credential identified when it authenticated. */
  lemma RecordedReportIsOwn(actions: seq<Action>, id: nat)
    requires id in After(actions).reports && After(actions).reports[id].phase == Answered(Ok(()))
    ensures
      var w := After(actions);
      && id in w.reporters && w.reports[id].report.node == w.reporters[id].node
      && w.reporters[id].serial in w.signed && w.signed[w.reporters[id].serial].commonName == w.reporters[id].node
  {
    RunKeepsAttributed(actions);
    assert IsOwn(After(actions), id) && IsOnRecord(After(actions), id);
  }

  /**
   In every run, every stored sample is what one recorded report said and when it came in, and is for the node
   that the credential of this report identified, under a certificate signed for that node.
   */
  lemma SampleIsOwn(actions: seq<Action>, i: nat)
    requires i in After(actions).db.samples
    ensures
      var w, sample := After(actions), After(actions).db.samples[i];
      && i in w.origins && w.origins[i] in w.reports && w.origins[i] in w.reporters
      && var call, client := w.reports[w.origins[i]], w.reporters[w.origins[i]];
      && call.phase == Answered(Ok(()))
      && sample == SampleRow(client.node, ToMillis(call.now), call.report.metrics)
      && client.serial in w.signed && w.signed[client.serial].commonName == sample.node
  {
    RunKeepsAttributed(actions);
    assert HasOrigin(After(actions), i);
    RecordedReportIsOwn(actions, After(actions).origins[i]);
  }
}
