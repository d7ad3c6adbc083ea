/**
 Revocation is final: once a node is disabled or removed, no later step, of any request however far it
 had already come, authenticates the node, or stores a certificate, a code or a sample for it.
 */
module Revocation {
  import opened Common
  import opened Database
  import opened Identity
  import opened Handlers
  import opened Protocol
  import opened Invariants
  import opened Agreement

  /** The node existed once, and now it is disabled or gone. Ids are never drawn again. */
  ghost predicate Retired(w: World, n: NodeId) {
    n in w.everNodes && (n in w.db.nodes ==> w.db.nodes[n].disabled)
  }

  /** Nothing is stored for the node that was not stored before. */
  ghost predicate RowsFrozen(db: Db, after: Db, n: NodeId) {
    && (forall s :: s in after.certs && after.certs[s].node == n ==> s in db.certs && db.certs[s].node == n)
    && (forall c :: c in after.codes && after.codes[c].node == n ==> c in db.codes && db.codes[c].node == n)
    && (forall c :: c in after.results && after.results[c].node == n ==> c in db.results && db.results[c] == after.results[c])
    && (forall i :: i in after.samples && after.samples[i].node == n ==> i in db.samples && db.samples[i] == after.samples[i])
  }

  ghost predicate RenewedFor(w: World, id: nat, n: NodeId) {
    && id in w.renews && w.renews[id].phase.Renewed? && w.renews[id].phase.renewal.Ok?
    && w.renews[id].phase.renewal.value.certificate.commonName == n
  }

  ghost predicate RecordedFor(w: World, id: nat, n: NodeId) {
    && id in w.reports && w.reports[id].phase.Answered? && w.reports[id].phase.answer.Ok?
    && w.reports[id].report.node == n
  }

  /** No renewal and no report of the node succeeds that had not succeeded before. */
  ghost predicate CallsFrozen(w: World, after: World, n: NodeId) {
    && (forall id :: RenewedFor(after, id, n) ==> RenewedFor(w, id, n))
    && (forall id :: RecordedFor(after, id, n) ==> RecordedFor(w, id, n))
  }

  ghost predicate Frozen(w: World, after: World, n: NodeId) {
    && Retired(after, n)
    && RowsFrozen(w.db, after.db, n)
    && CallsFrozen(w, after, n)
    && HistoryOf(after.received, n) == HistoryOf(w.received, n)
  }

  // ---- Steps ----

  lemma EnrollFreezes(w: World, id: nat, serial: nat, n: NodeId)
    requires Basic(w) && Retired(w, n) && CanStepEnroll(w, id, serial)
    ensures Frozen(w, DoEnroll(w, id, serial), n)
  {
    var call, after := w.enrolls[id], DoEnroll(w, id, serial);
    assert after.renews == w.renews && after.reports == w.reports && after.received == w.received;
    assert after.everNodes == w.everNodes && after.db == EnrollStep(w.db, call, serial).0;
    if call.phase.Committing? && EnrollStep(w.db, call, serial).1.phase.Enrolled? {
      CommitFreezesRows(w.db, call, serial, n);
    } else {
      assert after.db == w.db;
    }
  }

  lemma CommitFreezesRows(db: Db, call: EnrollCall, serial: nat, n: NodeId)
    requires WellFormed(db) && (n in db.nodes ==> db.nodes[n].disabled)
    requires call.phase.Committing? && EnrollStep(db, call, serial).1.phase.Enrolled?
    ensures EnrollStep(db, call, serial).0.nodes == db.nodes
    ensures RowsFrozen(db, EnrollStep(db, call, serial).0, n)
  {
    CommitEffect(db, call, serial);
    EnrollCommitEffect(db, call, serial);
    CommittedNodeIsEnabled(db, call, serial);
  }

  lemma CommittedNodeIsEnabled(db: Db, call: EnrollCall, serial: nat)
    requires call.phase.Committing? && EnrollStep(db, call, serial).1.phase.Enrolled?
    ensures
      var after := EnrollStep(db, call, serial).0;
      && call.code in db.codes && db.codes[call.code].node in db.nodes && !db.nodes[db.codes[call.code].node].disabled
      && after.samples == db.samples && after.nodes == db.nodes
      && (forall s :: s in after.certs ==>
            (s in db.certs && after.certs[s] == db.certs[s]) || after.certs[s].node == db.codes[call.code].node)
  {
  }

  lemma RenewFreezes(w: World, id: nat, serial: nat, n: NodeId)
    requires Basic(w) && Retired(w, n) && CanStepRenew(w, id, serial)
    ensures Frozen(w, DoRenew(w, id, serial), n)
  {
    var call, after := w.renews[id], DoRenew(w, id, serial);
    assert after.reports == w.reports && after.received == w.received && after.everNodes == w.everNodes;
    if call.phase.CommittingRenewal? && after.renews[id].phase.renewal.Ok? {
      RenewalCommitsForEnabledNode(w.signed, w.db, call, serial);
      assert RenewPending(w.signed, call);
    } else {
      assert after.db == w.db;
    }
    forall i | RenewedFor(after, i, n) ensures RenewedFor(w, i, n) {
    }
  }

  lemma RenewalCommitsForEnabledNode(signed: Signatures, db: Db, call: RenewCall, serial: nat)
    requires Backed(signed, db.certs) && call.phase.CommittingRenewal? && RenewPending(signed, call)
    requires RenewStep(db, signed, call, serial).1.phase.renewal.Ok?
    ensures
      var after, node := RenewStep(db, signed, call, serial).0, call.phase.issued.certificate.commonName;
      && node in db.nodes && !db.nodes[node].disabled
      && after == db.(certs := after.certs)
      && (forall s :: s in after.certs ==>
            (s in db.certs && after.certs[s].node == db.certs[s].node) || after.certs[s].node == node)
  {
  }

  lemma ReportFreezes(w: World, id: nat, admitted: bool, n: NodeId)
    requires Retired(w, n) && id in w.reports
    ensures Frozen(w, DoReport(w, id, admitted), n)
  {
    var call, after := w.reports[id], DoReport(w, id, admitted);
    ReportRecordsForEnabledNode(w.db, w.signed, call, admitted);
    assert after.renews == w.renews && after.everNodes == w.everNodes;
    if call.report.node == n {
      assert after.db == w.db && after.received == w.received;
    }
  }

  lemma ReportRecordsForEnabledNode(db: Db, signed: Signatures, call: ReportCall, admitted: bool)
    ensures
      var next, node := ReportStep(db, signed, call, admitted), call.report.node;
      && next.0.certs == db.certs && next.0.codes == db.codes && next.0.results == db.results
      && next.1.report == call.report
      && (forall i :: i in next.0.samples && next.0.samples[i].node != node ==>
            i in db.samples && db.samples[i] == next.0.samples[i])
      && (forall m :: m in next.0.nodes && m != node ==> m in db.nodes && next.0.nodes[m] == db.nodes[m])
      && ((node in db.nodes && !db.nodes[node].disabled)
          || (next.0 == db && (next.1.phase.Answered? && next.1.phase.answer.Ok? ==> call == next.1)))
  {
  }

  lemma SameCallsFreeze(w: World, after: World, n: NodeId)
    requires after.renews == w.renews && after.reports == w.reports
    ensures CallsFrozen(w, after, n)
  {
  }

  lemma NodeActionsFreeze(w: World, id: NodeId, at: Instant, n: NodeId)
    requires Retired(w, n)
    ensures Frozen(w, DoDisableNode(w, id, at), n)
    ensures Frozen(w, DoRemoveNode(w, id), n)
  {
    SameCallsFreeze(w, DoDisableNode(w, id, at), n);
    SameCallsFreeze(w, DoRemoveNode(w, id), n);
  }

  lemma CreateNodeFreezes(w: World, id: NodeId, name: string, at: Instant, n: NodeId)
    requires Retired(w, n)
    ensures Frozen(w, DoCreateNode(w, id, name, at), n)
  {
    if id !in w.everNodes {
      var db := Database.CreateNode(w.db, id, name, at).db;
      CreateNodeEffect(w.db, id, name, at);
      assert db == w.db.(nodes := db.nodes);
      assert n in db.nodes ==> n in w.db.nodes && db.nodes[n] == w.db.nodes[n];
      assert DoCreateNode(w, id, name, at) == w.(db := db, everNodes := w.everNodes + {id});
    }
  }

  lemma CreateCodeFreezes(w: World, node: NodeId, code: Code, now: Instant, n: NodeId)
    requires Basic(w) && Retired(w, n)
    ensures Frozen(w, DoCreateCode(w, node, code, now), n)
  {
    if code !in w.codeNode {
      CreateCodeEffect(w.db, node, code, now + CODE_LIFETIME);
      SameCallsFreeze(w, DoCreateCode(w, node, code, now), n);
      assert node == n ==> DoCreateCode(w, node, code, now).db == w.db;
    }
  }

  lemma SampleActionsFreeze(w: World, cutoff: Instant, sample: nat, n: NodeId)
    requires Retired(w, n)
    ensures Frozen(w, DoPurge(w, cutoff), n) && Frozen(w, DoPrune(w, sample), n)
  {
    SameCallsFreeze(w, DoPurge(w, cutoff), n);
    SameCallsFreeze(w, DoPrune(w, sample), n);
    assert DoPurge(w, cutoff).db == w.db.(samples := DoPurge(w, cutoff).db.samples);
    assert DoPrune(w, sample).db == w.db.(samples := DoPrune(w, sample).db.samples);
  }

  /** A request that begins has answered nothing yet. */
  lemma BeginningFreezes(w: World, a: Action, n: NodeId)
    requires Retired(w, n) && (a.BeginEnroll? || a.BeginRenew? || a.BeginReport?)
    ensures Frozen(w, Do(w, a), n)
  {
    var after := Do(w, a);
    assert after.db == w.db && after.received == w.received && after.everNodes == w.everNodes;
    match a
    case BeginEnroll(_, _, _, _) => SameCallsFreeze(w, after, n);
    case BeginRenew(id, credential, key, now) => BeginRenewFreezes(w, id, credential, key, now, n);
    case BeginReport(id, credential, report, now) => BeginReportFreezes(w, id, credential, report, now, n);
  }

  lemma BeginRenewFreezes(w: World, id: nat, credential: Credential, key: PublicKey, now: Instant, n: NodeId)
    ensures CallsFrozen(w, DoBeginRenew(w, id, credential, key, now), n)
  {
    var after := DoBeginRenew(w, id, credential, key, now);
    assert after.reports == w.reports;
    if id !in w.renews {
      assert after.renews == w.renews[id := RenewCall(key, now, Identifying(credential))];
    }
  }

  lemma BeginReportFreezes(w: World, id: nat, credential: Credential, report: Report, now: Instant, n: NodeId)
    ensures CallsFrozen(w, DoBeginReport(w, id, credential, report, now), n)
  {
    var after := DoBeginReport(w, id, credential, report, now);
    assert after.renews == w.renews;
    if id !in w.reports {
      assert after.reports == w.reports[id := ReportCall(report, now, Authenticating(credential))];
    }
  }

  lemma StepsFreeze(w: World, a: Action, n: NodeId)
    requires Basic(w) && Retired(w, n) && (a.StepEnroll? || a.StepRenew? || a.StepReport?)
    ensures Frozen(w, Do(w, a), n)
  {
    match a
    case StepEnroll(id, serial) => if CanStepEnroll(w, id, serial) { EnrollFreezes(w, id, serial, n); }
    case StepRenew(id, serial) => if CanStepRenew(w, id, serial) { RenewFreezes(w, id, serial, n); }
    case StepReport(id, admitted) => if id in w.reports { ReportFreezes(w, id, admitted, n); }
  }

  lemma DoFreezes(w: World, a: Action, n: NodeId)
    requires Basic(w) && Retired(w, n)
    ensures Frozen(w, Do(w, a), n)
  {
    match a
    case CreateNode(id, name, at) => CreateNodeFreezes(w, id, name, at, n);
    case DisableNode(id, at) => NodeActionsFreeze(w, id, at, n);
    case RemoveNode(id) => NodeActionsFreeze(w, id, 0, n);
    case CreateCode(node, code, now) => CreateCodeFreezes(w, node, code, now, n);
    case StepEnroll(_, _) | StepRenew(_, _) | StepReport(_, _) => StepsFreeze(w, a, n);
    case PurgeSamples(cutoff) => SampleActionsFreeze(w, cutoff, 0, n);
    case PruneOldest(sample) => SampleActionsFreeze(w, 0, sample, n);
    case BeginEnroll(_, _, _, _) | BeginRenew(_, _, _, _) | BeginReport(_, _, _, _) => BeginningFreezes(w, a, n);
  }

  lemma FrozenIsTransitive(a: World, b: World, c: World, n: NodeId)
    requires Frozen(a, b, n) && Frozen(b, c, n)
    ensures Frozen(a, c, n)
  {
  }

  lemma {:induction false} RunFreezes(w: World, actions: seq<Action>, n: NodeId)
    requires Basic(w) && Retired(w, n)
    ensures Basic(Run(w, actions)) && Frozen(w, Run(w, actions), n)
    decreases |actions|
  {
    if actions != [] {
      var init, last := actions[..|actions| - 1], actions[|actions| - 1];
      RunFreezes(w, init, n);
      DoKeepsBasic(Run(w, init), last);
      DoFreezes(Run(w, init), last, n);
      FrozenIsTransitive(w, Run(w, init), Run(w, actions), n);
    }
  }

  // ---- Main results ----

  lemma RetiredIsUnknown(w: World, n: NodeId, serial: Serial, credential: Credential, at: Instant)
    requires Retired(w, n)
    ensures NodeForCertificate(w.db, serial, at) != Ok(n)
    ensures
      var found := Identify(w.db, w.signed, credential, at);
      found.Ok? ==> found.value.node != n
  {
  }

  /**
   After the transaction that disables a node commits, in any continuation of any run: no serial and no
   credential authenticates the node at any time; the certificates, codes, enrollment results and samples
   stored for it are among those stored when it committed; and no renewal or report of it, even one that
   had already authenticated, succeeds that had not succeeded by then.
   */
  lemma RevocationIsFinal(before: seq<Action>, n: NodeId, at: Instant, later: seq<Action>,
                          serial: Serial, credential: Credential, now: Instant)
    requires n in After(before).db.nodes
    ensures
      var committed := Do(After(before), DisableNode(n, at));
      var w := Run(committed, later);
      && Frozen(committed, w, n)
      && NodeForCertificate(w.db, serial, now) != Ok(n)
      && (Identify(w.db, w.signed, credential, now).Ok? ==>
            Identify(w.db, w.signed, credential, now).value.node != n)
  {
    var committed := Do(After(before), DisableNode(n, at));
    DisablingRetires(before, n, at);
    RunFreezes(committed, later, n);
    RetiredIsUnknown(Run(committed, later), n, serial, credential, now);
  }

  lemma DisablingRetires(before: seq<Action>, n: NodeId, at: Instant)
    requires n in After(before).db.nodes
    ensures var committed := Do(After(before), DisableNode(n, at)); Basic(committed) && Retired(committed, n)
  {
    RunKeepsAgreed(INITIAL, before);
    DoKeepsBasic(After(before), DisableNode(n, at));
  }

  /** Removing a node is as final, and takes everything stored for it along at once. */
  lemma RemovalIsFinal(before: seq<Action>, n: NodeId, later: seq<Action>)
    requires n in After(before).db.nodes
    ensures
      var w := Run(Do(After(before), RemoveNode(n)), later);
      && n !in w.db.nodes
      && (forall s :: s in w.db.certs ==> w.db.certs[s].node != n)
      && (forall c :: c in w.db.codes ==> w.db.codes[c].node != n)
      && (forall c :: c in w.db.results ==> w.db.results[c].node != n)
      && (forall i :: i in w.db.samples ==> w.db.samples[i].node != n)
  {
    RunKeepsAgreed(INITIAL, before);
    var removed := Do(After(before), RemoveNode(n));
    DoKeepsBasic(After(before), RemoveNode(n));
    RunFreezes(removed, later, n);
    RemovedStaysRemoved(removed, later, n);
  }

  lemma {:induction false} RemovedStaysRemoved(w: World, actions: seq<Action>, n: NodeId)
    requires n in w.everNodes && n !in w.db.nodes
    ensures n in Run(w, actions).everNodes && n !in Run(w, actions).db.nodes
    decreases |actions|
  {
    if actions != [] {
      RemovedStaysRemoved(w, actions[..|actions| - 1], n);
      NodesAppearFresh(Run(w, actions[..|actions| - 1]), actions[|actions| - 1], n);
    }
  }

  lemma NodesAppearFresh(w: World, a: Action, n: NodeId)
    requires n in w.everNodes && n !in w.db.nodes
    ensures n in Do(w, a).everNodes && n !in Do(w, a).db.nodes
  {
  }
}
