/** Facts about the tables and the requests in progress that hold in every reachable world. */
module Invariants {
  import opened Common
  import opened Numerals
  import opened Database
  import opened Identity
  import opened Handlers
  import opened Protocol

  /** Ids in the tables are remembered, and a code keeps its node. */
  ghost predicate Remembered(w: World) {
    && w.db.nodes.Keys <= w.everNodes
    && w.received.Keys <= w.everNodes
    && forall c :: c in w.db.codes ==> c in w.codeNode && w.db.codes[c].node == w.codeNode[c]
  }

  /** A certificate row says what the signed certificate of its serial says. */
  ghost predicate Backs(certificate: Certificate, serial: Serial, row: CertRow) {
    && SerialText(certificate.serial) == serial
    && certificate.commonName == row.node
    && row.expiresAt == row.issuedAt + CERTIFICATE_DAYS * DAY_MILLIS
    && certificate.notAfter == row.expiresAt / MILLIS_PER_SECOND
    && certificate.notBefore == row.issuedAt / MILLIS_PER_SECOND - 300
  }

  ghost predicate Backed(signed: Signatures, certs: map<Serial, CertRow>) {
    && (forall s :: s in signed ==> SerialText(signed[s].serial) == s)
    && (forall s :: s in certs ==> s in signed && Backs(signed[s], s, certs[s]))
  }

  /** The signed certificate and its answer are what the authority issues for this node, key and time. */
  ghost predicate GenuineIssue(signed: Signatures, issued: Issued, node: NodeId, key: PublicKey, now: Instant) {
    && issued == IssueFor(node, key, issued.certificate.serial, now)
    && issued.serial in signed && signed[issued.serial] == issued.certificate
  }

  ghost predicate EnrollPending(signed: Signatures, codeNode: map<Code, NodeId>, call: EnrollCall) {
    match call.phase
    case Issuing(node) => call.code in codeNode && node == codeNode[call.code]
    case Committing(issued) =>
      call.code in codeNode && GenuineIssue(signed, issued, codeNode[call.code], call.key, call.now)
    case _ => true
  }

  ghost predicate Names(signed: Signatures, client: Client) {
    client.serial in signed && signed[client.serial].commonName == client.node
  }

  ghost predicate RenewPending(signed: Signatures, call: RenewCall) {
    match call.phase
    case IssuingRenewal(client) => Names(signed, client)
    case CommittingRenewal(client, issued) =>
      Names(signed, client) && GenuineIssue(signed, issued, client.node, call.key, call.now)
    case _ => true
  }

  ghost predicate EnrollsPending(w: World) {
    forall id :: id in w.enrolls ==> EnrollPending(w.signed, w.codeNode, w.enrolls[id])
  }

  ghost predicate RenewsPending(w: World) {
    forall id :: id in w.renews ==> RenewPending(w.signed, w.renews[id])
  }

  ghost predicate Basic(w: World) {
    && WellFormed(w.db)
    && Remembered(w)
    && Backed(w.signed, w.db.certs)
    && EnrollsPending(w)
    && RenewsPending(w)
  }

  /** Milliseconds and whole seconds of one instant agree, and thirty days are whole in both. */
  lemma IssueIsBacked(node: NodeId, key: PublicKey, serial: nat, now: Instant)
    ensures
      var issued := IssueFor(node, key, serial, now);
      && Backs(issued.certificate, issued.serial, CertRow(node, ToMillis(now), ToMillis(issued.notAfter), None))
      && ToMillis(issued.notAfter) == ToMillis(now) + CERTIFICATE_DAYS * DAY_MILLIS
  {
    var issued := IssueFor(node, key, serial, now);
    assert ToSeconds(issued.notAfter) == ToMillis(issued.notAfter) / MILLIS_PER_SECOND;
    assert ToSeconds(now) == ToMillis(now) / MILLIS_PER_SECOND;
  }

  lemma IdentityIsBacked(db: Db, signed: Signatures, credential: Credential, now: Instant)
    requires Backed(signed, db.certs)
    ensures
      var found := Identify(db, signed, credential, now);
      found.Ok? ==>
        && Names(signed, found.value)
        && found.value.serial in db.certs && db.certs[found.value.serial].node == found.value.node
  {
  }

  lemma SigningKeepsPending(w: World, serial: Serial, certificate: Certificate)
    requires EnrollsPending(w) && RenewsPending(w) && serial !in w.signed
    ensures EnrollsPending(w.(signed := w.signed[serial := certificate]))
    ensures RenewsPending(w.(signed := w.signed[serial := certificate]))
  {
    var signed := w.signed[serial := certificate];
    forall id | id in w.enrolls ensures EnrollPending(signed, w.codeNode, w.enrolls[id]) {
      assert EnrollPending(w.signed, w.codeNode, w.enrolls[id]);
    }
    forall id | id in w.renews ensures RenewPending(signed, w.renews[id]) {
      assert RenewPending(w.signed, w.renews[id]);
    }
  }

  // ---- One lemma for each kind of action ----

  lemma EnrollIssuingKeepsBasic(w: World, id: nat, serial: nat)
    requires Basic(w) && id in w.enrolls && w.enrolls[id].phase.Issuing? && Drawable(w, serial)
    ensures Basic(DoEnroll(w, id, serial))
  {
    var next := EnrollStep(w.db, w.enrolls[id], serial).1;
    var issued := next.phase.issued;
    assert EnrollPending(w.signed, w.codeNode, w.enrolls[id]);
    SigningKeepsPending(w, issued.serial, issued.certificate);
    assert EnrollPending(w.signed[issued.serial := issued.certificate], w.codeNode, next);
  }

  lemma EnrollCertificateKeepsBacked(signed: Signatures, codeNode: map<Code, NodeId>, db: Db, call: EnrollCall, serial: nat)
    requires Backed(signed, db.certs) && call.phase.Committing? && EnrollPending(signed, codeNode, call)
    requires call.code in db.codes ==> db.codes[call.code].node == codeNode[call.code]
    ensures Backed(signed, EnrollStep(db, call, serial).0.certs)
  {
    var issued := call.phase.issued;
    IssueIsBacked(codeNode[call.code], call.key, issued.certificate.serial, call.now);
  }

  lemma EnrollCommitEffect(db: Db, call: EnrollCall, serial: nat)
    requires WellFormed(db) && call.phase.Committing?
    ensures
      var next := EnrollStep(db, call, serial);
      && WellFormed(next.0) && next.0.nodes == db.nodes && next.0.codes.Keys == db.codes.Keys
      && (forall c :: c in db.codes ==> next.0.codes[c].node == db.codes[c].node)
      && (next.1.phase.Enrolled? || next.1.phase.SecondReplay?)
  {
    var issued := call.phase.issued;
    EnrollKeepsConstraints(db, call.code, issued.serial, issued.certificate, call.key, call.now, issued.notAfter);
  }

  lemma EnrollCommittingKeepsBasic(w: World, id: nat, serial: nat)
    requires Basic(w) && id in w.enrolls && w.enrolls[id].phase.Committing?
    ensures Basic(DoEnroll(w, id, serial))
  {
    var call := w.enrolls[id];
    assert EnrollPending(w.signed, w.codeNode, call);
    EnrollCertificateKeepsBacked(w.signed, w.codeNode, w.db, call, serial);
    EnrollCommitEffect(w.db, call, serial);
    EnrollCommitFrame(w, id, serial);
    CommittedKeepsBasic(w, DoEnroll(w, id, serial), id, EnrollStep(w.db, call, serial).1);
  }

  lemma EnrollCommitFrame(w: World, id: nat, serial: nat)
    requires id in w.enrolls && w.enrolls[id].phase.Committing?
    ensures
      var after, next := DoEnroll(w, id, serial), EnrollStep(w.db, w.enrolls[id], serial);
      && after.db == next.0 && after.enrolls == w.enrolls[id := next.1]
      && after.signed == w.signed && after.renews == w.renews && after.codeNode == w.codeNode
      && after.everNodes == w.everNodes && after.received == w.received
  {
  }

  lemma CommittedKeepsBasic(w: World, after: World, id: nat, call: EnrollCall)
    requires Basic(w) && WellFormed(after.db) && Backed(w.signed, after.db.certs)
    requires after.db.nodes == w.db.nodes && after.db.codes.Keys == w.db.codes.Keys
    requires forall c :: c in w.db.codes ==> after.db.codes[c].node == w.db.codes[c].node
    requires after.enrolls == w.enrolls[id := call] && (call.phase.Enrolled? || call.phase.SecondReplay?)
    requires after.signed == w.signed && after.renews == w.renews && after.codeNode == w.codeNode
    requires after.everNodes == w.everNodes && after.received == w.received
    ensures Basic(after)
  {
    forall i | i in after.enrolls ensures EnrollPending(after.signed, after.codeNode, after.enrolls[i]) {
      assert i != id ==> EnrollPending(w.signed, w.codeNode, w.enrolls[i]);
    }
    forall c | c in after.db.codes ensures c in after.codeNode && after.db.codes[c].node == after.codeNode[c] {
      assert c in w.db.codes.Keys;
    }
  }

  /** One call replaced by another that is as pending. */
  lemma ReplacingEnrollKeepsBasic(w: World, after: World, id: nat, call: EnrollCall)
    requires Basic(w) && EnrollPending(w.signed, w.codeNode, call)
    requires after == w.(enrolls := w.enrolls[id := call])
    ensures Basic(after)
  {
    forall i | i in after.enrolls ensures EnrollPending(after.signed, after.codeNode, after.enrolls[i]) {
      assert i != id ==> EnrollPending(w.signed, w.codeNode, w.enrolls[i]);
    }
  }

  lemma ReplacingRenewKeepsBasic(w: World, after: World, id: nat, call: RenewCall)
    requires Basic(w) && RenewPending(w.signed, call)
    requires after == w.(renews := w.renews[id := call])
    ensures Basic(after)
  {
    forall i | i in after.renews ensures RenewPending(after.signed, after.renews[i]) {
      assert i != id ==> RenewPending(w.signed, w.renews[i]);
    }
  }

  lemma EnrollReadingKeepsBasic(w: World, id: nat, serial: nat)
    requires Basic(w) && id in w.enrolls && !w.enrolls[id].phase.Issuing? && !w.enrolls[id].phase.Committing?
    ensures Basic(DoEnroll(w, id, serial))
  {
    var next := EnrollStep(w.db, w.enrolls[id], serial);
    assert next.0 == w.db;
    EnrollReadingIsPending(w, id, serial);
    assert DoEnroll(w, id, serial) == w.(enrolls := w.enrolls[id := next.1]);
    ReplacingEnrollKeepsBasic(w, DoEnroll(w, id, serial), id, next.1);
  }

  lemma EnrollReadingIsPending(w: World, id: nat, serial: nat)
    requires Basic(w) && id in w.enrolls && !w.enrolls[id].phase.Issuing? && !w.enrolls[id].phase.Committing?
    ensures EnrollPending(w.signed, w.codeNode, EnrollStep(w.db, w.enrolls[id], serial).1)
  {
    var call := w.enrolls[id];
    assert call.code in w.db.codes ==> w.db.codes[call.code].node == w.codeNode[call.code];
  }

  lemma EnrollKeepsBasic(w: World, id: nat, serial: nat)
    requires Basic(w) && CanStepEnroll(w, id, serial)
    ensures Basic(DoEnroll(w, id, serial))
  {
    match w.enrolls[id].phase
    case Issuing(_) => EnrollIssuingKeepsBasic(w, id, serial);
    case Committing(_) => EnrollCommittingKeepsBasic(w, id, serial);
    case _ => EnrollReadingKeepsBasic(w, id, serial);
  }

  lemma RenewIssuingKeepsBasic(w: World, id: nat, serial: nat)
    requires Basic(w) && id in w.renews && w.renews[id].phase.IssuingRenewal? && Drawable(w, serial)
    ensures Basic(DoRenew(w, id, serial))
  {
    var next := RenewStep(w.db, w.signed, w.renews[id], serial).1;
    var issued := next.phase.issued;
    assert RenewPending(w.signed, w.renews[id]);
    SigningKeepsPending(w, issued.serial, issued.certificate);
    assert RenewPending(w.signed[issued.serial := issued.certificate], next);
  }

  lemma RenewCertificateKeepsBacked(signed: Signatures, db: Db, call: RenewCall)
    requires Backed(signed, db.certs) && call.phase.CommittingRenewal? && RenewPending(signed, call)
    ensures Backed(signed, RenewStep(db, signed, call, 0).0.certs)
  {
    IssueIsBacked(call.phase.client.node, call.key, call.phase.issued.certificate.serial, call.now);
  }

  lemma RenewCommittingKeepsBasic(w: World, id: nat, serial: nat)
    requires Basic(w) && id in w.renews && w.renews[id].phase.CommittingRenewal?
    ensures Basic(DoRenew(w, id, serial))
  {
    var call := w.renews[id];
    assert RenewPending(w.signed, call);
    RenewCertificateKeepsBacked(w.signed, w.db, call);
    RenewKeepsConstraints(w.db, call.phase.client.serial, call.phase.issued.serial, call.now, call.phase.issued.notAfter);
  }

  lemma RenewReadingKeepsBasic(w: World, id: nat, serial: nat)
    requires Basic(w) && id in w.renews && (w.renews[id].phase.Identifying? || w.renews[id].phase.Renewed?)
    ensures Basic(DoRenew(w, id, serial))
  {
    var call := w.renews[id];
    if call.phase.Identifying? {
      IdentityIsBacked(w.db, w.signed, call.phase.credential, call.now);
    }
    assert RenewPending(w.signed, RenewStep(w.db, w.signed, call, serial).1);
  }

  lemma RenewKeepsBasic(w: World, id: nat, serial: nat)
    requires Basic(w) && CanStepRenew(w, id, serial)
    ensures Basic(DoRenew(w, id, serial))
  {
    match w.renews[id].phase
    case IssuingRenewal(_) => RenewIssuingKeepsBasic(w, id, serial);
    case CommittingRenewal(_, _) => RenewCommittingKeepsBasic(w, id, serial);
    case _ => RenewReadingKeepsBasic(w, id, serial);
  }

  lemma ReportKeepsBasic(w: World, id: nat, admitted: bool)
    requires Basic(w) && id in w.reports
    ensures Basic(DoReport(w, id, admitted))
  {
    RecordKeepsConstraints(w.db, w.reports[id].report, w.reports[id].now);
  }

  lemma CreateNodeKeepsBasic(w: World, id: NodeId, name: string, at: Instant)
    requires Basic(w)
    ensures Basic(DoCreateNode(w, id, name, at))
  {
    if id !in w.everNodes {
      CreateNodeKeepsConstraints(w.db, id, name, at);
      CreateNodeEffect(w.db, id, name, at);
      var after := DoCreateNode(w, id, name, at);
      assert after.db == Database.CreateNode(w.db, id, name, at).db;
      assert after == w.(db := after.db, everNodes := after.everNodes);
      AddingNodeKeepsBasic(w, after, id);
    }
  }

  lemma AddingNodeKeepsBasic(w: World, after: World, id: NodeId)
    requires Basic(w) && WellFormed(after.db) && after.everNodes == w.everNodes + {id}
    requires after == w.(db := after.db, everNodes := after.everNodes) && after.db == w.db.(nodes := after.db.nodes)
    requires forall n :: n in after.db.nodes ==> n in w.db.nodes || n == id
    ensures Basic(after)
  {
  }

  lemma DisableNodeKeepsBasic(w: World, id: NodeId, at: Instant)
    requires Basic(w)
    ensures Basic(DoDisableNode(w, id, at))
  {
    DisableNodeKeepsConstraints(w.db, id, at);
  }

  lemma RemoveNodeKeepsBasic(w: World, id: NodeId)
    requires Basic(w)
    ensures Basic(DoRemoveNode(w, id))
  {
    RemoveNodeKeepsConstraints(w.db, id);
  }

  lemma RememberingKeepsPending(w: World, code: Code, node: NodeId)
    requires EnrollsPending(w) && code !in w.codeNode
    ensures EnrollsPending(w.(codeNode := w.codeNode[code := node]))
  {
    forall id | id in w.enrolls ensures EnrollPending(w.signed, w.codeNode[code := node], w.enrolls[id]) {
      assert EnrollPending(w.signed, w.codeNode, w.enrolls[id]);
    }
  }

  lemma CreateCodeEffect(db: Db, node: NodeId, code: Code, expiresAt: Instant)
    requires WellFormed(db)
    ensures
      var created := CreateEnrollmentCode(db, node, code, expiresAt).db;
      && WellFormed(created) && created == db.(codes := created.codes)
      && (forall c :: c in created.codes && c != code ==> c in db.codes && created.codes[c] == db.codes[c])
      && (code in created.codes ==> code in db.codes || created.codes[code].node == node)
  {
    CreateCodeKeepsConstraints(db, node, code, expiresAt);
  }

  lemma CreateCodeKeepsBasic(w: World, node: NodeId, code: Code, now: Instant)
    requires Basic(w)
    ensures Basic(DoCreateCode(w, node, code, now))
  {
    if code !in w.codeNode {
      CreateCodeEffect(w.db, node, code, now + CODE_LIFETIME);
      RememberingKeepsPending(w, code, node);
    }
  }

  lemma SampleActionsKeepBasic(w: World, cutoff: Instant, sample: nat)
    requires Basic(w)
    ensures Basic(DoPurge(w, cutoff)) && Basic(DoPrune(w, sample))
  {
  }

  predicate IsBeginning(a: Action) {
    a.BeginEnroll? || a.BeginRenew? || a.BeginReport?
  }

  lemma BeginningKeepsBasic(w: World, a: Action)
    requires Basic(w) && IsBeginning(a)
    ensures Basic(Do(w, a))
  {
    match a
    case BeginEnroll(id, code, key, now) => BeginEnrollKeepsBasic(w, id, code, key, now);
    case BeginRenew(id, credential, key, now) => BeginRenewKeepsBasic(w, id, credential, key, now);
    case BeginReport(_, _, _, _) => assert Do(w, a) == w.(reports := Do(w, a).reports);
  }

  lemma BeginEnrollKeepsBasic(w: World, id: nat, code: Code, key: PublicKey, now: Instant)
    requires Basic(w)
    ensures Basic(DoBeginEnroll(w, id, code, key, now))
  {
    if id !in w.enrolls {
      var call := EnrollCall(code, key, now, ReplayLookup);
      ReplacingEnrollKeepsBasic(w, DoBeginEnroll(w, id, code, key, now), id, call);
    }
  }

  lemma BeginRenewKeepsBasic(w: World, id: nat, credential: Credential, key: PublicKey, now: Instant)
    requires Basic(w)
    ensures Basic(DoBeginRenew(w, id, credential, key, now))
  {
    if id !in w.renews {
      var call := RenewCall(key, now, Identifying(credential));
      ReplacingRenewKeepsBasic(w, DoBeginRenew(w, id, credential, key, now), id, call);
    }
  }

  lemma StepsKeepBasic(w: World, a: Action)
    requires Basic(w) && (a.StepEnroll? || a.StepRenew? || a.StepReport?)
    ensures Basic(Do(w, a))
  {
    match a
    case StepEnroll(id, serial) => if CanStepEnroll(w, id, serial) { EnrollKeepsBasic(w, id, serial); }
    case StepRenew(id, serial) => if CanStepRenew(w, id, serial) { RenewKeepsBasic(w, id, serial); }
    case StepReport(id, admitted) => if id in w.reports { ReportKeepsBasic(w, id, admitted); }
  }

  lemma DoKeepsBasic(w: World, a: Action)
    requires Basic(w)
    ensures Basic(Do(w, a))
  {
    match a
    case CreateNode(id, name, at) => CreateNodeKeepsBasic(w, id, name, at);
    case DisableNode(id, at) => DisableNodeKeepsBasic(w, id, at);
    case RemoveNode(id) => RemoveNodeKeepsBasic(w, id);
    case CreateCode(node, code, now) => CreateCodeKeepsBasic(w, node, code, now);
    case StepEnroll(_, _) | StepRenew(_, _) | StepReport(_, _) => StepsKeepBasic(w, a);
    case PurgeSamples(cutoff) => SampleActionsKeepBasic(w, cutoff, 0);
    case PruneOldest(sample) => SampleActionsKeepBasic(w, 0, sample);
    case BeginEnroll(_, _, _, _) | BeginRenew(_, _, _, _) | BeginReport(_, _, _, _) => BeginningKeepsBasic(w, a);
  }
}
