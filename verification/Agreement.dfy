/**
 One enrollment code persists at most one certificate, and every successful enrollment call for it
 answers with that certificate, however the calls interleave with each other and with everything else.
 */
module Agreement {
  import opened Common
  import opened Database
  import opened Handlers
  import opened Protocol
  import opened Invariants

  // For each code, what was persisted for it.
  type Persisted = map<Code, seq<Enrollment>>

  /** The one thing persisted for a code: its certificate names the code's node and holds the asker's key. */
  ghost predicate SoleEnrollment(w: World, code: Code) {
    && code in w.codeNode && code in w.enrollments
    && |w.enrollments[code]| == 1
    && w.enrollments[code][0].issued.certificate.publicKey == w.enrollments[code][0].key
    && w.enrollments[code][0].issued.certificate.commonName == w.codeNode[code]
    && w.enrollments[code][0].issued.serial in w.signed
    && w.signed[w.enrollments[code][0].issued.serial] == w.enrollments[code][0].issued.certificate
    && (code in w.db.codes ==> w.db.codes[code].usedAt.Some?)
  }

  ghost predicate Matches(row: ResultRow, enrollment: Enrollment) {
    && row.certificate == enrollment.issued.certificate
    && row.serial == enrollment.issued.serial
    && row.publicKey == enrollment.key
    && row.expiresAt == ToMillis(enrollment.issued.notAfter)
  }

  /** Equal certificates and serials; expiries equal up to the part below a millisecond. */
  ghost predicate SameIssue(a: Issued, b: Issued) {
    a.certificate == b.certificate && a.serial == b.serial && ToMillis(a.notAfter) == ToMillis(b.notAfter)
  }

  ghost predicate Records(persisted: Persisted, code: Code, row: ResultRow) {
    code in persisted && |persisted[code]| == 1 && Matches(row, persisted[code][0])
  }

  ghost predicate Faithful(persisted: Persisted, call: EnrollCall) {
    match call.phase
    case CheckActive(replay) => Records(persisted, call.code, replay) && replay.publicKey == call.key
    case Enrolled(Ok(issued)) =>
      && call.code in persisted && |persisted[call.code]| == 1
      && persisted[call.code][0].key == call.key
      && SameIssue(issued, persisted[call.code][0].issued)
    case _ => true
  }

  ghost predicate ResultsRecord(w: World) {
    forall c :: c in w.db.results ==> Records(w.enrollments, c, w.db.results[c])
  }

  ghost predicate CallsFaithful(w: World) {
    forall id :: id in w.enrolls ==> Faithful(w.enrollments, w.enrolls[id])
  }

  ghost predicate Agreed(w: World) {
    && Basic(w)
    && (forall c :: c in w.enrollments ==> SoleEnrollment(w, c))
    && ResultsRecord(w)
    && CallsFaithful(w)
  }

  /** An enrollment commits only for a code that has persisted nothing yet. */
  lemma CommitIsFirst(w: World, id: nat, serial: nat)
    requires Agreed(w) && id in w.enrolls && w.enrolls[id].phase.Committing?
    requires EnrollStep(w.db, w.enrolls[id], serial).1.phase.Enrolled?
    ensures w.enrolls[id].code !in w.enrollments
  {
    var call := w.enrolls[id];
    assert call.code in w.enrollments ==> SoleEnrollment(w, call.code);
  }

  lemma PersistingKeepsOthers(w: World, code: Code, enrollment: Enrollment)
    requires ResultsRecord(w) && CallsFaithful(w) && code !in w.enrollments
    ensures ResultsRecord(w.(enrollments := w.enrollments[code := [enrollment]]))
    ensures CallsFaithful(w.(enrollments := w.enrollments[code := [enrollment]]))
  {
    var persisted := w.enrollments[code := [enrollment]];
    forall id | id in w.enrolls ensures Faithful(persisted, w.enrolls[id]) {
      assert Faithful(w.enrollments, w.enrolls[id]);
    }
    forall c | c in w.db.results ensures Records(persisted, c, w.db.results[c]) {
      assert Records(w.enrollments, c, w.db.results[c]);
    }
  }

  /** The database that a successful commit leaves behind. */
  lemma CommitEffect(db: Db, call: EnrollCall, serial: nat)
    requires call.phase.Committing? && EnrollStep(db, call, serial).1.phase.Enrolled?
    ensures
      var next, issued := EnrollStep(db, call, serial), call.phase.issued;
      && call.code in db.codes && db.codes[call.code].usedAt.None? && call.code !in db.results
      && issued.serial !in db.certs
      && next.1.phase == Enrolled(Ok(issued))
      && next.0.results == db.results[call.code := ResultRow(db.codes[call.code].node, issued.serial,
                                       issued.certificate, call.key, ToMillis(issued.notAfter))]
      && (forall c :: c in next.0.codes && c != call.code ==> c in db.codes && next.0.codes[c] == db.codes[c])
      && call.code in next.0.codes && next.0.codes[call.code].usedAt.Some?
  {
  }

  /** What a commit changes: the tables, the call, and the history of its code. */
  ghost predicate PersistedIn(w: World, after: World, id: nat, serial: nat)
    requires id in w.enrolls && w.enrolls[id].phase.Committing?
  {
    var call, next := w.enrolls[id], EnrollStep(w.db, w.enrolls[id], serial);
    && after.db == next.0 && after.enrolls == w.enrolls[id := next.1]
    && after.codeNode == w.codeNode && after.signed == w.signed
    && after.enrollments == w.enrollments[call.code := [Enrollment(call.phase.issued, call.key)]]
  }

  lemma PersistingEffect(w: World, id: nat, serial: nat)
    requires Agreed(w) && id in w.enrolls && w.enrolls[id].phase.Committing?
    requires EnrollStep(w.db, w.enrolls[id], serial).1.phase.Enrolled?
    ensures w.enrolls[id].code !in w.enrollments && PersistedIn(w, DoEnroll(w, id, serial), id, serial)
  {
    CommitIsFirst(w, id, serial);
    CommitEffect(w.db, w.enrolls[id], serial);
    var call := w.enrolls[id];
    var enrollment := Enrollment(call.phase.issued, call.key);
    assert HistoryOf(w.enrollments, call.code) + [enrollment] == [enrollment];
  }

  lemma PersistedAreSole(w: World, after: World, id: nat, serial: nat, c: Code)
    requires Agreed(w) && id in w.enrolls && w.enrolls[id].phase.Committing?
    requires EnrollStep(w.db, w.enrolls[id], serial).1.phase.Enrolled?
    requires PersistedIn(w, after, id, serial) && c in after.enrollments
    ensures SoleEnrollment(after, c)
  {
    var call := w.enrolls[id];
    CommitEffect(w.db, call, serial);
    if c == call.code {
      assert EnrollPending(w.signed, w.codeNode, call);
    } else {
      assert SoleEnrollment(w, c);
      OthersStaySole(w, after, call.code, c);
    }
  }

  lemma PersistedStayFaithful(w: World, after: World, id: nat, serial: nat)
    requires Agreed(w) && id in w.enrolls && w.enrolls[id].phase.Committing?
    requires EnrollStep(w.db, w.enrolls[id], serial).1.phase.Enrolled? && w.enrolls[id].code !in w.enrollments
    requires PersistedIn(w, after, id, serial)
    ensures ResultsRecord(after) && CallsFaithful(after)
  {
    var call := w.enrolls[id];
    CommitEffect(w.db, call, serial);
    PersistingKeepsOthers(w, call.code, Enrollment(call.phase.issued, call.key));
    var kept := w.(enrollments := after.enrollments);
    assert ResultsRecord(kept) && CallsFaithful(kept);
    forall other | other in after.enrolls ensures Faithful(after.enrollments, after.enrolls[other]) {
      assert other != id ==> after.enrolls[other] == kept.enrolls[other];
    }
    forall c | c in after.db.results ensures Records(after.enrollments, c, after.db.results[c]) {
      assert c != call.code ==> after.db.results[c] == kept.db.results[c];
    }
  }

  lemma PersistingKeepsAgreed(w: World, id: nat, serial: nat)
    requires Agreed(w) && id in w.enrolls && w.enrolls[id].phase.Committing?
    requires EnrollStep(w.db, w.enrolls[id], serial).1.phase.Enrolled?
    ensures Agreed(DoEnroll(w, id, serial))
  {
    var after := DoEnroll(w, id, serial);
    EnrollKeepsBasic(w, id, serial);
    PersistingEffect(w, id, serial);
    PersistedStayFaithful(w, after, id, serial);
    forall c | c in after.enrollments ensures SoleEnrollment(after, c) {
      PersistedAreSole(w, after, id, serial, c);
    }
  }

  lemma OthersStaySole(w: World, after: World, code: Code, c: Code)
    requires c in w.enrollments && SoleEnrollment(w, c) && c != code
    requires after.codeNode == w.codeNode && after.signed == w.signed
    requires c in after.enrollments && after.enrollments[c] == w.enrollments[c]
    requires c in after.db.codes ==> c in w.db.codes && after.db.codes[c] == w.db.codes[c]
    ensures SoleEnrollment(after, c)
  {
  }

  lemma FailedCommitKeepsAgreed(w: World, id: nat, serial: nat)
    requires Agreed(w) && id in w.enrolls && w.enrolls[id].phase.Committing?
    requires EnrollStep(w.db, w.enrolls[id], serial).1.phase.SecondReplay?
    ensures Agreed(DoEnroll(w, id, serial))
  {
    EnrollKeepsBasic(w, id, serial);
    var after := DoEnroll(w, id, serial);
    assert after.db == w.db && after.enrollments == w.enrollments && after.codeNode == w.codeNode;
    assert forall s :: s in w.signed ==> s in after.signed && after.signed[s] == w.signed[s];
    assert forall c :: c in w.enrollments ==> SoleEnrollment(w, c);
  }

  lemma EnrollReadsFaithfully(w: World, id: nat, serial: nat)
    requires Agreed(w) && id in w.enrolls && !w.enrolls[id].phase.Committing?
    ensures Faithful(w.enrollments, EnrollStep(w.db, w.enrolls[id], serial).1)
  {
    var call := w.enrolls[id];
    assert Faithful(w.enrollments, call);
    if call.code in w.db.results {
      assert Records(w.enrollments, call.code, w.db.results[call.code]);
    }
  }

  lemma ReadKeepsAgreed(w: World, id: nat, serial: nat)
    requires Agreed(w) && CanStepEnroll(w, id, serial) && !w.enrolls[id].phase.Committing?
    ensures Agreed(DoEnroll(w, id, serial))
  {
    EnrollKeepsBasic(w, id, serial);
    EnrollReadsFaithfully(w, id, serial);
    var after := DoEnroll(w, id, serial);
    assert after.db == w.db && after.enrollments == w.enrollments && after.codeNode == w.codeNode;
    assert forall s :: s in w.signed ==> s in after.signed && after.signed[s] == w.signed[s];
    assert forall c :: c in w.enrollments ==> SoleEnrollment(w, c);
  }

  lemma CreateCodeKeepsAgreed(w: World, node: NodeId, code: Code, now: Instant)
    requires Agreed(w)
    ensures Agreed(DoCreateCode(w, node, code, now))
  {
    CreateCodeKeepsBasic(w, node, code, now);
    if code !in w.codeNode {
      CreateCodeEffect(w.db, node, code, now + CODE_LIFETIME);
      forall c | c in w.enrollments ensures SoleEnrollment(DoCreateCode(w, node, code, now), c) {
        assert SoleEnrollment(w, c);
      }
    }
  }

  /** Nothing else writes results, codes or enrollment calls, except that removing a node deletes rows. */
  ghost predicate LeavesEnrollment(w: World, after: World) {
    && after.codeNode == w.codeNode && after.enrollments == w.enrollments
    && (forall s :: s in w.signed ==> s in after.signed && after.signed[s] == w.signed[s])
    && (forall c :: c in after.db.codes ==> c in w.db.codes && after.db.codes[c] == w.db.codes[c])
    && (forall c :: c in after.db.results ==> c in w.db.results && after.db.results[c] == w.db.results[c])
    && (forall id :: id in after.enrolls ==>
          || (id in w.enrolls && after.enrolls[id] == w.enrolls[id])
          || after.enrolls[id].phase == ReplayLookup)
  }

  lemma LeavingKeepsAgreed(w: World, after: World)
    requires Agreed(w) && Basic(after) && LeavesEnrollment(w, after)
    ensures Agreed(after)
  {
    forall c | c in w.enrollments ensures SoleEnrollment(after, c) {
      assert SoleEnrollment(w, c);
    }
  }

  lemma CreateNodeLeavesEnrollment(w: World, id: NodeId, name: string, at: Instant)
    ensures LeavesEnrollment(w, DoCreateNode(w, id, name, at))
  {
    var after := DoCreateNode(w, id, name, at);
    if id !in w.everNodes {
      CreateNodeEffect(w.db, id, name, at);
      assert after.db == Database.CreateNode(w.db, id, name, at).db;
    }
    assert after.db.codes == w.db.codes && after.db.results == w.db.results;
    assert after.enrolls == w.enrolls && after.signed == w.signed;
  }

  lemma RetiringLeavesEnrollment(w: World, id: NodeId, at: Instant)
    ensures LeavesEnrollment(w, DoDisableNode(w, id, at))
    ensures LeavesEnrollment(w, DoRemoveNode(w, id))
  {
  }

  lemma BeginningLeavesEnrollment(w: World, id: nat, code: Code, key: PublicKey, now: Instant)
    ensures LeavesEnrollment(w, DoBeginEnroll(w, id, code, key, now))
  {
    var after := DoBeginEnroll(w, id, code, key, now);
    assert after.db == w.db && after.codeNode == w.codeNode && after.enrollments == w.enrollments;
    if id !in w.enrolls {
      assert after.enrolls == w.enrolls[id := EnrollCall(code, key, now, ReplayLookup)];
    }
  }

  lemma RenewLeavesEnrollment(w: World, id: nat, serial: nat)
    requires CanStepRenew(w, id, serial)
    ensures LeavesEnrollment(w, DoRenew(w, id, serial))
  {
    var after := DoRenew(w, id, serial);
    assert after.db.codes == w.db.codes && after.db.results == w.db.results;
  }

  lemma ReportLeavesEnrollment(w: World, id: nat, admitted: bool)
    requires id in w.reports
    ensures LeavesEnrollment(w, DoReport(w, id, admitted))
  {
    var after := DoReport(w, id, admitted);
    assert after.db.codes == w.db.codes && after.db.results == w.db.results;
  }

  lemma OtherActionsLeaveEnrollment(w: World, a: Action)
    requires !a.StepEnroll? && !a.CreateCode?
    ensures LeavesEnrollment(w, Do(w, a))
  {
    match a
    case CreateNode(id, name, at) => CreateNodeLeavesEnrollment(w, id, name, at);
    case DisableNode(id, at) => RetiringLeavesEnrollment(w, id, at);
    case RemoveNode(id) => RetiringLeavesEnrollment(w, id, 0);
    case BeginEnroll(id, code, key, now) => BeginningLeavesEnrollment(w, id, code, key, now);
    case StepRenew(id, serial) => if CanStepRenew(w, id, serial) { RenewLeavesEnrollment(w, id, serial); }
    case StepReport(id, admitted) => if id in w.reports { ReportLeavesEnrollment(w, id, admitted); }
    case PurgeSamples(_) | PruneOldest(_) | BeginRenew(_, _, _, _) | BeginReport(_, _, _, _) =>
      UnrelatedLeavesEnrollment(w, a);
  }

  lemma UnrelatedLeavesEnrollment(w: World, a: Action)
    requires a.PurgeSamples? || a.PruneOldest? || a.BeginRenew? || a.BeginReport?
    ensures LeavesEnrollment(w, Do(w, a))
  {
    if a.PurgeSamples? || a.PruneOldest? {
      assert Do(w, a).db == w.db.(samples := Do(w, a).db.samples);
    } else {
      assert Do(w, a).db == w.db;
    }
    SameEnrollment(w, Do(w, a));
  }

  lemma SameEnrollment(w: World, after: World)
    requires after.db.codes == w.db.codes && after.db.results == w.db.results && after.enrolls == w.enrolls
    requires after.codeNode == w.codeNode && after.enrollments == w.enrollments && after.signed == w.signed
    ensures LeavesEnrollment(w, after)
  {
  }

  lemma StepEnrollKeepsAgreed(w: World, id: nat, serial: nat)
    requires Agreed(w) && CanStepEnroll(w, id, serial)
    ensures Agreed(DoEnroll(w, id, serial))
  {
    if !w.enrolls[id].phase.Committing? {
      ReadKeepsAgreed(w, id, serial);
    } else if EnrollStep(w.db, w.enrolls[id], serial).1.phase.Enrolled? {
      PersistingKeepsAgreed(w, id, serial);
    } else {
      FailedCommitKeepsAgreed(w, id, serial);
    }
  }

  lemma DoKeepsAgreed(w: World, a: Action)
    requires Agreed(w)
    ensures Agreed(Do(w, a))
  {
    match a
    case StepEnroll(id, serial) => if CanStepEnroll(w, id, serial) { StepEnrollKeepsAgreed(w, id, serial); }
    case CreateCode(node, code, now) => CreateCodeKeepsAgreed(w, node, code, now);
    case _ =>
      DoKeepsBasic(w, a);
      OtherActionsLeaveEnrollment(w, a);
      LeavingKeepsAgreed(w, Do(w, a));
  }

  lemma {:induction false} RunKeepsAgreed(w: World, actions: seq<Action>)
    requires Agreed(w)
    ensures Agreed(Run(w, actions))
    decreases |actions|
  {
    if actions != [] {
      var init := actions[..|actions| - 1];
      RunKeepsAgreed(w, init);
      DoKeepsAgreed(Run(w, init), actions[|actions| - 1]);
    }
  }

  // ---- Main results ----

  ghost predicate Succeeded(w: World, id: nat) {
    id in w.enrolls && w.enrolls[id].phase.Enrolled? && w.enrolls[id].phase.outcome.Ok?
  }

  /** In every run, however interleaved, a code persists at most one certificate. */
  lemma OneCertificatePerCode(actions: seq<Action>, code: Code)
    ensures |HistoryOf(After(actions).enrollments, code)| <= 1
  {
    RunKeepsAgreed(INITIAL, actions);
    var w := After(actions);
    if code in w.enrollments {
      assert SoleEnrollment(w, code);
    }
  }

  /**
   In every run, any two enrollment calls that succeed with one code answer with the same certificate and
   serial, for the same public key, and with expiries that differ only below a millisecond.
   */
  lemma EnrollmentsAgree(actions: seq<Action>, i: nat, j: nat)
    requires Succeeded(After(actions), i) && Succeeded(After(actions), j)
    requires After(actions).enrolls[i].code == After(actions).enrolls[j].code
    ensures
      var a, b := After(actions).enrolls[i], After(actions).enrolls[j];
      && SameIssue(a.phase.outcome.value, b.phase.outcome.value)
      && a.key == b.key == a.phase.outcome.value.certificate.publicKey
      && a.code in After(actions).codeNode
      && a.phase.outcome.value.certificate.commonName == After(actions).codeNode[a.code]
  {
    RunKeepsAgreed(INITIAL, actions);
    var w := After(actions);
    assert Faithful(w.enrollments, w.enrolls[i]);
    assert Faithful(w.enrollments, w.enrolls[j]);
    assert SoleEnrollment(w, w.enrolls[i].code);
  }
}
