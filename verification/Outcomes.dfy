/** What each operation of the store does to every row, and when it does it. */
module Outcomes {
  import opened Common
  import opened Numerals
  import opened Database

  predicate IsEnabled(db: Db, node: NodeId) {
    node in db.nodes && !db.nodes[node].disabled
  }

  lemma CreateNodeOutcome(db: Db, id: NodeId, name: string, at: Instant)
    ensures
      var (after, answer) := (CreateNode(db, id, name, at).db, CreateNode(db, id, name, at).answer);
      var trimmed := TrimSpace(name);
      && (answer.Ok? <==> trimmed != "" && Utf8Length(trimmed) <= 128 && |db.nodes| < 50 && id !in db.nodes)
      && (answer.Ok? ==> answer.value == id
                         && after == db.(nodes := db.nodes[id := NodeRow(trimmed, at / 1_000_000, None, false)]))
      && (answer == Err(BadInput) <==> trimmed == "" || Utf8Length(trimmed) > 128)
      && (answer == Err(NodeLimit) ==> |db.nodes| >= 50)
      && (answer.Err? ==> after == db)
  {
  }

  /** The node stays, disabled, and each of its certificates that was not revoked is revoked now. */
  lemma DisableNodeOutcome(db: Db, node: NodeId, at: Instant)
    ensures
      var (after, answer) := (DisableNode(db, node, at).db, DisableNode(db, node, at).answer);
      && (answer.Ok? <==> node in db.nodes) && (answer.Err? ==> after == db && answer.error == NodeNotFound)
      && after == db.(nodes := after.nodes, certs := after.certs)
      && after.certs.Keys == db.certs.Keys && after.nodes.Keys == db.nodes.Keys
      && (forall n :: n in db.nodes ==>
            after.nodes[n] == if n == node then db.nodes[n].(disabled := true) else db.nodes[n])
      && (forall s :: s in db.certs ==>
            after.certs[s] == if answer.Ok? && db.certs[s].node == node && db.certs[s].revokedAt.None?
                              then db.certs[s].(revokedAt := Some(at / 1_000_000)) else db.certs[s])
  {
  }

  /** Exactly the node's own rows go, from every table. */
  lemma RemoveNodeOutcome(db: Db, node: NodeId)
    requires WellFormed(db)
    ensures
      var (after, answer) := (RemoveNode(db, node).db, RemoveNode(db, node).answer);
      && (answer.Ok? <==> node in db.nodes) && (answer.Err? ==> after == db && answer.error == NodeNotFound)
      && after.nextSample == db.nextSample
      && (forall n :: n in after.nodes <==> n in db.nodes && n != node)
      && (forall n :: n in after.nodes ==> after.nodes[n] == db.nodes[n])
      && (forall c :: c in after.codes <==> c in db.codes && db.codes[c].node != node)
      && (forall c :: c in after.codes ==> after.codes[c] == db.codes[c])
      && (forall c :: c in after.results <==> c in db.results && db.results[c].node != node)
      && (forall c :: c in after.results ==> after.results[c] == db.results[c])
      && (forall s :: s in after.certs <==> s in db.certs && db.certs[s].node != node)
      && (forall s :: s in after.certs ==> after.certs[s] == db.certs[s])
      && (forall i :: i in after.samples <==> i in db.samples && db.samples[i].node != node)
      && (forall i :: i in after.samples ==> after.samples[i] == db.samples[i])
  {
  }

  /** The node's previous code is gone, used or not; the new one opens the node until its time, and not after. */
  lemma CreateCodeOutcome(db: Db, node: NodeId, code: Code, expiresAt: Instant, at: Instant)
    ensures
      var (after, answer) := (CreateEnrollmentCode(db, node, code, expiresAt).db,
                              CreateEnrollmentCode(db, node, code, expiresAt).answer);
      && (answer.Ok? <==> IsEnabled(db, node) && (code in db.codes ==> db.codes[code].node == node))
      && (answer == Err(NodeNotFound) <==> node !in db.nodes)
      && (answer == Err(NodeDisabled) <==> node in db.nodes && db.nodes[node].disabled)
      && after == db.(codes := after.codes) && (answer.Err? ==> after == db)
      && (answer.Ok? ==>
            && (forall c :: c in after.codes <==> c == code || (c in db.codes && db.codes[c].node != node))
            && (forall c :: c in after.codes && c != code ==> after.codes[c] == db.codes[c])
            && after.codes[code] == CodeRow(node, expiresAt / 1_000_000, None)
            && NodeForEnrollmentCode(after, code, at)
               == if at / 1_000_000 < expiresAt / 1_000_000 then Ok(node) else Err(CodeExpired))
  {
  }

  /** A commit needs an unused code in its time, of an enabled node, and writes exactly three rows. */
  lemma EnrollOutcome(db: Db, code: Code, serial: Serial, certificate: Certificate, key: PublicKey,
                      issuedAt: Instant, expiresAt: Instant)
    ensures
      var (after, answer) := (EnrollCertificate(db, code, serial, certificate, key, issuedAt, expiresAt).db,
                              EnrollCertificate(db, code, serial, certificate, key, issuedAt, expiresAt).answer);
      && (answer.Ok? <==>
            && code in db.codes && db.codes[code].usedAt.None? && issuedAt / 1_000_000 < db.codes[code].expiresAt
            && IsEnabled(db, db.codes[code].node) && serial !in db.certs && code !in db.results)
      && (answer.Err? ==> after == db)
      && (answer.Ok? ==>
            var node := db.codes[code].node;
            && answer.value == node
            && after == db.(certs := after.certs, results := after.results, codes := after.codes)
            && after.certs == db.certs[serial := CertRow(node, issuedAt / 1_000_000, expiresAt / 1_000_000, None)]
            && after.results == db.results[code := ResultRow(node, serial, certificate, key, expiresAt / 1_000_000)]
            && after.codes == db.codes[code := db.codes[code].(usedAt := Some(issuedAt / 1_000_000))])
  {
  }

  /** A renewal needs an active certificate in its last seven days, adds one row and revokes one. */
  lemma RenewOutcome(db: Db, current: Serial, serial: Serial, issuedAt: Instant, expiresAt: Instant)
    ensures
      var (after, answer) := (RenewCertificate(db, current, serial, issuedAt, expiresAt).db,
                              RenewCertificate(db, current, serial, issuedAt, expiresAt).answer);
      && (answer.Ok? <==>
            && current in db.certs && db.certs[current].revokedAt.None? && IsEnabled(db, db.certs[current].node)
            && issuedAt / 1_000_000 < db.certs[current].expiresAt
            && issuedAt >= db.certs[current].expiresAt * 1_000_000 - 604_800_000_000_000 && serial !in db.certs)
      && (answer.Err? ==> after == db)
      && (answer.Ok? ==>
            && answer.value == db.certs[current].node && after == db.(certs := after.certs)
            && after.certs
               == db.certs[serial := CertRow(answer.value, issuedAt / 1_000_000, expiresAt / 1_000_000, None)]
                    [current := db.certs[current].(revokedAt := Some(issuedAt / 1_000_000))])
  {
  }

  /** A report is recorded for an enabled node if its figures are valid, as one new row and perhaps a later time. */
  lemma RecordOutcome(db: Db, report: Report, receivedAt: Instant)
    ensures
      var (after, answer) := (RecordReport(db, report, receivedAt).db, RecordReport(db, report, receivedAt).answer);
      var (m, at) := (report.metrics, receivedAt / 1_000_000);
      && (answer.Ok? <==>
            && IsEnabled(db, report.node) && TrimSpace(report.node) != ""
            && 0.0 <= m.cpuPercent <= 100.0 && m.load1 >= 0.0 && m.ingress >= 0.0 && m.egress >= 0.0)
      && (answer == Err(NodeDisabled) ==> report.node in db.nodes && db.nodes[report.node].disabled)
      && (answer == Err(NodeNotFound) ==> report.node !in db.nodes)
      && (answer.Err? ==> after == db && answer.error in {BadInput, NodeNotFound, NodeDisabled})
      && (answer.Ok? ==>
            && after == db.(nodes := after.nodes, samples := after.samples, nextSample := db.nextSample + 1)
            && after.samples == db.samples[db.nextSample := SampleRow(report.node, at, m)]
            && after.nodes.Keys == db.nodes.Keys
            && (forall n :: n in db.nodes && n != report.node ==> after.nodes[n] == db.nodes[n])
            && var (was, now) := (db.nodes[report.node], after.nodes[report.node]);
            && now == was.(lastReportAt := now.lastReportAt) && now.lastReportAt.Some?
            && now.lastReportAt.value == if was.lastReportAt.Some? && was.lastReportAt.value > at
                                         then was.lastReportAt.value else at)
  {
  }

  /** Exactly the samples received before the cutoff go. */
  lemma PurgeOutcome(db: Db, cutoff: Instant)
    ensures
      var after := PurgeSamplesBefore(db, cutoff);
      && after == db.(samples := after.samples)
      && (forall i :: i in after.samples <==> i in db.samples && db.samples[i].receivedAt >= cutoff / 1_000_000)
      && (forall i :: i in after.samples ==> after.samples[i] == db.samples[i])
  {
  }
}
