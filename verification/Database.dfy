/**
 The rows of the server's SQLite database and, for each store operation, the committed
 database and the answer that one atomic transaction produces from the database before it.
 A transaction that answers an error has rolled back.
 */
module Database {
  import opened Common
  import opened Numerals

  type NodeId = string
  type Code = string       // an enrollment code; the table keeps its hash, which is taken to be injective
  type Serial = string     // hexadecimal text of a certificate serial number
  type PublicKey = string

  const MAX_NODES := 50
  const CERTIFICATE_DAYS := 30
  const RENEWAL_DAYS := 7

  /** The signed content of a client certificate. X.509 keeps validity bounds in whole seconds. */
  datatype Certificate = Certificate(serial: nat, commonName: NodeId, publicKey: PublicKey,
                                     notBefore: int, notAfter: int)

  datatype Issued = Issued(certificate: Certificate, serial: Serial, notAfter: Instant)

  datatype Metrics = Metrics(cpuPercent: real, memoryUsed: nat, diskUsed: nat, load1: real,
                             ingress: real, egress: real)

  datatype Report = Report(node: NodeId, metrics: Metrics)

  datatype NodeRow = NodeRow(displayName: string, createdAt: Millis,
                             lastReportAt: Option<Millis>, disabled: bool)
  datatype CodeRow = CodeRow(node: NodeId, expiresAt: Millis, usedAt: Option<Millis>)
  datatype ResultRow = ResultRow(node: NodeId, serial: Serial, certificate: Certificate,
                                 publicKey: PublicKey, expiresAt: Millis)
  datatype CertRow = CertRow(node: NodeId, issuedAt: Millis, expiresAt: Millis,
                             revokedAt: Option<Millis>)
  datatype SampleRow = SampleRow(node: NodeId, receivedAt: Millis, metrics: Metrics)

  datatype Db = Db(nodes: map<NodeId, NodeRow>, codes: map<Code, CodeRow>,
                   results: map<Code, ResultRow>, certs: map<Serial, CertRow>,
                   samples: map<nat, SampleRow>, nextSample: nat)

  const EMPTY := Db(map[], map[], map[], map[], map[], 0)

  datatype Tx<+T> = Tx(db: Db, answer: Result<T>)

  // ---- Issuing ----

  /** What the certificate authority signs for a node at an instant, under a fresh serial number. */
  function IssueFor(node: NodeId, key: PublicKey, serial: nat, now: Instant): Issued {
    var expires := now + CERTIFICATE_DAYS * DAY;
    Issued(Certificate(serial, node, key, ToSeconds(now - 5 * MINUTE), ToSeconds(expires)),
           SerialText(serial), expires)
  }

  // ---- Nodes ----

  function CreateNode(db: Db, id: NodeId, name: string, at: Instant): Tx<NodeId> {
    var trimmed := TrimSpace(name);
    if trimmed == "" || Utf8Length(trimmed) > 128 then Tx(db, Err(BadInput))
    else if |db.nodes| >= MAX_NODES then Tx(db, Err(NodeLimit))
    else if id in db.nodes then Tx(db, Err(Internal))
    else Tx(db.(nodes := db.nodes[id := NodeRow(trimmed, ToMillis(at), None, false)]), Ok(id))
  }

  function RevokeAll(certs: map<Serial, CertRow>, node: NodeId, at: Millis): map<Serial, CertRow> {
    map s | s in certs ::
      if certs[s].node == node && certs[s].revokedAt == None then certs[s].(revokedAt := Some(at))
      else certs[s]
  }

  function DisableNode(db: Db, node: NodeId, at: Instant): Tx<()> {
    if node !in db.nodes then Tx(db, Err(NodeNotFound))
    else Tx(db.(nodes := db.nodes[node := db.nodes[node].(disabled := true)],
                certs := RevokeAll(db.certs, node, ToMillis(at))), Ok(()))
  }

  function CodesWithout(codes: map<Code, CodeRow>, node: NodeId): map<Code, CodeRow> {
    map c | c in codes && codes[c].node != node :: codes[c]
  }

  function ResultsWithout(results: map<Code, ResultRow>, node: NodeId): map<Code, ResultRow> {
    map c | c in results && results[c].node != node :: results[c]
  }

  function CertsWithout(certs: map<Serial, CertRow>, node: NodeId): map<Serial, CertRow> {
    map s | s in certs && certs[s].node != node :: certs[s]
  }

  function SamplesWithout(samples: map<nat, SampleRow>, node: NodeId): map<nat, SampleRow> {
    map i | i in samples && samples[i].node != node :: samples[i]
  }

  /** Deleting a node row cascades to every row that refers to it. */
  function RemoveNode(db: Db, node: NodeId): Tx<()> {
    if node !in db.nodes then Tx(db, Err(NodeNotFound))
    else Tx(Db(db.nodes - {node}, CodesWithout(db.codes, node), ResultsWithout(db.results, node),
               CertsWithout(db.certs, node), SamplesWithout(db.samples, node), db.nextSample), Ok(()))
  }

  // ---- Enrollment ----

  /** The node's previous code is deleted; a code that another node holds violates the primary key. */
  function CreateEnrollmentCode(db: Db, node: NodeId, code: Code, expiresAt: Instant): Tx<()> {
    if node !in db.nodes then Tx(db, Err(NodeNotFound))
    else if db.nodes[node].disabled then Tx(db, Err(NodeDisabled))
    else if code in CodesWithout(db.codes, node) then Tx(db, Err(Internal))
    else Tx(db.(codes := CodesWithout(db.codes, node)[code := CodeRow(node, ToMillis(expiresAt), None)]),
            Ok(()))
  }

  function NodeForEnrollmentCode(db: Db, code: Code, at: Instant): Result<NodeId> {
    if code !in db.codes then Err(CodeInvalid)
    else if db.codes[code].usedAt.Some? then Err(CodeUsed)
    else if ToMillis(at) >= db.codes[code].expiresAt then Err(CodeExpired)
    else Ok(db.codes[code].node)
  }

  function EnrollCertificate(db: Db, code: Code, serial: Serial, certificate: Certificate,
                             key: PublicKey, issuedAt: Instant, expiresAt: Instant): Tx<NodeId> {
    var found := NodeForEnrollmentCode(db, code, issuedAt);
    if found.Err? then Tx(db, found)
    else
      var node := found.value;
      if node !in db.nodes then Tx(db, Err(Internal))
      else if db.nodes[node].disabled then Tx(db, Err(NodeDisabled))
      else if serial in db.certs || code in db.results then Tx(db, Err(Internal))
      else
        var row := CertRow(node, ToMillis(issuedAt), ToMillis(expiresAt), None);
        var result := ResultRow(node, serial, certificate, key, ToMillis(expiresAt));
        Tx(db.(certs := db.certs[serial := row],
               results := db.results[code := result],
               codes := db.codes[code := db.codes[code].(usedAt := Some(ToMillis(issuedAt)))]),
           Ok(node))
  }

  function EnrollmentReplay(db: Db, code: Code, key: PublicKey): Result<ResultRow> {
    if code !in db.results then Err(ReplayNotFound)
    else if db.results[code].publicKey != key then Err(CodeUsed)
    else Ok(db.results[code])
  }

  /** What a stored enrollment result is sent back as: its expiry has lost the part below a millisecond. */
  function Replayed(row: ResultRow): Issued {
    Issued(row.certificate, row.serial, FromMillis(row.expiresAt))
  }

  // ---- Certificates ----

  function NodeForCertificate(db: Db, serial: Serial, at: Instant): Result<NodeId> {
    if serial !in db.certs || db.certs[serial].node !in db.nodes then Err(CertificateUnknown)
    else if db.certs[serial].revokedAt.Some? || db.nodes[db.certs[serial].node].disabled then
      Err(CertificateRevoked)
    else if ToMillis(at) >= db.certs[serial].expiresAt then Err(CertificateExpired)
    else Ok(db.certs[serial].node)
  }

  predicate RenewalDue(expiresAt: Millis, at: Instant) {
    at >= FromMillis(expiresAt) - RENEWAL_DAYS * DAY
  }

  function RenewCertificate(db: Db, current: Serial, serial: Serial, issuedAt: Instant,
                            expiresAt: Instant): Tx<NodeId> {
    var found := NodeForCertificate(db, current, issuedAt);
    if found.Err? then Tx(db, found)
    else if !RenewalDue(db.certs[current].expiresAt, issuedAt) then Tx(db, Err(RenewalNotDue))
    else if serial in db.certs then Tx(db, Err(Internal))
    else
      var row := CertRow(found.value, ToMillis(issuedAt), ToMillis(expiresAt), None);
      var revoked := db.certs[current].(revokedAt := Some(ToMillis(issuedAt)));
      Tx(db.(certs := db.certs[serial := row][current := revoked]), found)
  }

  // ---- Samples ----

  predicate ValidReport(report: Report) {
    && TrimSpace(report.node) != ""
    && 0.0 <= report.metrics.cpuPercent <= 100.0
    && 0.0 <= report.metrics.load1
    && 0.0 <= report.metrics.ingress
    && 0.0 <= report.metrics.egress
  }

  function LaterOf(last: Option<Millis>, at: Millis): Millis {
    if last == None || last.value < at then at else last.value
  }

  function RecordReport(db: Db, report: Report, receivedAt: Instant): Tx<()> {
    if !ValidReport(report) then Tx(db, Err(BadInput))
    else if report.node !in db.nodes then Tx(db, Err(NodeNotFound))
    else if db.nodes[report.node].disabled then Tx(db, Err(NodeDisabled))
    else
      var at := ToMillis(receivedAt);
      var row := db.nodes[report.node];
      Tx(db.(samples := db.samples[db.nextSample := SampleRow(report.node, at, report.metrics)],
             nextSample := db.nextSample + 1,
             nodes := db.nodes[report.node := row.(lastReportAt := Some(LaterOf(row.lastReportAt, at)))]),
         Ok(()))
  }

  function SamplesFrom(samples: map<nat, SampleRow>, cutoff: Millis): map<nat, SampleRow> {
    map i | i in samples && samples[i].receivedAt >= cutoff :: samples[i]
  }

  function PurgeSamplesBefore(db: Db, cutoff: Instant): Db {
    db.(samples := SamplesFrom(db.samples, ToMillis(cutoff)))
  }

  /** The order in which oversized databases lose their samples. */
  predicate Older(samples: map<nat, SampleRow>, i: nat, j: nat)
    requires i in samples && j in samples
  {
    || samples[i].receivedAt < samples[j].receivedAt
    || (samples[i].receivedAt == samples[j].receivedAt && i < j)
  }

  ghost predicate IsOldest(samples: map<nat, SampleRow>, i: nat) {
    i in samples && forall j :: j in samples && j != i ==> Older(samples, i, j)
  }

  ghost predicate IsLatestOf(samples: map<nat, SampleRow>, node: NodeId, i: nat) {
    && i in samples && samples[i].node == node
    && forall j :: j in samples && samples[j].node == node ==> samples[j].receivedAt <= samples[i].receivedAt
  }

  // ---- Constraints ----

  /** Foreign keys hold, a node has at most one code, row ids are below the next one, nodes are few. */
  ghost predicate WellFormed(db: Db) {
    && |db.nodes| <= MAX_NODES
    && (forall c :: c in db.codes ==> db.codes[c].node in db.nodes)
    && (forall c :: c in db.results ==> db.results[c].node in db.nodes)
    && (forall s :: s in db.certs ==> db.certs[s].node in db.nodes)
    && (forall i :: i in db.samples ==> db.samples[i].node in db.nodes && i < db.nextSample)
    && (forall c, d :: c in db.codes && d in db.codes && db.codes[c].node == db.codes[d].node ==> c == d)
  }

  lemma CreateNodeKeepsConstraints(db: Db, node: NodeId, name: string, at: Instant)
    requires WellFormed(db)
    ensures WellFormed(CreateNode(db, node, name, at).db)
  {
    CreateNodeEffect(db, node, name, at);
    var created := CreateNode(db, node, name, at).db;
    if created != db {
      InsertedSize(db.nodes, node, created.nodes[node]);
    }
  }

  lemma InsertedSize(nodes: map<NodeId, NodeRow>, node: NodeId, row: NodeRow)
    requires node !in nodes
    ensures |nodes[node := row]| == |nodes| + 1
  {
    assert nodes[node := row].Keys == nodes.Keys + {node};
    assert |nodes[node := row]| == |nodes[node := row].Keys| && |nodes| == |nodes.Keys|;
  }

  lemma CreateNodeEffect(db: Db, node: NodeId, name: string, at: Instant)
    ensures
      var created := CreateNode(db, node, name, at).db;
      && created == db.(nodes := created.nodes)
      && (forall n :: n in db.nodes ==> n in created.nodes && created.nodes[n] == db.nodes[n])
      && (forall n :: n in created.nodes && n !in db.nodes ==>
            n == node && created.nodes[n].lastReportAt.None? && !created.nodes[n].disabled)
  {
  }

  lemma DisableNodeKeepsConstraints(db: Db, node: NodeId, at: Instant)
    requires WellFormed(db)
    ensures WellFormed(DisableNode(db, node, at).db)
  {
    var disabled := DisableNode(db, node, at).db;
    assert disabled.nodes.Keys == db.nodes.Keys;
    assert |disabled.nodes| == |disabled.nodes.Keys| == |db.nodes.Keys|;
  }

  lemma RemoveNodeKeepsConstraints(db: Db, node: NodeId)
    requires WellFormed(db)
    ensures WellFormed(RemoveNode(db, node).db)
  {
    var removed := RemoveNode(db, node).db;
    if node in db.nodes {
      assert removed.nodes.Keys == db.nodes.Keys - {node};
      assert |removed.nodes| == |removed.nodes.Keys| == |db.nodes.Keys| - 1;
    }
  }

  lemma CreateCodeKeepsConstraints(db: Db, node: NodeId, code: Code, expiresAt: Instant)
    requires WellFormed(db)
    ensures WellFormed(CreateEnrollmentCode(db, node, code, expiresAt).db)
  {
  }

  lemma EnrollKeepsConstraints(db: Db, code: Code, serial: Serial, certificate: Certificate,
                               key: PublicKey, issuedAt: Instant, expiresAt: Instant)
    requires WellFormed(db)
    ensures WellFormed(EnrollCertificate(db, code, serial, certificate, key, issuedAt, expiresAt).db)
  {
  }

  lemma RenewKeepsConstraints(db: Db, current: Serial, serial: Serial, issuedAt: Instant, expiresAt: Instant)
    requires WellFormed(db)
    ensures WellFormed(RenewCertificate(db, current, serial, issuedAt, expiresAt).db)
  {
  }

  lemma RecordKeepsConstraints(db: Db, report: Report, receivedAt: Instant)
    requires WellFormed(db)
    ensures WellFormed(RecordReport(db, report, receivedAt).db)
  {
    var recorded := RecordReport(db, report, receivedAt).db;
    assert recorded.nodes.Keys == db.nodes.Keys;
    assert |recorded.nodes| == |recorded.nodes.Keys| == |db.nodes.Keys|;
  }
}
