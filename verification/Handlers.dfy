/**
 Requests in progress. A request captures the time once, when it starts, and then runs through its
 phases; each phase is one atomic store access, and other requests may run between any two of them.
 */
module Handlers {
  import opened Common
  import opened Database
  import opened Identity

  const CODE_LIFETIME: Instant := 10 * MINUTE

  // ---- Enrollment ----

  datatype EnrollPhase =
    | ReplayLookup
    | CheckActive(replay: ResultRow)
    | CodeLookup
    | Issuing(node: NodeId)
    | Committing(issued: Issued)
    | SecondReplay(error: Error)
    | Enrolled(outcome: Result<Issued>)

  datatype EnrollCall = EnrollCall(code: Code, key: PublicKey, now: Instant, phase: EnrollPhase)

  /** The next phase of an enrollment; `serial` is drawn by the phase that issues the certificate. */
  function EnrollStep(db: Db, call: EnrollCall, serial: nat): (Db, EnrollCall) {
    match call.phase
    case ReplayLookup =>
      var replay := EnrollmentReplay(db, call.code, call.key);
      (db, call.(phase := if replay.Ok? then CheckActive(replay.value)
                          else if replay.error == ReplayNotFound then CodeLookup
                          else Enrolled(Err(replay.error))))
    case CheckActive(replay) =>
      var active := NodeForCertificate(db, replay.serial, call.now);
      (db, call.(phase := Enrolled(if active.Err? then Err(active.error) else Ok(Replayed(replay)))))
    case CodeLookup =>
      var node := NodeForEnrollmentCode(db, call.code, call.now);
      (db, call.(phase := if node.Ok? then Issuing(node.value) else Enrolled(Err(node.error))))
    case Issuing(node) =>
      (db, call.(phase := Committing(IssueFor(node, call.key, serial, call.now))))
    case Committing(issued) =>
      var tx := EnrollCertificate(db, call.code, issued.serial, issued.certificate, call.key, call.now, issued.notAfter);
      (tx.db, call.(phase := if tx.answer.Ok? then Enrolled(Ok(issued)) else SecondReplay(tx.answer.error)))
    case SecondReplay(error) =>
      var replay := EnrollmentReplay(db, call.code, call.key);
      (db, call.(phase := Enrolled(if replay.Ok? then Ok(Replayed(replay.value)) else Err(error))))
    case Enrolled(_) => (db, call)
  }

  function PhasesLeft(phase: EnrollPhase): nat {
    match phase
    case ReplayLookup => 5
    case CodeLookup => 4
    case Issuing(_) => 3
    case Committing(_) => 2
    case CheckActive(_) => 1
    case SecondReplay(_) => 1
    case Enrolled(_) => 0
  }

  /** A call that nothing interrupts. */
  function EnrollAlone(db: Db, call: EnrollCall, serial: nat): (Db, Result<Issued>)
    decreases PhasesLeft(call.phase)
  {
    if call.phase.Enrolled? then (db, call.phase.outcome)
    else
      var next := EnrollStep(db, call, serial);
      EnrollAlone(next.0, next.1, serial)
  }

  /** The lookups of an enrollment that nothing interrupts, up to the certificate that it will commit. */
  lemma LookupAlone(db: Db, code: Code, key: PublicKey, now: Instant, serial: nat)
    ensures
      var start := EnrollCall(code, key, now, ReplayLookup);
      var replay, node := EnrollmentReplay(db, code, key), NodeForEnrollmentCode(db, code, now);
      EnrollAlone(db, start, serial)
        == if replay.Ok? then
             (db, var active := NodeForCertificate(db, replay.value.serial, now);
                  if active.Err? then Err(active.error) else Ok(Replayed(replay.value)))
           else if replay.error != ReplayNotFound then (db, Err(replay.error))
           else if node.Err? then (db, Err(node.error))
           else EnrollAlone(db, start.(phase := Committing(IssueFor(node.value, key, serial, now))), serial)
  {
    var start := EnrollCall(code, key, now, ReplayLookup);
    var next := EnrollStep(db, start, serial).1;
    assert EnrollAlone(db, start, serial) == EnrollAlone(db, next, serial);
    if next.phase.CheckActive? {
      var last := EnrollStep(db, next, serial).1;
      assert EnrollAlone(db, next, serial) == EnrollAlone(db, last, serial);
    } else if next.phase.CodeLookup? {
      var issuing := EnrollStep(db, next, serial).1;
      assert EnrollAlone(db, next, serial) == EnrollAlone(db, issuing, serial);
      if issuing.phase.Issuing? {
        assert EnrollAlone(db, issuing, serial) == EnrollAlone(db, EnrollStep(db, issuing, serial).1, serial);
      }
    }
  }

  /** The commit of an enrollment that nothing interrupts, and its second look for a result. */
  lemma EnrollCommitAlone(db: Db, call: EnrollCall, serial: nat)
    requires call.phase.Committing?
    ensures
      var issued := call.phase.issued;
      var tx := EnrollCertificate(db, call.code, issued.serial, issued.certificate, call.key, call.now, issued.notAfter);
      var second := EnrollmentReplay(tx.db, call.code, call.key);
      EnrollAlone(db, call, serial)
        == (tx.db, if tx.answer.Ok? then Ok(issued)
                   else if second.Ok? then Ok(Replayed(second.value))
                   else Err(tx.answer.error))
  {
    var next := EnrollStep(db, call, serial);
    assert EnrollAlone(db, call, serial) == EnrollAlone(next.0, next.1, serial);
    if next.1.phase.SecondReplay? {
      var last := EnrollStep(next.0, next.1, serial);
      assert EnrollAlone(next.0, next.1, serial) == EnrollAlone(last.0, last.1, serial);
    }
  }

  // ---- Renewal ----

  datatype RenewPhase =
    | Identifying(credential: Credential)
    | IssuingRenewal(client: Client)
    | CommittingRenewal(client: Client, issued: Issued)
    | Renewed(renewal: Result<Issued>)

  datatype RenewCall = RenewCall(key: PublicKey, now: Instant, phase: RenewPhase)

  function RenewStep(db: Db, signed: Signatures, call: RenewCall, serial: nat): (Db, RenewCall) {
    match call.phase
    case Identifying(credential) =>
      var client := Identify(db, signed, credential, call.now);
      (db, call.(phase := if client.Ok? then IssuingRenewal(client.value) else Renewed(Err(client.error))))
    case IssuingRenewal(client) =>
      (db, call.(phase := CommittingRenewal(client, IssueFor(client.node, call.key, serial, call.now))))
    case CommittingRenewal(client, issued) =>
      var tx := RenewCertificate(db, client.serial, issued.serial, call.now, issued.notAfter);
      (tx.db, call.(phase := Renewed(if tx.answer.Ok? then Ok(issued) else Err(tx.answer.error))))
    case Renewed(_) => (db, call)
  }

  function RenewAlone(db: Db, signed: Signatures, call: RenewCall, serial: nat): (Db, Result<Issued>)
    decreases match call.phase case Identifying(_) => 3 case IssuingRenewal(_) => 2 case CommittingRenewal(_, _) => 1 case Renewed(_) => 0
  {
    if call.phase.Renewed? then (db, call.phase.renewal)
    else
      var next := RenewStep(db, signed, call, serial);
      RenewAlone(next.0, signed, next.1, serial)
  }

  /** The last phase of a renewal that nothing interrupts. */
  lemma CommitAlone(db: Db, signed: Signatures, call: RenewCall, serial: nat)
    requires call.phase.CommittingRenewal?
    ensures
      var issued := call.phase.issued;
      var tx := RenewCertificate(db, call.phase.client.serial, issued.serial, call.now, issued.notAfter);
      RenewAlone(db, signed, call, serial) == (tx.db, if tx.answer.Ok? then Ok(issued) else Err(tx.answer.error))
  {
    var next := RenewStep(db, signed, call, serial);
    assert RenewAlone(next.0, signed, next.1, serial) == (next.0, next.1.phase.renewal);
  }

  /** The first two phases of a renewal, for a client that is identified. */
  lemma IssueAlone(db: Db, signed: Signatures, credential: Credential, key: PublicKey, now: Instant, serial: nat)
    ensures
      var start, client := RenewCall(key, now, Identifying(credential)), Identify(db, signed, credential, now);
      RenewAlone(db, signed, start, serial)
        == if client.Err? then (db, Err(client.error))
           else RenewAlone(db, signed, RenewCall(key, now, CommittingRenewal(client.value,
                                                   IssueFor(client.value.node, key, serial, now))), serial)
  {
    var start := RenewCall(key, now, Identifying(credential));
    var next := RenewStep(db, signed, start, serial).1;
    assert RenewAlone(db, signed, start, serial) == RenewAlone(db, signed, next, serial);
    if next.phase.IssuingRenewal? {
      var last := RenewStep(db, signed, next, serial).1;
      assert RenewAlone(db, signed, next, serial) == RenewAlone(db, signed, last, serial);
    }
  }

  // ---- Reports ----

  datatype ReportPhase =
    | Authenticating(credential: Credential)
    | Recording
    | Answered(answer: Result<()>)

  datatype ReportCall = ReportCall(report: Report, now: Instant, phase: ReportPhase)

  /** Authentication, body validation and the node match come first; the limiter decides before the store. */
  function ReportStep(db: Db, signed: Signatures, call: ReportCall, admitted: bool): (Db, ReportCall) {
    match call.phase
    case Authenticating(credential) =>
      var client := Identify(db, signed, credential, call.now);
      (db, call.(phase := if client.Err? then Answered(Err(client.error))
                          else if !ValidReport(call.report) then Answered(Err(BadInput))
                          else if call.report.node != client.value.node then Answered(Err(Unverified))
                          else Recording))
    case Recording =>
      if !admitted then (db, call.(phase := Answered(Err(RateLimited))))
      else
        var tx := RecordReport(db, call.report, call.now);
        (tx.db, call.(phase := Answered(tx.answer)))
    case Answered(_) => (db, call)
  }
}
