/** What becomes of an agent whose renewal is a fraction of a second early. */
module EarlyRenewal {
  import opened Common
  import opened Numerals
  import opened Database
  import opened Identity
  import opened Handlers
  import opened Protocol
  import opened Invariants
  import opened Credentials
  import opened RenewalWindow
  import opened AgentRenewal
  import Agreement

  /** The handler's answer on the wire: "not due" is one of the answers sent as 401. */
  function OnWire(outcome: Result<Issued>, authority: Authority): Reply {
    match outcome
    case Ok(issued) => Material(issued.certificate, authority, true)
    case Err(Internal) => Refused(503)
    case Err(_) => Refused(401)
  }

  /** The files hold this certificate with its key. */
  predicate Holds(disk: Disk, certificate: Certificate) {
    Complete(disk) && disk.certificate == Some(certificate) && disk.key == Some(certificate.publicKey)
  }

  /** A refusal ends the agent's authentication, whatever its reason, but a failure of the server does not. */
  lemma FailureIsTrouble(disk: Disk, certificate: Certificate, now: Instant, at: Instant, error: Error)
    requires Holds(disk, certificate) && Decide(certificate, now).Due?
    ensures Attempt(disk, now, OnWire(Err(error), disk.authority.value), at)
         == if error == Internal then Trouble else Unauthenticated
  {
    AttemptMeans(disk, now, OnWire(Err(error), disk.authority.value), at);
  }

  lemma RenewAtOnce(db: Db, signed: Signatures, s: Serial, now: Instant, serial: nat)
    requires Backed(signed, db.certs) && s in db.certs && NodeForCertificate(db, s, now).Ok?
    requires SerialText(serial) !in signed && Decide(signed[s], now).Due?
    ensures
      var certificate := signed[s];
      var call := RenewCall(certificate.publicKey, now, Identifying(Direct(certificate)));
      RenewAlone(db, signed, call, serial).1
        == if now < FirstDue(certificate) + Lag(certificate, db.certs[s]) then Err(RenewalNotDue)
           else Ok(IssueFor(certificate.commonName, certificate.publicKey, serial, now))
  {
    var certificate, row := signed[s], db.certs[s];
    var key := certificate.publicKey;
    assert Backs(certificate, s, row);
    ViewsAgree(certificate, row, now);
    assert WithinValidity(certificate, now);
    var client := Client(row.node, s);
    assert Identify(db, signed, Direct(certificate), now) == Ok(client);
    assert SerialText(serial) !in db.certs;
    var issued := IssueFor(client.node, key, serial, now);
    IssueAlone(db, signed, Direct(certificate), key, now, serial);
    CommitAlone(db, signed, RenewCall(key, now, CommittingRenewal(client, issued)), serial);
  }

  lemma FreshCertificateIsAcceptable(node: NodeId, key: PublicKey, serial: nat, now: Instant)
    ensures Acceptable(IssueFor(node, key, serial, now).certificate, key, now)
  {
  }

  /** What the agent's attempt comes to when the server serves it at once. */
  function AttemptAtOnce(db: Db, signed: Signatures, certificate: Certificate, now: Instant, serial: nat, disk: Disk)
    : Outcome
    requires Holds(disk, certificate)
  {
    var call := RenewCall(certificate.publicKey, now, Identifying(Direct(certificate)));
    Attempt(disk, now, OnWire(RenewAlone(db, signed, call, serial).1, disk.authority.value), now)
  }

  lemma AttemptFollowsLag(db: Db, signed: Signatures, s: Serial, now: Instant, serial: nat, disk: Disk)
    requires Backed(signed, db.certs) && s in db.certs && NodeForCertificate(db, s, now).Ok?
    requires SerialText(serial) !in signed && Decide(signed[s], now).Due? && Holds(disk, signed[s])
    ensures AttemptAtOnce(db, signed, signed[s], now, serial, disk)
         == if now < FirstDue(signed[s]) + Lag(signed[s], db.certs[s]) then Unauthenticated else AgentRenewal.Renewed
  {
    RenewAtOnce(db, signed, s, now, serial);
    FreshCertificateIsAcceptable(signed[s].commonName, signed[s].publicKey, serial, now);
  }

  /**
   In every run, an agent with an active certificate that asks when it first finds it due, and is served at
   once, gets its renewal exactly if the lag is over; before that, the agent takes the 401 for the end of its
   authentication, and stops.
   */
  lemma EarlyRenewalStopsAgent(actions: seq<Action>, s: Serial, now: Instant, serial: nat, disk: Disk)
    requires s in After(actions).db.certs && s in After(actions).signed && Drawable(After(actions), serial)
    requires NodeForCertificate(After(actions).db, s, now).Ok? && Decide(After(actions).signed[s], now).Due?
    requires Holds(disk, After(actions).signed[s])
    ensures
      var w := After(actions);
      AttemptAtOnce(w.db, w.signed, w.signed[s], now, serial, disk)
        == if now < FirstDue(w.signed[s]) + Lag(w.signed[s], w.db.certs[s]) then Unauthenticated
           else AgentRenewal.Renewed
  {
    Agreement.RunKeepsAgreed(INITIAL, actions);
    AttemptFollowsLag(After(actions).db, After(actions).signed, s, now, serial, disk);
  }
}
