/** When the agent thinks a renewal is due, and when the server does. */
module RenewalWindow {
  import opened Common
  import opened Database
  import opened Protocol
  import opened Invariants
  import Agreement

  const RENEWAL_WINDOW: Instant := 604_800_000_000_000

  datatype AgentView = Expired | NotDue | Due

  /** The agent reads the expiry in the certificate, which has lost the part below a second. */
  function ExpiryRead(certificate: Certificate): Instant {
    certificate.notAfter * NANOS_PER_SECOND
  }

  function FirstDue(certificate: Certificate): Instant {
    ExpiryRead(certificate) - RENEWAL_WINDOW
  }

  function Decide(certificate: Certificate, now: Instant): AgentView {
    if now >= ExpiryRead(certificate) then Expired
    else if ExpiryRead(certificate) > now + RENEWAL_WINDOW then NotDue
    else Due
  }

  /** By how much the server's copy of the expiry, kept in milliseconds, is later. */
  function Lag(certificate: Certificate, row: CertRow): Instant {
    FromMillis(row.expiresAt) - ExpiryRead(certificate)
  }

  lemma LagIsBelowASecond(certificate: Certificate, row: CertRow)
    requires certificate.notAfter == row.expiresAt / MILLIS_PER_SECOND
    ensures 0 <= Lag(certificate, row) <= 999 * NANOS_PER_MILLI
    ensures forall t: Instant :: ToMillis(t) >= row.expiresAt <==> t >= ExpiryRead(certificate) + Lag(certificate, row)
  {
    assert row.expiresAt == row.expiresAt / 1000 * 1000 + row.expiresAt % 1000;
  }

  /** The lag is the part of the issue time below a second, in whole milliseconds; it is there unless that is zero. */
  lemma LagIsIssueFraction(node: NodeId, key: PublicKey, serial: nat, now: Instant)
    ensures
      var issued := IssueFor(node, key, serial, now);
      var row := CertRow(node, ToMillis(now), ToMillis(issued.notAfter), None);
      Lag(issued.certificate, row) == ToMillis(now) % MILLIS_PER_SECOND * NANOS_PER_MILLI
  {
    IssueIsBacked(node, key, serial, now);
    var issued := IssueFor(node, key, serial, now);
    assert ToMillis(issued.notAfter) == ToMillis(now) + 2_592_000_000;
  }

  /**
   In every run, for every stored certificate and at every instant: agent and server agree, but for the lag
   after the first due instant, when the agent asks and the server finds it too early, and the lag after the
   expiry that the agent reads, when the server would still renew.
   */
  lemma WindowsAgree(actions: seq<Action>, s: Serial, now: Instant)
    requires s in After(actions).db.certs
    ensures s in After(actions).signed
    ensures
      var certificate, row := After(actions).signed[s], After(actions).db.certs[s];
      var lag, due, expired := Lag(certificate, row), RenewalDue(row.expiresAt, now), ToMillis(now) >= row.expiresAt;
      && 0 <= lag < NANOS_PER_SECOND
      && match Decide(certificate, now)
         case NotDue => !due && !expired
         case Due => !expired && (due <==> now >= FirstDue(certificate) + lag)
         case Expired => due && (expired <==> now >= ExpiryRead(certificate) + lag)
  {
    Agreement.RunKeepsAgreed(INITIAL, actions);
    assert Backs(After(actions).signed[s], s, After(actions).db.certs[s]);
    ViewsAgree(After(actions).signed[s], After(actions).db.certs[s], now);
  }

  lemma ViewsAgree(certificate: Certificate, row: CertRow, now: Instant)
    requires certificate.notAfter == row.expiresAt / MILLIS_PER_SECOND
    ensures
      var lag, due, expired := Lag(certificate, row), RenewalDue(row.expiresAt, now), ToMillis(now) >= row.expiresAt;
      && 0 <= lag < NANOS_PER_SECOND
      && match Decide(certificate, now)
         case NotDue => !due && !expired
         case Due => !expired && (due <==> now >= FirstDue(certificate) + lag)
         case Expired => due && (expired <==> now >= ExpiryRead(certificate) + lag)
  {
    LagIsBelowASecond(certificate, row);
  }

  /** Nothing but its time can end the certificate's use. */
  ghost predicate Unrevoked(db: Db, s: Serial)
    requires s in db.certs
  {
    db.certs[s].revokedAt.None? && db.certs[s].node in db.nodes && !db.nodes[db.certs[s].node].disabled
  }

  /**
   What becomes of a request that the agent sent when due, handled then or at any later time, if the certificate
   is not revoked by then: "not due" exactly within the lag, less than a second, after the first due instant, and
   "expired" exactly once the expiry that the agent reads and the lag are past, which is never at the instant of
   asking.
   */
  lemma AskingIsAnswered(actions: seq<Action>, s: Serial, asked: Instant, handled: Instant, serial: Serial,
                         expiresAt: Instant)
    requires s in After(actions).db.certs && s in After(actions).signed
    requires Decide(After(actions).signed[s], asked).Due? && asked <= handled
    ensures
      var db, certificate := After(actions).db, After(actions).signed[s];
      var lag, answer := Lag(certificate, db.certs[s]), RenewCertificate(db, s, serial, handled, expiresAt).answer;
      && 0 <= lag < NANOS_PER_SECOND
      && (answer == Err(CertificateExpired) <==> Unrevoked(db, s) && handled >= ExpiryRead(certificate) + lag)
      && (answer == Err(RenewalNotDue) <==> Unrevoked(db, s) && handled < FirstDue(certificate) + lag)
      && (handled == asked ==> answer != Err(CertificateExpired))
  {
    WindowsAgree(actions, s, handled);
  }
}
