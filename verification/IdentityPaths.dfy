/** The certificate itself and the serial that the proxy passes on identify the same node. */
module IdentityPaths {
  import opened Common
  import opened Numerals
  import opened Database
  import opened Identity
  import opened Protocol
  import opened Invariants
  import Agreement
  import Renewals

  /** What the proxy sends instead of the certificate: its serial in decimal. */
  function ByProxy(certificate: Certificate): Credential {
    Proxied(IntText(certificate.serial, 10))
  }

  /**
   In every run, for every stored certificate: the row's node is the certificate's common name, and the serial
   in decimal normalises to the row's key. Within the certificate's validity both paths answer the same, node
   or error. Outside it the direct path refuses, and the proxied path can accept only before the validity
   starts or during the last fraction of a second that X.509 cuts off.
   */
  lemma PathsAgree(actions: seq<Action>, s: Serial, now: Instant)
    requires s in After(actions).db.certs
    ensures
      var w := After(actions);
      s in w.signed &&
      var certificate := w.signed[s];
      var direct := Identify(w.db, w.signed, Direct(certificate), now);
      var proxied := Identify(w.db, w.signed, ByProxy(certificate), now);
      && NormalizeSerial(IntText(certificate.serial, 10)) == s
      && w.db.certs[s].node == certificate.commonName
      && (WithinValidity(certificate, now) ==> direct == proxied)
      && (!WithinValidity(certificate, now) ==> direct.Err?)
      && (!WithinValidity(certificate, now) && proxied.Ok? ==>
            || now < certificate.notBefore * NANOS_PER_SECOND
            || now < (certificate.notAfter + 1) * NANOS_PER_SECOND)
  {
    Agreement.RunKeepsAgreed(INITIAL, actions);
    PathsAgreeIn(After(actions).db, After(actions).signed, s, now);
  }

  lemma PathsAgreeIn(db: Db, signed: Signatures, s: Serial, now: Instant)
    requires Backed(signed, db.certs) && s in db.certs
    ensures s in signed
    ensures
      var certificate := signed[s];
      var direct := Identify(db, signed, Direct(certificate), now);
      var proxied := Identify(db, signed, ByProxy(certificate), now);
      && NormalizeSerial(IntText(certificate.serial, 10)) == s
      && db.certs[s].node == certificate.commonName
      && (WithinValidity(certificate, now) ==> direct == proxied)
      && (!WithinValidity(certificate, now) ==> direct.Err?)
      && (!WithinValidity(certificate, now) && proxied.Ok? ==>
            || now < certificate.notBefore * NANOS_PER_SECOND
            || now < (certificate.notAfter + 1) * NANOS_PER_SECOND)
  {
    var certificate := signed[s];
    assert Backs(certificate, s, db.certs[s]);
    DecimalSerialNormalizes(certificate.serial);
    NatTextParses(certificate.serial, 16);
    if Identify(db, signed, ByProxy(certificate), now).Ok? {
      assert ToMillis(now) < db.certs[s].expiresAt;
      BelowExpiry(now, db.certs[s].expiresAt);
    }
  }

  /**
   In every run, a client is identified only by the very certificate that was signed, or by its serial; only if that
   certificate is stored, the last of its line, of an enabled node and not expired; and as the node that it names.
   A certificate that is all this identifies its client: by its serial always, by itself within its validity.
   */
  lemma IdentityFollowsHistory(actions: seq<Action>, credential: Credential, s: Serial, now: Instant)
    ensures
      var w := After(actions);
      var found := Identify(w.db, w.signed, credential, now);
      found.Ok? ==>
        && Identifies(w, found.value.serial, now) && found.value.node == w.signed[found.value.serial].commonName
        && match credential
           case Direct(certificate) =>
             && certificate == w.signed[found.value.serial]
             && certificate.notBefore * 1_000_000_000 <= now <= certificate.notAfter * 1_000_000_000
           case Proxied(raw) => found.value.serial == NormalizeSerial(raw)
    ensures
      var w := After(actions);
      s in w.db.certs ==>
        && s in w.signed
        && (Identify(w.db, w.signed, ByProxy(w.signed[s]), now).Ok? <==> Identifies(w, s, now))
        && (Identify(w.db, w.signed, Direct(w.signed[s]), now).Ok?
            <==> && Identifies(w, s, now)
                 && w.signed[s].notBefore * 1_000_000_000 <= now <= w.signed[s].notAfter * 1_000_000_000)
  {
    Agreement.RunKeepsAgreed(INITIAL, actions);
    var w := After(actions);
    var found := Identify(w.db, w.signed, credential, now);
    if found.Ok? {
      IdentityIsBacked(w.db, w.signed, credential, now);
      FoundIsActive(w.db, w.signed, credential, now);
      Renewals.LookupFollowsHistory(actions, found.value.serial, now);
    }
    if s in w.db.certs {
      PathsAgreeIn(w.db, w.signed, s, now);
      Renewals.LookupFollowsHistory(actions, s, now);
      ProxyLooksUp(w.db, w.signed, s, now);
    }
  }

  /** The certificate is stored, the last of its line, of an enabled node, and its time is not over. */
  ghost predicate Identifies(w: World, s: Serial, now: Instant) {
    && s in w.db.certs && s in w.signed && Renewals.Current(w, s)
    && ToMillis(now) < w.db.certs[s].expiresAt
  }

  lemma FoundIsActive(db: Db, signed: Signatures, credential: Credential, now: Instant)
    ensures
      var found := Identify(db, signed, credential, now);
      found.Ok? ==>
        && NodeForCertificate(db, found.value.serial, now) == Ok(found.value.node)
        && match credential
           case Direct(certificate) =>
             && found.value.serial in signed && signed[found.value.serial] == certificate
             && WithinValidity(certificate, now)
           case Proxied(raw) => found.value.serial == NormalizeSerial(raw)
  {
  }

  lemma ProxyLooksUp(db: Db, signed: Signatures, s: Serial, now: Instant)
    requires Backed(signed, db.certs) && s in db.certs && s in signed
    ensures Identify(db, signed, ByProxy(signed[s]), now).Ok? <==> NodeForCertificate(db, s, now).Ok?
  {
    assert Backs(signed[s], s, db.certs[s]);
    DecimalSerialNormalizes(signed[s].serial);
    NatTextParses(signed[s].serial, 16);
  }

  lemma BelowExpiry(now: Instant, expiresAt: Millis)
    requires ToMillis(now) < expiresAt
    ensures now < (expiresAt / MILLIS_PER_SECOND + 1) * NANOS_PER_SECOND
  {
  }
}
