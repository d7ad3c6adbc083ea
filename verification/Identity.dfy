/** How the ingest service derives a node from a client certificate, on both of its paths. */
module Identity {
  import opened Common
  import opened Numerals
  import opened Database

  /** A certificate seen in the TLS handshake or its header, or only the serial that a proxy passes on. */
  datatype Credential = Direct(certificate: Certificate) | Proxied(raw: string)

  // Every certificate that the authority has signed, by serial text.
  type Signatures = map<Serial, Certificate>

  predicate Signed(signed: Signatures, certificate: Certificate) {
    var serial := SerialText(certificate.serial);
    serial in signed && signed[serial] == certificate
  }

  /** Both bounds of the validity period belong to it. */
  predicate WithinValidity(certificate: Certificate, now: Instant) {
    certificate.notBefore * NANOS_PER_SECOND <= now <= certificate.notAfter * NANOS_PER_SECOND
  }

  datatype Client = Client(node: NodeId, serial: Serial)

  function Identify(db: Db, signed: Signatures, credential: Credential, now: Instant): Result<Client> {
    match credential
    case Proxied(raw) =>
      var serial := NormalizeSerial(raw);
      if serial == "" then Err(Unverified)
      else
        var found := NodeForCertificate(db, serial, now);
        if found.Err? then Err(found.error) else Ok(Client(found.value, serial))
    case Direct(certificate) =>
      if !Signed(signed, certificate) || !WithinValidity(certificate, now) then Err(Unverified)
      else
        var serial := SerialText(certificate.serial);
        var found := NodeForCertificate(db, serial, now);
        if found.Err? then Err(found.error)
        else if certificate.commonName != found.value then Err(Unverified)
        else Ok(Client(found.value, serial))
  }
}
