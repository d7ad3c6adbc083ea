/** The enrollment and renewal services over the in-place store, run without interruption. */
module Services {
  import opened Common
  import opened Numerals
  import opened Database
  import opened Identity
  import opened Handlers
  import opened Store

  class EnrollmentService {
    const store: Store

    constructor (store: Store)
      ensures this.store == store
    {
      this.store := store;
    }

    /** A fresh code for the node, good for ten minutes. */
    method CreateEnrollmentCode(node: NodeId, code: Code, now: Instant) returns (answer: Result<Code>)
      requires store.Valid()
      modifies store
      ensures store.Valid()
      ensures store.View() == Database.CreateEnrollmentCode(old(store.View()), node, code, now + CODE_LIFETIME).db
      ensures answer.Ok? <==> Database.CreateEnrollmentCode(old(store.View()), node, code, now + CODE_LIFETIME).answer.Ok?
      ensures answer.Ok? ==> answer.value == code && forall at ::
                NodeForEnrollmentCode(store.View(), code, at)
                  == if ToMillis(at) < ToMillis(now + 600_000_000_000) then Ok(node) else Err(CodeExpired)
    {
      var created := store.CreateEnrollmentCode(node, code, now + CODE_LIFETIME);
      return if created.Err? then Err(created.error) else Ok(code);
    }

    /** The sequential program is the phase machine run without interruption. */
    method Enroll(code: Code, key: PublicKey, now: Instant, serial: nat) returns (outcome: Result<Issued>)
      requires store.Valid()
      modifies store
      ensures store.Valid()
      ensures (store.View(), outcome)
           == EnrollAlone(old(store.View()), EnrollCall(code, key, now, ReplayLookup), serial)
    {
      LookupAlone(store.View(), code, key, now, serial);
      var replay := store.EnrollmentReplay(code, key);
      if replay.Ok? {
        var active := store.NodeForCertificate(replay.value.serial, now);
        if active.Err? {
          return Err(active.error);
        }
        return Ok(Replayed(replay.value));
      } else if replay.error != ReplayNotFound {
        return Err(replay.error);
      }
      var node := store.NodeForEnrollmentCode(code, now);
      if node.Err? {
        return Err(node.error);
      }
      var issued := IssueFor(node.value, key, serial, now);
      EnrollCommitAlone(store.View(), EnrollCall(code, key, now, Committing(issued)), serial);
      var committed := store.EnrollCertificate(code, issued.serial, issued.certificate, key, now, issued.notAfter);
      if committed.Err? {
        var second := store.EnrollmentReplay(code, key);
        if second.Ok? {
          return Ok(Replayed(second.value));
        }
        return Err(committed.error);
      }
      return Ok(issued);
    }
  }

  class RenewalService {
    const store: Store

    constructor (store: Store)
      ensures this.store == store
    {
      this.store := store;
    }

    method ClientIdentity(signed: Signatures, credential: Credential, now: Instant) returns (client: Result<Client>)
      ensures client == Identify(store.View(), signed, credential, now)
    {
      match credential {
        case Proxied(raw) =>
          var serial := NormalizeSerial(raw);
          if serial == "" {
            return Err(Unverified);
          }
          var found := store.NodeForCertificate(serial, now);
          return if found.Err? then Err(found.error) else Ok(Client(found.value, serial));
        case Direct(certificate) =>
          if !Signed(signed, certificate) || !WithinValidity(certificate, now) {
            return Err(Unverified);
          }
          var serial := SerialText(certificate.serial);
          var found := store.NodeForCertificate(serial, now);
          if found.Err? {
            return Err(found.error);
          }
          if certificate.commonName != found.value {
            return Err(Unverified);
          }
          return Ok(Client(found.value, serial));
      }
    }

    method HandleRenew(signed: Signatures, credential: Credential, key: PublicKey, now: Instant, serial: nat)
      returns (outcome: Result<Issued>)
      requires store.Valid()
      modifies store
      ensures store.Valid()
      ensures (store.View(), outcome)
           == RenewAlone(old(store.View()), signed, RenewCall(key, now, Identifying(credential)), serial)
    {
      IssueAlone(store.View(), signed, credential, key, now, serial);
      var client := ClientIdentity(signed, credential, now);
      if client.Err? {
        return Err(client.error);
      }
      var issued := IssueFor(client.value.node, key, serial, now);
      CommitAlone(store.View(), signed, RenewCall(key, now, CommittingRenewal(client.value, issued)), serial);
      var committed := store.RenewCertificate(client.value.serial, issued.serial, now, issued.notAfter);
      return if committed.Err? then Err(committed.error) else Ok(issued);
    }
  }
}
