/** The agent's credential files, and how first enrollment fills them. */
module Credentials {
  import opened Common
  import opened Database

  // A private key is known by its public half, and the authority's certificate by its text.
  type Authority = string

  datatype Disk = Disk(key: Option<PublicKey>, certificate: Option<Certificate>, authority: Option<Authority>)

  function Existing(disk: Disk): nat {
    (if disk.key.Some? then 1 else 0) + (if disk.certificate.Some? then 1 else 0)
    + (if disk.authority.Some? then 1 else 0)
  }

  predicate Complete(disk: Disk) {
    Existing(disk) == 3
  }

  /** Enrollment may start from nothing, or from a key alone. */
  predicate CanEnroll(disk: Disk) {
    Existing(disk) == 0 || (Existing(disk) == 1 && disk.key.Some?)
  }

  /** The files are written in the order key, certificate, authority; a crash leaves a prefix. */
  predicate IsPrefix(disk: Disk) {
    && (disk.certificate.Some? ==> disk.key.Some?)
    && (disk.authority.Some? ==> disk.certificate.Some?)
  }

  /** What the agent checks of a reply before it writes anything. */
  predicate Acceptable(certificate: Certificate, key: PublicKey, now: Instant) {
    && certificate.publicKey == key
    && certificate.notBefore * NANOS_PER_SECOND <= now <= certificate.notAfter * NANOS_PER_SECOND
  }

  /** What an enrollment brings back; `chained` says whether X.509 verification accepts it. */
  datatype Delivery = Delivery(certificate: Certificate, authority: Authority, chained: bool)

  /** A reply worth keeping: verified, for this key, and within its validity. */
  predicate WorthKeeping(reply: Option<Delivery>, key: PublicKey, at: Instant) {
    && reply.Some? && reply.value.chained && reply.value.certificate.publicKey == key
    && reply.value.certificate.notBefore * 1_000_000_000 <= at <= reply.value.certificate.notAfter * 1_000_000_000
  }

  /**
   What may go wrong: a file that cannot be inspected, no enrollment settings, a key that cannot be read or
   parsed, and writes, of which only so many succeed.
   */
  datatype Faults = Faults(uninspectable: bool, unconfigured: bool, keyUnreadable: bool, writes: nat)

  const NO_FAULTS := Faults(false, false, false, 4)

  class CredentialDirectory {
    var key: Option<PublicKey>
    var certificate: Option<Certificate>
    var authority: Option<Authority>

    ghost function Files(): Disk
      reads this
    {
      Disk(key, certificate, authority)
    }

    constructor (disk: Disk)
      ensures Files() == disk
    {
      key, certificate, authority := disk.key, disk.certificate, disk.authority;
    }

    /** A key that is there is never replaced, not even when it cannot be read or parsed. */
    method LoadOrCreatePrivateKey(drawn: PublicKey, readable: bool, writable: bool) returns (loaded: Option<PublicKey>)
      modifies this
      ensures loaded == if old(key).Some? then if readable then old(key) else None
                        else if writable then Some(drawn) else None
      ensures Files() == old(Files()).(key := if loaded.Some? then loaded else old(key))
    {
      if key.Some? {
        return if readable then key else None;
      }
      if !writable {
        return None;
      }
      key := Some(drawn);
      return Some(drawn);
    }

    method CountFiles() returns (existing: nat, keyExists: bool)
      ensures existing == Existing(Files()) && keyExists == key.Some?
    {
      var paths := [certificate.Some?, key.Some?, authority.Some?];
      existing, keyExists := 0, false;
      for i := 0 to |paths|
        invariant existing == (if i > 0 && paths[0] then 1 else 0) + (if i > 1 && paths[1] then 1 else 0)
                              + (if i > 2 && paths[2] then 1 else 0)
        invariant keyExists == (i > 1 && paths[1])
      {
        if paths[i] {
          existing := existing + 1;
          if i == 1 {
            keyExists := true;
          }
        }
      }
    }

    /**
     `exchange(key)` is what a request with that key brings back, if anything. Whatever goes wrong, a key that was
     there stays, complete files stay, and the files stay a prefix; what is written to the certificate and the
     authority is the reply for the key on disk, and they are written in this order. Without faults it succeeds
     exactly when the files are complete after it, and otherwise leaves certificate and authority as they were.
     */
    method EnsureCredentials(drawn: PublicKey, exchange: PublicKey -> Option<Delivery>, now: Instant, faults: Faults)
      returns (ok: bool)
      modifies this
      ensures ok ==> key.Some? && certificate.Some? && authority.Some?
      ensures old(key).Some? ==> key == old(key)
      ensures key.Some? && old(key).None? ==> key == Some(drawn)
      ensures old(IsPrefix(Files())) ==> IsPrefix(Files())
      ensures old(Complete(Files())) ==> Files() == old(Files()) && (ok <==> !faults.uninspectable)
      // Enrollment starts from nothing or from a key alone.
      ensures !old(Complete(Files())) && (old(certificate).Some? || old(authority).Some?) ==> !ok && Files() == old(Files())
      ensures (certificate != old(certificate) || authority != old(authority) || (ok && !old(Complete(Files())))) ==>
                && old(certificate).None? && old(authority).None? && key.Some?
                && WorthKeeping(exchange(key.value), key.value, now)
                && certificate == Some(exchange(key.value).value.certificate)
                && authority == (if ok then Some(exchange(key.value).value.authority) else None)
      ensures faults == NO_FAULTS ==> (ok <==> Complete(Files()))
      ensures faults == NO_FAULTS && !ok ==> certificate == old(certificate) && authority == old(authority)
      ensures faults == NO_FAULTS && old(certificate).None? && old(authority).None? ==>
                key.Some? && (ok <==> WorthKeeping(exchange(key.value), key.value, now))
    {
      if faults.uninspectable {
        return false;
      }
      var existing, keyExists := CountFiles();
      if existing == 3 {
        return true;
      }
      if existing != 0 && !(existing == 1 && keyExists) {
        return false;
      }
      if faults.unconfigured {
        return false;
      }
      var writes := faults.writes;
      var loaded := LoadOrCreatePrivateKey(drawn, !faults.keyUnreadable, writes > 0);
      if loaded.None? {
        return false;
      }
      if !keyExists {
        writes := writes - 1;
      }
      var reply := exchange(loaded.value);
      if reply.None? || !reply.value.chained || !Acceptable(reply.value.certificate, loaded.value, now) {
        return false;
      }
      if writes == 0 {
        return false;
      }
      key := loaded;
      if writes == 1 {
        return false;
      }
      certificate := Some(reply.value.certificate);
      if writes == 2 {
        return false;
      }
      authority := Some(reply.value.authority);
      return true;
    }
  }
}
