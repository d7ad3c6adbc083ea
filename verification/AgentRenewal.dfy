/** The agent's hourly renewal: what it does to the certificate file and to its own client. */
module AgentRenewal {
  import opened Common
  import opened Database
  import opened Credentials
  import opened RenewalWindow

  const HOUR: Instant := 3_600_000_000_000
  const ZERO_TIME: Instant := -62_135_596_800_000_000_000   // the zero value of time.Time

  /** What comes back from the renewal endpoint; `chained` says whether X.509 verification accepts it. */
  datatype Reply =
    | NoReply
    | Refused(status: int)
    | Material(certificate: Certificate, authority: Authority, chained: bool)

  datatype Outcome = Nothing | Renewed | Unauthenticated | Trouble

  /** What one renewal attempt comes to, from the files, the agent's clock and the reply. */
  function Attempt(disk: Disk, now: Instant, reply: Reply, verifiedAt: Instant): Outcome {
    if !Complete(disk) || disk.certificate.value.publicKey != disk.key.value then Trouble
    else match Decide(disk.certificate.value, now)
      case Expired => Unauthenticated
      case NotDue => Nothing
      case Due =>
        match reply
        case NoReply => Trouble
        case Refused(status) => if status == 401 || status == 403 then Unauthenticated else Trouble
        case Material(certificate, authority, chained) =>
          if authority == disk.authority.value && chained && Acceptable(certificate, disk.key.value, verifiedAt)
          then Renewed else Trouble
  }

  /** The files are all there, and the certificate is for the key. */
  predicate Matching(disk: Disk) {
    && disk.key.Some? && disk.certificate.Some? && disk.authority.Some?
    && disk.certificate.value.publicKey == disk.key.value
  }

  /** The reply is a certificate for the key, from the authority on disk, verified, and within its validity. */
  predicate Fitting(disk: Disk, reply: Reply, at: Instant) {
    && disk.key.Some? && reply.Material? && disk.authority == Some(reply.authority) && reply.chained
    && reply.certificate.publicKey == disk.key.value
    && reply.certificate.notBefore * 1_000_000_000 <= at <= reply.certificate.notAfter * 1_000_000_000
  }

  predicate RefusedAsUnauthenticated(reply: Reply) {
    reply == Refused(401) || reply == Refused(403)
  }

  /** When each outcome comes about, by what the agent has, what it is told, and how late it is. */
  lemma AttemptMeans(disk: Disk, now: Instant, reply: Reply, verifiedAt: Instant)
    ensures
      var outcome := Attempt(disk, now, reply, verifiedAt);
      && (!Matching(disk) ==> outcome.Trouble?)
      && (Matching(disk) ==>
            var left := disk.certificate.value.notAfter * 1_000_000_000 - now;
            && (outcome.Nothing? <==> left > 604_800_000_000_000)
            && (outcome.Renewed? <==> 0 < left <= 604_800_000_000_000 && Fitting(disk, reply, verifiedAt))
            && (outcome.Unauthenticated? <==>
                  left <= 0 || (left <= 604_800_000_000_000 && RefusedAsUnauthenticated(reply))))
  {
  }

  /** The files hold a certificate for the key and the pinned authority. */
  predicate Usable(disk: Disk, authority: Authority) {
    Complete(disk) && disk.certificate.value.publicKey == disk.key.value && disk.authority.value == authority
  }

  class RenewingAgent {
    const files: CredentialDirectory
    var client: Certificate     // what the mTLS client presents
    var nextCheck: Instant

    constructor (files: CredentialDirectory)
      requires files.certificate.Some?
      ensures this.files == files && client == files.certificate.value && nextCheck == ZERO_TIME
    {
      this.files, client, nextCheck := files, files.certificate.value, ZERO_TIME;
    }

    method RenewIfDue(now: Instant, reply: Reply, verifiedAt: Instant) returns (outcome: Outcome)
      modifies files
      ensures outcome == Attempt(old(files.Files()), now, reply, verifiedAt)
      // The certificate must be due, and the reply fit the key and the pinned authority; other failures are no end.
      ensures outcome.Renewed? <==>
                && Matching(old(files.Files())) && Decide(old(files.certificate).value, now).Due?
                && Fitting(old(files.Files()), reply, verifiedAt)
      ensures outcome.Unauthenticated? <==>
                && Matching(old(files.Files()))
                && (Decide(old(files.certificate).value, now).Expired?
                    || (Decide(old(files.certificate).value, now).Due? && RefusedAsUnauthenticated(reply)))
      // Only the certificate file is ever replaced, and only by a renewal.
      ensures files.key == old(files.key) && files.authority == old(files.authority)
      ensures if outcome.Renewed? then reply.Material? && files.certificate == Some(reply.certificate)
              else files.certificate == old(files.certificate)
      ensures forall authority :: old(Usable(files.Files(), authority)) ==> Usable(files.Files(), authority)
    {
      if files.certificate.None? || files.key.None? || files.authority.None? {
        return Trouble;
      }
      var certificate, key := files.certificate.value, files.key.value;
      if certificate.publicKey != key {
        return Trouble;
      }
      if now >= ExpiryRead(certificate) {
        return Unauthenticated;
      }
      if ExpiryRead(certificate) > now + RENEWAL_WINDOW {
        return Nothing;
      }
      match reply {
        case NoReply =>
          return Trouble;
        case Refused(status) =>
          return if status == 401 || status == 403 then Unauthenticated else Trouble;
        case Material(renewed, authority, chained) =>
          if authority != files.authority.value || !chained || !Acceptable(renewed, key, verifiedAt) {
            return Trouble;
          }
          files.certificate := Some(renewed);
          return Renewed;
      }
    }

    /**
     Runs before every report, and attempts a renewal at most once an hour. The client follows the certificate
     file, unless loading the renewed file fails; the agent stops when this answers `Unauthenticated`.
     */
    method BeforeReport(at: Instant, now: Instant, reply: Reply, verifiedAt: Instant, loads: bool)
      returns (outcome: Outcome)
      modifies this, files
      ensures nextCheck == if at < old(nextCheck) then old(nextCheck) else at + 3_600_000_000_000
      ensures files.key == old(files.key) && files.authority == old(files.authority)
      ensures at < old(nextCheck) ==>
                outcome.Nothing? && files.certificate == old(files.certificate) && client == old(client)
      ensures at >= old(nextCheck) ==>
                var attempted := Attempt(old(files.Files()), now, reply, verifiedAt);
                && outcome == (if attempted.Renewed? && !loads then Trouble else attempted)
                && files.certificate == (if attempted.Renewed? then Some(reply.certificate) else old(files.certificate))
                && client == if outcome.Renewed? then reply.certificate else old(client)
    {
      if at < nextCheck {
        return Nothing;
      }
      nextCheck := at + HOUR;
      outcome := RenewIfDue(now, reply, verifiedAt);
      if !outcome.Renewed? {
        return outcome;
      }
      if !loads {
        return Trouble;
      }
      client := reply.certificate;
    }
  }

  // ---- The hourly gate over a whole run ----

  /** The calls that pass the gate, of calls at these times. */
  function Checks(next: Instant, calls: seq<Instant>): seq<Instant>
    decreases calls
  {
    if calls == [] then []
    else if calls[0] < next then Checks(next, calls[1..])
    else [calls[0]] + Checks(calls[0] + HOUR, calls[1..])
  }

  lemma {:induction false} ChecksAreHourly(next: Instant, calls: seq<Instant>)
    ensures var checks := Checks(next, calls); checks != [] ==> checks[0] >= next
    ensures
      var checks := Checks(next, calls);
      forall i :: 0 <= i < |checks| - 1 ==> checks[i + 1] >= checks[i] + 3_600_000_000_000
    decreases calls
  {
    if calls != [] {
      ChecksAreHourly(if calls[0] < next then next else calls[0] + HOUR, calls[1..]);
    }
  }

  /** Calls come in order, at most `gap` apart. */
  predicate Paced(calls: seq<Instant>, gap: Instant) {
    forall i :: 0 <= i < |calls| - 1 ==> calls[i] <= calls[i + 1] <= calls[i] + gap
  }

  /** What a call leaves for the next: the first time at which one passes the gate. */
  function NextAfter(next: Instant, call: Instant): Instant {
    if call < next then next else call + HOUR
  }

  lemma ChecksUnfold(next: Instant, calls: seq<Instant>, c: Instant)
    requires calls != []
    ensures c in Checks(NextAfter(next, calls[0]), calls[1..]) ==> c in Checks(next, calls)
    ensures calls[0] >= next ==> calls[0] in Checks(next, calls)
  {
    var rest := Checks(NextAfter(next, calls[0]), calls[1..]);
    if calls[0] >= next {
      assert Checks(next, calls) == [calls[0]] + rest;
      assert ([calls[0]] + rest)[0] == calls[0];
    } else {
      assert Checks(next, calls) == rest;
    }
  }

  ghost predicate InOrder(calls: seq<Instant>) {
    forall k :: 0 <= k < |calls| - 1 ==> calls[k] <= calls[k + 1]
  }

  /** Every call that comes when a check is due, or later, is within an hour after a check. */
  lemma {:induction false} CallFollowsCheck(next: Instant, calls: seq<Instant>, i: nat) returns (c: Instant)
    requires i < |calls| && InOrder(calls) && calls[i] >= next
    ensures c in Checks(next, calls) && c <= calls[i] < c + HOUR
    decreases calls
  {
    var later := NextAfter(next, calls[0]);
    if i > 0 && calls[i] >= later {
      assert calls[1..][i - 1] == calls[i];
      assert InOrder(calls[1..]) by {
        forall k | 0 <= k < |calls| - 2 ensures calls[1..][k] <= calls[1..][k + 1] {
          assert calls[k + 1] <= calls[k + 2];
        }
      }
      c := CallFollowsCheck(later, calls[1..], i - 1);
    } else {
      FirstIsLeast(calls, i);
      c := calls[0];
    }
    ChecksUnfold(next, calls, c);
  }

  lemma {:induction false} FirstIsLeast(calls: seq<Instant>, i: nat)
    requires i < |calls| && InOrder(calls)
    ensures calls[0] <= calls[i]
  {
    if i > 0 {
      assert calls[i - 1] <= calls[i - 1 + 1];
      FirstIsLeast(calls, i - 1);
    }
  }

  lemma {:induction false} FirstCallFrom(calls: seq<Instant>, gap: Instant, from: Instant) returns (i: nat)
    requires Paced(calls, gap) && calls != [] && calls[0] < from <= calls[|calls| - 1]
    ensures i < |calls| && from <= calls[i] < from + gap
  {
    if calls[|calls| - 2] < from {
      i := |calls| - 1;
    } else {
      i := FirstCallFrom(calls[..|calls| - 1], gap, from);
    }
  }

  /**
   An agent that is up from before the first due instant until the expiry, and reports often enough, checks in
   good time: some check finds the certificate due and not expired.
   */
  lemma RunningAgentAsks(next: Instant, calls: seq<Instant>, gap: Instant, certificate: Certificate)
    requires Paced(calls, gap) && calls != [] && gap + HOUR <= RENEWAL_WINDOW
    requires next <= calls[0] < FirstDue(certificate) && ExpiryRead(certificate) <= calls[|calls| - 1]
    ensures exists c :: c in Checks(next, calls) && Decide(certificate, c).Due?
  {
    var i := FirstCallFrom(calls, gap, FirstDue(certificate) + HOUR);
    FirstIsLeast(calls, i);
    var c := CallFollowsCheck(next, calls, i);
    assert Decide(certificate, c).Due?;
  }
}
