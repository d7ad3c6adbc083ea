/**
 The server store: tables that its operations update in place. Every operation is one
 transaction, proved to commit exactly what its specification in `Database` says, and to
 leave the tables alone when it answers an error.
 */
module Store {
  import opened Common
  import opened Numerals
  import opened Database
  import opened Retention

  class Store {
    var nodes: map<NodeId, NodeRow>
    var codes: map<Code, CodeRow>
    var results: map<Code, ResultRow>
    var certs: map<Serial, CertRow>
    var samples: map<nat, SampleRow>
    var nextSample: nat

    ghost function View(): Db
      reads this
    {
      Db(nodes, codes, results, certs, samples, nextSample)
    }

    ghost predicate Valid()
      reads this
    {
      WellFormed(View())
    }

    constructor ()
      ensures Valid() && View() == EMPTY
    {
      nodes, codes, results, certs, samples, nextSample := map[], map[], map[], map[], map[], 0;
    }

    method CreateNode(id: NodeId, name: string, at: Instant) returns (answer: Result<NodeId>)
      requires Valid()
      modifies this
      ensures Valid() && Tx(View(), answer) == Database.CreateNode(old(View()), id, name, at)
    {
      CreateNodeKeepsConstraints(View(), id, name, at);
      var trimmed := TrimSpace(name);
      if trimmed == "" || Utf8Length(trimmed) > 128 {
        return Err(BadInput);
      }
      var count := |nodes|;
      if count >= MAX_NODES {
        return Err(NodeLimit);
      }
      if id in nodes {
        return Err(Internal);
      }
      nodes := nodes[id := NodeRow(trimmed, ToMillis(at), None, false)];
      return Ok(id);
    }

    method DisableNode(node: NodeId, at: Instant) returns (answer: Result<()>)
      requires Valid()
      modifies this
      ensures Valid() && Tx(View(), answer) == Database.DisableNode(old(View()), node, at)
    {
      DisableNodeKeepsConstraints(View(), node, at);
      if node !in nodes {
        return Err(NodeNotFound);
      }
      nodes := nodes[node := nodes[node].(disabled := true)];
      certs := RevokeAll(certs, node, ToMillis(at));
      return Ok(());
    }

    method RemoveNode(node: NodeId) returns (answer: Result<()>)
      requires Valid()
      modifies this
      ensures Valid() && Tx(View(), answer) == Database.RemoveNode(old(View()), node)
    {
      RemoveNodeKeepsConstraints(View(), node);
      if node !in nodes {
        return Err(NodeNotFound);
      }
      nodes := nodes - {node};
      codes := CodesWithout(codes, node);
      results := ResultsWithout(results, node);
      certs := CertsWithout(certs, node);
      samples := SamplesWithout(samples, node);
      return Ok(());
    }

    method CreateEnrollmentCode(node: NodeId, code: Code, expiresAt: Instant) returns (answer: Result<()>)
      requires Valid()
      modifies this
      ensures Valid() && Tx(View(), answer) == Database.CreateEnrollmentCode(old(View()), node, code, expiresAt)
    {
      CreateCodeKeepsConstraints(View(), node, code, expiresAt);
      if node !in nodes {
        return Err(NodeNotFound);
      }
      if nodes[node].disabled {
        return Err(NodeDisabled);
      }
      var remaining := CodesWithout(codes, node);
      if code in remaining {
        return Err(Internal);
      }
      codes := remaining[code := CodeRow(node, ToMillis(expiresAt), None)];
      return Ok(());
    }

    method NodeForEnrollmentCode(code: Code, at: Instant) returns (answer: Result<NodeId>)
      ensures answer == Database.NodeForEnrollmentCode(View(), code, at)
    {
      if code !in codes {
        return Err(CodeInvalid);
      }
      var row := codes[code];
      if row.usedAt.Some? {
        return Err(CodeUsed);
      }
      if ToMillis(at) >= row.expiresAt {
        return Err(CodeExpired);
      }
      return Ok(row.node);
    }

    method EnrollCertificate(code: Code, serial: Serial, certificate: Certificate, key: PublicKey,
                             issuedAt: Instant, expiresAt: Instant) returns (answer: Result<NodeId>)
      requires Valid()
      modifies this
      ensures Valid()
      ensures Tx(View(), answer)
           == Database.EnrollCertificate(old(View()), code, serial, certificate, key, issuedAt, expiresAt)
    {
      EnrollKeepsConstraints(View(), code, serial, certificate, key, issuedAt, expiresAt);
      if code !in codes {
        return Err(CodeInvalid);
      }
      var row := codes[code];
      if row.usedAt.Some? {
        return Err(CodeUsed);
      }
      var issuedMillis := ToMillis(issuedAt);
      if issuedMillis >= row.expiresAt {
        return Err(CodeExpired);
      }
      if nodes[row.node].disabled {
        return Err(NodeDisabled);
      }
      if serial in certs {
        return Err(Internal);
      }
      var certsInTx := certs[serial := CertRow(row.node, issuedMillis, ToMillis(expiresAt), None)];
      if code in results {
        return Err(Internal);
      }
      results := results[code := ResultRow(row.node, serial, certificate, key, ToMillis(expiresAt))];
      certs := certsInTx;
      codes := codes[code := row.(usedAt := Some(issuedMillis))];
      return Ok(row.node);
    }

    method EnrollmentReplay(code: Code, key: PublicKey) returns (answer: Result<ResultRow>)
      ensures answer == Database.EnrollmentReplay(View(), code, key)
    {
      if code !in results {
        return Err(ReplayNotFound);
      }
      if results[code].publicKey != key {
        return Err(CodeUsed);
      }
      return Ok(results[code]);
    }

    method NodeForCertificate(serial: Serial, at: Instant) returns (answer: Result<NodeId>)
      ensures answer == Database.NodeForCertificate(View(), serial, at)
    {
      if serial !in certs || certs[serial].node !in nodes {
        return Err(CertificateUnknown);
      }
      var row := certs[serial];
      if row.revokedAt.Some? || nodes[row.node].disabled {
        return Err(CertificateRevoked);
      }
      if ToMillis(at) >= row.expiresAt {
        return Err(CertificateExpired);
      }
      return Ok(row.node);
    }

    method RenewCertificate(current: Serial, serial: Serial, issuedAt: Instant, expiresAt: Instant)
      returns (answer: Result<NodeId>)
      requires Valid()
      modifies this
      ensures Valid()
      ensures Tx(View(), answer) == Database.RenewCertificate(old(View()), current, serial, issuedAt, expiresAt)
    {
      RenewKeepsConstraints(View(), current, serial, issuedAt, expiresAt);
      if current !in certs || certs[current].node !in nodes {
        return Err(CertificateUnknown);
      }
      var row := certs[current];
      if row.revokedAt.Some? || nodes[row.node].disabled {
        return Err(CertificateRevoked);
      }
      var issuedMillis := ToMillis(issuedAt);
      if issuedMillis >= row.expiresAt {
        return Err(CertificateExpired);
      }
      if issuedAt < FromMillis(row.expiresAt) - RENEWAL_DAYS * DAY {
        return Err(RenewalNotDue);
      }
      if serial in certs {
        return Err(Internal);
      }
      certs := certs[serial := CertRow(row.node, issuedMillis, ToMillis(expiresAt), None)];
      certs := certs[current := row.(revokedAt := Some(issuedMillis))];
      return Ok(row.node);
    }

    method RecordReport(report: Report, receivedAt: Instant) returns (answer: Result<()>)
      requires Valid()
      modifies this
      ensures Valid() && Tx(View(), answer) == Database.RecordReport(old(View()), report, receivedAt)
    {
      RecordKeepsConstraints(View(), report, receivedAt);
      if !ValidReport(report) {
        return Err(BadInput);
      }
      if report.node !in nodes {
        return Err(NodeNotFound);
      }
      var row := nodes[report.node];
      if row.disabled {
        return Err(NodeDisabled);
      }
      var receivedMillis := ToMillis(receivedAt);
      samples := samples[nextSample := SampleRow(report.node, receivedMillis, report.metrics)];
      nextSample := nextSample + 1;
      if row.lastReportAt == None || row.lastReportAt.value < receivedMillis {
        nodes := nodes[report.node := row.(lastReportAt := Some(receivedMillis))];
      } else {
        assert nodes == nodes[report.node := row];
      }
      return Ok(());
    }

    /** The row that `ORDER BY received_at DESC LIMIT 1` answers; ties may be broken either way. */
    method LatestSample(node: NodeId) returns (latest: Option<nat>)
      ensures latest.Some? ==> IsLatestOf(samples, node, latest.value)
      ensures latest.None? ==> forall i :: i in samples ==> samples[i].node != node
    {
      latest := None;
      var rest := samples.Keys;
      while rest != {}
        invariant rest <= samples.Keys
        invariant latest.None? ==> forall i :: i in samples && i !in rest ==> samples[i].node != node
        invariant latest.Some? ==>
          && latest.value in samples && samples[latest.value].node == node
          && forall i :: i in samples && i !in rest && samples[i].node == node ==>
               samples[i].receivedAt <= samples[latest.value].receivedAt
        decreases |rest|
      {
        var i :| i in rest;
        rest := rest - {i};
        if samples[i].node == node
           && (latest.None? || samples[i].receivedAt > samples[latest.value].receivedAt) {
          latest := Some(i);
        }
      }
    }

    /** The row that `ORDER BY received_at ASC, id ASC LIMIT 1` answers. */
    method OldestSample() returns (oldest: Option<nat>)
      ensures oldest.Some? ==> IsOldest(samples, oldest.value)
      ensures oldest.None? ==> samples == map[]
    {
      oldest := None;
      var rest := samples.Keys;
      while rest != {}
        invariant rest <= samples.Keys
        invariant oldest.None? ==> rest == samples.Keys
        invariant oldest.Some? ==>
          && oldest.value in samples
          && forall i :: i in samples && i !in rest && i != oldest.value ==> Older(samples, oldest.value, i)
        decreases |rest|
      {
        var i :| i in rest;
        rest := rest - {i};
        if oldest.None? || Older(samples, i, oldest.value) {
          oldest := Some(i);
        }
      }
    }

    method DeleteSample(oldest: nat, ghost purged: map<nat, SampleRow>, ghost deleted: nat)
      requires Pruned(purged, samples, deleted) && IsOldest(samples, oldest)
      modifies this`samples
      ensures samples == old(samples) - {oldest} && |samples| < old(|samples|)
      ensures Pruned(purged, samples, deleted + 1)
    {
      PruneStep(purged, samples, deleted, oldest);
      samples := samples - {oldest};
    }

    method PurgeSamplesBefore(cutoff: Instant)
      requires Valid()
      modifies this`samples
      ensures Valid() && View() == Database.PurgeSamplesBefore(old(View()), cutoff)
    {
      samples := SamplesFrom(samples, ToMillis(cutoff));
    }

    /**
     Purges samples older than thirty days, then deletes the oldest sample while the database reads as
     too large. `sizes(i)` is the size read after `i` deletions, or `None` when reading it fails.
     */
    method MaintainSamples(now: Instant, maxDatabaseBytes: int, sizes: nat -> Option<int>)
      returns (ok: bool, ghost deleted: nat)
      requires Valid()
      modifies this`samples
      ensures Valid()
      ensures Maintained(old(samples), samples, now, SizeLimit(maxDatabaseBytes), sizes, deleted, ok)
    {
      PurgeSamplesBefore(now - RETENTION_DAYS * DAY);
      ok, deleted := PruneToSize(SizeLimit(maxDatabaseBytes), sizes);
    }

    method PruneToSize(limit: int, sizes: nat -> Option<int>) returns (ok: bool, ghost deleted: nat)
      requires Valid()
      modifies this`samples
      ensures Valid() && Pruned(old(samples), samples, deleted)
      ensures StoppedAt(samples, limit, sizes, deleted, ok)
    {
      ghost var before := View();
      ok, deleted := PruneRounds(limit, sizes);
      PruningKeepsConstraints(before, samples, deleted);
      assert View() == before.(samples := samples);
    }

    method PruneRounds(limit: int, sizes: nat -> Option<int>) returns (ok: bool, ghost deleted: nat)
      modifies this`samples
      ensures Pruned(old(samples), samples, deleted)
      ensures StoppedAt(samples, limit, sizes, deleted, ok)
    {
      ghost var before := samples;
      deleted := 0;
      var round: nat := 0;
      NothingPruned(before);
      while true
        invariant round == deleted && Pruned(before, samples, deleted)
        invariant AllOver(limit, sizes, deleted)
        decreases |samples|
      {
        var size := sizes(round);
        if size.None? {
          return false, deleted;
        }
        if size.value <= limit {
          return true, deleted;
        }
        var oldest := OldestSample();
        if oldest.None? {
          return true, deleted;
        }
        DeleteSample(oldest.value, before, deleted);
        deleted, round := deleted + 1, round + 1;
      }
    }
  }
}
