/**
 Renewal lineage: each enrollment roots one chain of certificates. Every certificate is renewed at most
 once, the last of a chain is the only one not revoked, and renewals are at least 23 days apart.
 */
module Renewals {
  import opened Common
  import opened Counting
  import opened Database
  import opened Identity
  import opened Handlers
  import opened Protocol
  import opened Invariants

  // The part of a certificate's validity that must pass before it can be renewed.
  const RENEWAL_GAP: Millis := 1_987_200_000   // 23 days

  type Lines = map<Serial, Lineage>
  type Latest = map<Code, Serial>

  /** All certificates that descend from a code's enrollment, oldest first. */
  function Chain(lines: Lines, latest: Latest, code: Code): seq<Serial> {
    if code in latest && latest[code] in lines then lines[latest[code]].serials else []
  }

  ghost predicate Enabled(db: Db, node: NodeId) {
    node in db.nodes && !db.nodes[node].disabled
  }

  /** The link at position `i`: its own history is the chain so far, and it is live only at the end. */
  ghost predicate LinkSound(db: Db, lines: Lines, code: Code, chain: seq<Serial>, i: nat)
    requires code in db.results && i < |chain|
  {
    var s := chain[i];
    && s in db.certs && s in lines
    && lines[s] == Lineage(code, chain[..i + 1])
    && db.certs[s].node == db.results[code].node
    && (Enabled(db, db.certs[s].node) ==> (db.certs[s].revokedAt.None? <==> i == |chain| - 1))
    && (!Enabled(db, db.certs[s].node) ==> db.certs[s].revokedAt.Some?)
    && (i > 0 && chain[i - 1] in db.certs ==>
          db.certs[s].issuedAt >= db.certs[chain[i - 1]].issuedAt + RENEWAL_GAP)
  }

  ghost predicate ChainSound(db: Db, lines: Lines, latest: Latest, code: Code)
    requires code in db.results
  {
    var chain := Chain(lines, latest, code);
    && chain != [] && chain[0] == db.results[code].serial
    && code in latest && latest[code] == chain[|chain| - 1]
    && forall i :: 0 <= i < |chain| ==> LinkSound(db, lines, code, chain, i)
  }

  ghost predicate OnChain(db: Db, lines: Lines, latest: Latest, s: Serial) {
    && s in lines && lines[s].code in db.results
    && lines[s].serials != [] && lines[s].serials[|lines[s].serials| - 1] == s
    && lines[s].serials <= Chain(lines, latest, lines[s].code)
  }

  ghost predicate LinesSound(db: Db, lines: Lines, latest: Latest) {
    && (forall c :: c in db.results ==> ChainSound(db, lines, latest, c))
    && (forall s :: s in db.certs ==> OnChain(db, lines, latest, s))
  }

  ghost predicate Descended(w: World) {
    Basic(w) && LinesSound(w.db, w.lineage, w.latest)
  }

  // ---- Steps ----

  /** A chain whose own rows are untouched stays sound. */
  lemma ChainUntouched(db: Db, after: Db, lines: Lines, lines': Lines, latest: Latest, latest': Latest, code: Code)
    requires code in db.results && ChainSound(db, lines, latest, code)
    requires code in after.results && after.results[code] == db.results[code]
    requires code in latest' && latest'[code] == latest[code]
    requires forall s :: s in db.certs && s in lines ==> s in lines' && lines'[s] == lines[s]
    requires forall i :: 0 <= i < |Chain(lines, latest, code)| ==>
               var s := Chain(lines, latest, code)[i];
               s in db.certs ==> s in after.certs && after.certs[s] == db.certs[s]
    requires Enabled(after, db.results[code].node) == Enabled(db, db.results[code].node)
    ensures ChainSound(after, lines', latest', code)
    ensures Chain(lines', latest', code) == Chain(lines, latest, code)
  {
    var chain := Chain(lines, latest, code);
    assert LinkSound(db, lines, code, chain, |chain| - 1);
    assert Chain(lines', latest', code) == chain;
    forall i | 0 <= i < |chain| ensures LinkSound(after, lines', code, chain, i) {
      assert LinkSound(db, lines, code, chain, i);
      if i > 0 {
        assert LinkSound(db, lines, code, chain, i - 1);
      }
    }
  }

  /** What an enrollment or a renewal leaves alone: all but one chain. */
  ghost predicate TouchesOnly(db: Db, after: Db, lines: Lines, lines': Lines, latest: Latest, latest': Latest,
                              code: Code, changed: Serial) {
    && after.nodes == db.nodes
    && (forall c :: c in db.results && c != code ==> c in after.results && after.results[c] == db.results[c])
    && (forall c :: c in latest && c != code ==> c in latest' && latest'[c] == latest[c])
    && (forall s :: s in db.certs && s in lines ==> s in lines' && lines'[s] == lines[s])
    && (forall s :: s in db.certs && s != changed ==> s in after.certs && after.certs[s] == db.certs[s])
    && (changed in db.certs && changed in lines ==> lines[changed].code == code)
  }

  lemma OtherChainStaysSound(db: Db, after: Db, lines: Lines, lines': Lines, latest: Latest, latest': Latest,
                             code: Code, changed: Serial, other: Code)
    requires LinesSound(db, lines, latest)
    requires TouchesOnly(db, after, lines, lines', latest, latest', code, changed)
    requires other in db.results && other != code
    ensures ChainSound(after, lines', latest', other)
    ensures Chain(lines', latest', other) == Chain(lines, latest, other)
  {
    assert ChainSound(db, lines, latest, other);
    var chain := Chain(lines, latest, other);
    forall i | 0 <= i < |chain|
      ensures chain[i] in db.certs && chain[i] in after.certs && after.certs[chain[i]] == db.certs[chain[i]]
    {
      assert LinkSound(db, lines, other, chain, i);
    }
    ChainUntouched(db, after, lines, lines', latest, latest', other);
  }

  lemma OthersStayOnChain(db: Db, after: Db, lines: Lines, lines': Lines, latest: Latest, latest': Latest,
                          code: Code, changed: Serial, s: Serial)
    requires LinesSound(db, lines, latest)
    requires TouchesOnly(db, after, lines, lines', latest, latest', code, changed)
    requires s in db.certs && lines[s].code != code
    ensures OnChain(after, lines', latest', s)
  {
    assert OnChain(db, lines, latest, s);
    OtherChainStaysSound(db, after, lines, lines', latest, latest', code, changed, lines[s].code);
  }

  lemma OthersStaySound(db: Db, after: Db, lines: Lines, lines': Lines, latest: Latest, latest': Latest,
                        code: Code, changed: Serial)
    requires LinesSound(db, lines, latest)
    requires TouchesOnly(db, after, lines, lines', latest, latest', code, changed)
    ensures forall c :: c in db.results && c != code ==> c in after.results && ChainSound(after, lines', latest', c)
    ensures code !in db.results ==> forall t :: t in db.certs ==> OnChain(after, lines', latest', t)
  {
    forall c | c in db.results && c != code ensures c in after.results && ChainSound(after, lines', latest', c) {
      OtherChainStaysSound(db, after, lines, lines', latest, latest', code, changed, c);
    }
    forall t | t in db.certs && code !in db.results ensures OnChain(after, lines', latest', t) {
      assert OnChain(db, lines, latest, t);
      OthersStayOnChain(db, after, lines, lines', latest, latest', code, changed, t);
    }
  }

  lemma RootingEffect(db: Db, call: EnrollCall, serial: nat)
    requires WellFormed(db) && call.phase.Committing? && EnrollStep(db, call, serial).1.phase.Enrolled?
    ensures
      var after, s := EnrollStep(db, call, serial).0, call.phase.issued.serial;
      && s !in db.certs && call.code !in db.results && call.code in db.codes
      && after.nodes == db.nodes
      && Enabled(db, db.codes[call.code].node)
      && after.results == db.results[call.code := ResultRow(db.codes[call.code].node, s,
                                       call.phase.issued.certificate, call.key, ToMillis(call.phase.issued.notAfter))]
      && after.certs == db.certs[s := CertRow(db.codes[call.code].node, ToMillis(call.now),
                                               ToMillis(call.phase.issued.notAfter), None)]
  {
  }

  /** The enrollment roots a new chain. */
  lemma RootingKeepsLines(db: Db, lines: Lines, latest: Latest, call: EnrollCall, serial: nat)
    requires WellFormed(db) && LinesSound(db, lines, latest)
    requires call.phase.Committing? && EnrollStep(db, call, serial).1.phase.Enrolled?
    ensures
      var s := call.phase.issued.serial;
      LinesSound(EnrollStep(db, call, serial).0, lines[s := Lineage(call.code, [s])], latest[call.code := s])
  {
    var s, code := call.phase.issued.serial, call.code;
    var after := EnrollStep(db, call, serial).0;
    RootingEffect(db, call, serial);
    AddRoot(db, after, lines, latest, code, s);
  }

  lemma RootIsSound(db: Db, lines: Lines, latest: Latest, code: Code, s: Serial)
    requires code in db.results && s in db.certs && code in latest && latest[code] == s
    requires s in lines && lines[s] == Lineage(code, [s])
    requires db.results[code].serial == s && db.certs[s].node == db.results[code].node
    requires Enabled(db, db.certs[s].node) && db.certs[s].revokedAt.None?
    ensures ChainSound(db, lines, latest, code) && OnChain(db, lines, latest, s)
  {
    assert Chain(lines, latest, code) == [s] == [s][..1];
    assert LinkSound(db, lines, code, [s], 0);
  }

  lemma AddRoot(db: Db, after: Db, lines: Lines, latest: Latest, code: Code, s: Serial)
    requires LinesSound(db, lines, latest) && after.nodes == db.nodes
    requires s !in db.certs && code !in db.results
    requires after.certs.Keys == db.certs.Keys + {s} && after.results.Keys == db.results.Keys + {code}
    requires forall t :: t in db.certs ==> after.certs[t] == db.certs[t]
    requires forall c :: c in db.results ==> after.results[c] == db.results[c]
    requires after.results[code].serial == s && after.certs[s].node == after.results[code].node
    requires Enabled(after, after.certs[s].node) && after.certs[s].revokedAt.None?
    ensures LinesSound(after, lines[s := Lineage(code, [s])], latest[code := s])
  {
    var lines', latest' := lines[s := Lineage(code, [s])], latest[code := s];
    RootTouchesOnly(db, after, lines, latest, code, s);
    RootIsSound(after, lines', latest', code, s);
    OthersStaySound(db, after, lines, lines', latest, latest', code, s);
    SoundTogether(db, after, lines', latest', code, s);
  }

  lemma RootTouchesOnly(db: Db, after: Db, lines: Lines, latest: Latest, code: Code, s: Serial)
    requires after.nodes == db.nodes && s !in db.certs && code !in db.results
    requires after.certs.Keys == db.certs.Keys + {s} && after.results.Keys == db.results.Keys + {code}
    requires forall t :: t in db.certs ==> after.certs[t] == db.certs[t]
    requires forall c :: c in db.results ==> after.results[c] == db.results[c]
    ensures TouchesOnly(db, after, lines, lines[s := Lineage(code, [s])], latest, latest[code := s], code, s)
  {
  }

  lemma SoundTogether(db: Db, after: Db, lines: Lines, latest: Latest, code: Code, s: Serial)
    requires after.certs.Keys == db.certs.Keys + {s} && after.results.Keys == db.results.Keys + {code}
    requires ChainSound(after, lines, latest, code) && OnChain(after, lines, latest, s)
    requires forall c :: c in db.results && c != code ==> ChainSound(after, lines, latest, c)
    requires forall t :: t in db.certs ==> OnChain(after, lines, latest, t)
    ensures LinesSound(after, lines, latest)
  {
    forall t | t in after.certs ensures OnChain(after, lines, latest, t) {
      assert t in after.certs.Keys;
    }
    forall c | c in after.results ensures ChainSound(after, lines, latest, c) {
      assert c in after.results.Keys;
    }
  }

  /** A live certificate is the last of its chain. */
  lemma LiveIsLast(db: Db, lines: Lines, latest: Latest, s: Serial)
    requires LinesSound(db, lines, latest) && s in db.certs && db.certs[s].revokedAt.None?
    ensures
      var code := lines[s].code;
      && code in latest && latest[code] == s && lines[s].serials == Chain(lines, latest, code)
      && Enabled(db, db.certs[s].node)
  {
    var code := lines[s].code;
    assert OnChain(db, lines, latest, s) && ChainSound(db, lines, latest, code);
    var chain := Chain(lines, latest, code);
    var k := |lines[s].serials| - 1;
    assert chain[k] == s;
    assert LinkSound(db, lines, code, chain, k);
  }

  /** A renewal adds one live row, a renewal gap later, and revokes the row that it replaces. */
  ghost predicate RenewedIn(db: Db, after: Db, current: Serial, s: Serial) {
    && after.nodes == db.nodes && after.results == db.results
    && current in db.certs && db.certs[current].revokedAt.None? && s !in db.certs
    && after.certs.Keys == db.certs.Keys + {s}
    && (forall t :: t in db.certs && t != current ==> after.certs[t] == db.certs[t])
    && after.certs[current].revokedAt.Some?
    && after.certs[current] == db.certs[current].(revokedAt := after.certs[current].revokedAt)
    && after.certs[s].node == db.certs[current].node && after.certs[s].revokedAt.None?
    && after.certs[s].issuedAt >= db.certs[current].issuedAt + RENEWAL_GAP
  }

  lemma AddRenewal(db: Db, after: Db, lines: Lines, latest: Latest, current: Serial, s: Serial)
    requires LinesSound(db, lines, latest) && RenewedIn(db, after, current, s)
    ensures current in lines
    ensures LinesSound(after, lines[s := Descend(lines[current], s)], latest[lines[current].code := s])
  {
    LiveIsLast(db, lines, latest, current);
    var code := lines[current].code;
    var lines', latest' := lines[s := Descend(lines[current], s)], latest[code := s];
    assert OnChain(db, lines, latest, current);
    assert TouchesOnly(db, after, lines, lines', latest, latest', code, current);
    ChainGrows(db, after, lines, latest, current, s);
    forall c | c in db.results ensures ChainSound(after, lines', latest', c) {
      if c != code {
        OtherChainStaysSound(db, after, lines, lines', latest, latest', code, current, c);
      }
    }
    forall t | t in after.certs ensures OnChain(after, lines', latest', t) {
      StaysOnGrownChain(db, after, lines, lines', latest, latest', code, current, s, t);
    }
  }

  lemma StaysOnGrownChain(db: Db, after: Db, lines: Lines, lines': Lines, latest: Latest, latest': Latest,
                          code: Code, current: Serial, s: Serial, t: Serial)
    requires LinesSound(db, lines, latest) && t in after.certs
    requires TouchesOnly(db, after, lines, lines', latest, latest', code, current)
    requires after.certs.Keys == db.certs.Keys + {s} && code in after.results
    requires s in lines' && lines'[s].code == code && lines'[s].serials == Chain(lines', latest', code)
    requires Chain(lines', latest', code) == Chain(lines, latest, code) + [s]
    ensures OnChain(after, lines', latest', t)
  {
    if t in db.certs && t != s {
      assert OnChain(db, lines, latest, t);
      if lines[t].code != code {
        OthersStayOnChain(db, after, lines, lines', latest, latest', code, current, t);
      }
    }
  }

  lemma ChainGrows(db: Db, after: Db, lines: Lines, latest: Latest, current: Serial, s: Serial)
    requires LinesSound(db, lines, latest) && RenewedIn(db, after, current, s)
    ensures current in lines && lines[current].code in db.results
    ensures
      var lines', latest' := lines[s := Descend(lines[current], s)], latest[lines[current].code := s];
      && ChainSound(after, lines', latest', lines[current].code)
      && Chain(lines', latest', lines[current].code) == Chain(lines, latest, lines[current].code) + [s]
  {
    LiveIsLast(db, lines, latest, current);
    var code := lines[current].code;
    assert OnChain(db, lines, latest, current) && ChainSound(db, lines, latest, code);
    var chain, lines' := Chain(lines, latest, code), lines[s := Descend(lines[current], s)];
    var grown := chain + [s];
    assert LinkSound(db, lines, code, chain, |chain| - 1);
    NewLinkIsSound(db, after, lines, latest, current, s);
    forall i | 0 <= i < |chain| ensures LinkSound(after, lines', code, grown, i) {
      OldLinkStaysSound(db, after, lines, latest, current, s, i);
    }
    assert lines'[s] == Lineage(code, grown);
    LinksMakeChain(after, lines', latest[code := s], code, grown);
  }

  lemma LinksMakeChain(db: Db, lines: Lines, latest: Latest, code: Code, chain: seq<Serial>)
    requires code in db.results && code in latest && latest[code] in lines
    requires chain != [] && chain[0] == db.results[code].serial && chain[|chain| - 1] == latest[code]
    requires lines[latest[code]].serials == chain
    requires forall i :: 0 <= i < |chain| ==> LinkSound(db, lines, code, chain, i)
    ensures Chain(lines, latest, code) == chain && ChainSound(db, lines, latest, code)
  {
  }

  lemma NewLinkIsSound(db: Db, after: Db, lines: Lines, latest: Latest, current: Serial, s: Serial)
    requires RenewedIn(db, after, current, s) && current in lines && lines[current].code in db.results
    requires
      var code := lines[current].code;
      var chain := Chain(lines, latest, code);
      && lines[current].serials == chain && chain != [] && chain[|chain| - 1] == current
      && db.certs[current].node == db.results[code].node && Enabled(db, db.certs[current].node)
    ensures
      var chain := Chain(lines, latest, lines[current].code);
      LinkSound(after, lines[s := Descend(lines[current], s)], lines[current].code, chain + [s], |chain|)
  {
    var chain := Chain(lines, latest, lines[current].code);
    assert (chain + [s])[..|chain| + 1] == chain + [s];
    assert (chain + [s])[|chain| - 1] == current;
  }

  lemma OldLinkStaysSound(db: Db, after: Db, lines: Lines, latest: Latest, current: Serial, s: Serial, i: nat)
    requires LinesSound(db, lines, latest) && RenewedIn(db, after, current, s)
    requires current in lines && lines[current].code in db.results
    requires i < |Chain(lines, latest, lines[current].code)|
    ensures
      var code := lines[current].code;
      LinkSound(after, lines[s := Descend(lines[current], s)], code, Chain(lines, latest, code) + [s], i)
  {
    LiveIsLast(db, lines, latest, current);
    var code := lines[current].code;
    assert ChainSound(db, lines, latest, code);
    var chain := Chain(lines, latest, code);
    assert LinkSound(db, lines, code, chain, i);
    if i > 0 {
      assert LinkSound(db, lines, code, chain, i - 1);
    }
    ChainSerialsDiffer(db, lines, latest, code, i);
    LinkStays(db, after, lines, code, chain, current, s, i);
  }

  /** A link keeps its soundness when its chain grows: it stays live or revoked as it was, but for the last one. */
  lemma LinkStays(db: Db, after: Db, lines: Lines, code: Code, chain: seq<Serial>, current: Serial, s: Serial, i: nat)
    requires RenewedIn(db, after, current, s) && current in lines
    requires code in db.results && i < |chain| && LinkSound(db, lines, code, chain, i)
    requires i > 0 ==> LinkSound(db, lines, code, chain, i - 1)
    requires chain[i] == current <==> i == |chain| - 1
    requires i > 0 ==> chain[i - 1] != current
    ensures LinkSound(after, lines[s := Descend(lines[current], s)], code, chain + [s], i)
  {
    assert (chain + [s])[..i + 1] == chain[..i + 1] && (chain + [s])[i] == chain[i];
    assert i > 0 ==> (chain + [s])[i - 1] == chain[i - 1];
  }

  /** Only the last position holds the last certificate: each certificate's own history ends in itself. */
  lemma ChainSerialsDiffer(db: Db, lines: Lines, latest: Latest, code: Code, i: nat)
    requires code in db.results && ChainSound(db, lines, latest, code)
    requires i < |Chain(lines, latest, code)|
    ensures Chain(lines, latest, code)[i] == latest[code] ==> i == |Chain(lines, latest, code)| - 1
  {
    var chain := Chain(lines, latest, code);
    assert LinkSound(db, lines, code, chain, i);
    assert LinkSound(db, lines, code, chain, |chain| - 1);
    assert |chain[..i + 1]| == i + 1 && |chain[..|chain|]| == |chain|;
  }

  lemma RenewalEffect(signed: Signatures, db: Db, call: RenewCall, serial: nat)
    requires Backed(signed, db.certs) && call.phase.CommittingRenewal? && RenewPending(signed, call)
    requires RenewStep(db, signed, call, serial).1.phase.renewal.Ok?
    ensures RenewedIn(db, RenewStep(db, signed, call, serial).0, call.phase.client.serial, call.phase.issued.serial)
  {
    var current := call.phase.client.serial;
    assert Backs(signed[current], current, db.certs[current]);
    assert ToMillis(call.now) >= db.certs[current].expiresAt - RENEWAL_DAYS * DAY_MILLIS;
    var after := RenewStep(db, signed, call, serial).0;
    assert after.certs.Keys == db.certs.Keys + {call.phase.issued.serial};
  }

  lemma RenewKeepsDescended(w: World, id: nat, serial: nat)
    requires Descended(w) && CanStepRenew(w, id, serial)
    ensures Descended(DoRenew(w, id, serial))
  {
    RenewKeepsBasic(w, id, serial);
    var call, after := w.renews[id], DoRenew(w, id, serial);
    if call.phase.CommittingRenewal? && after.renews[id].phase.renewal.Ok? {
      assert RenewPending(w.signed, call);
      RenewalEffect(w.signed, w.db, call, serial);
      AddRenewal(w.db, after.db, w.lineage, w.latest, call.phase.client.serial, call.phase.issued.serial);
    } else {
      assert after.db == w.db && after.lineage == w.lineage && after.latest == w.latest;
    }
  }

  lemma EnrollKeepsDescended(w: World, id: nat, serial: nat)
    requires Descended(w) && CanStepEnroll(w, id, serial)
    ensures Descended(DoEnroll(w, id, serial))
  {
    EnrollKeepsBasic(w, id, serial);
    var call, after := w.enrolls[id], DoEnroll(w, id, serial);
    if call.phase.Committing? && after.enrolls[id].phase.Enrolled? {
      RootingKeepsLines(w.db, w.lineage, w.latest, call, serial);
    } else {
      assert after.db == w.db && after.lineage == w.lineage && after.latest == w.latest;
    }
  }

  // ---- Disabling and removing ----

  lemma DisableKeepsLines(db: Db, lines: Lines, latest: Latest, node: NodeId, at: Instant)
    requires LinesSound(db, lines, latest) && WellFormed(db)
    ensures LinesSound(Database.DisableNode(db, node, at).db, lines, latest)
  {
    var after := Database.DisableNode(db, node, at).db;
    assert after.results == db.results && after.certs.Keys == db.certs.Keys;
    forall c | c in db.results ensures ChainSound(after, lines, latest, c) {
      DisableKeepsChain(db, after, lines, latest, node, at, c);
    }
    forall t | t in after.certs ensures OnChain(after, lines, latest, t) {
      assert OnChain(db, lines, latest, t);
    }
  }

  lemma DisableKeepsChain(db: Db, after: Db, lines: Lines, latest: Latest, node: NodeId, at: Instant, code: Code)
    requires code in db.results && ChainSound(db, lines, latest, code)
    requires after == Database.DisableNode(db, node, at).db
    ensures code in after.results && ChainSound(after, lines, latest, code)
  {
    var chain := Chain(lines, latest, code);
    forall i | 0 <= i < |chain| ensures LinkSound(after, lines, code, chain, i) {
      assert LinkSound(db, lines, code, chain, i);
    }
  }

  lemma RemoveKeepsLines(db: Db, lines: Lines, latest: Latest, node: NodeId)
    requires LinesSound(db, lines, latest)
    ensures LinesSound(Database.RemoveNode(db, node).db, lines, latest)
  {
    var after := Database.RemoveNode(db, node).db;
    if node in db.nodes {
      forall c | c in after.results ensures ChainSound(after, lines, latest, c) {
        assert ChainSound(db, lines, latest, c);
        var chain := Chain(lines, latest, c);
        forall i | 0 <= i < |chain|
          ensures chain[i] in db.certs && chain[i] in after.certs && after.certs[chain[i]] == db.certs[chain[i]]
        {
          assert LinkSound(db, lines, c, chain, i);
        }
        ChainUntouched(db, after, lines, lines, latest, latest, c);
      }
      forall t | t in after.certs ensures OnChain(after, lines, latest, t) {
        CertificateOnChain(db, lines, latest, t);
      }
    }
  }

  /** A certificate belongs to the node of the enrollment at the head of its chain. */
  lemma CertificateOnChain(db: Db, lines: Lines, latest: Latest, s: Serial)
    requires LinesSound(db, lines, latest) && s in db.certs
    ensures OnChain(db, lines, latest, s)
    ensures
      var code, k := lines[s].code, |lines[s].serials| - 1;
      && ChainSound(db, lines, latest, code)
      && k < |Chain(lines, latest, code)| && Chain(lines, latest, code)[k] == s
      && LinkSound(db, lines, code, Chain(lines, latest, code), k)
      && db.certs[s].node == db.results[code].node
  {
    assert OnChain(db, lines, latest, s);
    var code, k := lines[s].code, |lines[s].serials| - 1;
    assert ChainSound(db, lines, latest, code);
    assert Chain(lines, latest, code)[k] == s;
    assert LinkSound(db, lines, code, Chain(lines, latest, code), k);
  }

  /** Actions that leave results and certificates alone, and disable or enable nothing. */
  lemma UnrelatedKeepsLines(db: Db, after: Db, lines: Lines, latest: Latest)
    requires LinesSound(db, lines, latest) && WellFormed(db)
    requires after.results == db.results && after.certs == db.certs
    requires forall n :: n in db.nodes ==> Enabled(after, n) == Enabled(db, n)
    ensures LinesSound(after, lines, latest)
  {
    forall c | c in db.results ensures ChainSound(after, lines, latest, c) {
      assert ChainSound(db, lines, latest, c);
      ChainUntouched(db, after, lines, lines, latest, latest, c);
    }
    forall t | t in after.certs ensures OnChain(after, lines, latest, t) {
      assert OnChain(db, lines, latest, t);
    }
  }

  lemma ReportLeavesNodes(w: World, id: nat, admitted: bool)
    requires id in w.reports
    ensures
      var after := DoReport(w, id, admitted).db;
      && after.results == w.db.results && after.certs == w.db.certs && after.codes == w.db.codes
      && after.nodes.Keys == w.db.nodes.Keys
      && forall n :: n in w.db.nodes ==> after.nodes[n].disabled == w.db.nodes[n].disabled
  {
  }

  ghost predicate Unrelated(w: World, after: World) {
    && after.db.results == w.db.results && after.db.certs == w.db.certs
    && after.lineage == w.lineage && after.latest == w.latest
    && forall n :: n in w.db.nodes ==> Enabled(after.db, n) == Enabled(w.db, n)
  }

  lemma UnrelatedKeepsDescended(w: World, after: World)
    requires Descended(w) && Basic(after) && Unrelated(w, after)
    ensures Descended(after)
  {
    UnrelatedKeepsLines(w.db, after.db, w.lineage, w.latest);
  }

  lemma CreatingCodeIsUnrelated(w: World, id: NodeId, code: Code, at: Instant)
    ensures Unrelated(w, DoCreateCode(w, id, code, at))
  {
  }

  lemma CreatingNodeIsUnrelated(w: World, id: NodeId, name: string, at: Instant)
    requires Remembered(w)
    ensures Unrelated(w, DoCreateNode(w, id, name, at))
  {
    if id !in w.everNodes {
      var db := Database.CreateNode(w.db, id, name, at).db;
      assert db == w.db.(nodes := db.nodes);
      assert forall n :: n in w.db.nodes ==> n in db.nodes && db.nodes[n] == w.db.nodes[n];
    }
  }

  lemma DisableNodeKeepsDescended(w: World, id: NodeId, at: Instant)
    requires Descended(w)
    ensures Descended(DoDisableNode(w, id, at))
  {
    DisableNodeKeepsBasic(w, id, at);
    DisableKeepsLines(w.db, w.lineage, w.latest, id, at);
  }

  lemma RemoveNodeKeepsDescended(w: World, id: NodeId)
    requires Descended(w)
    ensures Descended(DoRemoveNode(w, id))
  {
    RemoveNodeKeepsBasic(w, id);
    RemoveKeepsLines(w.db, w.lineage, w.latest, id);
  }

  lemma ReportIsUnrelated(w: World, id: nat, admitted: bool)
    requires id in w.reports
    ensures Unrelated(w, DoReport(w, id, admitted))
  {
    ReportLeavesNodes(w, id, admitted);
  }

  lemma SampleActionsAreUnrelated(w: World, cutoff: Instant, sample: nat)
    ensures Unrelated(w, DoPurge(w, cutoff)) && Unrelated(w, DoPrune(w, sample))
  {
    assert DoPurge(w, cutoff).db.nodes == w.db.nodes && DoPrune(w, sample).db.nodes == w.db.nodes;
    assert DoPurge(w, cutoff).db.certs == w.db.certs && DoPrune(w, sample).db.certs == w.db.certs;
    assert DoPurge(w, cutoff).db.results == w.db.results && DoPrune(w, sample).db.results == w.db.results;
  }

  lemma BeginningKeepsDescended(w: World, a: Action)
    requires Descended(w) && (a.BeginEnroll? || a.BeginRenew? || a.BeginReport?)
    ensures Descended(Do(w, a))
  {
    DoKeepsBasic(w, a);
    assert Do(w, a).db == w.db && Do(w, a).lineage == w.lineage && Do(w, a).latest == w.latest;
  }

  lemma DoKeepsDescended(w: World, a: Action)
    requires Descended(w)
    ensures Descended(Do(w, a))
  {
    match a
    case StepEnroll(id, serial) => if CanStepEnroll(w, id, serial) { EnrollKeepsDescended(w, id, serial); }
    case StepRenew(id, serial) => if CanStepRenew(w, id, serial) { RenewKeepsDescended(w, id, serial); }
    case DisableNode(id, at) => DisableNodeKeepsDescended(w, id, at);
    case RemoveNode(id) => RemoveNodeKeepsDescended(w, id);
    case BeginEnroll(_, _, _, _) | BeginRenew(_, _, _, _) | BeginReport(_, _, _, _) => BeginningKeepsDescended(w, a);
    case CreateNode(_, _, _) | CreateCode(_, _, _) | StepReport(_, _) | PurgeSamples(_) | PruneOldest(_) =>
      DoKeepsBasic(w, a);
      OtherActionsAreUnrelated(w, a);
      UnrelatedKeepsDescended(w, Do(w, a));
  }

  lemma OtherActionsAreUnrelated(w: World, a: Action)
    requires Remembered(w)
    requires a.CreateNode? || a.CreateCode? || a.StepReport? || a.PurgeSamples? || a.PruneOldest?
    ensures Unrelated(w, Do(w, a))
  {
    match a
    case CreateNode(id, name, at) => CreatingNodeIsUnrelated(w, id, name, at);
    case CreateCode(node, code, now) => CreatingCodeIsUnrelated(w, node, code, now);
    case StepReport(id, admitted) => if id in w.reports { ReportIsUnrelated(w, id, admitted); }
    case PurgeSamples(cutoff) => SampleActionsAreUnrelated(w, cutoff, 0);
    case PruneOldest(sample) => SampleActionsAreUnrelated(w, 0, sample);
  }

  lemma {:induction false} RunKeepsDescended(w: World, actions: seq<Action>)
    requires Descended(w)
    ensures Descended(Run(w, actions))
    decreases |actions|
  {
    if actions != [] {
      var init := actions[..|actions| - 1];
      RunKeepsDescended(w, init);
      DoKeepsDescended(Run(w, init), actions[|actions| - 1]);
    }
  }

  lemma EveryRunIsDescended(actions: seq<Action>)
    ensures Descended(After(actions))
  {
    RunKeepsDescended(INITIAL, actions);
  }

  // ---- Main results ----

  ghost predicate RenewedFrom(lines: Lines, s: Serial, current: Serial) {
    && s in lines && |lines[s].serials| > 1
    && lines[s].serials[|lines[s].serials| - 2] == current
  }

  /** In every run, two stored certificates renewed from one certificate are one certificate. */
  lemma RenewedAtMostOnce(actions: seq<Action>, a: Serial, b: Serial, current: Serial)
    requires a in After(actions).db.certs && b in After(actions).db.certs
    requires RenewedFrom(After(actions).lineage, a, current) && RenewedFrom(After(actions).lineage, b, current)
    ensures a == b
  {
    EveryRunIsDescended(actions);
    var w := After(actions);
    SharedParent(w.db, w.lineage, w.latest, a, current);
    SharedParent(w.db, w.lineage, w.latest, b, current);
  }

  lemma SharedParent(db: Db, lines: Lines, latest: Latest, s: Serial, current: Serial)
    requires LinesSound(db, lines, latest) && s in db.certs && RenewedFrom(lines, s, current)
    ensures current in lines && lines[current].code == lines[s].code
    ensures |lines[s].serials| == |lines[current].serials| + 1
    ensures
      var chain := Chain(lines, latest, lines[current].code);
      |lines[s].serials| <= |chain| && s == chain[|lines[current].serials|]
  {
    CertificateOnChain(db, lines, latest, s);
    var code := lines[s].code;
    var chain, k := Chain(lines, latest, code), |lines[s].serials| - 1;
    assert chain[k - 1] == current;
    assert LinkSound(db, lines, code, chain, k - 1);
  }

  /**
   A certificate descends from a stored enrollment by stored certificates of one node, all revoked but perhaps
   itself; each was issued at least 23 days after the one before, so that the chain is no longer than one
   more than the number of whole gaps in its time span.
   */
  ghost predicate SpacedFromRoot(db: Db, lines: Lines, s: Serial)
    requires s in db.certs
  {
    s in lines && lines[s].code in db.results &&
    var chain, root := lines[s].serials, db.results[lines[s].code].serial;
    && chain != [] && chain[0] == root && chain[|chain| - 1] == s
    && (forall i :: 0 <= i < |chain| ==> chain[i] in db.certs && db.certs[chain[i]].node == db.certs[s].node)
    && (forall i :: 0 <= i < |chain| - 1 ==> db.certs[chain[i]].revokedAt.Some?)
    && (forall i :: 0 < i < |chain| ==>
          db.certs[chain[i]].issuedAt - db.certs[chain[i - 1]].issuedAt >= RENEWAL_GAP)
    && |chain| <= 1 + (db.certs[s].issuedAt - db.certs[root].issuedAt) / RENEWAL_GAP
  }

  /** In every run, every stored certificate has a spaced chain of ancestors. */
  lemma ChainsAreSpaced(actions: seq<Action>, s: Serial)
    requires s in After(actions).db.certs
    ensures SpacedFromRoot(After(actions).db, After(actions).lineage, s)
  {
    EveryRunIsDescended(actions);
    ChainIsSpaced(After(actions).db, After(actions).lineage, After(actions).latest, s);
  }

  lemma ChainIsSpaced(db: Db, lines: Lines, latest: Latest, s: Serial)
    requires LinesSound(db, lines, latest) && s in db.certs
    ensures SpacedFromRoot(db, lines, s)
  {
    CertificateOnChain(db, lines, latest, s);
    var code, chain := lines[s].code, lines[s].serials;
    var full := Chain(lines, latest, code);
    assert chain == full[..|chain|];
    forall i | 0 <= i < |chain| ensures LinkSound(db, lines, code, full, i) {
    }
    RowsAreSpaced(db, lines, code, full, chain);
    GapsFitSpan(db, lines, code, full, |chain| - 1);
  }

  /** The rows of the first links of a chain: of one node, spaced, and revoked but for the last of them. */
  lemma RowsAreSpaced(db: Db, lines: Lines, code: Code, full: seq<Serial>, chain: seq<Serial>)
    requires code in db.results && chain <= full
    requires forall i :: 0 <= i < |chain| ==> LinkSound(db, lines, code, full, i)
    ensures forall i :: 0 <= i < |chain| ==>
              chain[i] in db.certs && db.certs[chain[i]].node == db.results[code].node
    ensures forall i :: 0 <= i < |chain| - 1 ==> db.certs[chain[i]].revokedAt.Some?
    ensures forall i :: 0 < i < |chain| ==>
              db.certs[chain[i]].issuedAt - db.certs[chain[i - 1]].issuedAt >= RENEWAL_GAP
  {
    forall i | 0 <= i < |chain|
      ensures chain[i] in db.certs && db.certs[chain[i]].node == db.results[code].node
      ensures i < |chain| - 1 ==> db.certs[chain[i]].revokedAt.Some?
    {
      assert LinkSound(db, lines, code, full, i);
    }
    forall i | 0 < i < |chain|
      ensures db.certs[chain[i]].issuedAt - db.certs[chain[i - 1]].issuedAt >= RENEWAL_GAP
    {
      assert LinkSound(db, lines, code, full, i) && LinkSound(db, lines, code, full, i - 1);
    }
  }

  lemma GapsFitSpan(db: Db, lines: Lines, code: Code, chain: seq<Serial>, k: nat)
    requires code in db.results && k < |chain|
    requires forall i :: 0 <= i <= k ==> LinkSound(db, lines, code, chain, i)
    ensures chain[0] in db.certs && chain[k] in db.certs
    ensures k <= (db.certs[chain[k]].issuedAt - db.certs[chain[0]].issuedAt) / RENEWAL_GAP
  {
    GapsAddUp(db, lines, code, chain, k);
    WholeGaps(k, db.certs[chain[k]].issuedAt - db.certs[chain[0]].issuedAt);
  }

  lemma WholeGaps(gaps: nat, span: Millis)
    requires span >= gaps * RENEWAL_GAP
    ensures gaps <= span / RENEWAL_GAP
  {
  }

  lemma {:induction false} GapsAddUp(db: Db, lines: Lines, code: Code, chain: seq<Serial>, k: nat)
    requires code in db.results && k < |chain|
    requires forall i :: 0 <= i <= k ==> LinkSound(db, lines, code, chain, i)
    ensures chain[0] in db.certs && chain[k] in db.certs
    ensures db.certs[chain[k]].issuedAt - db.certs[chain[0]].issuedAt >= k * RENEWAL_GAP
  {
    assert LinkSound(db, lines, code, chain, k);
    if k > 0 {
      assert LinkSound(db, lines, code, chain, k - 1);
      GapsAddUp(db, lines, code, chain, k - 1);
    }
  }

  ghost predicate Live(db: Db, s: Serial) {
    s in db.certs && db.certs[s].revokedAt.None?
  }

  /**
   In every run, while its node is enabled an enrollment has exactly one live certificate in its chain: the
   latest, of which every other certificate of the chain is an ancestor.
   */
  lemma OneLiveCertificatePerEnrollment(actions: seq<Action>, code: Code, s: Serial)
    requires code in After(actions).db.results && s in After(actions).db.certs
    requires Enabled(After(actions).db, After(actions).db.results[code].node)
    ensures
      var w := After(actions);
      && code in w.latest && Live(w.db, w.latest[code]) && w.latest[code] in w.lineage
      && (s in w.lineage && w.lineage[s].code == code ==>
            && (Live(w.db, s) <==> s == w.latest[code])
            && w.lineage[s].serials <= w.lineage[w.latest[code]].serials)
  {
    EveryRunIsDescended(actions);
    var w := After(actions);
    assert ChainSound(w.db, w.lineage, w.latest, code);
    var chain := Chain(w.lineage, w.latest, code);
    assert LinkSound(w.db, w.lineage, code, chain, |chain| - 1);
    CertificateOnChain(w.db, w.lineage, w.latest, s);
    if w.lineage[s].code == code && Live(w.db, s) {
      LiveIsLast(w.db, w.lineage, w.latest, s);
    }
  }

  /** The enrollment that a certificate descends from is stored, and the node is enabled and the certificate its last. */
  ghost predicate Current(w: World, s: Serial)
    requires s in w.db.certs
  {
    && s in w.lineage && w.lineage[s].code in w.db.results && w.lineage[s].code in w.latest
    && w.latest[w.lineage[s].code] == s && Enabled(w.db, w.db.certs[s].node)
  }

  /**
   In every run, what looking a stored certificate up answers, from what has happened to it: revoked if its node
   was disabled or it has been renewed, else expired at its time, else the node of its enrollment.
   */
  lemma LookupFollowsHistory(actions: seq<Action>, s: Serial, at: Instant)
    requires s in After(actions).db.certs
    ensures
      var w := After(actions);
      && s in w.lineage && w.lineage[s].code in w.db.results
      && NodeForCertificate(w.db, s, at)
         == if !Current(w, s) then Err(CertificateRevoked)
            else if ToMillis(at) >= w.db.certs[s].expiresAt then Err(CertificateExpired)
            else Ok(w.db.results[w.lineage[s].code].node)
  {
    EveryRunIsDescended(actions);
    LiveIsCurrent(After(actions), s);
  }

  lemma LiveIsCurrent(w: World, s: Serial)
    requires Descended(w) && s in w.db.certs
    ensures s in w.lineage && w.lineage[s].code in w.db.results
    ensures w.db.certs[s].node == w.db.results[w.lineage[s].code].node
    ensures w.db.certs[s].revokedAt.None? && Enabled(w.db, w.db.certs[s].node) <==> Current(w, s)
  {
    CertificateOnChain(w.db, w.lineage, w.latest, s);
    var code := w.lineage[s].code;
    var chain := Chain(w.lineage, w.latest, code);
    assert ChainSound(w.db, w.lineage, w.latest, code);
    assert LinkSound(w.db, w.lineage, code, chain, |chain| - 1);
    if w.db.certs[s].revokedAt.None? {
      LiveIsLast(w.db, w.lineage, w.latest, s);
    }
  }

  /** The certificate of a stored enrollment is stored, and heads its own line. */
  lemma RootOfChain(w: World, code: Code)
    requires Descended(w) && code in w.db.results
    ensures
      var s := w.db.results[code].serial;
      s in w.db.certs && s in w.lineage && w.lineage[s].code == code && w.db.certs[s].node == w.db.results[code].node
  {
    assert ChainSound(w.db, w.lineage, w.latest, code);
    assert LinkSound(w.db, w.lineage, code, Chain(w.lineage, w.latest, code), 0);
  }

  function LiveOf(db: Db, node: NodeId): set<Serial> {
    set s | s in db.certs && db.certs[s].node == node && db.certs[s].revokedAt.None?
  }

  function EnrollmentsOf(db: Db, node: NodeId): set<Code> {
    set c | c in db.results && db.results[c].node == node
  }

  /**
   Conservation: in every run, an enabled node has exactly as many live certificates as stored enrollments,
   and a disabled node has none.
   */
  lemma LiveCertificatesAreConserved(actions: seq<Action>, node: NodeId)
    requires node in After(actions).db.nodes
    ensures
      var db := After(actions).db;
      |LiveOf(db, node)| == if db.nodes[node].disabled then 0 else |EnrollmentsOf(db, node)|
  {
    EveryRunIsDescended(actions);
    var w := After(actions);
    var live, enrollments := LiveOf(w.db, node), EnrollmentsOf(w.db, node);
    if w.db.nodes[node].disabled {
      forall s | s in live ensures false {
        LiveIsLast(w.db, w.lineage, w.latest, s);
      }
      assert live == {};
    } else {
      LatestIsBijection(w.db, w.lineage, w.latest, node);
      InjectiveImageSize((c: Code) => if c in w.latest then w.latest[c] else "", enrollments, live);
    }
  }

  lemma LatestIsBijection(db: Db, lines: Lines, latest: Latest, node: NodeId)
    requires LinesSound(db, lines, latest) && Enabled(db, node)
    ensures
      var last := (c: Code) => if c in latest then latest[c] else "";
      && InjectiveOn(last, EnrollmentsOf(db, node))
      && LiveOf(db, node) == set c | c in EnrollmentsOf(db, node) :: last(c)
  {
    var last := (c: Code) => if c in latest then latest[c] else "";
    var live, enrollments := LiveOf(db, node), EnrollmentsOf(db, node);
    forall c | c in enrollments
      ensures last(c) in live && last(c) in lines && lines[last(c)].code == c
    {
      assert ChainSound(db, lines, latest, c);
      var chain := Chain(lines, latest, c);
      assert LinkSound(db, lines, c, chain, |chain| - 1);
    }
    forall s | s in live ensures s in lines && lines[s].code in enrollments && last(lines[s].code) == s {
      LiveIsLast(db, lines, latest, s);
      CertificateOnChain(db, lines, latest, s);
    }
  }
}
