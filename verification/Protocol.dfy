/**
 The whole server as a state machine: the database, every request in progress, and history that the
 server does not keep. A run is any sequence of actions; an action that cannot happen leaves the world
 as it is, so a statement about all sequences is a statement about all interleavings.
 */
module Protocol {
  import opened Common
  import opened Numerals
  import opened Database
  import opened Identity
  import opened Handlers

  /** History: a certificate persisted by an enrollment, with the public key that asked for it. */
  datatype Enrollment = Enrollment(issued: Issued, key: PublicKey)

  /** History: the certificates from an enrollment down to this one, each renewed as the next. */
  datatype Lineage = Lineage(code: Code, serials: seq<Serial>)

  datatype World = World(
    db: Db,
    signed: Signatures,
    enrolls: map<nat, EnrollCall>,
    renews: map<nat, RenewCall>,
    reports: map<nat, ReportCall>,
    // History.
    everNodes: set<NodeId>,
    codeNode: map<Code, NodeId>,                // the node of every code ever created
    enrollments: map<Code, seq<Enrollment>>,    // what was persisted for each code, in order
    lineage: map<Serial, Lineage>,
    latest: map<Code, Serial>,                  // the last certificate persisted in a code's line of renewals
    received: map<NodeId, seq<Millis>>,         // the receive times of every recorded report
    codeTime: map<Code, Instant>,               // when every code was created
    reporters: map<nat, Client>,                // whom a report's credential identified, when it authenticated
    origins: map<nat, nat>)                     // the report that every sample row came from

  const INITIAL := World(EMPTY, map[], map[], map[], map[], {}, map[], map[], map[], map[], map[],
                           map[], map[], map[])

  datatype Action =
    | CreateNode(id: NodeId, name: string, at: Instant)
    | DisableNode(id: NodeId, at: Instant)
    | RemoveNode(id: NodeId)
    | CreateCode(node: NodeId, code: Code, now: Instant)
    | BeginEnroll(call: nat, code: Code, key: PublicKey, now: Instant)
    | StepEnroll(call: nat, serial: nat)
    | BeginRenew(call: nat, credential: Credential, key: PublicKey, now: Instant)
    | StepRenew(call: nat, serial: nat)
    | BeginReport(call: nat, credential: Credential, report: Report, now: Instant)
    | StepReport(call: nat, admitted: bool)
    | PurgeSamples(cutoff: Instant)
    | PruneOldest(sample: nat)

  function Descend(parent: Lineage, child: Serial): Lineage {
    Lineage(parent.code, parent.serials + [child])
  }

  function HistoryOf<K, V>(history: map<K, seq<V>>, k: K): seq<V> {
    if k in history then history[k] else []
  }

  // Serial numbers are drawn fresh: the authority never signs two certificates with one serial.
  predicate Drawable(w: World, serial: nat) {
    SerialText(serial) !in w.signed
  }

  function DoEnroll(w: World, id: nat, serial: nat): World
    requires CanStepEnroll(w, id, serial)
  {
    var call := w.enrolls[id];
    var next := EnrollStep(w.db, call, serial);
    var persisted := call.phase.Committing? && next.1.phase.Enrolled?;
    w.(db := next.0,
       enrolls := w.enrolls[id := next.1],
       signed := if call.phase.Issuing? then w.signed[SerialText(serial) := next.1.phase.issued.certificate]
                 else w.signed,
       enrollments := if persisted
                      then w.enrollments[call.code := HistoryOf(w.enrollments, call.code)
                                                      + [Enrollment(call.phase.issued, call.key)]]
                      else w.enrollments,
       lineage := if persisted
                  then w.lineage[call.phase.issued.serial := Lineage(call.code, [call.phase.issued.serial])]
                  else w.lineage,
       latest := if persisted then w.latest[call.code := call.phase.issued.serial] else w.latest)
  }

  function DoRenew(w: World, id: nat, serial: nat): World
    requires CanStepRenew(w, id, serial)
  {
    var call := w.renews[id];
    var next := RenewStep(w.db, w.signed, call, serial);
    var persisted := call.phase.CommittingRenewal? && next.1.phase.renewal.Ok?
                     && call.phase.client.serial in w.lineage;
    w.(db := next.0,
       renews := w.renews[id := next.1],
       signed := if call.phase.IssuingRenewal? then w.signed[SerialText(serial) := next.1.phase.issued.certificate]
                 else w.signed,
       lineage := if persisted
                  then w.lineage[call.phase.issued.serial := Descend(w.lineage[call.phase.client.serial],
                                                                     call.phase.issued.serial)]
                  else w.lineage,
       latest := if persisted then w.latest[w.lineage[call.phase.client.serial].code := call.phase.issued.serial]
                 else w.latest)
  }

  function DoReport(w: World, id: nat, admitted: bool): World
    requires id in w.reports
  {
    var call := w.reports[id];
    var next := ReportStep(w.db, w.signed, call, admitted);
    var recorded := call.phase.Recording? && next.1.phase.answer.Ok?;
    var client := if call.phase.Authenticating? then Identify(w.db, w.signed, call.phase.credential, call.now)
                  else Err(Unverified);
    w.(db := next.0,
       reports := w.reports[id := next.1],
       received := if recorded
                   then w.received[call.report.node := HistoryOf(w.received, call.report.node) + [ToMillis(call.now)]]
                   else w.received,
       reporters := if client.Ok? then w.reporters[id := client.value] else w.reporters,
       origins := if recorded then w.origins[w.db.nextSample := id] else w.origins)
  }

  function DoCreateNode(w: World, id: NodeId, name: string, at: Instant): World {
    if id in w.everNodes then w   // node ids are drawn fresh
    else w.(db := Database.CreateNode(w.db, id, name, at).db, everNodes := w.everNodes + {id})
  }

  function DoDisableNode(w: World, id: NodeId, at: Instant): World {
    w.(db := Database.DisableNode(w.db, id, at).db)
  }

  function DoRemoveNode(w: World, id: NodeId): World {
    w.(db := Database.RemoveNode(w.db, id).db)
  }

  function DoCreateCode(w: World, node: NodeId, code: Code, now: Instant): World {
    if code in w.codeNode then w   // enrollment codes are drawn fresh
    else w.(db := CreateEnrollmentCode(w.db, node, code, now + CODE_LIFETIME).db,
            codeNode := w.codeNode[code := node],
            codeTime := w.codeTime[code := now])
  }

  function DoBeginEnroll(w: World, id: nat, code: Code, key: PublicKey, now: Instant): World {
    if id in w.enrolls then w
    else w.(enrolls := w.enrolls[id := EnrollCall(code, key, now, ReplayLookup)])
  }

  function DoBeginRenew(w: World, id: nat, credential: Credential, key: PublicKey, now: Instant): World {
    if id in w.renews then w
    else w.(renews := w.renews[id := RenewCall(key, now, Identifying(credential))])
  }

  function DoBeginReport(w: World, id: nat, credential: Credential, report: Report, now: Instant): World {
    if id in w.reports then w
    else w.(reports := w.reports[id := ReportCall(report, now, Authenticating(credential))])
  }

  function DoPurge(w: World, cutoff: Instant): World {
    w.(db := PurgeSamplesBefore(w.db, cutoff))
  }

  ghost function DoPrune(w: World, sample: nat): World {
    w.(db := w.db.(samples := if IsOldest(w.db.samples, sample) then w.db.samples - {sample} else w.db.samples))
  }

  predicate CanStepEnroll(w: World, id: nat, serial: nat) {
    id in w.enrolls && (w.enrolls[id].phase.Issuing? ==> Drawable(w, serial))
  }

  predicate CanStepRenew(w: World, id: nat, serial: nat) {
    id in w.renews && (w.renews[id].phase.IssuingRenewal? ==> Drawable(w, serial))
  }

  ghost function Do(w: World, a: Action): World {
    match a
    case CreateNode(id, name, at) => DoCreateNode(w, id, name, at)
    case DisableNode(id, at) => DoDisableNode(w, id, at)
    case RemoveNode(id) => DoRemoveNode(w, id)
    case CreateCode(node, code, now) => DoCreateCode(w, node, code, now)
    case BeginEnroll(id, code, key, now) => DoBeginEnroll(w, id, code, key, now)
    case StepEnroll(id, serial) => if CanStepEnroll(w, id, serial) then DoEnroll(w, id, serial) else w
    case BeginRenew(id, credential, key, now) => DoBeginRenew(w, id, credential, key, now)
    case StepRenew(id, serial) => if CanStepRenew(w, id, serial) then DoRenew(w, id, serial) else w
    case BeginReport(id, credential, report, now) => DoBeginReport(w, id, credential, report, now)
    case StepReport(id, admitted) => if id in w.reports then DoReport(w, id, admitted) else w
    case PurgeSamples(cutoff) => DoPurge(w, cutoff)
    case PruneOldest(sample) => DoPrune(w, sample)
  }

  ghost function Run(w: World, actions: seq<Action>): World
    decreases |actions|
  {
    if actions == [] then w
    else Do(Run(w, actions[..|actions| - 1]), actions[|actions| - 1])
  }

  ghost function After(actions: seq<Action>): World {
    Run(INITIAL, actions)
  }

  lemma {:induction false} RunSplits(w: World, a: seq<Action>, b: seq<Action>)
    ensures Run(w, a + b) == Run(Run(w, a), b)
    decreases |b|
  {
    if b == [] {
      assert a + b == a;
    } else {
      var init := b[..|b| - 1];
      assert (a + b)[..|a + b| - 1] == a + init;
      RunSplits(w, a, init);
    }
  }
}

