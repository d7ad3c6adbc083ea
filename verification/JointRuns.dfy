/**
 One agent and the server together, with lost replies and crashes at any point. The server's part runs any
 actions whatever, which include the requests of every other client.
 */
module JointRuns {
  import opened Common
  import opened Database
  import opened Identity
  import opened Handlers
  import opened Protocol
  import opened Agreement
  import opened Credentials

  datatype AgentPhase =
    | Stopped
    | KeyReady(key: PublicKey)
    | Awaiting(call: nat, key: PublicKey)
    | Accepted(key: PublicKey, certificate: Certificate)
    | KeyRewritten(certificate: Certificate)
    | CertificateWritten
    | Ready

  datatype Joint = Joint(server: World, code: Code, disk: Disk, phase: AgentPhase)

  const AUTHORITY: Authority := "agent-ca"

  datatype JointAction =
    | Server(action: Action)
    | Start(drawn: PublicKey)
    | Send(call: nat, now: Instant)
    | Receive(at: Instant)
    | Write
    | Crash

  ghost function JointDo(j: Joint, a: JointAction): Joint {
    match a
    case Server(action) => j.(server := Do(j.server, action))
    case Crash => j.(phase := Stopped)
    case Start(drawn) =>
      if !j.phase.Stopped? then j
      else if Complete(j.disk) then j.(phase := Ready)
      else if !CanEnroll(j.disk) then j
      else if j.disk.key.Some? then j.(phase := KeyReady(j.disk.key.value))
      else j.(disk := j.disk.(key := Some(drawn)), phase := KeyReady(drawn))
    case Send(call, now) =>
      if !j.phase.KeyReady? || call in j.server.enrolls then j
      else j.(server := DoBeginEnroll(j.server, call, j.code, j.phase.key, now),
              phase := Awaiting(call, j.phase.key))
    case Receive(at) =>
      if !j.phase.Awaiting? || j.phase.call !in j.server.enrolls || !j.server.enrolls[j.phase.call].phase.Enrolled? then j
      else if !Succeeded(j.server, j.phase.call) then j.(phase := Stopped)
      else
        var certificate := j.server.enrolls[j.phase.call].phase.outcome.value.certificate;
        if !Signed(j.server.signed, certificate) || !Acceptable(certificate, j.phase.key, at) then j.(phase := Stopped)
        else j.(phase := Accepted(j.phase.key, certificate))
    case Write =>
      match j.phase
      case Accepted(key, certificate) => j.(disk := j.disk.(key := Some(key)), phase := KeyRewritten(certificate))
      case KeyRewritten(certificate) =>
        j.(disk := j.disk.(certificate := Some(certificate)), phase := CertificateWritten)
      case CertificateWritten => j.(disk := j.disk.(authority := Some(AUTHORITY)), phase := Ready)
      case _ => j
  }

  ghost function JointRun(j: Joint, actions: seq<JointAction>): Joint
    decreases |actions|
  {
    if actions == [] then j
    else JointDo(JointRun(j, actions[..|actions| - 1]), actions[|actions| - 1])
  }

  ghost function NewAgent(code: Code): Joint {
    Joint(INITIAL, code, Disk(None, None, None), Stopped)
  }

  // ---- Invariant ----

  /** This is the certificate persisted for the agent's code, and it is for the agent's key. */
  ghost predicate IsOurs(server: World, code: Code, key: Option<PublicKey>, certificate: Certificate) {
    && key == Some(certificate.publicKey)
    && code in server.enrollments && |server.enrollments[code]| == 1
    && server.enrollments[code][0].issued.certificate == certificate
  }

  ghost predicate PhaseSound(j: Joint) {
    match j.phase
    case Stopped => true
    case KeyReady(key) => j.disk == Disk(Some(key), None, None)
    case Awaiting(call, key) =>
      && j.disk == Disk(Some(key), None, None)
      && call in j.server.enrolls && j.server.enrolls[call].code == j.code && j.server.enrolls[call].key == key
    case Accepted(key, certificate) =>
      j.disk == Disk(Some(key), None, None) && IsOurs(j.server, j.code, j.disk.key, certificate)
    case KeyRewritten(certificate) =>
      j.disk.certificate.None? && j.disk.authority.None? && IsOurs(j.server, j.code, j.disk.key, certificate)
    case CertificateWritten => j.disk.certificate.Some? && j.disk.authority.None?
    case Ready => Complete(j.disk)
  }

  ghost predicate JointSound(j: Joint) {
    && Agreed(j.server)
    && IsPrefix(j.disk)
    && PhaseSound(j)
    && (j.disk.certificate.Some? ==> IsOurs(j.server, j.code, j.disk.key, j.disk.certificate.value))
  }

  /** What the server has persisted for a code, and which calls it has taken, are never taken back. */
  ghost predicate Remembers(w: World, after: World) {
    && (forall c :: c in w.enrollments && |w.enrollments[c]| == 1 ==>
          c in after.enrollments && |after.enrollments[c]| == 1 && after.enrollments[c] == w.enrollments[c])
    && (forall id :: id in w.enrolls ==>
          id in after.enrolls && after.enrolls[id].code == w.enrolls[id].code && after.enrolls[id].key == w.enrolls[id].key)
  }

  lemma EnrollRemembers(w: World, id: nat, serial: nat)
    requires Agreed(w) && CanStepEnroll(w, id, serial)
    ensures Remembers(w, DoEnroll(w, id, serial))
  {
    var call, after := w.enrolls[id], DoEnroll(w, id, serial);
    if call.phase.Committing? && EnrollStep(w.db, call, serial).1.phase.Enrolled? {
      CommitIsFirst(w, id, serial);
    } else {
      assert after.enrollments == w.enrollments;
    }
  }

  lemma ServerRemembers(w: World, a: Action)
    requires Agreed(w)
    ensures Remembers(w, Do(w, a))
  {
    if a.StepEnroll? {
      if CanStepEnroll(w, a.call, a.serial) {
        EnrollRemembers(w, a.call, a.serial);
      }
    } else {
      OtherActionsRemember(w, a);
    }
  }

  lemma BeginningRemembers(w: World, id: nat, code: Code, key: PublicKey, now: Instant)
    ensures
      var after := DoBeginEnroll(w, id, code, key, now);
      && after.enrollments == w.enrollments
      && forall id :: id in w.enrolls ==> id in after.enrolls && after.enrolls[id] == w.enrolls[id]
  {
    if id !in w.enrolls {
      assert DoBeginEnroll(w, id, code, key, now).enrolls == w.enrolls[id := EnrollCall(code, key, now, ReplayLookup)];
    }
  }

  lemma OtherActionsRemember(w: World, a: Action)
    requires !a.StepEnroll?
    ensures Do(w, a).enrollments == w.enrollments
    ensures forall id :: id in w.enrolls ==> id in Do(w, a).enrolls && Do(w, a).enrolls[id] == w.enrolls[id]
  {
    if a.BeginEnroll? {
      BeginningRemembers(w, a.call, a.code, a.key, a.now);
    } else {
      NoEnrollTouched(w, a);
    }
  }

  lemma NoEnrollTouched(w: World, a: Action)
    requires !a.StepEnroll? && !a.BeginEnroll?
    ensures Do(w, a).enrolls == w.enrolls && Do(w, a).enrollments == w.enrollments
  {
  }

  lemma ServerKeepsJointSound(j: Joint, a: Action)
    requires JointSound(j)
    ensures JointSound(j.(server := Do(j.server, a)))
  {
    DoKeepsAgreed(j.server, a);
    ServerRemembers(j.server, a);
  }

  lemma ReceiveKeepsJointSound(j: Joint, at: Instant)
    requires JointSound(j)
    ensures JointSound(JointDo(j, Receive(at)))
  {
    if j.phase.Awaiting? && Succeeded(j.server, j.phase.call) {
      assert Faithful(j.server.enrollments, j.server.enrolls[j.phase.call]);
    }
  }

  lemma JointDoKeepsSound(j: Joint, a: JointAction)
    requires JointSound(j)
    ensures JointSound(JointDo(j, a))
  {
    match a
    case Server(action) => ServerKeepsJointSound(j, action);
    case Receive(at) => ReceiveKeepsJointSound(j, at);
    case Send(call, now) => SendKeepsJointSound(j, call, now);
    case Start(_) | Write | Crash => DiskActionKeepsJointSound(j, a);
  }

  lemma SendKeepsJointSound(j: Joint, call: nat, now: Instant)
    requires JointSound(j)
    ensures JointSound(JointDo(j, Send(call, now)))
  {
    if j.phase.KeyReady? && call !in j.server.enrolls {
      DoKeepsAgreed(j.server, BeginEnroll(call, j.code, j.phase.key, now));
      BeginIsRequest(j.server, call, j.code, j.phase.key, now);
      assert JointDo(j, Send(call, now))
          == j.(server := DoBeginEnroll(j.server, call, j.code, j.phase.key, now), phase := Awaiting(call, j.phase.key));
    }
  }

  lemma DiskActionKeepsJointSound(j: Joint, a: JointAction)
    requires JointSound(j) && (a.Start? || a.Write? || a.Crash?)
    ensures JointSound(JointDo(j, a))
  {
    if a.Write? {
      WriteKeepsJointSound(j);
    } else {
      assert JointDo(j, a) == j.(disk := JointDo(j, a).disk, phase := JointDo(j, a).phase);
    }
  }

  lemma WriteKeepsJointSound(j: Joint)
    requires JointSound(j)
    ensures JointSound(JointDo(j, Write))
  {
    match j.phase
    case Accepted(key, certificate) =>
      assert JointDo(j, Write) == j.(disk := j.disk.(key := Some(key)), phase := KeyRewritten(certificate));
    case KeyRewritten(certificate) =>
      assert JointDo(j, Write) == j.(disk := j.disk.(certificate := Some(certificate)), phase := CertificateWritten);
    case CertificateWritten =>
      assert JointDo(j, Write) == j.(disk := j.disk.(authority := Some(AUTHORITY)), phase := Ready);
    case Stopped | KeyReady(_) | Awaiting(_, _) | Ready =>
      assert JointDo(j, Write) == j;
  }

  lemma {:induction false} JointRunKeepsSound(j: Joint, actions: seq<JointAction>)
    requires JointSound(j)
    ensures JointSound(JointRun(j, actions))
    decreases |actions|
  {
    if actions != [] {
      var init := actions[..|actions| - 1];
      JointRunKeepsSound(j, init);
      JointDoKeepsSound(JointRun(j, init), actions[|actions| - 1]);
    }
  }

  // ---- Main results ----

  /** In every joint run the files are a prefix of key, certificate, authority, and a stored certificate is the
      one certificate ever persisted for the agent's code, and is for the stored key. */
  lemma DiskIsAlwaysPrefix(code: Code, actions: seq<JointAction>)
    ensures
      var j := JointRun(NewAgent(code), actions);
      && IsPrefix(j.disk)
      && (j.disk.certificate.Some? ==> IsOurs(j.server, code, j.disk.key, j.disk.certificate.value))
  {
    CodeIsKept(NewAgent(code), actions);
    JointRunKeepsSound(NewAgent(code), actions);
  }

  lemma {:induction false} CodeIsKept(j: Joint, actions: seq<JointAction>)
    ensures JointRun(j, actions).code == j.code
    decreases |actions|
  {
    if actions != [] {
      CodeIsKept(j, actions[..|actions| - 1]);
    }
  }

  /** Once a key is on disk it stays, through every retry, crash and lost reply. */
  lemma {:induction false} KeyNeverChanges(code: Code, before: seq<JointAction>, later: seq<JointAction>)
    requires JointRun(NewAgent(code), before).disk.key.Some?
    ensures JointRun(JointRun(NewAgent(code), before), later).disk.key == JointRun(NewAgent(code), before).disk.key
    decreases |later|
  {
    if later != [] {
      var init, j := later[..|later| - 1], JointRun(NewAgent(code), before);
      KeyNeverChanges(code, before, init);
      JointRunKeepsSound(NewAgent(code), before);
      JointRunKeepsSound(j, init);
      KeyStays(JointRun(j, init), later[|later| - 1]);
    }
  }

  lemma KeyStays(j: Joint, a: JointAction)
    requires JointSound(j) && j.disk.key.Some?
    ensures JointDo(j, a).disk.key == j.disk.key
  {
  }

  ghost predicate HalfWritten(j: Joint) {
    j.phase == Stopped && j.disk.key.Some? && j.disk.certificate.Some? && j.disk.authority.None?
  }

  /** A crash between the last two writes is not recovered from: the agent refuses to start, for ever. */
  lemma {:induction false} HalfWrittenIsStuck(j: Joint, actions: seq<JointAction>)
    requires HalfWritten(j)
    ensures JointRun(j, actions).disk == j.disk && JointRun(j, actions).phase == Stopped
    decreases |actions|
  {
    if actions != [] {
      HalfWrittenIsStuck(j, actions[..|actions| - 1]);
    }
  }

  // ---- Retrying ----

  predicate StepsCall(a: Action, id: nat) {
    a.StepEnroll? && a.call == id
  }

  lemma OthersLeaveCall(w: World, a: Action, id: nat)
    requires id in w.enrolls && !StepsCall(a, id)
    ensures id in Do(w, a).enrolls && Do(w, a).enrolls[id] == w.enrolls[id]
  {
    if !a.StepEnroll? {
      OtherActionsRemember(w, a);
    }
  }

  lemma {:induction false} RunLeavesCall(w: World, actions: seq<Action>, id: nat)
    requires Agreed(w) && id in w.enrolls && forall a :: a in actions ==> !StepsCall(a, id)
    ensures
      var after := Run(w, actions);
      && Agreed(after) && Remembers(w, after)
      && id in after.enrolls && after.enrolls[id] == w.enrolls[id]
    decreases |actions|
  {
    if actions != [] {
      var init, last := actions[..|actions| - 1], actions[|actions| - 1];
      RunLeavesCall(w, init, id);
      OthersLeaveCall(Run(w, init), last, id);
      ServerRemembers(Run(w, init), last);
      DoKeepsAgreed(Run(w, init), last);
    }
  }

  /** A request for a code that has persisted a certificate for the same key. */
  ghost predicate IsRetry(w: World, id: nat) {
    && id in w.enrolls && w.enrolls[id].phase == ReplayLookup
    && w.enrolls[id].code in w.enrollments && |w.enrollments[w.enrolls[id].code]| == 1
    && w.enrollments[w.enrolls[id].code][0].key == w.enrolls[id].key
  }

  /** Once a call has committed, whether or not its reply arrives, the same request again is a retry. */
  lemma RepeatedRequestIsRetry(w: World, first: nat, again: nat, now: Instant)
    requires Agreed(w) && first in w.enrolls && w.enrolls[first].phase.Committing? && again !in w.enrolls
    requires EnrollStep(w.db, w.enrolls[first], 0).1.phase.Enrolled?
    ensures
      var call := w.enrolls[first];
      var repeated := Do(Do(w, StepEnroll(first, 0)), BeginEnroll(again, call.code, call.key, now));
      && Agreed(repeated) && IsRetry(repeated, again) && call.code in repeated.db.results
      && repeated.enrollments[call.code][0].issued == call.phase.issued
  {
    var call, committed := w.enrolls[first], DoEnroll(w, first, 0);
    CommitEffect(w.db, call, 0);
    PersistingEffect(w, first, 0);
    DoKeepsAgreed(w, StepEnroll(first, 0));
    StepIsEnroll(w, first);
    DoKeepsAgreed(committed, BeginEnroll(again, call.code, call.key, now));
    RequestIsPending(committed, again, call.code, call.key, now);
  }

  lemma StepIsEnroll(w: World, id: nat)
    requires CanStepEnroll(w, id, 0)
    ensures Do(w, StepEnroll(id, 0)) == DoEnroll(w, id, 0)
  {
  }

  lemma RequestIsPending(w: World, id: nat, code: Code, key: PublicKey, now: Instant)
    requires id !in w.enrolls
    ensures
      var begun := Do(w, BeginEnroll(id, code, key, now));
      && begun.db == w.db && begun.enrollments == w.enrollments
      && id in begun.enrolls && begun.enrolls[id] == EnrollCall(code, key, now, ReplayLookup)
  {
  }

  /**
   A retry, with anything else happening before and between its two steps, while its node is not removed:
   it never issues, it ends after the second step, it succeeds exactly when the stored certificate is active
   then, and it succeeds with that certificate. Whether the code has expired, been used or been replaced
   plays no part.
   */
  lemma RetryReceivesStored(w: World, id: nat, first: seq<Action>, second: seq<Action>)
    requires Agreed(w) && IsRetry(w, id)
    requires forall a :: a in first + second ==> !StepsCall(a, id)
    requires w.enrolls[id].code in Run(w, first).db.results
    ensures
      var call := w.enrolls[id];
      var issued := w.enrollments[call.code][0].issued;
      var waiting := Run(Do(Run(w, first), StepEnroll(id, 0)), second);
      var done := Do(waiting, StepEnroll(id, 0));
      && id in done.enrolls && done.enrolls[id].phase.Enrolled?
      && (Succeeded(done, id) <==> NodeForCertificate(waiting.db, issued.serial, call.now).Ok?)
      && (Succeeded(done, id) ==> SameIssue(done.enrolls[id].phase.outcome.value, issued))
  {
    assert forall a :: a in first ==> a in first + second;
    assert forall a :: a in second ==> a in first + second;
    RetryLooksUp(w, id, first);
    RetryChecks(Do(Run(w, first), StepEnroll(id, 0)), id, second);
  }

  ghost predicate IsChecking(w: World, id: nat, call: EnrollCall, issued: Issued) {
    && id in w.enrolls && w.enrolls[id].phase.CheckActive?
    && w.enrolls[id] == call.(phase := w.enrolls[id].phase)
    && w.enrolls[id].phase.replay.serial == issued.serial
    && SameIssue(Replayed(w.enrolls[id].phase.replay), issued)
  }

  lemma RetryLooksUp(w: World, id: nat, first: seq<Action>)
    requires Agreed(w) && IsRetry(w, id)
    requires forall a :: a in first ==> !StepsCall(a, id)
    requires w.enrolls[id].code in Run(w, first).db.results
    ensures
      var looked := Do(Run(w, first), StepEnroll(id, 0));
      Agreed(looked) && IsChecking(looked, id, w.enrolls[id], w.enrollments[w.enrolls[id].code][0].issued)
  {
    RunLeavesCall(w, first, id);
    LookupFinds(Run(w, first), id);
  }

  lemma LookupFinds(w: World, id: nat)
    requires Agreed(w) && IsRetry(w, id) && w.enrolls[id].code in w.db.results
    ensures
      var looked := Do(w, StepEnroll(id, 0));
      Agreed(looked) && IsChecking(looked, id, w.enrolls[id], w.enrollments[w.enrolls[id].code][0].issued)
  {
    var call := w.enrolls[id];
    assert Records(w.enrollments, call.code, w.db.results[call.code]);
    DoKeepsAgreed(w, StepEnroll(id, 0));
    LookupStep(w, id);
  }

  lemma LookupStep(w: World, id: nat)
    requires id in w.enrolls && w.enrolls[id].phase == ReplayLookup
    requires EnrollmentReplay(w.db, w.enrolls[id].code, w.enrolls[id].key).Ok?
    ensures
      var looked := Do(w, StepEnroll(id, 0));
      && looked.enrollments == w.enrollments && id in looked.enrolls
      && looked.enrolls[id] == w.enrolls[id].(phase := CheckActive(w.db.results[w.enrolls[id].code]))
  {
    assert Do(w, StepEnroll(id, 0)) == DoEnroll(w, id, 0);
  }

  lemma RetryChecks(w: World, id: nat, second: seq<Action>)
    requires Agreed(w) && id in w.enrolls && w.enrolls[id].phase.CheckActive?
    requires forall a :: a in second ==> !StepsCall(a, id)
    ensures
      var replay, waiting := w.enrolls[id].phase.replay, Run(w, second);
      var done := Do(waiting, StepEnroll(id, 0));
      && id in done.enrolls && done.enrolls[id].phase.Enrolled?
      && (Succeeded(done, id) <==> NodeForCertificate(waiting.db, replay.serial, w.enrolls[id].now).Ok?)
      && (Succeeded(done, id) ==> done.enrolls[id].phase.outcome.value == Replayed(replay))
  {
    RunLeavesCall(w, second, id);
    CheckStep(Run(w, second), id);
  }

  lemma CheckStep(w: World, id: nat)
    requires id in w.enrolls && w.enrolls[id].phase.CheckActive?
    ensures
      var replay := w.enrolls[id].phase.replay;
      var active := NodeForCertificate(w.db, replay.serial, w.enrolls[id].now);
      var done := Do(w, StepEnroll(id, 0));
      && id in done.enrolls
      && done.enrolls[id].phase == Enrolled(if active.Ok? then Ok(Replayed(replay)) else Err(active.error))
  {
    assert Do(w, StepEnroll(id, 0)) == DoEnroll(w, id, 0);
  }

  /** The agent has a key and nothing else, and the server has a certificate stored for its code and key. */
  ghost predicate CanRecover(j: Joint) {
    && j.phase == Stopped && j.disk.key.Some? && j.disk == Disk(j.disk.key, None, None)
    && j.code in j.server.db.results && j.server.db.results[j.code].publicKey == j.disk.key.value
  }

  /** Any actions of the server while the agent waits, or is between two writes. */
  ghost function Serve(j: Joint, actions: seq<Action>): Joint {
    j.(server := Run(j.server, actions))
  }

  lemma {:induction false} ServingIsRunning(j: Joint, actions: seq<Action>)
    ensures JointRun(j, seq(|actions|, i requires 0 <= i < |actions| => Server(actions[i]))) == Serve(j, actions)
    decreases |actions|
  {
    var served := seq(|actions|, i requires 0 <= i < |actions| => Server(actions[i]));
    if actions != [] {
      var init := actions[..|actions| - 1];
      ServingIsRunning(j, init);
      assert served[..|served| - 1] == seq(|init|, i requires 0 <= i < |init| => Server(init[i]));
    }
  }

  /** The restarted agent's request, answered in two steps of the server, with other actions before and between. */
  ghost function Asked(j: Joint, drawn: PublicKey, call: nat, now: Instant): Joint {
    JointDo(JointDo(j, Start(drawn)), Send(call, now))
  }

  ghost function Looked(j: Joint, call: nat, s1: seq<Action>): Joint {
    JointDo(Serve(j, s1), Server(StepEnroll(call, 0)))
  }

  /** The reply received, and the three files written, with other actions between the writes. */
  ghost function Written(j: Joint, at: Instant, s4: seq<Action>, s5: seq<Action>): Joint {
    var first := JointDo(JointDo(j, Receive(at)), Write);
    JointDo(Serve(JointDo(Serve(first, s4), Write), s5), Write)
  }

  /**
   After a lost reply or a crash the restarted agent ends up with all three files, and with the one certificate
   that the server had stored for its key, exactly when that certificate is active at the second step of the
   retry and acceptable when the reply arrives; otherwise its disk is as before. Meanwhile anything else may
   happen at the server, before and between the steps, before the reply and between the writes, as long as the
   node is not removed before the first step.
   */
  lemma RestartRecovers(j: Joint, drawn: PublicKey, call: nat, now: Instant, at: Instant, s1: seq<Action>,
                        s2: seq<Action>, s3: seq<Action>, s4: seq<Action>, s5: seq<Action>)
    requires JointSound(j) && CanRecover(j) && call !in j.server.enrolls
    requires forall a :: a in s1 + s2 + s3 ==> !StepsCall(a, call)
    requires j.code in Run(Asked(j, drawn, call, now).server, s1).db.results
    ensures
      var stored := j.server.db.results[j.code];
      var waiting := Serve(Looked(Asked(j, drawn, call, now), call, s1), s2);
      var answered := JointDo(waiting, Server(StepEnroll(call, 0)));
      Written(Serve(answered, s3), at, s4, s5).disk
        == if NodeForCertificate(waiting.server.db, stored.serial, now).Ok?
              && Acceptable(stored.certificate, j.disk.key.value, at)
           then Disk(j.disk.key, Some(stored.certificate), Some(AUTHORITY))
           else j.disk
  {
    var stored, key := j.server.db.results[j.code], j.disk.key.value;
    var asked := Asked(j, drawn, call, now);
    AskingIsRetry(j, drawn, call, now);
    AnswerIsStored(asked.server, call, s1, s2, s3);
    var replied := Serve(JointDo(Serve(Looked(asked, call, s1), s2), Server(StepEnroll(call, 0))), s3);
    assert replied.disk == j.disk && replied.phase == Awaiting(call, key);
    WritesAfterReply(replied, at, call, stored.certificate, s4, s5);
  }

  lemma AskingIsRetry(j: Joint, drawn: PublicKey, call: nat, now: Instant)
    requires JointSound(j) && CanRecover(j) && call !in j.server.enrolls
    ensures
      var asked, stored := Asked(j, drawn, call, now), j.server.db.results[j.code];
      && asked == j.(server := DoBeginEnroll(j.server, call, j.code, j.disk.key.value, now),
                     phase := Awaiting(call, j.disk.key.value))
      && Agreed(asked.server) && IsRetry(asked.server, call)
      && asked.server.enrolls[call] == EnrollCall(j.code, j.disk.key.value, now, ReplayLookup)
      && Matches(stored, asked.server.enrollments[j.code][0])
  {
    var key, stored := j.disk.key.value, j.server.db.results[j.code];
    StartsAndSends(j, drawn, call, now);
    StoredRequestIsRetry(j.server, call, j.code, key, now);
  }

  lemma StartsAndSends(j: Joint, drawn: PublicKey, call: nat, now: Instant)
    requires CanRecover(j) && call !in j.server.enrolls
    ensures Asked(j, drawn, call, now)
         == j.(server := DoBeginEnroll(j.server, call, j.code, j.disk.key.value, now),
               phase := Awaiting(call, j.disk.key.value))
  {
    assert JointDo(j, Start(drawn)) == j.(phase := KeyReady(j.disk.key.value));
  }

  lemma StoredRequestIsRetry(w: World, id: nat, code: Code, key: PublicKey, now: Instant)
    requires Agreed(w) && code in w.db.results && w.db.results[code].publicKey == key && id !in w.enrolls
    ensures
      var asked := DoBeginEnroll(w, id, code, key, now);
      && Agreed(asked) && IsRetry(asked, id) && asked.enrolls[id] == EnrollCall(code, key, now, ReplayLookup)
      && Matches(w.db.results[code], asked.enrollments[code][0])
  {
    assert Records(w.enrollments, code, w.db.results[code]);
    DoKeepsAgreed(w, BeginEnroll(id, code, key, now));
    BeginIsRequest(w, id, code, key, now);
  }

  lemma BeginIsRequest(w: World, id: nat, code: Code, key: PublicKey, now: Instant)
    requires id !in w.enrolls
    ensures Do(w, BeginEnroll(id, code, key, now)) == DoBeginEnroll(w, id, code, key, now)
         == w.(enrolls := w.enrolls[id := EnrollCall(code, key, now, ReplayLookup)])
  {
  }

  /** The retry's answer is still there when the reply is read, and whatever it answers was signed. */
  lemma AnswerIsStored(w: World, id: nat, s1: seq<Action>, s2: seq<Action>, s3: seq<Action>)
    requires Agreed(w) && IsRetry(w, id) && w.enrolls[id].code in Run(w, s1).db.results
    requires forall a :: a in s1 + s2 + s3 ==> !StepsCall(a, id)
    ensures
      var issued := w.enrollments[w.enrolls[id].code][0].issued;
      var waiting := Run(Do(Run(w, s1), StepEnroll(id, 0)), s2);
      var replied := Run(Do(waiting, StepEnroll(id, 0)), s3);
      && id in replied.enrolls && replied.enrolls[id].phase.Enrolled? && Signed(replied.signed, issued.certificate)
      && (Succeeded(replied, id) <==> NodeForCertificate(waiting.db, issued.serial, w.enrolls[id].now).Ok?)
      && (Succeeded(replied, id) ==> replied.enrolls[id].phase.outcome.value.certificate == issued.certificate)
  {
    assert forall a :: a in s1 + s2 ==> a in s1 + s2 + s3;
    assert forall a :: a in s3 ==> a in s1 + s2 + s3;
    RetryReceivesStored(w, id, s1, s2);
    StepRemembers(w, s1, id);
    var looked := Do(Run(w, s1), StepEnroll(id, 0));
    StepRemembers(looked, s2, id);
    var done := Do(Run(looked, s2), StepEnroll(id, 0));
    RunLeavesCall(done, s3, id);
    EnrollmentIsSigned(Run(done, s3), w.enrolls[id].code);
  }

  lemma StepRemembers(w: World, actions: seq<Action>, id: nat)
    requires Agreed(w)
    ensures
      var after := Do(Run(w, actions), StepEnroll(id, 0));
      Agreed(after) && Remembers(w, after)
  {
    RunRemembers(w, actions);
    ServerRemembers(Run(w, actions), StepEnroll(id, 0));
    DoKeepsAgreed(Run(w, actions), StepEnroll(id, 0));
  }

  lemma {:induction false} RunRemembers(w: World, actions: seq<Action>)
    requires Agreed(w)
    ensures Agreed(Run(w, actions)) && Remembers(w, Run(w, actions))
    decreases |actions|
  {
    if actions != [] {
      var init, last := actions[..|actions| - 1], actions[|actions| - 1];
      RunRemembers(w, init);
      ServerRemembers(Run(w, init), last);
      DoKeepsAgreed(Run(w, init), last);
    }
  }

  lemma EnrollmentIsSigned(w: World, code: Code)
    requires Agreed(w) && code in w.enrollments && |w.enrollments[code]| == 1
    ensures Signed(w.signed, w.enrollments[code][0].issued.certificate)
  {
    assert SoleEnrollment(w, code);
  }

  lemma WritesAfterReply(j: Joint, at: Instant, call: nat, certificate: Certificate, s4: seq<Action>, s5: seq<Action>)
    requires j.disk.key.Some? && j.disk == Disk(j.disk.key, None, None)
    requires j.phase == Awaiting(call, j.disk.key.value) && call in j.server.enrolls
    requires j.server.enrolls[call].phase.Enrolled? && Signed(j.server.signed, certificate)
    requires Succeeded(j.server, call) ==> j.server.enrolls[call].phase.outcome.value.certificate == certificate
    ensures Written(j, at, s4, s5).disk
         == if Succeeded(j.server, call) && Acceptable(certificate, j.disk.key.value, at)
            then Disk(j.disk.key, Some(certificate), Some(AUTHORITY)) else j.disk
  {
    var key, received := j.disk.key.value, JointDo(j, Receive(at));
    if Succeeded(j.server, call) && Acceptable(certificate, key, at) {
      assert received == j.(phase := Accepted(key, certificate));
      WritesAll(received, key, certificate, s4, s5);
    } else {
      assert received == j.(phase := Stopped);
      assert JointDo(received, Write) == received;
    }
  }

  lemma WritesAll(j: Joint, key: PublicKey, certificate: Certificate, s4: seq<Action>, s5: seq<Action>)
    requires j.phase == Accepted(key, certificate) && j.disk == Disk(Some(key), None, None)
    ensures JointDo(Serve(JointDo(Serve(JointDo(j, Write), s4), Write), s5), Write).disk
         == Disk(Some(key), Some(certificate), Some(AUTHORITY))
  {
  }
}
