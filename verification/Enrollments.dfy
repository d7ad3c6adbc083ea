/**
 What the two lookups of an enrollment answer, from what has happened to the code: whether it has persisted a
 certificate, for which key, and whether its node is still there.
 */
module Enrollments {
  import opened Common
  import opened Database
  import opened Handlers
  import opened Protocol
  import opened Invariants
  import opened Agreement

  /** A code that has persisted keeps its result as long as its node is there, and only such a code is used. */
  ghost predicate Kept(w: World) {
    && (forall c :: c in w.enrollments ==>
          && c in w.codeNode && w.codeNode[c] in w.everNodes
          && (w.codeNode[c] in w.db.nodes ==> c in w.db.results))
    && (forall c :: c in w.db.results ==> c in w.codeNode && w.db.results[c].node == w.codeNode[c])
    && (forall c :: c in w.db.codes && w.db.codes[c].usedAt.Some? ==> c in w.enrollments)
    && (forall c :: c in w.db.codes ==> TimedRight(w, c))
  }

  /** A code's time is over ten minutes after it was created. */
  ghost predicate TimedRight(w: World, code: Code)
    requires code in w.db.codes
  {
    code in w.codeTime && w.db.codes[code].expiresAt == ToMillis(w.codeTime[code] + TEN_MINUTES)
  }

  const TEN_MINUTES: Instant := 600_000_000_000

  /** Nothing is persisted; nodes appear under fresh ids, and results go only with their node. */
  ghost predicate KeepsRecords(w: World, after: World) {
    && after.enrollments == w.enrollments && w.everNodes <= after.everNodes
    && (forall c :: c in w.codeNode ==> c in after.codeNode && after.codeNode[c] == w.codeNode[c])
    && (forall n :: n in after.db.nodes ==> n in w.db.nodes || n !in w.everNodes)
    && (forall c :: c in after.db.results ==> c in w.db.results && after.db.results[c] == w.db.results[c])
    && (forall c :: c in w.db.results ==> c in after.db.results || w.db.results[c].node !in after.db.nodes)
    && (forall c :: c in after.db.codes && after.db.codes[c].usedAt.Some? ==>
          c in w.db.codes && after.db.codes[c] == w.db.codes[c])
    && CodesTimed(w, after)
  }

  /** Every code is new and timed, or has the time that it had. */
  ghost predicate CodesTimed(w: World, after: World) {
    forall c :: c in after.db.codes ==>
      TimedRight(after, c)
      || (c in w.db.codes && after.db.codes[c].expiresAt == w.db.codes[c].expiresAt
          && (c in w.codeTime ==> c in after.codeTime && after.codeTime[c] == w.codeTime[c]))
  }

  lemma KeepingRecordsKeeps(w: World, after: World)
    requires Kept(w) && KeepsRecords(w, after)
    ensures Kept(after)
  {
    forall c | c in after.db.codes ensures TimedRight(after, c) {
      assert c in w.db.codes ==> TimedRight(w, c);
    }
  }

  lemma CreateNodeKeepsRecords(w: World, id: NodeId, name: string, at: Instant)
    ensures KeepsRecords(w, DoCreateNode(w, id, name, at))
  {
    var after := DoCreateNode(w, id, name, at);
    if id !in w.everNodes {
      CreateNodeEffect(w.db, id, name, at);
      assert after.db == Database.CreateNode(w.db, id, name, at).db;
    }
    assert after.db.codes == w.db.codes && after.db.results == w.db.results;
    assert after.codeNode == w.codeNode && after.enrollments == w.enrollments;
  }

  lemma DisableNodeKeepsRecords(w: World, id: NodeId, at: Instant)
    ensures KeepsRecords(w, DoDisableNode(w, id, at))
  {
    var after := DoDisableNode(w, id, at);
    assert after.db.nodes.Keys == w.db.nodes.Keys;
    assert after.db.codes == w.db.codes && after.db.results == w.db.results;
  }

  lemma RemoveNodeKeepsRecords(w: World, id: NodeId)
    ensures KeepsRecords(w, DoRemoveNode(w, id))
  {
    var after := DoRemoveNode(w, id);
    assert after.codeNode == w.codeNode && after.enrollments == w.enrollments;
  }

  lemma CreateCodeKeepsRecords(w: World, node: NodeId, code: Code, now: Instant)
    requires Remembered(w)
    ensures KeepsRecords(w, DoCreateCode(w, node, code, now))
  {
    var after := DoCreateCode(w, node, code, now);
    if code in w.codeNode {
      SameRecords(w, after);
    } else {
      var created := CreateEnrollmentCode(w.db, node, code, now + CODE_LIFETIME).db;
      assert after == w.(db := created, codeNode := w.codeNode[code := node], codeTime := w.codeTime[code := now]);
      CreatedCodes(w.db, node, code, now);
      NewCodeKeepsRecords(w, after, node, code, now);
    }
  }

  /** What creating a code does to the tables: nothing, or one new row, unused, of ten minutes. */
  lemma CreatedCodes(db: Db, node: NodeId, code: Code, now: Instant)
    ensures
      var created := CreateEnrollmentCode(db, node, code, now + CODE_LIFETIME).db;
      && created == db.(codes := created.codes)
      && forall c :: c in created.codes ==>
           || (c in db.codes && created.codes[c] == db.codes[c])
           || (c == code && created.codes[c] == CodeRow(node, ToMillis(now + TEN_MINUTES), None))
  {
  }

  lemma NewCodeKeepsRecords(w: World, after: World, node: NodeId, code: Code, now: Instant)
    requires Remembered(w) && code !in w.codeNode
    requires after == w.(db := w.db.(codes := after.db.codes), codeNode := w.codeNode[code := node],
                         codeTime := w.codeTime[code := now])
    requires forall c :: c in after.db.codes ==>
               || (c in w.db.codes && after.db.codes[c] == w.db.codes[c])
               || (c == code && after.db.codes[c] == CodeRow(node, ToMillis(now + TEN_MINUTES), None))
    ensures KeepsRecords(w, after)
  {
    forall c | c in after.db.codes
      ensures TimedRight(after, c)
              || (c in w.db.codes && after.db.codes[c].expiresAt == w.db.codes[c].expiresAt
                  && (c in w.codeTime ==> c in after.codeTime && after.codeTime[c] == w.codeTime[c]))
    {
      assert c in w.db.codes ==> c != code;
    }
  }

  lemma ReportKeepsRecords(w: World, id: nat, admitted: bool)
    requires id in w.reports
    ensures KeepsRecords(w, DoReport(w, id, admitted))
  {
    var after := DoReport(w, id, admitted);
    assert after.db.codes == w.db.codes && after.db.results == w.db.results;
    assert after.db.nodes.Keys == w.db.nodes.Keys;
  }

  lemma RenewKeepsRecords(w: World, id: nat, serial: nat)
    requires CanStepRenew(w, id, serial)
    ensures KeepsRecords(w, DoRenew(w, id, serial))
  {
    var after := DoRenew(w, id, serial);
    assert after.db.codes == w.db.codes && after.db.results == w.db.results && after.db.nodes == w.db.nodes;
  }

  lemma OtherActionsKeepRecords(w: World, a: Action)
    requires Remembered(w) && !a.StepEnroll?
    ensures KeepsRecords(w, Do(w, a))
  {
    match a
    case CreateNode(id, name, at) => CreateNodeKeepsRecords(w, id, name, at);
    case DisableNode(id, at) => DisableNodeKeepsRecords(w, id, at);
    case RemoveNode(id) => RemoveNodeKeepsRecords(w, id);
    case CreateCode(node, code, now) => CreateCodeKeepsRecords(w, node, code, now);
    case StepRenew(id, serial) => if CanStepRenew(w, id, serial) { RenewKeepsRecords(w, id, serial); }
    case StepReport(id, admitted) => if id in w.reports { ReportKeepsRecords(w, id, admitted); }
    case PurgeSamples(_) | PruneOldest(_) | BeginEnroll(_, _, _, _) | BeginRenew(_, _, _, _) | BeginReport(_, _, _, _) =>
      if IsBeginning(a) { BeginningKeepsRecords(w, a); } else { SamplesKeepRecords(w, a); }
  }

  /** The tables and the history that enrollments rest on are as they were. */
  lemma SameRecords(w: World, after: World)
    requires after.db.codes == w.db.codes && after.db.results == w.db.results && after.db.nodes == w.db.nodes
    requires after.codeNode == w.codeNode && after.enrollments == w.enrollments && after.everNodes == w.everNodes
    requires after.codeTime == w.codeTime
    ensures KeepsRecords(w, after)
  {
  }

  lemma BeginningKeepsRecords(w: World, a: Action)
    requires IsBeginning(a)
    ensures KeepsRecords(w, Do(w, a))
  {
    assert Do(w, a).db == w.db;
    SameRecords(w, Do(w, a));
  }

  lemma SamplesKeepRecords(w: World, a: Action)
    requires a.PurgeSamples? || a.PruneOldest?
    ensures KeepsRecords(w, Do(w, a))
  {
    assert Do(w, a).db == w.db.(samples := Do(w, a).db.samples);
    SameRecords(w, Do(w, a));
  }

  /** A commit persists for its code, in its code's node, which is there. */
  lemma CommitKeeps(w: World, id: nat, serial: nat)
    requires Agreed(w) && Kept(w) && id in w.enrolls && w.enrolls[id].phase.Committing?
    requires EnrollStep(w.db, w.enrolls[id], serial).1.phase.Enrolled?
    ensures Kept(DoEnroll(w, id, serial))
  {
    var call, after := w.enrolls[id], DoEnroll(w, id, serial);
    PersistingEffect(w, id, serial);
    CommitEffect(w.db, call, serial);
    CommitKeepsNodes(w.db, call, serial);
    assert after.everNodes == w.everNodes && after.codeTime == w.codeTime;
    CommitKeepsTimes(w, after);
  }

  lemma CommitKeepsTimes(w: World, after: World)
    requires forall c :: c in w.db.codes ==> TimedRight(w, c)
    requires after.codeTime == w.codeTime
    requires forall c :: c in after.db.codes ==>
               c in w.db.codes && after.db.codes[c].expiresAt == w.db.codes[c].expiresAt
    ensures forall c :: c in after.db.codes ==> TimedRight(after, c)
  {
    forall c | c in after.db.codes ensures TimedRight(after, c) {
      assert TimedRight(w, c);
    }
  }

  lemma CommitKeepsNodes(db: Db, call: EnrollCall, serial: nat)
    requires WellFormed(db) && call.phase.Committing? && EnrollStep(db, call, serial).1.phase.Enrolled?
    ensures EnrollStep(db, call, serial).0.nodes == db.nodes
    ensures call.code in db.codes && db.codes[call.code].node in db.nodes
    ensures call.code in EnrollStep(db, call, serial).0.codes
    ensures EnrollStep(db, call, serial).0.codes[call.code].expiresAt == db.codes[call.code].expiresAt
  {
  }

  /** A step that does not commit leaves the tables alone. */
  lemma OtherStepKeepsRecords(w: World, id: nat, serial: nat)
    requires CanStepEnroll(w, id, serial)
    requires !w.enrolls[id].phase.Committing? || !EnrollStep(w.db, w.enrolls[id], serial).1.phase.Enrolled?
    ensures KeepsRecords(w, DoEnroll(w, id, serial))
  {
    OtherStepKeepsTables(w.db, w.enrolls[id], serial);
    StepWithoutCommit(w, id, serial);
    SameRecords(w, DoEnroll(w, id, serial));
  }

  lemma OtherStepKeepsTables(db: Db, call: EnrollCall, serial: nat)
    requires !call.phase.Committing? || !EnrollStep(db, call, serial).1.phase.Enrolled?
    ensures EnrollStep(db, call, serial).0 == db
  {
  }

  lemma StepWithoutCommit(w: World, id: nat, serial: nat)
    requires CanStepEnroll(w, id, serial)
    requires !w.enrolls[id].phase.Committing? || !EnrollStep(w.db, w.enrolls[id], serial).1.phase.Enrolled?
    ensures
      var after := DoEnroll(w, id, serial);
      && after.db == EnrollStep(w.db, w.enrolls[id], serial).0 && after.enrollments == w.enrollments
      && after.everNodes == w.everNodes && after.codeNode == w.codeNode && after.codeTime == w.codeTime
  {
  }

  lemma DoKeeps(w: World, a: Action)
    requires Agreed(w) && Kept(w)
    ensures Kept(Do(w, a))
  {
    if !a.StepEnroll? {
      OtherActionsKeepRecords(w, a);
      KeepingRecordsKeeps(w, Do(w, a));
    } else if CanStepEnroll(w, a.call, a.serial) {
      StepEnrollKeeps(w, a.call, a.serial);
    }
  }

  lemma StepEnrollKeeps(w: World, id: nat, serial: nat)
    requires Agreed(w) && Kept(w) && CanStepEnroll(w, id, serial)
    ensures Kept(DoEnroll(w, id, serial))
  {
    if w.enrolls[id].phase.Committing? && EnrollStep(w.db, w.enrolls[id], serial).1.phase.Enrolled? {
      CommitKeeps(w, id, serial);
    } else {
      OtherStepKeepsRecords(w, id, serial);
      KeepingRecordsKeeps(w, DoEnroll(w, id, serial));
    }
  }

  lemma {:induction false} RunKeeps(w: World, actions: seq<Action>)
    requires Agreed(w) && Kept(w)
    ensures Agreed(Run(w, actions)) && Kept(Run(w, actions))
    decreases |actions|
  {
    if actions != [] {
      var init, last := actions[..|actions| - 1], actions[|actions| - 1];
      RunKeeps(w, init);
      DoKeepsAgreed(Run(w, init), last);
      DoKeeps(Run(w, init), last);
    }
  }

  /** The code has persisted a certificate, and its node has not been removed since. */
  ghost predicate Remains(w: World, code: Code) {
    code in w.enrollments && code in w.codeNode && w.codeNode[code] in w.db.nodes
  }

  /**
   In every run, for every code and key: a replay is found exactly if the code has persisted a certificate and
   its node has not been removed since; then it answers what was persisted, to the key that enrolled and to no
   other, and sends it back equal but for the part of the expiry below a millisecond.
   */
  lemma ReplayFollowsHistory(actions: seq<Action>, code: Code, key: PublicKey)
    ensures
      var w := After(actions);
      var answer := EnrollmentReplay(w.db, code, key);
      if !Remains(w, code) then answer == Err(ReplayNotFound)
      else
        && |w.enrollments[code]| == 1
        && var enrollment := w.enrollments[code][0];
        && (key != enrollment.key ==> answer == Err(CodeUsed))
        && (key == enrollment.key ==>
              answer.Ok? && Matches(answer.value, enrollment) && SameIssue(Replayed(answer.value), enrollment.issued))
  {
    RunKeeps(INITIAL, actions);
    ReplayAnswersEnrollment(After(actions), code, key);
  }

  lemma ReplayAnswersEnrollment(w: World, code: Code, key: PublicKey)
    requires Agreed(w) && Kept(w)
    ensures !Remains(w, code) ==> EnrollmentReplay(w.db, code, key) == Err(ReplayNotFound)
    ensures Remains(w, code) ==>
              && |w.enrollments[code]| == 1
              && var enrollment, answer := w.enrollments[code][0], EnrollmentReplay(w.db, code, key);
              && (key != enrollment.key ==> answer == Err(CodeUsed))
              && (key == enrollment.key ==>
                    answer.Ok? && Matches(answer.value, enrollment) && SameIssue(Replayed(answer.value), enrollment.issued))
  {
    if code in w.db.results {
      assert Records(w.enrollments, code, w.db.results[code]);
    }
  }

  /**
   In every run, an outstanding code is refused as used exactly if it has persisted a certificate, as expired
   exactly if it has not and ten minutes have passed since it was created, in whole milliseconds, and otherwise
   opens the node that it was created for.
   */
  lemma CodeFollowsHistory(actions: seq<Action>, code: Code, at: Instant)
    requires code in After(actions).db.codes
    ensures
      var w := After(actions);
      && code in w.codeNode && w.codeNode[code] in w.db.nodes && code in w.codeTime
      && NodeForEnrollmentCode(w.db, code, at)
         == if code in w.enrollments then Err(CodeUsed)
            else if ToMillis(at) >= ToMillis(w.codeTime[code] + 600_000_000_000) then Err(CodeExpired)
            else Ok(w.codeNode[code])
  {
    RunKeeps(INITIAL, actions);
    var w := After(actions);
    assert code in w.enrollments ==> SoleEnrollment(w, code);
    assert TimedRight(w, code);
  }
}
