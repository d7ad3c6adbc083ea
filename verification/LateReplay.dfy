/**
 Whether a successful enrollment answers with a certificate that is active at that moment. The first
 replay lookup checks; the second, after a lost race to commit, does not.
 */
module LateReplay {
  import opened Common
  import opened Numerals
  import opened Database
  import opened Handlers
  import opened Protocol
  import opened Invariants
  import opened Agreement
  import Renewals

  ghost predicate Active(db: Db, serial: Serial, at: Instant) {
    NodeForCertificate(db, serial, at).Ok?
  }

  /** The step answers the call, successfully, with `issued`. */
  ghost predicate Answers(w: World, id: nat, serial: nat, issued: Issued) {
    && CanStepEnroll(w, id, serial)
    && !w.enrolls[id].phase.Enrolled?
    && DoEnroll(w, id, serial).enrolls[id].phase == Enrolled(Ok(issued))
  }

  /**
   The enrollment of the code is the last certificate of its line, its node has not been disabled or removed, and
   its time is not over.
   */
  ghost predicate StillGood(w: World, code: Code, now: Instant) {
    && code in w.db.results && code in w.latest && w.latest[code] == w.db.results[code].serial
    && w.latest[code] in w.db.certs && Renewals.Enabled(w.db, w.db.results[code].node)
    && ToMillis(now) < w.db.certs[w.latest[code]].expiresAt
  }

  /**
   In every run, a step that answers an enrollment successfully answers with a certificate that is active
   after the step, with one exception: it is the second replay, and since the certificate was persisted its
   node was disabled, or it was renewed, or it expired. In exactly these cases the answer is a dead certificate.
   */
  lemma AnswerIsActive(actions: seq<Action>, id: nat, serial: nat, issued: Issued)
    requires Answers(After(actions), id, serial, issued)
    ensures
      var w := After(actions);
      var call := w.enrolls[id];
      Active(DoEnroll(w, id, serial).db, issued.serial, call.now)
      <==> (call.phase.SecondReplay? ==> StillGood(w, call.code, call.now))
  {
    RunKeepsAgreed(INITIAL, actions);
    Renewals.EveryRunIsDescended(actions);
    AnswerIsActiveIn(After(actions), id, serial, issued);
  }

  lemma AnswerIsActiveIn(w: World, id: nat, serial: nat, issued: Issued)
    requires Agreed(w) && Renewals.Descended(w) && Answers(w, id, serial, issued)
    ensures
      var call := w.enrolls[id];
      Active(DoEnroll(w, id, serial).db, issued.serial, call.now)
      <==> (call.phase.SecondReplay? ==> StillGood(w, call.code, call.now))
  {
    var call := w.enrolls[id];
    if call.phase.Committing? {
      assert EnrollPending(w.signed, w.codeNode, call);
      CommittedIsActive(w.db, call, serial, w.codeNode[call.code]);
    } else if call.phase.SecondReplay? {
      assert DoEnroll(w, id, serial).db == w.db;
      ReplayIsActive(w, call.code, call.now);
    }
  }

  /** A stored enrollment is active exactly when nothing has ended it. */
  lemma ReplayIsActive(w: World, code: Code, now: Instant)
    requires Renewals.Descended(w) && code in w.db.results
    ensures Active(w.db, w.db.results[code].serial, now) <==> StillGood(w, code, now)
  {
    var s := w.db.results[code].serial;
    Renewals.RootOfChain(w, code);
    Renewals.LiveIsCurrent(w, s);
  }

  lemma CommittedIsActive(db: Db, call: EnrollCall, serial: nat, node: NodeId)
    requires call.phase.Committing? && EnrollStep(db, call, serial).1.phase.Enrolled?
    requires call.phase.issued == IssueFor(node, call.key, call.phase.issued.certificate.serial, call.now)
    ensures Active(EnrollStep(db, call, serial).0, call.phase.issued.serial, call.now)
  {
  }

  /** Two calls race with one code and one key, and the first is about to win. */
  ghost predicate Racing(w: World, i: nat, j: nat) {
    && i != j && i in w.enrolls && j in w.enrolls
    && w.enrolls[i].phase.Committing? && w.enrolls[j].phase.Committing?
    && w.enrolls[i].code == w.enrolls[j].code && w.enrolls[i].key == w.enrolls[j].key
    && EnrollStep(w.db, w.enrolls[i], 0).1.phase.Enrolled?
  }

  /**
   The exception happens: whenever two calls race, if the node is disabled between the winner's commit and
   the loser's, then the loser still succeeds, with the certificate that has just been revoked.
   */
  lemma LoserAnswersRevoked(w: World, i: nat, j: nat, at: Instant)
    requires Racing(w, i, j)
    ensures
      var code, issued := w.enrolls[i].code, w.enrolls[i].phase.issued;
      code in w.db.codes &&
      var last := Run(w, [StepEnroll(i, 0), DisableNode(w.db.codes[code].node, at), StepEnroll(j, 0), StepEnroll(j, 0)]);
      && Succeeded(last, j) && last.enrolls[j].phase.outcome.value.certificate == issued.certificate
      && last.enrolls[j].phase.outcome.value.serial == issued.serial
      && NodeForCertificate(last.db, issued.serial, w.enrolls[j].now) == Err(CertificateRevoked)
  {
    var code, issued := w.enrolls[i].code, w.enrolls[i].phase.issued;
    CommitEffect(w.db, w.enrolls[i], 0);
    WinnerThenDisabled(w, i, j, at);
    var disabled := DoDisableNode(DoEnroll(w, i, 0), w.db.codes[code].node, at);
    LoserReplays(disabled, j);
    RaceSchedule(w, i, j, w.db.codes[code].node, at);
  }

  lemma RaceSchedule(w: World, i: nat, j: nat, node: NodeId, at: Instant)
    requires i in w.enrolls && w.enrolls[i].phase.Committing?
    requires
      var disabled := DoDisableNode(DoEnroll(w, i, 0), node, at);
      j in disabled.enrolls && disabled.enrolls[j].phase.Committing?
    ensures
      var disabled := DoDisableNode(DoEnroll(w, i, 0), node, at);
      Run(w, [StepEnroll(i, 0), DisableNode(node, at), StepEnroll(j, 0), StepEnroll(j, 0)])
      == DoEnroll(DoEnroll(disabled, j, 0), j, 0)
  {
    RunOfFour(w, StepEnroll(i, 0), DisableNode(node, at), StepEnroll(j, 0), StepEnroll(j, 0));
    var disabled := DoDisableNode(DoEnroll(w, i, 0), node, at);
    assert Do(Do(w, StepEnroll(i, 0)), DisableNode(node, at)) == disabled;
    assert Do(disabled, StepEnroll(j, 0)) == DoEnroll(disabled, j, 0);
  }

  lemma RunOfFour(w: World, a: Action, b: Action, c: Action, d: Action)
    ensures Run(w, [a, b, c, d]) == Do(Do(Do(Do(w, a), b), c), d)
  {
    assert [a, b, c, d][..3] == [a, b, c] && [a, b, c][..2] == [a, b] && [a, b][..1] == [a] && [a][..0] == [];
    assert Run(w, [a]) == Do(w, a);
    assert Run(w, [a, b]) == Do(Run(w, [a]), b);
    assert Run(w, [a, b, c]) == Do(Run(w, [a, b]), c);
  }

  lemma WinnerThenDisabled(w: World, i: nat, j: nat, at: Instant)
    requires Racing(w, i, j)
    ensures
      var code, issued := w.enrolls[i].code, w.enrolls[i].phase.issued;
      code in w.db.codes &&
      var disabled := DoDisableNode(DoEnroll(w, i, 0), w.db.codes[code].node, at);
      && j in disabled.enrolls && disabled.enrolls[j] == w.enrolls[j]
      && code in disabled.db.codes && disabled.db.codes[code].usedAt.Some?
      && code in disabled.db.results && disabled.db.results[code].serial == issued.serial
      && disabled.db.results[code].publicKey == w.enrolls[j].key
      && disabled.db.results[code].certificate == issued.certificate
      && NodeForCertificate(disabled.db, issued.serial, w.enrolls[j].now) == Err(CertificateRevoked)
  {
    CommitEffect(w.db, w.enrolls[i], 0);
  }

  lemma LoserReplays(w: World, j: nat)
    requires j in w.enrolls && w.enrolls[j].phase.Committing?
    requires w.enrolls[j].code in w.db.codes && w.db.codes[w.enrolls[j].code].usedAt.Some?
    requires w.enrolls[j].code in w.db.results
    requires w.db.results[w.enrolls[j].code].publicKey == w.enrolls[j].key
    ensures
      var last := DoEnroll(DoEnroll(w, j, 0), j, 0);
      && last.db == w.db
      && last.enrolls[j].phase == Enrolled(Ok(Replayed(w.db.results[w.enrolls[j].code])))
  {
  }

  /** Such a race is reachable: two copies of the first request of a new node. */
  lemma RaceIsReachable()
    ensures exists actions :: Racing(After(actions), 0, 1)
  {
    var first := [StepEnroll(0, 0), StepEnroll(0, 0), StepEnroll(0, 1)];
    var second := [StepEnroll(1, 0), StepEnroll(1, 0), StepEnroll(1, 2)];
    var w := After(TWO_REQUESTS);
    TwoRequests();
    ThreeSteps(w, 0, 1);
    NatTextInjectiveOn(1, 2);
    ThreeSteps(Run(w, first), 1, 2);
    RunSplits(INITIAL, TWO_REQUESTS, first);
    RunSplits(INITIAL, TWO_REQUESTS + first, second);
    RacesFrom(w, Run(Run(w, first), second));
    assert Racing(After(TWO_REQUESTS + first + second), 0, 1);
  }

  const TWO_REQUESTS := [CreateNode("n", "n", 0), CreateCode("n", "c", 0), BeginEnroll(0, "c", "k", 0), BeginEnroll(1, "c", "k", 0)]
  const REQUEST := EnrollCall("c", "k", 0, ReplayLookup)

  const FRESH_DB := Db(map["n" := NodeRow("n", 0, None, false)], map["c" := CodeRow("n", 600_000, None)],
                       map[], map[], map[], 0)

  lemma TwoRequests()
    ensures
      var w := After(TWO_REQUESTS);
      && w.db == FRESH_DB && w.enrolls == map[0 := REQUEST, 1 := REQUEST] && w.signed == map[] && w.reports == map[]
  {
    RunOfFour(INITIAL, TWO_REQUESTS[0], TWO_REQUESTS[1], TWO_REQUESTS[2], TWO_REQUESTS[3]);
    FreshNodeAndCode();
    var w := DoCreateCode(DoCreateNode(INITIAL, "n", "n", 0), "n", "c", 0);
    TwoBegin(w);
    TwoCreate();
  }

  lemma TwoCreate()
    ensures Do(Do(INITIAL, TWO_REQUESTS[0]), TWO_REQUESTS[1]) == DoCreateCode(DoCreateNode(INITIAL, "n", "n", 0), "n", "c", 0)
  {
    assert Do(INITIAL, TWO_REQUESTS[0]) == DoCreateNode(INITIAL, "n", "n", 0);
  }

  lemma TwoBegin(w: World)
    requires w.enrolls == map[]
    ensures Do(Do(w, TWO_REQUESTS[2]), TWO_REQUESTS[3]) == w.(enrolls := map[0 := REQUEST, 1 := REQUEST])
  {
    var one := w.(enrolls := map[0 := REQUEST]);
    assert Do(w, TWO_REQUESTS[2]) == DoBeginEnroll(w, 0, "c", "k", 0) == one;
    assert Do(one, TWO_REQUESTS[3]) == DoBeginEnroll(one, 1, "c", "k", 0);
  }

  lemma FreshNodeAndCode()
    ensures
      var w := DoCreateCode(DoCreateNode(INITIAL, "n", "n", 0), "n", "c", 0);
      w.db == FRESH_DB && w.enrolls == map[] && w.signed == map[] && w.reports == map[]
  {
    assert TrimSpace("n") == "n" && Utf8Length("n") == 1;
    var w := DoCreateNode(INITIAL, "n", "n", 0);
    assert w.db.nodes == map["n" := NodeRow("n", 0, None, false)];
  }

  lemma RacesFrom(w: World, after: World)
    requires w.db.results == map[] && w.db.certs == map[] && w.db.codes == map["c" := CodeRow("n", 600_000, None)]
    requires "n" in w.db.nodes && !w.db.nodes["n"].disabled
    requires after.db == w.db && 0 in after.enrolls && 1 in after.enrolls
    requires after.enrolls[0] == REQUEST.(phase := Committing(IssueFor("n", "k", 1, 0)))
    requires after.enrolls[1] == REQUEST.(phase := Committing(IssueFor("n", "k", 2, 0)))
    ensures Racing(after, 0, 1)
  {
  }

  lemma NatTextInjectiveOn(m: nat, n: nat)
    ensures SerialText(m) == SerialText(n) ==> m == n
  {
    if SerialText(m) == SerialText(n) {
      NatTextInjective(m, n, 16);
    }
  }

  /** With an unused code in its lifetime and a fresh serial, a new call issues after three steps. */
  lemma ThreeSteps(w: World, id: nat, serial: nat)
    requires id in w.enrolls && w.enrolls[id].phase == ReplayLookup && Drawable(w, serial)
    requires w.enrolls[id].code !in w.db.results
    requires NodeForEnrollmentCode(w.db, w.enrolls[id].code, w.enrolls[id].now).Ok?
    ensures
      var call := w.enrolls[id];
      var node := NodeForEnrollmentCode(w.db, call.code, call.now).value;
      var issued := IssueFor(node, call.key, serial, call.now);
      Run(w, [StepEnroll(id, 0), StepEnroll(id, 0), StepEnroll(id, serial)])
      == w.(enrolls := w.enrolls[id := call.(phase := Committing(issued))],
            signed := w.signed[issued.serial := issued.certificate])
  {
    var a, b := StepEnroll(id, 0), StepEnroll(id, serial);
    assert [a, a, b][..2] == [a, a] && [a, a][..1] == [a] && [a][..0] == [];
    assert Run(w, [a]) == Do(w, a);
    assert Run(w, [a, a]) == Do(Run(w, [a]), a);
    var call := w.enrolls[id];
    var node := NodeForEnrollmentCode(w.db, call.code, call.now).value;
    var looked := w.(enrolls := w.enrolls[id := call.(phase := CodeLookup)]);
    var found := w.(enrolls := w.enrolls[id := call.(phase := Issuing(node))]);
    LookupSteps(w, id);
    assert Do(found, b) == DoEnroll(found, id, serial);
    IssueStep(w, found, id, node, serial);
  }

  lemma LookupSteps(w: World, id: nat)
    requires id in w.enrolls && w.enrolls[id].phase == ReplayLookup
    requires w.enrolls[id].code !in w.db.results
    requires NodeForEnrollmentCode(w.db, w.enrolls[id].code, w.enrolls[id].now).Ok?
    ensures
      var call := w.enrolls[id];
      var node := NodeForEnrollmentCode(w.db, call.code, call.now).value;
      && Do(w, StepEnroll(id, 0)) == w.(enrolls := w.enrolls[id := call.(phase := CodeLookup)])
      && Do(Do(w, StepEnroll(id, 0)), StepEnroll(id, 0)) == w.(enrolls := w.enrolls[id := call.(phase := Issuing(node))])
  {
    var call := w.enrolls[id];
    var looked := w.(enrolls := w.enrolls[id := call.(phase := CodeLookup)]);
    assert Do(w, StepEnroll(id, 0)) == DoEnroll(w, id, 0) == looked;
    assert Do(looked, StepEnroll(id, 0)) == DoEnroll(looked, id, 0);
  }

  lemma IssueStep(w: World, found: World, id: nat, node: NodeId, serial: nat)
    requires id in w.enrolls && Drawable(w, serial)
    requires found == w.(enrolls := w.enrolls[id := w.enrolls[id].(phase := Issuing(node))])
    ensures
      var call := w.enrolls[id];
      var issued := IssueFor(node, call.key, serial, call.now);
      DoEnroll(found, id, serial)
      == w.(enrolls := w.enrolls[id := call.(phase := Committing(issued))],
            signed := w.signed[issued.serial := issued.certificate])
  {
  }
}
