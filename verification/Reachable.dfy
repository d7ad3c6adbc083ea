/** Runs from the empty server that lead into the failures: an early renewal, and an agent stuck between two writes. */
module Reachable {
  import opened Common
  import opened Numerals
  import opened Database
  import opened Identity
  import opened Handlers
  import opened Protocol
  import opened Credentials
  import opened JointRuns
  import opened RenewalWindow
  import opened LateReplay

  const ISSUE := [StepEnroll(2, 0), StepEnroll(2, 0), StepEnroll(2, 1)]

  /** The request of an agent at a time, on a new node with a new code. */
  function RequestAt(now: Instant): EnrollCall {
    EnrollCall("c", "k", now, ReplayLookup)
  }

  /** What the server holds right after that request was answered. */
  ghost predicate AnsweredAt(w: World, now: Instant) {
    var serial, issued := SerialText(1), IssueFor("n", "k", 1, now);
    && w.db.nodes == FRESH_DB.nodes
    && serial in w.db.certs && w.db.certs[serial] == CertRow("n", ToMillis(now), ToMillis(issued.notAfter), None)
    && serial in w.signed && w.signed[serial] == issued.certificate
    && 2 in w.enrolls && w.enrolls[2] == RequestAt(now).(phase := Enrolled(Ok(issued)))
  }

  /** Three steps issue the certificate and the fourth commits it. */
  lemma FourStepsAnswer(w: World, now: Instant)
    requires w.db == FRESH_DB && w.signed == map[] && 2 in w.enrolls && w.enrolls[2] == RequestAt(now)
    requires 0 <= ToMillis(now) < 600_000
    ensures AnsweredAt(Do(Run(w, ISSUE), StepEnroll(2, 0)), now)
  {
    ThreeSteps(w, 2, 1);
    CommitAnswers(Run(w, ISSUE), now);
  }

  lemma CommitAnswers(w: World, now: Instant)
    requires w.db == FRESH_DB && 2 in w.enrolls && 0 <= ToMillis(now) < 600_000
    requires w.enrolls[2] == RequestAt(now).(phase := Committing(IssueFor("n", "k", 1, now)))
    requires SerialText(1) in w.signed && w.signed[SerialText(1)] == IssueFor("n", "k", 1, now).certificate
    ensures AnsweredAt(Do(w, StepEnroll(2, 0)), now)
  {
    StepIsEnroll(w, 2);
    CommitsFresh(w.enrolls[2], now);
    var after := DoEnroll(w, 2, 0);
    assert after.db == EnrollStep(FRESH_DB, w.enrolls[2], 0).0;
    assert after.enrolls[2] == EnrollStep(FRESH_DB, w.enrolls[2], 0).1;
    assert after.signed == w.signed;
  }

  lemma CommitsFresh(call: EnrollCall, now: Instant)
    requires 0 <= ToMillis(now) < 600_000
    requires call == RequestAt(now).(phase := Committing(IssueFor("n", "k", 1, now)))
    ensures
      var next, issued := EnrollStep(FRESH_DB, call, 0), IssueFor("n", "k", 1, now);
      && next.0.nodes == FRESH_DB.nodes
      && next.0.certs == map[SerialText(1) := CertRow("n", ToMillis(now), ToMillis(issued.notAfter), None)]
      && next.1 == call.(phase := Enrolled(Ok(issued)))
  {
  }

  // ---- An early renewal ----

  /** An active certificate that its agent finds due while the server does not. */
  ghost predicate Early(w: World, s: Serial, now: Instant) {
    && s in w.db.certs && s in w.signed && NodeForCertificate(w.db, s, now).Ok?
    && Decide(w.signed[s], now).Due? && now < FirstDue(w.signed[s]) + Lag(w.signed[s], w.db.certs[s])
  }

  const HALF_SECOND: Instant := 500_000_000

  /** Every certificate issued in the second half of a second has such a time; here is a run that issues one. */
  lemma EarlyIsReachable()
    ensures exists actions, s, now :: Early(After(actions), s, now)
  {
    var w := After(TWO_REQUESTS);
    TwoRequests();
    RequestIsPending(w, 2, "c", "k", HALF_SECOND);
    var begun := Do(w, BeginEnroll(2, "c", "k", HALF_SECOND));
    assert begun.signed == w.signed;
    FourStepsAnswer(begun, HALF_SECOND);
    var before := TWO_REQUESTS + [BeginEnroll(2, "c", "k", HALF_SECOND)] + ISSUE;
    ReachedInOrder(BeginEnroll(2, "c", "k", HALF_SECOND), ISSUE, StepEnroll(2, 0));
    var reached := After(before + [StepEnroll(2, 0)]);
    EarlyAfterHalfSecond(reached);
  }

  lemma ReachedInOrder(first: Action, middle: seq<Action>, last: Action)
    ensures After(TWO_REQUESTS + [first] + middle + [last]) == Do(Run(Do(After(TWO_REQUESTS), first), middle), last)
  {
    var a, b := TWO_REQUESTS + [first], TWO_REQUESTS + [first] + middle;
    assert a[..|a| - 1] == TWO_REQUESTS;
    RunSplits(INITIAL, a, middle);
    assert (b + [last])[..|b|] == b;
  }

  lemma EarlyAfterHalfSecond(w: World)
    requires AnsweredAt(w, HALF_SECOND)
    ensures exists now :: Early(w, SerialText(1), now)
  {
    var certificate := IssueFor("n", "k", 1, HALF_SECOND).certificate;
    assert certificate.notAfter == 2_592_000;
    assert w.db.certs[SerialText(1)].expiresAt == 2_592_000_500;
    assert Early(w, SerialText(1), FirstDue(certificate));
  }

  // ---- An agent stuck between two writes ----

  ghost predicate Reached(code: Code, j: Joint) {
    exists actions :: JointRun(NewAgent(code), actions) == j
  }

  lemma ReachesNext(code: Code, j: Joint, a: JointAction)
    requires Reached(code, j)
    ensures Reached(code, JointDo(j, a))
  {
    var actions :| JointRun(NewAgent(code), actions) == j;
    assert (actions + [a])[..|actions|] == actions;
    assert JointRun(NewAgent(code), actions + [a]) == JointDo(j, a);
  }

  lemma {:induction false} ReachesServed(code: Code, j: Joint, actions: seq<Action>)
    requires Reached(code, j)
    ensures Reached(code, Serve(j, actions))
    decreases |actions|
  {
    if actions != [] {
      var init := actions[..|actions| - 1];
      ReachesServed(code, j, init);
      ReachesNext(code, Serve(j, init), Server(actions[|actions| - 1]));
    } else {
      assert Serve(j, []) == j;
    }
  }

  /** A crash right after the second write of a first enrollment. */
  lemma HalfWrittenIsReachable()
    ensures exists actions :: HalfWritten(JointRun(NewAgent("c"), actions))
  {
    assert JointRun(NewAgent("c"), []) == NewAgent("c");
    var unasked := Serve(NewAgent("c"), TWO_REQUESTS);
    ReachesServed("c", NewAgent("c"), TWO_REQUESTS);
    TwoRequests();
    AsksFirst(unasked);
    var asked := JointDo(JointDo(unasked, Start("k")), Send(2, 0));
    ReachesNext("c", unasked, Start("k"));
    ReachesNext("c", JointDo(unasked, Start("k")), Send(2, 0));
    FourStepsAnswer(asked.server, 0);
    var answered := JointDo(Serve(asked, ISSUE), Server(StepEnroll(2, 0)));
    ReachesServed("c", asked, ISSUE);
    ReachesNext("c", Serve(asked, ISSUE), Server(StepEnroll(2, 0)));
    WritesTwo(answered);
    ReachesFour("c", answered, Receive(0), Write, Write, Crash);
  }

  lemma AsksFirst(j: Joint)
    requires j == Serve(NewAgent("c"), TWO_REQUESTS) && 2 !in j.server.enrolls
    ensures
      var asked := JointDo(JointDo(j, Start("k")), Send(2, 0));
      && asked.server == DoBeginEnroll(j.server, 2, "c", "k", 0)
      && asked.disk == Disk(Some("k"), None, None) && asked.phase == Awaiting(2, "k") && asked.code == "c"
  {
  }

  lemma ReachesFour(code: Code, j: Joint, a: JointAction, b: JointAction, c: JointAction, d: JointAction)
    requires Reached(code, j)
    ensures Reached(code, JointDo(JointDo(JointDo(JointDo(j, a), b), c), d))
  {
    ReachesNext(code, j, a);
    ReachesNext(code, JointDo(j, a), b);
    ReachesNext(code, JointDo(JointDo(j, a), b), c);
    ReachesNext(code, JointDo(JointDo(JointDo(j, a), b), c), d);
  }

  lemma WritesTwo(j: Joint)
    requires AnsweredAt(j.server, 0) && j.phase == Awaiting(2, "k") && j.disk == Disk(Some("k"), None, None)
    ensures HalfWritten(JointDo(JointDo(JointDo(JointDo(j, Receive(0)), Write), Write), Crash))
  {
    var certificate := IssueFor("n", "k", 1, 0).certificate;
    assert Signed(j.server.signed, certificate) && Acceptable(certificate, "k", 0);
    assert JointDo(j, Receive(0)) == j.(phase := Accepted("k", certificate));
  }
}
