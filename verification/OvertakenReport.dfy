/**
 The one way in which the newest stored sample and the last report time come apart: a report overtakes an
 older one of its node, its sample is pruned, and then the older one is recorded.
 */
module OvertakenReport {
  import opened Common
  import opened Numerals
  import opened Database
  import opened Identity
  import opened Handlers
  import opened Protocol
  import opened Reporting
  import opened LateReplay

  /** Two authenticated reports of an enabled node wait to be recorded, and no samples are stored. */
  ghost predicate Waiting(w: World, older: nat, newer: nat) {
    && older != newer && older in w.reports && newer in w.reports
    && w.reports[older].phase.Recording? && w.reports[newer].phase.Recording?
    && ToMillis(w.reports[older].now) < ToMillis(w.reports[newer].now)
    && w.reports[older].report == w.reports[newer].report && ValidReport(w.reports[older].report)
    && var n := w.reports[older].report.node;
    && n in w.db.nodes && !w.db.nodes[n].disabled && w.db.nodes[n].lastReportAt.None?
    && w.db.samples == map[]
  }

  lemma OvertakenLeavesThemApart(w: World, older: nat, newer: nat)
    requires Waiting(w, older, newer)
    ensures
      var n := w.reports[older].report.node;
      var last := Run(w, [StepReport(newer, true), PruneOldest(w.db.nextSample), StepReport(older, true)]);
      && n in last.db.nodes && !InStep(last.db, n)
      && IsLatestOf(last.db.samples, n, w.db.nextSample + 1)
      && last.db.nodes[n].lastReportAt == Some(ToMillis(w.reports[newer].now))
      && last.db.samples[w.db.nextSample + 1].receivedAt == ToMillis(w.reports[older].now)
  {
    var recorded := DoReport(w, newer, true);
    NewerIsRecorded(w, older, newer);
    SolePruned(recorded, w.db.nextSample);
    var pruned := recorded.(db := recorded.db.(samples := map[]));
    OlderIsRecorded(pruned, older);
    Schedule(w, older, newer, w.db.nextSample);
  }

  lemma Schedule(w: World, older: nat, newer: nat, sample: nat)
    requires newer in w.reports && older in DoReport(w, newer, true).reports
    ensures Run(w, [StepReport(newer, true), PruneOldest(sample), StepReport(older, true)])
         == DoReport(DoPrune(DoReport(w, newer, true), sample), older, true)
  {
    RunOfThree(w, StepReport(newer, true), PruneOldest(sample), StepReport(older, true));
    StepIsReport(w, newer);
    var recorded := DoReport(w, newer, true);
    StepIsPrune(recorded, sample);
    StepIsReport(DoPrune(recorded, sample), older);
  }

  lemma StepIsReport(w: World, id: nat)
    requires id in w.reports
    ensures Do(w, StepReport(id, true)) == DoReport(w, id, true)
  {
  }

  lemma StepIsPrune(w: World, sample: nat)
    ensures Do(w, PruneOldest(sample)) == DoPrune(w, sample) && DoPrune(w, sample).reports == w.reports
  {
  }

  lemma SolePruned(w: World, sample: nat)
    requires w.db.samples.Keys == {sample}
    ensures DoPrune(w, sample) == w.(db := w.db.(samples := map[]))
  {
    assert IsOldest(w.db.samples, sample);
    assert w.db.samples - {sample} == map[];
  }

  lemma NewerIsRecorded(w: World, older: nat, newer: nat)
    requires Waiting(w, older, newer)
    ensures
      var n, at := w.reports[older].report.node, ToMillis(w.reports[newer].now);
      var after := DoReport(w, newer, true);
      && after.db.samples == map[w.db.nextSample := SampleRow(n, at, w.reports[newer].report.metrics)]
      && after.db.nextSample == w.db.nextSample + 1
      && n in after.db.nodes && after.db.nodes[n] == w.db.nodes[n].(lastReportAt := Some(at))
      && older in after.reports && after.reports[older] == w.reports[older]
  {
  }

  lemma OlderIsRecorded(w: World, older: nat)
    requires older in w.reports && w.reports[older].phase.Recording? && ValidReport(w.reports[older].report)
    requires
      var n := w.reports[older].report.node;
      && n in w.db.nodes && !w.db.nodes[n].disabled && w.db.samples == map[]
      && w.db.nodes[n].lastReportAt.Some? && ToMillis(w.reports[older].now) < w.db.nodes[n].lastReportAt.value
    ensures
      var n, at := w.reports[older].report.node, ToMillis(w.reports[older].now);
      var after := DoReport(w, older, true);
      && after.db.samples == map[w.db.nextSample := SampleRow(n, at, w.reports[older].report.metrics)]
      && n in after.db.nodes && after.db.nodes[n].lastReportAt == w.db.nodes[n].lastReportAt
      && IsLatestOf(after.db.samples, n, w.db.nextSample)
      && !InStep(after.db, n)
  {
    var n, after := w.reports[older].report.node, DoReport(w, older, true);
    assert after.db == RecordReport(w.db, w.reports[older].report, w.reports[older].now).db;
    assert StoredFor(after.db.samples, n, w.db.nextSample);
  }

  lemma RunOfThree(w: World, a: Action, b: Action, c: Action)
    ensures Run(w, [a, b, c]) == Do(Do(Do(w, a), b), c)
  {
    assert [a, b, c][..2] == [a, b] && [a, b][..1] == [a] && [a][..0] == [];
    assert Run(w, [a]) == Do(w, a);
    assert Run(w, [a, b]) == Do(Run(w, [a]), b);
  }

  // ---- Such a world is reachable ----

  const REPORT := Report("n", Metrics(0.0, 0, 0, 0.0, 0.0, 0.0))
  const ENROLL := [StepEnroll(0, 0), StepEnroll(0, 0), StepEnroll(0, 1)]
  const BEGIN := [BeginReport(0, Proxied("1"), REPORT, 1_000_000), BeginReport(1, Proxied("1"), REPORT, 2_000_000)]
  const AUTHENTICATE := [StepReport(0, true), StepReport(1, true)]

  lemma WaitingIsReachable()
    ensures exists actions :: Waiting(After(actions), 0, 1)
  {
    IssuedIsReachable();
    var issued := After(TWO_REQUESTS + ENROLL);
    OneCertificate(issued);
    StepIsEnroll(issued);
    AuthenticatesTwo(DoEnroll(issued, 0, 0));
    FollowedByFive(TWO_REQUESTS + ENROLL, StepEnroll(0, 0), BEGIN[0], BEGIN[1], AUTHENTICATE[0], AUTHENTICATE[1]);
    var commit, rest := TWO_REQUESTS + ENROLL + [StepEnroll(0, 0)], [BEGIN[0], BEGIN[1], AUTHENTICATE[0], AUTHENTICATE[1]];
    assert Waiting(After(commit + rest), 0, 1);
  }

  lemma StepIsEnroll(w: World)
    requires 0 in w.enrolls && w.enrolls[0].phase.Committing?
    ensures Do(w, StepEnroll(0, 0)) == DoEnroll(w, 0, 0)
  {
  }

  lemma FollowedByFive(actions: seq<Action>, a: Action, b: Action, c: Action, d: Action, e: Action)
    ensures After(actions + [a] + [b, c, d, e]) == Do(Do(Do(Do(Do(After(actions), a), b), c), d), e)
  {
    assert (actions + [a])[..|actions|] == actions;
    RunSplits(INITIAL, actions + [a], [b, c, d, e]);
    RunOfFour(After(actions + [a]), b, c, d, e);
  }

  lemma IssuedIsReachable()
    ensures
      var w := After(TWO_REQUESTS + ENROLL);
      && w.db == FRESH_DB && w.reports == map[] && 0 in w.enrolls
      && w.enrolls[0] == REQUEST.(phase := Committing(IssueFor("n", "k", 1, 0)))
  {
    TwoRequests();
    ThreeSteps(After(TWO_REQUESTS), 0, 1);
    RunSplits(INITIAL, TWO_REQUESTS, ENROLL);
  }

  lemma OneCertificate(w: World)
    requires w.db == FRESH_DB && w.reports == map[] && 0 in w.enrolls
    requires w.enrolls[0] == REQUEST.(phase := Committing(IssueFor("n", "k", 1, 0)))
    ensures
      var after := DoEnroll(w, 0, 0);
      && after.reports == map[] && after.db.nodes == FRESH_DB.nodes && after.db.samples == map[]
      && SerialText(1) in after.db.certs
      && after.db.certs[SerialText(1)] == CertRow("n", 0, CERTIFICATE_DAYS * DAY_MILLIS, None)
  {
  }

  lemma AuthenticatesTwo(w: World)
    requires w.reports == map[] && w.db.nodes == FRESH_DB.nodes && w.db.samples == map[]
    requires SerialText(1) in w.db.certs
    requires w.db.certs[SerialText(1)] == CertRow("n", 0, CERTIFICATE_DAYS * DAY_MILLIS, None)
    ensures Waiting(Do(Do(Do(Do(w, BEGIN[0]), BEGIN[1]), AUTHENTICATE[0]), AUTHENTICATE[1]), 0, 1)
  {
    var first := ReportCall(REPORT, 1_000_000, Authenticating(Proxied("1")));
    var second := ReportCall(REPORT, 2_000_000, Authenticating(Proxied("1")));
    var begun := w.(reports := map[0 := first, 1 := second]);
    BeginTwo(w);
    Authenticates(begun, 0);
    var once := DoReport(begun, 0, true);
    assert Do(begun, AUTHENTICATE[0]) == once;
    Authenticates(once, 1);
    assert Do(once, AUTHENTICATE[1]) == DoReport(once, 1, true);
  }

  lemma BeginTwo(w: World)
    requires w.reports == map[]
    ensures Do(Do(w, BEGIN[0]), BEGIN[1])
         == w.(reports := map[0 := ReportCall(REPORT, 1_000_000, Authenticating(Proxied("1"))),
                              1 := ReportCall(REPORT, 2_000_000, Authenticating(Proxied("1")))])
  {
    var first := ReportCall(REPORT, 1_000_000, Authenticating(Proxied("1")));
    var one := w.(reports := map[0 := first]);
    assert Do(w, BEGIN[0]) == DoBeginReport(w, 0, Proxied("1"), REPORT, 1_000_000) == one;
    assert Do(one, BEGIN[1]) == DoBeginReport(one, 1, Proxied("1"), REPORT, 2_000_000);
  }

  lemma Authenticates(w: World, id: nat)
    requires id in w.reports && w.reports[id].phase == Authenticating(Proxied("1"))
    requires w.reports[id].report == REPORT && 0 <= w.reports[id].now <= 2_000_000
    requires w.db.nodes == FRESH_DB.nodes && SerialText(1) in w.db.certs
    requires w.db.certs[SerialText(1)] == CertRow("n", 0, CERTIFICATE_DAYS * DAY_MILLIS, None)
    ensures
      var after := DoReport(w, id, true);
      && after.db == w.db && after.signed == w.signed
      && after.reports == w.reports[id := w.reports[id].(phase := Recording)]
    ensures ValidReport(REPORT)
  {
    assert IntText(1, 10) == "1";
    DecimalSerialNormalizes(1);
    assert TrimSpace("n") == "n";
  }
}
