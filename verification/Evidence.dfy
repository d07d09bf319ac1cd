/** The evidence summary: what the collector puts together and what the validator later has to accept. */
module Evidence {
  import opened Wrappers
  import opened JsonValues
  import opened Quickstart

  // ---------- statistics ----------

  function Max(s: seq<real>): (m: real)
    requires s != []
    ensures m in s && forall i :: 0 <= i < |s| ==> s[i] <= m
  {
    if |s| == 1 then s[0]
    else
      var rest := Max(s[1..]);
      assert forall i :: 0 < i < |s| ==> s[i] == s[1..][i - 1];
      if s[0] >= rest then s[0] else rest
  }

  predicate TwoOf(s: seq<real>, test: real -> bool)
    requires |s| == 3
  {
    (test(s[0]) && test(s[1])) || (test(s[1]) && test(s[2])) || (test(s[0]) && test(s[2]))
  }

  /** `statistics.median` of three numbers: two are no larger, two no smaller. */
  function Median(s: seq<real>): (m: real)
    requires |s| == 3
    ensures m in s && TwoOf(s, x => x <= m) && TwoOf(s, x => x >= m)
  {
    if s[1] <= s[0] <= s[2] || s[2] <= s[0] <= s[1] then s[0]
    else if s[0] <= s[1] <= s[2] || s[2] <= s[1] <= s[0] then s[1]
    else s[2]
  }

  // ---------- the documents ----------

  /** The fields of a quickstart result that anyone reads later; a missing field reads as null. */
  datatype QuickstartReport = QuickstartReport(
    trialCount: Json,
    durations: Json,
    maximum: Json,
    median: Json,
    below300: Json,
    below60: Json,
    probes: Json,
    controls: Json,
    internalNetwork: Json,
    egress: Json,
    residueChecks: Json,
    portChecks: Json,
    pullPath: Json)

  datatype ComposeReport = ComposeReport(probes: Json, controls: Json, internalNetwork: Json, egress: Json)

  datatype RemoteReport = RemoteReport(gate: Json, revision: Json, anonymousPull: Json, visibility: Json)

  datatype UnittestReport = UnittestReport(
    testsRun: Json, gatePassed: Json, failures: Json, errors: Json, skipped: Json, expectedFailures: Json,
    unexpectedSuccesses: Json)

  datatype Results = Results(
    quickstart: QuickstartReport,
    remoteQuickstart: QuickstartReport,
    compose: ComposeReport,
    remote: RemoteReport,
    distributionRevision: Json,
    evidence: Json,
    unittest: UnittestReport,
    gates: set<string>)

  /** The part of a summary that is neither text fixed in the code nor read from git. */
  datatype Summary = Summary(results: Results, publishedRevision: Json, requiredGateCount: nat)

  /** The gates that must have run, and the evidence gate's answer before anything is written. */
  datatype Terms = Terms(required: set<string>, prewrite: Json)

  datatype EvidenceError =
    | PreconditionsIncomplete
    | UnittestIncomplete
    | QuickstartIncomplete
    | RevisionMissing
    | IdentityInvalid
    | GateInventoryInvalid
    | UnittestInvalid
    | QuickstartInvalid
    | QuickstartStatisticsInvalid
    | RemoteQuickstartInvalid
    | EgressProbeInvalid
    | RemoteDistributionInvalid
    | AggregateInvalid
    | PrewriteInvalid

  // ---------- the producer ----------

  /** What the measuring script reports about trials that all passed. */
  function Report(m: Measured, limit: nat, remote: bool): QuickstartReport
    requires |m.durations| == 3
  {
    QuickstartReport(
      JInt(3),
      JList(seq(3, i requires 0 <= i < 3 => JFloat(m.durations[i]))),
      JFloat(Max(m.durations)),
      JFloat(Median(m.durations)),
      JBool(true),
      JBool(limit == 60),
      JInt(m.counters.probes),
      JInt(m.counters.probes),
      JBool(true),
      JInt(m.counters.egress),
      JInt(m.counters.residueChecks),
      JInt(m.counters.portChecks),
      JStr(if remote then "passed" else "not_evaluated"))
  }

  // ---------- the collector ----------

  predicate Is(value: Json, n: int) {
    PyEqual(value, JInt(n))
  }

  predicate Says(value: Json, text: string) {
    PyEqual(value, JStr(text))
  }

  predicate True(value: Json) {
    value == JBool(true)
  }

  predicate NoFailures(u: UnittestReport) {
    && True(u.gatePassed) && Is(u.failures, 0) && Is(u.errors, 0) && Is(u.skipped, 0)
    && Is(u.expectedFailures, 0) && Is(u.unexpectedSuccesses, 0)
  }

  predicate EgressClean(probes: Json, controls: Json, internalNetwork: Json, egress: Json, count: nat) {
    Is(probes, count) && Is(controls, count) && True(internalNetwork) && Is(egress, 0)
  }

  predicate QuickstartEgressClean(q: QuickstartReport) {
    EgressClean(q.probes, q.controls, q.internalNetwork, q.egress, 3)
  }

  predicate ComposeEgressClean(c: ComposeReport) {
    EgressClean(c.probes, c.controls, c.internalNetwork, c.egress, 1)
  }

  predicate RemotePassed(r: RemoteReport) {
    Says(r.gate, "passed") && Says(r.anonymousPull, "passed") && Says(r.visibility, "passed")
  }

  predicate RemoteFlags(q: QuickstartReport) {
    True(q.below60) && Says(q.pullPath, "passed") && Is(q.residueChecks, 6) && Is(q.portChecks, 12)
  }

  /** The collector's checks, in order; it looks at counts and flags, not at the times themselves. */
  function Collect(t: Terms, r: Results): Result<Summary, EvidenceError> {
    if r.gates != t.required then Err(PreconditionsIncomplete)
    else if !NoFailures(r.unittest) then Err(UnittestIncomplete)
    else if !Is(r.quickstart.trialCount, 3) || !True(r.quickstart.below300) || !QuickstartEgressClean(r.quickstart)
            || !ComposeEgressClean(r.compose) || !RemotePassed(r.remote)
            || !Is(r.remoteQuickstart.trialCount, 3) || !RemoteFlags(r.remoteQuickstart) then Err(QuickstartIncomplete)
    else if !r.remote.revision.JStr? then Err(RevisionMissing)
    else Ok(Summary(r, r.remote.revision, |r.gates|))
  }

  // ---------- the validator ----------

  /** `type(value) in {int, float}`: unlike elsewhere, booleans do not count. */
  predicate IsNumber(value: Json) {
    value.JInt? || value.JFloat?
  }

  predicate InRange(value: Json, limit: nat) {
    IsNumber(value) && 0.0 < Number(value).value < limit as real
  }

  predicate ThreeInRange(durations: Json, limit: nat) {
    durations.JList? && |durations.items| == 3 && forall i :: 0 <= i < 3 ==> InRange(durations.items[i], limit)
  }

  function Times(durations: Json): (times: seq<real>)
    requires durations.JList? && |durations.items| == 3 && forall i :: 0 <= i < 3 ==> IsNumber(durations.items[i])
    ensures |times| == 3
  {
    seq(3, i requires 0 <= i < 3 => assert IsNumber(durations.items[i]); Number(durations.items[i]).value)
  }

  predicate StatisticsMatch(q: QuickstartReport)
    requires q.durations.JList? && |q.durations.items| == 3 && forall i :: 0 <= i < 3 ==> IsNumber(q.durations.items[i])
  {
    PyEqual(q.maximum, JFloat(Max(Times(q.durations)))) && PyEqual(q.median, JFloat(Median(Times(q.durations))))
  }

  predicate TestsRan(u: UnittestReport) {
    Number(u.testsRun).Some? && Number(u.testsRun).value >= 1.0
  }

  /** The validator's checks on a summary, in order. */
  function Validate(t: Terms, s: Summary): Result<(), EvidenceError> {
    var r := s.results;
    if !PyEqual(s.publishedRevision, r.distributionRevision) then Err(IdentityInvalid)
    else if r.gates != t.required then Err(GateInventoryInvalid)
    else if !TestsRan(r.unittest) || !NoFailures(r.unittest) then Err(UnittestInvalid)
    else if !ThreeInRange(r.quickstart.durations, 300) then Err(QuickstartInvalid)
    else if !StatisticsMatch(r.quickstart) then Err(QuickstartStatisticsInvalid)
    else if !ThreeInRange(r.remoteQuickstart.durations, 60) || !StatisticsMatch(r.remoteQuickstart)
            || !RemoteFlags(r.remoteQuickstart) then Err(RemoteQuickstartInvalid)
    else if !QuickstartEgressClean(r.quickstart) || !ComposeEgressClean(r.compose) then Err(EgressProbeInvalid)
    else if !RemotePassed(r.remote) || !PyEqual(r.remote.revision, s.publishedRevision)
        then Err(RemoteDistributionInvalid)
    else if s.requiredGateCount != |t.required| then Err(AggregateInvalid)
    else if !PyEqual(r.evidence, t.prewrite) then Err(PrewriteInvalid)
    else Ok(())
  }

  // ---------- the pair ----------

  /** The times of a report are measured, positive, below the limit, and summed up correctly. */
  predicate TimesAccepted(q: QuickstartReport, limit: nat) {
    ThreeInRange(q.durations, limit) && StatisticsMatch(q)
  }

  /** What the collector does not look at and the validator does. */
  predicate LeftToValidator(t: Terms, r: Results) {
    && PyEqual(r.remote.revision, r.distributionRevision)
    && TestsRan(r.unittest)
    && TimesAccepted(r.quickstart, 300) && TimesAccepted(r.remoteQuickstart, 60)
    && PyEqual(r.evidence, t.prewrite)
  }

  /** A collected summary is accepted exactly when what the collector did not look at is in order. */
  lemma CollectedIsAcceptedExactly(t: Terms, r: Results)
    requires Collect(t, r).Ok?
    ensures Validate(t, Collect(t, r).value).Ok? <==> LeftToValidator(t, r)
  {
    PyEqualReflexive(r.remote.revision);
  }

  predicate Positive(durations: seq<real>) {
    forall i :: 0 <= i < |durations| ==> durations[i] > 0.0
  }

  /** The measured times survive the way into the report and out again. */
  lemma TimesOfReport(m: Measured, limit: nat, remote: bool)
    requires |m.durations| == 3
    ensures Times(Report(m, limit, remote).durations) == m.durations
  {
    var items := Report(m, limit, remote).durations.items;
    forall i | 0 <= i < 3 ensures Number(items[i]) == Some(m.durations[i]) {
    }
  }

  /** A report's times are accepted exactly when they are positive and below the validator's limit. */
  lemma ReportedTimesAccepted(m: Measured, limit: nat, remote: bool)
    requires |m.durations| == 3 && forall i :: 0 <= i < 3 ==> m.durations[i] < limit as real
    ensures TimesAccepted(Report(m, limit, remote), limit) <==> Positive(m.durations)
  {
    var q := Report(m, limit, remote);
    TimesOfReport(m, limit, remote);
    forall i | 0 <= i < 3 ensures InRange(q.durations.items[i], limit) <==> m.durations[i] > 0.0 {
      assert q.durations.items[i] == JFloat(m.durations[i]);
    }
  }

  lemma CompleteReport(m: Measured, limit: nat, remote: bool)
    requires |m.durations| == 3 && m.counters == Counters(3, 0, 6, 12)
    ensures var q := Report(m, limit, remote);
            && Is(q.trialCount, 3) && True(q.below300) && QuickstartEgressClean(q)
            && (RemoteFlags(q) <==> limit == 60 && remote)
  {
    assert "passed"[0] != "not_evaluated"[0];
  }

  /** What two runs of the measuring script contribute. */
  function Measurements(trials: seq<Trial>, limit: nat, remote: bool): QuickstartReport
    requires |trials| == 3 && AllPass(trials, limit)
  {
    Report(Measured(Durations(trials, limit), Counters(3, 0, 6, 12)), limit, remote)
  }

  /** Trials that pass give a report with the counts and flags the collector asks for. */
  lemma PassedTrialsReport(trials: seq<Trial>, limit: nat, remote: bool)
    requires |trials| == 3 && AllPass(trials, limit)
    ensures var q := Measurements(trials, limit, remote);
            && Is(q.trialCount, 3) && True(q.below300) && QuickstartEgressClean(q)
            && (RemoteFlags(q) <==> limit == 60 && remote)
            && (TimesAccepted(q, limit) <==> Positive(Durations(trials, limit)))
  {
    var m := Measured(Durations(trials, limit), Counters(3, 0, 6, 12));
    CompleteReport(m, limit, remote);
    ReportedTimesAccepted(m, limit, remote);
  }

  /**
   * From trials to evidence: with two passed runs and everything else the collector asks for, it collects; and the
   * validator accepts exactly when every measured time is positive and the remaining facts are in order.
   */
  lemma EvidencePipeline(t: Terms, r: Results, local: seq<Trial>, remote: seq<Trial>)
    requires |local| == 3 && AllPass(local, 300) && |remote| == 3 && AllPass(remote, 60)
    requires r.quickstart == Measurements(local, 300, false) && r.remoteQuickstart == Measurements(remote, 60, true)
    ensures Collect(t, r).Ok? <==>
              && r.gates == t.required && NoFailures(r.unittest) && ComposeEgressClean(r.compose)
              && RemotePassed(r.remote) && r.remote.revision.JStr?
    ensures Collect(t, r).Ok? ==>
              (Validate(t, Collect(t, r).value).Ok? <==>
               && Positive(Durations(local, 300)) && Positive(Durations(remote, 60))
               && PyEqual(r.remote.revision, r.distributionRevision) && TestsRan(r.unittest)
                   && PyEqual(r.evidence, t.prewrite))
  {
    PassedTrialsReport(local, 300, false);
    PassedTrialsReport(remote, 60, true);
    if Collect(t, r).Ok? {
      CollectedIsAcceptedExactly(t, r);
    }
  }

  // ---------- a summary that is collected and refused ----------

  function CleanProbe(): Json {
    JObj(map[
      "performed" := JBool(true), "control_reachable" := JBool(true), "internal_network_verified" := JBool(true),
      "service_network_count" := JInt(3), "unexpected_connection_count" := JInt(0)])
  }

  /** A trial in order in every respect, so fast that its time rounds to nothing. */
  function InstantTrial(): Trial {
    var up := Reply(0, map["ready" := JBool(true), "duration_seconds" := JInt(0)], true, 0.0);
    Trial(
      Returned(false), Returned(()), Returned(true), Returned(up), Returned(up), Returned(CleanProbe()),
      Returned(()), Returned(false), true)
  }

  function InstantTrials(): seq<Trial> {
    [InstantTrial(), InstantTrial(), InstantTrial()]
  }

  lemma CleanProbeIsValid()
    ensures ValidateProbe(CleanProbe()) == Ok(0)
  {
    var fields := CleanProbe().fields;
    assert "performed"[0] == 'p' && "control_reachable"[0] == 'c' && "internal_network_verified"[0] == 'i';
    assert "service_network_count"[0] == 's' && "unexpected_connection_count"[0] == 'u';
    assert PyEqual(JInt(3), JInt(3));
  }

  lemma InstantTrialPasses(limit: nat)
    requires limit > 0
    ensures Passes(InstantTrial(), limit) && AllPass(InstantTrials(), limit)
    ensures Durations(InstantTrials(), limit) == [0.0, 0.0, 0.0]
  {
    CleanProbeIsValid();
    assert "ready"[0] != "duration_seconds"[0];
    assert Passes(InstantTrial(), limit);
  }

  const ONE_TEST := UnittestReport(JInt(1), JBool(true), JInt(0), JInt(0), JInt(0), JInt(0), JInt(0))
  const CLEAN_COMPOSE := ComposeReport(JInt(1), JInt(1), JBool(true), JInt(0))
  const PASSED_REMOTE := RemoteReport(JStr("passed"), JStr("r"), JStr("passed"), JStr("passed"))

  lemma OthersInOrder()
    ensures NoFailures(ONE_TEST) && ComposeEgressClean(CLEAN_COMPOSE) && RemotePassed(PASSED_REMOTE)
  {
  }

  /** Everything else in order: one unit test, a clean compose run, a distribution that passed. */
  function InstantResults(t: Terms): Results
    requires AllPass(InstantTrials(), 300) && AllPass(InstantTrials(), 60)
  {
    Results(
      Measurements(InstantTrials(), 300, false), Measurements(InstantTrials(), 60, true),
      CLEAN_COMPOSE, PASSED_REMOTE, JStr("r"), t.prewrite, ONE_TEST, t.required)
  }

  /**
   * The collector takes results whose times round to nothing, and
   * the validator refuses the summary it makes of them.
   */
  lemma CollectedAndRefused(t: Terms)
    ensures AllPass(InstantTrials(), 300) && AllPass(InstantTrials(), 60)
    ensures Collect(t, InstantResults(t)).Ok? && Validate(t, Collect(t, InstantResults(t)).value).Err?
  {
    InstantTrialPasses(300);
    InstantTrialPasses(60);
    OthersInOrder();
    EvidencePipeline(t, InstantResults(t), InstantTrials(), InstantTrials());
    assert Durations(InstantTrials(), 300)[0] == 0.0;
  }
}
