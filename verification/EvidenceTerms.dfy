/** What the quickstart script, the collector and the validator ask of every field, spelled out. */
module EvidenceTerms {
  import opened JsonValues
  import opened Quickstart
  import opened Evidence

  // ---------- the measuring script ----------

  predicate Holds(fields: map<string, Json>, key: string, value: Json) {
    key in fields && fields[key] == value
  }

  /** `fields.get(key) == n`, for Python. */
  predicate Counts(fields: map<string, Json>, key: string, n: int) {
    key in fields && PyEqual(fields[key], JInt(n))
  }

  /** The probe was made, could reach its control, found the network internal, and saw no connection. */
  lemma ProbeExactly(probe: Json)
    ensures ValidateProbe(probe).Ok? <==>
              && probe.JObj?
              && Holds(probe.fields, "performed", JBool(true))
              && Holds(probe.fields, "control_reachable", JBool(true))
              && Holds(probe.fields, "internal_network_verified", JBool(true))
              && Counts(probe.fields, "service_network_count", 3)
              && Holds(probe.fields, "unexpected_connection_count", JInt(0))
  {
  }

  /** The launcher says it is ready, and that the time it took is a number below the limit. */
  predicate LaunchedInTime(r: Reply, maximum: nat) {
    && r.safe && r.code == 0 && Holds(r.fields, "ready", JBool(true)) && r.seconds < maximum as real
    && "duration_seconds" in r.fields
    && match r.fields["duration_seconds"]
       case JInt(n) => n < maximum
       case JFloat(x) => x < maximum as real
       case JBool(b) => (if b then 1 else 0) < maximum
       case _ => false
  }

  lemma AttemptedExactly(t: Trial, maximum: nat)
    ensures Attempted(t, maximum) <==>
              && t.quickstart.Returned? && LaunchedInTime(t.quickstart.value, maximum)
              && t.status.Returned? && t.status.value.safe && t.status.value.code == 0
              && Holds(t.status.value.fields, "ready", JBool(true))
              && t.probe.Returned? && ValidateProbe(t.probe.value).Ok?
  {
  }

  /** Bringing the services down is tolerated unless it ends in an exception the script does not know. */
  lemma DownExactly(t: Trial)
    ensures DownTolerated(t) <==> t.down != Raised(Escaped)
  {
  }

  // ---------- the collector and the validator ----------

  /** All tests ran and none failed, was skipped or surprised. */
  predicate TestsClean(u: UnittestReport) {
    && u.gatePassed == JBool(true) && PyEqual(u.failures, JInt(0)) && PyEqual(u.errors, JInt(0))
    && PyEqual(u.skipped, JInt(0)) && PyEqual(u.expectedFailures, JInt(0)) && PyEqual(u.unexpectedSuccesses, JInt(0))
  }

  /** Three probes, three controls, an internal network, nothing unexpected. */
  predicate LocalEgressClean(q: QuickstartReport) {
    && PyEqual(q.probes, JInt(3)) && PyEqual(q.controls, JInt(3))
    && q.internalNetwork == JBool(true) && PyEqual(q.egress, JInt(0))
  }

  predicate ComposeClean(c: ComposeReport) {
    && PyEqual(c.probes, JInt(1)) && PyEqual(c.controls, JInt(1))
    && c.internalNetwork == JBool(true) && PyEqual(c.egress, JInt(0))
  }

  predicate DistributionPassed(r: RemoteReport) {
    r.gate == JStr("passed") && r.anonymousPull == JStr("passed") && r.visibility == JStr("passed")
  }

  predicate PulledInTime(q: QuickstartReport) {
    && q.below60 == JBool(true) && q.pullPath == JStr("passed")
    && PyEqual(q.residueChecks, JInt(6)) && PyEqual(q.portChecks, JInt(12))
  }

  lemma TextEqual(value: Json, text: string)
    ensures PyEqual(value, JStr(text)) <==> value == JStr(text)
  {
  }

  lemma TestsCleanExactly(u: UnittestReport)
    ensures NoFailures(u) <==> TestsClean(u)
  {
  }

  lemma EgressExactly(q: QuickstartReport, c: ComposeReport)
    ensures QuickstartEgressClean(q) <==> LocalEgressClean(q)
    ensures ComposeEgressClean(c) <==> ComposeClean(c)
  {
  }

  lemma RemoteExactly(r: RemoteReport, q: QuickstartReport)
    ensures RemotePassed(r) <==> DistributionPassed(r)
    ensures RemoteFlags(q) <==> PulledInTime(q)
  {
    TextEqual(r.gate, "passed");
    TextEqual(r.anonymousPull, "passed");
    TextEqual(r.visibility, "passed");
    TextEqual(q.pullPath, "passed");
  }

  /** The collector takes results exactly when the gates are the required ones and all these are in order. */
  lemma CollectExactly(t: Terms, r: Results)
    ensures Collect(t, r).Ok? <==>
              && r.gates == t.required && TestsClean(r.unittest)
              && PyEqual(r.quickstart.trialCount, JInt(3)) && r.quickstart.below300 == JBool(true)
              && LocalEgressClean(r.quickstart) && ComposeClean(r.compose) && DistributionPassed(r.remote)
              && PyEqual(r.remoteQuickstart.trialCount, JInt(3)) && PulledInTime(r.remoteQuickstart)
              && r.remote.revision.JStr?
    ensures Collect(t, r).Ok? ==> Collect(t, r).value == Summary(r, r.remote.revision, |r.gates|)
  {
    TestsCleanExactly(r.unittest);
    EgressExactly(r.quickstart, r.compose);
    RemoteExactly(r.remote, r.remoteQuickstart);
  }

  /** A number between nothing and the limit, and no boolean. */
  predicate Within(value: Json, limit: nat) {
    match value
    case JInt(n) => 0 < n < limit
    case JFloat(x) => 0.0 < x < limit as real
    case _ => false
  }

  function TimeOf(value: Json): real {
    match value
    case JInt(n) => n as real
    case JFloat(x) => x
    case _ => 0.0
  }

  /** Three times in range, with their maximum and their median as Python computes them. */
  predicate TimesInOrder(q: QuickstartReport, limit: nat) {
    && q.durations.JList? && |q.durations.items| == 3
    && (forall i :: 0 <= i < 3 ==> Within(q.durations.items[i], limit))
    && var times := [TimeOf(q.durations.items[0]), TimeOf(q.durations.items[1]), TimeOf(q.durations.items[2])];
       PyEqual(q.maximum, JFloat(Max(times))) && PyEqual(q.median, JFloat(Median(times)))
  }

  lemma TimesExactly(q: QuickstartReport, limit: nat)
    ensures ThreeInRange(q.durations, limit) && StatisticsMatch(q) <==> TimesInOrder(q, limit)
  {
    if q.durations.JList? && |q.durations.items| == 3 {
      var items := q.durations.items;
      forall i | 0 <= i < 3 ensures InRange(items[i], limit) <==> Within(items[i], limit) {
      }
      if ThreeInRange(q.durations, limit) {
        assert Times(q.durations) == [TimeOf(items[0]), TimeOf(items[1]), TimeOf(items[2])];
      }
    }
  }

  /** The validator takes a summary exactly when all these are in order. */
  lemma ValidateExactly(t: Terms, s: Summary)
    ensures var r := s.results;
            Validate(t, s).Ok? <==>
              && PyEqual(s.publishedRevision, r.distributionRevision) && r.gates == t.required
              && TestsRan(r.unittest) && TestsClean(r.unittest)
              && TimesInOrder(r.quickstart, 300) && TimesInOrder(r.remoteQuickstart, 60)
              && PulledInTime(r.remoteQuickstart) && LocalEgressClean(r.quickstart) && ComposeClean(r.compose)
              && DistributionPassed(r.remote) && PyEqual(r.remote.revision, s.publishedRevision)
              && s.requiredGateCount == |t.required| && PyEqual(r.evidence, t.prewrite)
  {
    var r := s.results;
    TestsCleanExactly(r.unittest);
    EgressExactly(r.quickstart, r.compose);
    RemoteExactly(r.remote, r.remoteQuickstart);
    TimesExactly(r.quickstart, 300);
    TimesExactly(r.remoteQuickstart, 60);
  }

  /** At least one test ran; a boolean counts as the number it is to Python. */
  lemma TestsRanExactly(u: UnittestReport)
    ensures TestsRan(u) <==> match u.testsRun
                             case JInt(n) => n >= 1
                             case JFloat(x) => x >= 1.0
                             case JBool(b) => b
                             case _ => false
  {
  }
}
