/** Three measured quickstart trials: what they count, and what they clean up however they end. */
module Quickstart {
  import opened Sequences
  import opened Wrappers
  import opened JsonValues

  // ---------- the outside world ----------

  /** How a call that leaves the script can end: an error the gates know of, or any other exception. */
  datatype Failure =
    | PreexistingResidue
    | PortsTaken
    | UnsafeOutput
    | NotReady
    | TooSlow
    | StatusNotReady
    | ProbeIncomplete
    | UnexpectedEgress
    | CleanupResidue
    | PortsKept
    | TrialCountInvalid
    | ToolFailed
    | Escaped
    | DownEscaped

  datatype Outcome<T> = Returned(value: T) | Raised(failure: Failure)

  /** A launcher's answer: exit code, decoded output, whether the output is safe, and the rounded time it took. */
  datatype Reply = Reply(code: int, fields: map<string, Json>, safe: bool, seconds: real)

  /**
   * Whatever the outside world does during one trial. Residue is whether any is left; drawing the two ports and looking
   * whether they are free is one answer.
   */
  datatype Trial = Trial(
    before: Outcome<bool>,
    mkdir: Outcome<()>,
    freeBefore: Outcome<bool>,
    quickstart: Outcome<Reply>,
    status: Outcome<Reply>,
    probe: Outcome<Json>,
    down: Outcome<()>,
    after: Outcome<bool>,
    freeAfter: bool)

  predicate IsReady(r: Reply) {
    Get(r.fields, "ready") == JBool(true)
  }

  /** `isinstance(value, (int, float))`, which lets booleans through. */
  predicate Timed(r: Reply) {
    Number(Get(r.fields, "duration_seconds")).Some?
  }

  /** The probe's report must be complete; the number of connections it counts is at most three. */
  function ValidateProbe(probe: Json): Result<nat, Failure> {
    if !probe.JObj? || Get(probe.fields, "performed") != JBool(true)
        || Get(probe.fields, "control_reachable") != JBool(true)
       || Get(probe.fields, "internal_network_verified") != JBool(true)
       || !PyEqual(Get(probe.fields, "service_network_count"), JInt(3))
       || !Get(probe.fields, "unexpected_connection_count").JInt?
       || !(0 <= Get(probe.fields, "unexpected_connection_count").number <= 3) then Err(ProbeIncomplete)
    else if Get(probe.fields, "unexpected_connection_count").number != 0 then Err(UnexpectedEgress)
    else Ok(0)
  }

  // ---------- one trial ----------

  /**
   * What a trial leaves traces of: its directory made, the services brought up and down, and the removal of the
   * directory attempted, whose errors are ignored.
   */
  datatype Event = Made(trial: nat) | Started(trial: nat) | Stopped(trial: nat) | Discarded(trial: nat)

  datatype Counters = Counters(probes: nat, egress: nat, residueChecks: nat, portChecks: nat)

  /** Inside the timed part: every answer is safe, in order and in time. */
  predicate Attempted(t: Trial, maximum: nat) {
    && t.quickstart.Returned? && t.status.Returned? && t.probe.Returned?
    && var up, status := t.quickstart.value, t.status.value;
    && up.safe && up.code == 0 && IsReady(up) && Timed(up)
    && up.seconds < maximum as real && Number(Get(up.fields, "duration_seconds")).value < maximum as real
    && status.safe && status.code == 0 && IsReady(status)
    && ValidateProbe(t.probe.value).Ok?
  }

  /** Bringing the services down went well, or failed in a way that is tolerated. */
  predicate DownTolerated(t: Trial) {
    t.down.Raised? ==> t.down.failure != Escaped
  }

  /** The trial gets its directory. */
  predicate Makes(t: Trial) {
    t.before == Returned(false) && t.mkdir.Returned?
  }

  /** The trial gets as far as attempting a quickstart. */
  predicate Launches(t: Trial) {
    Makes(t) && t.freeBefore == Returned(true)
  }

  predicate Passes(t: Trial, maximum: nat) {
    && Launches(t)
    && Attempted(t, maximum) && DownTolerated(t)
    && t.after == Returned(false) && t.freeAfter
  }

  /** The body of the `try`, up to the measured time; the counters survive a failure. */
  method Attempt(t: Trial, maximum: nat, c: Counters) returns (r: Result<real, Failure>, c': Counters)
    requires c.egress == 0
    ensures r.Ok? <==> Attempted(t, maximum)
    ensures r.Ok? ==> r.value == t.quickstart.value.seconds && c' == c.(probes := c.probes + 1)
  {
    c' := c;
    if t.quickstart.Raised? {
      return Err(t.quickstart.failure), c';
    }
    var up := t.quickstart.value;
    if !up.safe {
      return Err(UnsafeOutput), c';
    }
    if up.code != 0 || !IsReady(up) || !Timed(up) {
      return Err(NotReady), c';
    }
    if up.seconds >= maximum as real || Number(Get(up.fields, "duration_seconds")).value >= maximum as real {
      return Err(TooSlow), c';
    }
    if t.status.Raised? {
      return Err(t.status.failure), c';
    }
    if !t.status.value.safe {
      return Err(UnsafeOutput), c';
    }
    if t.status.value.code != 0 || !IsReady(t.status.value) {
      return Err(StatusNotReady), c';
    }
    if t.probe.Raised? {
      return Err(t.probe.failure), c';
    }
    c' := c'.(probes := c'.probes + 1);
    var connections := ValidateProbe(t.probe.value);
    if connections.Err? {
      return Err(connections.error), c';
    }
    c' := c'.(egress := c'.egress + connections.value);
    if c'.egress != 0 {
      return Err(UnexpectedEgress), c';
    }
    return Ok(up.seconds), c';
  }

  /** One event is followed by another of the same trial. */
  ghost predicate Followed(trace: seq<Event>, j: nat, next: Event)
    requires j < |trace|
  {
    exists k :: j < k < |trace| && trace[k] == next
  }

  ghost predicate Preceded(trace: seq<Event>, k: nat, previous: Event)
    requires k < |trace|
  {
    exists j :: 0 <= j < k && trace[j] == previous
  }

  predicate NoRepeat(trace: seq<Event>) {
    forall j, k :: 0 <= j < k < |trace| ==> trace[j] != trace[k]
  }

  /** Whatever was started was stopped afterwards, once, and nothing else was. */
  ghost predicate CleanedUp(trace: seq<Event>) {
    && (forall j :: 0 <= j < |trace| && trace[j].Started? ==> Followed(trace, j, Stopped(trace[j].trial)))
    && (forall k :: 0 <= k < |trace| && trace[k].Stopped? ==> Preceded(trace, k, Started(trace[k].trial)))
    && NoRepeat(trace)
  }

  /** For every directory made, removal was attempted. */
  ghost predicate Discards(trace: seq<Event>) {
    forall j :: 0 <= j < |trace| && trace[j].Made? ==> Followed(trace, j, Discarded(trace[j].trial))
  }

  ghost predicate Before(trace: seq<Event>, n: nat) {
    forall k :: 0 <= k < |trace| ==> trace[k].trial < n
  }

  ghost predicate Within(trace: seq<Event>, n: nat) {
    forall k :: 0 <= k < |trace| ==> trace[k].trial == n
  }

  /** What a trial leaves in the trace: as much of the four events as it gets to. */
  function Expected(t: Trial, n: nat): seq<Event> {
    if !Makes(t) then []
    else if !Launches(t) then [Made(n)]
    else if !DownTolerated(t) then [Made(n), Started(n), Stopped(n)]
    else [Made(n), Started(n), Stopped(n), Discarded(n)]
  }

  /** What the first trials leave, one after the other. */
  function ExpectedAll(trials: seq<Trial>, k: nat): seq<Event>
    requires k <= |trials|
  {
    if k == 0 then [] else ExpectedAll(trials, k - 1) + Expected(trials[k - 1], k - 1)
  }

  /** One trial, with its `finally`: an exception that escapes from the clean-up takes the place of any other. */
  method RunTrial(t: Trial, n: nat, maximum: nat, c: Counters)
    returns (r: Result<real, Failure>, c': Counters, ghost trace: seq<Event>)
    requires c.egress == 0
    ensures r.Ok? <==> Passes(t, maximum)
    ensures r.Ok? ==> r.value == t.quickstart.value.seconds
    ensures r.Ok? ==> c' == Counters(c.probes + 1, 0, c.residueChecks + 2, c.portChecks + 4)
    ensures Launches(t) && !DownTolerated(t) ==> r == Err(DownEscaped)
    ensures trace == Expected(t, n)
  {
    c', trace := c, [];
    if t.before != Returned(false) {
      return Err(if t.before.Raised? then t.before.failure else PreexistingResidue), c', trace;
    }
    c' := c'.(residueChecks := c'.residueChecks + 1);
    if t.mkdir.Raised? {
      return Err(t.mkdir.failure), c', trace;
    }
    trace := [Made(n)];
    if t.freeBefore != Returned(true) {
      return Err(if t.freeBefore.Raised? then t.freeBefore.failure else PortsTaken), c', trace;
    }
    c' := c'.(portChecks := c'.portChecks + 2);
    trace := trace + [Started(n)];
    var attempt: Result<real, Failure>;
    attempt, c' := Attempt(t, maximum, c');
    trace := trace + [Stopped(n)];
    if !DownTolerated(t) {
      return Err(DownEscaped), c', trace;
    }
    trace := trace + [Discarded(n)];
    if attempt.Err? {
      return Err(attempt.error), c', trace;
    }
    if t.after.Raised? {
      return Err(t.after.failure), c', trace;
    }
    c' := c'.(residueChecks := c'.residueChecks + 1);
    if t.after.value {
      return Err(CleanupResidue), c', trace;
    }
    if !t.freeAfter {
      return Err(PortsKept), c', trace;
    }
    c' := c'.(portChecks := c'.portChecks + 2);
    return Ok(attempt.value), c', trace;
  }

  // ---------- the trace of one trial ----------

  lemma ThreeEvents(n: nat)
    ensures var trace := [Made(n), Started(n), Stopped(n)]; CleanedUp(trace) && !Discards(trace)
  {
    var trace := [Made(n), Started(n), Stopped(n)];
    assert trace[0] == Made(n) && trace[1] == Started(n) && trace[2] == Stopped(n);
    assert Followed(trace, 1, Stopped(n)) && Preceded(trace, 2, Started(n)) && !Followed(trace, 0, Discarded(n));
  }

  lemma FourEvents(n: nat)
    ensures var trace := [Made(n), Started(n), Stopped(n), Discarded(n)]; CleanedUp(trace) && Discards(trace)
  {
    var trace := [Made(n), Started(n), Stopped(n), Discarded(n)];
    assert trace[0] == Made(n) && trace[1] == Started(n) && trace[2] == Stopped(n) && trace[3] == Discarded(n);
    assert Followed(trace, 1, Stopped(n)) && Preceded(trace, 2, Started(n)) && Followed(trace, 0, Discarded(n));
  }

  lemma OneEvent(n: nat)
    ensures var trace := [Made(n)]; CleanedUp(trace) && !Discards(trace)
  {
    var trace := [Made(n)];
    assert trace[0].Made? && !Followed(trace, 0, Discarded(n));
  }

  /** A directory is made, and no attempt is made to remove it: the ports failed, or the clean-up was interrupted. */
  predicate Interrupted(t: Trial) {
    Makes(t) && (t.freeBefore != Returned(true) || !DownTolerated(t))
  }

  lemma ExpectedCleansUp(t: Trial, n: nat)
    ensures Within(Expected(t, n), n) && CleanedUp(Expected(t, n))
    ensures Discards(Expected(t, n)) <==> !Interrupted(t)
  {
    if Makes(t) && !Launches(t) {
      OneEvent(n);
    } else if Launches(t) && !DownTolerated(t) {
      ThreeEvents(n);
    } else if Launches(t) {
      FourEvents(n);
    }
  }

  // ---------- traces of several trials ----------

  lemma FollowedAppend(a: seq<Event>, b: seq<Event>, j: nat, next: Event, n: nat)
    requires Before(a, n) && Within(b, n) && j < |a + b|
    requires next.trial == (a + b)[j].trial
    ensures Followed(a + b, j, next) <==> if j < |a| then Followed(a, j, next) else Followed(b, j - |a|, next)
  {
    var c := a + b;
    if j < |a| {
      if Followed(a, j, next) {
        var k :| j < k < |a| && a[k] == next;
        assert c[k] == next;
      }
      if Followed(c, j, next) {
        var k :| j < k < |c| && c[k] == next;
        assert k < |a|;
      }
    } else {
      if Followed(b, j - |a|, next) {
        var k :| j - |a| < k < |b| && b[k] == next;
        assert c[|a| + k] == next;
      }
      if Followed(c, j, next) {
        var k :| j < k < |c| && c[k] == next;
        assert b[k - |a|] == next;
      }
    }
  }

  lemma PrecededAppend(a: seq<Event>, b: seq<Event>, k: nat, previous: Event)
    requires k < |a + b|
    requires if k < |a| then Preceded(a, k, previous) else Preceded(b, k - |a|, previous)
    ensures Preceded(a + b, k, previous)
  {
    var c := a + b;
    if k < |a| {
      var j :| 0 <= j < k && a[j] == previous;
      assert c[j] == previous;
    } else {
      var j :| 0 <= j < k - |a| && b[j] == previous;
      assert c[|a| + j] == previous;
    }
  }

  lemma NoRepeatAppend(a: seq<Event>, b: seq<Event>, n: nat)
    requires Before(a, n) && Within(b, n) && NoRepeat(a) && NoRepeat(b)
    ensures NoRepeat(a + b) && Before(a + b, n + 1)
  {
  }

  /** The trials are apart: a trace that cleans up, followed by one more trial that does, cleans up. */
  lemma CleanedUpAppend(a: seq<Event>, b: seq<Event>, n: nat)
    requires Before(a, n) && Within(b, n) && CleanedUp(a) && CleanedUp(b)
    ensures Before(a + b, n + 1) && CleanedUp(a + b)
  {
    var c := a + b;
    NoRepeatAppend(a, b, n);
    forall j | 0 <= j < |c| && c[j].Started? ensures Followed(c, j, Stopped(c[j].trial)) {
      FollowedAppend(a, b, j, Stopped(c[j].trial), n);
    }
    forall k | 0 <= k < |c| && c[k].Stopped? ensures Preceded(c, k, Started(c[k].trial)) {
      PrecededAppend(a, b, k, Started(c[k].trial));
    }
  }

  lemma DiscardsAppend(a: seq<Event>, b: seq<Event>, n: nat)
    requires Before(a, n) && Within(b, n)
    ensures Discards(a + b) <==> Discards(a) && Discards(b)
  {
    var c := a + b;
    forall j | 0 <= j < |c| ensures Followed(c, j, Discarded(c[j].trial)) <==>
                                    if j < |a| then Followed(a, j, Discarded(a[j].trial))
                                        else Followed(b, j - |a|, Discarded(b[j - |a|].trial))
    {
      FollowedAppend(a, b, j, Discarded(c[j].trial), n);
    }
    forall j | 0 <= j < |a| ensures c[j] == a[j] {
    }
    forall j | 0 <= j < |b| ensures c[|a| + j] == b[j] {
    }
  }

  ghost predicate NoneInterrupted(trials: seq<Trial>, k: nat)
    requires k <= |trials|
  {
    forall i :: 0 <= i < k ==> !Interrupted(trials[i])
  }

  lemma {:induction false} TrialsApart(trials: seq<Trial>, k: nat)
    requires k <= |trials|
    ensures Before(ExpectedAll(trials, k), k)
  {
    if k > 0 {
      TrialsApart(trials, k - 1);
      ExpectedCleansUp(trials[k - 1], k - 1);
    }
  }

  /** Whatever the outside world does: what was started was stopped afterwards, once, and nothing else was. */
  lemma {:induction false} TrialsCleanUp(trials: seq<Trial>, k: nat)
    requires k <= |trials|
    ensures CleanedUp(ExpectedAll(trials, k))
  {
    if k > 0 {
      TrialsCleanUp(trials, k - 1);
      TrialsApart(trials, k - 1);
      ExpectedCleansUp(trials[k - 1], k - 1);
      CleanedUpAppend(ExpectedAll(trials, k - 1), Expected(trials[k - 1], k - 1), k - 1);
    }
  }

  /** Removal of every directory made was attempted exactly when no trial was interrupted. */
  lemma {:induction false} TrialsDiscard(trials: seq<Trial>, k: nat)
    requires k <= |trials|
    ensures Discards(ExpectedAll(trials, k)) <==> NoneInterrupted(trials, k)
  {
    if k > 0 {
      TrialsDiscard(trials, k - 1);
      TrialsApart(trials, k - 1);
      ExpectedCleansUp(trials[k - 1], k - 1);
      DiscardsAppend(ExpectedAll(trials, k - 1), Expected(trials[k - 1], k - 1), k - 1);
    }
  }

  /** Later and earlier trials leave nothing of this one. */
  lemma {:induction false} OwnEvents(trials: seq<Trial>, k: nat, e: Event)
    requires e.trial < k <= |trials|
    ensures e in ExpectedAll(trials, k) <==> e in Expected(trials[e.trial], e.trial)
  {
    if e.trial < k - 1 {
      OwnEvents(trials, k - 1, e);
      ExpectedCleansUp(trials[k - 1], k - 1);
    } else {
      TrialsApart(trials, k - 1);
    }
  }

  /** The trace says of each trial how far it got: its quickstart was attempted exactly when its `down` was. */
  lemma TraceTellsTrials(trials: seq<Trial>, k: nat, i: nat)
    requires i < k <= |trials|
    ensures Made(i) in ExpectedAll(trials, k) <==> Makes(trials[i])
    ensures Started(i) in ExpectedAll(trials, k) <==> Launches(trials[i])
    ensures Stopped(i) in ExpectedAll(trials, k) <==> Launches(trials[i])
    ensures Discarded(i) in ExpectedAll(trials, k) <==> Launches(trials[i]) && DownTolerated(trials[i])
  {
    OwnEvents(trials, k, Made(i));
    OwnEvents(trials, k, Started(i));
    OwnEvents(trials, k, Stopped(i));
    OwnEvents(trials, k, Discarded(i));
  }

  // ---------- the loop ----------

  predicate AllPass(trials: seq<Trial>, maximum: nat) {
    forall i :: 0 <= i < |trials| ==> Passes(trials[i], maximum)
  }

  /** The measured times of passed trials. */
  function Durations(trials: seq<Trial>, maximum: nat): (durations: seq<real>)
    requires AllPass(trials, maximum)
    ensures |durations| == |trials| && forall i :: 0 <= i < |durations| ==> durations[i] < maximum as real
  {
    seq(|trials|, i requires 0 <= i < |trials| => trials[i].quickstart.value.seconds)
  }

  lemma PassStep(trials: seq<Trial>, i: nat, maximum: nat)
    requires i < |trials| && AllPass(trials[..i], maximum)
    ensures AllPass(trials[..i + 1], maximum) <==> Passes(trials[i], maximum)
    ensures Passes(trials[i], maximum) ==>
              Durations(trials[..i + 1], maximum)
                  == Durations(trials[..i], maximum) + [trials[i].quickstart.value.seconds]
  {
    TakeStep(trials, i);
    assert trials[..i + 1][i] == trials[i];
  }

  datatype Measured = Measured(durations: seq<real>, counters: Counters)

  /** The state of the loop after some trials, all of which passed. */
  predicate Passed(trials: seq<Trial>, i: nat, maximum: nat, m: Measured)
    requires i <= |trials|
  {
    AllPass(trials[..i], maximum) && m == Measured(Durations(trials[..i], maximum), Counters(i, 0, 2 * i, 4 * i))
  }

  lemma PassedStep(trials: seq<Trial>, i: nat, maximum: nat, m: Measured)
    requires i < |trials| && Passed(trials, i, maximum, m)
    ensures Passes(trials[i], maximum) ==>
              Passed(trials, i + 1, maximum,
                     Measured(m.durations + [trials[i].quickstart.value.seconds],
                         Counters(i + 1, 0, 2 * i + 2, 4 * i + 4)))
    ensures !Passes(trials[i], maximum) ==> !AllPass(trials, maximum)
  {
    PassStep(trials, i, maximum);
  }

  lemma AllPassed(trials: seq<Trial>, maximum: nat, m: Measured)
    requires |trials| == 3 && Passed(trials, 3, maximum, m)
    ensures AllPass(trials, maximum) && m == Measured(Durations(trials, maximum), Counters(3, 0, 6, 12))
        && |m.durations| == 3
  {
    Neutral(trials);
  }

  /**
   * The trials, one after the other, until one fails: two residue checks and four port checks for each. The trace is
   * that of the trials attempted, however the loop ends.
   */
  method RunQuickstartTrials(trials: seq<Trial>, maximum: nat)
    returns (r: Result<Measured, Failure>, ghost trace: seq<Event>, ghost attempted: nat)
    requires |trials| == 3
    ensures r.Ok? <==> AllPass(trials, maximum)
    ensures r.Ok? ==> r.value == Measured(Durations(trials, maximum), Counters(3, 0, 6, 12))
    ensures 1 <= attempted <= 3 && AllPass(trials[..attempted - 1], maximum)
    ensures r.Ok? <==> Passes(trials[attempted - 1], maximum)
    ensures trace == ExpectedAll(trials, attempted)
  {
    var durations: seq<real>, c := [], Counters(0, 0, 0, 0);
    trace, attempted := [], 1;
    for i := 0 to 3
      invariant Passed(trials, i, maximum, Measured(durations, c)) && trace == ExpectedAll(trials, i)
      invariant i > 0 ==> attempted == i && Passes(trials[i - 1], maximum)
    {
      attempted := i + 1;
      var one: Result<real, Failure>;
      ghost var more: seq<Event>;
      PassedStep(trials, i, maximum, Measured(durations, c));
      one, c, more := RunTrial(trials[i], i, maximum, c);
      trace := trace + more;
      if one.Err? {
        return Err(one.error), trace, attempted;
      }
      durations := durations + [one.value];
    }
    AllPassed(trials, maximum, Measured(durations, c));
    if |durations| != 3 {
      return Err(TrialCountInvalid), trace, attempted;
    }
    FirstTwo(trials, maximum);
    return Ok(Measured(durations, c)), trace, attempted;
  }

  lemma FirstTwo(trials: seq<Trial>, maximum: nat)
    requires |trials| == 3 && AllPass(trials, maximum)
    ensures AllPass(trials[..2], maximum)
  {
  }

  lemma PassingIsNotInterrupted(trials: seq<Trial>, k: nat, maximum: nat)
    requires 0 < k <= |trials| && AllPass(trials[..k - 1], maximum)
    ensures NoneInterrupted(trials, k) <==> !Interrupted(trials[k - 1])
  {
    forall i | 0 <= i < k - 1 ensures !Interrupted(trials[i]) {
      assert trials[..k - 1][i] == trials[i];
      assert Passes(trials[i], maximum);
    }
  }

  /** However a run ends, everything started was stopped, and all is discarded unless its last trial was interrupted. */
  lemma RunCleansUp(trials: seq<Trial>, attempted: nat, maximum: nat)
    requires 0 < attempted <= |trials| && AllPass(trials[..attempted - 1], maximum)
    ensures CleanedUp(ExpectedAll(trials, attempted))
    ensures Discards(ExpectedAll(trials, attempted)) <==> !Interrupted(trials[attempted - 1])
    ensures forall i :: 0 <= i < attempted - 1 ==> Launches(trials[i])
  {
    TrialsCleanUp(trials, attempted);
    TrialsDiscard(trials, attempted);
    PassingIsNotInterrupted(trials, attempted, maximum);
    forall i | 0 <= i < attempted - 1 ensures Launches(trials[i]) {
      assert trials[..attempted - 1][i] == trials[i];
      assert Passes(trials[i], maximum);
    }
  }
}
