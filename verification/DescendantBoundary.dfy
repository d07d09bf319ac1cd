/**
 * From git's output to a decision: a descendant adds or modifies
 * exactly the allowed paths, and nothing is left over.
 */
module DescendantBoundary {
  import opened Wrappers
  import opened Utf8
  import opened NameStatus

  datatype Phase = Implementation | FinalEvidence

  datatype BoundaryError =
    | OutputInvalid(cause: StatusError)
    | ForbiddenChange
    | OutsideAllowlist
    | Incomplete
    | WorkingTreeOutside
    | NotClean
    | SpecialFiles

  /** The paths a descendant may change: all of them with the evidence summary, or all but it. */
  datatype Allowlist = Allowlist(all: set<string>, implementation: set<string>)

  function PathsOf(changes: seq<Change>): set<string> {
    set i, j | 0 <= i < |changes| && 0 <= j < |changes[i].paths| :: changes[i].paths[j]
  }

  /** The paths of a listing are those of its changes, all of them. */
  lemma PathsOfExactly(changes: seq<Change>, p: string)
    ensures p in PathsOf(changes) <==> exists c :: c in changes && p in c.paths
  {
    if c :| c in changes && p in c.paths {
      var i :| 0 <= i < |changes| && changes[i] == c;
      var j :| 0 <= j < |c.paths| && c.paths[j] == p;
    }
    if p in PathsOf(changes) {
      var i, j :| 0 <= i < |changes| && 0 <= j < |changes[i].paths| && changes[i].paths[j] == p;
      assert changes[i] in changes;
    }
  }

  predicate Forbidden(c: Change) {
    c.status != "" && c.status[0] in {'R', 'C', 'T', 'D'}
  }

  // ---------- the two arrangements of the phase decision ----------

  /** The P8 gates: inside the allowlist first, then one of two exact sets. */
  function DecideP8(a: Allowlist, paths: set<string>): Result<Phase, BoundaryError> {
    if paths - a.all != {} then Err(OutsideAllowlist)
    else if paths == a.all then Ok(FinalEvidence)
    else if paths == a.implementation then Ok(Implementation)
    else Err(Incomplete)
  }

  /** The P9 gate: the summary's presence picks the phase, and with it the one exact set. */
  function DecideP9(a: Allowlist, summary: string, paths: set<string>): Result<Phase, BoundaryError> {
    var expected := if summary in paths then a.all else a.implementation;
    if paths - expected != {} then Err(OutsideAllowlist)
    else if paths != expected then Err(Incomplete)
    else Ok(if summary in paths then FinalEvidence else Implementation)
  }

  /** The P11R gate compares sets only, and answers whether the summary is there. */
  function DecideP11R(all: set<string>, summary: string, paths: set<string>): Result<bool, BoundaryError> {
    if paths != (if summary in paths then all else all - {summary}) then Err(Incomplete) else Ok(summary in paths)
  }

  /**
   * The arrangements accept the same path sets, in the same phase,
   * exactly when the summary tells the two sets apart.
   */
  lemma ArrangementsAgree(a: Allowlist, summary: string)
    requires a.implementation <= a.all
    ensures (forall paths :: DecideP8(a, paths).ToOption() == DecideP9(a, summary, paths).ToOption())
            <==> summary in a.all && (summary !in a.implementation || a.implementation == a.all)
  {
    if summary in a.all && (summary !in a.implementation || a.implementation == a.all) {
      forall paths ensures DecideP8(a, paths).ToOption() == DecideP9(a, summary, paths).ToOption() {
        Excess(paths, a.all);
        Excess(paths, a.implementation);
      }
    }
    if forall paths :: DecideP8(a, paths).ToOption() == DecideP9(a, summary, paths).ToOption() {
      assert DecideP8(a, a.all).ToOption() == DecideP9(a, summary, a.all).ToOption();
      assert DecideP8(a, a.implementation).ToOption() == DecideP9(a, summary, a.implementation).ToOption();
      Excess(a.all, a.all);
      Excess(a.implementation, a.all);
    }
  }

  /** With the summary removed, all three gates take the same path sets. */
  lemma ThreeGatesAgree(all: set<string>, summary: string, paths: set<string>)
    requires summary in all
    ensures var a := Allowlist(all, all - {summary});
            && DecideP8(a, paths).ToOption() == DecideP9(a, summary, paths).ToOption()
            && (DecideP11R(all, summary, paths) == Ok(true) <==> DecideP8(a, paths) == Ok(FinalEvidence))
            && (DecideP11R(all, summary, paths) == Ok(false) <==> DecideP8(a, paths) == Ok(Implementation))
  {
    Excess(paths, all);
    Excess(paths, all - {summary});
  }

  lemma Excess(paths: set<string>, expected: set<string>)
    ensures paths - expected == {} <==> paths <= expected
  {
    if paths - expected == {} {
      forall p | p in paths ensures p in expected {
        assert p !in paths - expected;
      }
    }
  }

  // ---------- from output to decision ----------

  datatype Accepted = Accepted(phase: Phase, changes: nat, paths: nat)

  /** `git ls-files -z`: paths, each ended by NUL. */
  method ParseUntracked(output: Bytes) returns (r: Result<seq<string>, StatusError>)
    ensures r.ToOption() == match FieldsOf(output) case None => None case Some(fields) => DecodePaths(fields)
    ensures r == Ok([]) <==> output == []
  {
    var split := SplitFields(output);
    if split.Err? {
      return Err(split.error);
    }
    NoFieldsNoOutput(output);
    var paths := ReadPaths(split.value);
    return paths;
  }

  lemma NoFieldsNoOutput(output: Bytes)
    ensures FieldsOf(output) == Some([]) <==> output == []
  {
  }

  lemma NothingParsed(output: Bytes)
    ensures Parse(output) == Some([]) <==> output == []
  {
    NoFieldsNoOutput(output);
  }

  /** Only additions and modifications, each of one path. */
  predicate OnlyAddsAndModifies(changes: seq<Change>) {
    forall i :: 0 <= i < |changes| ==> changes[i].status in {"A", "M"} && |changes[i].paths| == 1
  }

  lemma ParsedNotForbidden(changes: seq<Change>)
    requires Valid(changes)
    ensures (forall i :: 0 <= i < |changes| ==> !Forbidden(changes[i])) <==> OnlyAddsAndModifies(changes)
  {
    forall i | 0 <= i < |changes|
      ensures !Forbidden(changes[i]) <==> changes[i].status in {"A", "M"} && |changes[i].paths| == 1
    {
      assert ValidChange(changes[i]);
    }
  }

  /** Additions and modifications that together touch exactly the allowed paths of some phase. */
  predicate IsDelta(a: Allowlist, changes: seq<Change>) {
    && Valid(changes) && OnlyAddsAndModifies(changes)
    && PathsOf(changes) <= a.all && (PathsOf(changes) == a.all || PathsOf(changes) == a.implementation)
  }

  /**
   * The history since the accepted commit, the index, the tree and the untracked files, all as git prints them, and how
   * many links and special files the tree holds.
   */
  datatype Outputs = Outputs(committed: Bytes, staged: Bytes, unstaged: Bytes, untracked: Bytes, special: nat)

  ghost predicate PrintsDelta(a: Allowlist, output: Bytes) {
    exists changes :: IsDelta(a, changes) && output == Print(changes)
  }

  lemma DeltaIsParsed(a: Allowlist, output: Bytes)
    ensures PrintsDelta(a, output) <==> Parse(output).Some? && IsDelta(a, Parse(output).value)
    ensures Parse(output).Some? ==> Valid(Parse(output).value) && Print(Parse(output).value) == output
  {
    if Parse(output).Some? {
      ParseIsInverseOfPrint(output, Parse(output).value);
    }
    if PrintsDelta(a, output) {
      var changes :| IsDelta(a, changes) && output == Print(changes);
      ParseIsInverseOfPrint(output, changes);
    }
  }

  lemma DecidedDelta(a: Allowlist, changes: seq<Change>)
    requires Valid(changes)
    ensures (forall i :: 0 <= i < |changes| ==> !Forbidden(changes[i])) && DecideP8(a, PathsOf(changes)).Ok?
        <==> IsDelta(a, changes)
  {
    ParsedNotForbidden(changes);
    Excess(PathsOf(changes), a.all);
  }

  /**
   * The committed delta and then the working tree. Accepted is exactly what git prints for additions and
   * modifications of the allowed paths, all of them, with nothing staged, changed or untracked and no link or
   * special file.
   */
  method CheckDescendantBoundary(a: Allowlist, o: Outputs) returns (r: Result<Accepted, BoundaryError>)
    ensures r.Ok? <==>
            PrintsDelta(a, o.committed) && o.staged == [] && o.unstaged == [] && o.untracked == [] && o.special == 0
    ensures r.Ok? ==> Parse(o.committed).Some? && var changes := Parse(o.committed).value;
                      r.value.changes == |changes| && r.value.paths == |PathsOf(changes)|
                      && (r.value.phase == FinalEvidence <==> PathsOf(changes) == a.all)
  {
    DeltaIsParsed(a, o.committed);
    NothingParsed(o.staged);
    NothingParsed(o.unstaged);
    var committed := ParseP8(o.committed);
    if committed.Err? {
      return Err(OutputInvalid(committed.error));
    }
    var changes := committed.value;
    DecidedDelta(a, changes);
    if exists i :: 0 <= i < |changes| && Forbidden(changes[i]) {
      return Err(ForbiddenChange);
    }
    var phase := DecideP8(a, PathsOf(changes));
    if phase.Err? {
      return Err(phase.error);
    }
    var staged := ParseP8(o.staged);
    if staged.Err? {
      return Err(OutputInvalid(staged.error));
    }
    var unstaged := ParseP8(o.unstaged);
    if unstaged.Err? {
      return Err(OutputInvalid(unstaged.error));
    }
    var untracked := ParseUntracked(o.untracked);
    if untracked.Err? {
      return Err(OutputInvalid(untracked.error));
    }
    var working := PathsOf(staged.value) + PathsOf(unstaged.value) + set p | p in untracked.value;
    if working - a.all != {} {
      return Err(WorkingTreeOutside);
    }
    if staged.value != [] || unstaged.value != [] || untracked.value != [] {
      return Err(NotClean);
    }
    if o.special != 0 {
      return Err(SpecialFiles);
    }
    return Ok(Accepted(phase.value, |changes|, |PathsOf(changes)|));
  }
}
