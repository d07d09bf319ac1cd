/** The public-boundary scan: findings in a tree against a ledger of excused ones. */
module BoundaryScan {
  import opened Sequences
  import opened Wrappers
  import opened Text
  import opened Utf8
  import opened Ordering
  import opened Paths
  import opened JsonValues

  /** A rule that matched in a file: what is reported, and what an exception is keyed by. */
  datatype Finding = Finding(path: string, rule: string)

  type Ledger = map<Finding, string>

  datatype ScanError =
    | VersionUnsupported
    | LedgerInvalid
    | FieldsInvalid
    | PathInvalid
    | UnknownRule
    | DigestInvalid
    | ReasonInvalid
    | RoleInvalid
    | Unhashable
    | DuplicateException
    | StaleException

  // ---------- the ledger ----------

  /** A path names one file: it is safe, and holds no wildcard. */
  function SafeRelative(value: Json): Option<string> {
    if !value.JStr? || Lenient(value.text).None? then None
    else if '*' in value.text || '?' in value.text || '[' in value.text || ']' in value.text then None
    else Lenient(value.text)
  }

  const FIELDS: set<string> := {"path", "rule_id", "digest", "reason", "approved_by_role"}
  const ROLES: set<string> := {"privacy_reviewer", "security_reviewer", "project_owner"}

  /** What validation takes as given: the rules, the fields and roles, and what `bytes.fromhex` accepts. */
  datatype Terms = Terms(rules: set<string>, fields: set<string>, roles: set<string>, fromHex: string -> bool)

  /** The terms of the gate, given its rules. */
  function PublicTerms(rules: set<string>, fromHex: string -> bool): Terms {
    Terms(rules, FIELDS, ROLES, fromHex)
  }

  predicate Hashable(value: Json) {
    !value.JList? && !value.JObj?
  }

  predicate IsLedgerDigest(t: Terms, value: Json) {
    value.JStr? && StartsWith(value.text, "sha256:") && |value.text| == 71 && t.fromHex(value.text[7..])
  }

  /** The checks on one exception, in order, and the entry it makes. */
  function Entry(t: Terms, raw: Json): Result<(Finding, string), ScanError> {
    if !raw.JObj? || raw.fields.Keys != t.fields then Err(FieldsInvalid)
    else
      var path, rule, digest :=
          SafeRelative(Get(raw.fields, "path")), Get(raw.fields, "rule_id"), Get(raw.fields, "digest");
      var reason, role := Get(raw.fields, "reason"), Get(raw.fields, "approved_by_role");
      if path.None? then Err(PathInvalid)
      else if !Hashable(rule) then Err(Unhashable)
      else if !rule.JStr? || rule.text !in t.rules then Err(UnknownRule)
      else if !IsLedgerDigest(t, digest) then Err(DigestInvalid)
      else if !reason.JStr? || |reason.text| < 20 then Err(ReasonInvalid)
      else if !Hashable(role) then Err(Unhashable)
      else if !role.JStr? || role.text !in t.roles then Err(RoleInvalid)
      else Ok((Finding(path.value, rule.text), digest.text))
  }

  type Check = Json -> Result<(Finding, string), ScanError>

  function CheckOf(t: Terms): Check {
    (raw: Json) => Entry(t, raw)
  }

  /** Every exception is in order, and these are the entries they make. */
  predicate Makes(check: Check, raw: seq<Json>, entries: seq<(Finding, string)>) {
    |entries| == |raw| && forall i :: 0 <= i < |raw| ==> check(raw[i]) == Ok(entries[i])
  }

  predicate Versioned(fields: map<string, Json>) {
    PyEqual(Get(fields, "schema_version"), JInt(1)) && PyEqual(Get(fields, "policy_version"), JStr("p0-v1"))
  }

  /** Every exception must be in order and excuse a finding of its own; each then has one entry in the ledger. */
  method RecordExceptions(check: Check, raw: seq<Json>)
      returns (r: Result<Ledger, ScanError>, ghost entries: seq<(Finding, string)>)
    ensures r.Ok? <==> exists made :: Makes(check, raw, made) && DistinctNames(made)
    ensures r.Ok? ==> Makes(check, raw, entries) && DistinctNames(entries) && r.value == ToMap(entries)
    ensures r.Ok? ==> |r.value| == |raw|
  {
    var result: Ledger := map[];
    entries := [];
    for i := 0 to |raw|
      invariant Makes(check, raw[..i], entries) && DistinctNames(entries) && result == ToMap(entries)
    {
      var entry := check(raw[i]);
      if entry.Err? {
        RefusedException(check, raw, i);
        return Err(entry.error), entries;
      }
      ToMapNames(entries, entry.value.0);
      if entry.value.0 in result {
        RepeatedKey(check, raw, i, entries, entry.value);
        return Err(DuplicateException), entries;
      }
      MakesStep(check, raw, i, entries, entry.value);
      entries := entries + [entry.value];
      result := result[entry.value.0 := entry.value.1];
    }
    Neutral(raw);
    ToMapEntries(entries);
    return Ok(result), entries;
  }

  lemma RefusedException(check: Check, raw: seq<Json>, i: nat)
    requires i < |raw| && check(raw[i]).Err?
    ensures forall made :: !Makes(check, raw, made)
  {
  }

  lemma MakesStep(check: Check, raw: seq<Json>, i: nat, entries: seq<(Finding, string)>, next: (Finding, string))
    requires i < |raw| && Makes(check, raw[..i], entries) && DistinctNames(entries) && check(raw[i]) == Ok(next)
    requires forall j :: 0 <= j < i ==> entries[j].0 != next.0
    ensures Makes(check, raw[..i + 1], entries + [next]) && DistinctNames(entries + [next])
    ensures ToMap(entries + [next]) == ToMap(entries)[next.0 := next.1]
  {
    TakeStep(raw, i);
    assert (entries + [next])[..i] == entries;
  }

  lemma RepeatedKey(check: Check, raw: seq<Json>, i: nat, entries: seq<(Finding, string)>, next: (Finding, string))
    requires i < |raw| && Makes(check, raw[..i], entries) && check(raw[i]) == Ok(next)
    requires exists j :: 0 <= j < i && entries[j].0 == next.0
    ensures forall made: seq<(Finding, string)> :: Makes(check, raw, made) ==> !DistinctNames(made)
  {
    var j :| 0 <= j < i && entries[j].0 == next.0;
    assert raw[..i][j] == raw[j];
    forall made: seq<(Finding, string)> | Makes(check, raw, made) ensures !DistinctNames(made) {
      assert made[j].0 == made[i].0;
    }
  }

  /** The reading of exceptions under the gate's own terms. */
  function PublicCheck(rules: set<string>, fromHex: string -> bool): Check {
    CheckOf(PublicTerms(rules, fromHex))
  }

  method ValidateExceptions(rules: set<string>, fromHex: string -> bool, document: map<string, Json>)
    returns (r: Result<Ledger, ScanError>)
    ensures r.Ok? <==> Versioned(document) && Get(document, "exceptions").JList?
                       && exists made :: Makes(PublicCheck(rules, fromHex), Get(document, "exceptions").items, made)
                                         && DistinctNames(made)
    ensures r.Ok? ==> exists made :: Makes(PublicCheck(rules, fromHex), Get(document, "exceptions").items, made)
                                     && r.value == ToMap(made)
    ensures r.Ok? ==> |r.value| == |Get(document, "exceptions").items|
  {
    if !Versioned(document) {
      return Err(VersionUnsupported);
    }
    if !Get(document, "exceptions").JList? {
      return Err(LedgerInvalid);
    }
    ghost var entries;
    r, entries := RecordExceptions(PublicCheck(rules, fromHex), Get(document, "exceptions").items);
  }

  /** Two spellings of one path cannot both be excused for the same rule. */
  lemma SpellingsCollide(t: Terms, raw: seq<Json>, entries: seq<(Finding, string)>, i: nat, j: nat)
    requires i < j < |raw| && Makes(CheckOf(t), raw, entries) && DistinctNames(entries)
    requires Get(raw[i].fields, "rule_id") == Get(raw[j].fields, "rule_id")
    ensures Parts(Get(raw[i].fields, "path").text) != Parts(Get(raw[j].fields, "path").text)
  {
    var v, w := Get(raw[i].fields, "path").text, Get(raw[j].fields, "path").text;
    LenientIdentifiesSpellings(v, w);
    assert CheckOf(t)(raw[i]) == Ok(entries[i]) && CheckOf(t)(raw[j]) == Ok(entries[j]);
  }

  // ---------- the scan ----------

  datatype Node = Symlink | Irregular | Unreadable | File(content: Bytes)

  /** What `rglob` finds: a relative path and what is there. */
  datatype Document = Document(path: string, node: Node)

  datatype GitEntry = Absent | Directory | GitFile

  /** What a scan takes as given: the rules that match a text, the content digest, and what stands at `.git`. */
  datatype Scanner = Scanner(rulesFor: string -> set<string>, digest: Bytes -> string, git: GitEntry)

  const UNDECODABLE := "UNDECODABLE_FILE"

  predicate Skipped(s: Scanner, path: string) {
    match s.git
    case Absent => false
    case Directory => Before(path, '/') == ".git"
    case GitFile => path == ".git"
  }

  function RulesOf(s: Scanner, content: Bytes): set<string> {
    match Decode(content)
    case None => {UNDECODABLE}
    case Some(text) => s.rulesFor(text)
  }

  predicate Scanned(s: Scanner, d: Document) {
    d.node.File? && !Skipped(s, d.path)
  }

  /** A link or a file that cannot be read. */
  predicate Opaque(s: Scanner, d: Document) {
    (d.node.Symlink? || d.node.Unreadable?) && !Skipped(s, d.path)
  }

  /** A rule matches in a file. */
  predicate Found(s: Scanner, d: Document, f: Finding) {
    Scanned(s, d) && f.path == d.path && f.rule in RulesOf(s, d.node.content)
  }

  /** The ledger excuses a finding by the digest of the file's content as it is now. */
  predicate Excused(s: Scanner, ledger: Ledger, d: Document, f: Finding) {
    Found(s, d, f) && f in ledger && ledger[f] == s.digest(d.node.content)
  }

  predicate Reported(s: Scanner, ledger: Ledger, d: Document, f: Finding) {
    (Found(s, d, f) && !Excused(s, ledger, d, f)) || (Opaque(s, d) && f == Finding(d.path, UNDECODABLE))
  }

  ghost predicate SomeExcused(s: Scanner, ledger: Ledger, tree: seq<Document>, f: Finding) {
    exists i :: 0 <= i < |tree| && Excused(s, ledger, tree[i], f)
  }

  ghost predicate SomeReported(s: Scanner, ledger: Ledger, tree: seq<Document>, f: Finding) {
    exists i :: 0 <= i < |tree| && Reported(s, ledger, tree[i], f)
  }

  ghost predicate SomeFound(s: Scanner, tree: seq<Document>, f: Finding) {
    exists i :: 0 <= i < |tree| && Found(s, tree[i], f)
  }

  predicate DistinctPaths(tree: seq<Document>) {
    forall i, j :: 0 <= i < j < |tree| ==> tree[i].path != tree[j].path
  }

  /** A regular file, readable or not. */
  predicate IsFile(s: Scanner, d: Document) {
    (d.node.File? || d.node.Unreadable?) && !Skipped(s, d.path)
  }

  function FilesIn(s: Scanner, tree: seq<Document>): nat {
    if tree == [] then 0 else FilesIn(s, tree[..|tree| - 1]) + (if IsFile(s, tree[|tree| - 1]) then 1 else 0)
  }

  function SizeOf(s: Scanner, d: Document): nat {
    if Scanned(s, d) then |d.node.content| else 0
  }

  /** The sizes of the files that can be read, together. */
  function BytesIn(s: Scanner, tree: seq<Document>): nat {
    if tree == [] then 0 else BytesIn(s, tree[..|tree| - 1]) + SizeOf(s, tree[|tree| - 1])
  }

  datatype Report = Report(violations: seq<Finding>, files: nat, bytes: nat, excused: nat)

  /** What one document adds, its rules taken in any order. */
  method ScanDocument(s: Scanner, ledger: Ledger, d: Document) returns (violations: seq<Finding>, used: set<Finding>)
    ensures forall f :: f in violations <==> Reported(s, ledger, d, f)
    ensures forall f :: f in used <==> Excused(s, ledger, d, f)
    ensures Distinct(violations)
  {
    violations, used := [], {};
    if Skipped(s, d.path) || d.node.Irregular? {
      return;
    }
    if d.node.Symlink? || d.node.Unreadable? {
      violations := [Finding(d.path, UNDECODABLE)];
      return;
    }
    var left, digest := RulesOf(s, d.node.content), s.digest(d.node.content);
    while left != {}
      invariant left <= RulesOf(s, d.node.content)
      invariant forall f :: f in violations <==> Reported(s, ledger, d, f) && f.rule !in left
      invariant forall f :: f in used <==> Excused(s, ledger, d, f) && f.rule !in left
      invariant Distinct(violations)
      decreases left
    {
      var rule :| rule in left;
      var key := Finding(d.path, rule);
      assert key !in violations && key !in used;
      if key in ledger && ledger[key] == digest {
        used := used + {key};
      } else {
        violations := violations + [key];
      }
      left := left - {rule};
    }
  }

  ghost predicate AllUsed(s: Scanner, ledger: Ledger, tree: seq<Document>) {
    forall f :: f in ledger ==> SomeExcused(s, ledger, tree, f)
  }

  /**
   * The findings of a whole tree, each reported or excused; an
   * exception that excuses nothing makes the ledger stale.
   */
  method ScanTree(s: Scanner, ledger: Ledger, tree: seq<Document>, less: (Finding, Finding) -> bool)
    returns (r: Result<Report, ScanError>)
    requires DistinctPaths(tree) && StrictTotalOrder(less)
    ensures r.Ok? <==> AllUsed(s, ledger, tree)
    ensures r.Err? ==> r.error == StaleException
    ensures r.Ok? ==> Ascending(r.value.violations, less)
    ensures r.Ok? ==> forall f :: f in r.value.violations <==> SomeReported(s, ledger, tree, f)
    ensures r.Ok? ==> r.value.files == FilesIn(s, tree) && r.value.bytes == BytesIn(s, tree)
    ensures r.Ok? ==> r.value.excused == |ledger|
  {
    var violations: seq<Finding>, used: set<Finding>, files, bytes := [], {}, 0, 0;
    for i := 0 to |tree|
      invariant files == FilesIn(s, tree[..i]) && bytes == BytesIn(s, tree[..i])
      invariant Gathered(s, ledger, tree[..i], violations, used)
    {
      var more, others := ScanDocument(s, ledger, tree[i]);
      GatherStep(s, ledger, tree, i, violations, used, more, others);
      TakeStep(tree, i);
      violations := violations + more;
      used := used + others;
      files := files + if IsFile(s, tree[i]) then 1 else 0;
      bytes := bytes + SizeOf(s, tree[i]);
    }
    Neutral(tree);
    GatheredUsed(s, ledger, tree, violations, used);
    if ledger.Keys - used != {} {
      return Err(StaleException);
    }
    SortedFacts(violations, less);
    SameElements(Sorted(violations, less), violations);
    return Ok(Report(Sorted(violations, less), files, bytes, |used|));
  }

  /** The state of a scan after some documents: what they report and which exceptions they use. */
  ghost predicate Gathered(s: Scanner, ledger: Ledger, tree: seq<Document>, violations: seq<Finding>,
      used: set<Finding>)
  {
    && Distinct(violations) && PathsIn(violations, tree)
    && (forall f :: f in violations <==> SomeReported(s, ledger, tree, f))
    && (forall f :: f in used <==> SomeExcused(s, ledger, tree, f))
  }

  lemma GatherStep(
    s: Scanner, ledger: Ledger, tree: seq<Document>, i: nat,
    violations: seq<Finding>, used: set<Finding>, more: seq<Finding>, others: set<Finding>)
    requires i < |tree| && DistinctPaths(tree) && Gathered(s, ledger, tree[..i], violations, used)
    requires Distinct(more) && forall f :: f in more <==> Reported(s, ledger, tree[i], f)
    requires forall f :: f in others <==> Excused(s, ledger, tree[i], f)
    ensures Gathered(s, ledger, tree[..i + 1], violations + more, used + others)
  {
    SomeStep(s, ledger, tree, i);
    NewPath(tree, i, violations, more);
    DistinctAppend(violations, more);
  }

  lemma GatheredUsed(s: Scanner, ledger: Ledger, tree: seq<Document>, violations: seq<Finding>, used: set<Finding>)
    requires Gathered(s, ledger, tree, violations, used)
    ensures used <= ledger.Keys
    ensures ledger.Keys - used == {} <==> AllUsed(s, ledger, tree)
    ensures AllUsed(s, ledger, tree) ==> used == ledger.Keys
  {
    forall f | f in used ensures f in ledger {
      assert SomeExcused(s, ledger, tree, f);
    }
    if AllUsed(s, ledger, tree) {
      forall f | f in ledger ensures f in used {
        assert SomeExcused(s, ledger, tree, f);
      }
    }
    if ledger.Keys - used == {} {
      forall f | f in ledger ensures SomeExcused(s, ledger, tree, f) {
        assert f !in ledger.Keys - used;
      }
    }
  }

  /** Reports name documents already looked at. */
  predicate PathsIn(violations: seq<Finding>, tree: seq<Document>) {
    forall k :: 0 <= k < |violations| ==> exists i :: 0 <= i < |tree| && tree[i].path == violations[k].path
  }

  lemma ReportedStep(s: Scanner, ledger: Ledger, tree: seq<Document>, i: nat, f: Finding)
    requires i < |tree|
    ensures SomeReported(s, ledger, tree[..i + 1], f)
        <==> SomeReported(s, ledger, tree[..i], f) || Reported(s, ledger, tree[i], f)
  {
    var fewer, more := tree[..i], tree[..i + 1];
    assert more[i] == tree[i];
    if k :| 0 <= k < |fewer| && Reported(s, ledger, fewer[k], f) {
      assert more[k] == fewer[k];
    }
    if k :| 0 <= k < |more| && Reported(s, ledger, more[k], f) {
      assert k < i ==> more[k] == fewer[k];
    }
  }

  lemma ExcusedStep(s: Scanner, ledger: Ledger, tree: seq<Document>, i: nat, f: Finding)
    requires i < |tree|
    ensures SomeExcused(s, ledger, tree[..i + 1], f)
        <==> SomeExcused(s, ledger, tree[..i], f) || Excused(s, ledger, tree[i], f)
  {
    var fewer, more := tree[..i], tree[..i + 1];
    assert more[i] == tree[i];
    if k :| 0 <= k < |fewer| && Excused(s, ledger, fewer[k], f) {
      assert more[k] == fewer[k];
    }
    if k :| 0 <= k < |more| && Excused(s, ledger, more[k], f) {
      assert k < i ==> more[k] == fewer[k];
    }
  }

  lemma SomeStep(s: Scanner, ledger: Ledger, tree: seq<Document>, i: nat)
    requires i < |tree|
    ensures forall f :: SomeReported(s, ledger, tree[..i + 1], f) <==>
                          SomeReported(s, ledger, tree[..i], f) || Reported(s, ledger, tree[i], f)
    ensures forall f :: SomeExcused(s, ledger, tree[..i + 1], f) <==>
                          SomeExcused(s, ledger, tree[..i], f) || Excused(s, ledger, tree[i], f)
  {
    forall f
      ensures SomeReported(s, ledger, tree[..i + 1], f)
          <==> SomeReported(s, ledger, tree[..i], f) || Reported(s, ledger, tree[i], f)
    {
      ReportedStep(s, ledger, tree, i, f);
    }
    forall f
      ensures SomeExcused(s, ledger, tree[..i + 1], f)
          <==> SomeExcused(s, ledger, tree[..i], f) || Excused(s, ledger, tree[i], f)
    {
      ExcusedStep(s, ledger, tree, i, f);
    }
  }

  lemma NewPath(tree: seq<Document>, i: nat, violations: seq<Finding>, more: seq<Finding>)
    requires i < |tree| && DistinctPaths(tree) && PathsIn(violations, tree[..i])
    requires forall f :: f in more ==> f.path == tree[i].path
    ensures PathsIn(violations + more, tree[..i + 1])
    ensures forall j, k :: 0 <= j < |violations| && 0 <= k < |more| ==> violations[j] != more[k]
  {
    var longer := tree[..i + 1];
    forall k | 0 <= k < |violations|
      ensures exists j :: 0 <= j < i && tree[j].path == violations[k].path && longer[j] == tree[j]
    {
      var j :| 0 <= j < i && tree[..i][j].path == violations[k].path;
      assert longer[j] == tree[j];
    }
    assert longer[i] == tree[i];
    forall j, k | 0 <= j < |violations| && 0 <= k < |more| ensures violations[j] != more[k] {
      assert more[k] in more;
    }
  }

  lemma DistinctAppend<T>(a: seq<T>, b: seq<T>)
    requires Distinct(a) && Distinct(b) && forall j, k :: 0 <= j < |a| && 0 <= k < |b| ==> a[j] != b[k]
    ensures Distinct(a + b)
  {
  }

  lemma SameElements<T>(a: seq<T>, b: seq<T>)
    requires Elements(a) == Elements(b)
    ensures forall x :: x in a <==> x in b
  {
    forall x ensures x in a <==> x in b {
      assert x in Elements(a) <==> x in Elements(b);
    }
  }

  // ---------- what a scan says ----------

  /** The ledger lists the findings of the tree, no more and no fewer, each with the content it has now. */
  ghost predicate Covers(s: Scanner, ledger: Ledger, tree: seq<Document>) {
    && (forall i :: 0 <= i < |tree| ==> !Opaque(s, tree[i]))
    && (forall f :: f in ledger <==> SomeFound(s, tree, f))
    && (forall i, f :: 0 <= i < |tree| && Found(s, tree[i], f) ==>
          f in ledger && ledger[f] == s.digest(tree[i].node.content))
  }

  /** A scan is clean exactly when the ledger covers the tree. */
  lemma CleanExactlyWhenCovered(s: Scanner, ledger: Ledger, tree: seq<Document>)
    requires DistinctPaths(tree)
    ensures AllUsed(s, ledger, tree) && (forall f :: !SomeReported(s, ledger, tree, f)) <==> Covers(s, ledger, tree)
  {
    if AllUsed(s, ledger, tree) && forall f :: !SomeReported(s, ledger, tree, f) {
      forall i | 0 <= i < |tree| ensures !Opaque(s, tree[i]) {
        assert !SomeReported(s, ledger, tree, Finding(tree[i].path, UNDECODABLE));
        assert !Reported(s, ledger, tree[i], Finding(tree[i].path, UNDECODABLE));
      }
      forall i, f | 0 <= i < |tree| && Found(s, tree[i], f) ensures Excused(s, ledger, tree[i], f) {
        assert !SomeReported(s, ledger, tree, f);
        assert !Reported(s, ledger, tree[i], f);
      }
      forall f ensures f in ledger <==> SomeFound(s, tree, f) {
        if f in ledger {
          var i :| 0 <= i < |tree| && Excused(s, ledger, tree[i], f);
          assert Found(s, tree[i], f);
        }
      }
    }
    if Covers(s, ledger, tree) {
      forall f | f in ledger ensures SomeExcused(s, ledger, tree, f) {
        var i :| 0 <= i < |tree| && Found(s, tree[i], f);
        assert Excused(s, ledger, tree[i], f);
      }
      forall i, f | 0 <= i < |tree| ensures !Reported(s, ledger, tree[i], f) {
        NothingReported(s, ledger, tree, i, f);
      }
    }
  }

  lemma NothingReported(s: Scanner, ledger: Ledger, tree: seq<Document>, i: nat, f: Finding)
    requires Covers(s, ledger, tree) && i < |tree|
    ensures !Reported(s, ledger, tree[i], f)
  {
    assert Found(s, tree[i], f) ==> Excused(s, ledger, tree[i], f);
  }

  /** Every finding is excused or reported, and none is both. */
  lemma ExcusedOrReported(s: Scanner, ledger: Ledger, tree: seq<Document>, f: Finding)
    requires DistinctPaths(tree)
    ensures SomeFound(s, tree, f) ==> SomeExcused(s, ledger, tree, f) || SomeReported(s, ledger, tree, f)
    ensures !(SomeExcused(s, ledger, tree, f) && SomeReported(s, ledger, tree, f))
  {
    if SomeFound(s, tree, f) {
      var i :| 0 <= i < |tree| && Found(s, tree[i], f);
      assert Excused(s, ledger, tree[i], f) || Reported(s, ledger, tree[i], f);
    }
    forall i, j | 0 <= i < |tree| && 0 <= j < |tree|
      ensures !(Excused(s, ledger, tree[i], f) && Reported(s, ledger, tree[j], f))
    {
      NotBoth(s, ledger, tree, i, j, f);
    }
  }

  lemma NotBoth(s: Scanner, ledger: Ledger, tree: seq<Document>, i: nat, j: nat, f: Finding)
    requires DistinctPaths(tree) && i < |tree| && j < |tree|
    ensures !(Excused(s, ledger, tree[i], f)
        && (Reported(s, ledger, tree[j], f) || (Opaque(s, tree[j]) && f.path == tree[j].path)))
  {
    assert i == j || tree[i].path != tree[j].path;
  }

  /** A link, or a file that cannot be read, is always reported; a ledger that tries to excuse it is stale. */
  lemma OpaqueNeverExcused(s: Scanner, ledger: Ledger, tree: seq<Document>, i: nat, f: Finding)
    requires DistinctPaths(tree) && i < |tree| && Opaque(s, tree[i]) && f.path == tree[i].path
    ensures SomeReported(s, ledger, tree, Finding(tree[i].path, UNDECODABLE))
    ensures f in ledger ==> !AllUsed(s, ledger, tree)
  {
    assert Reported(s, ledger, tree[i], Finding(tree[i].path, UNDECODABLE));
    forall j | 0 <= j < |tree| ensures !Excused(s, ledger, tree[j], f) {
      NotBoth(s, ledger, tree, j, i, f);
    }
  }
}
