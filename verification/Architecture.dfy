/** The P3 architecture gate: which imports, calls and accesses a source file may contain. */
module Architecture {
  import opened Sequences
  import opened Wrappers
  import opened Text
  import opened PythonTree
  import opened Resolution
  import opened AliasFixpoint

  datatype Boundary =
    | Core
    | Governance
    | Application
    | SqliteAdapter
    | IntelligenceAdapter
    | ChannelAdapter
    | SystemAdapter
    | Api
    | Worker

  const PRODUCT := "digital_colleagues"

  /** The package a boundary's directory holds. */
  function Package(b: Boundary): Path {
    match b
    case Core => [PRODUCT, "core"]
    case Governance => [PRODUCT, "governance"]
    case Application => [PRODUCT, "application"]
    case SqliteAdapter => [PRODUCT, "adapters", "sqlite"]
    case IntelligenceAdapter => [PRODUCT, "adapters", "intelligence"]
    case ChannelAdapter => [PRODUCT, "adapters", "channel"]
    case SystemAdapter => [PRODUCT, "adapters", "system"]
    case Api => [PRODUCT, "api"]
    case Worker => [PRODUCT, "worker"]
  }

  /** The boundaries whose packages a boundary may import. */
  function Allowed(b: Boundary): set<Boundary> {
    match b
    case Core => {Core}
    case Governance => {Core, Governance}
    case Application => {Application, Core, Governance}
    case SqliteAdapter => {SqliteAdapter, Application, Core, Governance}
    case _ => {b, Application, Core}
  }

  function StdlibAllowed(b: Boundary): set<string> {
    match b
    case Core =>
      {"__future__", "collections", "dataclasses", "datetime", "enum", "hashlib", "json", "math", "re", "typing"}
    case Governance => {"__future__", "dataclasses", "datetime"}
    case Application => {"__future__", "dataclasses", "datetime", "enum", "typing"}
    case SqliteAdapter =>
      {"__future__", "collections", "contextlib", "dataclasses", "datetime", "enum", "hashlib", "json", "pathlib",
       "sqlite3", "threading", "typing"}
    case IntelligenceAdapter => {"__future__", "dataclasses"}
    case ChannelAdapter => {"__future__", "dataclasses", "hashlib", "json"}
    case SystemAdapter => {"__future__", "dataclasses", "datetime", "hashlib"}
    case Api => {"__future__", "collections", "typing"}
    case Worker => {"__future__", "dataclasses"}
  }

  function ThirdPartyAllowed(b: Boundary): set<string> {
    if b == Api then {"fastapi", "pydantic"} else {}
  }

  predicate Deterministic(b: Boundary) {
    b in {Core, Governance, Application, IntelligenceAdapter, ChannelAdapter, SystemAdapter}
  }

  const EDGE_TYPES: set<string> := {"fastapi", "pydantic", "sqlalchemy", "sqlmodel"}
  const BUILTIN_CALLS: set<string> := {"__import__", "compile", "eval", "exec", "input", "open"}
  const CLOCK_CALLS: set<Path> := {
    ["datetime", "date", "today"], ["datetime", "datetime", "now"], ["datetime", "datetime", "utcnow"],
    ["datetime", "now"], ["datetime", "utcnow"], ["time", "monotonic"], ["time", "monotonic_ns"],
    ["time", "perf_counter"], ["time", "perf_counter_ns"], ["time", "process_time"], ["time", "process_time_ns"],
    ["time", "time"], ["time", "time_ns"], ["uuid", "uuid1"], ["uuid", "uuid4"]
  }
  const SETATTR: Path := ["object", "__setattr__"]
  /** The word lists of the gate: files other phases own, and what a stable port must not mention. */
  datatype Policy = Policy(owned: set<string>, portTokens: set<string>, portTypes: set<string>, ident: Lexicon)

  predicate InternalAllowed(b: Boundary, m: Path) {
    exists other :: other in Allowed(b) && Package(other) <= m
  }

  predicate IsForbidden(p: Path) {
    || p in CLOCK_CALLS
    || (|p| == 1 && p[0] in BUILTIN_CALLS)
    || (|p| == 2 && p[0] == "builtins" && p[1] in BUILTIN_CALLS)
    || (p != [] && p[0] in CAPABILITY_ROOTS)
  }

  predicate IsReflectionEntry(p: Path) {
    IsNamespaceCall(p) || IsVars(p) || IsBaseGetattribute(p)
  }

  predicate IsDunder(attr: string) {
    |attr| > 4 && StartsWith(attr, "__") && EndsWith(attr, "__")
  }

  predicate IsReflection(p: Path) {
    (p != [] && p[0] == REFLECTION_NAMESPACE) || (p != SETATTR && exists s :: s in p && IsDunder(s))
  }

  predicate Both(p: Option<Path>, test: Path -> bool) {
    p.Some? && test(p.value)
  }

  // ---------- what a clean node is, and what an unclean one is reported for ----------

  datatype Finding =
    | RelativeOrUnresolvedImport
    | WildcardImport
    | UnapprovedImport
    | OutwardDependency
    | EdgeTypeLeak
    | HiddenCapabilityImport
    | HiddenNondeterministicCall
    | UnresolvedDynamicGetattr
    | HiddenDynamicCapability
    | HiddenReflectionEntry
    | HiddenReflectionAttribute
    | HiddenBuiltinsNamespace
    | HiddenReflectionSubscript
    | StablePortConcreteType

  function FirstSegment(m: Path): string {
    if m == [] then "" else m[0]
  }

  predicate CleanModule(b: Boundary, m: Path) {
    var root := FirstSegment(m);
    && (root in StdlibAllowed(b) || InternalAllowed(b, m) || root in ThirdPartyAllowed(b))
    && (root == PRODUCT ==> InternalAllowed(b, m))
    && (root in EDGE_TYPES ==> b == Api)
    && (Deterministic(b) ==> root !in CAPABILITY_ROOTS)
  }

  function When(holds: bool, x: Finding): seq<Finding> {
    if holds then [x] else []
  }

  function ModuleFindings(b: Boundary, m: Path): seq<Finding> {
    var root := FirstSegment(m);
    When(!(root in StdlibAllowed(b) || InternalAllowed(b, m) || root in ThirdPartyAllowed(b)), UnapprovedImport)
    + When(root == PRODUCT && !InternalAllowed(b, m), OutwardDependency)
    + When(root in EDGE_TYPES && b != Api, EdgeTypeLeak)
    + When(Deterministic(b) && root in CAPABILITY_ROOTS, HiddenCapabilityImport)
  }

  function ImportedModules(node: Node): seq<Path> {
    match node
    case Import(names) => seq(|names|, i requires 0 <= i < |names| => names[i].name)
    case ImportFrom(source, _, level) => if level != 0 || source.None? then [] else [source.value]
    case _ => []
  }

  predicate HasWildcard(names: seq<Alias>) {
    exists i :: 0 <= i < |names| && names[i].name == ["*"]
  }

  predicate CleanImport(b: Boundary, node: Node) {
    && (node.ImportFrom? ==> node.level == 0 && node.source.Some? && !HasWildcard(node.names))
    && CleanModules(b, ImportedModules(node))
  }

  predicate CleanModules(b: Boundary, modules: seq<Path>) {
    forall i :: 0 <= i < |modules| ==> CleanModule(b, modules[i])
  }

  function ModulesFindings(b: Boundary, modules: seq<Path>): seq<Finding> {
    if modules == [] then []
    else
      ModulesFindings(b, modules[..|modules| - 1]) + ModuleFindings(b, modules[|modules| - 1])
  }

  function ImportFindings(b: Boundary, node: Node): seq<Finding> {
    When(node.ImportFrom? && (node.level != 0 || node.source.None?), RelativeOrUnresolvedImport)
    + When(node.ImportFrom? && node.level == 0 && node.source.Some? && HasWildcard(node.names), WildcardImport)
    + ModulesFindings(b, ImportedModules(node))
  }

  predicate CleanNodes(b: Boundary, nodes: seq<Node>, aliases: Bindings, ident: Lexicon) {
    forall i :: 0 <= i < |nodes| ==> CleanNode(b, nodes[i], aliases, ident)
  }

  predicate CleanCall(call: Expr, aliases: Bindings, ident: Lexicon)
    requires call.Call?
  {
    var name := Resolve(call.func, aliases, ident);
    && !Both(name, IsForbidden)
    && !Both(name, IsReflectionEntry)
    && (Both(name, IsGetattr) ==>
          var reference := LiteralGetattr(call, aliases, ident);
          reference.Some? && !IsForbidden(reference.value))
  }

  /** A `getattr` that is understood and reaches nothing forbidden. */
  predicate Harmless(reference: Option<Path>) {
    reference.Some? && !IsForbidden(reference.value)
  }

  function Dynamic(reference: Option<Path>): Finding {
    if reference.None? then UnresolvedDynamicGetattr else HiddenDynamicCapability
  }

  function CallFindings(call: Expr, aliases: Bindings, ident: Lexicon): seq<Finding>
    requires call.Call?
  {
    var name, reference := Resolve(call.func, aliases, ident), LiteralGetattr(call, aliases, ident);
    When(Both(name, IsForbidden), HiddenNondeterministicCall)
    + When(Both(name, IsGetattr) && !Harmless(reference), Dynamic(reference))
    + When(Both(name, IsReflectionEntry), HiddenReflectionEntry)
  }

  predicate CleanAttribute(e: Expr, aliases: Bindings, ident: Lexicon)
    requires e.Attribute?
  {
    var reference := Resolve(e, aliases, ident);
    && (IsDunder(e.attr) ==> reference == Some(SETATTR))
    && !Both(reference, IsReflection)
  }

  /** The test an attribute access is put to. */
  method HidesAttribute(e: Expr, aliases: Bindings, ident: Lexicon) returns (hidden: bool)
    requires e.Attribute?
    ensures hidden <==> !CleanAttribute(e, aliases, ident)
  {
    var reference := Resolve(e, aliases, ident);
    return (IsDunder(e.attr) && reference != Some(SETATTR)) || Both(reference, IsReflection);
  }

  predicate CleanSubscript(e: Expr, aliases: Bindings, ident: Lexicon)
    requires e.Subscript?
  {
    var reference, base := Resolve(e, aliases, ident), Resolve(e.base, aliases, ident);
    base != Some(["builtins"]) && !Both(base, IsReflection) && !Both(reference, IsReflection)
        && !Both(reference, IsForbidden)
  }

  predicate CleanExpression(e: Expr, aliases: Bindings, ident: Lexicon) {
    match e
    case Call(_, _, _) => CleanCall(e, aliases, ident)
    case Attribute(_, _) => CleanAttribute(e, aliases, ident)
    case Name(id) => id != "__builtins__"
    case Subscript(_, _) => CleanSubscript(e, aliases, ident)
    case _ => true
  }

  function ExpressionFindings(e: Expr, aliases: Bindings, ident: Lexicon): seq<Finding> {
    match e
    case Call(_, _, _) => CallFindings(e, aliases, ident)
    case Attribute(_, _) => When(!CleanAttribute(e, aliases, ident), HiddenReflectionAttribute)
    case Name(id) => When(id == "__builtins__", HiddenBuiltinsNamespace)
    case Subscript(_, _) => When(!CleanSubscript(e, aliases, ident), HiddenReflectionSubscript)
    case _ => []
  }

  predicate CleanNode(b: Boundary, node: Node, aliases: Bindings, ident: Lexicon) {
    CleanImport(b, node) && (node.Expression? && Deterministic(b) ==> CleanExpression(node.e, aliases, ident))
  }

  function NodeFindings(b: Boundary, node: Node, aliases: Bindings, ident: Lexicon): seq<Finding> {
    ImportFindings(b, node) + if node.Expression? && Deterministic(b) then ExpressionFindings(node.e, aliases, ident)
        else []
  }

  function NodesFindings(b: Boundary, nodes: seq<Node>, aliases: Bindings, ident: Lexicon): seq<Finding> {
    if nodes == [] then []
    else
      NodesFindings(b, nodes[..|nodes| - 1], aliases, ident) + NodeFindings(b, nodes[|nodes| - 1], aliases, ident)
  }

  /** A parsed file; `lowered` is its text in lower case, and `nodes` is absent when it cannot be read or parsed. */
  datatype SourceFile = SourceFile(relative: string, boundary: Boundary, lowered: string, nodes: Option<seq<Node>>)

  predicate IsPort(f: SourceFile) {
    f.boundary == Application && EndsWith(f.relative, "/ports.py")
  }

  function LeakedTokens(f: SourceFile, policy: Policy): set<string> {
    set t | t in policy.portTokens && Contains(f.lowered, t)
  }

  function LeakedTypes(nodes: seq<Node>, policy: Policy): set<string> {
    set i | 0 <= i < |nodes| && nodes[i].Expression? && nodes[i].e.Name? && nodes[i].e.id in policy.portTypes ::
        nodes[i].e.id
  }

  function Leaks(f: SourceFile, nodes: seq<Node>, policy: Policy): nat {
    |LeakedTokens(f, policy)| + |LeakedTypes(nodes, policy)|
  }

  predicate CleanFile(f: SourceFile, policy: Policy) {
    && f.nodes.Some?
    && var nodes := f.nodes.value;
       && CleanNodes(f.boundary, nodes, AliasesOf(nodes, policy.ident), policy.ident)
       && (IsPort(f) ==> LeakedTokens(f, policy) == {} && LeakedTypes(nodes, policy) == {})
  }

  function WalkFindings(f: SourceFile, nodes: seq<Node>, policy: Policy): seq<Finding> {
    NodesFindings(f.boundary, nodes, AliasesOf(nodes, policy.ident), policy.ident)
  }

  function PortFindings(f: SourceFile, nodes: seq<Node>, policy: Policy): seq<Finding> {
    When(IsPort(f) && Leaks(f, nodes, policy) > 0, StablePortConcreteType)
  }

  /** What a parsed file is reported for. */
  function FileFindings(f: SourceFile, policy: Policy): seq<Finding>
    requires f.nodes.Some?
  {
    var nodes := f.nodes.value;
    WalkFindings(f, nodes, policy) + PortFindings(f, nodes, policy)
  }

  /** Files that other phases own are skipped. */
  predicate Inspected(f: SourceFile, policy: Policy) {
    f.relative !in policy.owned
  }

  /** The gate passes exactly these trees. */
  predicate Accepts(files: seq<SourceFile>, policy: Policy) {
    forall i :: 0 <= i < |files| ==> Passes(files[i], policy)
  }

  predicate Passes(f: SourceFile, policy: Policy) {
    Inspected(f, policy) ==> CleanFile(f, policy)
  }

  function InspectedCount(files: seq<SourceFile>, policy: Policy): nat {
    if files == [] then 0
    else InspectedCount(files[..|files| - 1], policy) + (if Inspected(files[|files| - 1], policy) then 1 else 0)
  }

  // ---------- the computation ----------

  datatype Counts = Counts(
    filesChecked: nat,
    unapprovedImports: nat,
    dependencyViolations: nat,
    edgeTypeLeaks: nat,
    nondeterministicImports: nat,
    nondeterministicCalls: nat,
    dynamicCapabilityCalls: nat,
    reflectionCapabilityAccesses: nat,
    aliasResolvedUnsafeCalls: nat,
    stablePortLeaks: nat)
  {
    /** Nothing but files has been counted. */
    predicate Spotless() {
      && unapprovedImports == 0 && dependencyViolations == 0 && edgeTypeLeaks == 0 && nondeterministicImports == 0
      && nondeterministicCalls == 0 && dynamicCapabilityCalls == 0 && reflectionCapabilityAccesses == 0
      && aliasResolvedUnsafeCalls == 0 && stablePortLeaks == 0
    }
  }

  const NO_COUNTS := Counts(0, 0, 0, 0, 0, 0, 0, 0, 0, 0)

  datatype ArchitectureError =
    | BoundaryMissing
    | SourceUnreadable
    | Violations(findings: set<(string, Finding)>)

  // ---------- the books ----------

  /** The counters that stand for a kind of violation each. */
  datatype Counter =
    | ModuleImports
    | Dependencies
    | EdgeTypes
    | CapabilityImports
    | Calls
    | DynamicCalls
    | Reflections
    | PortLeaks

  function CounterOf(x: Finding): Counter {
    match x
    case UnapprovedImport => ModuleImports
    case WildcardImport => ModuleImports
    case RelativeOrUnresolvedImport => Dependencies
    case OutwardDependency => Dependencies
    case EdgeTypeLeak => EdgeTypes
    case HiddenCapabilityImport => CapabilityImports
    case HiddenNondeterministicCall => Calls
    case UnresolvedDynamicGetattr => DynamicCalls
    case HiddenDynamicCapability => DynamicCalls
    case HiddenReflectionEntry => Reflections
    case HiddenReflectionAttribute => Reflections
    case HiddenBuiltinsNamespace => Reflections
    case HiddenReflectionSubscript => Reflections
    case StablePortConcreteType => PortLeaks
  }

  function Count(c: Counts, k: Counter): nat {
    match k
    case ModuleImports => c.unapprovedImports
    case Dependencies => c.dependencyViolations
    case EdgeTypes => c.edgeTypeLeaks
    case CapabilityImports => c.nondeterministicImports
    case Calls => c.nondeterministicCalls
    case DynamicCalls => c.dynamicCapabilityCalls
    case Reflections => c.reflectionCapabilityAccesses
    case PortLeaks => c.stablePortLeaks
  }

  /** How many violations of a kind are listed. */
  function Tally(listed: seq<(string, Finding)>, k: Counter): nat {
    if listed == [] then 0
    else Tally(listed[..|listed| - 1], k) + if CounterOf(listed[|listed| - 1].1) == k then 1 else 0
  }

  /**
   * The two ledgers of a run agree: every counter is the number of violations listed for it, but for port leaks, of
   * which one violation may stand for several, and for aliased accesses, which are counted among the others once
   * more.
   */
  ghost predicate Balanced(c: Counts, listed: seq<(string, Finding)>) {
    && (forall k :: k != PortLeaks ==> Count(c, k) == Tally(listed, k))
    && c.stablePortLeaks >= Tally(listed, PortLeaks) && (c.stablePortLeaks > 0 ==> Tally(listed, PortLeaks) > 0)
    && c.aliasResolvedUnsafeCalls <= Tally(listed, Calls) + Tally(listed, DynamicCalls) + Tally(listed, Reflections)
  }

  function Once(k: Counter, x: Finding): nat {
    if CounterOf(x) == k then 1 else 0
  }

  /** One violation charged to its counter, and to no other. */
  predicate Charges(c: Counts, c': Counts, x: Finding) {
    && c'.filesChecked == c.filesChecked
    && c'.unapprovedImports == c.unapprovedImports + Once(ModuleImports, x)
    && c'.dependencyViolations == c.dependencyViolations + Once(Dependencies, x)
    && c'.edgeTypeLeaks == c.edgeTypeLeaks + Once(EdgeTypes, x)
    && c'.nondeterministicImports == c.nondeterministicImports + Once(CapabilityImports, x)
    && c'.nondeterministicCalls == c.nondeterministicCalls + Once(Calls, x)
    && c'.dynamicCapabilityCalls == c.dynamicCapabilityCalls + Once(DynamicCalls, x)
    && c'.reflectionCapabilityAccesses == c.reflectionCapabilityAccesses + Once(Reflections, x)
    && (if x == StablePortConcreteType then c'.stablePortLeaks > c.stablePortLeaks
        else c'.stablePortLeaks == c.stablePortLeaks)
    && c'.aliasResolvedUnsafeCalls <= c.aliasResolvedUnsafeCalls + Once(Calls, x) + Once(DynamicCalls, x)
        + Once(Reflections, x)
  }

  lemma TallyStep(listed: seq<(string, Finding)>, entry: (string, Finding), k: Counter)
    ensures Tally(listed + [entry], k) == Tally(listed, k) + if CounterOf(entry.1) == k then 1 else 0
  {
    assert (listed + [entry])[..|listed|] == listed;
  }

  lemma BalancedStep(c: Counts, c': Counts, listed: seq<(string, Finding)>, entry: (string, Finding))
    requires Balanced(c, listed) && Charges(c, c', entry.1)
    ensures Balanced(c', listed + [entry])
  {
    forall k ensures Tally(listed + [entry], k) == Tally(listed, k) + if CounterOf(entry.1) == k then 1 else 0 {
      TallyStep(listed, entry, k);
    }
  }

  /** The counters through a run: none at first, and each violation listed charged in turn. */
  ghost predicate IsHistory(history: seq<Counts>, c: Counts, listed: seq<(string, Finding)>) {
    && |history| == |listed| + 1 && history[0].Spotless() && history[|listed|] == c
    && forall i :: 0 <= i < |listed| ==> Charges(history[i], history[i + 1], listed[i].1)
  }

  /** Books in which every violation listed was charged. */
  ghost predicate Booked(c: Counts, listed: seq<(string, Finding)>) {
    exists history :: IsHistory(history, c, listed)
  }

  lemma BookedAtFirst()
    ensures Booked(NO_COUNTS, [])
  {
    assert IsHistory([NO_COUNTS], NO_COUNTS, []);
  }

  lemma BookedStep(c: Counts, c': Counts, listed: seq<(string, Finding)>, entry: (string, Finding))
    requires Booked(c, listed) && Charges(c, c', entry.1)
    ensures Booked(c', listed + [entry])
  {
    var history: seq<Counts> :| IsHistory(history, c, listed);
    assert IsHistory(history + [c'], c', listed + [entry]);
  }

  /** Counting files leaves the books as they are. */
  lemma BookedFiles(c: Counts, listed: seq<(string, Finding)>, files: nat)
    requires Booked(c, listed)
    ensures Booked(c.(filesChecked := files), listed)
  {
    var history: seq<Counts> :| IsHistory(history, c, listed);
    var other := seq(|history|, (i: int) requires 0 <= i < |history| => history[i].(filesChecked := files));
    forall i | 0 <= i < |listed| ensures Charges(other[i], other[i + 1], listed[i].1) {
      assert Charges(history[i], history[i + 1], listed[i].1);
    }
    assert IsHistory(other, c.(filesChecked := files), listed);
  }

  lemma BookedIsBalanced(c: Counts, listed: seq<(string, Finding)>)
    requires Booked(c, listed)
    ensures Balanced(c, listed)
  {
    var history: seq<Counts> :| IsHistory(history, c, listed);
    HistoryIsBalanced(history, c, listed, |listed|);
    Neutral(listed);
  }

  lemma {:induction false} HistoryIsBalanced(history: seq<Counts>, c: Counts, listed: seq<(string, Finding)>, i: nat)
    requires IsHistory(history, c, listed) && i <= |listed|
    ensures Balanced(history[i], listed[..i])
  {
    if i == 0 {
      forall k ensures Tally(listed[..0], k) == Count(history[0], k) == 0 {
      }
    } else {
      HistoryIsBalanced(history, c, listed, i - 1);
      BalancedStep(history[i - 1], history[i], listed[..i - 1], listed[i - 1]);
      TakeStep(listed, i - 1);
    }
  }

  /** Balanced books show no violation in one ledger exactly when they show none in the other. */
  lemma BalancedSpotless(c: Counts, listed: seq<(string, Finding)>)
    requires Balanced(c, listed)
    ensures c.Spotless() <==> listed == []
  {
    if listed == [] {
      forall k ensures Tally(listed, k) == 0 {
      }
      assert Count(c, ModuleImports) == Count(c, Dependencies) == Count(c, EdgeTypes) == Count(c, CapabilityImports)
          == 0;
      assert Count(c, Calls) == Count(c, DynamicCalls) == Count(c, Reflections) == 0;
    }
    if listed != [] {
      var k := CounterOf(listed[|listed| - 1].1);
      assert Tally(listed, k) > 0;
      assert Count(c, k) > 0;
    }
  }

  /** Findings as they are listed: each with the file. */
  function Entries(relative: string, found: seq<Finding>): (entries: seq<(string, Finding)>)
    ensures |entries| == |found|
  {
    seq(|found|, i requires 0 <= i < |found| => (relative, found[i]))
  }

  lemma EntriesAppend(listed: seq<(string, Finding)>, relative: string, found: seq<Finding>, more: seq<Finding>)
    ensures listed + Entries(relative, found) + Entries(relative, more) == listed + Entries(relative, found + more)
  {
    assert Entries(relative, found + more) == Entries(relative, found) + Entries(relative, more);
    Associate(listed, Entries(relative, found), Entries(relative, more));
  }

  lemma ThreeEntries(listed: seq<(string, Finding)>, relative: string, a: seq<Finding>, b: seq<Finding>,
      c: seq<Finding>)
    ensures listed + Entries(relative, a) + Entries(relative, b) + Entries(relative, c)
        == listed + Entries(relative, a + b + c)
  {
    EntriesAppend(listed, relative, a, b);
    EntriesAppend(listed, relative, a + b, c);
  }

  lemma EntriesOfNothing(listed: seq<(string, Finding)>, relative: string)
    ensures listed + Entries(relative, []) == listed
  {
  }

  /** The two ledgers of a run: the counters of its result and the violations that make it fail. */
  class Ledger {
    var counts: Counts
    var violations: seq<(string, Finding)>

    constructor ()
      ensures counts == NO_COUNTS && violations == []
    {
      counts := NO_COUNTS;
      violations := [];
    }

    /** The books are kept, and the number of files is the one given. */
    ghost predicate Valid(files: nat)
      reads this
    {
      Booked(counts, violations) && counts.filesChecked == files
    }

    /** Reports a violation if there is one. */
    method ReportIf(holds: bool, relative: string, finding: Finding, updated: Counts)
      requires Valid(counts.filesChecked)
      requires !holds || Charges(counts, updated, finding)
      modifies this
      ensures Valid(old(counts.filesChecked)) && violations == old(violations) + Entries(relative, When(holds, finding))
      ensures counts == if holds then updated else old(counts)
    {
      if holds {
        BookedStep(counts, updated, violations, (relative, finding));
        counts := updated;
        violations := violations + [(relative, finding)];
      }
      EntriesOfNothing(old(violations), relative);
      if holds {
        assert Entries(relative, [finding]) == [(relative, finding)];
      }
    }

    method InspectModule(f: SourceFile, m: Path)
      requires Valid(counts.filesChecked)
      modifies this
      ensures Valid(old(counts.filesChecked))
          && violations == old(violations) + Entries(f.relative, ModuleFindings(f.boundary, m))
    {
      var root := FirstSegment(m);
      var internal := InternalAllowed(f.boundary, m);
      ReportModule(
        f.relative,
        !(root in StdlibAllowed(f.boundary) || internal || root in ThirdPartyAllowed(f.boundary)),
        root == PRODUCT && !internal,
        root in EDGE_TYPES && f.boundary != Api,
        Deterministic(f.boundary) && root in CAPABILITY_ROOTS);
    }

    /** The four reports there can be on an imported module. */
    method ReportModule(relative: string, unapproved: bool, outward: bool, edge: bool, hidden: bool)
      requires Valid(counts.filesChecked)
      modifies this
      ensures Valid(old(counts.filesChecked))
      ensures violations == old(violations) + Entries(relative,
                When(unapproved, UnapprovedImport) + When(outward, OutwardDependency) + When(edge, EdgeTypeLeak)
                + When(hidden, HiddenCapabilityImport))
    {
      ghost var start := violations;
      ReportDependency(relative, unapproved, outward);
      ReportIf(edge, relative, EdgeTypeLeak, counts.(edgeTypeLeaks := counts.edgeTypeLeaks + 1));
      ReportIf(hidden, relative, HiddenCapabilityImport,
          counts.(nondeterministicImports := counts.nondeterministicImports + 1));
      ThreeEntries(start, relative, When(unapproved, UnapprovedImport) + When(outward, OutwardDependency),
                   When(edge, EdgeTypeLeak), When(hidden, HiddenCapabilityImport));
    }

    method ReportDependency(relative: string, unapproved: bool, outward: bool)
      requires Valid(counts.filesChecked)
      modifies this
      ensures Valid(old(counts.filesChecked))
      ensures violations == old(violations)
          + Entries(relative, When(unapproved, UnapprovedImport) + When(outward, OutwardDependency))
    {
      ghost var start := violations;
      ReportIf(unapproved, relative, UnapprovedImport, counts.(unapprovedImports := counts.unapprovedImports + 1));
      ReportIf(outward, relative, OutwardDependency, counts.(dependencyViolations := counts.dependencyViolations + 1));
      EntriesAppend(start, relative, When(unapproved, UnapprovedImport), When(outward, OutwardDependency));
    }

    method InspectModules(f: SourceFile, modules: seq<Path>)
      requires Valid(counts.filesChecked)
      modifies this
      ensures Valid(old(counts.filesChecked))
          && violations == old(violations) + Entries(f.relative, ModulesFindings(f.boundary, modules))
    {
      EntriesOfNothing(violations, f.relative);
      for i := 0 to |modules|
        invariant Valid(old(counts.filesChecked))
        invariant violations == old(violations) + Entries(f.relative, ModulesFindings(f.boundary, modules[..i]))
      {
        ghost var before := violations;
        InspectModule(f, modules[i]);
        ModulesFindingsStep(f.boundary, modules, i);
        EntriesAppend(old(violations), f.relative,
                 ModulesFindings(f.boundary, modules[..i]), ModuleFindings(f.boundary, modules[i]));
      }
      Neutral(modules);
    }

    method InspectImport(f: SourceFile, node: Node)
      requires Valid(counts.filesChecked)
      modifies this
      ensures Valid(old(counts.filesChecked))
          && violations == old(violations) + Entries(f.relative, ImportFindings(f.boundary, node))
    {
      ghost var start := violations;
      var relative := node.ImportFrom? && (node.level != 0 || node.source.None?);
      ReportIf(relative, f.relative, RelativeOrUnresolvedImport,
               counts.(dependencyViolations := counts.dependencyViolations + 1));
      ghost var one := violations;
      var wildcard := node.ImportFrom? && !relative && HasWildcard(node.names);
      ReportIf(wildcard, f.relative, WildcardImport, counts.(unapprovedImports := counts.unapprovedImports + 1));
      ghost var two := violations;
      InspectModules(f, ImportedModules(node));
      EntriesAppend(start, f.relative, When(relative, RelativeOrUnresolvedImport), When(wildcard, WildcardImport));
      EntriesAppend(start, f.relative,
               When(relative, RelativeOrUnresolvedImport) + When(wildcard, WildcardImport),
               ModulesFindings(f.boundary, ImportedModules(node)));
    }

    method InspectCall(f: SourceFile, call: Expr, aliases: Bindings, ident: Lexicon)
      requires call.Call? && Valid(counts.filesChecked)
      modifies this
      ensures Valid(old(counts.filesChecked))
          && violations == old(violations) + Entries(f.relative, CallFindings(call, aliases, ident))
    {
      var raw := ComputeQualifiedName(call.func);
      var name, reference := Resolve(call.func, aliases, ident), LiteralGetattr(call, aliases, ident);
      ReportCall(f.relative, name != raw, Both(name, IsForbidden),
                 Both(name, IsGetattr) && !Harmless(reference), reference,
                 Both(name, IsReflectionEntry));
    }

    /** The three reports there can be on a call; an aliased one is counted once more. */
    method ReportCall(relative: string, aliased: bool, forbidden: bool, dynamic: bool, reference: Option<Path>,
        entry: bool)
      requires Valid(counts.filesChecked)
      modifies this
      ensures Valid(old(counts.filesChecked))
      ensures violations == old(violations) + Entries(relative,
                When(forbidden, HiddenNondeterministicCall) + When(dynamic, Dynamic(reference))
                + When(entry, HiddenReflectionEntry))
    {
      ghost var start := violations;
      var again := if aliased then 1 else 0;
      ReportIf(forbidden, relative, HiddenNondeterministicCall,
               counts.(nondeterministicCalls := counts.nondeterministicCalls + 1,
                       aliasResolvedUnsafeCalls := counts.aliasResolvedUnsafeCalls + again));
      ReportIf(dynamic, relative, Dynamic(reference),
               counts.(dynamicCapabilityCalls := counts.dynamicCapabilityCalls + 1,
                       aliasResolvedUnsafeCalls := counts.aliasResolvedUnsafeCalls + if aliased || reference.Some?
                           then 1 else 0));
      ReportReflection(relative, entry, HiddenReflectionEntry, aliased);
      ThreeEntries(start, relative, When(forbidden, HiddenNondeterministicCall), When(dynamic, Dynamic(reference)),
                   When(entry, HiddenReflectionEntry));
    }

    /** The report on tokens and type names a stable port must not mention. */
    method ReportLeaks(relative: string, port: bool, leaks: nat)
      requires Valid(counts.filesChecked)
      modifies this
      ensures Valid(old(counts.filesChecked))
      ensures violations == old(violations) + Entries(relative, When(port && leaks > 0, StablePortConcreteType))
    {
      ReportIf(port && leaks > 0, relative, StablePortConcreteType,
          counts.(stablePortLeaks := counts.stablePortLeaks + leaks));
    }

    method InspectExpression(f: SourceFile, e: Expr, aliases: Bindings, ident: Lexicon)
      requires Valid(counts.filesChecked)
      modifies this
      ensures Valid(old(counts.filesChecked))
          && violations == old(violations) + Entries(f.relative, ExpressionFindings(e, aliases, ident))
    {
      EntriesOfNothing(violations, f.relative);
      if e.Call? {
        InspectCall(f, e, aliases, ident);
      } else if e.Attribute? {
        InspectAttribute(f, e, aliases, ident);
      } else if e.Name? {
        ReportReflection(f.relative, e.id == "__builtins__", HiddenBuiltinsNamespace, false);
      } else if e.Subscript? {
        InspectSubscript(f, e, aliases, ident);
      }
    }

    method InspectAttribute(f: SourceFile, e: Expr, aliases: Bindings, ident: Lexicon)
      requires e.Attribute? && Valid(counts.filesChecked)
      modifies this
      ensures Valid(old(counts.filesChecked))
      ensures violations == old(violations)
          + Entries(f.relative, When(!CleanAttribute(e, aliases, ident), HiddenReflectionAttribute))
    {
      var hidden := HidesAttribute(e, aliases, ident);
      ReportReflection(f.relative, hidden, HiddenReflectionAttribute, false);
    }

    method InspectSubscript(f: SourceFile, e: Expr, aliases: Bindings, ident: Lexicon)
      requires e.Subscript? && Valid(counts.filesChecked)
      modifies this
      ensures Valid(old(counts.filesChecked))
      ensures violations == old(violations)
          + Entries(f.relative, When(!CleanSubscript(e, aliases, ident), HiddenReflectionSubscript))
    {
      var reference, base := Resolve(e, aliases, ident), Resolve(e.base, aliases, ident);
      ReportReflection(
        f.relative,
        base == Some(["builtins"]) || Both(base, IsReflection) || Both(reference, IsReflection)
            || Both(reference, IsForbidden),
        HiddenReflectionSubscript, reference.Some?);
    }

    method ReportReflection(relative: string, holds: bool, finding: Finding, aliased: bool)
      requires Valid(counts.filesChecked) && CounterOf(finding) == Reflections
      modifies this
      ensures Valid(old(counts.filesChecked)) && violations == old(violations) + Entries(relative, When(holds, finding))
    {
      ReportIf(holds, relative, finding,
               counts.(reflectionCapabilityAccesses := counts.reflectionCapabilityAccesses + 1,
                       aliasResolvedUnsafeCalls := counts.aliasResolvedUnsafeCalls + if aliased then 1 else 0));
    }

    method InspectNode(f: SourceFile, node: Node, aliases: Bindings, ident: Lexicon)
      requires Valid(counts.filesChecked)
      modifies this
      ensures Valid(old(counts.filesChecked))
      ensures violations == old(violations) + Entries(f.relative, NodeFindings(f.boundary, node, aliases, ident))
    {
      InspectImport(f, node);
      if node.Expression? && Deterministic(f.boundary) {
        ghost var before := violations;
        InspectExpression(f, node.e, aliases, ident);
        EntriesAppend(old(violations), f.relative,
                 ImportFindings(f.boundary, node), ExpressionFindings(node.e, aliases, ident));
      }
    }

    method InspectNodes(f: SourceFile, nodes: seq<Node>, aliases: Bindings, ident: Lexicon)
      requires Valid(counts.filesChecked)
      modifies this
      ensures Valid(old(counts.filesChecked))
      ensures violations == old(violations) + Entries(f.relative, NodesFindings(f.boundary, nodes, aliases, ident))
    {
      EntriesOfNothing(violations, f.relative);
      for i := 0 to |nodes|
        invariant Valid(old(counts.filesChecked))
        invariant violations == old(violations)
            + Entries(f.relative, NodesFindings(f.boundary, nodes[..i], aliases, ident))
      {
        ghost var before := violations;
        InspectNode(f, nodes[i], aliases, ident);
        NodesFindingsStep(f.boundary, nodes, i, aliases, ident);
        EntriesAppend(old(violations), f.relative,
                 NodesFindings(f.boundary, nodes[..i], aliases, ident),
                     NodeFindings(f.boundary, nodes[i], aliases, ident));
      }
      Neutral(nodes);
    }

    method InspectWalk(f: SourceFile, nodes: seq<Node>, policy: Policy)
      requires Valid(counts.filesChecked)
      modifies this
      ensures Valid(old(counts.filesChecked))
          && violations == old(violations) + Entries(f.relative, WalkFindings(f, nodes, policy))
    {
      var aliases, _ := ComputeAliases(nodes, policy.ident);
      InspectNodes(f, nodes, aliases, policy.ident);
    }

    method InspectPort(f: SourceFile, nodes: seq<Node>, policy: Policy)
      requires Valid(counts.filesChecked)
      modifies this
      ensures Valid(old(counts.filesChecked))
          && violations == old(violations) + Entries(f.relative, PortFindings(f, nodes, policy))
    {
      ReportLeaks(f.relative, IsPort(f), Leaks(f, nodes, policy));
    }

    method CountFile()
      requires Valid(counts.filesChecked)
      modifies this
      ensures Valid(old(counts.filesChecked) + 1) && violations == old(violations)
    {
      BookedFiles(counts, violations, counts.filesChecked + 1);
      counts := counts.(filesChecked := counts.filesChecked + 1);
    }

    /** The loop body of the gate, for a file that parses. */
    method InspectFile(f: SourceFile, policy: Policy)
      requires f.nodes.Some? && Valid(counts.filesChecked)
      modifies this
      ensures Valid(old(counts.filesChecked) + 1)
          && violations == old(violations) + Entries(f.relative, FileFindings(f, policy))
    {
      var nodes := f.nodes.value;
      CountFile();
      InspectWalk(f, nodes, policy);
      InspectPort(f, nodes, policy);
      EntriesAppend(old(violations), f.relative, WalkFindings(f, nodes, policy), PortFindings(f, nodes, policy));
    }
  }

  lemma ModulesFindingsStep(b: Boundary, modules: seq<Path>, i: nat)
    requires i < |modules|
    ensures ModulesFindings(b, modules[..i + 1]) == ModulesFindings(b, modules[..i]) + ModuleFindings(b, modules[i])
  {
    TakeStep(modules, i);
  }

  lemma NodesFindingsStep(b: Boundary, nodes: seq<Node>, i: nat, aliases: Bindings, ident: Lexicon)
    requires i < |nodes|
    ensures NodesFindings(b, nodes[..i + 1], aliases, ident)
            == NodesFindings(b, nodes[..i], aliases, ident) + NodeFindings(b, nodes[i], aliases, ident)
  {
    TakeStep(nodes, i);
  }

  lemma NonEmpty<T>(a: set<T>, b: set<T>)
    ensures a != {} || b != {} <==> |a| + |b| > 0
  {
  }

  lemma CountStep(files: seq<SourceFile>, i: nat, policy: Policy)
    requires i < |files|
    ensures InspectedCount(files[..i + 1], policy)
        == InspectedCount(files[..i], policy) + if Inspected(files[i], policy) then 1 else 0
  {
    TakeStep(files, i);
  }

  /** What a file is reported for: nothing when other phases own it. */
  function Reports(f: SourceFile, policy: Policy): seq<(string, Finding)>
    requires Readable(f, policy)
  {
    if Inspected(f, policy) then Entries(f.relative, FileFindings(f, policy)) else []
  }

  predicate Readable(f: SourceFile, policy: Policy) {
    Inspected(f, policy) ==> f.nodes.Some?
  }

  predicate AllReadable(files: seq<SourceFile>, policy: Policy) {
    forall i :: 0 <= i < |files| ==> Readable(files[i], policy)
  }

  /** What a tree is reported for: every file's findings, in the order of the files. */
  function TreeReports(files: seq<SourceFile>, policy: Policy): seq<(string, Finding)>
    requires AllReadable(files, policy)
  {
    if files == [] then []
    else
      TreeReports(files[..|files| - 1], policy) + Reports(files[|files| - 1], policy)
  }

  lemma TreeReportsStep(files: seq<SourceFile>, i: nat, policy: Policy)
    requires i < |files| && AllReadable(files[..i], policy) && Readable(files[i], policy)
    ensures AllReadable(files[..i + 1], policy)
    ensures TreeReports(files[..i + 1], policy) == TreeReports(files[..i], policy) + Reports(files[i], policy)
  {
    TakeStep(files, i);
  }

  /** The loop over all files, in the order in which boundaries and paths list them. */
  method InspectFiles(ledger: Ledger, files: seq<SourceFile>, policy: Policy) returns (readable: bool)
    requires ledger.counts == NO_COUNTS && ledger.violations == []
    modifies ledger
    ensures readable <==> AllReadable(files, policy)
    ensures readable ==> ledger.violations == TreeReports(files, policy) && ledger.Valid(InspectedCount(files, policy))
  {
    BookedAtFirst();
    for i := 0 to |files|
      invariant AllReadable(files[..i], policy) && ledger.violations == TreeReports(files[..i], policy)
      invariant ledger.Valid(InspectedCount(files[..i], policy))
    {
      CountStep(files, i, policy);
      if Inspected(files[i], policy) && files[i].nodes.None? {
        assert !Readable(files[i], policy);
        return false;
      }
      TreeReportsStep(files, i, policy);
      if Inspected(files[i], policy) {
        ledger.InspectFile(files[i], policy);
      }
    }
    Neutral(files);
    return true;
  }

  predicate AllPresent(present: set<Boundary>) {
    forall b: Boundary :: b in present
  }

  /**
   * The gate: an error that holds every violation once, to be printed in sorted order, else a result in which only the
   * number of files is not zero.
   */
  method CheckArchitecture(present: set<Boundary>, files: seq<SourceFile>, policy: Policy)
    returns (r: Result<Counts, ArchitectureError>)
    ensures r.Ok? <==> AllPresent(present) && Accepts(files, policy)
    ensures r.Ok? ==> r.value == NO_COUNTS.(filesChecked := InspectedCount(files, policy))
    ensures r == Err(BoundaryMissing) <==> !AllPresent(present)
    ensures r == Err(SourceUnreadable) <==> AllPresent(present) && !AllReadable(files, policy)
    ensures r.Err? && r.error.Violations? ==>
              AllReadable(files, policy) && r.error.findings == set entry | entry in TreeReports(files, policy)
  {
    if !AllPresent(present) {
      return Err(BoundaryMissing);
    }
    var ledger := new Ledger();
    var readable := InspectFiles(ledger, files, policy);
    AcceptedIsReadable(files, policy);
    if !readable {
      return Err(SourceUnreadable);
    }
    NothingReported(files, policy);
    BookedIsBalanced(ledger.counts, ledger.violations);
    BalancedSpotless(ledger.counts, ledger.violations);
    if ledger.violations != [] {
      return Err(Violations(set entry | entry in ledger.violations));
    }
    return Ok(ledger.counts);
  }

  lemma AcceptedIsReadable(files: seq<SourceFile>, policy: Policy)
    ensures Accepts(files, policy) ==> AllReadable(files, policy)
  {
    if Accepts(files, policy) {
      forall i | 0 <= i < |files| ensures Readable(files[i], policy) {
        assert Passes(files[i], policy);
      }
    }
  }

  predicate All<T>(s: seq<T>, holds: T -> bool) {
    forall j :: 0 <= j < |s| ==> holds(s[j])
  }

  /** A property of all elements, one element further. */
  lemma AllStep<T>(s: seq<T>, i: nat, holds: T -> bool)
    requires i < |s|
    ensures All(s[..i + 1], holds) <==> All(s[..i], holds) && holds(s[i])
  {
    var a, b := s[..i + 1], s[..i];
    assert forall j :: 0 <= j < i ==> a[j] == b[j];
    assert a[i] == s[i];
  }

  lemma CleanModulesStep(b: Boundary, modules: seq<Path>, i: nat)
    requires i < |modules|
    ensures CleanModules(b, modules[..i + 1]) <==> CleanModules(b, modules[..i]) && CleanModule(b, modules[i])
  {
    var holds := (m: Path) => CleanModule(b, m);
    AllStep(modules, i, holds);
    assert forall s :: All(s, holds) <==> CleanModules(b, s);
  }

  lemma CleanNodesStep(b: Boundary, nodes: seq<Node>, i: nat, aliases: Bindings, ident: Lexicon)
    requires i < |nodes|
    ensures CleanNodes(b, nodes[..i + 1], aliases, ident)
       <==> CleanNodes(b, nodes[..i], aliases, ident) && CleanNode(b, nodes[i], aliases, ident)
  {
    var holds := (node: Node) => CleanNode(b, node, aliases, ident);
    AllStep(nodes, i, holds);
    assert forall s :: All(s, holds) <==> CleanNodes(b, s, aliases, ident);
  }

  lemma AcceptsStep(files: seq<SourceFile>, i: nat, policy: Policy)
    requires i < |files|
    ensures Accepts(files[..i + 1], policy) <==> Accepts(files[..i], policy) && Passes(files[i], policy)
  {
    var holds := (f: SourceFile) => Passes(f, policy);
    AllStep(files, i, holds);
    assert forall s :: All(s, holds) <==> Accepts(s, policy);
  }

  // ---------- nothing is reported exactly when all is clean ----------

  lemma NoModuleFindings(b: Boundary, m: Path)
    ensures ModuleFindings(b, m) == [] <==> CleanModule(b, m)
  {
  }

  lemma {:induction false} NoModulesFindings(b: Boundary, modules: seq<Path>)
    ensures ModulesFindings(b, modules) == [] <==> CleanModules(b, modules)
  {
    if modules != [] {
      var n := |modules| - 1;
      NoModulesFindings(b, modules[..n]);
      NoModuleFindings(b, modules[n]);
      CleanModulesStep(b, modules, n);
      Neutral(modules);
    }
  }

  lemma NoImportFindings(b: Boundary, node: Node)
    ensures ImportFindings(b, node) == [] <==> CleanImport(b, node)
  {
    NoModulesFindings(b, ImportedModules(node));
  }

  lemma NoExpressionFindings(e: Expr, aliases: Bindings, ident: Lexicon)
    ensures ExpressionFindings(e, aliases, ident) == [] <==> CleanExpression(e, aliases, ident)
  {
    if e.Call? {
      NoCallFindings(e, aliases, ident);
    }
  }

  lemma NoCallFindings(call: Expr, aliases: Bindings, ident: Lexicon)
    requires call.Call?
    ensures CallFindings(call, aliases, ident) == [] <==> CleanCall(call, aliases, ident)
  {
  }

  lemma NoNodeFindings(b: Boundary, node: Node, aliases: Bindings, ident: Lexicon)
    ensures NodeFindings(b, node, aliases, ident) == [] <==> CleanNode(b, node, aliases, ident)
  {
    NoImportFindings(b, node);
    if node.Expression? {
      NoExpressionFindings(node.e, aliases, ident);
    }
  }

  lemma {:induction false} NoNodesFindings(b: Boundary, nodes: seq<Node>, aliases: Bindings, ident: Lexicon)
    ensures NodesFindings(b, nodes, aliases, ident) == [] <==> CleanNodes(b, nodes, aliases, ident)
  {
    if nodes != [] {
      var n := |nodes| - 1;
      NoNodesFindings(b, nodes[..n], aliases, ident);
      NoNodeFindings(b, nodes[n], aliases, ident);
      CleanNodesStep(b, nodes, n, aliases, ident);
      Neutral(nodes);
    }
  }

  lemma NoFileFindings(f: SourceFile, policy: Policy)
    requires f.nodes.Some?
    ensures FileFindings(f, policy) == [] <==> CleanFile(f, policy)
  {
    var nodes := f.nodes.value;
    NoNodesFindings(f.boundary, nodes, AliasesOf(nodes, policy.ident), policy.ident);
    NonEmpty(LeakedTokens(f, policy), LeakedTypes(nodes, policy));
  }

  /** The gate reports nothing exactly when it accepts the tree. */
  lemma {:induction false} NothingReported(files: seq<SourceFile>, policy: Policy)
    requires AllReadable(files, policy)
    ensures TreeReports(files, policy) == [] <==> Accepts(files, policy)
  {
    if files != [] {
      var n := |files| - 1;
      NothingReported(files[..n], policy);
      if Inspected(files[n], policy) {
        NoFileFindings(files[n], policy);
      }
      AcceptsStep(files, n, policy);
      Neutral(files);
    }
  }
}
