/** What acceptance by the architecture gate means for import chains and for aliased capabilities. */
module Layering {
  import opened Sequences
  import opened Wrappers
  import opened Text
  import opened PythonTree
  import opened Resolution
  import opened AliasFixpoint
  import opened AliasChains
  import opened Architecture

  // ---------- modules ----------

  /** The segments of the path of a file. */
  function Segments(f: SourceFile): seq<string> {
    Split(f.relative, '/')
  }

  /** The file lies in the directory of its boundary, at any depth. */
  predicate Located(f: SourceFile) {
    var s := Segments(f);
    |s| > |Package(f.boundary)| + 1 && s[0] == "src" && Package(f.boundary) <= s[1..|s| - 1]
  }

  /** The module a file defines: a package for its `__init__.py`, else the package and the stem of the file. */
  function ModuleName(f: SourceFile): Path
    requires Located(f)
  {
    var s := Segments(f);
    var last := s[|s| - 1];
    s[1..|s| - 1] + if last == "__init__.py" then [] else [Before(last, '.')]
  }

  /** The node imports the module, one of its parents, or a module out of the package it names. */
  predicate Mentions(node: Node, m: Path) {
    match node
    case Import(names) => exists i :: 0 <= i < |names| && m <= names[i].name
    case ImportFrom(source, names, level) =>
      level == 0 && source.Some? && source.value != []
      && (m <= source.value || exists i :: 0 <= i < |names| && m <= source.value + names[i].name)
    case _ => false
  }

  predicate ImportsModule(f: SourceFile, m: Path) {
    f.nodes.Some? && exists i :: 0 <= i < |f.nodes.value| && Mentions(f.nodes.value[i], m)
  }

  /** A product module belongs to the boundary whose package it is in. */
  predicate BelongsTo(m: Path, b: Boundary) {
    Package(b) <= m
  }

  lemma ModuleBelongs(f: SourceFile)
    requires Located(f)
    ensures BelongsTo(ModuleName(f), f.boundary)
  {
  }

  /** No boundary's package lies inside another's. */
  lemma PackagesApart(a: Boundary, b: Boundary, m: Path)
    requires BelongsTo(m, a) && BelongsTo(m, b)
    ensures a == b
  {
    assert "core"[0] != "governance"[0] && "core"[0] != "application"[0] && "governance"[0] != "application"[0];
    assert |Package(a)| == 2 ==> m[1] == Package(a)[1];
    assert |Package(b)| == 2 ==> m[1] == Package(b)[1];
    assert |Package(a)| == 3 ==> m[1] == "adapters" && m[2] == Package(a)[2];
    assert |Package(b)| == 3 ==> m[1] == "adapters" && m[2] == Package(b)[2];
  }

  /** A clean import of a product module names a package its boundary may import. */
  lemma CleanInternal(b: Boundary, named: Path, full: Path, target: Boundary)
    requires CleanModule(b, named) && named != [] && named <= full && BelongsTo(full, target)
    ensures target in Allowed(b)
  {
    assert named[0] == full[0] == PRODUCT;
    var other :| other in Allowed(b) && Package(other) <= named;
    assert Package(other) <= full;
    PackagesApart(other, target, full);
  }

  lemma CleanMention(b: Boundary, node: Node, m: Path, target: Boundary)
    requires CleanImport(b, node) && Mentions(node, m) && BelongsTo(m, target)
    ensures target in Allowed(b)
  {
    match node
    case Import(names) =>
      var i :| 0 <= i < |names| && m <= names[i].name;
      assert CleanModule(b, ImportedModules(node)[i]);
      CleanInternal(b, names[i].name, names[i].name, target);
    case ImportFrom(source, names, level) =>
      assert CleanModule(b, ImportedModules(node)[0]);
      if m <= source.value {
        CleanInternal(b, source.value, source.value, target);
      } else {
        var i :| 0 <= i < |names| && m <= source.value + names[i].name;
        CleanInternal(b, source.value, source.value + names[i].name, target);
      }
  }

  /** One import out of a clean file stays within what its boundary may import. */
  lemma CleanEdge(f: SourceFile, m: Path, target: Boundary, policy: Policy)
    requires CleanFile(f, policy) && ImportsModule(f, m) && BelongsTo(m, target)
    ensures target in Allowed(f.boundary)
  {
    var nodes := f.nodes.value;
    var i :| 0 <= i < |nodes| && Mentions(nodes[i], m);
    assert CleanNode(f.boundary, nodes[i], AliasesOf(nodes, policy.ident), policy.ident);
    CleanMention(f.boundary, nodes[i], m, target);
  }

  // ---------- chains of imports ----------

  /** Everything a boundary can get to, directly or not. */
  function Reach(b: Boundary): set<Boundary> {
    match b
    case Core => {Core}
    case Governance => {Governance, Core}
    case _ => {b, Application, Governance, Core}
  }

  /** Files of the tree that the gate inspects, each importing the module the next one defines. */
  ghost predicate IsImportChain(files: seq<SourceFile>, chain: seq<SourceFile>, policy: Policy) {
    && chain != []
    && (forall i :: 0 <= i < |chain| ==> chain[i] in files && Inspected(chain[i], policy) && Located(chain[i]))
    && (forall i :: 0 <= i < |chain| - 1 ==> Leads(chain, i))
  }

  predicate Leads(chain: seq<SourceFile>, i: nat)
    requires i + 1 < |chain|
  {
    Located(chain[i + 1]) && ImportsModule(chain[i], ModuleName(chain[i + 1]))
  }

  lemma ReachIsClosed(b: Boundary, c: Boundary, d: Boundary)
    requires c in Reach(b) && d in Allowed(c)
    ensures d in Reach(b)
  {
  }

  lemma StepAllowed(files: seq<SourceFile>, f: SourceFile, g: SourceFile, policy: Policy)
    requires Accepts(files, policy) && f in files && Inspected(f, policy)
    requires Located(g) && ImportsModule(f, ModuleName(g))
    ensures g.boundary in Allowed(f.boundary)
  {
    ModuleBelongs(g);
    AcceptedIsClean(files, f, policy);
    CleanEdge(f, ModuleName(g), g.boundary, policy);
  }

  lemma LinkAllowed(files: seq<SourceFile>, chain: seq<SourceFile>, i: nat, policy: Policy)
    requires Accepts(files, policy) && IsImportChain(files, chain, policy) && 0 < i < |chain|
    ensures chain[i].boundary in Allowed(chain[i - 1].boundary)
  {
    assert Leads(chain, i - 1);
    StepAllowed(files, chain[i - 1], chain[i], policy);
  }

  predicate Steps(boundaries: seq<Boundary>) {
    forall i :: 0 < i < |boundaries| ==> StepsTo(boundaries, i)
  }

  predicate StepsTo(boundaries: seq<Boundary>, i: nat)
    requires 0 < i < |boundaries|
  {
    boundaries[i] in Allowed(boundaries[i - 1])
  }

  /** However many steps a boundary takes, it stays within its reach. */
  lemma {:induction false} StepsStay(boundaries: seq<Boundary>, k: nat)
    requires Steps(boundaries) && k < |boundaries|
    ensures boundaries[k] in Reach(boundaries[0])
  {
    if k > 0 {
      StepsStay(boundaries, k - 1);
      assert StepsTo(boundaries, k);
      ReachIsClosed(boundaries[0], boundaries[k - 1], boundaries[k]);
    }
  }

  function BoundariesOf(chain: seq<SourceFile>): (boundaries: seq<Boundary>)
    ensures |boundaries| == |chain| && forall i :: 0 <= i < |chain| ==> boundaries[i] == chain[i].boundary
  {
    seq(|chain|, i requires 0 <= i < |chain| => chain[i].boundary)
  }

  lemma LinkSteps(chain: seq<SourceFile>, i: nat)
    requires 0 < i < |chain| && chain[i].boundary in Allowed(chain[i - 1].boundary)
    ensures StepsTo(BoundariesOf(chain), i)
  {
  }

  lemma ChainSteps(files: seq<SourceFile>, chain: seq<SourceFile>, policy: Policy)
    requires Accepts(files, policy) && IsImportChain(files, chain, policy)
    ensures Steps(BoundariesOf(chain))
  {
    var boundaries := BoundariesOf(chain);
    forall i | 0 < i < |boundaries| ensures StepsTo(boundaries, i) {
      LinkAllowed(files, chain, i, policy);
      LinkSteps(chain, i);
    }
  }

  lemma ChainStays(files: seq<SourceFile>, chain: seq<SourceFile>, k: nat, policy: Policy)
    requires Accepts(files, policy) && IsImportChain(files, chain, policy) && k < |chain|
    ensures chain[k].boundary in Reach(chain[0].boundary)
  {
    ChainSteps(files, chain, policy);
    StepsStay(BoundariesOf(chain), k);
  }

  lemma AcceptedIsClean(files: seq<SourceFile>, f: SourceFile, policy: Policy)
    requires Accepts(files, policy) && f in files && Inspected(f, policy)
    ensures CleanFile(f, policy)
  {
    var i :| 0 <= i < |files| && files[i] == f;
    assert Passes(files[i], policy);
  }

  /**
   * Acceptance means transitive layering: whatever module a chain of imports of any length mentions in the end,
   * inspected or not, it lies within the reach of the boundary the chain starts from.
   */
  lemma TransitiveLayering(files: seq<SourceFile>, chain: seq<SourceFile>, m: Path, target: Boundary, policy: Policy)
    requires Accepts(files, policy) && IsImportChain(files, chain, policy)
    requires ImportsModule(chain[|chain| - 1], m) && BelongsTo(m, target)
    ensures target in Reach(chain[0].boundary)
    ensures chain[0].boundary == Core ==> target == Core
    ensures chain[0].boundary in {Core, Governance, Application} ==> target in {Core, Governance, Application}
    ensures target in {SqliteAdapter, IntelligenceAdapter, ChannelAdapter, SystemAdapter, Api, Worker}
        ==> target == chain[0].boundary
  {
    var last := |chain| - 1;
    ChainStays(files, chain, last, policy);
    AcceptedIsClean(files, chain[last], policy);
    CleanEdge(chain[last], m, target, policy);
    ReachIsClosed(chain[0].boundary, chain[last].boundary, target);
  }

  // ---------- capabilities behind aliases and spellings ----------

  /** A call in a deterministic boundary whose callee resolves to a forbidden path makes the gate fail. */
  lemma ForbiddenCallRejected(files: seq<SourceFile>, f: SourceFile, i: nat, path: Path, policy: Policy)
    requires f in files && Inspected(f, policy) && Deterministic(f.boundary) && f.nodes.Some?
    requires i < |f.nodes.value| && f.nodes.value[i].Expression? && f.nodes.value[i].e.Call?
    requires Resolve(f.nodes.value[i].e.func, AliasesOf(f.nodes.value, policy.ident), policy.ident) == Some(path)
    requires IsForbidden(path)
    ensures !Accepts(files, policy)
  {
    assert !CleanNode(f.boundary, f.nodes.value[i], AliasesOf(f.nodes.value, policy.ident), policy.ident);
    assert !CleanFile(f, policy);
    if Accepts(files, policy) {
      AcceptedIsClean(files, f, policy);
      assert false;
    }
  }

  /** The last name of a chain in walk order, with any attributes behind it, resolves to what the chain means. */
  lemma ChainCallee(nodes: seq<Node>, links: seq<Link>, start: Path, func: Expr, suffix: Path, ident: Lexicon)
    requires IsAliasChain(nodes, links, start) && InWalkOrder(links)
    requires IsChain(func) && ChainPath(func) == [links[|links| - 1].name] + suffix
    ensures Resolve(func, AliasesOf(nodes, ident), ident) == Some(ChainMeaning(nodes, links, start) + suffix)
  {
    var last, final := links[|links| - 1].name, AliasesOf(nodes, ident);
    ChainFollows(nodes, links, start, ident);
    ResolvesInOrder(final, links, ResolveName(start, Imports(nodes)) + links[0].suffix, |links| - 1);
    Cons(last, suffix);
  }

  /** Calling a forbidden capability through a chain of aliases of any length, written in walk order, is rejected. */
  lemma AliasedCallRejected(
    files: seq<SourceFile>, f: SourceFile, links: seq<Link>, start: Path, i: nat, suffix: Path, policy: Policy)
    requires f in files && Inspected(f, policy) && Deterministic(f.boundary) && f.nodes.Some?
    requires IsAliasChain(f.nodes.value, links, start) && InWalkOrder(links)
    requires i < |f.nodes.value| && f.nodes.value[i].Expression? && f.nodes.value[i].e.Call?
    requires var func := f.nodes.value[i].e.func; IsChain(func) && ChainPath(func) == [links[|links| - 1].name] + suffix
    requires IsForbidden(ChainMeaning(f.nodes.value, links, start) + suffix)
    ensures !Accepts(files, policy)
  {
    ChainCallee(f.nodes.value, links, start, f.nodes.value[i].e.func, suffix, policy.ident);
    ForbiddenCallRejected(files, f, i, ChainMeaning(f.nodes.value, links, start) + suffix, policy);
  }

  /** Calling a forbidden capability through any nesting of reflective spellings is rejected. */
  lemma SpelledCallRejected(files: seq<SourceFile>, f: SourceFile, a: Access, path: Path, i: nat, policy: Policy)
    requires f in files && Inspected(f, policy) && Deterministic(f.boundary) && f.nodes.Some?
    requires i < |f.nodes.value| && f.nodes.value[i].Expression? && f.nodes.value[i].e.Call?
    requires f.nodes.value[i].e.func == Spell(a) && Spellable(a, policy.ident)
    requires HelpersUnbound(AliasesOf(f.nodes.value, policy.ident))
    requires Resolve(BaseOf(a), AliasesOf(f.nodes.value, policy.ident), policy.ident) == Some(path) && StaticRoot(path)
    requires IsForbidden(Meaning(a, path))
    ensures !Accepts(files, policy)
  {
    SpellingsCollapse(a, path, AliasesOf(f.nodes.value, policy.ident), policy.ident);
    ForbiddenCallRejected(files, f, i, Meaning(a, path), policy);
  }

  // ---------- which calls are seen ----------

  /** A name that heads no forbidden path. */
  predicate Innocent(name: string) {
    name !in CAPABILITY_ROOTS && name !in BUILTIN_CALLS && name != "builtins" && name != "datetime"
  }

  lemma InnocentHead(p: Path)
    requires p != [] && Innocent(p[0])
    ensures !IsForbidden(p)
  {
    assert forall c :: c in CLOCK_CALLS ==> c[0] == "datetime" || c[0] == "time" || c[0] == "uuid";
    assert "time" in CAPABILITY_ROOTS && "uuid" in CAPABILITY_ROOTS;
  }

  /** A call is listed as nondeterministic exactly when its callee resolves to a forbidden path. */
  lemma CallListed(call: Expr, aliases: Bindings, ident: Lexicon)
    requires call.Call?
    ensures HiddenNondeterministicCall in CallFindings(call, aliases, ident)
            <==> Both(Resolve(call.func, aliases, ident), IsForbidden)
  {
  }

  /** Out of walk order the last name resolves to something headed by a name of the chain. */
  lemma OutOfOrderCallee(nodes: seq<Node>, links: seq<Link>, start: Path, func: Expr, suffix: Path, ident: Lexicon)
    requires IsAliasChain(nodes, links, start) && !InWalkOrder(links)
    requires IsChain(func) && ChainPath(func) == [links[|links| - 1].name] + suffix
    ensures var p := Resolve(func, AliasesOf(nodes, ident), ident);
            p.Some? && p.value != [] && p.value[0] in Names(links)
  {
    var final, last := AliasesOf(nodes, ident), |links| - 1;
    ChainFollows(nodes, links, start, ident);
    var broken :| 0 < broken < |links| && !StandsAfter(links, broken);
    BreaksOutOfOrder(final, links, ResolveName(start, Imports(nodes)) + links[0].suffix, broken, last);
    Cons(links[last].name, suffix);
  }

  /**
   * A call of a forbidden capability through a chain of aliases whose names head no forbidden path themselves is listed
   * exactly when the chain is written in walk order.
   */
  lemma AliasedCallSeenExactlyInOrder(
    nodes: seq<Node>, links: seq<Link>, start: Path, call: Expr, suffix: Path, ident: Lexicon)
    requires IsAliasChain(nodes, links, start) && forall k :: 0 <= k < |links| ==> Innocent(links[k].name)
    requires call.Call? && IsChain(call.func) && ChainPath(call.func) == [links[|links| - 1].name] + suffix
    requires IsForbidden(ChainMeaning(nodes, links, start) + suffix)
    ensures HiddenNondeterministicCall in CallFindings(call, AliasesOf(nodes, ident), ident) <==> InWalkOrder(links)
  {
    CallListed(call, AliasesOf(nodes, ident), ident);
    if InWalkOrder(links) {
      ChainCallee(nodes, links, start, call.func, suffix, ident);
    } else {
      OutOfOrderCallee(nodes, links, start, call.func, suffix, ident);
      InnocentHead(Resolve(call.func, AliasesOf(nodes, ident), ident).value);
    }
  }

  /**
   * A call of an attribute taken directly is listed exactly when the attribute is taken of a name or chain and the
   * whole resolves to a forbidden path: behind a call, a `getattr` for one, a direct attribute is not seen.
   */
  lemma DirectCallSeenExactlyOnChains(call: Expr, aliases: Bindings, ident: Lexicon)
    requires call.Call? && call.func.Attribute?
    ensures HiddenNondeterministicCall in CallFindings(call, aliases, ident)
            <==> IsChain(call.func.base) && IsForbidden(ResolveName(ChainPath(call.func), aliases))
    ensures !IsChain(call.func.base) ==> CallFindings(call, aliases, ident) == []
  {
    CallListed(call, aliases, ident);
  }
}
