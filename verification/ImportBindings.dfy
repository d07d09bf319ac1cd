/** What imports bind: the last alias of a name decides, whatever the assignments of the file say. */
module ImportBindings {
  import opened Sequences
  import opened Wrappers
  import opened PythonTree
  import opened Resolution
  import opened AliasFixpoint
  import opened Architecture
  import opened Layering

  /** `import` and absolute `from` imports; anything else brings no names. */
  function AliasesIn(node: Node): seq<Alias> {
    match node
    case Import(names) => names
    case ImportFrom(Some(m), names, 0) => if m == [] then [] else names
    case _ => []
  }

  /** The name an alias goes by: the one after `as`, else the first segment of its own. */
  function KnownAs(a: Alias): string {
    match a.asname
    case Some(name) => name
    case None => if a.name == [] then "" else a.name[0]
  }

  /** The node's alias brings this name; a star of a `from` import brings none. */
  predicate Brings(node: Node, j: nat, b: string) {
    j < |AliasesIn(node)| && KnownAs(AliasesIn(node)[j]) == b && (node.ImportFrom? ==> AliasesIn(node)[j].name != ["*"])
  }

  /** What is brought: the module itself, or something out of it. */
  function Brought(node: Node, j: nat): Path
    requires j < |AliasesIn(node)|
  {
    if node.ImportFrom? then node.source.value + AliasesIn(node)[j].name else AliasesIn(node)[j].name
  }

  predicate BringsNone(node: Node, b: string) {
    forall j :: 0 <= j < |AliasesIn(node)| ==> !Brings(node, j, b)
  }

  ghost predicate BroughtIn(nodes: seq<Node>, b: string) {
    exists i :: 0 <= i < |nodes| && !BringsNone(nodes[i], b)
  }

  /** The last alias in walk order that brings the name. */
  ghost predicate IsLast(nodes: seq<Node>, i: nat, j: nat, b: string) {
    && i < |nodes| && Brings(nodes[i], j, b)
    && (forall k :: j < k < |AliasesIn(nodes[i])| ==> !Brings(nodes[i], k, b))
    && (forall k :: i < k < |nodes| ==> BringsNone(nodes[k], b))
  }

  // ---------- one node ----------

  lemma {:induction false} ImportKeeps(names: seq<Alias>, m: Bindings, b: string)
    requires forall j :: 0 <= j < |names| ==> KnownAs(names[j]) != b
    ensures b in BindImport(names, m) <==> b in m
    ensures b in m ==> BindImport(names, m)[b] == m[b]
  {
    if names != [] {
      ImportKeeps(names[1..], m[KnownAs(names[0]) := names[0].name], b);
    }
  }

  lemma {:induction false} ImportSets(names: seq<Alias>, m: Bindings, j: nat)
    requires j < |names| && forall k :: j < k < |names| ==> KnownAs(names[k]) != KnownAs(names[j])
    ensures KnownAs(names[j]) in BindImport(names, m)
    ensures BindImport(names, m)[KnownAs(names[j])] == names[j].name
  {
    var more := m[KnownAs(names[0]) := names[0].name];
    if j == 0 {
      ImportKeeps(names[1..], more, KnownAs(names[0]));
    } else {
      ImportSets(names[1..], more, j - 1);
    }
  }

  predicate Starred(a: Alias) {
    a.name == ["*"]
  }

  lemma {:induction false} FromKeeps(source: Path, names: seq<Alias>, m: Bindings, b: string)
    requires forall j :: 0 <= j < |names| ==> Starred(names[j]) || KnownAs(names[j]) != b
    ensures b in BindFrom(source, names, m) <==> b in m
    ensures b in m ==> BindFrom(source, names, m)[b] == m[b]
  {
    if names != [] {
      FromKeeps(source, names[1..], AfterFrom(source, names[0], m), b);
    }
  }

  function AfterFrom(source: Path, a: Alias, m: Bindings): Bindings {
    if Starred(a) then m else m[KnownAs(a) := source + a.name]
  }

  lemma {:induction false} FromSets(source: Path, names: seq<Alias>, m: Bindings, j: nat)
    requires j < |names| && !Starred(names[j])
    requires forall k :: j < k < |names| ==> Starred(names[k]) || KnownAs(names[k]) != KnownAs(names[j])
    ensures KnownAs(names[j]) in BindFrom(source, names, m)
    ensures BindFrom(source, names, m)[KnownAs(names[j])] == source + names[j].name
  {
    var more := AfterFrom(source, names[0], m);
    if j == 0 {
      FromKeeps(source, names[1..], more, KnownAs(names[0]));
    } else {
      FromSets(source, names[1..], more, j - 1);
    }
  }

  lemma NodeKeeps(node: Node, m: Bindings, b: string)
    requires BringsNone(node, b)
    ensures b in ImportStep(node, m) <==> b in m
    ensures b in m ==> ImportStep(node, m)[b] == m[b]
  {
    var names := AliasesIn(node);
    forall j | 0 <= j < |names| ensures KnownAs(names[j]) != b || (node.ImportFrom? && Starred(names[j])) {
      assert !Brings(node, j, b);
    }
    if node.Import? {
      ImportKeeps(names, m, b);
    } else if names != [] {
      FromKeeps(node.source.value, names, m, b);
    }
  }

  lemma NodeSets(node: Node, m: Bindings, j: nat, b: string)
    requires Brings(node, j, b) && forall k :: j < k < |AliasesIn(node)| ==> !Brings(node, k, b)
    ensures b in ImportStep(node, m) && ImportStep(node, m)[b] == Brought(node, j)
  {
    var names := AliasesIn(node);
    forall k | j < k < |names| ensures KnownAs(names[k]) != b || (node.ImportFrom? && Starred(names[k])) {
      assert !Brings(node, k, b);
    }
    if node.Import? {
      ImportSets(names, m, j);
    } else {
      FromSets(node.source.value, names, m, j);
    }
  }

  // ---------- the walk ----------

  lemma {:induction false} NoneImported(nodes: seq<Node>, b: string)
    requires !BroughtIn(nodes, b)
    ensures b !in Imports(nodes)
  {
    if nodes != [] {
      var n := |nodes| - 1;
      assert forall i :: 0 <= i < n ==> nodes[..n][i] == nodes[i];
      NoneImported(nodes[..n], b);
      NodeKeeps(nodes[n], Imports(nodes[..n]), b);
    }
  }

  lemma {:induction false} LastImported(nodes: seq<Node>, i: nat, j: nat, b: string)
    requires IsLast(nodes, i, j, b)
    ensures b in Imports(nodes) && Imports(nodes)[b] == Brought(nodes[i], j)
  {
    var n := |nodes| - 1;
    if i == n {
      NodeSets(nodes[n], Imports(nodes[..n]), j, b);
    } else {
      assert forall k :: 0 <= k < n ==> nodes[..n][k] == nodes[k];
      LastImported(nodes[..n], i, j, b);
      NodeKeeps(nodes[n], Imports(nodes[..n]), b);
    }
  }

  /** The last of the aliases up to one that brings the name. */
  lemma {:induction false} LastOfNode(node: Node, b: string, n: nat) returns (j: nat)
    requires n <= |AliasesIn(node)| && exists k :: 0 <= k < n && Brings(node, k, b)
    ensures j < n && Brings(node, j, b) && forall k :: j < k < n ==> !Brings(node, k, b)
  {
    if Brings(node, n - 1, b) {
      return n - 1;
    }
    j := LastOfNode(node, b, n - 1);
  }

  lemma {:induction false} LastOfWalk(nodes: seq<Node>, b: string) returns (i: nat, j: nat)
    requires BroughtIn(nodes, b)
    ensures IsLast(nodes, i, j, b)
  {
    var n := |nodes| - 1;
    if BringsNone(nodes[n], b) {
      var k :| 0 <= k < |nodes| && !BringsNone(nodes[k], b);
      assert nodes[..n][k] == nodes[k];
      i, j := LastOfWalk(nodes[..n], b);
      assert forall k :: 0 <= k < n ==> nodes[..n][k] == nodes[k];
    } else {
      i := n;
      j := LastOfNode(nodes[n], b, |AliasesIn(nodes[n])|);
    }
  }

  lemma OneLast(nodes: seq<Node>, i: nat, j: nat, i': nat, j': nat, b: string)
    requires IsLast(nodes, i, j, b) && IsLast(nodes, i', j', b)
    ensures i == i' && j == j'
  {
  }

  // ---------- the alias map ----------

  ghost predicate IsLastFor(nodes: seq<Node>, i: nat, j: nat, b: string, path: Path) {
    IsLast(nodes, i, j, b) && Brought(nodes[i], j) == path
  }

  /** The last alias that brings the name brings this path. */
  ghost predicate LastBrings(nodes: seq<Node>, b: string, path: Path) {
    exists i: nat, j: nat :: IsLastFor(nodes, i, j, b, path)
  }

  lemma LastIsBound(nodes: seq<Node>, i: nat, j: nat, b: string, ident: Lexicon)
    requires IsLast(nodes, i, j, b)
    ensures b in AliasesOf(nodes, ident) && AliasesOf(nodes, ident)[b] == Brought(nodes[i], j)
  {
    LastImported(nodes, i, j, b);
    ClosureIsFixpoint(nodes, Imports(nodes), ident);
  }

  /** A name that imports bring means what the last of them brings, and nothing else, whatever is assigned to it. */
  lemma LastImportDecides(nodes: seq<Node>, b: string, path: Path, ident: Lexicon)
    requires BroughtIn(nodes, b)
    ensures b in AliasesOf(nodes, ident)
    ensures AliasesOf(nodes, ident)[b] == path <==> LastBrings(nodes, b, path)
  {
    var i, j := LastOfWalk(nodes, b);
    LastIsBound(nodes, i, j, b, ident);
    assert IsLastFor(nodes, i, j, b, Brought(nodes[i], j));
    if LastBrings(nodes, b, path) {
      var i': nat, j': nat :| IsLastFor(nodes, i', j', b, path);
      OneLast(nodes, i, j, i', j', b);
    }
  }

  /** A name that no import brings is bound by an assignment or not at all. */
  lemma NothingElseImported(nodes: seq<Node>, b: string, ident: Lexicon)
    requires !BroughtIn(nodes, b) && b in AliasesOf(nodes, ident)
    ensures b in AssignedNames(nodes)
  {
    NoneImported(nodes, b);
    ClosureIsAssigned(nodes, Imports(nodes), ident);
  }

  lemma {:induction false} ClosureIsAssigned(nodes: seq<Node>, m: Bindings, ident: Lexicon)
    ensures Closure(nodes, m, ident).Keys <= m.Keys + AssignedNames(nodes)
    decreases AssignedNames(nodes) - m.Keys
  {
    var m' := Pass(nodes, m, ident);
    PassBindsAssigned(nodes, m, ident);
    if m' != m {
      Shrinks(nodes, m, ident);
      ClosureIsAssigned(nodes, m', ident);
    }
  }

  /** `from m import name as b`: the name means the module's path with the item's behind it. */
  lemma FromImportBinds(nodes: seq<Node>, i: nat, j: nat, m: Path, names: seq<Alias>, b: string, ident: Lexicon)
    requires i < |nodes| && nodes[i] == ImportFrom(Some(m), names, 0) && m != []
    requires j < |names| && names[j].name != [] && names[j].name != ["*"]
    requires b == if names[j].asname.Some? then names[j].asname.value else names[j].name[0]
    requires IsLast(nodes, i, j, b)
    ensures b in AliasesOf(nodes, ident) && AliasesOf(nodes, ident)[b] == m + names[j].name
  {
    LastIsBound(nodes, i, j, b, ident);
  }

  /** `import a.b as c` and `import a.b`: `c`, or `a`, means `a.b`. */
  lemma ImportBinds(nodes: seq<Node>, i: nat, j: nat, names: seq<Alias>, b: string, ident: Lexicon)
    requires i < |nodes| && nodes[i] == Import(names) && j < |names| && names[j].name != []
    requires b == if names[j].asname.Some? then names[j].asname.value else names[j].name[0]
    requires IsLast(nodes, i, j, b)
    ensures b in AliasesOf(nodes, ident) && AliasesOf(nodes, ident)[b] == names[j].name
  {
    LastIsBound(nodes, i, j, b, ident);
  }

  // ---------- the gate ----------

  lemma ImportedCallee(nodes: seq<Node>, b: string, path: Path, func: Expr, suffix: Path, ident: Lexicon)
    requires LastBrings(nodes, b, path) && IsChain(func) && ChainPath(func) == [b] + suffix
    ensures Resolve(func, AliasesOf(nodes, ident), ident) == Some(path + suffix)
  {
    var i: nat, j: nat :| IsLastFor(nodes, i, j, b, path);
    LastIsBound(nodes, i, j, b, ident);
    Cons(b, suffix);
  }

  /** Calling a forbidden path by a name some import brought, with any attributes behind it, is rejected. */
  lemma ImportedCallRejected(
    files: seq<SourceFile>, f: SourceFile, b: string, path: Path, k: nat, suffix: Path, policy: Policy)
    requires f in files && Inspected(f, policy) && Deterministic(f.boundary) && f.nodes.Some?
    requires LastBrings(f.nodes.value, b, path)
    requires k < |f.nodes.value| && f.nodes.value[k].Expression? && f.nodes.value[k].e.Call?
    requires var func := f.nodes.value[k].e.func; IsChain(func) && ChainPath(func) == [b] + suffix
    requires IsForbidden(path + suffix)
    ensures !Accepts(files, policy)
  {
    ImportedCallee(f.nodes.value, b, path, f.nodes.value[k].e.func, suffix, policy.ident);
    ForbiddenCallRejected(files, f, k, path + suffix, policy);
  }

  const TODAY := Call(Attribute(Name("date"), "today"), [], [])

  /** `from datetime import date`, then `date.today()`. */
  function TodayNodes(): seq<Node> {
    [ImportFrom(Some(["datetime"]), [Alias(["date"], None)], 0), Expression(TODAY)]
  }

  lemma TodayRejected(relative: string, policy: Policy)
    requires relative !in policy.owned
    ensures !Accepts([SourceFile(relative, Core, "", Some(TodayNodes()))], policy)
  {
    var f, nodes := SourceFile(relative, Core, "", Some(TodayNodes())), TodayNodes();
    assert Brings(nodes[0], 0, "date") && Brought(nodes[0], 0) == ["datetime"] + ["date"];
    assert BringsNone(nodes[1], "date");
    assert IsLastFor(nodes, 0, 0, "date", ["datetime"] + ["date"]);
    assert ChainPath(TODAY.func) == ["date"] + ["today"];
    assert ["datetime"] + ["date"] + ["today"] == ["datetime", "date", "today"];
    ImportedCallRejected([f], f, "date", ["datetime"] + ["date"], 1, ["today"], policy);
  }
}
