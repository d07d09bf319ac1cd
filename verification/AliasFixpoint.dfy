/** The alias map of one file: what imports bind, closed under plain assignments. */
module AliasFixpoint {
  import opened Sequences
  import opened Wrappers
  import opened PythonTree
  import opened Resolution

  // ---------- imports ----------

  function BindImport(names: seq<Alias>, m: Bindings): Bindings {
    if names == [] then m
    else
      var item := names[0];
      var bound := if item.asname.Some? then item.asname.value else if item.name == [] then "" else item.name[0];
      BindImport(names[1..], m[bound := item.name])
  }

  function BindFrom(source: Path, names: seq<Alias>, m: Bindings): Bindings {
    if names == [] then m
    else
      var item := names[0];
      var bound := if item.asname.Some? then item.asname.value else if item.name == [] then "" else item.name[0];
      BindFrom(source, names[1..], if item.name == ["*"] then m else m[bound := source + item.name])
  }

  function ImportStep(node: Node, m: Bindings): Bindings {
    match node
    case Import(names) => BindImport(names, m)
    case ImportFrom(source, names, level) =>
      if level == 0 && source.Some? && source.value != [] then BindFrom(source.value, names, m) else m
    case _ => m
  }

  /** Later imports rebind a name, as the loop over the walk does. */
  function Imports(nodes: seq<Node>): Bindings {
    if nodes == [] then map[] else ImportStep(nodes[|nodes| - 1], Imports(nodes[..|nodes| - 1]))
  }

  // ---------- assignments ----------

  function Targets(node: Node): seq<Expr> {
    match node
    case Assign(targets, _) => targets
    case AnnAssign(target, _) => [target]
    case _ => []
  }

  function Value(node: Node): Option<Expr> {
    match node
    case Assign(_, value) => Some(value)
    case AnnAssign(_, annotated) => annotated
    case _ => None
  }

  /** An assignment of some value to plain names only. */
  predicate IsPlain(node: Node) {
    Value(node).Some? && forall i :: 0 <= i < |Targets(node)| ==> Targets(node)[i].Name?
  }

  function TargetNames(node: Node): (names: set<string>)
    ensures forall i :: 0 <= i < |Targets(node)| && Targets(node)[i].Name? ==> Targets(node)[i].id in names
  {
    set i | 0 <= i < |Targets(node)| && Targets(node)[i].Name? :: Targets(node)[i].id
  }

  function AssignedNames(nodes: seq<Node>): set<string> {
    set i, x | 0 <= i < |nodes| && IsPlain(nodes[i]) && x in TargetNames(nodes[i]) :: x
  }

  /** Every name of the set that is still free is bound to the path; bound names keep what they have. */
  function BindAll(names: set<string>, path: Path, m: Bindings): (m': Bindings)
    ensures m'.Keys == m.Keys + names
    ensures forall x :: x in m ==> m'[x] == m[x]
    ensures forall x :: x in names && x !in m ==> m'[x] == path
  {
    map x | x in m.Keys + names :: if x in m then m[x] else path
  }

  function Step(node: Node, m: Bindings, ident: Lexicon): (m': Bindings)
    ensures m.Keys <= m'.Keys && forall x :: x in m ==> m'[x] == m[x]
  {
    if !IsPlain(node) then m
    else match Resolve(Value(node).value, m, ident)
      case None => m
      case Some(path) => BindAll(TargetNames(node), path, m)
  }

  /** One pass over the walk. */
  function Pass(nodes: seq<Node>, m: Bindings, ident: Lexicon): (m': Bindings)
    ensures m.Keys <= m'.Keys && forall x :: x in m ==> m'[x] == m[x]
  {
    if nodes == [] then m
    else Step(nodes[|nodes| - 1], Pass(nodes[..|nodes| - 1], m, ident), ident)
  }

  /** The names a node can bind. */
  function Assigned(node: Node): set<string> {
    if IsPlain(node) then TargetNames(node) else {}
  }

  lemma StepBindsAssigned(node: Node, m: Bindings, ident: Lexicon)
    ensures Step(node, m, ident).Keys <= m.Keys + Assigned(node)
  {
  }

  lemma AssignedParts(nodes: seq<Node>)
    requires nodes != []
    ensures AssignedNames(nodes[..|nodes| - 1]) + Assigned(nodes[|nodes| - 1]) <= AssignedNames(nodes)
  {
    var n := |nodes| - 1;
    forall x | x in AssignedNames(nodes[..n]) ensures x in AssignedNames(nodes) {
      var i :| 0 <= i < n && IsPlain(nodes[..n][i]) && x in TargetNames(nodes[..n][i]);
      assert nodes[..n][i] == nodes[i];
    }
  }

  lemma {:induction false} PassBindsAssigned(nodes: seq<Node>, m: Bindings, ident: Lexicon)
    ensures Pass(nodes, m, ident).Keys <= m.Keys + AssignedNames(nodes)
  {
    if nodes != [] {
      var n := |nodes| - 1;
      PassBindsAssigned(nodes[..n], m, ident);
      StepBindsAssigned(nodes[n], Pass(nodes[..n], m, ident), ident);
      AssignedParts(nodes);
    }
  }

  /** A pass that changes the map leaves fewer assigned names free. */
  lemma Shrinks(nodes: seq<Node>, m: Bindings, ident: Lexicon)
    ensures var m' := Pass(nodes, m, ident);
            m' == m || AssignedNames(nodes) - m'.Keys < AssignedNames(nodes) - m.Keys
  {
    var m' := Pass(nodes, m, ident);
    PassBindsAssigned(nodes, m, ident);
    if m'.Keys == m.Keys {
      assert m' == m;
    } else {
      var x :| x in m' && x !in m;
      assert x in AssignedNames(nodes) - m.Keys && x !in AssignedNames(nodes) - m'.Keys;
    }
  }

  /** Passes are repeated until one binds nothing. */
  function Closure(nodes: seq<Node>, m: Bindings, ident: Lexicon): Bindings
    decreases AssignedNames(nodes) - m.Keys
  {
    var m' := Pass(nodes, m, ident);
    if m' == m then m
    else
      Shrinks(nodes, m, ident);
      Closure(nodes, m', ident)
  }

  /** The passes until one binds nothing, that one included: each pass before it uses up a free assigned name. */
  ghost function Rounds(nodes: seq<Node>, m: Bindings, ident: Lexicon): (rounds: nat)
    ensures 1 <= rounds <= |AssignedNames(nodes) - m.Keys| + 1
    decreases AssignedNames(nodes) - m.Keys
  {
    var m' := Pass(nodes, m, ident);
    if m' == m then 1
    else
      Shrinks(nodes, m, ident);
      ProperSubset(AssignedNames(nodes) - m'.Keys, AssignedNames(nodes) - m.Keys);
      1 + Rounds(nodes, m', ident)
  }

  lemma ProperSubset<T>(a: set<T>, b: set<T>)
    requires a < b
    ensures |a| < |b|
  {
    assert b == a + (b - a);
    var x :| x in b - a;
  }

  function AliasesOf(nodes: seq<Node>, ident: Lexicon): Bindings {
    Closure(nodes, Imports(nodes), ident)
  }

  // ---------- the computation ----------

  /** The first loop: imports, in walk order. */
  method ComputeImports(nodes: seq<Node>) returns (aliases: Bindings)
    ensures aliases == Imports(nodes)
  {
    aliases := map[];
    for i := 0 to |nodes|
      invariant aliases == Imports(nodes[..i])
    {
      aliases := ImportStep(nodes[i], aliases);
      TakeStep(nodes, i);
    }
    Neutral(nodes);
  }

  /** One node of the walk: bind its targets when its value resolves, and say whether that bound anything. */
  method ComputeStep(node: Node, m: Bindings, ident: Lexicon) returns (m': Bindings, bound: bool)
    ensures m' == Step(node, m, ident)
    ensures bound <==> m'.Keys != m.Keys
  {
    m', bound := m, false;
    if IsPlain(node) {
      var resolved := Resolve(Value(node).value, m, ident);
      if resolved.Some? {
        m' := BindTargets(Targets(node), resolved.value, m);
        assert (set i | 0 <= i < |Targets(node)| :: Targets(node)[i].id) == TargetNames(node);
        bound := m'.Keys != m.Keys;
      }
    }
  }

  /** The body of the second loop: one pass, and whether it bound anything. */
  method ComputePass(nodes: seq<Node>, before: Bindings, ident: Lexicon) returns (aliases: Bindings, changed: bool)
    ensures aliases == Pass(nodes, before, ident)
    ensures changed <==> aliases != before
  {
    aliases := before;
    changed := false;
    for i := 0 to |nodes|
      invariant aliases == Pass(nodes[..i], before, ident)
      invariant changed <==> aliases.Keys != before.Keys
    {
      PassStep(nodes, i, before, ident);
      var bound;
      ghost var keys := aliases.Keys;
      aliases, bound := ComputeStep(nodes[i], aliases, ident);
      KeysGrow(before.Keys, keys, aliases.Keys);
      changed := changed || bound;
    }
    Neutral(nodes);
    SameKeysSamePass(nodes, before, ident);
  }

  lemma SameKeysSamePass(nodes: seq<Node>, m: Bindings, ident: Lexicon)
    ensures Pass(nodes, m, ident) == m <==> Pass(nodes, m, ident).Keys == m.Keys
  {
  }

  /** Keys that only grow have changed exactly when one of the steps changed them. */
  lemma KeysGrow(a: set<string>, b: set<string>, c: set<string>)
    requires a <= b <= c
    ensures c != a <==> b != a || c != b
  {
  }

  lemma PassStep(nodes: seq<Node>, i: nat, m: Bindings, ident: Lexicon)
    requires i < |nodes|
    ensures Pass(nodes[..i + 1], m, ident) == Step(nodes[i], Pass(nodes[..i], m, ident), ident)
  {
    TakeStep(nodes, i);
  }

  /** The alias map, with the number of passes the second loop makes. */
  method ComputeAliases(nodes: seq<Node>, ident: Lexicon) returns (aliases: Bindings, ghost passes: nat)
    ensures aliases == AliasesOf(nodes, ident)
    ensures passes == Rounds(nodes, Imports(nodes), ident)
    ensures 1 <= passes <= |AssignedNames(nodes)| + 1
  {
    aliases := ComputeImports(nodes);
    passes := 0;
    var changed := true;
    FewerElements(AssignedNames(nodes) - aliases.Keys, AssignedNames(nodes));
    while changed
      invariant AliasesOf(nodes, ident) == if changed then Closure(nodes, aliases, ident) else aliases
      invariant Rounds(nodes, Imports(nodes), ident)
             == passes + if changed then Rounds(nodes, aliases, ident) else 0
      decreases changed, AssignedNames(nodes) - aliases.Keys
    {
      Shrinks(nodes, aliases, ident);
      aliases, changed := ComputePass(nodes, aliases, ident);
      passes := passes + 1;
    }
  }

  lemma {:induction false} FewerElements<T>(a: set<T>, b: set<T>)
    requires a <= b
    ensures |a| <= |b|
  {
    assert b == a + (b - a);
  }

  /** The innermost loop: a target that is bound already is left alone. */
  method BindTargets(targets: seq<Expr>, path: Path, aliases: Bindings) returns (updated: Bindings)
    requires forall i :: 0 <= i < |targets| ==> targets[i].Name?
    ensures updated == BindAll(set i | 0 <= i < |targets| :: targets[i].id, path, aliases)
  {
    updated := aliases;
    for i := 0 to |targets|
      invariant updated == BindAll(set j | 0 <= j < i :: targets[j].id, path, aliases)
    {
      ghost var done := set j | 0 <= j < i :: targets[j].id;
      if targets[i].id !in updated {
        updated := updated[targets[i].id := path];
      }
      assert (set j | 0 <= j < i + 1 :: targets[j].id) == done + {targets[i].id};
    }
  }

  // ---------- what the closure guarantees ----------

  lemma {:induction false} PassExtends(nodes: seq<Node>, i: nat, m: Bindings, ident: Lexicon)
    requires i <= |nodes|
    ensures Extends(Pass(nodes[..i], m, ident), Pass(nodes, m, ident))
    decreases |nodes| - i
  {
    if i < |nodes| {
      PassStep(nodes, i, m, ident);
      PassExtends(nodes, i + 1, m, ident);
    } else {
      Neutral(nodes);
    }
  }

  /** Nothing bound in `m` is bound otherwise in `m'`. */
  predicate Extends(m: Bindings, m': Bindings) {
    m.Keys <= m'.Keys && forall x :: x in m ==> m'[x] == m[x]
  }

  lemma Squeezed(m: Bindings, m': Bindings)
    requires Extends(m, m') && Extends(m', m)
    ensures m == m'
  {
    assert m.Keys == m'.Keys;
  }

  /** A pass that binds nothing leaves every single node with nothing to bind. */
  lemma StableNode(nodes: seq<Node>, i: nat, m: Bindings, ident: Lexicon)
    requires i < |nodes| && Pass(nodes, m, ident) == m
    ensures Step(nodes[i], m, ident) == m
  {
    PassExtends(nodes, i, m, ident);
    Squeezed(m, Pass(nodes[..i], m, ident));
    PassStep(nodes, i, m, ident);
    PassExtends(nodes, i + 1, m, ident);
    Squeezed(m, Pass(nodes[..i + 1], m, ident));
  }

  lemma {:induction false} ClosureIsFixpoint(nodes: seq<Node>, m: Bindings, ident: Lexicon)
    ensures Pass(nodes, Closure(nodes, m, ident), ident) == Closure(nodes, m, ident)
    ensures Extends(m, Closure(nodes, m, ident))
    decreases AssignedNames(nodes) - m.Keys
  {
    var m' := Pass(nodes, m, ident);
    if m' != m {
      Shrinks(nodes, m, ident);
      ClosureIsFixpoint(nodes, m', ident);
    }
  }

  /** Every binding comes from an import or from an assignment whose value resolved that way when it was visited. */
  ghost predicate Justified(nodes: seq<Node>, start: Bindings, m: Bindings, ident: Lexicon, x: string)
    requires x in m
  {
    (x in start && m[x] == start[x])
    || exists i, seen: Bindings :: 0 <= i < |nodes| && Witness(nodes[i], seen, m, ident, x)
  }

  ghost predicate Witness(node: Node, seen: Bindings, m: Bindings, ident: Lexicon, x: string)
    requires x in m
  {
    && IsPlain(node) && x in TargetNames(node) && x !in seen && Extends(seen, m)
    && Resolve(Value(node).value, seen, ident) == Some(m[x])
  }

  lemma StepBinds(node: Node, m: Bindings, ident: Lexicon, x: string)
    requires x in Step(node, m, ident) && x !in m
    ensures IsPlain(node) && x in TargetNames(node)
    ensures Resolve(Value(node).value, m, ident) == Some(Step(node, m, ident)[x])
  {
  }

  lemma {:induction false} FirstTrue(p: nat -> bool, k: nat) returns (i: nat)
    requires p(k) && !p(0)
    ensures i < k && !p(i) && p(i + 1)
  {
    i := k - 1;
    if p(i) {
      i := FirstTrue(p, i);
    }
  }

  /** The node at which a pass binds a name. */
  lemma BindingNode(nodes: seq<Node>, m: Bindings, ident: Lexicon, x: string) returns (i: nat)
    requires x in Pass(nodes, m, ident) && x !in m
    ensures i < |nodes| && x !in Pass(nodes[..i], m, ident) && x in Pass(nodes[..i + 1], m, ident)
  {
    Neutral(nodes);
    assert nodes[..0] == [];
    i := FirstTrue((j: nat) => j <= |nodes| && x in Pass(nodes[..j], m, ident), |nodes|);
  }

  lemma PassJustifies(nodes: seq<Node>, start: Bindings, m: Bindings, last: Bindings, ident: Lexicon, x: string)
    requires x in Pass(nodes, m, ident) && x !in m && Extends(Pass(nodes, m, ident), last)
    ensures Justified(nodes, start, last, ident, x)
  {
    var i := BindingNode(nodes, m, ident, x);
    var seen := Pass(nodes[..i], m, ident);
    PassStep(nodes, i, m, ident);
    StepBinds(nodes[i], seen, ident, x);
    PassExtends(nodes, i, m, ident);
    PassExtends(nodes, i + 1, m, ident);
    assert Witness(nodes[i], seen, last, ident, x);
  }

  lemma {:induction false} ClosureJustifies(nodes: seq<Node>, start: Bindings, m: Bindings, ident: Lexicon, x: string)
    requires x in Closure(nodes, m, ident)
    requires x in m ==> Justified(nodes, start, Closure(nodes, m, ident), ident, x)
    ensures Justified(nodes, start, Closure(nodes, m, ident), ident, x)
    decreases AssignedNames(nodes) - m.Keys
  {
    var m' := Pass(nodes, m, ident);
    if m' != m {
      Shrinks(nodes, m, ident);
      ClosureIsFixpoint(nodes, m', ident);
      if x in m' && x !in m {
        PassJustifies(nodes, start, m, Closure(nodes, m, ident), ident, x);
      }
      ClosureJustifies(nodes, start, m', ident, x);
    }
  }

  /** Every plain assignment whose value resolves under the map has all its targets bound. */
  ghost predicate BindsTargets(nodes: seq<Node>, m: Bindings, ident: Lexicon) {
    forall i :: 0 <= i < |nodes| && IsPlain(nodes[i]) && Resolve(Value(nodes[i]).value, m, ident).Some?
                ==> TargetNames(nodes[i]) <= m.Keys
  }

  ghost predicate AllJustified(nodes: seq<Node>, start: Bindings, m: Bindings, ident: Lexicon) {
    forall x :: x in m ==> Justified(nodes, start, m, ident, x)
  }

  lemma StableBinds(nodes: seq<Node>, m: Bindings, ident: Lexicon)
    requires Pass(nodes, m, ident) == m
    ensures BindsTargets(nodes, m, ident)
  {
    forall i | 0 <= i < |nodes| && IsPlain(nodes[i]) && Resolve(Value(nodes[i]).value, m, ident).Some?
      ensures TargetNames(nodes[i]) <= m.Keys
    {
      StableNode(nodes, i, m, ident);
    }
  }

  lemma ClosureIsJustified(nodes: seq<Node>, start: Bindings, ident: Lexicon)
    ensures AllJustified(nodes, start, Closure(nodes, start, ident), ident)
  {
    ClosureIsFixpoint(nodes, start, ident);
    forall x | x in Closure(nodes, start, ident)
      ensures Justified(nodes, start, Closure(nodes, start, ident), ident, x)
    {
      ClosureJustifies(nodes, start, start, ident, x);
    }
  }

  /**
   * The alias map is a closed fixpoint: a plain assignment whose value resolves under the final map has all its
   * targets bound. Import bindings are never overwritten, and every other binding is justified.
   */
  lemma AliasesAreClosed(nodes: seq<Node>, ident: Lexicon)
    ensures var final := AliasesOf(nodes, ident);
            && Extends(Imports(nodes), final)
            && BindsTargets(nodes, final, ident)
            && AllJustified(nodes, Imports(nodes), final, ident)
  {
    ClosureIsFixpoint(nodes, Imports(nodes), ident);
    StableBinds(nodes, AliasesOf(nodes, ident), ident);
    ClosureIsJustified(nodes, Imports(nodes), ident);
  }
}
