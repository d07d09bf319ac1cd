/** Chains of assignments `x1 = capability; x2 = x1; ...`, and when the alias map sees through them. */
module AliasChains {
  import opened Sequences
  import opened Wrappers
  import opened PythonTree
  import opened Resolution
  import opened AliasFixpoint

  /** The assignment at a walk position, a name it binds, and the attributes its value takes of the name before. */
  datatype Link = Link(position: nat, name: string, suffix: Path)

  /** What the value of a link reads: the starting path for the first one, else the name before. */
  function ReadPath(links: seq<Link>, start: Path, k: nat): Path
    requires k < |links|
  {
    (if k == 0 then start else [links[k - 1].name]) + links[k].suffix
  }

  ghost predicate Assigns(nodes: seq<Node>, l: Link, read: Path) {
    && l.position < |nodes| && IsPlain(nodes[l.position])
    && l.name in TargetNames(nodes[l.position])
    && IsChain(Value(nodes[l.position]).value) && ChainPath(Value(nodes[l.position]).value) == read
  }

  /** The name is bound by this link, by no other assignment and by no import. */
  ghost predicate BoundOnce(nodes: seq<Node>, l: Link) {
    && l.name !in Imports(nodes) && l.name != "__builtins__"
    && forall i :: 0 <= i < |nodes| && IsPlain(nodes[i]) && l.name in TargetNames(nodes[i]) ==> i == l.position
  }

  ghost predicate IsLink(nodes: seq<Node>, links: seq<Link>, start: Path, k: nat)
    requires k < |links|
  {
    Assigns(nodes, links[k], ReadPath(links, start, k)) && BoundOnce(nodes, links[k])
  }

  ghost predicate IsAliasChain(nodes: seq<Node>, links: seq<Link>, start: Path) {
    && links != [] && start != [] && start[0] !in AssignedNames(nodes)
    && (forall k :: 0 <= k < |links| ==> IsLink(nodes, links, start, k))
    && (forall j, k :: 0 <= j < k < |links| ==> links[j].name != links[k].name)
  }

  /** A link that stands later in the walk than the one it reads. */
  predicate StandsAfter(links: seq<Link>, k: nat)
    requires 0 < k < |links|
  {
    links[k - 1].position < links[k].position
  }

  predicate InWalkOrder(links: seq<Link>) {
    forall k :: 0 < k < |links| ==> StandsAfter(links, k)
  }

  function Names(links: seq<Link>): set<string> {
    set k | 0 <= k < |links| :: links[k].name
  }

  /** The alias map as the first pass has it on reaching a position. */
  function On(nodes: seq<Node>, position: nat, ident: Lexicon): Bindings
    requires position <= |nodes|
  {
    Pass(nodes[..position], Imports(nodes), ident)
  }

  lemma OnExtends(nodes: seq<Node>, i: nat, j: nat, ident: Lexicon)
    requires i <= j <= |nodes|
    ensures Extends(On(nodes, i, ident), On(nodes, j, ident))
    ensures Extends(On(nodes, j, ident), AliasesOf(nodes, ident))
  {
    assert nodes[..j][..i] == nodes[..i];
    PassExtends(nodes[..j], i, Imports(nodes), ident);
    PassExtends(nodes, j, Imports(nodes), ident);
    FirstPassKept(nodes, ident);
  }

  lemma FirstPassKept(nodes: seq<Node>, ident: Lexicon)
    ensures Extends(Pass(nodes, Imports(nodes), ident), AliasesOf(nodes, ident))
  {
    var m := Imports(nodes);
    if Pass(nodes, m, ident) != m {
      Shrinks(nodes, m, ident);
      ClosureIsFixpoint(nodes, Pass(nodes, m, ident), ident);
    }
  }

  lemma AssignedBefore(nodes: seq<Node>, i: nat, x: string)
    requires i <= |nodes|
    ensures x in AssignedNames(nodes[..i])
        <==> exists j :: 0 <= j < i && IsPlain(nodes[j]) && x in TargetNames(nodes[j])
  {
    assert forall j :: 0 <= j < i ==> nodes[..i][j] == nodes[j];
  }

  /** Before its own assignment a once-bound name is unbound. */
  lemma UnboundBefore(nodes: seq<Node>, l: Link, i: nat, ident: Lexicon)
    requires i <= l.position && i <= |nodes| && BoundOnce(nodes, l)
    ensures l.name !in On(nodes, i, ident)
  {
    PassBindsAssigned(nodes[..i], Imports(nodes), ident);
    AssignedBefore(nodes, i, l.name);
  }

  lemma SameLookup(root: string, m: Bindings, m': Bindings)
    requires Extends(m, m') && (root in m' ==> root in m)
    ensures Lookup(root, m') == Lookup(root, m)
  {
  }

  /** A root that nothing assigns keeps meaning what the imports made of it. */
  lemma StableRoot(nodes: seq<Node>, root: string, i: nat, start: Bindings, ident: Lexicon)
    requires root !in AssignedNames(nodes) && i <= |nodes|
    ensures Lookup(root, Pass(nodes[..i], start, ident)) == Lookup(root, start)
  {
    var m := Pass(nodes[..i], start, ident);
    PassBindsAssigned(nodes[..i], start, ident);
    AssignedBefore(nodes, i, root);
    SameLookup(root, start, m);
  }

  /** A link's binding is what its value means when the first pass reaches it. */
  lemma LinkBinding(nodes: seq<Node>, l: Link, read: Path, ident: Lexicon)
    requires Assigns(nodes, l, read) && BoundOnce(nodes, l) && read != []
    ensures l.name in AliasesOf(nodes, ident)
    ensures AliasesOf(nodes, ident)[l.name] == ResolveName(read, On(nodes, l.position, ident))
    ensures l.name in On(nodes, l.position + 1, ident)
  {
    var before := On(nodes, l.position, ident);
    UnboundBefore(nodes, l, l.position, ident);
    PassStep(nodes, l.position, Imports(nodes), ident);
    var path := ResolveName(read, before);
    assert Resolve(Value(nodes[l.position]).value, before, ident) == Some(path);
    assert Step(nodes[l.position], before, ident) == BindAll(TargetNames(nodes[l.position]), path, before);
    OnExtends(nodes, l.position + 1, l.position + 1, ident);
  }

  lemma LinkRead(nodes: seq<Node>, links: seq<Link>, start: Path, k: nat, ident: Lexicon)
    requires IsAliasChain(nodes, links, start) && k < |links|
    ensures IsLink(nodes, links, start, k)
    ensures links[k].name in AliasesOf(nodes, ident)
    ensures AliasesOf(nodes, ident)[links[k].name]
        == ResolveName(ReadPath(links, start, k), On(nodes, links[k].position, ident))
    ensures links[k].name in On(nodes, links[k].position + 1, ident)
  {
    assert IsLink(nodes, links, start, k) && ReadPath(links, start, k) != [];
    LinkBinding(nodes, links[k], ReadPath(links, start, k), ident);
  }

  lemma FirstLink(nodes: seq<Node>, links: seq<Link>, start: Path, ident: Lexicon)
    requires IsAliasChain(nodes, links, start)
    ensures links[0].name in AliasesOf(nodes, ident)
    ensures AliasesOf(nodes, ident)[links[0].name] == ResolveName(start, Imports(nodes)) + links[0].suffix
  {
    LinkRead(nodes, links, start, 0, ident);
    StableRoot(nodes, start[0], links[0].position, Imports(nodes), ident);
    ReadStart(start, links[0].suffix, Imports(nodes), On(nodes, links[0].position, ident));
  }

  lemma ReadStart(start: Path, suffix: Path, m: Bindings, m': Bindings)
    requires start != [] && Lookup(start[0], m') == Lookup(start[0], m)
    ensures ResolveName(start + suffix, m') == ResolveName(start, m) + suffix
  {
    assert (start + suffix)[0] == start[0] && (start + suffix)[1..] == start[1..] + suffix;
    Associate(Lookup(start[0], m), start[1..], suffix);
  }

  /** A link that stands before a position is bound there as it stays bound. */
  lemma ReadAfter(nodes: seq<Node>, before: Link, position: nat, ident: Lexicon)
    requires before.position < position <= |nodes| && before.name in On(nodes, before.position + 1, ident)
    ensures before.name in On(nodes, position, ident) && before.name in AliasesOf(nodes, ident)
    ensures On(nodes, position, ident)[before.name] == AliasesOf(nodes, ident)[before.name]
  {
    OnExtends(nodes, before.position + 1, position, ident);
  }

  /** What a link's path is, told by the alias map alone. */
  ghost predicate FollowsAt(final: Bindings, links: seq<Link>, k: nat)
    requires 0 < k < |links|
  {
    var before := links[k - 1].name;
    && before in final && links[k].name in final
    && final[links[k].name] == (if StandsAfter(links, k) then final[before] else [before]) + links[k].suffix
  }

  ghost predicate Follows(final: Bindings, links: seq<Link>, first: Path) {
    && links != [] && links[0].name in final && final[links[0].name] == first
    && forall k :: 0 < k < |links| ==> FollowsAt(final, links, k)
  }

  /** One step of the chain, for whatever map `m` the first pass has on reaching the link. */
  lemma ReadThrough(final: Bindings, m: Bindings, links: seq<Link>, k: nat)
    requires 0 < k < |links| && links[k].name in final && links[k - 1].name in final
    requires final[links[k].name] == ResolveName([links[k - 1].name] + links[k].suffix, m)
    requires links[k - 1].name != "__builtins__"
    requires if StandsAfter(links, k) then links[k - 1].name in m && m[links[k - 1].name] == final[links[k - 1].name]
             else links[k - 1].name !in m
    ensures FollowsAt(final, links, k)
  {
    Cons(links[k - 1].name, links[k].suffix);
  }

  /** What the first pass knows of a name of the chain on reaching a position. */
  lemma EarlierName(nodes: seq<Node>, before: Link, read: Path, position: nat, ident: Lexicon)
    requires Assigns(nodes, before, read) && BoundOnce(nodes, before) && read != [] && position < |nodes|
    ensures before.name in AliasesOf(nodes, ident)
    ensures before.position < position ==>
              before.name in On(nodes, position, ident)
                  && On(nodes, position, ident)[before.name] == AliasesOf(nodes, ident)[before.name]
    ensures before.position >= position ==> before.name !in On(nodes, position, ident)
  {
    LinkBinding(nodes, before, read, ident);
    if before.position < position {
      ReadAfter(nodes, before, position, ident);
    } else {
      UnboundBefore(nodes, before, position, ident);
    }
  }

  /** A later link means the earlier name's path when it stands after it, and the bare earlier name otherwise. */
  lemma NextLink(nodes: seq<Node>, links: seq<Link>, start: Path, k: nat, ident: Lexicon)
    requires IsAliasChain(nodes, links, start) && 0 < k < |links|
    ensures FollowsAt(AliasesOf(nodes, ident), links, k)
  {
    LinkRead(nodes, links, start, k, ident);
    assert IsLink(nodes, links, start, k - 1);
    EarlierName(nodes, links[k - 1], ReadPath(links, start, k - 1), links[k].position, ident);
    ReadThrough(AliasesOf(nodes, ident), On(nodes, links[k].position, ident), links, k);
  }

  lemma ChainFollows(nodes: seq<Node>, links: seq<Link>, start: Path, ident: Lexicon)
    requires IsAliasChain(nodes, links, start)
    ensures Follows(AliasesOf(nodes, ident), links, ResolveName(start, Imports(nodes)) + links[0].suffix)
  {
    FirstLink(nodes, links, start, ident);
    forall k | 0 < k < |links| ensures FollowsAt(AliasesOf(nodes, ident), links, k) {
      NextLink(nodes, links, start, k, ident);
    }
  }

  /** The path a link would have if every link saw the one before. */
  function Extended(first: Path, links: seq<Link>, k: nat): Path
    requires k < |links|
  {
    if k == 0 then first else Extended(first, links, k - 1) + links[k].suffix
  }

  lemma {:induction false} ResolvesInOrder(final: Bindings, links: seq<Link>, first: Path, k: nat)
    requires Follows(final, links, first) && k < |links| && InWalkOrder(links)
    ensures links[k].name in final && final[links[k].name] == Extended(first, links, k)
  {
    if k > 0 {
      ResolvesInOrder(final, links, first, k - 1);
      assert FollowsAt(final, links, k) && StandsAfter(links, k);
    }
  }

  /** After a link out of order, everything further along the chain stays rooted in a name of the chain. */
  lemma {:induction false} BreaksOutOfOrder(final: Bindings, links: seq<Link>, first: Path, broken: nat, k: nat)
    requires Follows(final, links, first) && 0 < broken <= k < |links| && !StandsAfter(links, broken)
    ensures links[k].name in final
    ensures var p := final[links[k].name]; p != [] && p[0] in Names(links)
  {
    assert FollowsAt(final, links, k) && links[k - 1].name in Names(links);
    if k > broken {
      BreaksOutOfOrder(final, links, first, broken, k - 1);
    }
  }

  lemma {:induction false} ExtendedRoot(first: Path, links: seq<Link>, k: nat)
    requires first != [] && k < |links|
    ensures Extended(first, links, k) != [] && Extended(first, links, k)[0] == first[0]
  {
    if k > 0 {
      ExtendedRoot(first, links, k - 1);
    }
  }

  lemma OrderDecides(final: Bindings, links: seq<Link>, first: Path)
    requires Follows(final, links, first) && first != [] && first[0] !in Names(links)
    ensures links[|links| - 1].name in final
    ensures final[links[|links| - 1].name] == Extended(first, links, |links| - 1) <==> InWalkOrder(links)
  {
    var last := |links| - 1;
    ExtendedRoot(first, links, last);
    if InWalkOrder(links) {
      ResolvesInOrder(final, links, first, last);
    } else {
      var broken :| 0 < broken < |links| && !StandsAfter(links, broken);
      BreaksOutOfOrder(final, links, first, broken, last);
    }
  }

  /** The path a chain starts from, as the imports give it, with the attributes every link takes on the way. */
  function ChainMeaning(nodes: seq<Node>, links: seq<Link>, start: Path): Path
    requires start != [] && links != []
  {
    Extended(ResolveName(start, Imports(nodes)) + links[0].suffix, links, |links| - 1)
  }

  /** A chain of any length resolves to the path it starts from exactly when it is written in walk order. */
  lemma ChainResolvesExactlyInWalkOrder(nodes: seq<Node>, links: seq<Link>, start: Path, ident: Lexicon)
    requires IsAliasChain(nodes, links, start)
    requires var root := Lookup(start[0], Imports(nodes)); root != [] && root[0] !in Names(links)
    ensures var last, final := links[|links| - 1].name, AliasesOf(nodes, ident);
            last in final && (final[last] == ChainMeaning(nodes, links, start) <==> InWalkOrder(links))
  {
    ChainFollows(nodes, links, start, ident);
    OrderDecides(AliasesOf(nodes, ident), links, ResolveName(start, Imports(nodes)) + links[0].suffix);
  }
}
