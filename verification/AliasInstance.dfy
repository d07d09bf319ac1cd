/**
 * A file whose alias chain is written against the walk order, and which the gate accepts:
 *
 *   import datetime
 *   if True:
 *       a = datetime.datetime.now
 *   b = a
 *   b()
 *
 * The walk goes breadth first, so that it meets `b = a` before the nested assignment.
 */
module AliasInstance {
  import opened Sequences
  import opened Wrappers
  import opened PythonTree
  import opened Resolution
  import opened AliasFixpoint
  import opened AliasChains
  import opened Architecture
  import opened Layering

  const NOW := Attribute(Attribute(Name("datetime"), "datetime"), "now")
  const CALL := Call(Name("b"), [], [])

  /** The walk after the module and the import. */
  function Body(): seq<Node> {
    [OtherNode, Assign([Name("b")], Name("a")), OtherNode, OtherNode, Expression(OtherExpr([])),
        Assign([Name("a")], NOW),
     Expression(Name("b")), Expression(Name("a")), Expression(CALL), Expression(Name("a")), Expression(NOW),
     Expression(Name("b")), Expression(Attribute(Name("datetime"), "datetime")), Expression(Name("datetime"))]
  }

  function Head(): seq<Node> {
    [OtherNode, Import([Alias(["datetime"], None)])]
  }

  function Nodes(): seq<Node> {
    Head() + Body()
  }

  const LINKS := [Link(7, "a", []), Link(3, "b", [])]
  const START: Path := ["datetime", "datetime", "now"]

  lemma {:induction false} NoMoreImports(head: seq<Node>, more: seq<Node>)
    requires forall i :: 0 <= i < |more| ==> !more[i].Import? && !more[i].ImportFrom?
    ensures Imports(head + more) == Imports(head)
  {
    if more == [] {
      Neutral(head);
    } else {
      var n := |more| - 1;
      NoMoreImports(head, more[..n]);
      assert (head + more)[..|head| + n] == head + more[..n];
    }
  }

  lemma InstanceImports()
    ensures Imports(Nodes()) == map["datetime" := ["datetime"]]
  {
    NoMoreImports(Head(), Body());
    var names := [Alias(["datetime"], None)];
    assert Head()[..1] == [OtherNode] && [OtherNode][..0] == [];
    assert Imports([OtherNode]) == map[];
    assert names[1..] == [];
    assert BindImport(names, map[]) == map["datetime" := ["datetime"]];
  }

  /** Only `a` and `b` are assigned, each once. */
  lemma InstanceAssigns(i: nat)
    requires i < |Nodes()|
    ensures IsPlain(Nodes()[i]) <==> i == 3 || i == 7
    ensures i == 3 ==> TargetNames(Nodes()[i]) == {"b"}
    ensures i == 7 ==> TargetNames(Nodes()[i]) == {"a"}
  {
    assert |Body()| == 14;
    if i == 3 {
      OneTarget(Nodes()[3], "b");
    }
    if i == 7 {
      OneTarget(Nodes()[7], "a");
    }
  }

  lemma OneTarget(node: Node, id: string)
    requires Targets(node) == [Name(id)]
    ensures TargetNames(node) == {id}
  {
    assert Targets(node)[0].id == id;
  }

  lemma InstanceIsChain()
    ensures IsAliasChain(Nodes(), LINKS, START) && !InWalkOrder(LINKS)
  {
    InstanceImports();
    forall i | 0 <= i < |Nodes()|
      ensures IsPlain(Nodes()[i])
          ==> (i == 3 && TargetNames(Nodes()[i]) == {"b"}) || (i == 7 && TargetNames(Nodes()[i]) == {"a"})
    {
      InstanceAssigns(i);
    }
    InstanceLinks();
    assert "a"[0] != "b"[0] && "datetime"[0] != "a"[0] && "datetime"[0] != "b"[0];
    assert START[0] !in AssignedNames(Nodes());
    assert BoundOnce(Nodes(), LINKS[0]) && BoundOnce(Nodes(), LINKS[1]);
    assert IsLink(Nodes(), LINKS, START, 0) && IsLink(Nodes(), LINKS, START, 1);
    assert !StandsAfter(LINKS, 1);
  }

  lemma InstanceLinks()
    ensures Assigns(Nodes(), LINKS[0], ReadPath(LINKS, START, 0))
        && Assigns(Nodes(), LINKS[1], ReadPath(LINKS, START, 1))
  {
    InstanceAssigns(3);
    InstanceAssigns(7);
    Neutral(START);
    assert Nodes()[7] == Assign([Name("a")], NOW) && Nodes()[3] == Assign([Name("b")], Name("a"));
    assert ChainPath(NOW) == START by {
      assert ChainPath(Attribute(Name("datetime"), "datetime")) == ["datetime", "datetime"];
    }
  }

  /** The final map knows `b` by the bare name `a`, although `a` is the clock. */
  lemma InstanceMap(ident: Lexicon)
    ensures var final := AliasesOf(Nodes(), ident);
            && "datetime" in final && final["datetime"] == ["datetime"]
            && "b" in final && final["b"] == ["a"]
  {
    InstanceIsChain();
    InstanceImports();
    AliasesAreClosed(Nodes(), ident);
    ChainFollows(Nodes(), LINKS, START, ident);
    assert FollowsAt(AliasesOf(Nodes(), ident), LINKS, 1) && !StandsAfter(LINKS, 1);
    assert ["a"] + [] == ["a"];
  }

  function InstanceFile(): SourceFile {
    SourceFile("src/digital_colleagues/core/clock.py", Core, "", Some(Nodes()))
  }

  /** What clean means for each node of the instance, given what the final map says of the two names. */
  lemma InstanceNodeIsClean(i: nat, final: Bindings, ident: Lexicon)
    requires i < |Nodes()|
    requires "datetime" in final && final["datetime"] == ["datetime"] && "b" in final && final["b"] == ["a"]
    ensures CleanNode(Core, Nodes()[i], final, ident)
  {
    var node := Nodes()[i];
    assert |Body()| == 14;
    if i == 1 {
      ImportIsClean();
    } else {
      assert ImportedModules(node) == [];
      if node.Expression? {
        ExpressionIsClean(node.e, final, ident);
      }
    }
  }

  lemma ImportIsClean()
    ensures CleanImport(Core, Import([Alias(["datetime"], None)]))
  {
    assert ImportedModules(Import([Alias(["datetime"], None)])) == [["datetime"]];
    assert |"datetime"| != |PRODUCT| && "datetime" in StdlibAllowed(Core);
    assert CleanModule(Core, ["datetime"]);
  }

  lemma ExpressionIsClean(e: Expr, final: Bindings, ident: Lexicon)
    requires e in {OtherExpr([]), Name("a"), Name("b"), CALL, NOW, Attribute(Name("datetime"), "datetime"),
        Name("datetime")}
    requires "datetime" in final && final["datetime"] == ["datetime"] && "b" in final && final["b"] == ["a"]
    ensures CleanExpression(e, final, ident)
  {
    if e.Name? {
      assert |"__builtins__"| == 12;
    }
    if e == CALL {
      CallIsClean(final, ident);
    }
    if e.Attribute? {
      AttributeIsClean(e, final, ident);
    }
  }

  lemma CallIsClean(final: Bindings, ident: Lexicon)
    requires "b" in final && final["b"] == ["a"]
    ensures CleanCall(CALL, final, ident)
  {
    PlainName("b", final, ident);
    NoHelperName("a");
  }

  /** A name of one letter is no helper and heads no forbidden path. */
  lemma NoHelperName(name: string)
    requires |name| == 1
    ensures !IsForbidden([name]) && !IsReflectionEntry([name]) && !IsGetattr([name])
  {
    assert |"getattr"| == 7 && |"vars"| == 4 && |"globals"| == 7 && |"locals"| == 6;
    OneLetterIsInnocent(name);
    InnocentHead([name]);
  }

  lemma OneLetterIsInnocent(name: string)
    requires |name| == 1
    ensures Innocent(name)
  {
  }

  lemma AttributeIsClean(e: Expr, final: Bindings, ident: Lexicon)
    requires e == NOW || e == Attribute(Name("datetime"), "datetime")
    requires "datetime" in final && final["datetime"] == ["datetime"]
    ensures CleanAttribute(e, final, ident)
  {
    PlainName("datetime", final, ident);
    ResolveChain(Name("datetime"), "datetime", final, ident);
    ResolveChain(Attribute(Name("datetime"), "datetime"), "now", final, ident);
    assert !IsDunder("now") && !IsDunder("datetime") && "datetime"[0] != REFLECTION_NAMESPACE[0];
    assert Resolve(e, final, ident).value == if e == NOW then START else ["datetime", "datetime"];
  }

  /** The chain reaches the clock against the walk order: the gate accepts the file although it calls the clock. */
  lemma OutOfOrderChainAccepted(policy: Policy)
    ensures IsAliasChain(Nodes(), LINKS, START) && !InWalkOrder(LINKS)
    ensures IsForbidden(ChainMeaning(Nodes(), LINKS, START)) && Nodes()[10] == Expression(CALL)
    ensures Accepts([InstanceFile()], policy)
  {
    InstanceIsChain();
    InstanceMeaning();
    InstanceFileIsClean(policy);
  }

  lemma InstanceNodesAreClean(final: Bindings, ident: Lexicon)
    requires "datetime" in final && final["datetime"] == ["datetime"] && "b" in final && final["b"] == ["a"]
    ensures CleanNodes(Core, Nodes(), final, ident)
  {
    forall i | 0 <= i < |Nodes()| ensures CleanNode(Core, Nodes()[i], final, ident) {
      InstanceNodeIsClean(i, final, ident);
    }
  }

  lemma InstanceFileIsClean(policy: Policy)
    ensures CleanFile(InstanceFile(), policy)
  {
    InstanceMap(policy.ident);
    InstanceNodesAreClean(AliasesOf(Nodes(), policy.ident), policy.ident);
  }

  lemma InstanceMeaning()
    ensures ChainMeaning(Nodes(), LINKS, START) == START && IsForbidden(START)
  {
    InstanceImports();
    assert START[1..] == ["datetime", "now"] && ["datetime"] + ["datetime", "now"] == START;
    Neutral(START);
    assert Extended(START, LINKS, 0) == START && Extended(START, LINKS, 1) == START + [];
  }
}
