/** The tests of the architecture gate told by the texts they look at, and what they say of single nodes. */
module ArchitectureTexts {
  import opened Sequences
  import opened Wrappers
  import opened Text
  import opened PythonTree
  import opened Resolution
  import opened AliasFixpoint
  import opened Architecture
  import opened AliasStability

  // ---------- names between underscores ----------

  /** Two underscores on either side of something. */
  ghost predicate Underscored(attr: string) {
    exists x :: x != "" && attr == "__" + x + "__"
  }

  lemma IsDunderExactly(attr: string)
    ensures IsDunder(attr) <==> Underscored(attr)
  {
    if IsDunder(attr) {
      var x := attr[2..|attr| - 2];
      assert attr[|attr| - 2..] == "__" && attr[..2] == "__";
      assert attr == "__" + x + "__";
    }
    if Underscored(attr) {
      var x :| x != "" && attr == "__" + x + "__";
      assert attr[|attr| - 2..] == "__";
    }
  }

  /** A path reaches into reflection: by way of the namespace, or by an underscored name, one path excepted. */
  lemma IsReflectionExactly(p: Path)
    ensures IsReflection(p) <==>
              || (p != [] && p[0] == REFLECTION_NAMESPACE)
              || (p != ["object", "__setattr__"] && exists i :: 0 <= i < |p| && Underscored(p[i]))
  {
    forall i | 0 <= i < |p| ensures IsDunder(p[i]) <==> Underscored(p[i]) {
      IsDunderExactly(p[i]);
    }
  }

  /** Taking an underscored attribute is listed unless it is the one of `object` that frozen classes need. */
  lemma UnderscoredListed(b: Boundary, e: Expr, aliases: Bindings, ident: Lexicon)
    requires Deterministic(b) && e.Attribute? && Underscored(e.attr)
    ensures CleanNode(b, Expression(e), aliases, ident)
            <==> Resolve(e, aliases, ident) == Some(["object", "__setattr__"])
  {
    IsDunderExactly(e.attr);
    assert CleanImport(b, Expression(e)) by { assert ImportedModules(Expression(e)) == []; }
    if Resolve(e, aliases, ident) == Some(SETATTR) {
      assert SETATTR[0] == "object" && REFLECTION_NAMESPACE[0] == '<';
    }
  }

  // ---------- imports ----------

  /** Of an import from somewhere: it is absolute, names a module, and takes no star. */
  lemma FromImportClean(b: Boundary, source: Option<Path>, names: seq<Alias>, level: nat)
    ensures CleanImport(b, ImportFrom(source, names, level)) <==>
              && level == 0 && source.Some? && (forall j :: 0 <= j < |names| ==> names[j].name != ["*"])
              && CleanModule(b, source.value)
  {
    var node := ImportFrom(source, names, level);
    if level == 0 && source.Some? {
      var modules := ImportedModules(node);
      assert modules == [source.value] && modules[0] == source.value;
      assert CleanModules(b, modules) <==> CleanModule(b, source.value);
    }
    assert HasWildcard(names) <==> exists j :: 0 <= j < |names| && names[j].name == ["*"];
  }

  lemma ImportClean(b: Boundary, names: seq<Alias>)
    ensures CleanImport(b, Import(names)) <==> forall j :: 0 <= j < |names| ==> CleanModule(b, names[j].name)
  {
    var modules := ImportedModules(Import(names));
    assert |modules| == |names|;
    forall j | 0 <= j < |names| ensures modules[j] == names[j].name {
    }
  }

  lemma PackageDotFree(b: Boundary)
    ensures Package(b) != [] && DotFree(Package(b))
  {
    assert '.' !in PRODUCT;
  }

  ghost predicate UnderPackage(m: Path, b: Boundary) {
    DottedText(m) == DottedText(Package(b)) || StartsWith(DottedText(m), DottedText(Package(b)) + ".")
  }

  /** A product module may be imported exactly when its dotted name is that of an allowed package or lies under it. */
  lemma InternalAllowedExactly(b: Boundary, m: Path)
    requires m != [] && DotFree(m)
    ensures InternalAllowed(b, m) <==> exists other :: other in Allowed(b) && UnderPackage(m, other)
  {
    forall other ensures Package(other) <= m <==> UnderPackage(m, other) {
      PackageDotFree(other);
      DottedPrefix(Package(other), m);
    }
  }

  // ---------- assignments ----------

  /** An assignment to plain names, annotated or not, binds each of them once its value resolves. */
  lemma AssignmentBinds(nodes: seq<Node>, i: nat, value: Expr, x: string, ident: Lexicon)
    requires i < |nodes| && Resolve(value, AliasesOf(nodes, ident), ident).Some?
    requires
      || nodes[i] == AnnAssign(Name(x), Some(value))
      || (nodes[i].Assign? && nodes[i].value == value && Name(x) in nodes[i].targets
          && forall t :: t in nodes[i].targets ==> t.Name?)
    ensures x in AliasesOf(nodes, ident)
  {
    AliasesAreClosed(nodes, ident);
    var node := nodes[i];
    assert IsPlain(node);
    var j :| 0 <= j < |Targets(node)| && Targets(node)[j] == Name(x);
    assert x in TargetNames(node);
    assert BindsTargets(nodes, AliasesOf(nodes, ident), ident);
  }

  // ---------- ports ----------

  ghost predicate Holds(text: string, token: string) {
    exists before, after :: text == before + token + after
  }

  lemma ContainsHolds(text: string, token: string)
    ensures Contains(text, token) <==> Holds(text, token)
  {
    if Contains(text, token) {
      var i :| 0 <= i <= |text| && token <= text[i..];
      assert text == text[..i] + token + text[i..][|token|..];
    }
    if Holds(text, token) {
      var before, after :| text == before + token + after;
      Associate(before, token, after);
      TakeAppend(before, token + after);
      assert token <= text[|before|..];
    }
  }

  /** A port leaks nothing exactly when no forbidden word stands in its text and no node names a forbidden type. */
  lemma LeaksExactly(f: SourceFile, nodes: seq<Node>, policy: Policy)
    ensures Leaks(f, nodes, policy) == 0 <==>
              && (forall t :: t in policy.portTokens ==> !Holds(f.lowered, t))
              && forall i, x :: 0 <= i < |nodes| && nodes[i] == Expression(Name(x)) ==> x !in policy.portTypes
  {
    forall t ensures Contains(f.lowered, t) <==> Holds(f.lowered, t) {
      ContainsHolds(f.lowered, t);
    }
    var tokens, types := LeakedTokens(f, policy), LeakedTypes(nodes, policy);
    if tokens == {} && types == {} {
      forall i, x | 0 <= i < |nodes| && nodes[i] == Expression(Name(x)) ensures x !in policy.portTypes {
        assert x in policy.portTypes ==> x in types;
      }
      forall t | t in policy.portTokens ensures !Holds(f.lowered, t) {
        assert t !in tokens;
      }
    }
  }

  // ---------- references ----------

  /** The name under which Python keeps its builtins means them, as long as nothing binds it. */
  lemma BuiltinsName(aliases: Bindings, ident: Lexicon)
    requires "__builtins__" !in aliases
    ensures Resolve(Name("__builtins__"), aliases, ident) == Some(["builtins"])
  {
    PlainName("__builtins__", aliases, ident);
  }

  /** An item of the builtins or of the dynamic namespace is a reference to what the key names. */
  lemma ItemsExactly(base: Expr, key: string, path: Path, aliases: Bindings, ident: Lexicon)
    requires Resolve(base, aliases, ident) == Some(path) && ident(key)
    requires path == ["builtins"] || (path != [] && path[0] == REFLECTION_NAMESPACE && path[|path| - 1] != "__dict__")
    ensures Resolve(Subscript(base, StringConstant(key)), aliases, ident)
            == Some(if path != ["builtins"] && key == "__builtins__" then ["builtins"] else path + [key])
  {
    assert REFLECTION_NAMESPACE[0] != "builtins"[0];
  }

  /** `globals()` and `locals()`, with whatever arguments, are the dynamic namespace. */
  lemma NamespaceCalls(name: string, args: seq<Expr>, keywords: seq<Expr>, aliases: Bindings, ident: Lexicon)
    requires (name == "globals" || name == "locals") && name !in aliases
    ensures Resolve(Call(Name(name), args, keywords), aliases, ident) == Some([REFLECTION_NAMESPACE])
  {
    var call := Call(Name(name), args, keywords);
    PlainName(name, aliases, ident);
    NotBuiltins(name);
    NamespaceCallsApart([name]);
    CallResolvesTo(call, aliases, ident);
  }

  lemma NotBuiltins(name: string)
    requires name == "globals" || name == "locals"
    ensures name != "__builtins__" && IsNamespaceCall([name])
  {
    assert |"globals"| == 7 && |"locals"| == 6 && |"__builtins__"| == 12;
  }

  // ---------- which files ----------

  /** Code under all boundaries but three must be deterministic. */
  lemma DeterministicExactly(b: Boundary)
    ensures Deterministic(b) <==> b != SqliteAdapter && b != Api && b != Worker
  {
  }

  /** A stable port is a file of the application named `ports.py`, in whatever directory. */
  lemma IsPortExactly(f: SourceFile)
    ensures IsPort(f) <==> f.boundary == Application && exists directory :: f.relative == directory + "/ports.py"
  {
    if IsPort(f) {
      TakeDrop(f.relative, |f.relative| - 9);
      assert f.relative == f.relative[..|f.relative| - 9] + "/ports.py";
    }
    if directory :| f.relative == directory + "/ports.py" {
      TakeAppend(directory, "/ports.py");
    }
  }

  /** A tree is accepted exactly when all its files are clean but those that other phases own. */
  lemma AcceptsExactly(files: seq<SourceFile>, policy: Policy)
    ensures Accepts(files, policy) <==>
              forall f :: f in files && !CleanFile(f, policy) ==> f.relative in policy.owned
  {
    if forall f :: f in files && !CleanFile(f, policy) ==> f.relative in policy.owned {
      forall i | 0 <= i < |files| ensures Passes(files[i], policy) {
        assert files[i] in files;
      }
    }
    if Accepts(files, policy) {
      forall f | f in files && !CleanFile(f, policy) ensures f.relative in policy.owned {
        var i :| 0 <= i < |files| && files[i] == f;
        assert Passes(files[i], policy);
      }
    }
  }
}
