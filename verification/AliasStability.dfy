/** Which new bindings change what an expression resolves to, and which can undo that it resolves at all. */
module AliasStability {
  import opened Wrappers
  import opened PythonTree
  import opened Resolution
  import opened AliasFixpoint

  /** The names an expression's resolution can look up: at the heads of callees, first arguments and bases. */
  function Roots(e: Expr): set<string> {
    match e
    case Name(id) => {id}
    case Attribute(base, _) => Roots(base)
    case Call(func, args, _) => Roots(func) + if args == [] then {} else Roots(args[0])
    case Subscript(base, _) => Roots(base)
    case _ => {}
  }

  ghost predicate SameLookups(names: set<string>, m: Bindings, m': Bindings) {
    forall x :: x in names ==> Lookup(x, m) == Lookup(x, m')
  }

  lemma {:induction false} ChainRoot(e: Expr)
    requires IsChain(e)
    ensures ChainPath(e) != [] && Roots(e) == {ChainPath(e)[0]}
  {
    if e.Attribute? {
      ChainRoot(e.base);
    }
  }

  /** What a call resolves to, told by what its callee and its first argument resolve to. */
  function CallPath(call: Expr, callee: Option<Path>, base: Option<Path>, ident: Lexicon): Option<Path>
    requires call.Call?
  {
    match callee
    case None => None
    case Some(c) =>
      if TakesTwo(call, ident) && (IsGetattr(c) || IsBaseGetattribute(c)) then
        if base.Some? && StaticRoot(base.value) then Some(base.value + [call.args[1].text]) else None
      else if TakesOne(call, ident) && EndsIn(c, "__getattribute__") && !IsBaseGetattribute(c) then
        Some(DropLast(c) + [call.args[0].text])
      else if IsNamespaceCall(c) then Some([REFLECTION_NAMESPACE])
      else if !IsVars(c) then None
      else if |call.args| != 1 || call.keywords != [] || base.None? then Some([REFLECTION_NAMESPACE])
      else Some(base.value + ["__dict__"])
  }

  /** The argument is a literal name that may be taken. */
  predicate NamesField(e: Expr, ident: Lexicon) {
    e.StringConstant? && Takeable(e.text, ident)
  }

  predicate TakesTwo(call: Expr, ident: Lexicon)
    requires call.Call?
  {
    |call.args| == 2 && call.keywords == [] && NamesField(call.args[1], ident)
  }

  predicate TakesOne(call: Expr, ident: Lexicon)
    requires call.Call?
  {
    |call.args| == 1 && call.keywords == [] && NamesField(call.args[0], ident)
  }

  function FirstArgument(call: Expr, m: Bindings, ident: Lexicon): Option<Path>
    requires call.Call?
  {
    if call.args == [] then None else Resolve(call.args[0], m, ident)
  }

  lemma NamespaceCallsApart(callee: Path)
    requires IsNamespaceCall(callee)
    ensures !IsGetattr(callee) && !IsBaseGetattribute(callee) && !EndsIn(callee, "__getattribute__")
  {
    assert "globals"[1] != "getattr"[1] && "locals"[0] != "getattr"[0];
    assert "globals"[0] != "__getattribute__"[0] && "locals"[0] != "__getattribute__"[0];
  }

  lemma CallResolvesTo(call: Expr, m: Bindings, ident: Lexicon)
    requires call.Call?
    ensures Resolve(call, m, ident)
        == CallPath(call, Resolve(call.func, m, ident), FirstArgument(call, m, ident), ident)
  {
    var callee := Resolve(call.func, m, ident);
    if callee.Some? {
      var c := callee.value;
      DifferentHelpers(c);
      if IsNamespaceCall(c) {
        NamespaceCallsApart(c);
      }
      assert StaticArguments(call, m, ident) || |call.args| != 2 || call.keywords != [];
    }
  }

  /** The two-argument form, told by what the first argument resolves to. */
  predicate StaticArguments(call: Expr, m: Bindings, ident: Lexicon)
    requires call.Call?
  {
    |call.args| == 2 && call.keywords == [] &&
    StaticAttribute(call, call.args[0], call.args[1], m, ident) ==
    if NamesField(call.args[1], ident) && Resolve(call.args[0], m, ident).Some?
        && StaticRoot(Resolve(call.args[0], m, ident).value)
    then Some(Resolve(call.args[0], m, ident).value + [call.args[1].text]) else None
  }

  /** A resolution looks at nothing but the roots: maps that agree there resolve the expression alike. */
  lemma {:induction false} ResolutionIsLocal(e: Expr, m: Bindings, m': Bindings, ident: Lexicon)
    requires SameLookups(Roots(e), m, m')
    ensures Resolve(e, m, ident) == Resolve(e, m', ident)
  {
    if IsChain(e) {
      ChainRoot(e);
    } else {
      match e
      case Call(func, args, _) =>
        ResolutionIsLocal(func, m, m', ident);
        if args != [] {
          ResolutionIsLocal(args[0], m, m', ident);
        }
        CallResolvesTo(e, m, ident);
        CallResolvesTo(e, m', ident);
      case Subscript(base, _) => ResolutionIsLocal(base, m, m', ident);
      case _ =>
    }
  }

  /** Binding more names, none of them a root, changes nothing; nor does any extension once all roots are bound. */
  lemma UnrelatedBindings(e: Expr, m: Bindings, m': Bindings, ident: Lexicon)
    requires Extends(m, m') && forall x :: x in Roots(e) && x in m' ==> x in m
    ensures Resolve(e, m, ident) == Resolve(e, m', ident)
  {
    ResolutionIsLocal(e, m, m', ident);
  }

  // ---------- what can be undone ----------

  /** Dotted names have at least one segment. */
  ghost predicate NoEmptyPath(m: Bindings) {
    forall x :: x in m ==> m[x] != []
  }

  /** Some further bindings leave the expression unresolved. */
  ghost predicate CanBeUndone(e: Expr, m: Bindings, ident: Lexicon) {
    exists m' :: Undoes(e, m, m', ident)
  }

  ghost predicate Undoes(e: Expr, m: Bindings, m': Bindings, ident: Lexicon) {
    Extends(m, m') && NoEmptyPath(m') && Resolve(e, m', ident).None?
  }

  lemma ChainUnder(e: Expr, m: Bindings, ident: Lexicon)
    requires IsChain(e)
    ensures Resolve(e, m, ident) == Some(Lookup(ChainPath(e)[0], m) + ChainPath(e)[1..])
  {
  }

  /** A name or chain of attributes keeps resolving, whatever is bound. */
  lemma ChainsAreNeverUndone(e: Expr, m: Bindings, ident: Lexicon)
    requires IsChain(e)
    ensures !CanBeUndone(e, m, ident)
  {
  }

  /** The callee is a helper name, or an attribute of a name, and that name is free. */
  predicate FreeCallee(call: Expr, m: Bindings)
    requires call.Call? && IsChain(call.func)
  {
    |ChainPath(call.func)| <= 2 && ChainPath(call.func)[0] !in m
  }

  /** The callee asks for a static base, and the name at the head of that base is free. */
  predicate FreeBase(call: Expr, m: Bindings)
    requires call.Call? && IsChain(call.func)
  {
    && Asks(ResolveName(ChainPath(call.func), m))
    && call.args != [] && IsChain(call.args[0]) && ChainPath(call.args[0])[0] !in m
  }

  predicate Asks(callee: Path) {
    IsGetattr(callee) || IsBaseGetattribute(callee)
  }

  /** A call whose parts are not calls themselves. */
  predicate IsFlat(call: Expr) {
    call.Call? && IsChain(call.func) && (call.args != [] ==> IsChain(call.args[0]) || call.args[0].StringConstant?)
  }

  /** Paths of three segments are no helpers, and `time` owns none. */
  lemma NoHelper(c: Path)
    requires |c| >= 3 || (c != [] && c[0] == "time")
    ensures !Asks(c) && !IsNamespaceCall(c) && !IsVars(c)
  {
    if c != [] && c[0] == "time" {
      assert |"time"| != |"builtins"| && |"time"| != |"getattr"| && "time"[0] != "vars"[0];
      assert |"time"| != |"object"| && |"time"| != |"globals"| && |"time"| != |"locals"|;
      assert "time"[1] != "type"[1];
    }
  }

  /** The callee bound to something else. */
  function OtherCallee(call: Expr, m: Bindings, ident: Lexicon): Bindings
    requires call.Call? && IsChain(call.func)
  {
    m[ChainPath(call.func)[0] := if TakesOne(call, ident) && EndsIn(ChainPath(call.func), "__getattribute__")
        then ["object"] else ["time"]]
  }

  lemma FreeCalleeUndone(call: Expr, m: Bindings, ident: Lexicon)
    requires IsFlat(call) && NoEmptyPath(m) && Resolve(call, m, ident).Some? && FreeCallee(call, m)
    ensures CanBeUndone(call, m, ident)
  {
    var f, m' := ChainPath(call.func), OtherCallee(call, m, ident);
    ChainUnder(call.func, m', ident);
    CallResolvesTo(call, m', ident);
    var c := m'[f[0]] + f[1..];
    if m'[f[0]] == ["time"] {
      NoHelper(c);
    } else {
      assert c == ["object", "__getattribute__"];
      DifferentHelpers(c);
      if IsNamespaceCall(c) {
        NamespaceCallsApart(c);
      }
    }
    assert Undoes(call, m, m', ident);
  }

  lemma FreeBaseUndone(call: Expr, m: Bindings, ident: Lexicon)
    requires IsFlat(call) && NoEmptyPath(m) && Resolve(call, m, ident).Some? && FreeBase(call, m)
        && !FreeCallee(call, m)
    ensures CanBeUndone(call, m, ident)
  {
    var f, y := ChainPath(call.func), ChainPath(call.args[0])[0];
    var m' := m[y := ["object"]];
    ChainUnder(call.func, m, ident);
    assert f[0] in m;
    ChainUnder(call.func, m', ident);
    ChainUnder(call.args[0], m', ident);
    CallResolvesTo(call, m, ident);
    CallResolvesTo(call, m', ident);
    var base := ["object"] + ChainPath(call.args[0])[1..];
    if StaticRoot(base) {
      StaticPathOwner(base);
    }
    AsksOnly(call, ResolveName(f, m), ident);
    assert Undoes(call, m, m', ident);
  }

  /** A callee that asks for a static base serves a call in that form or not at all. */
  lemma AsksOnly(call: Expr, c: Path, ident: Lexicon)
    requires call.Call? && Asks(c)
    ensures forall base ::
              CallPath(call, Some(c), base, ident).Some? <==>
              TakesTwo(call, ident) && base.Some? && StaticRoot(base.value)
  {
    DifferentHelpers(c);
    if IsNamespaceCall(c) {
      NamespaceCallsApart(c);
    }
  }

  /** A callee that does not ask for a base serves a call whatever its first argument means. */
  lemma AsksNothing(call: Expr, c: Path, base: Option<Path>, other: Option<Path>, ident: Lexicon)
    requires call.Call? && !Asks(c) && CallPath(call, Some(c), base, ident).Some?
    ensures CallPath(call, Some(c), other, ident).Some?
  {
  }

  lemma BoundPartsKeep(call: Expr, m: Bindings, m': Bindings, ident: Lexicon)
    requires IsFlat(call) && NoEmptyPath(m) && Resolve(call, m, ident).Some? && Extends(m, m') && NoEmptyPath(m')
    requires !FreeCallee(call, m) && !FreeBase(call, m)
    ensures Resolve(call, m', ident).Some?
  {
    var f := ChainPath(call.func);
    var c, c' := ResolveName(f, m), ResolveName(f, m');
    ChainUnder(call.func, m, ident);
    ChainUnder(call.func, m', ident);
    CallResolvesTo(call, m, ident);
    CallResolvesTo(call, m', ident);
    var base, base' := FirstArgument(call, m, ident), FirstArgument(call, m', ident);
    if f[0] in m {
      assert c' == c;
      if Asks(c) {
        AsksOnly(call, c, ident);
        ChainUnder(call.args[0], m, ident);
        ChainUnder(call.args[0], m', ident);
        assert base' == base;
      } else {
        AsksNothing(call, c, base, base', ident);
      }
    } else {
      assert |c| >= 3 && |c'| >= 3 && c[|c| - 1] == f[|f| - 1] == c'[|c'| - 1];
      NoHelper(c);
      NoHelper(c');
    }
  }

  /**
   * A resolved call of chains can be undone exactly when the name at the head of its callee is free and at most one
   * attribute follows it, or when its callee asks for a static base and the name at the head of that base is free.
   */
  lemma CallUndoneExactly(call: Expr, m: Bindings, ident: Lexicon)
    requires IsFlat(call) && NoEmptyPath(m) && Resolve(call, m, ident).Some?
    ensures CanBeUndone(call, m, ident) <==> FreeCallee(call, m) || FreeBase(call, m)
  {
    if FreeCallee(call, m) {
      FreeCalleeUndone(call, m, ident);
    }
    if FreeBase(call, m) && !FreeCallee(call, m) {
      FreeBaseUndone(call, m, ident);
    }
    if !FreeCallee(call, m) && !FreeBase(call, m) {
      BoundPartsStay(call, m, ident);
    }
  }

  lemma BoundPartsStay(call: Expr, m: Bindings, ident: Lexicon)
    requires IsFlat(call) && NoEmptyPath(m) && Resolve(call, m, ident).Some?
    requires !FreeCallee(call, m) && !FreeBase(call, m)
    ensures !CanBeUndone(call, m, ident)
  {
    forall m' | Extends(m, m') && NoEmptyPath(m') ensures Resolve(call, m', ident).Some? {
      BoundPartsKeep(call, m, m', ident);
    }
  }

  // ---------- nested calls ----------

  /** A chain under any number of two-argument helpers: `getattr(object.__getattribute__(chain, "a"), "b")`, say. */
  predicate IsTower(e: Expr, m: Bindings) {
    || IsChain(e)
    || (e.Call? && IsChain(e.func) && Asks(ResolveName(ChainPath(e.func), m)) && e.args != [] && IsTower(e.args[0], m))
  }

  const ELSEWHERE: Path := ["_"]

  /** A name bound elsewhere is no helper, nor is an attribute of it, and it is no static base. */
  lemma ElsewhereHelpsNot(rest: Path)
    ensures var c := ELSEWHERE + rest; !Asks(c) && !IsNamespaceCall(c) && !IsVars(c) && !StaticRoot(c)
  {
    assert (ELSEWHERE + rest)[0] == "_" && |"_"| == 1;
  }

  /** A free root of a tower bound elsewhere: the tower resolves no more, or to nothing static if it is a chain. */
  lemma {:induction false} TowerLost(e: Expr, m: Bindings, x: string, ident: Lexicon)
    requires IsTower(e, m) && Resolve(e, m, ident).Some? && x in Roots(e) && x !in m
    ensures var r := Resolve(e, m[x := ELSEWHERE], ident); r.None? || (IsChain(e) && !StaticRoot(r.value))
  {
    var m' := m[x := ELSEWHERE];
    if IsChain(e) {
      ChainRoot(e);
      ChainUnder(e, m', ident);
      ElsewhereHelpsNot(ChainPath(e)[1..]);
    } else {
      var f := ChainPath(e.func);
      ChainRoot(e.func);
      ChainUnder(e.func, m, ident);
      ChainUnder(e.func, m', ident);
      CallResolvesTo(e, m, ident);
      CallResolvesTo(e, m', ident);
      AsksOnly(e, ResolveName(f, m), ident);
      if x == f[0] {
        ElsewhereHelpsNot(f[1..]);
      } else {
        TowerLost(e.args[0], m, x, ident);
      }
    }
  }

  /** A resolved tower, however high, can be undone exactly when one of its roots is free. */
  lemma TowerUndoneExactly(e: Expr, m: Bindings, ident: Lexicon)
    requires e.Call? && IsTower(e, m) && NoEmptyPath(m) && Resolve(e, m, ident).Some?
    ensures CanBeUndone(e, m, ident) <==> !(Roots(e) <= m.Keys)
  {
    if Roots(e) <= m.Keys {
      forall m' | Extends(m, m') ensures Resolve(e, m', ident).Some? {
        UnrelatedBindings(e, m, m', ident);
      }
    } else {
      var x :| x in Roots(e) && x !in m;
      TowerLost(e, m, x, ident);
      assert Undoes(e, m, m[x := ELSEWHERE], ident);
    }
  }

  // ---------- items of chains ----------

  /** The paths whose items resolve. */
  predicate HasItems(base: Path) {
    EndsIn(base, "__dict__") || base == ["builtins"] || (base != [] && base[0] == REFLECTION_NAMESPACE)
  }

  lemma ItemResolves(e: Expr, m: Bindings, ident: Lexicon)
    requires e.Subscript? && IsChain(e.base)
    ensures Resolve(e, m, ident).Some?
            <==> LiteralAttribute(e.index, ident).Some? && HasItems(ResolveName(ChainPath(e.base), m))
  {
    ChainUnder(e.base, m, ident);
  }

  lemma TimeHasNoItems(rest: Path)
    ensures HasItems(["time"] + rest) <==> rest != [] && rest[|rest| - 1] == "__dict__"
  {
    var base := ["time"] + rest;
    assert base[0] == "time" && "time"[0] != "builtins"[0] && "time"[0] != REFLECTION_NAMESPACE[0];
  }

  /**
   * A resolved item of a chain can be undone exactly when the chain's
   * first name is free and it does not end in `__dict__`.
   */
  lemma SubscriptUndoneExactly(e: Expr, m: Bindings, ident: Lexicon)
    requires e.Subscript? && IsChain(e.base) && NoEmptyPath(m) && Resolve(e, m, ident).Some?
    ensures CanBeUndone(e, m, ident) <==> ChainPath(e.base)[0] !in m && !EndsIn(ChainPath(e.base), "__dict__")
  {
    var f := ChainPath(e.base);
    ItemResolves(e, m, ident);
    if f[0] !in m && !EndsIn(f, "__dict__") {
      var m' := m[f[0] := ["time"]];
      ItemResolves(e, m', ident);
      TimeHasNoItems(f[1..]);
      assert Undoes(e, m, m', ident);
    } else {
      forall m' | Extends(m, m') && NoEmptyPath(m') ensures Resolve(e, m', ident).Some? {
        ItemResolves(e, m', ident);
        if f[0] !in m {
          DictionaryStays(f, m');
        }
      }
    }
  }

  lemma DictionaryStays(f: Path, m: Bindings)
    requires EndsIn(f, "__dict__") && NoEmptyPath(m)
    ensures HasItems(ResolveName(f, m))
  {
    var base := ResolveName(f, m);
    assert base[|base| - 1] == f[1..][|f| - 2];
  }

  /**
   * An instance: binding the free name `getattr` undoes a call of it, so that resolution is not monotone in the map.
   */
  lemma ResolutionIsNotMonotone(ident: Lexicon)
    requires ident("time")
    ensures var e := Call(Name("getattr"), [Name("time"), StringConstant("time")], []);
            var m' := map["getattr" := ["time"]];
            Extends(map[], m') && Resolve(e, map[], ident) == Some(["time", "time"]) && Resolve(e, m', ident).None?
  {
    var e := Call(Name("getattr"), [Name("time"), StringConstant("time")], []);
    var m': Bindings := map["getattr" := ["time"]];
    var none: Bindings := map[];
    Helper("getattr", "", none, ident);
    PlainName("time", none, ident);
    assert "time"[0] != '_';
    GetattrSpelling(Name("getattr"), Name("time"), ["time"], "time", none, ident);
    assert ["time"] + ["time"] == ["time", "time"];
    PlainName("getattr", m', ident);
    UnknownCallee(e, "time", m', ident);
  }

  /** A call of something that is no reflection helper does not resolve. */
  lemma UnknownCallee(call: Expr, callee: string, m: Bindings, ident: Lexicon)
    requires call.Call? && Resolve(call.func, m, ident) == Some([callee])
    requires callee !in {"getattr", "vars", "globals", "locals"}
    ensures Resolve(call, m, ident).None?
  {
    assert LiteralGetattr(call, m, ident).None?;
    assert LiteralGetattribute(call, m, ident).None?;
    assert ReflectionMapping(call, m, ident).None?;
  }
}
