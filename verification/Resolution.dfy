/** Resolving an expression to a dotted path, through aliases and reflective spellings. */
module Resolution {
  import opened Sequences
  import opened Wrappers
  import opened Text
  import opened PythonTree

  type Bindings = map<string, Path>

  /** `str.isidentifier`. */
  type Lexicon = string -> bool

  const CAPABILITY_ROOTS: set<string> := {
    "aiohttp", "asyncio", "ftplib", "glob", "http", "imaplib", "multiprocessing", "openai", "os", "pathlib",
    "poplib", "random", "requests", "secrets", "shutil", "smtplib", "socket", "sqlite3", "subprocess",
    "tempfile", "time", "urllib", "uuid"
  }

  /** Every standard module some boundary may import. */
  const STDLIB_ROOTS: set<string> := {
    "__future__", "collections", "contextlib", "dataclasses", "datetime", "enum", "hashlib", "json", "math",
    "pathlib", "re", "sqlite3", "threading", "typing"
  }

  const STATIC_GETATTR_ROOTS: set<string> := {"builtins"} + STDLIB_ROOTS + CAPABILITY_ROOTS

  const REFLECTION_NAMESPACE := "<dynamic-reflection-namespace>"

  predicate IsGetattr(callee: Path) {
    callee == ["getattr"] || callee == ["builtins", "getattr"]
  }

  predicate IsBaseGetattribute(callee: Path) {
    callee == ["object", "__getattribute__"] || callee == ["type", "__getattribute__"]
  }

  predicate IsNamespaceCall(callee: Path) {
    || callee == ["globals"] || callee == ["builtins", "globals"]
    || callee == ["locals"] || callee == ["builtins", "locals"]
  }

  predicate IsVars(callee: Path) {
    callee == ["vars"] || callee == ["builtins", "vars"]
  }

  /** The path ends in the given segment, with something in front of it. */
  predicate EndsIn(p: Path, segment: string) {
    |p| >= 2 && p[|p| - 1] == segment
  }

  function DropLast(p: Path): Path
    requires p != []
  {
    p[..|p| - 1]
  }

  /** `aliases.get(root, ...)`: the path behind a plain name. */
  function Lookup(root: string, aliases: Bindings): Path {
    if root in aliases then aliases[root]
    else if root == "__builtins__" then ["builtins"]
    else [root]
  }

  /** A dotted name resolves at its first segment. */
  function ResolveName(name: Path, aliases: Bindings): Path
    requires name != []
  {
    Lookup(name[0], aliases) + name[1..]
  }

  function LiteralAttribute(e: Expr, ident: Lexicon): Option<string> {
    if e.StringConstant? && ident(e.text) then Some(e.text) else None
  }

  function Resolve(e: Expr, aliases: Bindings, ident: Lexicon): Option<Path>
    decreases e, 1
  {
    if IsChain(e) then Some(ResolveName(ChainPath(e), aliases))
    else if e.Call? then
      var a := LiteralGetattr(e, aliases, ident);
      if a.Some? then a
      else
        var b := LiteralGetattribute(e, aliases, ident);
        if b.Some? then b else ReflectionMapping(e, aliases, ident)
    else if e.Subscript? then LiteralSubscript(e, aliases, ident)
    else None
  }

  predicate StaticRoot(path: Path) {
    path != [] && path[0] in STATIC_GETATTR_ROOTS
  }

  function StaticAttribute(call: Expr, base: Expr, attribute: Expr, aliases: Bindings, ident: Lexicon): Option<Path>
    requires base < call
    decreases call, 0, 0
  {
    match LiteralAttribute(attribute, ident)
    case None => None
    case Some(name) =>
      if StartsWith(name, "__") then None
      else match Resolve(base, aliases, ident)
        case None => None
        case Some(path) => if StaticRoot(path) then Some(path + [name]) else None
  }

  function LiteralGetattr(call: Expr, aliases: Bindings, ident: Lexicon): Option<Path>
    requires call.Call?
    decreases call, 0, 1
  {
    var callee := Resolve(call.func, aliases, ident);
    if callee.None? || !IsGetattr(callee.value) || |call.args| != 2 || call.keywords != [] then None
    else StaticAttribute(call, call.args[0], call.args[1], aliases, ident)
  }

  function LiteralGetattribute(call: Expr, aliases: Bindings, ident: Lexicon): Option<Path>
    requires call.Call?
    decreases call, 0, 1
  {
    match Resolve(call.func, aliases, ident)
    case None => None
    case Some(callee) =>
      if IsBaseGetattribute(callee) then
        if |call.args| != 2 || call.keywords != [] then None
        else StaticAttribute(call, call.args[0], call.args[1], aliases, ident)
      else if !EndsIn(callee, "__getattribute__") || |call.args| != 1 || call.keywords != [] then None
      else match LiteralAttribute(call.args[0], ident)
        case None => None
        case Some(name) => if StartsWith(name, "__") then None else Some(DropLast(callee) + [name])
  }

  function ReflectionMapping(call: Expr, aliases: Bindings, ident: Lexicon): Option<Path>
    requires call.Call?
    decreases call, 0, 1
  {
    match Resolve(call.func, aliases, ident)
    case None => None
    case Some(callee) =>
      if IsNamespaceCall(callee) then Some([REFLECTION_NAMESPACE])
      else if !IsVars(callee) then None
      else if |call.args| != 1 || call.keywords != [] then Some([REFLECTION_NAMESPACE])
      else match Resolve(call.args[0], aliases, ident)
        case None => Some([REFLECTION_NAMESPACE])
        case Some(path) => Some(path + ["__dict__"])
  }

  function LiteralSubscript(e: Expr, aliases: Bindings, ident: Lexicon): Option<Path>
    requires e.Subscript?
    decreases e, 0, 1
  {
    match (LiteralAttribute(e.index, ident), Resolve(e.base, aliases, ident))
    case (Some(key), Some(base)) =>
      if EndsIn(base, "__dict__") then Some(DropLast(base) + [key])
      else if base == ["builtins"] then Some(base + [key])
      else if base != [] && base[0] == REFLECTION_NAMESPACE then
        if key == "__builtins__" then Some(["builtins"]) else Some(base + [key])
      else None
    case _ => None
  }

  // ---------- every spelling of an attribute means the same ----------

  datatype Style =
    | Dot
    | Getattr
    | BuiltinsGetattr
    | ObjectGetattribute
    | TypeGetattribute
    | OwnGetattribute
    | VarsItem
    | BuiltinsVarsItem
    | DictItem

  /** An expression, and attributes taken of it one after the other, each in a spelling of its own. */
  datatype Access = Base(e: Expr) | Take(inner: Access, style: Style, field: string)

  function SpellOne(m: Expr, style: Style, field: string): Expr {
    var key := StringConstant(field);
    match style
    case Dot => Attribute(m, field)
    case Getattr => Call(Name("getattr"), [m, key], [])
    case BuiltinsGetattr => Call(Attribute(Name("builtins"), "getattr"), [m, key], [])
    case ObjectGetattribute => Call(Attribute(Name("object"), "__getattribute__"), [m, key], [])
    case TypeGetattribute => Call(Attribute(Name("type"), "__getattribute__"), [m, key], [])
    case OwnGetattribute => Call(Attribute(m, "__getattribute__"), [key], [])
    case VarsItem => Subscript(Call(Name("vars"), [m], []), key)
    case BuiltinsVarsItem => Subscript(Call(Attribute(Name("builtins"), "vars"), [m], []), key)
    case DictItem => Subscript(Attribute(m, "__dict__"), key)
  }

  function Spell(a: Access): Expr {
    match a
    case Base(e) => e
    case Take(inner, style, field) => SpellOne(Spell(inner), style, field)
  }

  /** The path the access means, given what its base means. */
  function Meaning(a: Access, path: Path): Path {
    match a
    case Base(_) => path
    case Take(inner, _, field) => Meaning(inner, path) + [field]
  }

  function BaseOf(a: Access): Expr {
    match a
    case Base(e) => e
    case Take(inner, _, _) => BaseOf(inner)
  }

  /** An identifier that a literal spelling may name. */
  predicate Takeable(field: string, ident: Lexicon) {
    ident(field) && !StartsWith(field, "__")
  }

  /** Styles that put an attribute on the expression itself need a plain chain in front; the others take anything. */
  predicate NeedsChain(style: Style) {
    style.Dot? || style.OwnGetattribute? || style.DictItem?
  }

  predicate Spellable(a: Access, ident: Lexicon) {
    match a
    case Base(_) => true
    case Take(inner, style, field) =>
      && Spellable(inner, ident)
      && Takeable(field, ident)
      && (NeedsChain(style) ==> IsChain(Spell(inner)))
  }

  /** None of the helper names a spelling uses has been bound to something else. */
  predicate HelpersUnbound(aliases: Bindings) {
    "getattr" !in aliases && "object" !in aliases && "type" !in aliases && "vars" !in aliases && "builtins" !in aliases
  }

  /** A chain resolves attribute by attribute. */
  lemma ResolveChain(m: Expr, attr: string, aliases: Bindings, ident: Lexicon)
    requires IsChain(m)
    ensures Resolve(Attribute(m, attr), aliases, ident) == Some(Resolve(m, aliases, ident).value + [attr])
  {
    var p := ChainPath(m);
    assert (p + [attr])[1..] == p[1..] + [attr];
    Associate(Lookup(p[0], aliases), p[1..], [attr]);
  }

  lemma PlainName(id: string, aliases: Bindings, ident: Lexicon)
    ensures Resolve(Name(id), aliases, ident) == Some(Lookup(id, aliases))
  {
    assert ChainPath(Name(id))[1..] == [];
    Neutral(Lookup(id, aliases));
  }

  /** A helper that nothing has rebound keeps its own name, also behind its module or class. */
  lemma Helper(owner: string, attr: string, aliases: Bindings, ident: Lexicon)
    requires owner !in aliases && owner != "__builtins__"
    ensures Resolve(Name(owner), aliases, ident) == Some([owner])
    ensures Resolve(Attribute(Name(owner), attr), aliases, ident) == Some([owner, attr])
  {
    PlainName(owner, aliases, ident);
    ResolveChain(Name(owner), attr, aliases, ident);
    assert [owner] + [attr] == [owner, attr];
  }

  /** Two-argument spellings with a callee that resolves to `getattr`. */
  lemma GetattrSpelling(func: Expr, m: Expr, path: Path, field: string, aliases: Bindings, ident: Lexicon)
    requires Resolve(m, aliases, ident) == Some(path) && StaticRoot(path) && Takeable(field, ident)
    requires Resolve(func, aliases, ident).Some? && IsGetattr(Resolve(func, aliases, ident).value)
    ensures Resolve(Call(func, [m, StringConstant(field)], []), aliases, ident) == Some(path + [field])
  {
    var call := Call(func, [m, StringConstant(field)], []);
    assert LiteralGetattr(call, aliases, ident) == StaticAttribute(call, call.args[0], call.args[1], aliases, ident);
  }

  lemma GetattributeSpelling(func: Expr, m: Expr, path: Path, field: string, aliases: Bindings, ident: Lexicon)
    requires Resolve(m, aliases, ident) == Some(path) && StaticRoot(path) && Takeable(field, ident)
    requires Resolve(func, aliases, ident).Some? && IsBaseGetattribute(Resolve(func, aliases, ident).value)
    ensures Resolve(Call(func, [m, StringConstant(field)], []), aliases, ident) == Some(path + [field])
  {
    var call := Call(func, [m, StringConstant(field)], []);
    DifferentHelpers(Resolve(func, aliases, ident).value);
    assert LiteralGetattr(call, aliases, ident).None?;
    assert LiteralGetattribute(call, aliases, ident)
        == StaticAttribute(call, call.args[0], call.args[1], aliases, ident);
  }

  /** No callee is taken for two helpers at once. */
  lemma DifferentHelpers(callee: Path)
    ensures IsBaseGetattribute(callee) ==> !IsGetattr(callee)
    ensures EndsIn(callee, "__getattribute__") ==> !IsGetattr(callee)
    ensures IsVars(callee) ==> !IsGetattr(callee) && !IsBaseGetattribute(callee)
    ensures IsVars(callee) ==> !EndsIn(callee, "__getattribute__") && !IsNamespaceCall(callee)
  {
    assert "__getattribute__"[0] != "getattr"[0] && "vars"[0] != "getattr"[0];
    assert "__getattribute__"[0] != "vars"[0];
    assert "globals"[0] != "vars"[0] && "locals"[0] != "vars"[0];
  }

  /** `object` and `type` are no static roots, so a static path is neither. */
  lemma StaticPathOwner(path: Path)
    requires StaticRoot(path)
    ensures path[0] != "object" && path[0] != "type"
  {
  }

  lemma OwnSpelling(m: Expr, path: Path, field: string, aliases: Bindings, ident: Lexicon)
    requires IsChain(m) && Resolve(m, aliases, ident) == Some(path) && StaticRoot(path) && Takeable(field, ident)
    ensures Resolve(Call(Attribute(m, "__getattribute__"), [StringConstant(field)], []), aliases, ident)
        == Some(path + [field])
  {
    var call := Call(Attribute(m, "__getattribute__"), [StringConstant(field)], []);
    ResolveChain(m, "__getattribute__", aliases, ident);
    var callee := path + ["__getattribute__"];
    assert callee[0] == path[0] && DropLast(callee) == path;
    StaticPathOwner(path);
    DifferentHelpers(callee);
    assert LiteralGetattr(call, aliases, ident).None?;
  }

  /** An item of a mapping that resolves to the dictionary of a path. */
  lemma DictSpelling(mapping: Expr, path: Path, field: string, aliases: Bindings, ident: Lexicon)
    requires Resolve(mapping, aliases, ident) == Some(path + ["__dict__"]) && path != [] && ident(field)
    ensures Resolve(Subscript(mapping, StringConstant(field)), aliases, ident) == Some(path + [field])
  {
    assert DropLast(path + ["__dict__"]) == path;
  }

  lemma VarsSpelling(func: Expr, m: Expr, path: Path, aliases: Bindings, ident: Lexicon)
    requires Resolve(m, aliases, ident) == Some(path)
    requires Resolve(func, aliases, ident).Some? && IsVars(Resolve(func, aliases, ident).value)
    ensures Resolve(Call(func, [m], []), aliases, ident) == Some(path + ["__dict__"])
  {
    var call := Call(func, [m], []);
    DifferentHelpers(Resolve(func, aliases, ident).value);
    assert call.args[0] == m;
  }

  lemma OneSpelling(m: Expr, style: Style, path: Path, field: string, aliases: Bindings, ident: Lexicon)
    requires Resolve(m, aliases, ident) == Some(path) && StaticRoot(path) && Takeable(field, ident)
    requires HelpersUnbound(aliases) && (NeedsChain(style) ==> IsChain(m))
    ensures Resolve(SpellOne(m, style, field), aliases, ident) == Some(path + [field])
  {
    match style
    case Dot => ResolveChain(m, field, aliases, ident);
    case Getattr =>
      Helper("getattr", "", aliases, ident);
      GetattrSpelling(Name("getattr"), m, path, field, aliases, ident);
    case BuiltinsGetattr =>
      Helper("builtins", "getattr", aliases, ident);
      GetattrSpelling(Attribute(Name("builtins"), "getattr"), m, path, field, aliases, ident);
    case ObjectGetattribute =>
      Helper("object", "__getattribute__", aliases, ident);
      GetattributeSpelling(Attribute(Name("object"), "__getattribute__"), m, path, field, aliases, ident);
    case TypeGetattribute =>
      Helper("type", "__getattribute__", aliases, ident);
      GetattributeSpelling(Attribute(Name("type"), "__getattribute__"), m, path, field, aliases, ident);
    case OwnGetattribute => OwnSpelling(m, path, field, aliases, ident);
    case VarsItem =>
      Helper("vars", "", aliases, ident);
      VarsSpelling(Name("vars"), m, path, aliases, ident);
      DictSpelling(Call(Name("vars"), [m], []), path, field, aliases, ident);
    case BuiltinsVarsItem =>
      Helper("builtins", "vars", aliases, ident);
      VarsSpelling(Attribute(Name("builtins"), "vars"), m, path, aliases, ident);
      DictSpelling(Call(Attribute(Name("builtins"), "vars"), [m], []), path, field, aliases, ident);
    case DictItem =>
      ResolveChain(m, "__dict__", aliases, ident);
      DictSpelling(Attribute(m, "__dict__"), path, field, aliases, ident);
  }

  /**
   * Reflective spellings collapse: however an attribute path is
   * spelled, at any depth, it resolves to the plain path.
   */
  lemma {:induction false} SpellingsCollapse(a: Access, path: Path, aliases: Bindings, ident: Lexicon)
    requires Resolve(BaseOf(a), aliases, ident) == Some(path) && StaticRoot(path)
    requires Spellable(a, ident) && HelpersUnbound(aliases)
    ensures Resolve(Spell(a), aliases, ident) == Some(Meaning(a, path))
    ensures StaticRoot(Meaning(a, path))
  {
    match a
    case Base(_) =>
    case Take(inner, style, field) =>
      SpellingsCollapse(inner, path, aliases, ident);
      OneSpelling(Spell(inner), style, Meaning(inner, path), field, aliases, ident);
  }
}
