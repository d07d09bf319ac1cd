/** Parsed Python source as the architecture gate sees it: expressions, and nodes in walk order. */
module PythonTree {
  import opened Sequences
  import opened Wrappers
  import opened Text

  /**
   * A dotted name, held as its segments. `DottedTextIsFaithful` and `DottedPrefix` say why the two views of a name,
   * as a text with dots and as segments without, can stand in for each other.
   */
  type Path = seq<string>

  datatype Expr =
    | Name(id: string)
    | Attribute(base: Expr, attr: string)
    | Call(func: Expr, args: seq<Expr>, keywords: seq<Expr>)
    | Subscript(base: Expr, index: Expr)
    | StringConstant(text: string)
    | OtherExpr(children: seq<Expr>)

  datatype Alias = Alias(name: Path, asname: Option<string>)

  datatype Node =
    | Import(names: seq<Alias>)
    | ImportFrom(source: Option<Path>, names: seq<Alias>, level: nat)
    | Assign(targets: seq<Expr>, value: Expr)
    | AnnAssign(target: Expr, annotated: Option<Expr>)
    | Expression(e: Expr)
    | OtherNode

  predicate DotFree(p: Path) {
    forall s :: s in p ==> '.' !in s
  }

  function DottedText(p: Path): string {
    Join(p, ".")
  }

  lemma DottedTextIsFaithful(p: Path, q: Path)
    requires p != [] && q != [] && DotFree(p) && DotFree(q)
    ensures DottedText(p) == DottedText(q) <==> p == q
  {
    SplitJoin(p, '.');
    SplitJoin(q, '.');
  }

  lemma {:induction false} JoinAppend(p: Path, q: Path)
    requires p != [] && q != []
    ensures DottedText(p + q) == DottedText(p) + "." + DottedText(q)
  {
    if |p| == 1 {
      assert (p + q)[1..] == q;
    } else {
      assert (p + q)[1..] == p[1..] + q;
      JoinAppend(p[1..], q);
      Associate(p[0] + ".", DottedText(p[1..]), ".");
      Associate(p[0] + ".", DottedText(p[1..]) + ".", DottedText(q));
    }
  }

  lemma SegmentPrefix(p: Path, m: Path)
    requires p != [] && p <= m
    ensures DottedText(m) == DottedText(p) || StartsWith(DottedText(m), DottedText(p) + ".")
  {
    TakeDrop(m, |p|);
    if |p| == |m| {
      assert m == p;
    } else {
      assert m[..|p|] == p;
      JoinAppend(p, m[|p|..]);
      TakeAppend(DottedText(p) + ".", DottedText(m[|p|..]));
    }
  }

  lemma TextPrefix(p: Path, m: Path)
    requires p != [] && m != [] && DotFree(p) && DotFree(m)
    requires StartsWith(DottedText(m), DottedText(p) + ".")
    ensures p <= m
  {
    var k := |DottedText(p)| + 1;
    TakeDrop(DottedText(m), k);
    var rest := Split(DottedText(m)[k..], '.');
    JoinAppend(p, rest);
    assert DottedText(m)[..k] == DottedText(p) + ".";
    DottedTextIsFaithful(p + rest, m);
  }

  /** `module == prefix or module.startswith(prefix + ".")` says that the prefix's segments come first. */
  lemma DottedPrefix(p: Path, m: Path)
    requires p != [] && m != [] && DotFree(p) && DotFree(m)
    ensures p <= m <==> DottedText(m) == DottedText(p) || StartsWith(DottedText(m), DottedText(p) + ".")
  {
    if p <= m {
      SegmentPrefix(p, m);
    }
    if DottedText(m) == DottedText(p) {
      DottedTextIsFaithful(p, m);
    }
    if StartsWith(DottedText(m), DottedText(p) + ".") {
      TextPrefix(p, m);
    }
  }

  /** A name or a chain of attributes on a name. */
  predicate IsChain(e: Expr) {
    match e
    case Name(_) => true
    case Attribute(base, _) => IsChain(base)
    case _ => false
  }

  function ChainPath(e: Expr): (p: Path)
    requires IsChain(e)
    ensures p != []
  {
    match e
    case Name(id) => [id]
    case Attribute(base, attr) => ChainPath(base) + [attr]
  }

  function QualifiedName(e: Expr): (p: Option<Path>)
    ensures p.Some? ==> p.value != []
  {
    if IsChain(e) then Some(ChainPath(e)) else None
  }

  function Reversed(parts: seq<string>): seq<string> {
    if parts == [] then [] else Reversed(parts[1..]) + [parts[0]]
  }

  lemma {:induction false} ReversedAppend(parts: seq<string>, last: string)
    ensures Reversed(parts + [last]) == [last] + Reversed(parts)
  {
    if parts == [] {
      assert parts + [last] == [last];
    } else {
      assert (parts + [last])[1..] == parts[1..] + [last];
      ReversedAppend(parts[1..], last);
    }
  }

  /** The loop that walks down a chain, collecting attributes on the way, and reverses what it collected. */
  method ComputeQualifiedName(e: Expr) returns (name: Option<Path>)
    ensures name == QualifiedName(e)
  {
    var parts: seq<string> := [];
    var current := e;
    while current.Attribute?
      invariant IsChain(e) <==> IsChain(current)
      invariant IsChain(e) ==> ChainPath(e) == ChainPath(current) + Reversed(parts)
      decreases current
    {
      ReversedAppend(parts, current.attr);
      if IsChain(current) {
        Associate(ChainPath(current.base), [current.attr], Reversed(parts));
      }
      parts := parts + [current.attr];
      current := current.base;
    }
    if current.Name? {
      ReversedAppend(parts, current.id);
      parts := parts + [current.id];
      return Some(Reversed(parts));
    }
    return None;
  }
}
