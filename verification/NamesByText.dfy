/** The word lists of the architecture gate, as the dotted names they are written down as. */
module NamesByText {
  import opened Sequences
  import opened PythonTree
  import opened Resolution
  import opened Architecture

  lemma OneSegment(p: Path, a: string)
    requires p != [] && DotFree(p) && '.' !in a
    ensures DottedText(p) == a <==> p == [a]
  {
    DottedTextIsFaithful(p, [a]);
  }

  lemma TwoSegments(p: Path, a: string, b: string)
    requires p != [] && DotFree(p) && '.' !in a && '.' !in b
    ensures DottedText(p) == a + "." + b <==> p == [a, b]
  {
    JoinAppend([a], [b]);
    assert [a] + [b] == [a, b];
    DottedTextIsFaithful(p, [a, b]);
  }

  lemma ThreeSegments(p: Path, a: string, b: string, c: string)
    requires p != [] && DotFree(p) && '.' !in a && '.' !in b && '.' !in c
    ensures DottedText(p) == a + "." + (b + "." + c) <==> p == [a, b, c]
  {
    JoinAppend([b], [c]);
    assert [b] + [c] == [b, c];
    JoinAppend([a], [b, c]);
    assert [a] + [b, c] == [a, b, c];
    Associate(a, ".", b + "." + c);
    DottedTextIsFaithful(p, [a, b, c]);
  }

  lemma GetattrExactly(p: Path)
    requires p != [] && DotFree(p)
    ensures IsGetattr(p) <==> DottedText(p) == "getattr" || DottedText(p) == "builtins.getattr"
  {
    OneSegment(p, "getattr");
    TwoSegments(p, "builtins", "getattr");
    assert "builtins" + "." + "getattr" == "builtins.getattr";
  }

  lemma NamespaceCallExactly(p: Path)
    requires p != [] && DotFree(p)
    ensures IsNamespaceCall(p) <==>
              || DottedText(p) == "globals" || DottedText(p) == "builtins.globals"
              || DottedText(p) == "locals" || DottedText(p) == "builtins.locals"
  {
    OneSegment(p, "globals");
    OneSegment(p, "locals");
    TwoSegments(p, "builtins", "globals");
    TwoSegments(p, "builtins", "locals");
    assert "builtins" + "." + "globals" == "builtins.globals" && "builtins" + "." + "locals" == "builtins.locals";
  }

  lemma VarsExactly(p: Path)
    requires p != [] && DotFree(p)
    ensures IsVars(p) <==> DottedText(p) == "vars" || DottedText(p) == "builtins.vars"
  {
    OneSegment(p, "vars");
    TwoSegments(p, "builtins", "vars");
    assert "builtins" + "." + "vars" == "builtins.vars";
  }

  lemma BaseGetattributeExactly(p: Path)
    requires p != [] && DotFree(p)
    ensures IsBaseGetattribute(p) <==>
              DottedText(p) == "object.__getattribute__" || DottedText(p) == "type.__getattribute__"
  {
    TwoSegments(p, "object", "__getattribute__");
    TwoSegments(p, "type", "__getattribute__");
    assert "object" + "." + "__getattribute__" == "object.__getattribute__";
    assert "type" + "." + "__getattribute__" == "type.__getattribute__";
  }

  /** The calls listed as entries to reflection. */
  lemma ReflectionEntryExactly(p: Path)
    requires p != [] && DotFree(p)
    ensures IsReflectionEntry(p) <==>
              || DottedText(p) == "globals" || DottedText(p) == "builtins.globals"
              || DottedText(p) == "locals" || DottedText(p) == "builtins.locals"
              || DottedText(p) == "vars" || DottedText(p) == "builtins.vars"
              || DottedText(p) == "object.__getattribute__" || DottedText(p) == "type.__getattribute__"
  {
    NamespaceCallExactly(p);
    VarsExactly(p);
    BaseGetattributeExactly(p);
  }

  /** The calls that read a clock or make a fresh identity. */
  predicate IsClockText(text: string) {
    IsDateText(text) || IsTimeText(text)
  }

  predicate IsDateText(text: string) {
    || text == "datetime.date.today" || text == "datetime.datetime.now" || text == "datetime.datetime.utcnow"
    || text == "datetime.now" || text == "datetime.utcnow"
    || text == "uuid.uuid1" || text == "uuid.uuid4"
  }

  predicate IsTimeText(text: string) {
    || text == "time.monotonic" || text == "time.monotonic_ns"
    || text == "time.perf_counter" || text == "time.perf_counter_ns"
    || text == "time.process_time" || text == "time.process_time_ns"
    || text == "time.time" || text == "time.time_ns"
  }

  lemma TwoByText(p: Path, a: string, b: string, text: string)
    requires p != [] && DotFree(p) && '.' !in a && '.' !in b && text == a + "." + b
    ensures DottedText(p) == text <==> p == [a, b]
  {
    TwoSegments(p, a, b);
  }

  lemma ThreeByText(p: Path, a: string, b: string, c: string, text: string)
    requires p != [] && DotFree(p) && '.' !in a && '.' !in b && '.' !in c && text == a + "." + (b + "." + c)
    ensures DottedText(p) == text <==> p == [a, b, c]
  {
    ThreeSegments(p, a, b, c);
  }

  lemma DateExactly(p: Path)
    requires p != [] && DotFree(p)
    ensures IsDateText(DottedText(p)) <==>
              || p == ["datetime", "date", "today"] || p == ["datetime", "datetime", "now"]
              || p == ["datetime", "datetime", "utcnow"] || p == ["datetime", "now"] || p == ["datetime", "utcnow"]
              || p == ["uuid", "uuid1"] || p == ["uuid", "uuid4"]
  {
    ThreeByText(p, "datetime", "date", "today", "datetime.date.today");
    ThreeByText(p, "datetime", "datetime", "now", "datetime.datetime.now");
    ThreeByText(p, "datetime", "datetime", "utcnow", "datetime.datetime.utcnow");
    TwoByText(p, "datetime", "now", "datetime.now");
    TwoByText(p, "datetime", "utcnow", "datetime.utcnow");
    TwoByText(p, "uuid", "uuid1", "uuid.uuid1");
    TwoByText(p, "uuid", "uuid4", "uuid.uuid4");
  }

  lemma TimeExactly(p: Path)
    requires p != [] && DotFree(p)
    ensures IsTimeText(DottedText(p)) <==>
              || p == ["time", "monotonic"] || p == ["time", "monotonic_ns"]
              || p == ["time", "perf_counter"] || p == ["time", "perf_counter_ns"]
              || p == ["time", "process_time"] || p == ["time", "process_time_ns"]
              || p == ["time", "time"] || p == ["time", "time_ns"]
  {
    TwoByText(p, "time", "monotonic", "time.monotonic");
    TwoByText(p, "time", "monotonic_ns", "time.monotonic_ns");
    TwoByText(p, "time", "perf_counter", "time.perf_counter");
    TwoByText(p, "time", "perf_counter_ns", "time.perf_counter_ns");
    TwoByText(p, "time", "process_time", "time.process_time");
    TwoByText(p, "time", "process_time_ns", "time.process_time_ns");
    TwoByText(p, "time", "time", "time.time");
    TwoByText(p, "time", "time_ns", "time.time_ns");
  }

  lemma ClockExactly(p: Path)
    requires p != [] && DotFree(p)
    ensures p in CLOCK_CALLS <==> IsClockText(DottedText(p))
  {
    DateExactly(p);
    TimeExactly(p);
  }

  /** The builtin calls forbidden by themselves and by way of `builtins`. */
  predicate IsBuiltinText(text: string) {
    || text == "__import__" || text == "compile" || text == "eval"
    || text == "exec" || text == "input" || text == "open"
    || text == "builtins.__import__" || text == "builtins.compile" || text == "builtins.eval"
    || text == "builtins.exec" || text == "builtins.input" || text == "builtins.open"
  }

  lemma BuiltinByText(p: Path, name: string, text: string)
    requires p != [] && DotFree(p) && '.' !in name && text == "builtins" + "." + name
    ensures DottedText(p) == name <==> p == [name]
    ensures DottedText(p) == text <==> p == ["builtins", name]
  {
    OneSegment(p, name);
    TwoSegments(p, "builtins", name);
  }

  lemma BuiltinExactly(p: Path)
    requires p != [] && DotFree(p)
    ensures (|p| == 1 && p[0] in BUILTIN_CALLS) || (|p| == 2 && p[0] == "builtins" && p[1] in BUILTIN_CALLS)
            <==> IsBuiltinText(DottedText(p))
  {
    BuiltinByText(p, "__import__", "builtins.__import__");
    BuiltinByText(p, "compile", "builtins.compile");
    BuiltinByText(p, "eval", "builtins.eval");
    BuiltinByText(p, "exec", "builtins.exec");
    BuiltinByText(p, "input", "builtins.input");
    BuiltinByText(p, "open", "builtins.open");
  }

  /** A reference is forbidden by its whole dotted name or by its first segment. */
  lemma ForbiddenExactly(p: Path)
    requires p != [] && DotFree(p)
    ensures IsForbidden(p) <==>
              IsClockText(DottedText(p)) || IsBuiltinText(DottedText(p)) || p[0] in CAPABILITY_ROOTS
  {
    ClockExactly(p);
    BuiltinExactly(p);
  }

  // ---------- the tables by what may be imported ----------

  /** Which boundaries may import a package: its own, all of them core's, and two more as far as they may go. */
  lemma AllowedExactly(b: Boundary, other: Boundary)
    ensures other in Allowed(b) <==>
              || other == b || other == Core
              || (other == Application && b != Core && b != Governance)
              || (other == Governance && (b == Application || b == SqliteAdapter))
  {
  }

  /** The boundaries that may import a standard module. */
  function Importers(root: string): set<Boundary> {
    if root == "__future__" then
      {Core, Governance, Application, SqliteAdapter, IntelligenceAdapter, ChannelAdapter, SystemAdapter, Api, Worker}
    else if root == "dataclasses" then
      {Core, Governance, Application, SqliteAdapter, IntelligenceAdapter, ChannelAdapter, SystemAdapter, Worker}
    else if root == "datetime" then {Core, Governance, Application, SqliteAdapter, SystemAdapter}
    else if root == "typing" then {Core, Application, SqliteAdapter, Api}
    else if root == "enum" then {Core, Application, SqliteAdapter}
    else if root == "collections" then {Core, SqliteAdapter, Api}
    else if root == "hashlib" then {Core, SqliteAdapter, ChannelAdapter, SystemAdapter}
    else if root == "json" then {Core, SqliteAdapter, ChannelAdapter}
    else if root == "math" || root == "re" then {Core}
    else if root == "contextlib" || root == "pathlib" || root == "sqlite3" || root == "threading" then {SqliteAdapter}
    else {}
  }

  lemma StdlibExactly(b: Boundary, root: string)
    ensures root in StdlibAllowed(b) <==> b in Importers(root)
  {
    match b
    case Core =>
    case Governance =>
    case Application =>
    case SqliteAdapter =>
    case IntelligenceAdapter =>
    case ChannelAdapter =>
    case SystemAdapter =>
    case Api =>
    case Worker =>
  }
}
