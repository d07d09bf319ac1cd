/** `git diff --name-status -z`: its output format, and the parsers the P8 and P9 gates each wrote for it. */
module NameStatus {
  import opened Wrappers
  import opened Sequences
  import opened Text
  import opened Numerals
  import opened Utf8
  import opened Paths

  datatype Change = Change(status: string, paths: seq<string>)

  datatype StatusError =
    | StatusMalformed
    | StatusNotAscii
    | ScoreInvalid
    | ScoreTooLong
    | Unresolved
    | Unsupported
    | PathNotUtf8
    | PathInvalid

  // ---------- the format ----------

  /** Python refuses to convert a decimal text longer than this. */
  const MAXIMUM_INTEGER_DIGITS := 4300

  /** How many paths follow a status: two after a scored rename or copy, one after A, D, M or T, else none. */
  function PathCount(status: string): nat {
    if status != "" && status[0] in {'R', 'C'} then
      var score := status[1..];
      if IsDigits(score) && |score| <= MAXIMUM_INTEGER_DIGITS && DecimalValue(score) <= 100 then 2 else 0
    else if status in {"A", "D", "M", "T"} then 1
    else 0
  }

  predicate ValidPath(path: string) {
    Strict(path).Some? && '\0' !in path
  }

  predicate ValidChange(c: Change) {
    |c.paths| == PathCount(c.status) != 0 && forall p :: p in c.paths ==> ValidPath(p)
  }

  predicate Valid(changes: seq<Change>) {
    forall c :: c in changes ==> ValidChange(c)
  }

  /** Every field, each ended by NUL. */
  function Terminated(fields: seq<Bytes>): Bytes {
    if fields == [] then [] else fields[0] + [0] + Terminated(fields[1..])
  }

  function PathFields(paths: seq<string>): seq<Bytes> {
    seq(|paths|, i requires 0 <= i < |paths| => Encode(paths[i]))
  }

  lemma StatusIsAscii(status: string)
    requires PathCount(status) != 0
    ensures forall i :: 0 <= i < |status| ==> 0 as char < status[i] < 128 as char
  {
    forall i | 1 <= i < |status| && status[0] in {'R', 'C'} ensures 0 as char < status[i] < 128 as char {
      assert status[1..][i - 1] == status[i];
    }
  }

  function ChangeFields(c: Change): seq<Bytes>
    requires ValidChange(c)
  {
    StatusIsAscii(c.status);
    [AsciiBytes(c.status)] + PathFields(c.paths)
  }

  function Fields(changes: seq<Change>): seq<Bytes>
    requires Valid(changes)
  {
    if changes == [] then [] else ChangeFields(changes[0]) + Fields(changes[1..])
  }

  /** What git prints for a list of changes. */
  function Print(changes: seq<Change>): Bytes
    requires Valid(changes)
  {
    Terminated(Fields(changes))
  }

  // ---------- reading it back ----------

  /** `output.split(b"\0")` without the empty field the last NUL leaves; nothing when the last NUL is missing. */
  function FieldsOf(output: Bytes): Option<seq<Bytes>> {
    if output == [] then Some([])
    else
      var fields := Split(output, 0);
      if fields[|fields| - 1] != [] then None else Some(fields[..|fields| - 1])
  }

  function DecodePath(field: Bytes): Option<string> {
    match Decode(field)
    case None => None
    case Some(value) => Strict(value)
  }

  function DecodePaths(fields: seq<Bytes>): (paths: Option<seq<string>>)
    ensures paths.Some? ==> |paths.value| == |fields|
  {
    if fields == [] then Some([])
    else match (DecodePath(fields[0]), DecodePaths(fields[1..]))
      case (Some(p), Some(rest)) => Some([p] + rest)
      case _ => None
  }

  function FirstChange(fields: seq<Bytes>): (c: Option<Change>)
    requires fields != []
    ensures c.Some? ==> 1 <= |c.value.paths| < |fields|
  {
    match AsciiText(fields[0])
    case None => None
    case Some(status) =>
      var n := PathCount(status);
      if n == 0 || 1 + n > |fields| then None
      else match DecodePaths(fields[1..1 + n])
        case None => None
        case Some(paths) => Some(Change(status, paths))
  }

  /** The reference meaning of a field list: changes that use up every field once, or nothing. */
  function ParseFields(fields: seq<Bytes>): Option<seq<Change>>
    decreases |fields|
  {
    if fields == [] then Some([])
    else match FirstChange(fields)
      case None => None
      case Some(c) =>
        match ParseFields(fields[1 + |c.paths|..])
        case None => None
        case Some(rest) => Some([c] + rest)
  }

  function Parse(output: Bytes): Option<seq<Change>> {
    match FieldsOf(output)
    case None => None
    case Some(fields) => ParseFields(fields)
  }

  // ---------- printer and reader are mutual inverses ----------

  lemma {:induction false} SplitTerminated(fields: seq<Bytes>)
    requires forall f :: f in fields ==> 0 !in f
    ensures Split(Terminated(fields), 0) == fields + [[]]
  {
    if fields != [] {
      SplitTerminated(fields[1..]);
      SplitAtFirst(fields[0], Terminated(fields[1..]), 0);
    }
  }

  lemma {:induction false} TerminatedJoin(fields: seq<Bytes>)
    ensures Join(fields + [[]], [0]) == Terminated(fields)
  {
    if fields != [] {
      TerminatedJoin(fields[1..]);
      assert (fields + [[]])[1..] == fields[1..] + [[]];
    }
  }

  lemma FieldsOfTerminated(output: Bytes, fields: seq<Bytes>)
    ensures FieldsOf(output) == Some(fields) <==> Terminated(fields) == output && forall f :: f in fields ==> 0 !in f
  {
    if FieldsOf(output) == Some(fields) {
      if output != [] {
        var all := Split(output, 0);
        assert all == fields + [[]];
        assert forall f :: f in fields ==> f in all;
        TerminatedJoin(fields);
      }
    }
    if Terminated(fields) == output && forall f :: f in fields ==> 0 !in f {
      SplitTerminated(fields);
      assert (fields + [[]])[..|fields|] == fields;
      assert output == [] ==> fields == [];
    }
  }

  lemma AsciiRoundTrip(b: Bytes, s: string)
    ensures AsciiText(b) == Some(s) <==> (forall i :: 0 <= i < |s| ==> s[i] < 128 as char) && AsciiBytes(s) == b
  {
    if AsciiText(b) == Some(s) {
      assert AsciiBytes(s) == b;
    }
    if (forall i :: 0 <= i < |s| ==> s[i] < 128 as char) && AsciiBytes(s) == b {
      assert forall i :: 0 <= i < |b| ==> b[i] == s[i] as int;
      assert AsciiText(b).value == s;
    }
  }

  lemma PathRoundTrip(field: Bytes, path: string)
    ensures 0 !in field && DecodePath(field) == Some(path) <==> ValidPath(path) && Encode(path) == field
  {
    EncodeNul(path);
    if Decode(field).Some? {
      EncodeDecode(field);
    }
    DecodeEncode(path);
    StrictIsFixedPoint(path);
    if Decode(field).Some? {
      StrictIsFixedPoint(Decode(field).value);
    }
  }

  lemma {:induction false} PathsRoundTrip(fields: seq<Bytes>, paths: seq<string>)
    ensures NulFree(fields) && DecodePaths(fields) == Some(paths)
       <==> (forall p :: p in paths ==> ValidPath(p)) && PathFields(paths) == fields
  {
    if fields != [] && paths != [] {
      PathRoundTrip(fields[0], paths[0]);
      PathsRoundTrip(fields[1..], paths[1..]);
      Uncons(paths);
      Uncons(fields);
      assert PathFields(paths) == [Encode(paths[0])] + PathFields(paths[1..]);
    }
  }

  predicate NulFree(fields: seq<Bytes>) {
    forall f :: f in fields ==> 0 !in f
  }

  lemma FirstChangePrints(fields: seq<Bytes>, c: Change)
    requires fields != [] && NulFree(fields) && FirstChange(fields) == Some(c)
    ensures ValidChange(c) && |c.paths| < |fields| && fields[..1 + |c.paths|] == ChangeFields(c)
  {
    var n := PathCount(c.status);
    AsciiRoundTrip(fields[0], c.status);
    StatusIsAscii(c.status);
    var pathFields := fields[1..1 + n];
    assert NulFree(pathFields);
    PathsRoundTrip(pathFields, c.paths);
    assert fields[..1 + n] == [fields[0]] + pathFields;
  }

  lemma PrintedIsFirst(fields: seq<Bytes>, c: Change)
    requires fields != [] && NulFree(fields)
    requires ValidChange(c) && |c.paths| < |fields| && fields[..1 + |c.paths|] == ChangeFields(c)
    ensures FirstChange(fields) == Some(c)
  {
    var n := PathCount(c.status);
    StatusIsAscii(c.status);
    assert fields[0] == ChangeFields(c)[0];
    AsciiRoundTrip(fields[0], c.status);
    var pathFields := fields[1..1 + n];
    assert NulFree(pathFields);
    assert pathFields == fields[..1 + n][1..] == PathFields(c.paths);
    PathsRoundTrip(pathFields, c.paths);
  }

  lemma FirstChangeRoundTrip(fields: seq<Bytes>, c: Change)
    requires fields != [] && NulFree(fields)
    ensures FirstChange(fields) == Some(c)
       <==> ValidChange(c) && |c.paths| < |fields| && fields[..1 + |c.paths|] == ChangeFields(c)
  {
    if FirstChange(fields) == Some(c) {
      FirstChangePrints(fields, c);
    }
    if ValidChange(c) && |c.paths| < |fields| && fields[..1 + |c.paths|] == ChangeFields(c) {
      PrintedIsFirst(fields, c);
    }
  }

  lemma {:induction false} ParsedFieldsPrint(fields: seq<Bytes>)
    requires NulFree(fields) && ParseFields(fields).Some?
    ensures Valid(ParseFields(fields).value) && Fields(ParseFields(fields).value) == fields
    decreases |fields|
  {
    if fields != [] {
      var c := FirstChange(fields).value;
      var k := 1 + |c.paths|;
      FirstChangeRoundTrip(fields, c);
      ParsedFieldsPrint(fields[k..]);
      Cons(c, ParseFields(fields[k..]).value);
      TakeDrop(fields, k);
    }
  }

  lemma {:induction false} PrintedFieldsParse(changes: seq<Change>)
    requires Valid(changes)
    ensures NulFree(Fields(changes)) && ParseFields(Fields(changes)) == Some(changes)
  {
    if changes != [] {
      var c := changes[0];
      assert c in changes;
      var k := 1 + |c.paths|;
      PrintedFieldsParse(changes[1..]);
      ChangeFieldsNulFree(c);
      TakeAppend(ChangeFields(c), Fields(changes[1..]));
      FirstChangeRoundTrip(Fields(changes), c);
      Uncons(changes);
    }
  }

  lemma ChangeFieldsNulFree(c: Change)
    requires ValidChange(c)
    ensures NulFree(ChangeFields(c))
  {
    StatusIsAscii(c.status);
    PathsRoundTrip(PathFields(c.paths), c.paths);
    assert 0 !in AsciiBytes(c.status);
  }

  /** Parsing consumes every field exactly once. */
  lemma ParseFieldsRoundTrip(fields: seq<Bytes>, changes: seq<Change>)
    requires NulFree(fields)
    ensures ParseFields(fields) == Some(changes) <==> Valid(changes) && Fields(changes) == fields
  {
    if ParseFields(fields) == Some(changes) {
      ParsedFieldsPrint(fields);
    }
    if Valid(changes) && Fields(changes) == fields {
      PrintedFieldsParse(changes);
    }
  }

  /** Reading and printing are mutual inverses: an output parses to the changes it is the print of, and to no others. */
  lemma ParseIsInverseOfPrint(output: Bytes, changes: seq<Change>)
    ensures Parse(output) == Some(changes) <==> Valid(changes) && Print(changes) == output
  {
    if Parse(output) == Some(changes) {
      var fields := FieldsOf(output).value;
      FieldsOfTerminated(output, fields);
      ParseFieldsRoundTrip(fields, changes);
    }
    if Valid(changes) && Print(changes) == output {
      PrintedFieldsParse(changes);
      FieldsOfTerminated(output, Fields(changes));
      ParseFieldsRoundTrip(Fields(changes), changes);
    }
  }

  /** No two change lists print alike. */
  lemma PrintInjective(a: seq<Change>, b: seq<Change>)
    requires Valid(a) && Valid(b) && Print(a) == Print(b)
    ensures a == b
  {
    ParseIsInverseOfPrint(Print(a), a);
    ParseIsInverseOfPrint(Print(a), b);
  }

  // ---------- the three parsers ----------

  function Prepend(changes: seq<Change>, rest: Option<seq<Change>>): Option<seq<Change>> {
    match rest
    case None => None
    case Some(more) => Some(changes + more)
  }

  lemma PrependNothing(fields: seq<Bytes>)
    ensures Prepend([], ParseFields(fields)) == ParseFields(fields) && fields[0..] == fields
  {
    Neutral(fields);
    if ParseFields(fields).Some? {
      Neutral(ParseFields(fields).value);
    }
  }

  lemma PrependCons(changes: seq<Change>, c: Change, rest: Option<seq<Change>>)
    ensures Prepend(changes, match rest case None => None case Some(more) => Some([c] + more))
        == Prepend(changes + [c], rest)
  {
    if rest.Some? {
      Associate(changes, [c], rest.value);
    }
  }

  /** One more change parsed moves it from the fields still to read to the changes already read. */
  lemma ParseStep(fields: seq<Bytes>, changes: seq<Change>)
    requires fields != [] && FirstChange(fields).Some?
    ensures var c := FirstChange(fields).value;
            Prepend(changes, ParseFields(fields)) == Prepend(changes + [c], ParseFields(fields[1 + |c.paths|..]))
  {
    var c := FirstChange(fields).value;
    PrependCons(changes, c, ParseFields(fields[1 + |c.paths|..]));
  }

  /** The changes read so far and what the fields from an index on still mean. */
  function Outlook(fields: seq<Bytes>, changes: seq<Change>, index: nat): Option<seq<Change>>
    requires index <= |fields|
  {
    Prepend(changes, ParseFields(fields[index..]))
  }

  lemma OutlookAtStart(fields: seq<Bytes>)
    ensures Outlook(fields, [], 0) == ParseFields(fields)
  {
    PrependNothing(fields);
  }

  lemma OutlookAtEnd(fields: seq<Bytes>, changes: seq<Change>)
    ensures Outlook(fields, changes, |fields|) == Some(changes)
  {
    Neutral(fields);
    Neutral(changes);
  }

  lemma OutlookBehind(fields: seq<Bytes>, changes: seq<Change>, index: nat, k: nat)
    requires index + k <= |fields|
    ensures Outlook(fields, changes, index + k) == Prepend(changes, ParseFields(fields[index..][k..]))
  {
    DropDrop(fields, index, k);
  }

  /** The loop's step: reading the next change leaves the outlook as it was. */
  lemma OutlookStep(fields: seq<Bytes>, changes: seq<Change>, index: nat, c: Change)
    requires index < |fields| && FirstChange(fields[index..]) == Some(c)
    ensures index + 1 + |c.paths| <= |fields|
    ensures Outlook(fields, changes, index) == Outlook(fields, changes + [c], index + 1 + |c.paths|)
  {
    ParseStep(fields[index..], changes);
    OutlookBehind(fields, changes + [c], index, 1 + |c.paths|);
  }

  /** A change that cannot be read leaves no outlook. */
  lemma NoOutlook(fields: seq<Bytes>, changes: seq<Change>, index: nat)
    requires index < |fields| && FirstChange(fields[index..]).None?
    ensures Outlook(fields, changes, index).None?
  {
  }

  /** A change whose paths stand at an index, as many as given. */
  function PathsAt(fields: seq<Bytes>, index: nat, n: nat, status: string): Option<Change>
    requires index + n <= |fields|
  {
    match DecodePaths(fields[index..index + n])
    case None => None
    case Some(paths) => Some(Change(status, paths))
  }

  /** What the first change of a tail is, told by where its fields stand in the whole. */
  lemma FirstChangeAt(fields: seq<Bytes>, start: nat, status: string)
    requires start < |fields| && AsciiText(fields[start]) == Some(status)
    ensures var n := PathCount(status);
            FirstChange(fields[start..])
            == if n == 0 || start + 1 + n > |fields| then None else PathsAt(fields, start + 1, n, status)
  {
    var n, rest := PathCount(status), fields[start..];
    assert rest[0] == fields[start] && |rest| == |fields| - start;
    if start + 1 + n <= |fields| {
      DropSlice(fields, start, 1, 1 + n);
      assert rest[1..1 + n] == fields[start + 1..start + 1 + n];
    }
  }

  method SplitFields(output: Bytes) returns (r: Result<seq<Bytes>, StatusError>)
    ensures r.ToOption() == FieldsOf(output)
  {
    if output == [] {
      return Ok([]);
    }
    var fields := Split(output, 0);
    if fields[|fields| - 1] != [] {
      return Err(StatusMalformed);
    }
    return Ok(fields[..|fields| - 1]);
  }

  /** `_safe_path`, `_change_path` and `_descendant_path`: decode, then validate strictly. */
  function SafePath(field: Bytes): (r: Result<string, StatusError>)
    ensures r.ToOption() == DecodePath(field)
  {
    match Decode(field)
    case None => Err(PathNotUtf8)
    case Some(value) => if Strict(value).Some? then Ok(value) else Err(PathInvalid)
  }

  /** `tuple(_change_path(field) for field in fields)`: the first field that fails decides. */
  function ReadPaths(fields: seq<Bytes>): (r: Result<seq<string>, StatusError>)
    ensures r.ToOption() == DecodePaths(fields)
  {
    if fields == [] then Ok([])
    else match SafePath(fields[0])
      case Err(e) => Err(e)
      case Ok(p) =>
        match ReadPaths(fields[1..])
        case Err(e) => Err(e)
        case Ok(rest) => Ok([p] + rest)
  }

  lemma DecodeOne(a: Bytes)
    ensures DecodePaths([a]) == if DecodePath(a).None? then None else Some([DecodePath(a).value])
  {
    var rest := DecodePaths([a][1..]);
    assert rest.Some? && rest.value == [];
    if DecodePath(a).Some? {
      assert [DecodePath(a).value] + rest.value == [DecodePath(a).value];
    }
  }

  lemma DecodeTwo(a: Bytes, b: Bytes)
    ensures DecodePaths([a, b]) == if DecodePath(a).None? || DecodePath(b).None? then None
                                   else Some([DecodePath(a).value, DecodePath(b).value])
  {
    DecodeOne(b);
    assert [a, b][1..] == [b];
    var rest := DecodePaths([a, b][1..]);
    if DecodePath(a).Some? && rest.Some? {
      assert [DecodePath(a).value] + rest.value == [DecodePath(a).value, DecodePath(b).value];
    }
  }

  /** The P8 loop body: settle how many paths follow, check that many are left, then read them. */
  method NextChangeP8(fields: seq<Bytes>, start: nat) returns (r: Result<Change, StatusError>)
    requires start < |fields|
    ensures r.ToOption() == FirstChange(fields[start..])
  {
    var ascii := AsciiText(fields[start]);
    if ascii.None? {
      return Err(StatusNotAscii);
    }
    var status, index := ascii.value, start + 1;
    FirstChangeAt(fields, start, status);
    var pathCount;
    if status != "" && status[0] in {'R', 'C'} {
      var score := status[1..];
      if !IsDigits(score) {
        return Err(ScoreInvalid);
      }
      if |score| > MAXIMUM_INTEGER_DIGITS {
        return Err(ScoreTooLong);
      }
      if DecimalValue(score) > 100 {
        return Err(ScoreInvalid);
      }
      pathCount := 2;
    } else if status in {"A", "D", "M", "T"} {
      pathCount := 1;
    } else if status in {"U", "X", "B"} {
      return Err(Unresolved);
    } else {
      return Err(Unsupported);
    }
    if index + pathCount > |fields| {
      return Err(StatusMalformed);
    }
    var paths := ReadPaths(fields[index..index + pathCount]);
    if paths.Err? {
      return Err(paths.error);
    }
    return Ok(Change(status, paths.value));
  }

  /** The parser of the P8 repository gate and, under other names, of the P8 provenance gate. */
  method ParseP8(output: Bytes) returns (r: Result<seq<Change>, StatusError>)
    ensures r.ToOption() == Parse(output)
  {
    var split := SplitFields(output);
    if split.Err? {
      return Err(split.error);
    }
    var fields := split.value;
    var changes: seq<Change> := [];
    var index := 0;
    OutlookAtStart(fields);
    while index < |fields|
      invariant index <= |fields| && Outlook(fields, changes, index) == ParseFields(fields)
    {
      var next := NextChangeP8(fields, index);
      if next.Err? {
        NoOutlook(fields, changes, index);
        return Err(next.error);
      }
      OutlookStep(fields, changes, index, next.value);
      changes := changes + [next.value];
      index := index + 1 + |next.value.paths|;
    }
    OutlookAtEnd(fields, changes);
    return Ok(changes);
  }

  /** `status[:1]`: the one-letter text a status starts with, empty for an empty status. */
  function Code(status: string): (code: string)
    ensures code == "R" || code == "C" <==> status != "" && status[0] in {'R', 'C'}
  {
    if status == "" then "" else [status[0]]
  }

  /** Two paths, read one after the other. */
  method ReadTwo(fields: seq<Bytes>, index: nat, status: string) returns (r: Result<Change, StatusError>)
    requires index + 2 <= |fields|
    ensures r.ToOption() == PathsAt(fields, index, 2, status)
  {
    DecodeTwo(fields[index], fields[index + 1]);
    assert fields[index..index + 2] == [fields[index], fields[index + 1]];
    var source := SafePath(fields[index]);
    if source.Err? {
      return Err(source.error);
    }
    var target := SafePath(fields[index + 1]);
    if target.Err? {
      return Err(target.error);
    }
    return Ok(Change(status, [source.value, target.value]));
  }

  method ReadOne(fields: seq<Bytes>, index: nat, status: string) returns (r: Result<Change, StatusError>)
    requires index < |fields|
    ensures r.ToOption() == PathsAt(fields, index, 1, status)
  {
    DecodeOne(fields[index]);
    assert fields[index..index + 1] == [fields[index]];
    var path := SafePath(fields[index]);
    if path.Err? {
      return Err(path.error);
    }
    return Ok(Change(status, [path.value]));
  }

  /** The P9 branch for renames and copies. */
  method ReadScored(fields: seq<Bytes>, index: nat, status: string) returns (r: Result<Change, StatusError>)
    requires status != "" && status[0] in {'R', 'C'}
    ensures r.ToOption() == if PathCount(status) == 0 || index + 2 > |fields| then None
        else PathsAt(fields, index, 2, status)
  {
    var score := status[1..];
    if !IsDigits(score) {
      return Err(ScoreInvalid);
    }
    if |score| > MAXIMUM_INTEGER_DIGITS {
      return Err(ScoreTooLong);
    }
    if DecimalValue(score) > 100 || index + 2 > |fields| {
      return Err(ScoreInvalid);
    }
    r := ReadTwo(fields, index, status);
  }

  lemma ScoredCount(status: string)
    requires status != "" && status[0] in {'R', 'C'}
    ensures PathCount(status) == 0 || PathCount(status) == 2
  {
  }

  /** The P9 loop body: each kind of status checks its own bounds and reads its own paths. */
  method NextChangeP9(fields: seq<Bytes>, start: nat) returns (r: Result<Change, StatusError>)
    requires start < |fields|
    ensures r.ToOption() == FirstChange(fields[start..])
  {
    var ascii := AsciiText(fields[start]);
    if ascii.None? {
      return Err(StatusNotAscii);
    }
    var status, index := ascii.value, start + 1;
    FirstChangeAt(fields, start, status);
    var code := Code(status);
    if code == "R" || code == "C" {
      ScoredCount(status);
      r := ReadScored(fields, index, status);
    } else if status in {"A", "D", "M", "T"} {
      if index >= |fields| {
        return Err(StatusMalformed);
      }
      r := ReadOne(fields, index, status);
    } else if code == "U" || code == "X" || code == "B" {
      return Err(Unresolved);
    } else {
      return Err(Unsupported);
    }
  }

  method ParseP9(output: Bytes) returns (r: Result<seq<Change>, StatusError>)
    ensures r.ToOption() == Parse(output)
  {
    var split := SplitFields(output);
    if split.Err? {
      return Err(split.error);
    }
    var fields := split.value;
    var changes: seq<Change> := [];
    var index := 0;
    OutlookAtStart(fields);
    while index < |fields|
      invariant index <= |fields| && Outlook(fields, changes, index) == ParseFields(fields)
    {
      var next := NextChangeP9(fields, index);
      if next.Err? {
        NoOutlook(fields, changes, index);
        return Err(next.error);
      }
      OutlookStep(fields, changes, index, next.value);
      changes := changes + [next.value];
      index := index + 1 + |next.value.paths|;
    }
    OutlookAtEnd(fields, changes);
    return Ok(changes);
  }
}
