/** Lexical path validation: what `PurePosixPath` does to a text, without touching a file system. */
module Paths {
  import opened Wrappers
  import opened Text

  predicate IsAbsolute(value: string) {
    StartsWith(value, "/")
  }

  /** The segments `PurePosixPath` keeps: neither empty nor `.`. */
  function Kept(segments: seq<string>): (kept: seq<string>)
    ensures forall p :: p in kept <==> p in segments && p != "" && p != "."
  {
    if segments == [] then []
    else if segments[0] == "" || segments[0] == "." then Kept(segments[1..])
    else [segments[0]] + Kept(segments[1..])
  }

  function Parts(value: string): seq<string> {
    Kept(Split(value, '/'))
  }

  /** Exactly two leading slashes are kept as they are; any other number counts as one. */
  function Root(value: string): string {
    if StartsWith(value, "//") && !StartsWith(value, "///") then "//"
    else if IsAbsolute(value) then "/"
    else ""
  }

  function AsPosix(value: string): string {
    var text := Root(value) + Join(Parts(value), "/");
    if text == "" then "." else text
  }

  /** The validation that refuses any spelling but the normal one. */
  function Strict(value: string): Option<string> {
    if value == "" || IsAbsolute(value) || ".." in Parts(value) || AsPosix(value) != value then None
    else Some(value)
  }

  /** The older validation, which accepts other spellings and returns the normal one. */
  function Lenient(value: string): Option<string> {
    if value == "" || IsAbsolute(value) || ".." in Parts(value) || EndsWith(value, "/") then None
    else Some(AsPosix(value))
  }

  lemma {:induction false} KeptIsAll(segments: seq<string>)
    requires "" !in segments && "." !in segments
    ensures Kept(segments) == segments
  {
    if segments != [] {
      KeptIsAll(segments[1..]);
    }
  }

  lemma {:induction false} JoinEnds(parts: seq<string>)
    requires parts != [] && "" !in parts
    requires forall p :: p in parts ==> '/' !in p
    ensures var text := Join(parts, "/");
            text != "" && text[0] != '/' && text[|text| - 1] != '/'
  {
    assert parts[0] in parts;
    if |parts| > 1 {
      JoinEnds(parts[1..]);
    }
  }

  /** Putting kept segments together and taking them apart again loses and adds nothing. */
  lemma PartsOfJoin(parts: seq<string>)
    requires parts != [] && "" !in parts && "." !in parts
    requires forall p :: p in parts ==> '/' !in p
    ensures Parts(Join(parts, "/")) == parts
    ensures var text := Join(parts, "/"); !IsAbsolute(text) && !EndsWith(text, "/") && text != ""
  {
    SplitJoin(parts, '/');
    KeptIsAll(parts);
    JoinEnds(parts);
    EndsElsewhere(Join(parts, "/"), '/');
  }

  lemma EndsElsewhere(text: string, c: char)
    requires text != "" && text[0] != c && text[|text| - 1] != c
    ensures !StartsWith(text, [c]) && !EndsWith(text, [c])
  {
    assert text[|text| - 1..][0] == text[|text| - 1];
  }

  /** Normalising a relative path keeps its segments, and is the identity the second time. */
  lemma AsPosixNormal(value: string)
    requires !IsAbsolute(value)
    ensures Parts(AsPosix(value)) == Parts(value)
    ensures AsPosix(AsPosix(value)) == AsPosix(value)
    ensures AsPosix(value) != "" && !IsAbsolute(AsPosix(value)) && !EndsWith(AsPosix(value), "/")
  {
    var parts := Parts(value);
    if parts == [] {
      assert AsPosix(value) == ".";
      SplitAtFirst(".", [], '/');
      assert Parts(".") == [];
    } else {
      assert forall p :: p in parts ==> '/' !in p;
      PartsOfJoin(parts);
      assert AsPosix(value) == Join(parts, "/");
    }
  }

  /** The strict validation accepts exactly the fixed points of the lenient one. */
  lemma StrictIsFixedPoint(value: string)
    ensures Strict(value).Some? <==> Lenient(value) == Some(value)
    ensures Strict(value).Some? ==> Strict(value) == Some(value)
  {
    if !IsAbsolute(value) {
      AsPosixNormal(value);
    }
  }

  /** A segment that neither stays in place nor goes up. */
  predicate ProperSegment(part: string) {
    part != "" && part != "." && part != ".." && '/' !in part
  }

  ghost predicate JoinsProper(value: string, parts: seq<string>) {
    parts != [] && value == Join(parts, "/") && forall k :: 0 <= k < |parts| ==> ProperSegment(parts[k])
  }

  /** The strict validation accepts proper segments put together with slashes, the lone dot, and nothing else. */
  lemma StrictExactly(value: string)
    ensures Strict(value).Some? <==> value == "." || exists parts :: JoinsProper(value, parts)
  {
    if Strict(value).Some? && value != "." {
      var parts := Parts(value);
      assert parts != [];
      assert forall k :: 0 <= k < |parts| ==> parts[k] in parts;
      assert JoinsProper(value, parts);
    }
    if value == "." {
      SplitAtFirst(".", [], '/');
      assert Parts(".") == [];
    }
    if parts :| JoinsProper(value, parts) {
      forall p | p in parts ensures ProperSegment(p) {
        var k :| 0 <= k < |parts| && parts[k] == p;
      }
      PartsOfJoin(parts);
    }
  }

  /** The lenient validation refuses the empty text, a slash at either end and a segment that goes up, no more. */
  lemma LenientExactly(value: string)
    ensures Lenient(value).Some? <==>
              value != "" && value[0] != '/' && value[|value| - 1] != '/' && ".." !in Split(value, '/')
  {
    if value != "" {
      assert EndsWith(value, "/") <==> value[|value| - 1..] == "/";
      assert value[|value| - 1..] == [value[|value| - 1]];
    }
  }

  /** Whatever the lenient validation returns is already normal, for both validations. */
  lemma LenientIdempotent(value: string)
    requires Lenient(value).Some?
    ensures var normal := Lenient(value).value;
            Lenient(normal) == Some(normal) && Strict(normal) == Some(normal) && Parts(normal) == Parts(value)
  {
    AsPosixNormal(value);
    StrictIsFixedPoint(Lenient(value).value);
  }

  /** Two spellings are confused exactly when they name the same segments. */
  lemma LenientIdentifiesSpellings(v: string, w: string)
    requires Lenient(v).Some? && Lenient(w).Some?
    ensures Lenient(v) == Lenient(w) <==> Parts(v) == Parts(w)
  {
    LenientIdempotent(v);
    LenientIdempotent(w);
  }

  /** Where following segments one by one leads, `..` going up and stopping at the very top. */
  function Follow(place: seq<string>, segments: seq<string>): seq<string>
    decreases |segments|
  {
    if segments == [] then place
    else
      var s := segments[0];
      var next := if s == "" || s == "." then place
                  else if s == ".." then (if place == [] then [] else place[..|place| - 1])
                  else place + [s];
      Follow(next, segments[1..])
  }

  lemma {:induction false} FollowStays(root: seq<string>, done: seq<string>, segments: seq<string>, k: nat)
    requires k <= |segments| && ".." !in segments
    ensures root <= Follow(root + done, segments[..k])
    ensures Follow(root + done, segments) == root + done + Kept(segments)
    decreases |segments|
  {
    if segments != [] {
      var s := segments[0];
      var next := if s == "" || s == "." then done else done + [s];
      assert root + done + [s] == root + (done + [s]);
      FollowStays(root, next, segments[1..], if k == 0 then 0 else k - 1);
      if k > 0 {
        assert segments[..k][1..] == segments[1..][..k - 1];
      }
      assert root + done + ([s] + Kept(segments[1..])) == root + (done + [s]) + Kept(segments[1..]);
    }
  }

  /** An accepted path never steps outside the root, not even on the way, and ends at root plus its parts. */
  lemma Confined(root: seq<string>, value: string, k: nat)
    requires Lenient(value).Some? && k <= |Split(value, '/')|
    ensures root <= Follow(root, Split(value, '/')[..k])
    ensures Follow(root, Split(value, '/')) == root + Parts(Lenient(value).value)
  {
    LenientIdempotent(value);
    assert root + [] == root;
    assert ".." !in Split(value, '/');
    FollowStays(root, [], Split(value, '/'), k);
  }
}
