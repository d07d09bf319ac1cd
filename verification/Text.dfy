/** Splitting and joining, the only text operations the gates build on. */
module Text {
  import opened Sequences

  predicate StartsWith<T(==)>(s: seq<T>, prefix: seq<T>) {
    prefix <= s
  }

  predicate EndsWith<T(==)>(s: seq<T>, suffix: seq<T>) {
    |suffix| <= |s| && s[|s| - |suffix|..] == suffix
  }

  /** `part in text`. */
  predicate Contains(text: string, part: string) {
    exists i :: 0 <= i <= |text| && part <= text[i..]
  }

  /** `sep.join(fields)`. */
  function Join<T>(fields: seq<seq<T>>, sep: seq<T>): seq<T> {
    if fields == [] then []
    else if |fields| == 1 then fields[0]
    else fields[0] + sep + Join(fields[1..], sep)
  }

  /** `s.split(sep)`: the fields between separators, at least one, each free of the separator. */
  function Split<T(==)>(s: seq<T>, sep: T): (fields: seq<seq<T>>)
    ensures |fields| >= 1
    ensures forall f :: f in fields ==> sep !in f
    ensures Join(fields, [sep]) == s
  {
    if s == [] then [[]]
    else
      var rest := Split(s[1..], sep);
      if s[0] == sep then
        assert Join([[]] + rest, [sep]) == [] + [sep] + Join(rest, [sep]) by { assert ([[]] + rest)[1..] == rest; }
        [[]] + rest
      else
        SplitHead(s[0], rest, sep);
        [[s[0]] + rest[0]] + rest[1..]
  }

  lemma SplitHead<T>(c: T, rest: seq<seq<T>>, sep: T)
    requires |rest| >= 1
    ensures Join([[c] + rest[0]] + rest[1..], [sep]) == [c] + Join(rest, [sep])
  {
    var fields := [[c] + rest[0]] + rest[1..];
    assert fields[0] == [c] + rest[0] && fields[1..] == rest[1..];
    if |rest| > 1 {
      Associate([c], rest[0], [sep]);
      Associate([c], rest[0] + [sep], Join(rest[1..], [sep]));
    }
  }

  lemma {:induction false} SplitAtFirst<T>(f: seq<T>, rest: seq<T>, sep: T)
    requires sep !in f
    ensures Split(f, sep) == [f]
    ensures Split(f + [sep] + rest, sep) == [f] + Split(rest, sep)
  {
    Associate(f, [sep], rest);
    if f == [] {
      Neutral([sep] + rest);
      Cons(sep, rest);
    } else {
      SplitAtFirst(f[1..], rest, sep);
      Uncons(f);
      TailAppend(f, [sep] + rest);
      Associate(f[1..], [sep], rest);
    }
  }

  /** Splitting undoes joining: together with Split's contract, the two are mutual inverses. */
  lemma {:induction false} SplitJoin<T>(fields: seq<seq<T>>, sep: T)
    requires |fields| >= 1
    requires forall f :: f in fields ==> sep !in f
    ensures Split(Join(fields, [sep]), sep) == fields
  {
    SplitAtFirst(fields[0], Join(fields[1..], [sep]), sep);
    if |fields| > 1 {
      SplitJoin(fields[1..], sep);
    }
  }

  /** `s.split(sep, 1)[0]`: everything before the first separator. */
  function Before<T(==)>(s: seq<T>, sep: T): (head: seq<T>)
    ensures head <= s && sep !in head
    ensures head == s || (|head| < |s| && s[|head|] == sep)
  {
    if s == [] || s[0] == sep then [] else [s[0]] + Before(s[1..], sep)
  }

  /** What `Before` leaves: empty, or a suffix that starts with the separator. */
  function From<T(==)>(s: seq<T>, sep: T): (tail: seq<T>)
    ensures Before(s, sep) + tail == s
    ensures tail == [] || tail[0] == sep
  {
    s[|Before(s, sep)|..]
  }

  lemma FromAppend<T>(s: seq<T>, t: seq<T>, sep: T)
    requires Before(s + t, sep) == Before(s, sep)
    ensures From(s + t, sep) == From(s, sep) + t
  {
  }

  lemma {:induction false} BeforeAppend<T>(s: seq<T>, t: seq<T>, sep: T)
    requires t == [] || t[0] == sep || sep in s
    ensures Before(s + t, sep) == Before(s, sep)
    ensures From(s + t, sep) == From(s, sep) + t
  {
    if s == [] {
      Neutral(t);
    } else {
      TailAppend(s, t);
      if s[0] != sep {
        BeforeAppend(s[1..], t, sep);
      }
    }
    FromAppend(s, t, sep);
  }
}
