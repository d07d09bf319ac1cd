/** `sorted`: a listing put into ascending order no longer tells in which order it was found. */
module Ordering {
  import opened Sequences

  ghost predicate StrictTotalOrder<T(!new)>(less: (T, T) -> bool) {
    && (forall x :: !less(x, x))
    && (forall x, y :: x != y ==> less(x, y) || less(y, x))
    && (forall x, y, z :: less(x, y) && less(y, z) ==> less(x, z))
  }

  predicate Distinct<T(==)>(s: seq<T>) {
    forall i, j :: 0 <= i < j < |s| ==> s[i] != s[j]
  }

  predicate Ascending<T>(s: seq<T>, less: (T, T) -> bool) {
    forall i, j :: 0 <= i < j < |s| ==> less(s[i], s[j])
  }

  function Elements<T>(s: seq<T>): set<T> {
    set x | x in s
  }

  function Insert<T>(x: T, s: seq<T>, less: (T, T) -> bool): seq<T> {
    if s == [] || less(x, s[0]) then [x] + s else [s[0]] + Insert(x, s[1..], less)
  }

  function Sorted<T>(s: seq<T>, less: (T, T) -> bool): seq<T> {
    if s == [] then [] else Insert(s[0], Sorted(s[1..], less), less)
  }

  lemma {:induction false} InsertFacts<T(!new)>(x: T, s: seq<T>, less: (T, T) -> bool)
    requires StrictTotalOrder(less) && Ascending(s, less) && x !in s
    ensures Ascending(Insert(x, s, less), less)
    ensures |Insert(x, s, less)| == |s| + 1
    ensures forall y :: y in Insert(x, s, less) <==> y == x || y in s
  {
    if s == [] || less(x, s[0]) {
      forall i | 0 <= i < |s| ensures less(x, s[i]) {
        assert i > 0 ==> less(s[0], s[i]);
      }
    } else {
      InsertFacts(x, s[1..], less);
      var rest := Insert(x, s[1..], less);
      forall i | 0 <= i < |rest| ensures less(s[0], rest[i]) {
        assert rest[i] in rest;
        if rest[i] != x {
          var j :| 0 <= j < |s| - 1 && s[1..][j] == rest[i];
          assert less(s[0], s[j + 1]);
        }
      }
    }
  }

  lemma {:induction false} SortedFacts<T(!new)>(s: seq<T>, less: (T, T) -> bool)
    requires StrictTotalOrder(less) && Distinct(s)
    ensures Ascending(Sorted(s, less), less)
    ensures |Sorted(s, less)| == |s|
    ensures Elements(Sorted(s, less)) == Elements(s)
  {
    if s != [] {
      SortedFacts(s[1..], less);
      var rest := Sorted(s[1..], less);
      assert s[0] !in s[1..];
      assert s[0] !in Elements(rest);
      InsertFacts(s[0], rest, less);
      forall y ensures y in Elements(Sorted(s, less)) <==> y in Elements(s) {
        assert y in Elements(rest) <==> y in Elements(s[1..]);
        assert y in s <==> y == s[0] || y in s[1..];
      }
    }
  }

  lemma NoElements<T>(s: seq<T>)
    ensures Elements(s) == {} <==> s == []
  {
    if s != [] {
      assert s[0] in Elements(s);
    }
  }

  /** A finite set has one ascending listing. */
  lemma {:induction false} AscendingUnique<T(!new)>(s: seq<T>, t: seq<T>, less: (T, T) -> bool)
    requires StrictTotalOrder(less) && Ascending(s, less) && Ascending(t, less)
    requires Elements(s) == Elements(t)
    ensures s == t
  {
    if s == [] || t == [] {
      NoElements(s);
      NoElements(t);
    } else {
      assert s[0] in Elements(t) && t[0] in Elements(s);
      assert s[0] == t[0];
      forall x ensures x in Elements(s[1..]) <==> x in Elements(t[1..]) {
        assert x in s <==> x == s[0] || x in s[1..];
        assert x in t <==> x == t[0] || x in t[1..];
        assert x in Elements(s) <==> x in Elements(t);
      }
      AscendingUnique(s[1..], t[1..], less);
      Uncons(s);
      Uncons(t);
    }
  }

  /** Sorting forgets the order of discovery and nothing else. */
  lemma SortedForgetsOrder<T(!new)>(s: seq<T>, t: seq<T>, less: (T, T) -> bool)
    requires StrictTotalOrder(less) && Distinct(s) && Distinct(t)
    ensures Sorted(s, less) == Sorted(t, less) <==> Elements(s) == Elements(t)
  {
    SortedFacts(s, less);
    SortedFacts(t, less);
    if Elements(s) == Elements(t) {
      AscendingUnique(Sorted(s, less), Sorted(t, less), less);
    }
  }

  /** Byte strings compare at the first byte that differs; a proper prefix comes first. */
  predicate BytesLess(a: seq<int>, b: seq<int>) {
    if a == [] || b == [] then a == [] && b != []
    else if a[0] != b[0] then a[0] < b[0]
    else BytesLess(a[1..], b[1..])
  }

  lemma {:induction false} BytesLessTotal(a: seq<int>, b: seq<int>)
    ensures BytesLess(a, b) && BytesLess(b, a) ==> false
    ensures a == b ==> !BytesLess(a, b)
    ensures a != b ==> BytesLess(a, b) || BytesLess(b, a)
  {
    if a != [] && b != [] {
      BytesLessTotal(a[1..], b[1..]);
      Uncons(a);
      Uncons(b);
    }
  }

  lemma {:induction false} BytesLessTransitive(a: seq<int>, b: seq<int>, c: seq<int>)
    requires BytesLess(a, b) && BytesLess(b, c)
    ensures BytesLess(a, c)
  {
    if a != [] && b != [] && c != [] && a[0] == b[0] == c[0] {
      BytesLessTransitive(a[1..], b[1..], c[1..]);
    }
  }
}
