/** The digest of a set of files: framed pairs of path and content digest, in sorted order. */
module TreeDigest {
  import opened Sequences
  import opened Wrappers
  import opened Utf8
  import opened Ordering
  import opened Framing

  /** Contents by path; a path is held as the UTF-8 bytes that are hashed for it. */
  type Tree = map<Bytes, Bytes>

  /** How a script sorts paths: as texts, or segment by segment. */
  type Order = (Bytes, Bytes) -> bool

  datatype DigestError = Unavailable | PathTooLong

  /** Each path followed by its digest. */
  function Interleave(paths: seq<Bytes>, digests: seq<Bytes>): seq<Bytes>
    requires |paths| == |digests|
  {
    if paths == [] then [] else [paths[0], digests[0]] + Interleave(paths[1..], digests[1..])
  }

  predicate Digestible(tree: Tree, paths: seq<Bytes>) {
    forall i :: 0 <= i < |paths| ==> paths[i] in tree && Frameable(paths[i])
  }

  function Contents(tree: Tree, paths: seq<Bytes>): (contents: seq<Bytes>)
    requires Digestible(tree, paths)
    ensures |contents| == |paths|
  {
    seq(|paths|, i requires 0 <= i < |paths| => tree[paths[i]])
  }

  function Aggregate(h: HashFunction, paths: seq<Bytes>, contents: seq<Bytes>): Bytes
    requires |paths| == |contents|
  {
    Frames(Interleave(paths, Digests(h, contents)))
  }

  /** The digest of the listed files, however the listing was discovered. */
  function Digest(h: HashFunction, tree: Tree, found: seq<Bytes>, less: Order): string
    requires Digestible(tree, Sorted(found, less))
  {
    var paths := Sorted(found, less);
    Labelled(h(Aggregate(h, paths, Contents(tree, paths))))
  }

  lemma {:induction false} InterleaveAppend(paths: seq<Bytes>, digests: seq<Bytes>, p: Bytes, d: Bytes)
    requires |paths| == |digests|
    ensures Interleave(paths + [p], digests + [d]) == Interleave(paths, digests) + [p] + [d]
  {
    if paths == [] {
      assert [p][1..] == [] && [d][1..] == [];
      assert paths + [p] == [p] && digests + [d] == [d];
    } else {
      assert (paths + [p])[1..] == paths[1..] + [p] && (digests + [d])[1..] == digests[1..] + [d];
      InterleaveAppend(paths[1..], digests[1..], p, d);
    }
  }

  lemma AggregateStep(h: HashFunction, paths: seq<Bytes>, contents: seq<Bytes>, p: Bytes, c: Bytes)
    requires |paths| == |contents|
    ensures Aggregate(h, paths + [p], contents + [c]) == Aggregate(h, paths, contents) + Framed(p) + Framed(h(c))
  {
    var fields := Interleave(paths, Digests(h, contents));
    DigestsAppend(h, contents, c);
    InterleaveAppend(paths, Digests(h, contents), p, h(c));
    FramesAppend(fields, p);
    FramesAppend(fields + [p], h(c));
  }

  lemma TreeStep(h: HashFunction, tree: Tree, paths: seq<Bytes>, i: nat)
    requires i < |paths| && Digestible(tree, paths[..i]) && paths[i] in tree && Frameable(paths[i])
    ensures Digestible(tree, paths[..i + 1])
    ensures Aggregate(h, paths[..i + 1], Contents(tree, paths[..i + 1]))
         == Aggregate(h, paths[..i], Contents(tree, paths[..i])) + Framed(paths[i]) + Framed(h(tree[paths[i]]))
  {
    TakeStep(paths, i);
    assert Contents(tree, paths[..i + 1]) == Contents(tree, paths[..i]) + [tree[paths[i]]];
    AggregateStep(h, paths[..i], Contents(tree, paths[..i]), paths[i], tree[paths[i]]);
  }

  /** The digest is a label and the hash of the aggregate in hexadecimal: two digits a byte, the high one first. */
  lemma DigestSpelled(h: HashFunction, tree: Tree, found: seq<Bytes>, less: Order)
    requires Digestible(tree, Sorted(found, less))
    ensures var paths, digest := Sorted(found, less), Digest(h, tree, found, less);
            && |digest| == 71 && digest[..7] == "sha256:" && IsHex(digest[7..])
            && HexValue(digest[7..]) == Value(h(Aggregate(h, paths, Contents(tree, paths))))
  {
    var paths := Sorted(found, less);
    var hash := h(Aggregate(h, paths, Contents(tree, paths)));
    HexSpells(hash);
    TakeAppend("sha256:", Hex(hash));
  }

  /** The loop shared by the P8 and P9 provenance gates and the P9 public tree. */
  method FramedDigest(h: HashFunction, tree: Tree, found: seq<Bytes>, less: Order)
      returns (r: Result<string, DigestError>)
    ensures r.Ok? <==> Digestible(tree, Sorted(found, less))
    ensures r.Ok? ==> r.value == Digest(h, tree, found, less)
  {
    var aggregate := new Hasher();
    var paths := Sorted(found, less);
    for i := 0 to |paths|
      invariant Digestible(tree, paths[..i])
      invariant aggregate.absorbed == Aggregate(h, paths[..i], Contents(tree, paths[..i]))
    {
      var path := paths[i];
      if path !in tree {
        return Err(Unavailable);
      }
      if !Frameable(path) {
        return Err(PathTooLong);
      }
      aggregate.UpdateFramed(path);
      aggregate.UpdateFramed(h(tree[path]));
      TreeStep(h, tree, paths, i);
    }
    Neutral(paths);
    return Ok(Labelled(aggregate.Digest(h)));
  }

  // ---------- what the digest determines ----------

  function Restricted(tree: Tree, found: seq<Bytes>): Tree {
    map p | p in found && p in tree :: tree[p]
  }

  /** Every byte string the digest of a listing hashes. */
  function Hashed(h: HashFunction, paths: seq<Bytes>, contents: seq<Bytes>): set<Bytes>
    requires |paths| == |contents|
  {
    Elements(contents) + {Aggregate(h, paths, contents)}
  }

  lemma {:induction false} InterleaveFrameable(paths: seq<Bytes>, digests: seq<Bytes>)
    requires |paths| == |digests| && AllFrameable(paths) && AllFrameable(digests)
    ensures AllFrameable(Interleave(paths, digests)) && |Interleave(paths, digests)| == 2 * |paths|
  {
    if paths != [] {
      InterleaveFrameable(paths[1..], digests[1..]);
    }
  }

  lemma {:induction false} InterleaveInjective(p: seq<Bytes>, d: seq<Bytes>, q: seq<Bytes>, e: seq<Bytes>)
    requires |p| == |d| && |q| == |e| && Interleave(p, d) == Interleave(q, e)
    ensures p == q && d == e
  {
    if p != [] && q != [] {
      TakeAppend([p[0], d[0]], Interleave(p[1..], d[1..]));
      TakeAppend([q[0], e[0]], Interleave(q[1..], e[1..]));
      assert Interleave(p, d)[0] == p[0] && Interleave(p, d)[1] == d[0];
      InterleaveInjective(p[1..], d[1..], q[1..], e[1..]);
      Uncons(p);
      Uncons(d);
      Uncons(q);
      Uncons(e);
    }
  }

  /** For sorted listings: equal digests mean the same paths with the same contents, or exhibit a collision. */
  lemma ListingDetermines(h: HashFunction, p: seq<Bytes>, a: seq<Bytes>, q: seq<Bytes>, b: seq<Bytes>)
    requires |p| == |a| && |q| == |b| && AllFrameable(p) && AllFrameable(q)
    requires h(Aggregate(h, p, a)) == h(Aggregate(h, q, b))
    ensures Collision(h, Hashed(h, p, a) + Hashed(h, q, b)) || (p == q && a == b)
  {
    var hashed := Hashed(h, p, a) + Hashed(h, q, b);
    if NoCollision(h, hashed) {
      var d, e := Digests(h, a), Digests(h, b);
      DigestsFrameable(h, a);
      DigestsFrameable(h, b);
      InterleaveFrameable(p, d);
      InterleaveFrameable(q, e);
      SameFrames(h, Interleave(p, d), Interleave(q, e), hashed);
      InterleaveInjective(p, d, q, e);
      SameImages(h, a, b, hashed);
    }
  }

  lemma RestrictedEntries(tree: Tree, found: seq<Bytes>, less: Order)
    requires StrictTotalOrder(less) && Distinct(found) && Digestible(tree, Sorted(found, less))
    ensures var m, p := Restricted(tree, found), Sorted(found, less);
            m.Keys == Elements(p) && forall i :: 0 <= i < |p| ==> p[i] in m && m[p[i]] == Contents(tree, p)[i]
    ensures Ascending(Sorted(found, less), less) && AllFrameable(Sorted(found, less))
  {
    SortedFacts(found, less);
    var m, p := Restricted(tree, found), Sorted(found, less);
    forall x | x in Elements(p) ensures x in m {
      assert x in Elements(found);
    }
    forall x | x in m ensures x in Elements(p) {
      assert x in Elements(found);
    }
    assert forall i :: 0 <= i < |p| ==> p[i] in Elements(p);
  }

  lemma SameEntries(m: Tree, n: Tree, p: seq<Bytes>)
    requires m.Keys == n.Keys == Elements(p)
    requires forall i :: 0 <= i < |p| ==> p[i] in m && m[p[i]] == n[p[i]]
    ensures m == n
  {
    forall x | x in m ensures m[x] == n[x] {
      assert x in Elements(p);
    }
  }

  /** Equal tree digests mean identical path-to-content maps, or exhibit a hash collision. */
  lemma DigestDetermines(h: HashFunction, s: Tree, found: seq<Bytes>, t: Tree, found': seq<Bytes>, less: Order)
    requires StrictTotalOrder(less) && Distinct(found) && Distinct(found')
    requires Digestible(s, Sorted(found, less)) && Digestible(t, Sorted(found', less))
    requires Digest(h, s, found, less) == Digest(h, t, found', less)
    ensures var p, q := Sorted(found, less), Sorted(found', less);
            || Restricted(s, found) == Restricted(t, found')
            || Collision(h, Hashed(h, p, Contents(s, p)) + Hashed(h, q, Contents(t, q)))
  {
    var p, q := Sorted(found, less), Sorted(found', less);
    var a, b := Contents(s, p), Contents(t, q);
    LabelledInjective(h(Aggregate(h, p, a)), h(Aggregate(h, q, b)));
    RestrictedEntries(s, found, less);
    RestrictedEntries(t, found', less);
    ListingDetermines(h, p, a, q, b);
    if p == q && a == b {
      SameEntries(Restricted(s, found), Restricted(t, found'), p);
    }
  }

  /** The digest depends on the path-to-content map alone, not on the order of discovery. */
  lemma DigestDepends(h: HashFunction, s: Tree, found: seq<Bytes>, t: Tree, found': seq<Bytes>, less: Order)
    requires StrictTotalOrder(less) && Distinct(found) && Distinct(found')
    requires Digestible(s, Sorted(found, less)) && Digestible(t, Sorted(found', less))
    requires Restricted(s, found) == Restricted(t, found')
    ensures Digest(h, s, found, less) == Digest(h, t, found', less)
  {
    var p, q := Sorted(found, less), Sorted(found', less);
    RestrictedEntries(s, found, less);
    RestrictedEntries(t, found', less);
    AscendingUnique(p, q, less);
    assert Contents(s, p) == Contents(t, q);
  }
}
