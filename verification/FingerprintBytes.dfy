/** The bytes behind a fingerprint, spelled out: listings, safe paths, modes, and what is hashed for an entry. */
module FingerprintBytes {
  import opened Sequences
  import opened Text
  import opened Numerals
  import opened Utf8
  import opened Ordering
  import opened Framing
  import opened Fingerprint

  // ---------- the listing ----------

  /** Paths between NULs, with or without one at the very end. */
  lemma RawPathsExactly(paths: seq<Bytes>)
    requires forall p :: p in paths ==> 0 !in p
    ensures RawPaths(Join(paths + [[]], [0])) == paths
    ensures paths != [] && paths[|paths| - 1] != [] ==> RawPaths(Join(paths, [0])) == paths
  {
    var all := paths + [[]];
    SplitJoin(all, 0);
    assert all[..|all| - 1] == paths;
    if paths != [] {
      SplitJoin(paths, 0);
    }
  }

  predicate Differ(a: Bytes, b: Bytes, k: nat) {
    && k <= |a| && k <= |b| && a[..k] == b[..k]
    && k < |b| && (k == |a| || a[k] < b[k])
  }

  /** Paths are sorted by the first byte that differs, a proper prefix coming first. */
  lemma {:induction false} ByteOrderExactly(a: Bytes, b: Bytes)
    ensures BytesLess(a, b) <==> exists k: nat :: Differ(a, b, k)
  {
    if a == [] || b == [] || a[0] != b[0] {
      if BytesLess(a, b) {
        assert Differ(a, b, 0);
      }
      if k: nat :| Differ(a, b, k) {
        SameFirst(a, b, k);
      }
    } else {
      ByteOrderExactly(a[1..], b[1..]);
      if BytesLess(a, b) {
        var k: nat :| Differ(a[1..], b[1..], k);
        DifferCons(a, b, k);
      }
      if k: nat :| Differ(a, b, k) {
        assert k > 0;
        DifferTail(a, b, k);
      }
    }
  }

  lemma SameFirst(a: Bytes, b: Bytes, k: nat)
    requires Differ(a, b, k)
    ensures k > 0 ==> a != [] && b != [] && a[0] == b[0]
  {
    if k > 0 {
      assert a[0] == a[..k][0] && b[0] == b[..k][0];
    }
  }

  lemma DifferCons(a: Bytes, b: Bytes, k: nat)
    requires a != [] && b != [] && a[0] == b[0] && Differ(a[1..], b[1..], k)
    ensures Differ(a, b, k + 1)
  {
    assert a[..k + 1] == [a[0]] + a[1..][..k] && b[..k + 1] == [b[0]] + b[1..][..k];
  }

  lemma DifferTail(a: Bytes, b: Bytes, k: nat)
    requires k > 0 && Differ(a, b, k)
    ensures Differ(a[1..], b[1..], k - 1)
  {
    assert a[1..][..k - 1] == a[..k][1..] && b[1..][..k - 1] == b[..k][1..];
  }

  // ---------- paths and modes ----------

  /** A segment that neither stays in place nor goes up. */
  predicate ProperSegment(part: Bytes) {
    part != [] && part != AsciiBytes(".") && part != AsciiBytes("..") && 47 !in part
  }

  ghost predicate JoinsProper(path: Bytes, parts: seq<Bytes>) {
    parts != [] && path == Join(parts, [47]) && forall k :: 0 <= k < |parts| ==> ProperSegment(parts[k])
  }

  /** A path is safe exactly when it is proper segments put together with slashes. */
  lemma SafePathExactly(path: Bytes)
    ensures SafePath(path) <==> exists parts: seq<Bytes> :: JoinsProper(path, parts)
  {
    Dots();
    if SafePath(path) {
      var parts := Split(path, 47);
      assert forall k :: 0 <= k < |parts| ==> parts[k] in parts;
      assert JoinsProper(path, parts);
    }
    if parts: seq<Bytes> :| JoinsProper(path, parts) {
      forall p | p in parts ensures 47 !in p {
        var k :| 0 <= k < |parts| && parts[k] == p;
        assert ProperSegment(parts[k]);
      }
      SplitJoin(parts, 47);
      assert ProperSegment(parts[0]) && path[0] == parts[0][0];
    }
  }

  lemma Dots()
    ensures AsciiBytes(".") == [46] && AsciiBytes("..") == [46, 46]
  {
  }

  /** Of a mode only four bits of type and twelve bits of permissions are looked at. */
  lemma ModeExactly(high: nat, kind: nat, permissions: nat)
    requires kind < 16 && permissions < 4096
    ensures var mode := 65536 * high + 4096 * kind + permissions;
            FileType(mode) == kind && Permissions(mode) == permissions
  {
    var mode, upper := 65536 * high + 4096 * kind + permissions, 16 * high + kind;
    assert mode == 4096 * upper + permissions;
    assert mode / 4096 == upper && mode % 4096 == permissions;
    assert upper % 16 == kind;
  }

  // ---------- what is hashed ----------

  lemma Tags()
    ensures REGULAR_TAG == AsciiBytes("regular-file") && LINK_TAG == AsciiBytes("symbolic-link")
  {
  }

  /** The text in a frame of its own. */
  ghost predicate FramesText(frame: Bytes, text: string) {
    (forall i :: 0 <= i < |text| ==> text[i] < 128 as char) && IsFrame(frame, AsciiBytes(text))
  }

  ghost predicate Spells(m: Bytes, path: Bytes, view: View, a: Bytes, b: Bytes, c: Bytes, d: Bytes) {
    && m == a + b + c + d
    && IsFrame(a, path) && FramesText(b, DecimalText(view.permissions))
    && match view
       case FileView(_, content) => FramesText(c, "regular-file") && d == content
       case LinkView(_, target) => FramesText(c, "symbolic-link") && IsFrame(d, target)
  }

  /** An entry's message is its path, the text of its permissions and its kind, each framed, and then what it holds. */
  lemma MessageExactly(m: Bytes, path: Bytes, view: View)
    requires Frameable(path) && ViewFrameable(view)
    ensures m == Message(path, view) <==> exists a, b, c, d :: Spells(m, path, view, a, b, c, d)
  {
    Tags();
    PartsFrameable(view.permissions);
    var tag := Tag(view);
    var x, y, z, w := Framed(path), Framed(Decimal(view.permissions)), Framed(tag), Rest(view);
    MessageParts(path, view);
    FramedExactly(x, path);
    FramedExactly(y, Decimal(view.permissions));
    FramedExactly(z, tag);
    if view.LinkView? {
      FramedExactly(w, view.target);
    }
    if m == Message(path, view) {
      assert Spells(m, path, view, x, y, z, w);
    }
    if a, b, c, d :| Spells(m, path, view, a, b, c, d) {
      FramedExactly(a, path);
      FramedExactly(b, Decimal(view.permissions));
      FramedExactly(c, tag);
      if view.LinkView? {
        FramedExactly(d, view.target);
      }
    }
  }

  lemma MessageParts(path: Bytes, view: View)
    ensures Message(path, view)
            == Framed(path) + Framed(Decimal(view.permissions)) + Framed(Tag(view)) + Rest(view)
  {
    ThreeFrames(path, Decimal(view.permissions), Tag(view));
    Neutral(Framed(path));
  }
}
