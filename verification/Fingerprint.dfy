/** The fingerprint of a worktree listing: path, permissions, type and content of every entry. */
module Fingerprint {
  import opened Sequences
  import opened Wrappers
  import opened Text
  import opened Numerals
  import opened Utf8
  import opened Ordering
  import opened Framing

  datatype Stat = Stat(device: nat, inode: nat, mode: nat, size: nat, modified: nat)

  /** What looking at a path finds: a stat before reading, whatever can be read, and a stat after reading. */
  datatype Entry = Entry(before: Stat, content: Option<Bytes>, after: Option<Stat>, target: Option<Bytes>)

  type FileSystem = map<Bytes, Entry>

  datatype FingerprintError =
    | UnsafeEnumeration
    | ChangedDuringInspection
    | UnsupportedEntry
    | InspectionFailed
    | FrameOverflow

  const REGULAR := 8
  const LINK := 10
  const CHUNK := 1024 * 1024
  // b"regular-file" and b"symbolic-link"
  const REGULAR_TAG: Bytes := [114, 101, 103, 117, 108, 97, 114, 45, 102, 105, 108, 101]
  const LINK_TAG: Bytes := [115, 121, 109, 98, 111, 108, 105, 99, 45, 108, 105, 110, 107]

  function FileType(mode: nat): nat {
    mode / 4096 % 16
  }

  function Permissions(mode: nat): nat {
    mode % 4096
  }

  /** `str(n).encode("ascii")`. */
  function Decimal(n: nat): Bytes {
    AsciiBytes(DecimalText(n))
  }

  /** The listing without the empty field the last NUL leaves. */
  function RawPaths(paths: Bytes): seq<Bytes> {
    var raw := Split(paths, 0);
    if raw[|raw| - 1] == [] then raw[..|raw| - 1] else raw
  }

  const ByteOrder: (Bytes, Bytes) -> bool := (a: Bytes, b: Bytes) => BytesLess(a, b)

  function Listing(paths: Bytes): seq<Bytes> {
    Sorted(RawPaths(paths), ByteOrder)
  }

  predicate SafePath(path: Bytes) {
    path != [] && !StartsWith(path, [47]) && forall part ::
      part in Split(path, 47) ==> part != [] && part != [46] && part != [46, 46]
  }

  /** What the fingerprint is meant to see of an entry. */
  datatype View = FileView(permissions: nat, content: Bytes) | LinkView(permissions: nat, target: Bytes)

  function Inspect(entry: Entry): Result<View, FingerprintError> {
    if FileType(entry.before.mode) == REGULAR then
      if entry.content.None? || entry.after.None? then Err(InspectionFailed)
      else if entry.before != entry.after.value then Err(ChangedDuringInspection)
      else Ok(FileView(Permissions(entry.before.mode), entry.content.value))
    else if FileType(entry.before.mode) == LINK then
      if entry.target.None? then Err(InspectionFailed)
      else if !Frameable(entry.target.value) then Err(FrameOverflow)
      else Ok(LinkView(Permissions(entry.before.mode), entry.target.value))
    else Err(UnsupportedEntry)
  }

  function Tag(view: View): Bytes {
    if view.FileView? then REGULAR_TAG else LINK_TAG
  }

  /** The framed fields every entry starts with. */
  function Header(path: Bytes, view: View): seq<Bytes> {
    [path, Decimal(view.permissions), Tag(view)]
  }

  /** What follows the header: the content of a file as it is, the target of a link in a frame of its own. */
  function Rest(view: View): Bytes {
    if view.FileView? then view.content else Framed(view.target)
  }

  /** The bytes hashed for one entry. */
  function Message(path: Bytes, view: View): Bytes {
    Frames(Header(path, view)) + Rest(view)
  }

  function EntryMessage(fs: FileSystem, path: Bytes): Result<Bytes, FingerprintError> {
    if !SafePath(path) then Err(UnsafeEnumeration)
    else if path !in fs then Err(InspectionFailed)
    else if !Frameable(path) then Err(FrameOverflow)
    else match Inspect(fs[path])
      case Err(e) => Err(e)
      case Ok(view) => Ok(Message(path, view))
  }

  /** Entries are inspected one after the other; the first that fails decides. */
  function Messages(fs: FileSystem, paths: seq<Bytes>): (r: Result<seq<Bytes>, FingerprintError>)
    ensures r.Ok? ==> |r.value| == |paths|
    ensures r.Ok? ==> forall i :: 0 <= i < |paths| ==> EntryMessage(fs, paths[i]) == Ok(r.value[i])
  {
    if paths == [] then Ok([])
    else
      var n := |paths| - 1;
      match Messages(fs, paths[..n])
      case Err(e) => Err(e)
      case Ok(done) =>
        match EntryMessage(fs, paths[n])
        case Err(e) => Err(e)
        case Ok(m) => Ok(done + [m])
  }

  /** The bytes of the aggregate: every entry's digest in a frame of its own. */
  function Aggregate(h: HashFunction, messages: seq<Bytes>): Bytes {
    Frames(Digests(h, messages))
  }

  /** Entry count and hexadecimal digest. */
  function Fingerprint(h: HashFunction, fs: FileSystem, paths: Bytes): Result<(nat, string), FingerprintError> {
    var raw := RawPaths(paths);
    if !Distinct(raw) then Err(UnsafeEnumeration)
    else match Messages(fs, Listing(paths))
      case Err(e) => Err(e)
      case Ok(messages) => Ok((|raw|, Hex(h(Aggregate(h, messages)))))
  }

  // ---------- the computation ----------

  /** Reading in chunks absorbs the content, whole and in order. */
  method AbsorbStream(hasher: Hasher, content: Bytes)
    modifies hasher
    ensures hasher.absorbed == old(hasher.absorbed) + content
  {
    var position := 0;
    Neutral(hasher.absorbed);
    while position < |content|
      invariant 0 <= position <= |content|
      invariant hasher.absorbed == old(hasher.absorbed) + content[..position]
    {
      var next := if position + CHUNK < |content| then position + CHUNK else |content|;
      var chunk := content[position..next];
      Associate(old(hasher.absorbed), content[..position], chunk);
      assert content[..position] + chunk == content[..next];
      hasher.Update(chunk);
      position := next;
    }
    Neutral(content);
  }

  lemma PartsFrameable(mode: nat)
    ensures Frameable(Decimal(Permissions(mode))) && Frameable(REGULAR_TAG) && Frameable(LINK_TAG)
  {
    TextLength(Permissions(mode));
  }

  lemma ThreeFrames(a: Bytes, b: Bytes, c: Bytes)
    ensures [] + Framed(a) + Framed(b) + Framed(c) == Frames([a, b, c])
  {
    assert [a, b, c][1..] == [b, c] && [b, c][1..] == [c] && [c][1..] == [];
    Neutral(Framed(a));
    Neutral(Framed(c));
    assert Frames([c]) == Framed(c);
    Associate(Framed(a), Framed(b), Framed(c));
  }

  /** The framed fields every entry starts with. */
  method AbsorbHeader(entry: Hasher, path: Bytes, mode: Bytes, tag: Bytes)
    requires Frameable(path) && Frameable(mode) && Frameable(tag) && entry.absorbed == []
    modifies entry
    ensures entry.absorbed == Frames([path, mode, tag])
  {
    ThreeFrames(path, mode, tag);
    entry.UpdateFramed(path);
    entry.UpdateFramed(mode);
    entry.UpdateFramed(tag);
  }

  /** The loop body: hash one entry step by step. */
  method HashEntry(h: HashFunction, fs: FileSystem, path: Bytes) returns (r: Result<Bytes, FingerprintError>)
    ensures r == match EntryMessage(fs, path) case Err(e) => Err(e) case Ok(m) => Ok(h(m))
  {
    if !SafePath(path) {
      return Err(UnsafeEnumeration);
    }
    if path !in fs {
      return Err(InspectionFailed);
    }
    if !Frameable(path) {
      return Err(FrameOverflow);
    }
    var found := fs[path];
    var before := found.before;
    var mode := Decimal(Permissions(before.mode));
    var entry := new Hasher();
    PartsFrameable(before.mode);
    if FileType(before.mode) == REGULAR {
      AbsorbHeader(entry, path, mode, REGULAR_TAG);
      if found.content.None? {
        return Err(InspectionFailed);
      }
      AbsorbStream(entry, found.content.value);
      if found.after.None? {
        return Err(InspectionFailed);
      }
      if before != found.after.value {
        return Err(ChangedDuringInspection);
      }
    } else if FileType(before.mode) == LINK {
      AbsorbHeader(entry, path, mode, LINK_TAG);
      if found.target.None? {
        return Err(InspectionFailed);
      }
      if !Frameable(found.target.value) {
        return Err(FrameOverflow);
      }
      entry.UpdateFramed(found.target.value);
    } else {
      return Err(UnsupportedEntry);
    }
    return Ok(entry.Digest(h));
  }

  method FingerprintWorktreeEntries(h: HashFunction, fs: FileSystem, paths: Bytes)
    returns (r: Result<(nat, string), FingerprintError>)
    ensures r == Fingerprint(h, fs, paths)
  {
    var raw := Split(paths, 0);
    if raw[|raw| - 1] == [] {
      raw := raw[..|raw| - 1];
    }
    if !Distinct(raw) {
      return Err(UnsafeEnumeration);
    }
    var aggregate := new Hasher();
    var listing := Sorted(raw, ByteOrder);
    assert listing == Listing(paths);
    for i := 0 to |listing|
      invariant Messages(fs, listing[..i]).Ok?
      invariant aggregate.absorbed == Frames(Digests(h, Messages(fs, listing[..i]).value))
    {
      ghost var done := Messages(fs, listing[..i]).value;
      MessagesStep(fs, listing, i);
      var digest := HashEntry(h, fs, listing[i]);
      if digest.Err? {
        FailureStays(fs, listing, i + 1);
        return Err(digest.error);
      }
      aggregate.UpdateFramed(digest.value);
      DigestsAppend(h, done, EntryMessage(fs, listing[i]).value);
      FramesAppend(Digests(h, done), digest.value);
    }
    Neutral(listing);
    return Ok((|raw|, Hex(aggregate.Digest(h))));
  }

  lemma MessagesStep(fs: FileSystem, paths: seq<Bytes>, i: nat)
    requires i < |paths| && Messages(fs, paths[..i]).Ok?
    ensures Messages(fs, paths[..i + 1]) ==
            match EntryMessage(fs, paths[i])
            case Err(e) => Err(e)
            case Ok(m) => Ok(Messages(fs, paths[..i]).value + [m])
  {
    TakeStep(paths, i);
  }

  lemma {:induction false} FailureStays(fs: FileSystem, paths: seq<Bytes>, k: nat)
    requires k <= |paths| && Messages(fs, paths[..k]).Err?
    ensures Messages(fs, paths) == Messages(fs, paths[..k])
  {
    if k == |paths| {
      Neutral(paths);
    } else {
      var n := |paths| - 1;
      assert paths[..n][..k] == paths[..k];
      FailureStays(fs, paths[..n], k);
    }
  }

  // ---------- what a fingerprint determines ----------

  lemma DecimalInjective(m: nat, n: nat)
    requires Decimal(m) == Decimal(n)
    ensures m == n
  {
    var s, t := DecimalText(m), DecimalText(n);
    assert |s| == |Decimal(m)| && |t| == |Decimal(n)|;
    forall i | 0 <= i < |s| ensures s[i] == t[i] {
      assert Decimal(m)[i] == s[i] as int && Decimal(n)[i] == t[i] as int;
    }
    TextInjective(m, n);
  }

  predicate ViewFrameable(view: View) {
    match view
    case FileView(permissions, _) => permissions < 4096
    case LinkView(permissions, target) => permissions < 4096 && Frameable(target)
  }

  /** One entry's bytes determine the path and everything seen of the entry, although the content is not framed. */
  lemma MessageInjective(p: Bytes, v: View, q: Bytes, w: View)
    requires Frameable(p) && Frameable(q) && ViewFrameable(v) && ViewFrameable(w)
    requires Message(p, v) == Message(q, w)
    ensures p == q && v == w
  {
    PartsFrameable(v.permissions);
    PartsFrameable(w.permissions);
    var a, b := Header(p, v), Header(q, w);
    FramesPrefix(a, b, Rest(v), Rest(w));
    assert a[0] == b[0] && a[1] == b[1] && a[2] == b[2];
    DecimalInjective(v.permissions, w.permissions);
    assert |REGULAR_TAG| != |LINK_TAG|;
    if v.LinkView? {
      Neutral(Framed(v.target));
      Neutral(Framed(w.target));
      FramedPrefix(v.target, w.target, [], []);
    }
  }

  lemma ByteOrderTotal()
    ensures StrictTotalOrder(ByteOrder)
  {
    forall a: Bytes, b: Bytes
      ensures !ByteOrder(a, a)
      ensures a != b ==> ByteOrder(a, b) || ByteOrder(b, a)
    {
      BytesLessTotal(a, b);
      BytesLessTotal(a, a);
    }
    forall a: Bytes, b: Bytes, c: Bytes | ByteOrder(a, b) && ByteOrder(b, c)
      ensures ByteOrder(a, c)
    {
      BytesLessTransitive(a, b, c);
    }
  }

  /** The listing as a finite map: what is seen at each listed path. */
  function Snapshot(fs: FileSystem, paths: Bytes): map<Bytes, View> {
    map p | p in RawPaths(paths) && EntryMessage(fs, p).Ok? :: Inspect(fs[p]).value
  }

  /** Every byte string a fingerprint run hashes. */
  function Hashed(h: HashFunction, fs: FileSystem, paths: Bytes): set<Bytes> {
    match Messages(fs, Listing(paths))
    case Err(_) => {}
    case Ok(messages) => Elements(messages) + {Aggregate(h, messages)}
  }

  lemma ListingFacts(paths: Bytes)
    requires Distinct(RawPaths(paths))
    ensures Ascending(Listing(paths), ByteOrder)
    ensures |Listing(paths)| == |RawPaths(paths)|
    ensures Elements(Listing(paths)) == Elements(RawPaths(paths))
  {
    ByteOrderTotal();
    SortedFacts(RawPaths(paths), ByteOrder);
  }

  lemma EntrySeen(fs: FileSystem, path: Bytes)
    requires EntryMessage(fs, path).Ok?
    ensures path in fs && Frameable(path) && Inspect(fs[path]).Ok?
    ensures ViewFrameable(Inspect(fs[path]).value)
    ensures EntryMessage(fs, path).value == Message(path, Inspect(fs[path]).value)
  {
  }

  /** Every listed path is in the snapshot, and its message is that of its view. */
  lemma SnapshotEntry(fs: FileSystem, paths: Bytes, i: nat)
    requires Distinct(RawPaths(paths)) && i < |Listing(paths)|
    requires Messages(fs, Listing(paths)).Ok?
    ensures var p := Listing(paths)[i];
            && p in Snapshot(fs, paths) && Frameable(p) && ViewFrameable(Snapshot(fs, paths)[p])
            && Messages(fs, Listing(paths)).value[i] == Message(p, Snapshot(fs, paths)[p])
  {
    var p := Listing(paths)[i];
    ListingFacts(paths);
    assert p in Elements(Listing(paths));
    assert EntryMessage(fs, p) == Ok(Messages(fs, Listing(paths)).value[i]);
    EntrySeen(fs, p);
  }

  lemma SnapshotKeys(fs: FileSystem, paths: Bytes)
    requires Distinct(RawPaths(paths)) && Messages(fs, Listing(paths)).Ok?
    ensures Snapshot(fs, paths).Keys == Elements(Listing(paths))
  {
    ListingFacts(paths);
    forall p | p in Elements(Listing(paths)) ensures p in Snapshot(fs, paths) {
      var i :| 0 <= i < |Listing(paths)| && Listing(paths)[i] == p;
      SnapshotEntry(fs, paths, i);
    }
    forall p | p in Snapshot(fs, paths) ensures p in Elements(Listing(paths)) {
      assert p in Elements(RawPaths(paths));
    }
  }

  /** Equal digests mean equal messages, unless two different hashed strings share a digest. */
  lemma SameMessages(h: HashFunction, a: seq<Bytes>, b: seq<Bytes>, hashed: set<Bytes>)
    requires Hex(h(Aggregate(h, a))) == Hex(h(Aggregate(h, b)))
    requires Elements(a) + {Aggregate(h, a)} <= hashed && Elements(b) + {Aggregate(h, b)} <= hashed
    requires NoCollision(h, hashed)
    ensures a == b
  {
    var x, y := Digests(h, a), Digests(h, b);
    DigestsFrameable(h, a);
    DigestsFrameable(h, b);
    HexInjective(h(Frames(x)), h(Frames(y)));
    SameFrames(h, x, y, hashed);
    SameImages(h, a, b, hashed);
  }

  lemma MessagesDecide(h: HashFunction, a: seq<Bytes>, b: seq<Bytes>, hashed: set<Bytes>)
    requires Hex(h(Aggregate(h, a))) == Hex(h(Aggregate(h, b)))
    requires hashed == Elements(a) + {Aggregate(h, a)} + (Elements(b) + {Aggregate(h, b)})
    ensures a == b || Collision(h, hashed)
  {
    if NoCollision(h, hashed) {
      SameMessages(h, a, b, hashed);
    }
  }

  lemma SameSnapshot(fs: FileSystem, paths: Bytes, fs': FileSystem, paths': Bytes)
    requires Distinct(RawPaths(paths)) && Messages(fs, Listing(paths)).Ok?
    requires Distinct(RawPaths(paths')) && Messages(fs', Listing(paths')).Ok?
    ensures Snapshot(fs, paths) == Snapshot(fs', paths')
       <==> Messages(fs, Listing(paths)) == Messages(fs', Listing(paths'))
  {
    var s, t := Listing(paths), Listing(paths');
    var v, w := Snapshot(fs, paths), Snapshot(fs', paths');
    var a, b := Messages(fs, s).value, Messages(fs', t).value;
    SnapshotKeys(fs, paths);
    SnapshotKeys(fs', paths');
    if a == b {
      forall i | 0 <= i < |s| ensures s[i] == t[i] && s[i] in v && t[i] in w && v[s[i]] == w[t[i]] {
        SnapshotEntry(fs, paths, i);
        SnapshotEntry(fs', paths', i);
        MessageInjective(s[i], v[s[i]], t[i], w[t[i]]);
      }
      assert s == t;
      SameEntries(s, v, w);
    }
    if v == w {
      ByteOrderTotal();
      ListingFacts(paths);
      ListingFacts(paths');
      AscendingUnique(s, t, ByteOrder);
      forall i | 0 <= i < |s| ensures a[i] == b[i] {
        SnapshotEntry(fs, paths, i);
        SnapshotEntry(fs', paths', i);
      }
      assert a == b;
    }
  }

  lemma FingerprintsDecide(h: HashFunction, fs: FileSystem, paths: Bytes, fs': FileSystem, paths': Bytes)
    requires Fingerprint(h, fs, paths).Ok? && Fingerprint(h, fs', paths') == Fingerprint(h, fs, paths)
    ensures Messages(fs, Listing(paths)) == Messages(fs', Listing(paths'))
        || Collision(h, Hashed(h, fs, paths) + Hashed(h, fs', paths'))
  {
    Outcome(h, fs, paths);
    Outcome(h, fs', paths');
    var hashed := Hashed(h, fs, paths) + Hashed(h, fs', paths');
    MessagesDecide(h, Messages(fs, Listing(paths)).value, Messages(fs', Listing(paths')).value, hashed);
  }

  /** Equal fingerprints mean that the two listings show the same, or exhibit a hash collision. */
  lemma FingerprintDetermines(h: HashFunction, fs: FileSystem, paths: Bytes, fs': FileSystem, paths': Bytes)
    requires Fingerprint(h, fs, paths).Ok? && Fingerprint(h, fs', paths') == Fingerprint(h, fs, paths)
    ensures Snapshot(fs, paths) == Snapshot(fs', paths') || Collision(h, Hashed(h, fs, paths) + Hashed(h, fs', paths'))
  {
    Outcome(h, fs, paths);
    Outcome(h, fs', paths');
    FingerprintsDecide(h, fs, paths, fs', paths');
    SameSnapshot(fs, paths, fs', paths');
  }

  /** Listings that show the same have equal fingerprints, whatever else differs between the two file systems. */
  lemma FingerprintDepends(h: HashFunction, fs: FileSystem, paths: Bytes, fs': FileSystem, paths': Bytes)
    requires Fingerprint(h, fs, paths).Ok? && Fingerprint(h, fs', paths').Ok?
    requires Snapshot(fs, paths) == Snapshot(fs', paths')
    ensures Fingerprint(h, fs, paths) == Fingerprint(h, fs', paths')
  {
    Outcome(h, fs, paths);
    Outcome(h, fs', paths');
    SameSnapshot(fs, paths, fs', paths');
  }

  /** A fingerprint is a function of the messages alone. */
  lemma Outcome(h: HashFunction, fs: FileSystem, paths: Bytes)
    requires Fingerprint(h, fs, paths).Ok?
    ensures Distinct(RawPaths(paths)) && Messages(fs, Listing(paths)).Ok?
    ensures var messages := Messages(fs, Listing(paths)).value;
            && Fingerprint(h, fs, paths).value == (|messages|, Hex(h(Aggregate(h, messages))))
            && Hashed(h, fs, paths) == Elements(messages) + {Aggregate(h, messages)}
  {
    ListingFacts(paths);
  }

  lemma SameEntries(s: seq<Bytes>, v: map<Bytes, View>, w: map<Bytes, View>)
    requires Elements(s) == v.Keys == w.Keys
    requires forall i :: 0 <= i < |s| ==> s[i] in v && v[s[i]] == w[s[i]]
    ensures v == w
  {
    forall p | p in v ensures v[p] == w[p] {
      assert p in Elements(s);
    }
  }

  /** The order in which git lists the paths does not matter, not even for which failure is reported. */
  lemma FingerprintForgetsOrder(h: HashFunction, fs: FileSystem, paths: Bytes, paths': Bytes)
    requires Distinct(RawPaths(paths)) && Distinct(RawPaths(paths'))
    requires Elements(RawPaths(paths)) == Elements(RawPaths(paths'))
    ensures Fingerprint(h, fs, paths) == Fingerprint(h, fs, paths')
  {
    ByteOrderTotal();
    SortedForgetsOrder(RawPaths(paths), RawPaths(paths'), ByteOrder);
    SortedFacts(RawPaths(paths), ByteOrder);
    SortedFacts(RawPaths(paths'), ByteOrder);
  }
}
