/** What a finished walk over an image layout has visited, whatever order it took descriptors in. */
module OciReachability {
  import opened Wrappers
  import opened JsonValues
  import opened OciLayout
  import opened Reachability

  predicate IsChildOf(l: Layout, d: Json, p: Json) {
    Expandable(l, p) && d in Children(l, p)
  }

  function ChildRelation(l: Layout): (Json, Json) -> bool {
    (c: Json, p: Json) => IsChildOf(l, c, p)
  }

  /** Descriptors that expanding descriptors, from the index on, leads to. */
  ghost predicate Reachable(l: Layout, roots: seq<Json>, d: Json) {
    Reaches(ChildRelation(l), roots, d)
  }

  /** Whatever refers to one digest refers to it in one way. */
  ghost predicate SingleKind(l: Layout, roots: seq<Json>) {
    forall a, b :: Reachable(l, roots, a) && Reachable(l, roots, b) && SameTarget(a, b) ==> KindOf(a) == KindOf(b)
  }

  predicate SameTarget(a: Json, b: Json) {
    HasDigest(a) && HasDigest(b) && DigestOf(a) == DigestOf(b)
  }

  // ---------- the invariant ----------

  /**
   * Every descriptor ever enqueued is still waiting, or names a
   * present blob that hashes to its digest and is checked.
   */
  ghost predicate Accounted(l: Layout, w: Walk, seen: set<Json>) {
    forall d :: d in seen ==> d in w.queue || (Verified(l, d) && DigestOf(d) in w.checked)
  }

  ghost predicate OnlyReachable(l: Layout, roots: seq<Json>, seen: set<Json>) {
    forall d :: d in seen ==> Reachable(l, roots, d)
  }

  /** A descriptor is in the index, or a document read so far refers to it. */
  ghost predicate HasSource(l: Layout, roots: seq<Json>, first: map<string, Json>, d: Json) {
    d in roots || exists x :: x in first && IsChildOf(l, d, first[x])
  }

  ghost predicate Sourced(l: Layout, roots: seq<Json>, seen: set<Json>, first: map<string, Json>) {
    forall d :: d in seen ==> HasSource(l, roots, first, d)
  }

  ghost predicate Enqueued(roots: seq<Json>, w: Walk, seen: set<Json>) {
    (forall d :: d in roots ==> d in seen) && (forall d :: d in w.queue ==> d in seen)
  }

  /** The descriptor through which a digest was checked, and whose children were enqueued. */
  ghost predicate Expanded(l: Layout, seen: set<Json>, x: string, d: Json) {
    && d in seen && Expandable(l, d) && DigestOf(d) == x
    && forall c :: c in Children(l, d) ==> c in seen
  }

  ghost predicate FirstVisits(l: Layout, w: Walk, seen: set<Json>, first: map<string, Json>) {
    first.Keys == w.checked && forall x :: x in first ==> Expanded(l, seen, x, first[x])
  }

  /** The digests whose descriptor passes a test. */
  function Select(first: map<string, Json>, test: Json -> bool): set<string> {
    set x | x in first && test(first[x])
  }

  function ConfigTest(): Json -> bool {
    (d: Json) => KindOf(d) == Config
  }

  function ConfigsIn(first: map<string, Json>): set<string> {
    Select(first, ConfigTest())
  }

  predicate IsManifest(l: Layout, d: Json) {
    Expandable(l, d) && CountsAsManifest(l, d)
  }

  function ManifestTest(l: Layout): Json -> bool {
    (d: Json) => IsManifest(l, d)
  }

  function ManifestsIn(l: Layout, first: map<string, Json>): set<string> {
    Select(first, ManifestTest(l))
  }

  /** The platforms a descriptor contributes when it is expanded. */
  function Contribution(d: Json): set<string> {
    if IsLayer(d) || PlatformOf(d).Err? then {} else PlatformOf(d).value
  }

  function PlatformsIn(first: map<string, Json>): set<string> {
    set x, p | x in first && p in Contribution(first[x]) :: p
  }

  ghost predicate Counted(l: Layout, w: Walk, first: map<string, Json>) {
    && w.configs == |ConfigsIn(first)|
    && w.manifests == |ManifestsIn(l, first)|
    && w.platforms == PlatformsIn(first)
  }

  ghost predicate Invariant(l: Layout, roots: seq<Json>, w: Walk, seen: set<Json>, first: map<string, Json>) {
    && Enqueued(roots, w, seen) && OnlyReachable(l, roots, seen) && Accounted(l, w, seen)
    && FirstVisits(l, w, seen, first) && Counted(l, w, first) && Sourced(l, roots, seen, first)
  }

  function Start(roots: seq<Json>): Walk {
    Walk(roots, {}, {}, 0, 0)
  }

  lemma InvariantStarts(l: Layout, roots: seq<Json>)
    ensures Invariant(l, roots, Start(roots), set d | d in roots, map[])
  {
    forall d | d in roots ensures Reachable(l, roots, d) {
      RootsReached(ChildRelation(l), roots, d);
    }
  }

  /** The queue without the element at an index. */
  function Without(queue: seq<Json>, i: nat): seq<Json>
    requires i < |queue|
  {
    queue[..i] + queue[i + 1..]
  }

  lemma WithoutMembers(queue: seq<Json>, i: nat, d: Json)
    requires i < |queue|
    ensures d in queue <==> d == queue[i] || d in Without(queue, i)
  {
    if d in queue {
      var j :| 0 <= j < |queue| && queue[j] == d;
      if j < i {
        assert Without(queue, i)[j] == d;
      } else if j > i {
        assert Without(queue, i)[j - 1] == d;
      }
    }
  }

  /** What taking the element at an index makes of the state. */
  function StepAt(l: Layout, w: Walk, i: nat): Result<Walk, OciError>
    requires i < |w.queue|
  {
    Visit(l, w.(queue := Without(w.queue, i)), w.queue[i])
  }

  lemma ChildrenReachable(l: Layout, roots: seq<Json>, p: Json)
    requires Reachable(l, roots, p) && Expandable(l, p)
    ensures forall c :: c in Children(l, p) ==> Reachable(l, roots, c)
  {
    forall c | c in Children(l, p) ensures Reachable(l, roots, c) {
      assert ChildRelation(l)(c, p);
      ChildReached(ChildRelation(l), roots, p, c);
    }
  }

  function AddChildren(l: Layout, seen: set<Json>, d: Json): set<Json>
    requires Expandable(l, d)
  {
    seen + set c | c in Children(l, d)
  }

  /** Adding one entry adds its key to a selection, or nothing. */
  lemma SelectStep(first: map<string, Json>, x: string, d: Json, test: Json -> bool)
    requires x !in first
    ensures |Select(first[x := d], test)| == |Select(first, test)| + if test(d) then 1 else 0
  {
    assert Select(first[x := d], test) == Select(first, test) + if test(d) then {x} else {};
  }

  lemma PlatformsStep(first: map<string, Json>, x: string, d: Json)
    requires x !in first
    ensures PlatformsIn(first[x := d]) == PlatformsIn(first) + Contribution(d)
  {
    var first' := first[x := d];
    forall p ensures p in PlatformsIn(first') <==> p in PlatformsIn(first) + Contribution(d) {
      if p in PlatformsIn(first) {
        var y :| y in first && p in Contribution(first[y]);
        assert y in first' && first'[y] == first[y];
      }
      if p in Contribution(d) {
        assert first'[x] == d;
      }
    }
  }

  lemma VisitCounts(l: Layout, w: Walk, d: Json)
    requires Visit(l, w, d).Ok? && DigestOf(d) !in w.checked
    ensures var w' := Visit(l, w, d).value;
            && w'.configs == w.configs + (if KindOf(d) == Config then 1 else 0)
            && w'.manifests == w.manifests + (if IsManifest(l, d) then 1 else 0)
            && w'.platforms == w.platforms + Contribution(d)
  {
    assert Expandable(l, d);
    if !IsLayer(d) {
      assert PlatformOf(d).Ok?;
    }
  }

  lemma CountedStep(l: Layout, w: Walk, d: Json, first: map<string, Json>)
    requires Counted(l, w, first) && first.Keys == w.checked && Visit(l, w, d).Ok? && DigestOf(d) !in w.checked
    ensures Counted(l, Visit(l, w, d).value, first[DigestOf(d) := d])
  {
    VisitCounts(l, w, d);
    SelectStep(first, DigestOf(d), d, ConfigTest());
    SelectStep(first, DigestOf(d), d, ManifestTest(l));
    PlatformsStep(first, DigestOf(d), d);
  }

  lemma FirstVisitsStep(l: Layout, w: Walk, d: Json, seen: set<Json>, first: map<string, Json>)
    requires FirstVisits(l, w, seen, first) && d in seen && Visit(l, w, d).Ok? && DigestOf(d) !in w.checked
    ensures FirstVisits(l, Visit(l, w, d).value, AddChildren(l, seen, d), first[DigestOf(d) := d])
  {
    var first' := first[DigestOf(d) := d];
    assert first'.Keys == w.checked + {DigestOf(d)};
    forall x | x in first' ensures Expanded(l, AddChildren(l, seen, d), x, first'[x]) {
      assert x != DigestOf(d) ==> Expanded(l, seen, x, first[x]);
    }
  }

  lemma SourcedStep(l: Layout, roots: seq<Json>, d: Json, seen: set<Json>, first: map<string, Json>)
    requires Sourced(l, roots, seen, first) && Expandable(l, d) && DigestOf(d) !in first
    ensures Sourced(l, roots, AddChildren(l, seen, d), first[DigestOf(d) := d])
  {
    var first' := first[DigestOf(d) := d];
    forall c | c in AddChildren(l, seen, d) ensures HasSource(l, roots, first', c) {
      if c in Children(l, d) {
        assert IsChildOf(l, c, first'[DigestOf(d)]);
      } else {
        assert HasSource(l, roots, first, c);
        if c !in roots {
          var x :| x in first && IsChildOf(l, c, first[x]);
          assert first'[x] == first[x];
        }
      }
    }
  }

  /** Taking any element of the queue keeps the invariant. */
  lemma StepKeepsInvariant(l: Layout, roots: seq<Json>, w: Walk, i: nat, seen: set<Json>, first: map<string, Json>)
    returns (seen': set<Json>, first': map<string, Json>)
    requires Invariant(l, roots, w, seen, first) && i < |w.queue| && StepAt(l, w, i).Ok?
    ensures Invariant(l, roots, StepAt(l, w, i).value, seen', first')
  {
    var d, rest := w.queue[i], w.(queue := Without(w.queue, i));
    var w' := StepAt(l, w, i).value;
    assert Verified(l, d) && DigestOf(d) in w'.checked && d in seen;
    forall e ensures e in w.queue <==> e == d || e in rest.queue {
      WithoutMembers(w.queue, i, e);
    }
    if DigestOf(d) in w.checked {
      seen', first' := seen, first;
      assert w' == rest;
    } else {
      seen', first' := AddChildren(l, seen, d), first[DigestOf(d) := d];
      CountedStep(l, rest, d, first);
      FirstVisitsStep(l, rest, d, seen, first);
      SourcedStep(l, roots, d, seen, first);
      ChildrenReachable(l, roots, d);
    }
  }

  // ---------- runs ----------

  /** Some element of the queue, taken off and visited, leads from one state to the other. */
  ghost predicate Takes(l: Layout, w: Walk, w': Walk) {
    exists i :: 0 <= i < |w.queue| && StepAt(l, w, i) == Ok(w')
  }

  ghost function TakesRelation(l: Layout): (Walk, Walk) -> bool {
    (w: Walk, w': Walk) => Takes(l, w, w')
  }

  /** What is known about a state in the middle of a walk. */
  ghost predicate Sound(l: Layout, roots: seq<Json>, w: Walk) {
    exists seen, first :: Invariant(l, roots, w, seen, first)
  }

  /** A run: from the index on, each state is what taking some element of the queue makes of the one before. */
  ghost predicate IsRun(l: Layout, roots: seq<Json>, states: seq<Walk>) {
    IsPath(Start(roots), TakesRelation(l), states)
  }

  lemma TakingKeepsSound(l: Layout, roots: seq<Json>, w: Walk, w': Walk)
    requires Sound(l, roots, w) && Takes(l, w, w')
    ensures Sound(l, roots, w')
  {
    var seen, first :| Invariant(l, roots, w, seen, first);
    var i :| 0 <= i < |w.queue| && StepAt(l, w, i) == Ok(w');
    var seen', first' := StepKeepsInvariant(l, roots, w, i, seen, first);
  }

  /** However a run takes descriptors off the queue, every state it goes through satisfies the invariant. */
  lemma RunIsSound(l: Layout, roots: seq<Json>, states: seq<Walk>, k: nat)
    requires IsRun(l, roots, states) && k < |states|
    ensures Sound(l, roots, states[k])
  {
    ghost var sound := w => Sound(l, roots, w);
    InvariantStarts(l, roots);
    assert sound(Start(roots));
    forall w, w' | sound(w) && TakesRelation(l)(w, w') ensures sound(w') {
      TakingKeepsSound(l, roots, w, w');
    }
    PathKeeps(Start(roots), TakesRelation(l), states, sound, k);
  }

  // ---------- the finished walk ----------

  ghost predicate Finished(l: Layout, roots: seq<Json>, w: Walk, seen: set<Json>, first: map<string, Json>) {
    Invariant(l, roots, w, seen, first) && w.queue == []
  }

  /** Everything enqueued was verified and checked; everything checked was enqueued and had its children enqueued. */
  lemma FinishedIsVerifiedAndClosed(l: Layout, roots: seq<Json>, w: Walk, seen: set<Json>, first: map<string, Json>)
    requires Finished(l, roots, w, seen, first)
    ensures forall d :: d in roots ==> d in seen
    ensures forall d :: d in seen ==> Verified(l, d) && DigestOf(d) in w.checked
    ensures forall x :: x in w.checked ==> x in first && Expanded(l, seen, x, first[x])
  {
  }

  /** Two references of one kind to one digest have the same children and count the same. */
  lemma SameKindSameChildren(l: Layout, a: Json, b: Json)
    requires SameTarget(a, b) && KindOf(a) == KindOf(b) && Expandable(l, a) && Expandable(l, b)
    ensures Children(l, a) == Children(l, b) && CountsAsManifest(l, a) == CountsAsManifest(l, b)
  {
  }

  /** Whatever refers to one digest leads to the same descriptors. */
  ghost predicate SameChildren(l: Layout, roots: seq<Json>) {
    forall a, b :: Reachable(l, roots, a) && Reachable(l, roots, b) && LikeTargets(l, a, b) ==>
                     Children(l, a) == Children(l, b)
  }

  predicate LikeTargets(l: Layout, a: Json, b: Json) {
    SameTarget(a, b) && Expandable(l, a) && Expandable(l, b)
  }

  lemma SingleKindSameChildren(l: Layout, roots: seq<Json>)
    requires SingleKind(l, roots)
    ensures SameChildren(l, roots)
  {
    forall a, b | Reachable(l, roots, a) && Reachable(l, roots, b) && LikeTargets(l, a, b)
      ensures Children(l, a) == Children(l, b)
    {
      SameKindSameChildren(l, a, b);
    }
  }

  /** Then every enqueued descriptor had its children enqueued, first visit or not. */
  lemma EnqueuedIsClosed(l: Layout, roots: seq<Json>, w: Walk, seen: set<Json>, first: map<string, Json>)
    requires Finished(l, roots, w, seen, first) && SameChildren(l, roots)
    ensures Closed(ChildRelation(l), roots, seen)
  {
    forall p, c | p in seen && ChildRelation(l)(c, p) ensures c in seen {
      assert IsChildOf(l, c, p);
      var f := first[DigestOf(p)];
      assert Expanded(l, seen, DigestOf(p), f);
      assert LikeTargets(l, p, f);
    }
  }

  /** A digest some reachable descriptor names. */
  ghost predicate ReachableDigest(l: Layout, roots: seq<Json>, x: string) {
    exists d :: Reachable(l, roots, d) && HasDigest(d) && DigestOf(d) == x
  }

  ghost predicate ReachableAs(l: Layout, roots: seq<Json>, x: string, test: Json -> bool) {
    exists d :: Reachable(l, roots, d) && HasDigest(d) && DigestOf(d) == x && Expandable(l, d) && test(d)
  }

  /** The walk visits exactly what is reachable: the least set that holds the index and is closed under children. */
  lemma FinishedIsLeastFixpoint(l: Layout, roots: seq<Json>, w: Walk, seen: set<Json>, first: map<string, Json>)
    requires Finished(l, roots, w, seen, first) && SameChildren(l, roots)
    ensures forall d :: Reachable(l, roots, d) <==> d in seen
    ensures forall x :: x in w.checked <==> ReachableDigest(l, roots, x)
  {
    EnqueuedIsClosed(l, roots, w, seen, first);
    ReachableIsLeast(ChildRelation(l), roots, seen);
    forall x ensures x in w.checked <==> ReachableDigest(l, roots, x) {
      if x in w.checked {
        assert Expanded(l, seen, x, first[x]);
      }
      if ReachableDigest(l, roots, x) {
        var d :| Reachable(l, roots, d) && HasDigest(d) && DigestOf(d) == x;
        assert d in seen;
      }
    }
  }

  /** A checked digest was expanded through a reachable descriptor. */
  lemma FirstIsReachable(l: Layout, roots: seq<Json>, w: Walk, seen: set<Json>, first: map<string, Json>, x: string)
    requires Finished(l, roots, w, seen, first) && x in first
    ensures Reachable(l, roots, first[x]) && Expandable(l, first[x]) && DigestOf(first[x]) == x && x in w.checked
  {
    assert Expanded(l, seen, x, first[x]);
  }

  /** With one kind per digest, a reachable descriptor is verified, and its digest was expanded in the same way. */
  lemma ReachableHasFirst(l: Layout, roots: seq<Json>, w: Walk, seen: set<Json>, first: map<string, Json>, d: Json)
    requires Finished(l, roots, w, seen, first) && SingleKind(l, roots) && Reachable(l, roots, d)
    ensures Verified(l, d) && DigestOf(d) in first
    ensures var f := first[DigestOf(d)];
            Reachable(l, roots, f) && SameTarget(d, f) && KindOf(d) == KindOf(f) && Expandable(l, f)
  {
    SingleKindSameChildren(l, roots);
    FinishedIsLeastFixpoint(l, roots, w, seen, first);
    assert d in seen;
    FirstIsReachable(l, roots, w, seen, first, DigestOf(d));
    assert SameTarget(d, first[DigestOf(d)]);
  }

  /** The test sees of a descriptor only its kind and its blob. */
  ghost predicate Respects(l: Layout, test: Json -> bool) {
    forall a, b :: SameTarget(a, b) && KindOf(a) == KindOf(b) && Expandable(l, a) && Expandable(l, b)
        ==> test(a) == test(b)
  }

  lemma TestsRespect(l: Layout)
    ensures Respects(l, ConfigTest()) && Respects(l, ManifestTest(l))
  {
    forall a, b | SameTarget(a, b) && KindOf(a) == KindOf(b) && Expandable(l, a) && Expandable(l, b)
      ensures ManifestTest(l)(a) == ManifestTest(l)(b)
    {
      SameKindSameChildren(l, a, b);
    }
  }

  /** A test that only depends on the kind and the blob holds of the first reference exactly when it holds of some. */
  lemma SelectedIsReachable(
    l: Layout, roots: seq<Json>, w: Walk, seen: set<Json>, first: map<string, Json>, test: Json -> bool, x: string)
    requires Finished(l, roots, w, seen, first) && SingleKind(l, roots)
    requires Respects(l, test)
    ensures x in Select(first, test) <==> ReachableAs(l, roots, x, test)
  {
    SingleKindSameChildren(l, roots);
    FinishedIsLeastFixpoint(l, roots, w, seen, first);
    if x in Select(first, test) {
      assert Expanded(l, seen, x, first[x]);
    }
    if ReachableAs(l, roots, x, test) {
      var d :| Reachable(l, roots, d) && HasDigest(d) && DigestOf(d) == x && Expandable(l, d) && test(d);
      assert d in seen && x in w.checked;
      assert Expanded(l, seen, x, first[x]);
      assert SameTarget(d, first[x]);
    }
  }

  /** The order in which descriptors are taken makes no difference to what is checked and counted. */
  lemma OrderDoesNotMatter(
    l: Layout, roots: seq<Json>,
    w: Walk, seen: set<Json>, first: map<string, Json>,
    w': Walk, seen': set<Json>, first': map<string, Json>)
    requires Finished(l, roots, w, seen, first) && Finished(l, roots, w', seen', first') && SingleKind(l, roots)
    ensures w.checked == w'.checked && w.configs == w'.configs && w.manifests == w'.manifests
  {
    SingleKindSameChildren(l, roots);
    SameChecked(l, roots, w, seen, first, w', seen', first');
    TestsRespect(l);
    SameSelection(l, roots, w, seen, first, w', seen', first', ConfigTest());
    SameSelection(l, roots, w, seen, first, w', seen', first', ManifestTest(l));
    FinishedCounts(l, roots, w, seen, first);
    FinishedCounts(l, roots, w', seen', first');
  }

  lemma FinishedCounts(l: Layout, roots: seq<Json>, w: Walk, seen: set<Json>, first: map<string, Json>)
    requires Finished(l, roots, w, seen, first)
    ensures w.configs == |Select(first, ConfigTest())| && w.manifests == |Select(first, ManifestTest(l))|
  {
  }

  lemma CheckedIsReachable(l: Layout, roots: seq<Json>, w: Walk, seen: set<Json>, first: map<string, Json>, x: string)
    requires Finished(l, roots, w, seen, first) && SameChildren(l, roots)
    ensures x in w.checked <==> ReachableDigest(l, roots, x)
  {
    FinishedIsLeastFixpoint(l, roots, w, seen, first);
  }

  lemma SameChecked(
    l: Layout, roots: seq<Json>,
    w: Walk, seen: set<Json>, first: map<string, Json>,
    w': Walk, seen': set<Json>, first': map<string, Json>)
    requires Finished(l, roots, w, seen, first) && Finished(l, roots, w', seen', first') && SameChildren(l, roots)
    ensures w.checked == w'.checked
  {
    forall x ensures x in w.checked <==> x in w'.checked {
      CheckedIsReachable(l, roots, w, seen, first, x);
      CheckedIsReachable(l, roots, w', seen', first', x);
    }
  }

  lemma SameSelection(
    l: Layout, roots: seq<Json>,
    w: Walk, seen: set<Json>, first: map<string, Json>,
    w': Walk, seen': set<Json>, first': map<string, Json>, test: Json -> bool)
    requires Finished(l, roots, w, seen, first) && Finished(l, roots, w', seen', first') && SingleKind(l, roots)
    requires Respects(l, test)
    ensures Select(first, test) == Select(first', test)
  {
    forall x ensures x in Select(first, test) <==> x in Select(first', test) {
      SelectedIsReachable(l, roots, w, seen, first, test, x);
      SelectedIsReachable(l, roots, w', seen', first', test, x);
    }
  }

  /** Any two runs that empty the queue check the same digests and count the same configurations and manifests. */
  lemma RunsAgree(l: Layout, roots: seq<Json>, states: seq<Walk>, states': seq<Walk>)
    requires IsRun(l, roots, states) && IsRun(l, roots, states') && SingleKind(l, roots)
    requires states[|states| - 1].queue == [] && states'[|states'| - 1].queue == []
    ensures var w, w' := states[|states| - 1], states'[|states'| - 1];
            w.checked == w'.checked && w.configs == w'.configs && w.manifests == w'.manifests
  {
    var w, w' := states[|states| - 1], states'[|states'| - 1];
    RunIsSound(l, roots, states, |states| - 1);
    RunIsSound(l, roots, states', |states'| - 1);
    var seen, first :| Invariant(l, roots, w, seen, first);
    var seen', first' :| Invariant(l, roots, w', seen', first');
    OrderDoesNotMatter(l, roots, w, seen, first, w', seen', first');
  }
}
