/** The inspection of an image layout: the loop itself, when it accepts, and how far its verdict depends on order. */
module OciInspection {
  import opened Wrappers
  import opened JsonValues
  import opened OciLayout
  import opened OciReachability
  import opened OciDocuments

  const PLATFORMS: set<string> := {"linux/amd64", "linux/arm64"}

  datatype Summary = Summary(platforms: seq<string>, blobs: nat, configs: nat, studio: bool)

  /** The descriptors of `index.json`. */
  function IndexOf(l: Layout): Result<seq<Json>, OciError> {
    if "index.json" !in l.archive then Err(KeyMissing)
    else match l.archive["index.json"]
      case Special => Err(IndexMissing)
      case Regular(content) =>
        match l.loads(content)
        case None => Err(LayoutInvalid)
        case Some(index) =>
          if !index.JObj? || !Get(index.fields, "manifests").JList? || Get(index.fields, "manifests").items == [] then
            Err(ManifestCountInvalid)
          else Ok(Get(index.fields, "manifests").items)
  }

  /** The index is an object that lists these descriptors, at least one. */
  ghost predicate IndexLists(l: Layout, roots: seq<Json>) {
    exists content, fields ::
      && "index.json" in l.archive && l.archive["index.json"] == Regular(content)
      && l.loads(content) == Some(JObj(fields))
      && "manifests" in fields && fields["manifests"] == JList(roots) && roots != []
  }

  lemma IndexExactly(l: Layout, roots: seq<Json>)
    ensures IndexOf(l) == Ok(roots) <==> IndexLists(l, roots)
  {
    if IndexOf(l) == Ok(roots) {
      var content := l.archive["index.json"].content;
      var index := l.loads(content).value;
      assert index == JObj(index.fields);
      assert index.fields["manifests"] == JList(roots);
    }
  }

  /** A reachable descriptor is at fault: its own checks fail, or those on what it names. */
  ghost predicate Blames(l: Layout, roots: seq<Json>, d: Json, e: OciError) {
    Reachable(l, roots, d) && (CheckDescriptor(l, d) == Some(e) || (Verified(l, d) && CheckExpansion(l, d) == Some(e)))
  }

  /** Two platforms, two images and two configurations. */
  predicate Complete(w: Walk) {
    w.platforms == PLATFORMS && w.manifests == 2 && w.configs == 2
  }

  /** The walk by the code's own rule: the last descriptor of the queue is taken next, until none is left. */
  function Run(l: Layout, w: Walk): Result<Walk, OciError>
    decreases Unchecked(l, w.checked), |w.queue|
  {
    if w.queue == [] then Ok(w)
    else match Next(l, w)
      case Err(e) => Err(e)
      case Ok(w') =>
        NextProgress(l, w);
        Run(l, w')
  }

  /** What taking the last descriptor makes of the state. */
  function Next(l: Layout, w: Walk): Result<Walk, OciError>
    requires w.queue != []
  {
    StepAt(l, w, |w.queue| - 1)
  }

  lemma NextProgress(l: Layout, w: Walk)
    requires w.queue != [] && Next(l, w).Ok?
    ensures var w' := Next(l, w).value;
            Unchecked(l, w'.checked) < Unchecked(l, w.checked) || (w'.checked == w.checked && |w'.queue| < |w.queue|)
  {
    var i := |w.queue| - 1;
    VisitProgress(l, w.(queue := Without(w.queue, i)), w.queue[i]);
  }

  /** The inspection as a function of the layout. */
  function Inspect(l: Layout): Result<Summary, OciError> {
    match IndexOf(l)
    case Err(e) => Err(e)
    case Ok(roots) =>
      match Run(l, Start(roots))
      case Err(e) => Err(e)
      case Ok(w) => if Complete(w) then Ok(SummaryOf(l, w)) else Err(PlatformSetInvalid)
  }

  function SummaryOf(l: Layout, w: Walk): Summary {
    Summary(["linux/amd64", "linux/arm64"], |w.checked|, w.configs, l.studio)
  }

  /**
   * On success the walk is finished and complete; on failure the index is, or a
   * reachable descriptor is to blame, or a finished walk is not complete.
   */
  ghost predicate Outcome(
    l: Layout, r: Result<Summary, OciError>, w: Walk, seen: set<Json>, first: map<string, Json>, culprit: Json)
  {
    match IndexOf(l)
    case Err(e) => r == Err(e)
    case Ok(roots) =>
      match r
      case Ok(summary) =>
        && Finished(l, roots, w, seen, first) && Complete(w)
        && summary == Summary(["linux/amd64", "linux/arm64"], |w.checked|, 2, l.studio)
      case Err(e) =>
        || Blames(l, roots, culprit, e)
        || (Finished(l, roots, w, seen, first) && !Complete(w) && e == PlatformSetInvalid)
  }

  /**
   * Pops the last descriptor, checks it, and appends what it refers to, until nothing is left.
   */
  method InspectOciLayout(l: Layout)
    returns (r: Result<Summary, OciError>, ghost w: Walk, ghost seen: set<Json>, ghost first: map<string, Json>,
        ghost culprit: Json)
    ensures r == Inspect(l)
    ensures Outcome(l, r, w, seen, first, culprit)
    ensures IndexOf(l).Ok? && Consistent(l, IndexOf(l).value) ==> (r.Ok? <==> Acceptable(l, IndexOf(l).value))
    ensures r.Ok? ==> Complete(w) && exists roots :: IndexLists(l, roots) && ReadWhole(l, roots, w, seen, first)
  {
    var index := IndexOf(l);
    w, seen, first, culprit := Start([]), {}, map[], JNull;
    if index.Err? {
      return Err(index.error), w, seen, first, culprit;
    }
    var manifests := index.value;
    var state := Start(manifests);
    seen := set d | d in manifests;
    InvariantStarts(l, manifests);
    while state.queue != []
      invariant Invariant(l, manifests, state, seen, first)
      invariant Run(l, state) == Run(l, Start(manifests))
      decreases Unchecked(l, state.checked), |state.queue|
    {
      var i := |state.queue| - 1;
      var descriptor := state.queue[i];
      var rest := state.(queue := Without(state.queue, i));
      var visited := Visit(l, rest, descriptor);
      if visited.Err? {
        culprit := descriptor;
        QueueReachable(l, manifests, state, seen, first, i);
        VisitBlames(l, rest, descriptor);
        r, w := Err(visited.error), state;
        OrderFree(l, r, w, seen, first, culprit);
        return;
      }
      VisitProgress(l, rest, descriptor);
      seen, first := StepKeepsInvariant(l, manifests, state, i, seen, first);
      state := visited.value;
    }
    w := state;
    IndexExactly(l, manifests);
    FinishedReadsWhole(l, manifests, state, seen, first);
    if Complete(state) {
      r := Ok(SummaryOf(l, state));
    } else {
      r := Err(PlatformSetInvalid);
    }
    OrderFree(l, r, w, seen, first, culprit);
  }

  lemma QueueReachable(l: Layout, roots: seq<Json>, w: Walk, seen: set<Json>, first: map<string, Json>, i: nat)
    requires Invariant(l, roots, w, seen, first) && i < |w.queue|
    ensures Reachable(l, roots, w.queue[i])
  {
    assert w.queue[i] in w.queue;
  }

  lemma VisitBlames(l: Layout, w: Walk, d: Json)
    requires Visit(l, w, d).Err?
    ensures var e := Some(Visit(l, w, d).error);
            CheckDescriptor(l, d) == e || (Verified(l, d) && CheckExpansion(l, d) == e)
  {
  }

  // ---------- the verdict ----------

  ghost predicate AllExpandable(l: Layout, roots: seq<Json>) {
    forall d :: Reachable(l, roots, d) ==> Expandable(l, d)
  }

  /** References to one digest agree on how they refer to it and on the platform. */
  ghost predicate Consistent(l: Layout, roots: seq<Json>) {
    SingleKind(l, roots)
    && forall a, b :: Reachable(l, roots, a) && Reachable(l, roots, b) && SameTarget(a, b)
        ==> PlatformOf(a) == PlatformOf(b)
  }

  /** When everything reachable is in order, whichever descriptor is taken next is accepted. */
  lemma NeverStuck(l: Layout, roots: seq<Json>, w: Walk, i: nat, seen: set<Json>, first: map<string, Json>)
    requires Invariant(l, roots, w, seen, first) && i < |w.queue| && AllExpandable(l, roots)
    ensures StepAt(l, w, i).Ok?
  {
    QueueReachable(l, roots, w, seen, first, i);
    assert Expandable(l, w.queue[i]);
  }

  lemma ExpandableTogether(l: Layout, a: Json, b: Json)
    requires SameTarget(a, b) && KindOf(a) == KindOf(b) && PlatformOf(a) == PlatformOf(b)
    requires Verified(l, a) && Expandable(l, b)
    ensures Expandable(l, a)
  {
  }

  /** When references agree, a walk can only finish if everything reachable is in order. */
  lemma FinishedMeansAllExpandable(l: Layout, roots: seq<Json>, w: Walk, seen: set<Json>, first: map<string, Json>)
    requires Finished(l, roots, w, seen, first) && Consistent(l, roots)
    ensures AllExpandable(l, roots)
  {
    forall d | Reachable(l, roots, d) ensures Expandable(l, d) {
      ReachableHasFirst(l, roots, w, seen, first, d);
      ExpandableTogether(l, d, first[DigestOf(d)]);
    }
  }

  /** Exactly this many digests are reachable through a descriptor that passes a test. */
  ghost predicate CountsTo(l: Layout, roots: seq<Json>, test: Json -> bool, n: nat) {
    exists s: set<string> :: |s| == n && Collects(l, roots, test, s)
  }

  ghost predicate Collects(l: Layout, roots: seq<Json>, test: Json -> bool, s: set<string>) {
    forall x :: x in s <==> ReachableAs(l, roots, x, test)
  }

  ghost predicate ReachablePlatform(l: Layout, roots: seq<Json>, p: string) {
    exists d :: Reachable(l, roots, d) && p in Contribution(d)
  }

  /** What a layout has to be, said without any order: in terms of what its index reaches. */
  ghost predicate Acceptable(l: Layout, roots: seq<Json>) {
    && AllExpandable(l, roots)
    && PlatformsReached(l, roots, PLATFORMS)
    && CountsTo(l, roots, ManifestTest(l), 2)
    && CountsTo(l, roots, ConfigTest(), 2)
  }

  /** The counters of a finished walk are numbers of reachable digests. */
  lemma CountersCountReachable(l: Layout, roots: seq<Json>, w: Walk, seen: set<Json>, first: map<string, Json>, n: nat)
    requires Finished(l, roots, w, seen, first) && SingleKind(l, roots)
    ensures CountsTo(l, roots, ManifestTest(l), n) <==> n == w.manifests
    ensures CountsTo(l, roots, ConfigTest(), n) <==> n == w.configs
  {
    TestsRespect(l);
    FinishedCounts(l, roots, w, seen, first);
    SelectionCounts(l, roots, w, seen, first, ManifestTest(l), n);
    SelectionCounts(l, roots, w, seen, first, ConfigTest(), n);
  }

  lemma SelectionCounts(
    l: Layout, roots: seq<Json>, w: Walk, seen: set<Json>, first: map<string, Json>, test: Json -> bool, n: nat)
    requires Finished(l, roots, w, seen, first) && SingleKind(l, roots) && Respects(l, test)
    ensures CountsTo(l, roots, test, n) <==> n == |Select(first, test)|
  {
    SelectionCollects(l, roots, w, seen, first, test);
    if CountsTo(l, roots, test, n) {
      var s: set<string> :| |s| == n && Collects(l, roots, test, s);
      OneCollection(l, roots, test, s, Select(first, test));
    }
  }

  lemma SelectionCollects(
    l: Layout, roots: seq<Json>, w: Walk, seen: set<Json>, first: map<string, Json>, test: Json -> bool)
    requires Finished(l, roots, w, seen, first) && SingleKind(l, roots) && Respects(l, test)
    ensures Collects(l, roots, test, Select(first, test))
  {
    forall x ensures x in Select(first, test) <==> ReachableAs(l, roots, x, test) {
      SelectedIsReachable(l, roots, w, seen, first, test, x);
    }
  }

  lemma OneCollection(l: Layout, roots: seq<Json>, test: Json -> bool, a: set<string>, b: set<string>)
    requires Collects(l, roots, test, a) && Collects(l, roots, test, b)
    ensures a == b
  {
    assert forall x :: x in a <==> x in b;
  }

  /** The platforms of a finished walk are the reachable ones. */
  lemma PlatformsAreReachable(
    l: Layout, roots: seq<Json>, w: Walk, seen: set<Json>, first: map<string, Json>, p: string)
    requires Finished(l, roots, w, seen, first) && Consistent(l, roots)
    ensures p in w.platforms <==> ReachablePlatform(l, roots, p)
  {
    FinishedPlatforms(l, roots, w, seen, first);
    if p in w.platforms {
      var x :| x in first && p in Contribution(first[x]);
      FirstIsReachable(l, roots, w, seen, first, x);
    }
    if ReachablePlatform(l, roots, p) {
      var d :| Reachable(l, roots, d) && p in Contribution(d);
      ReachableHasFirst(l, roots, w, seen, first, d);
      SameContribution(d, first[DigestOf(d)]);
    }
  }

  lemma FinishedPlatforms(l: Layout, roots: seq<Json>, w: Walk, seen: set<Json>, first: map<string, Json>)
    requires Finished(l, roots, w, seen, first)
    ensures w.platforms == PlatformsIn(first)
  {
  }

  lemma SameContribution(a: Json, b: Json)
    requires KindOf(a) == KindOf(b) && PlatformOf(a) == PlatformOf(b)
    ensures Contribution(a) == Contribution(b)
  {
  }

  /** When references agree, a finished walk is complete exactly when the layout is acceptable. */
  lemma CompleteIsAcceptable(l: Layout, roots: seq<Json>, w: Walk, seen: set<Json>, first: map<string, Json>)
    requires Finished(l, roots, w, seen, first) && Consistent(l, roots)
    ensures Complete(w) <==> Acceptable(l, roots)
  {
    FinishedMeansAllExpandable(l, roots, w, seen, first);
    CountersCountReachable(l, roots, w, seen, first, 2);
    SamePlatforms(l, roots, w, seen, first, PLATFORMS);
  }

  ghost predicate PlatformsReached(l: Layout, roots: seq<Json>, platforms: set<string>) {
    forall p :: p in platforms <==> ReachablePlatform(l, roots, p)
  }

  lemma SamePlatforms(
    l: Layout, roots: seq<Json>, w: Walk, seen: set<Json>, first: map<string, Json>, platforms: set<string>)
    requires Finished(l, roots, w, seen, first) && Consistent(l, roots)
    ensures w.platforms == platforms <==> PlatformsReached(l, roots, platforms)
  {
    WalkedPlatforms(l, roots, w, seen, first);
    if PlatformsReached(l, roots, platforms) {
      OnePlatformSet(l, roots, platforms, w.platforms);
    }
  }

  lemma WalkedPlatforms(l: Layout, roots: seq<Json>, w: Walk, seen: set<Json>, first: map<string, Json>)
    requires Finished(l, roots, w, seen, first) && Consistent(l, roots)
    ensures PlatformsReached(l, roots, w.platforms)
  {
    forall p ensures p in w.platforms <==> ReachablePlatform(l, roots, p) {
      PlatformsAreReachable(l, roots, w, seen, first, p);
    }
  }

  lemma OnePlatformSet(l: Layout, roots: seq<Json>, a: set<string>, b: set<string>)
    requires PlatformsReached(l, roots, a) && PlatformsReached(l, roots, b)
    ensures a == b
  {
    assert forall p :: p in a <==> p in b;
  }

  lemma BlamedIsNotExpandable(l: Layout, roots: seq<Json>, d: Json, e: OciError)
    requires Blames(l, roots, d, e)
    ensures !AllExpandable(l, roots)
  {
    assert Reachable(l, roots, d) && !Expandable(l, d);
  }

  /** When references agree, the inspection accepts exactly the acceptable layouts: order has no say in it. */
  lemma AcceptedExactlyWhenAcceptable(
    l: Layout, r: Result<Summary, OciError>, w: Walk, seen: set<Json>, first: map<string, Json>, culprit: Json)
    requires Outcome(l, r, w, seen, first, culprit)
    requires IndexOf(l).Ok? && Consistent(l, IndexOf(l).value)
    ensures r.Ok? <==> Acceptable(l, IndexOf(l).value)
  {
    var roots := IndexOf(l).value;
    if Finished(l, roots, w, seen, first) {
      CompleteIsAcceptable(l, roots, w, seen, first);
    }
    if r.Err? && Blames(l, roots, culprit, r.error) {
      BlamedIsNotExpandable(l, roots, culprit, r.error);
    }
  }

  lemma OrderFree(
    l: Layout, r: Result<Summary, OciError>, w: Walk, seen: set<Json>, first: map<string, Json>, culprit: Json)
    requires Outcome(l, r, w, seen, first, culprit)
    ensures IndexOf(l).Ok? && Consistent(l, IndexOf(l).value) ==> (r.Ok? <==> Acceptable(l, IndexOf(l).value))
  {
    if IndexOf(l).Ok? && Consistent(l, IndexOf(l).value) {
      AcceptedExactlyWhenAcceptable(l, r, w, seen, first, culprit);
    }
  }
}
