/** One blob under two kinds: what the order of references then decides, and a layout accepted in one order only. */
module OciMixedKinds {
  import opened Sequences
  import opened Wrappers
  import opened Utf8
  import opened Framing
  import opened JsonValues
  import opened OciLayout
  import opened OciReachability
  import opened OciInspection

  // ---------- two references to one digest ----------

  lemma VisitExpands(l: Layout, w: Walk, d: Json)
    requires Expandable(l, d) && DigestOf(d) !in w.checked
    ensures Visit(l, w, d).Ok?
    ensures Visit(l, w, d).value.queue == w.queue + Children(l, d)
        && Visit(l, w, d).value.checked == w.checked + {DigestOf(d)}
  {
  }

  lemma VisitFirst(l: Layout, w: Walk, d: Json)
    requires Expandable(l, d) && DigestOf(d) !in w.checked
    ensures Visit(l, w, d) == Ok(Walk(
              w.queue + Children(l, d), w.checked + {DigestOf(d)}, w.platforms + Contribution(d),
              w.manifests + (if CountsAsManifest(l, d) then 1 else 0),
              w.configs + (if KindOf(d) == Config then 1 else 0)))
  {
    VisitExpands(l, w, d);
    VisitCounts(l, w, d);
  }

  lemma VisitAgain(l: Layout, w: Walk, d: Json)
    requires Verified(l, d) && DigestOf(d) in w.checked
    ensures Visit(l, w, d) == Ok(w)
  {
  }

  /** Two descriptors add the same to a state. */
  predicate AddTheSame(l: Layout, w: Walk, a: Json, b: Json)
    requires Expandable(l, a) && Expandable(l, b)
  {
    && Children(l, a) == Children(l, b)
    && w.platforms + Contribution(a) == w.platforms + Contribution(b)
    && (CountsAsManifest(l, a) <==> CountsAsManifest(l, b))
    && (KindOf(a) == Config <==> KindOf(b) == Config)
  }

  lemma SameTail<T>(s: seq<T>, a: seq<T>, b: seq<T>)
    ensures s + a == s + b <==> a == b
  {
    TakeAppend(s, a);
    TakeAppend(s, b);
  }

  /**
   * Of two references to a digest not yet checked the first decides:
   * swapping them changes nothing exactly when they add the same.
   */
  lemma SwapMattersExactly(l: Layout, w: Walk, a: Json, b: Json)
    requires SameTarget(a, b) && Expandable(l, a) && Expandable(l, b) && DigestOf(a) !in w.checked
    ensures Visit(l, w, a).Ok? && Visit(l, w, b).Ok?
    ensures Visit(l, Visit(l, w, a).value, b) == Visit(l, Visit(l, w, b).value, a) <==> AddTheSame(l, w, a, b)
  {
    VisitFirst(l, w, a);
    VisitFirst(l, w, b);
    VisitAgain(l, Visit(l, w, a).value, b);
    VisitAgain(l, Visit(l, w, b).value, a);
    SameTail(w.queue, Children(l, a), Children(l, b));
  }

  // ---------- one digest under two kinds, over whole runs ----------

  /**
   * References to any digest but this one agree on kind and platform,
   * and those to this one lead to the same descriptors.
   */
  ghost predicate MixedOnlyAt(l: Layout, roots: seq<Json>, x: string) {
    && SameChildren(l, roots)
    && forall a, b :: Reachable(l, roots, a) && Reachable(l, roots, b) && SameTarget(a, b) && DigestOf(a) != x ==>
                        KindOf(a) == KindOf(b) && PlatformOf(a) == PlatformOf(b)
  }

  /** One finished walk, with the descriptor through which it expanded each digest. */
  ghost predicate Ends(l: Layout, roots: seq<Json>, w: Walk, first: map<string, Json>) {
    exists seen :: Finished(l, roots, w, seen, first)
  }

  lemma EndCounts(l: Layout, roots: seq<Json>, w: Walk, first: map<string, Json>)
    requires Ends(l, roots, w, first)
    ensures first.Keys == w.checked && Counted(l, w, first)
  {
  }

  lemma EndFirst(l: Layout, roots: seq<Json>, w: Walk, first: map<string, Json>, y: string)
    requires Ends(l, roots, w, first) && y in first
    ensures Reachable(l, roots, first[y]) && Expandable(l, first[y]) && DigestOf(first[y]) == y
  {
    var seen :| Finished(l, roots, w, seen, first);
    FirstIsReachable(l, roots, w, seen, first, y);
  }

  lemma EndsCheckTheSame(
    l: Layout, roots: seq<Json>, w: Walk, first: map<string, Json>, w': Walk, first': map<string, Json>)
    requires Ends(l, roots, w, first) && Ends(l, roots, w', first') && SameChildren(l, roots)
    ensures w.checked == w'.checked
  {
    var seen :| Finished(l, roots, w, seen, first);
    var seen' :| Finished(l, roots, w', seen', first');
    SameChecked(l, roots, w, seen, first, w', seen', first');
  }

  /** Two references to one digest, of one kind and platform. */
  predicate AlikeAt(l: Layout, a: Json, b: Json) {
    KindOf(a) == KindOf(b) && PlatformOf(a) == PlatformOf(b) && LikeTargets(l, a, b)
  }

  ghost predicate AlikeBut(l: Layout, a: map<string, Json>, b: map<string, Json>, x: string) {
    a.Keys == b.Keys && forall y :: y in a && y != x ==> AlikeAt(l, a[y], b[y])
  }

  /** Off the mixed digest both walks expanded alike. */
  lemma AlikeOff(
    l: Layout, roots: seq<Json>, w: Walk, first: map<string, Json>, w': Walk, first': map<string, Json>, x: string)
    requires Ends(l, roots, w, first) && Ends(l, roots, w', first') && MixedOnlyAt(l, roots, x)
    requires first.Keys == first'.Keys
    ensures AlikeBut(l, first, first', x)
  {
    forall y | y in first && y != x ensures AlikeAt(l, first[y], first'[y]) {
      AlikeFirst(l, roots, w, first, w', first', x, y);
    }
  }

  lemma AlikeFirst(
    l: Layout, roots: seq<Json>, w: Walk, first: map<string, Json>, w': Walk, first': map<string, Json>,
    x: string, y: string)
    requires Ends(l, roots, w, first) && Ends(l, roots, w', first') && MixedOnlyAt(l, roots, x)
    requires y in first && y in first' && y != x
    ensures AlikeAt(l, first[y], first'[y])
  {
    EndFirst(l, roots, w, first, y);
    EndFirst(l, roots, w', first', y);
    AlikeReferences(l, roots, x, first[y], first'[y]);
  }

  lemma AlikeReferences(l: Layout, roots: seq<Json>, x: string, a: Json, b: Json)
    requires MixedOnlyAt(l, roots, x) && Reachable(l, roots, a) && Reachable(l, roots, b)
    requires LikeTargets(l, a, b) && DigestOf(a) != x
    ensures AlikeAt(l, a, b)
  {
  }

  lemma SelectedApart(first: map<string, Json>, x: string, test: Json -> bool)
    requires x in first
    ensures |Select(first, test)| == |Select(first, test) - {x}| + if test(first[x]) then 1 else 0
  {
    assert Select(first, test) == (Select(first, test) - {x}) + if test(first[x]) then {x} else {};
  }

  lemma PlatformsApart(first: map<string, Json>, x: string)
    requires x in first
    ensures PlatformsIn(first) == PlatformsIn(first - {x}) + Contribution(first[x])
  {
    assert (first - {x})[x := first[x]] == first;
    PlatformsStep(first - {x}, x, first[x]);
  }

  lemma SelectedAlike(l: Layout, a: map<string, Json>, b: map<string, Json>, x: string, test: Json -> bool)
    requires AlikeBut(l, a, b, x) && Respects(l, test)
    ensures Select(a, test) - {x} == Select(b, test) - {x}
  {
    forall y | y in a && y != x ensures test(a[y]) == test(b[y]) {
      assert AlikeAt(l, a[y], b[y]);
    }
  }

  lemma PlatformsAlike(l: Layout, a: map<string, Json>, b: map<string, Json>, x: string)
    requires AlikeBut(l, a, b, x)
    ensures PlatformsIn(a - {x}) == PlatformsIn(b - {x})
  {
    forall y | y in a && y != x ensures Contribution(a[y]) == Contribution(b[y]) {
      assert AlikeAt(l, a[y], b[y]);
      SameContribution(a[y], b[y]);
    }
    SamePlatformsIn(a - {x}, b - {x});
  }

  lemma SamePlatformsIn(a: map<string, Json>, b: map<string, Json>)
    requires a.Keys == b.Keys && forall y :: y in a ==> Contribution(a[y]) == Contribution(b[y])
    ensures PlatformsIn(a) == PlatformsIn(b)
  {
    forall p ensures p in PlatformsIn(a) <==> p in PlatformsIn(b) {
      if p in PlatformsIn(a) {
        var y :| y in a && p in Contribution(a[y]);
        assert y in b && p in Contribution(b[y]);
      }
      if p in PlatformsIn(b) {
        var y :| y in b && p in Contribution(b[y]);
        assert y in a && p in Contribution(a[y]);
      }
    }
  }

  /**
   * Two finished walks over a layout with one mixed digest check the same digests, and differ in a counter or in the
   * platforms exactly when the references through which they first met that digest do.
   */
  lemma MixedRunsDifferExactly(
    l: Layout, roots: seq<Json>, w: Walk, first: map<string, Json>, w': Walk, first': map<string, Json>, x: string)
    requires Ends(l, roots, w, first) && Ends(l, roots, w', first') && MixedOnlyAt(l, roots, x) && x in w.checked
    ensures w.checked == w'.checked && first.Keys == first'.Keys == w.checked
    ensures w.configs == w'.configs <==> (KindOf(first[x]) == Config <==> KindOf(first'[x]) == Config)
    ensures w.manifests == w'.manifests <==> (IsManifest(l, first[x]) <==> IsManifest(l, first'[x]))
    ensures var others := PlatformsIn(first - {x});
            w.platforms == w'.platforms
            <==> others + Contribution(first[x]) == others + Contribution(first'[x])
  {
    EndCounts(l, roots, w, first);
    EndCounts(l, roots, w', first');
    EndsCheckTheSame(l, roots, w, first, w', first');
    TestsRespect(l);
    AlikeOff(l, roots, w, first, w', first', x);
    SelectedAlike(l, first, first', x, ConfigTest());
    SelectedAlike(l, first, first', x, ManifestTest(l));
    PlatformsAlike(l, first, first', x);
    SelectedApart(first, x, ConfigTest());
    SelectedApart(first', x, ConfigTest());
    SelectedApart(first, x, ManifestTest(l));
    SelectedApart(first', x, ManifestTest(l));
    PlatformsApart(first, x);
    PlatformsApart(first', x);
  }

  // ---------- three references to two images ----------

  /** A descriptor whose blob is an image and its own configuration, with nothing further to visit. */
  predicate IsImage(l: Layout, d: Json, platform: string) {
    && Expandable(l, d) && Children(l, d) == [] && CountsAsManifest(l, d) && KindOf(d) == Config
    && Contribution(d) == {platform}
  }

  predicate IsBareLayer(l: Layout, d: Json) {
    Expandable(l, d) && IsLayer(d)
  }

  /** One step of the walk: the last descriptor is taken and visited. */
  lemma RunStep(l: Layout, w: Walk, rest: seq<Json>, d: Json, w': Walk)
    requires w.queue == rest + [d] && Visit(l, w.(queue := rest), d) == Ok(w')
    ensures Run(l, w) == Run(l, w')
  {
    assert Without(w.queue, |rest|) == rest;
    assert Next(l, w) == Ok(w');
  }

  lemma RunEnd(l: Layout, w: Walk)
    requires w.queue == []
    ensures Run(l, w) == Ok(w)
  {
  }

  lemma VisitImage(l: Layout, w: Walk, d: Json, platform: string)
    requires IsImage(l, d, platform) && DigestOf(d) !in w.checked
    ensures Visit(l, w, d)
            == Ok(Walk(w.queue, w.checked + {DigestOf(d)}, w.platforms + {platform}, w.manifests + 1, w.configs + 1))
  {
    VisitFirst(l, w, d);
    Neutral(w.queue);
  }

  lemma VisitLayer(l: Layout, w: Walk, d: Json)
    requires IsBareLayer(l, d) && DigestOf(d) !in w.checked
    ensures Visit(l, w, d) == Ok(w.(checked := w.checked + {DigestOf(d)}))
  {
    VisitFirst(l, w, d);
    Neutral(w.queue);
    var none: set<string> := {};
    assert w.platforms + none == w.platforms;
  }

  /** Two images, and a layer reference to the first of them. */
  predicate IsTriple(l: Layout, layer: Json, one: Json, two: Json, p: string, q: string) {
    && IsBareLayer(l, layer) && IsImage(l, one, p) && IsImage(l, two, q)
    && SameTarget(layer, one) && DigestOf(one) != DigestOf(two)
  }

  lemma ThreeApart(a: Json, b: Json, c: Json)
    ensures [a, b, c] == [a, b] + [c] && [a, b] == [a] + [b] && [a] == [] + [a]
  {
  }

  lemma TwoInSet(x: string, y: string)
    ensures var none: set<string> := {};
            none + {y} + {x} == {x, y} && none + {x} + {y} == {x, y} && none + {y} == {y} && none + {x} == {x}
  {
  }

  /** With the layer reference listed first it is taken last, and both images count. */
  lemma LayerListedFirst(l: Layout, layer: Json, one: Json, two: Json, p: string, q: string)
    requires IsTriple(l, layer, one, two, p, q)
    ensures Run(l, Start([layer, one, two])) == Ok(Walk([], {DigestOf(one), DigestOf(two)}, {p, q}, 2, 2))
  {
    var x, y := DigestOf(one), DigestOf(two);
    var none: set<string> := {};
    ThreeApart(layer, one, two);
    var first, second := Walk([layer, one], none + {y}, none + {q}, 1, 1),
        Walk([layer], none + {y} + {x}, none + {q} + {p}, 2, 2);
    VisitImage(l, Walk([layer, one], none, none, 0, 0), two, q);
    RunStep(l, Start([layer, one, two]), [layer, one], two, first);
    VisitImage(l, first.(queue := [layer]), one, p);
    RunStep(l, first, [layer], one, second);
    VisitAgain(l, second.(queue := []), layer);
    RunStep(l, second, [], layer, second.(queue := []));
    RunEnd(l, second.(queue := []));
    TwoInSet(x, y);
    TwoInSet(p, q);
  }

  /** Listed last it is taken first, and its image no longer counts. */
  lemma LayerListedLast(l: Layout, layer: Json, one: Json, two: Json, p: string, q: string)
    requires IsTriple(l, layer, one, two, p, q)
    ensures Run(l, Start([one, two, layer])) == Ok(Walk([], {DigestOf(one), DigestOf(two)}, {q}, 1, 1))
  {
    var x, y := DigestOf(one), DigestOf(two);
    var none: set<string> := {};
    TwoInSet(x, y);
    ThreeApart(one, two, layer);
    var first, second := Walk([one, two], none + {x}, none, 0, 0), Walk([one], none + {x} + {y}, none + {q}, 1, 1);
    VisitLayer(l, Walk([one, two], none, none, 0, 0), layer);
    RunStep(l, Start([one, two, layer]), [one, two], layer, first);
    VisitImage(l, first.(queue := [one]), two, q);
    RunStep(l, first, [one], two, second);
    VisitAgain(l, second.(queue := []), one);
    RunStep(l, second, [], one, second.(queue := []));
    RunEnd(l, second.(queue := []));
    TwoInSet(p, q);
  }

  // ---------- a layout accepted in one order only ----------

  const REVISION_LABEL := "org.opencontainers.image.revision"

  function Labels(studio: bool): map<string, Json> {
    RequiredLabels(studio)[REVISION_LABEL := JStr(seq(40, _ => '0'))]
  }

  function ConfigFields(studio: bool): map<string, Json> {
    map["Labels" := JObj(Labels(studio)), "User" := JStr("10001:10001"),
        "Cmd" := JList([JStr("uvicorn"), JStr("nginx")])]
  }

  /** A document that is an image without layers and its own configuration. */
  function ImageDocument(studio: bool): Json {
    JObj(map["config" := JObj(ConfigFields(studio)), "layers" := JList([])])
  }

  function ImageReference(digest: string, architecture: string): Json {
    JObj(map[
      "digest" := JStr(digest), CONFIG_MARK := JBool(true),
      "platform" := JObj(map["os" := JStr("linux"), "architecture" := JStr(architecture)])])
  }

  function LayerReference(digest: string): Json {
    JObj(map["digest" := JStr(digest), "mediaType" := JStr("application/vnd.oci.image.layer.v1.tar")])
  }

  lemma RequiredLabelsKept(studio: bool)
    ensures forall k :: k in RequiredLabels(studio) ==>
              k in Labels(studio) && Labels(studio)[k] == RequiredLabels(studio)[k]
    ensures IsRevision(Get(Labels(studio), REVISION_LABEL))
  {
    assert REVISION_LABEL[25] == 'r';
    forall k | k in RequiredLabels(studio) ensures k != REVISION_LABEL {
      assert k[25] != 'r';
    }
  }

  lemma ConfigInOrder(studio: bool)
    ensures CheckConfig(studio, ImageDocument(studio)).None?
  {
    RequiredLabelsKept(studio);
    var config := ConfigFields(studio);
    assert "Labels"[0] != "User"[0] && "Labels"[0] != "Cmd"[0] && "User"[0] != "Cmd"[0];
    assert Get(config, "Labels") == JObj(Labels(studio)) && Get(config, "User") == JStr("10001:10001");
    assert Get(config, "Cmd").items[0] == JStr("uvicorn") && Get(config, "Cmd").items[1] == JStr("nginx");
    assert Get(ImageDocument(studio).fields, "config") == JObj(config) by { assert "config"[0] != "layers"[0]; }
  }

  lemma DocumentHasNoChildren(studio: bool)
    ensures ChildrenOf(ImageDocument(studio)) == [] && HasLayers(ImageDocument(studio))
  {
    var document := ImageDocument(studio);
    assert "config"[0] != "layers"[0] && "manifests"[0] != "layers"[0] && "manifests"[0] != "config"[0];
    assert DescriptorsIn(document, "manifests") == [] && DescriptorsIn(document, "layers") == [];
    assert "digest"[0] != "Labels"[0] && "digest"[0] != "User"[0] && "digest"[0] != "Cmd"[0];
    assert ConfigIn(document) == [];
  }

  lemma ImageReferenceFacts(digest: string, architecture: string)
    requires IsDigest(digest) && (architecture == "amd64" || architecture == "arm64")
    ensures var d := ImageReference(digest, architecture);
            && HasDigest(d) && DigestOf(d) == digest && !IsLayer(d) && IsConfig(d)
            && PlatformOf(d) == Ok({"linux/" + architecture}) && Contribution(d) == {"linux/" + architecture}
  {
    assert "digest"[0] != CONFIG_MARK[0] && "digest"[0] != "platform"[0] && "platform"[0] != CONFIG_MARK[0];
    assert "mediaType"[0] != "digest"[0] && "mediaType"[0] != CONFIG_MARK[0] && "mediaType"[0] != "platform"[0];
    assert "os"[0] != "architecture"[0];
  }

  lemma LayerReferenceFacts(digest: string)
    requires IsDigest(digest)
    ensures var d := LayerReference(digest); HasDigest(d) && DigestOf(d) == digest && IsLayer(d)
  {
    assert "digest"[0] != "mediaType"[0];
    var media := "application/vnd.oci.image.layer.v1.tar";
    assert media[25..32] == ".layer.";
    assert ".layer." <= media[25..];
  }

  function DigestName(h: HashFunction, content: Bytes): (digest: string)
    ensures IsDigest(digest) && Encoded(digest) == Hex(h(content))
  {
    TakeAppend(DIGEST_PREFIX, Hex(h(content)));
    DIGEST_PREFIX + Hex(h(content))
  }

  /** An archive with an index and two blobs. */
  function TwoBlobs(h: HashFunction, loads: Bytes -> Option<Json>, index: Bytes, a: Bytes, b: Bytes,
      studio: bool): Layout
  {
    Layout(
      map["index.json" := Regular(index), BlobName(DigestName(h, a)) := Regular(a),
          BlobName(DigestName(h, b)) := Regular(b)],
      h, loads, studio)
  }

  predicate Decodes(loads: Bytes -> Option<Json>, index: Bytes, references: seq<Json>, a: Bytes, b: Bytes,
      studio: bool)
  {
    && loads(index) == Some(JObj(map["manifests" := JList(references)]))
    && loads(a) == Some(ImageDocument(studio)) && loads(b) == Some(ImageDocument(studio))
  }

  lemma ImageInLayout(l: Layout, digest: string, architecture: string)
    requires IsDigest(digest) && (architecture == "amd64" || architecture == "arm64")
    requires Verified(l, ImageReference(digest, architecture))
    requires l.loads(Content(l, digest)) == Some(ImageDocument(l.studio))
    ensures IsImage(l, ImageReference(digest, architecture), "linux/" + architecture)
  {
    ImageReferenceFacts(digest, architecture);
    ConfigInOrder(l.studio);
    DocumentHasNoChildren(l.studio);
  }

  lemma SameBlob(l: Layout, d: Json, e: Json)
    requires SameTarget(d, e) && Verified(l, d)
    ensures Verified(l, e)
  {
  }

  lemma LayerInLayout(l: Layout, layer: Json, image: Json)
    requires SameTarget(image, layer) && Verified(l, image) && IsLayer(layer)
    ensures IsBareLayer(l, layer)
  {
    SameBlob(l, image, layer);
  }

  /** Both images and the layer reference, in an archive that holds their blobs. */
  lemma TripleInLayout(l: Layout, x: string, y: string)
    requires IsDigest(x) && IsDigest(y) && x != y
    requires Verified(l, ImageReference(x, "amd64")) && Verified(l, ImageReference(y, "arm64"))
    requires DigestOf(ImageReference(x, "amd64")) == x && DigestOf(ImageReference(y, "arm64")) == y
    requires l.loads(Content(l, x)) == l.loads(Content(l, y)) == Some(ImageDocument(l.studio))
    ensures IsTriple(l, LayerReference(x), ImageReference(x, "amd64"), ImageReference(y, "arm64"),
                     "linux/amd64", "linux/arm64")
  {
    LayerReferenceFacts(x);
    ImageInLayout(l, x, "amd64");
    ImageInLayout(l, y, "arm64");
    TripleOf(l, LayerReference(x), ImageReference(x, "amd64"), ImageReference(y, "arm64"),
             "linux/" + "amd64", "linux/" + "arm64");
    PlatformNames();
  }

  lemma PlatformNames()
    ensures "linux/" + "amd64" == "linux/amd64" && "linux/" + "arm64" == "linux/arm64"
  {
  }

  lemma TripleOf(l: Layout, layer: Json, one: Json, two: Json, p: string, q: string)
    requires IsImage(l, one, p) && IsImage(l, two, q) && SameTarget(layer, one) && IsLayer(layer)
    requires DigestOf(one) != DigestOf(two)
    ensures IsTriple(l, layer, one, two, p, q)
  {
    LayerInLayout(l, layer, one);
  }

  lemma BlobsPresent(h: HashFunction, loads: Bytes -> Option<Json>, index: Bytes, a: Bytes, b: Bytes, studio: bool)
    requires h(a) != h(b)
    ensures var l, x, y := TwoBlobs(h, loads, index, a, b, studio), DigestName(h, a), DigestName(h, b);
            && x != y && l.archive["index.json"] == Regular(index)
            && Verified(l, ImageReference(x, "amd64")) && Verified(l, ImageReference(y, "arm64"))
            && DigestOf(ImageReference(x, "amd64")) == x && DigestOf(ImageReference(y, "arm64")) == y
            && Content(l, x) == a && Content(l, y) == b
  {
    var x, y := DigestName(h, a), DigestName(h, b);
    ImageReferenceFacts(x, "amd64");
    ImageReferenceFacts(y, "arm64");
    if x == y {
      HexInjective(h(a), h(b));
    }
    if BlobName(x) == BlobName(y) {
      BlobNameInjective(x, y);
    }
    assert BlobName(x)[0] == 'b' && BlobName(y)[0] == 'b' && "index.json"[0] == 'i';
  }

  lemma IndexDecoded(l: Layout, index: Bytes, references: seq<Json>)
    requires "index.json" in l.archive && l.archive["index.json"] == Regular(index) && references != []
    requires l.loads(index) == Some(JObj(map["manifests" := JList(references)]))
    ensures IndexOf(l) == Ok(references)
  {
  }

  lemma CompleteIsAccepted(l: Layout, roots: seq<Json>, w: Walk)
    requires IndexOf(l) == Ok(roots) && Run(l, Start(roots)) == Ok(w) && Complete(w)
    ensures Inspect(l) == Ok(SummaryOf(l, w))
  {
  }

  lemma AcceptedListedFirst(l: Layout, layer: Json, one: Json, two: Json, p: string, q: string)
    requires IndexOf(l) == Ok([layer, one, two]) && IsTriple(l, layer, one, two, p, q) && {p, q} == PLATFORMS
    ensures Inspect(l) == Ok(Summary(["linux/amd64", "linux/arm64"], 2, 2, l.studio))
  {
    var w := Walk([], {DigestOf(one), DigestOf(two)}, {p, q}, 2, 2);
    LayerListedFirst(l, layer, one, two, p, q);
    assert |w.checked| == 2;
    CompleteIsAccepted(l, [layer, one, two], w);
  }

  lemma RefusedListedLast(l: Layout, layer: Json, one: Json, two: Json, p: string, q: string)
    requires IndexOf(l) == Ok([one, two, layer]) && IsTriple(l, layer, one, two, p, q)
    ensures Inspect(l) == Err(PlatformSetInvalid)
  {
    LayerListedLast(l, layer, one, two, p, q);
  }

  /**
   * Two layouts that differ only in the order in which the index lists the same three references: the one that lists
   * the layer reference first is accepted, the one that lists it last is refused.
   */
  lemma OrderDecidesVerdict(
    h: HashFunction, loads: Bytes -> Option<Json>, front: Bytes, back: Bytes, a: Bytes, b: Bytes, studio: bool)
    requires h(a) != h(b)
    requires var layer, one, two := LayerReference(DigestName(h, a)), ImageReference(DigestName(h, a), "amd64"),
                                    ImageReference(DigestName(h, b), "arm64");
             Decodes(loads, front, [layer, one, two], a, b, studio)
                 && Decodes(loads, back, [one, two, layer], a, b, studio)
    ensures Inspect(TwoBlobs(h, loads, front, a, b, studio))
        == Ok(Summary(["linux/amd64", "linux/arm64"], 2, 2, studio))
    ensures Inspect(TwoBlobs(h, loads, back, a, b, studio)) == Err(PlatformSetInvalid)
  {
    ListedFirst(h, loads, front, a, b, studio);
    ListedLast(h, loads, back, a, b, studio);
  }

  lemma ListedFirst(h: HashFunction, loads: Bytes -> Option<Json>, index: Bytes, a: Bytes, b: Bytes, studio: bool)
    requires h(a) != h(b)
    requires Decodes(
               loads, index,
               [LayerReference(DigestName(h, a)), ImageReference(DigestName(h, a), "amd64"),
                   ImageReference(DigestName(h, b), "arm64")],
               a, b, studio)
    ensures Inspect(TwoBlobs(h, loads, index, a, b, studio))
        == Ok(Summary(["linux/amd64", "linux/arm64"], 2, 2, studio))
  {
    var x, y, l := DigestName(h, a), DigestName(h, b), TwoBlobs(h, loads, index, a, b, studio);
    var layer, one, two := LayerReference(x), ImageReference(x, "amd64"), ImageReference(y, "arm64");
    BlobsPresent(h, loads, index, a, b, studio);
    TripleInLayout(l, x, y);
    IndexDecoded(l, index, [layer, one, two]);
    AcceptedListedFirst(l, layer, one, two, "linux/amd64", "linux/arm64");
  }

  lemma ListedLast(h: HashFunction, loads: Bytes -> Option<Json>, index: Bytes, a: Bytes, b: Bytes, studio: bool)
    requires h(a) != h(b)
    requires Decodes(
               loads, index,
               [ImageReference(DigestName(h, a), "amd64"), ImageReference(DigestName(h, b), "arm64"),
                   LayerReference(DigestName(h, a))],
               a, b, studio)
    ensures Inspect(TwoBlobs(h, loads, index, a, b, studio)) == Err(PlatformSetInvalid)
  {
    var x, y, l := DigestName(h, a), DigestName(h, b), TwoBlobs(h, loads, index, a, b, studio);
    var layer, one, two := LayerReference(x), ImageReference(x, "amd64"), ImageReference(y, "arm64");
    BlobsPresent(h, loads, index, a, b, studio);
    TripleInLayout(l, x, y);
    IndexDecoded(l, index, [one, two, layer]);
    RefusedListedLast(l, layer, one, two, "linux/amd64", "linux/arm64");
  }
}
