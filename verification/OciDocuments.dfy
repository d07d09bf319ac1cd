/** What a walk over an image layout reads, told by the texts and fields of the documents themselves. */
module OciDocuments {
  import opened Sequences
  import opened Wrappers
  import opened Text
  import opened Utf8
  import opened Framing
  import opened JsonValues
  import opened OciLayout
  import opened OciReachability

  // ---------- blobs ----------

  /** The blob stands in the archive under the hash of its content, and the digest is that hash. */
  predicate IsBlob(l: Layout, digest: string, content: Bytes) {
    var name := "blobs/sha256/" + Hex(l.h(content));
    digest == "sha256:" + Hex(l.h(content)) && name in l.archive && l.archive[name] == Regular(content)
  }

  lemma PrefixedDigest(text: string, hex: string)
    requires |hex| == 64 && IsHex(hex)
    ensures text == DIGEST_PREFIX + hex <==> IsDigest(text) && Encoded(text) == hex
  {
    TakeAppend(DIGEST_PREFIX, hex);
    if IsDigest(text) && Encoded(text) == hex {
      TakeDrop(text, |DIGEST_PREFIX|);
    }
  }

  lemma IsBlobExactly(l: Layout, digest: string, content: Bytes)
    ensures IsBlob(l, digest, content) <==>
              && IsDigest(digest) && BlobName(digest) in l.archive && l.archive[BlobName(digest)] == Regular(content)
              && Hex(l.h(content)) == Encoded(digest)
  {
    HexSpells(l.h(content));
    PrefixedDigest(digest, Hex(l.h(content)));
  }

  /** A descriptor is verified exactly when its digest names a blob of the archive that hashes to it. */
  lemma VerifiedExactly(l: Layout, d: Json)
    ensures Verified(l, d) <==>
              && d.JObj? && "digest" in d.fields && d.fields["digest"].JStr?
              && exists content :: IsBlob(l, d.fields["digest"].text, content)
    ensures Verified(l, d) ==> IsBlob(l, DigestOf(d), Content(l, DigestOf(d)))
  {
    if d.JObj? && "digest" in d.fields && d.fields["digest"].JStr? {
      var digest := d.fields["digest"].text;
      if content :| IsBlob(l, digest, content) {
        IsBlobExactly(l, digest, content);
      }
      if Verified(l, d) {
        IsBlobExactly(l, digest, Content(l, digest));
      }
    }
  }

  // ---------- references ----------

  /** `".layer." in media_type`. */
  ghost predicate RefersToLayer(d: Json) {
    d.JObj? && "mediaType" in d.fields && d.fields["mediaType"].JStr? && Within(d.fields["mediaType"].text, ".layer.")
  }

  ghost predicate Within(text: string, part: string) {
    exists before, after :: text == before + part + after
  }

  lemma ContainsExactly(text: string, part: string)
    ensures Contains(text, part) <==> Within(text, part)
  {
    if Contains(text, part) {
      var i :| 0 <= i <= |text| && part <= text[i..];
      TakeDrop(text, i);
      TakeDrop(text[i..], |part|);
      Associate(text[..i], part, text[i..][|part|..]);
      assert text == text[..i] + part + text[i..][|part|..];
    }
    if Within(text, part) {
      var before, after :| text == before + part + after;
      Associate(before, part, after);
      TakeAppend(before, part + after);
      assert part <= text[|before|..];
    }
  }

  lemma IsLayerExactly(d: Json)
    ensures IsLayer(d) <==> RefersToLayer(d)
  {
    if d.JObj? && "mediaType" in d.fields && d.fields["mediaType"].JStr? {
      ContainsExactly(d.fields["mediaType"].text, ".layer.");
    }
  }

  /** An object in a list of the document. */
  predicate Lists(document: Json, key: string, c: Json) {
    && document.JObj? && key in document.fields && document.fields[key].JList?
    && c in document.fields[key].items && c.JObj?
  }

  /** The document's configuration, with the mark by which the walk tells it from other documents. */
  predicate MarksConfig(document: Json, c: Json) {
    && document.JObj? && "config" in document.fields && document.fields["config"].JObj?
    && var config := document.fields["config"].fields;
       "digest" in config && config["digest"].JStr? && c == JObj(config["_p10_config" := JBool(true)])
  }

  /** What a document refers to: nested manifests, its configuration, its layers. */
  predicate RefersTo(document: Json, c: Json) {
    Lists(document, "manifests", c) || MarksConfig(document, c) || Lists(document, "layers", c)
  }

  lemma DescriptorsExactly(document: Json, key: string, c: Json)
    ensures c in DescriptorsIn(document, key) <==> Lists(document, key, c)
  {
  }

  /** What expanding a descriptor enqueues is what its document refers to, and nothing behind a layer. */
  lemma ChildrenExactly(l: Layout, d: Json, c: Json)
    requires Expandable(l, d)
    ensures RefersToLayer(d) || DocumentOf(l, d).Some?
    ensures c in Children(l, d) <==> !RefersToLayer(d) && RefersTo(DocumentOf(l, d).value, c)
  {
    IsLayerExactly(d);
    if !IsLayer(d) {
      var document := DocumentOf(l, d).value;
      DescriptorsExactly(document, "manifests", c);
      DescriptorsExactly(document, "layers", c);
      assert c in ConfigIn(document) <==> MarksConfig(document, c);
    }
  }

  // ---------- the order of references ----------

  predicate Increasing(at: seq<nat>) {
    forall j, k :: 0 <= j < k < |at| ==> at[j] < at[k]
  }

  /** The objects among the items, at these places. */
  predicate PicksAt(items: seq<Json>, at: seq<nat>, found: seq<Json>) {
    && Increasing(at) && |at| == |found|
    && (forall k :: 0 <= k < |at| ==> at[k] < |items| && items[at[k]] == found[k])
    && (forall i :: 0 <= i < |items| ==> (items[i].JObj? <==> i in at))
  }

  /** The objects among the items, all of them and in order. */
  ghost predicate Picks(items: seq<Json>, found: seq<Json>) {
    exists at :: PicksAt(items, at, found)
  }

  lemma PicksMore(items: seq<Json>, at: seq<nat>, found: seq<Json>, last: Json)
    requires PicksAt(items, at, found)
    ensures if last.JObj? then PicksAt(items + [last], at + [|items|], found + [last])
            else PicksAt(items + [last], at, found)
  {
    var more := items + [last];
    forall i | 0 <= i < |items| ensures more[i] == items[i] && (items[i].JObj? <==> i in at) {
    }
    if last.JObj? {
      forall i | 0 <= i < |more| ensures more[i].JObj? <==> i in at + [|items|] {
        assert i in at + [|items|] <==> i in at || i == |items|;
      }
    } else {
      assert |items| !in at;
    }
  }

  lemma {:induction false} DictionariesAppend(items: seq<Json>, last: Json)
    ensures Dictionaries(items + [last]) == Dictionaries(items) + if last.JObj? then [last] else []
  {
    if items == [] {
      assert [] + [last] == [last];
      assert [last][1..] == [];
    } else {
      var all, more := items + [last], if last.JObj? then [last] else [];
      DictionariesAppend(items[1..], last);
      assert all[0] == items[0] && all[1..] == items[1..] + [last];
      Associate([items[0]], Dictionaries(items[1..]), more);
    }
  }

  lemma {:induction false} DictionariesPick(items: seq<Json>) returns (at: seq<nat>)
    ensures PicksAt(items, at, Dictionaries(items))
  {
    if items == [] {
      at := [];
    } else {
      var n := |items| - 1;
      var before := DictionariesPick(items[..n]);
      PicksMore(items[..n], before, Dictionaries(items[..n]), items[n]);
      DictionariesAppend(items[..n], items[n]);
      assert items == items[..n] + [items[n]];
      at := if items[n].JObj? then before + [n] else before;
      Neutral(Dictionaries(items[..n]));
    }
  }

  /** The items of a list field. */
  function Items(document: Json, key: string): seq<Json> {
    if document.JObj? && key in document.fields && document.fields[key].JList? then document.fields[key].items else []
  }

  /** Manifests come first, then the configuration, then the layers, each list in its own order. */
  lemma ChildrenInOrder(l: Layout, d: Json) returns (manifests: seq<Json>, config: seq<Json>, layers: seq<Json>)
    requires Expandable(l, d) && !RefersToLayer(d)
    ensures DocumentOf(l, d).Some? && Children(l, d) == manifests + config + layers
    ensures var document := DocumentOf(l, d).value;
            && Picks(Items(document, "manifests"), manifests) && Picks(Items(document, "layers"), layers)
            && |config| <= 1 && forall c :: c in config <==> MarksConfig(document, c)
  {
    IsLayerExactly(d);
    var document := DocumentOf(l, d).value;
    manifests, config, layers :=
      DescriptorsIn(document, "manifests"), ConfigIn(document), DescriptorsIn(document, "layers");
    var at := DictionariesPick(Items(document, "manifests"));
    var at' := DictionariesPick(Items(document, "layers"));
  }

  // ---------- what is looked at in a descriptor and in a configuration ----------

  /** A field with a given text. */
  predicate Says(fields: map<string, Json>, key: string, text: string) {
    key in fields && fields[key] == JStr(text)
  }

  predicate ListsText(fields: map<string, Json>, key: string, text: string) {
    key in fields && fields[key].JList? && JStr(text) in fields[key].items
  }

  predicate Object(fields: map<string, Json>, key: string) {
    key in fields && fields[key].JObj?
  }

  /** The forty digits of a source revision. */
  ghost predicate SaysRevision(fields: map<string, Json>, key: string) {
    exists b: Bytes :: |b| == 20 && Says(fields, key, Hex(b))
  }

  predicate HasLabels(studio: bool, labels: map<string, Json>) {
    && Says(labels, "org.opencontainers.image.title",
            if studio then "Digital Colleagues Studio" else "Digital Colleagues")
    && Says(labels, "org.opencontainers.image.version", "0.2.0-dev.0")
    && Says(labels, "org.opencontainers.image.licenses", "Apache-2.0")
    && Says(labels, "org.opencontainers.image.source", "accepted-p9-derived-p10")
  }

  /** An image configuration carries the product's labels, and runs what the image is for. */
  ghost predicate ConfigInOrder(studio: bool, document: Json) {
    && document.JObj? && Object(document.fields, "config")
    && var config := document.fields["config"].fields;
       && Object(config, "Labels")
       && HasLabels(studio, config["Labels"].fields)
       && SaysRevision(config["Labels"].fields, "org.opencontainers.image.revision")
       && (if studio then ListsText(config, "Cmd", "nginx")
           else Says(config, "User", "10001:10001") && ListsText(config, "Cmd", "uvicorn"))
  }

  lemma RequiredExactly(studio: bool, labels: map<string, Json>)
    ensures (forall k :: k in RequiredLabels(studio) ==> Get(labels, k) == RequiredLabels(studio)[k])
            <==> HasLabels(studio, labels)
  {
    var t, v, c, s := "org.opencontainers.image.title", "org.opencontainers.image.version",
        "org.opencontainers.image.licenses", "org.opencontainers.image.source";
    assert t[25] == 't' && v[25] == 'v' && c[25] == 'l' && s[25] == 's';
    var required := RequiredLabels(studio);
    assert required.Keys == {t, v, c, s};
    assert required[s] == JStr("accepted-p9-derived-p10") && required[c] == JStr("Apache-2.0");
    assert required[v] == JStr("0.2.0-dev.0");
    assert required[t] == JStr(if studio then "Digital Colleagues Studio" else "Digital Colleagues");
  }

  lemma IsRevisionExactly(fields: map<string, Json>, key: string)
    ensures IsRevision(Get(fields, key)) <==> SaysRevision(fields, key)
  {
    if IsRevision(Get(fields, key)) {
      var b := HexOnto(fields[key].text);
      assert Says(fields, key, Hex(b));
    }
    if SaysRevision(fields, key) {
      var b: Bytes :| |b| == 20 && Says(fields, key, Hex(b));
      HexSpells(b);
    }
  }

  /** The checks on a configuration pass exactly when it is in order. */
  lemma CheckConfigExactly(studio: bool, document: Json)
    ensures CheckConfig(studio, document).None? <==> ConfigInOrder(studio, document)
  {
    if document.JObj? && Object(document.fields, "config") {
      var config := document.fields["config"].fields;
      if Object(config, "Labels") {
        RequiredExactly(studio, config["Labels"].fields);
        IsRevisionExactly(config["Labels"].fields, "org.opencontainers.image.revision");
      }
    }
  }

  /** A linux descriptor for one of the two architectures declares a platform; no other does. */
  predicate Declares(d: Json, platform: string) {
    && d.JObj? && Object(d.fields, "platform")
    && var fields := d.fields["platform"].fields;
       Says(fields, "os", "linux")
       && ((platform == "linux/amd64" && Says(fields, "architecture", "amd64"))
           || (platform == "linux/arm64" && Says(fields, "architecture", "arm64")))
  }

  lemma ContributionExactly(d: Json, platform: string)
    ensures platform in Contribution(d) <==> !RefersToLayer(d) && Declares(d, platform)
  {
    IsLayerExactly(d);
    assert "linux/" + "amd64" == "linux/amd64" && "linux/" + "arm64" == "linux/arm64";
    assert "amd64"[1] != "arm64"[1];
  }

  /** A linux descriptor whose architecture is a list or an object: Python cannot look that up in a set. */
  predicate Unhashable(d: Json) {
    && d.JObj? && Object(d.fields, "platform")
    && var fields := d.fields["platform"].fields;
       Says(fields, "os", "linux") && "architecture" in fields
       && (fields["architecture"].JList? || fields["architecture"].JObj?)
  }

  lemma UnhashableExactly(d: Json)
    ensures PlatformOf(d).Err? <==> Unhashable(d)
  {
  }

  /** A verified descriptor is taken when it is a layer, or when its document reads and nothing in it is at fault. */
  lemma ExpandableExactly(l: Layout, d: Json)
    requires Verified(l, d)
    ensures Expandable(l, d) <==>
              RefersToLayer(d)
              || (DocumentOf(l, d).Some? && !Unhashable(d)
                  && (IsMarked(d) ==> ConfigInOrder(l.studio, DocumentOf(l, d).value)))
  {
    IsLayerExactly(d);
    if !RefersToLayer(d) && DocumentOf(l, d).Some? {
      IsMarkedExactly(d);
      UnhashableExactly(d);
      CheckConfigExactly(l.studio, DocumentOf(l, d).value);
      ExpandableParts(l, d);
    }
  }

  lemma ExpandableParts(l: Layout, d: Json)
    requires Verified(l, d) && !IsLayer(d) && DocumentOf(l, d).Some?
    ensures Expandable(l, d) <==>
              PlatformOf(d).Ok? && (KindOf(d) == Config ==> CheckConfig(l.studio, DocumentOf(l, d).value).None?)
  {
  }

  // ---------- a finished walk ----------

  predicate NamesDigest(d: Json, x: string) {
    d.JObj? && "digest" in d.fields && d.fields["digest"] == JStr(x)
  }

  /** The blob of a digest reads as this document. */
  ghost predicate ReadsAs(l: Layout, x: string, document: Json) {
    exists content :: IsBlob(l, x, content) && l.loads(content) == Some(document)
  }

  ghost predicate IsMarked(d: Json) {
    !RefersToLayer(d) && d.JObj? && "_p10_config" in d.fields && d.fields["_p10_config"] == JBool(true)
  }

  predicate ListsLayers(document: Json) {
    document.JObj? && "layers" in document.fields && document.fields["layers"].JList?
  }

  /** A digest reached through this reference: its document, unless it is a layer, has all it refers to enqueued. */
  ghost predicate Followed(l: Layout, seen: set<Json>, x: string, d: Json) {
    RefersToLayer(d) || exists document ::
                          && ReadsAs(l, x, document)
                          && (IsMarked(d) ==> ConfigInOrder(l.studio, document))
                          && forall c :: RefersTo(document, c) ==> c in seen
  }

  ghost predicate LeadsTo(l: Layout, x: string, d: Json, c: Json) {
    !RefersToLayer(d) && exists document :: ReadsAs(l, x, document) && RefersTo(document, c)
  }

  ghost predicate IsImage(l: Layout, x: string, d: Json) {
    !RefersToLayer(d) && exists document :: ReadsAs(l, x, document) && ListsLayers(document)
  }

  /** Every descriptor enqueued names a blob that hashes to its digest, and the digest is checked. */
  ghost predicate AllVerified(l: Layout, checked: set<string>, seen: set<Json>) {
    forall d :: d in seen ==> exists x, content :: NamesDigest(d, x) && x in checked && IsBlob(l, x, content)
  }

  /** Every digest checked was met through an enqueued descriptor, and its document followed. */
  ghost predicate AllFollowed(l: Layout, checked: set<string>, seen: set<Json>, first: map<string, Json>) {
    && first.Keys == checked
    && forall x :: x in first ==> first[x] in seen && NamesDigest(first[x], x) && Followed(l, seen, x, first[x])
  }

  /** Nothing was enqueued but the index and what the documents refer to. */
  ghost predicate NothingElse(l: Layout, roots: seq<Json>, seen: set<Json>, first: map<string, Json>) {
    && (forall d :: d in roots ==> d in seen)
    && forall d :: d in seen ==> d in roots || exists x :: x in first && LeadsTo(l, x, first[x], d)
  }

  /** The counters are the numbers of marked configurations and of documents with layers. */
  ghost predicate CountsRead(l: Layout, w: Walk, first: map<string, Json>) {
    && w.configs == |set x | x in first && IsMarked(first[x])|
    && w.manifests == |set x | x in first && IsImage(l, x, first[x])|
    && forall p :: p in w.platforms <==> exists x :: x in first && !RefersToLayer(first[x]) && Declares(first[x], p)
  }

  lemma OneContent(l: Layout, x: string, a: Bytes, b: Bytes)
    requires IsBlob(l, x, a) && IsBlob(l, x, b)
    ensures a == b
  {
    IsBlobExactly(l, x, a);
    IsBlobExactly(l, x, b);
  }

  /** A verified descriptor's digest reads as its document and as nothing else. */
  lemma ReadsAsExactly(l: Layout, d: Json, document: Json)
    requires Verified(l, d)
    ensures ReadsAs(l, DigestOf(d), document) <==> DocumentOf(l, d) == Some(document)
  {
    var own := Content(l, DigestOf(d));
    VerifiedExactly(l, d);
    if ReadsAs(l, DigestOf(d), document) {
      var content :| IsBlob(l, DigestOf(d), content) && l.loads(content) == Some(document);
      OneContent(l, DigestOf(d), content, own);
    }
  }

  lemma IsMarkedExactly(d: Json)
    ensures KindOf(d) == Config <==> IsMarked(d)
  {
    IsLayerExactly(d);
  }

  lemma ExpandedIsFollowed(l: Layout, seen: set<Json>, x: string, d: Json)
    requires Expanded(l, seen, x, d)
    ensures NamesDigest(d, x) && Followed(l, seen, x, d)
  {
    IsLayerExactly(d);
    IsMarkedExactly(d);
    if !RefersToLayer(d) {
      var document := DocumentOf(l, d).value;
      ReadsAsExactly(l, d, document);
      CheckConfigExactly(l.studio, document);
      forall c | RefersTo(document, c) ensures c in seen {
        ChildrenExactly(l, d, c);
      }
    }
  }

  lemma ChildIsLedTo(l: Layout, x: string, d: Json, c: Json)
    requires IsChildOf(l, c, d) && DigestOf(d) == x
    ensures LeadsTo(l, x, d, c)
  {
    ChildrenExactly(l, d, c);
    ReadsAsExactly(l, d, DocumentOf(l, d).value);
  }

  lemma IsImageExactly(l: Layout, x: string, d: Json)
    requires Expandable(l, d) && DigestOf(d) == x
    ensures IsManifest(l, d) <==> IsImage(l, x, d)
  {
    IsLayerExactly(d);
    if !IsLayer(d) {
      ReadsAsExactly(l, d, DocumentOf(l, d).value);
      if IsImage(l, x, d) {
        var document :| ReadsAs(l, x, document) && ListsLayers(document);
        ReadsAsExactly(l, d, document);
      }
    }
  }

  lemma FinishedVerified(l: Layout, roots: seq<Json>, w: Walk, seen: set<Json>, first: map<string, Json>)
    requires Finished(l, roots, w, seen, first)
    ensures AllVerified(l, w.checked, seen)
  {
    forall d | d in seen ensures exists x, content :: NamesDigest(d, x) && x in w.checked && IsBlob(l, x, content) {
      VerifiedExactly(l, d);
      assert NamesDigest(d, DigestOf(d));
    }
  }

  lemma FinishedFollowed(l: Layout, roots: seq<Json>, w: Walk, seen: set<Json>, first: map<string, Json>)
    requires Finished(l, roots, w, seen, first)
    ensures AllFollowed(l, w.checked, seen, first)
  {
    forall x | x in first ensures first[x] in seen && NamesDigest(first[x], x) && Followed(l, seen, x, first[x]) {
      assert Expanded(l, seen, x, first[x]);
      ExpandedIsFollowed(l, seen, x, first[x]);
    }
  }

  lemma FinishedNothingElse(l: Layout, roots: seq<Json>, w: Walk, seen: set<Json>, first: map<string, Json>)
    requires Finished(l, roots, w, seen, first)
    ensures NothingElse(l, roots, seen, first)
  {
    forall d | d in seen && d !in roots ensures exists x :: x in first && LeadsTo(l, x, first[x], d) {
      assert HasSource(l, roots, first, d);
      var x :| x in first && IsChildOf(l, d, first[x]);
      assert Expanded(l, seen, x, first[x]);
      ChildIsLedTo(l, x, first[x], d);
    }
  }

  lemma ConfigsRead(first: map<string, Json>)
    ensures Select(first, ConfigTest()) == set x | x in first && IsMarked(first[x])
  {
    forall x | x in first ensures ConfigTest()(first[x]) <==> IsMarked(first[x]) {
      IsMarkedExactly(first[x]);
    }
  }

  ghost predicate AllExpanded(l: Layout, first: map<string, Json>) {
    forall x :: x in first ==> Expandable(l, first[x]) && DigestOf(first[x]) == x
  }

  lemma ImagesRead(l: Layout, first: map<string, Json>)
    requires AllExpanded(l, first)
    ensures Select(first, ManifestTest(l)) == set x | x in first && IsImage(l, x, first[x])
  {
    forall x | x in first ensures ManifestTest(l)(first[x]) <==> IsImage(l, x, first[x]) {
      IsImageExactly(l, x, first[x]);
    }
  }

  lemma FinishedCountsRead(l: Layout, roots: seq<Json>, w: Walk, seen: set<Json>, first: map<string, Json>)
    requires Finished(l, roots, w, seen, first)
    ensures CountsRead(l, w, first)
  {
    FinishedCounts(l, roots, w, seen, first);
    forall x | x in first ensures Expandable(l, first[x]) && DigestOf(first[x]) == x {
      FirstIsReachable(l, roots, w, seen, first, x);
    }
    ConfigsRead(first);
    ImagesRead(l, first);
    PlatformsRead(l, w, first);
  }

  lemma PlatformsRead(l: Layout, w: Walk, first: map<string, Json>)
    requires Counted(l, w, first)
    ensures forall p ::
              p in w.platforms <==> exists x :: x in first && !RefersToLayer(first[x]) && Declares(first[x], p)
  {
    forall p ensures p in PlatformsIn(first)
                     <==> exists x :: x in first && !RefersToLayer(first[x]) && Declares(first[x], p)
    {
      if p in PlatformsIn(first) {
        var x :| x in first && p in Contribution(first[x]);
        ContributionExactly(first[x], p);
      }
      if x :| x in first && !RefersToLayer(first[x]) && Declares(first[x], p) {
        ContributionExactly(first[x], p);
      }
    }
  }

  /** A finished walk, told by the documents alone. */
  ghost predicate ReadWhole(l: Layout, roots: seq<Json>, w: Walk, seen: set<Json>, first: map<string, Json>) {
    && w.queue == []
    && AllVerified(l, w.checked, seen) && AllFollowed(l, w.checked, seen, first)
    && NothingElse(l, roots, seen, first) && CountsRead(l, w, first)
  }

  /**
   * Whatever order a finished walk took: all that the documents refer to, from the index on, was verified and followed,
   * nothing else was, and the counters count it.
   */
  lemma FinishedReadsWhole(l: Layout, roots: seq<Json>, w: Walk, seen: set<Json>, first: map<string, Json>)
    requires Finished(l, roots, w, seen, first)
    ensures ReadWhole(l, roots, w, seen, first)
  {
    FinishedVerified(l, roots, w, seen, first);
    FinishedFollowed(l, roots, w, seen, first);
    FinishedNothingElse(l, roots, w, seen, first);
    FinishedCountsRead(l, roots, w, seen, first);
  }

  /** What is wrong with a descriptor: no object, no digest, no such blob, or a blob with another hash. */
  lemma FaultsExactly(l: Layout, d: Json)
    ensures CheckDescriptor(l, d) == Some(NotADescriptor) <==> !d.JObj?
    ensures CheckDescriptor(l, d) == Some(DescriptorDigestInvalid) <==> d.JObj? && !HasDigest(d)
    ensures CheckDescriptor(l, d) == Some(BlobMissing) <==>
              HasDigest(d) && !(BlobName(DigestOf(d)) in l.archive && l.archive[BlobName(DigestOf(d))].Regular?)
    ensures CheckDescriptor(l, d).None? <==> Verified(l, d)
  {
  }
}
