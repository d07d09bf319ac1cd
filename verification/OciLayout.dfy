/** The content-addressed walk over an image layout: every descriptor verified, every document's children visited. */
module OciLayout {
  import opened Sequences
  import opened Wrappers
  import opened Text
  import opened Utf8
  import opened Framing
  import opened JsonValues

  /** An archive member; only regular ones can be opened. */
  datatype Member = Regular(content: Bytes) | Special

  /** What the walk takes as given: the archive, the hash, the JSON decoder and which image the layout is for. */
  datatype Layout = Layout(archive: map<string, Member>, h: HashFunction, loads: Bytes -> Option<Json>, studio: bool)

  datatype OciError =
    | KeyMissing
    | IndexMissing
    | ManifestCountInvalid
    | NotADescriptor
    | DescriptorDigestInvalid
    | BlobMissing
    | BlobDigestMismatch
    | LayoutInvalid
    | ConfigInvalid
    | ConfigLabelInvalid
    | ConfigRevisionInvalid
    | RuntimeContentInvalid
    | StudioContentInvalid
    | UnhashableArchitecture
    | PlatformSetInvalid

  const DIGEST_PREFIX := "sha256:"
  const CONFIG_MARK := "_p10_config"

  /** `re.fullmatch(r"sha256:[0-9a-f]{64}", digest)`. */
  predicate IsDigest(digest: string) {
    |digest| == |DIGEST_PREFIX| + 64 && DIGEST_PREFIX <= digest && IsHex(digest[|DIGEST_PREFIX|..])
  }

  function Encoded(digest: string): string
    requires IsDigest(digest)
  {
    digest[|DIGEST_PREFIX|..]
  }

  function BlobName(digest: string): string
    requires IsDigest(digest)
  {
    "blobs/sha256/" + Encoded(digest)
  }

  // ---------- descriptors ----------

  predicate HasDigest(d: Json) {
    d.JObj? && Get(d.fields, "digest").JStr? && IsDigest(Get(d.fields, "digest").text)
  }

  function DigestOf(d: Json): string
    requires HasDigest(d)
  {
    Get(d.fields, "digest").text
  }

  /** The descriptor names a blob of the archive whose hash is its digest. */
  predicate Verified(l: Layout, d: Json) {
    && HasDigest(d)
    && BlobName(DigestOf(d)) in l.archive
    && l.archive[BlobName(DigestOf(d))].Regular?
    && Hex(l.h(l.archive[BlobName(DigestOf(d))].content)) == Encoded(DigestOf(d))
  }

  function Content(l: Layout, digest: string): Bytes
    requires IsDigest(digest) && BlobName(digest) in l.archive && l.archive[BlobName(digest)].Regular?
  {
    l.archive[BlobName(digest)].content
  }

  predicate IsLayer(d: Json) {
    d.JObj? && Get(d.fields, "mediaType").JStr? && Contains(Get(d.fields, "mediaType").text, ".layer.")
  }

  predicate IsConfig(d: Json) {
    d.JObj? && Get(d.fields, CONFIG_MARK) == JBool(true)
  }

  datatype Kind = Layer | Config | Other

  /** How a descriptor refers to its blob. */
  function KindOf(d: Json): Kind {
    if IsLayer(d) then Layer else if IsConfig(d) then Config else Other
  }

  // ---------- documents ----------

  function Dictionaries(items: seq<Json>): (found: seq<Json>)
    ensures forall d :: d in found <==> d in items && d.JObj?
  {
    if items == [] then []
    else if items[0].JObj? then [items[0]] + Dictionaries(items[1..])
    else Dictionaries(items[1..])
  }

  function DescriptorsIn(document: Json, key: string): seq<Json> {
    if document.JObj? && Get(document.fields, key).JList? then Dictionaries(Get(document.fields, key).items) else []
  }

  /** The config descriptor of a manifest, marked as such. */
  function ConfigIn(document: Json): seq<Json> {
    if document.JObj? && Get(document.fields, "config").JObj?
        && Get(Get(document.fields, "config").fields, "digest").JStr? then
      [JObj(Get(document.fields, "config").fields[CONFIG_MARK := JBool(true)])]
    else []
  }

  predicate HasLayers(document: Json) {
    document.JObj? && Get(document.fields, "layers").JList?
  }

  /** What a document adds to the queue: nested manifests, its config, its layers. */
  function ChildrenOf(document: Json): seq<Json> {
    DescriptorsIn(document, "manifests") + ConfigIn(document) + DescriptorsIn(document, "layers")
  }

  /** The fixed texts of the image metadata. */
  function RequiredLabels(studio: bool): map<string, Json> {
    map["org.opencontainers.image.title" := JStr(if studio then "Digital Colleagues Studio" else "Digital Colleagues"),
        "org.opencontainers.image.version" := JStr("0.2.0-dev.0"),
        "org.opencontainers.image.licenses" := JStr("Apache-2.0"),
        "org.opencontainers.image.source" := JStr("accepted-p9-derived-p10")]
  }

  predicate IsRevision(value: Json) {
    value.JStr? && |value.text| == 40 && IsHex(value.text)
  }

  predicate HasItem(value: Json, text: string) {
    value.JList? && JStr(text) in value.items
  }

  /** The checks on an image configuration, in order. */
  function CheckConfig(studio: bool, document: Json): Option<OciError> {
    if !document.JObj? || !Get(document.fields, "config").JObj? then Some(ConfigInvalid)
    else
      var config := Get(document.fields, "config").fields;
      var labels := Get(config, "Labels");
      if !labels.JObj? || exists k ::
          k in RequiredLabels(studio) && Get(labels.fields, k) != RequiredLabels(studio)[k] then
        Some(ConfigLabelInvalid)
      else if !IsRevision(Get(labels.fields, "org.opencontainers.image.revision")) then Some(ConfigRevisionInvalid)
      else if !studio && (Get(config, "User") != JStr("10001:10001") || !HasItem(Get(config, "Cmd"), "uvicorn")) then
        Some(RuntimeContentInvalid)
      else if studio && !HasItem(Get(config, "Cmd"), "nginx") then Some(StudioContentInvalid)
      else None
  }

  /** The platform a descriptor declares: none, one, or a value Python cannot look up in a set. */
  function PlatformOf(d: Json): Result<set<string>, OciError> {
    if !d.JObj? || !Get(d.fields, "platform").JObj? then Ok({})
    else
      var platform := Get(d.fields, "platform").fields;
      if Get(platform, "os") != JStr("linux") then Ok({})
      else match Get(platform, "architecture")
        case JList(_) => Err(UnhashableArchitecture)
        case JObj(_) => Err(UnhashableArchitecture)
        case JStr(a) => if a == "amd64" || a == "arm64" then Ok({"linux/" + a}) else Ok({})
        case _ => Ok({})
  }

  // ---------- the walk ----------

  datatype Walk = Walk(queue: seq<Json>, checked: set<string>, platforms: set<string>, manifests: nat, configs: nat)

  /** The descriptor itself, before anything is read out of the blob. */
  function CheckDescriptor(l: Layout, d: Json): Option<OciError> {
    if !d.JObj? then Some(NotADescriptor)
    else if !HasDigest(d) then Some(DescriptorDigestInvalid)
    else if BlobName(DigestOf(d)) !in l.archive || l.archive[BlobName(DigestOf(d))].Special? then Some(BlobMissing)
    else if !Verified(l, d) then Some(BlobDigestMismatch)
    else None
  }

  /** What a verified blob is read as. */
  function DocumentOf(l: Layout, d: Json): Option<Json>
    requires Verified(l, d)
  {
    l.loads(Content(l, DigestOf(d)))
  }

  /** Everything that can be wrong with a descriptor that is expanded. */
  function CheckExpansion(l: Layout, d: Json): Option<OciError>
    requires Verified(l, d)
  {
    if IsLayer(d) then None
    else match DocumentOf(l, d)
      case None => Some(LayoutInvalid)
      case Some(document) =>
        if IsConfig(d) && CheckConfig(l.studio, document).Some? then CheckConfig(l.studio, document)
        else match PlatformOf(d)
          case Err(e) => Some(e)
          case Ok(_) => None
  }

  predicate Expandable(l: Layout, d: Json) {
    Verified(l, d) && CheckExpansion(l, d).None?
  }

  /** The children a descriptor's blob adds; a layer adds none. */
  function Children(l: Layout, d: Json): seq<Json>
    requires Expandable(l, d)
  {
    if IsLayer(d) then [] else ChildrenOf(DocumentOf(l, d).value)
  }

  predicate CountsAsManifest(l: Layout, d: Json)
    requires Expandable(l, d)
  {
    !IsLayer(d) && HasLayers(DocumentOf(l, d).value)
  }

  /** The state after one descriptor, taken off the queue already, has been dealt with. */
  function Visit(l: Layout, w: Walk, d: Json): Result<Walk, OciError> {
    if CheckDescriptor(l, d).Some? then Err(CheckDescriptor(l, d).value)
    else if DigestOf(d) in w.checked then Ok(w)
    else if CheckExpansion(l, d).Some? then Err(CheckExpansion(l, d).value)
    else
      Ok(Walk(
        w.queue + Children(l, d),
        w.checked + {DigestOf(d)},
        w.platforms + (if IsLayer(d) then {} else PlatformOf(d).value),
        w.manifests + (if CountsAsManifest(l, d) then 1 else 0),
        w.configs + (if KindOf(d) == Config then 1 else 0)))
  }

  /** Blobs of the archive that no checked digest names yet. */
  function Unchecked(l: Layout, checked: set<string>): set<string> {
    set n | n in l.archive && forall x :: x in checked && IsDigest(x) ==> BlobName(x) != n
  }

  lemma BlobNameInjective(x: string, y: string)
    requires IsDigest(x) && IsDigest(y) && BlobName(x) == BlobName(y)
    ensures x == y
  {
    TakeAppend("blobs/sha256/", Encoded(x));
    TakeAppend("blobs/sha256/", Encoded(y));
    TakeDrop(x, |DIGEST_PREFIX|);
    TakeDrop(y, |DIGEST_PREFIX|);
  }

  /** A visit checks a new blob of the archive, or leaves everything but the queue as it was. */
  lemma VisitProgress(l: Layout, w: Walk, d: Json)
    requires Visit(l, w, d).Ok?
    ensures var w' := Visit(l, w, d).value;
            w' == w || Unchecked(l, w'.checked) < Unchecked(l, w.checked)
    ensures Visit(l, w, d).value == w <==> DigestOf(d) in w.checked
  {
    var w' := Visit(l, w, d).value;
    if DigestOf(d) !in w.checked {
      var n := BlobName(DigestOf(d));
      assert DigestOf(d) in w'.checked && n !in Unchecked(l, w'.checked);
      forall x | x in w.checked && IsDigest(x) ensures BlobName(x) != n {
        if BlobName(x) == n {
          BlobNameInjective(x, DigestOf(d));
        }
      }
      assert n in Unchecked(l, w.checked);
    }
  }
}
