/** The remote-distribution policy and what it lets a caller verify. */
module RemotePolicy {
  import opened Wrappers
  import opened JsonValues
  import opened OciLayout

  /** The fields that change over the life of a release. */
  datatype Slot =
    | PublishedRevision
    | PublicationId
    | PublicationUrl
    | VerificationId
    | VerificationUrl
    | RuntimeDigest
    | RuntimeVisibility
    | StudioDigest
    | StudioVisibility
    | AnonymousPull

  /** The fields of a policy; names outside the table are told apart by their text. */
  datatype Field =
    LifecycleState | Variable(slot: Slot) | Fixed(name: string) | Outcome(name: string) | Unknown(name: string)

  type Policy = map<Field, Json>

  /** The fixed identities of the product, and the names of the result fields. */
  datatype Tables = Tables(fixed: map<string, Json>, outcomes: set<string>, repository: string)

  /** The tables of the P10 gate. */
  const P10_TABLES := Tables(
    map[
      "schema_version" := JInt(2),
      "policy_id" := JStr("digital-colleagues-p10-remote-distribution-v2"),
      "required_product_name" := JStr("Digital Colleagues"),
      "required_python_version" := JStr("0.2.0.dev0"),
      "required_display_version" := JStr("0.2.0-dev.0"),
      "required_maturity" := JStr("Public Pilot development candidate"),
      "required_platforms" := JList([JStr("linux/amd64"), JStr("linux/arm64")]),
      "runtime_selection" := JStr("exact_digest_only"),
      "remote_repository" := JStr("jeremyliu1220/digital-colleagues"),
      "remote_workflow_path" := JStr(".github/workflows/ci.yml"),
      "remote_workflow_ref" := JStr("refs/heads/codex/p10-mac-quickstart"),
      "remote_signer" := JStr(
        "https://github.com/jeremyliu1220/digital-colleagues/.github/workflows/ci.yml@refs/heads/codex/p10-mac-quickstart"),
      "remote_issuer" := JStr("https://token.actions.githubusercontent.com"),
      "runtime_subject" := JStr("ghcr.io/jeremyliu1220/digital-colleagues-runtime"),
      "studio_subject" := JStr("ghcr.io/jeremyliu1220/digital-colleagues-studio"),
      "synthetic_fixture_may_satisfy_remote_gate" := JBool(false)],
    {"ghcr_publication", "registry_image_signature", "registry_attestation", "remote_distribution_gate"},
    "jeremyliu1220/digital-colleagues")

  datatype Lifecycle = AuthorizedPending | PublishedPendingVerification | Passed

  datatype PolicyError =
    | ShapeInvalid
    | LifecycleInvalid
    | IdentityOrResultInvalid
    | PendingPolicyInvalid
    | PublishedIdentityInvalid
    | PublishedPendingInvalid
    | PassedPolicyInvalid
    | VerificationInputMismatch
    | OverrideForbidden
    | VerificationInputInvalid

  predicate Known(t: Tables, f: Field) {
    match f
    case LifecycleState => true
    case Variable(_) => true
    case Fixed(n) => n in t.fixed
    case Outcome(n) => n in t.outcomes
    case Unknown(_) => false
  }

  /** `set(policy) == POLICY_KEYS`. */
  ghost predicate HasShape(t: Tables, p: Policy) {
    forall f :: f in p <==> Known(t, f)
  }

  const SLOTS: set<Slot> := {
    PublishedRevision, PublicationId, PublicationUrl, VerificationId, VerificationUrl,
    RuntimeDigest, RuntimeVisibility, StudioDigest, StudioVisibility, AnonymousPull}

  lemma EverySlot()
    ensures forall s: Slot :: s in SLOTS
  {
    forall s: Slot ensures s in SLOTS {
      match s
      case PublishedRevision =>
      case PublicationId =>
      case PublicationUrl =>
      case VerificationId =>
      case VerificationUrl =>
      case RuntimeDigest =>
      case RuntimeVisibility =>
      case StudioDigest =>
      case StudioVisibility =>
      case AnonymousPull =>
    }
  }

  function PolicyKeys(t: Tables): (keys: set<Field>)
    ensures forall f :: f in keys <==> Known(t, f)
  {
    EverySlot();
    {LifecycleState} + (set s | s in SLOTS :: Variable(s)) + (set n | n in t.fixed :: Fixed(n))
        + (set n | n in t.outcomes :: Outcome(n))
  }

  function Text(l: Lifecycle): string {
    match l
    case AuthorizedPending => "authorized_pending"
    case PublishedPendingVerification => "published_pending_verification"
    case Passed => "passed"
  }

  function LifecycleOf(value: Json): Option<Lifecycle> {
    if value == JStr(Text(AuthorizedPending)) then Some(AuthorizedPending)
    else if value == JStr(Text(PublishedPendingVerification)) then Some(PublishedPendingVerification)
    else if value == JStr(Text(Passed)) then Some(Passed)
    else None
  }

  function Read(p: Policy, f: Field): Json {
    if f in p then p[f] else JNull
  }

  function Value(p: Policy, s: Slot): Json {
    Read(p, Variable(s))
  }

  predicate Is(p: Policy, s: Slot, text: string) {
    PyEqual(Value(p, s), JStr(text))
  }

  /** `[1-9][0-9]*`. */
  predicate IsRunId(text: string) {
    text != "" && '1' <= text[0] <= '9' && forall i :: 0 < i < |text| ==> '0' <= text[i] <= '9'
  }

  function RunUrl(t: Tables, id: string): string {
    "https://github.com/" + t.repository + "/actions/runs/" + id
  }

  predicate ValidRun(t: Tables, p: Policy, id: Slot, url: Slot) {
    Value(p, id).JStr? && IsRunId(Value(p, id).text) && Is(p, url, RunUrl(t, Value(p, id).text))
  }

  predicate IsDigestValue(value: Json) {
    value.JStr? && IsDigest(value.text)
  }

  predicate FixedAsRequired(t: Tables, p: Policy) {
    forall n :: n in t.fixed ==> PyEqual(Read(p, Fixed(n)), t.fixed[n])
  }

  predicate OutcomesAre(t: Tables, p: Policy, text: string) {
    forall n :: n in t.outcomes ==> PyEqual(Read(p, Outcome(n)), JStr(text))
  }

  predicate VerificationPending(p: Policy) {
    && Is(p, VerificationId, "pending") && Is(p, VerificationUrl, "pending")
    && Is(p, RuntimeVisibility, "pending") && Is(p, StudioVisibility, "pending") && Is(p, AnonymousPull, "pending")
  }

  predicate StillPending(p: Policy) {
    && Is(p, PublishedRevision, "workflow_dispatch_candidate_sha")
    && Is(p, PublicationId, "pending") && Is(p, PublicationUrl, "pending")
    && Is(p, RuntimeDigest, "pending") && Is(p, StudioDigest, "pending")
    && VerificationPending(p)
  }

  predicate IdentityPublished(t: Tables, p: Policy) {
    && IsRevision(Value(p, PublishedRevision))
    && IsDigestValue(Value(p, RuntimeDigest)) && IsDigestValue(Value(p, StudioDigest))
    && Value(p, RuntimeDigest) != Value(p, StudioDigest)
    && ValidRun(t, p, PublicationId, PublicationUrl)
  }

  predicate VerificationPassed(t: Tables, p: Policy) {
    && ValidRun(t, p, VerificationId, VerificationUrl)
    && !PyEqual(Value(p, PublicationId), Value(p, VerificationId))
    && Is(p, RuntimeVisibility, "public") && Is(p, StudioVisibility, "public") && Is(p, AnonymousPull, "passed")
  }

  /** The checks on a policy, in order. */
  ghost function Validate(t: Tables, p: Policy): Result<Lifecycle, PolicyError> {
    if !HasShape(t, p) then Err(ShapeInvalid)
    else match LifecycleOf(Read(p, LifecycleState))
      case None => Err(LifecycleInvalid)
      case Some(l) =>
        if !FixedAsRequired(t, p) || !OutcomesAre(t, p, Text(l)) then Err(IdentityOrResultInvalid)
        else if l == AuthorizedPending then (if StillPending(p) then Ok(l) else Err(PendingPolicyInvalid))
        else if !IdentityPublished(t, p) then Err(PublishedIdentityInvalid)
        else if l == PublishedPendingVerification then
          (if VerificationPending(p) then Ok(l) else Err(PublishedPendingInvalid))
        else if VerificationPassed(t, p) then Ok(l)
        else Err(PassedPolicyInvalid)
  }

  // ---------- what a policy says ----------

  /** What is verified: a source revision and the digests of the two images. */
  datatype Triple = Triple(revision: string, runtime: string, studio: string)

  predicate Verifiable(x: Triple) {
    IsRevision(JStr(x.revision)) && IsDigest(x.runtime) && IsDigest(x.studio) && x.runtime != x.studio
  }

  /** The facts behind a policy: how far the release has come, what it published and in which workflow runs. */
  datatype Release =
    | Authorized
    | Published(subject: Triple, publication: string)
    | Released(subject: Triple, publication: string, verification: string)

  predicate Proper(r: Release) {
    match r
    case Authorized => true
    case Published(x, id) => Verifiable(x) && IsRunId(id)
    case Released(x, id, check) => Verifiable(x) && IsRunId(id) && IsRunId(check) && id != check
  }

  function Progress(r: Release): Lifecycle {
    match r
    case Authorized => AuthorizedPending
    case Published(_, _) => PublishedPendingVerification
    case Released(_, _, _) => Passed
  }

  /** The text a release puts into a variable field. */
  function Entry(t: Tables, r: Release, s: Slot): string {
    match s
    case PublishedRevision => if r.Authorized? then "workflow_dispatch_candidate_sha" else r.subject.revision
    case PublicationId => if r.Authorized? then "pending" else r.publication
    case PublicationUrl => if r.Authorized? then "pending" else RunUrl(t, r.publication)
    case VerificationId => if r.Released? then r.verification else "pending"
    case VerificationUrl => if r.Released? then RunUrl(t, r.verification) else "pending"
    case RuntimeDigest => if r.Authorized? then "pending" else r.subject.runtime
    case StudioDigest => if r.Authorized? then "pending" else r.subject.studio
    case RuntimeVisibility => if r.Released? then "public" else "pending"
    case StudioVisibility => if r.Released? then "public" else "pending"
    case AnonymousPull => if r.Released? then "passed" else "pending"
  }

  /** What a release puts into a known field: every one is fixed by the tables or by the release. */
  function Content(t: Tables, r: Release, f: Field): Json
    requires Known(t, f)
  {
    match f
    case LifecycleState => JStr(Text(Progress(r)))
    case Variable(s) => JStr(Entry(t, r, s))
    case Fixed(n) => t.fixed[n]
    case Outcome(_) => JStr(Text(Progress(r)))
  }

  /** The policy has the known fields, each equal, in Python's sense, to what the release puts there. */
  ghost predicate Describes(t: Tables, r: Release, p: Policy) {
    HasShape(t, p) && forall f :: f in p ==> PyEqual(p[f], Content(t, r, f))
  }

  lemma EqualToText(value: Json, text: string)
    ensures PyEqual(value, JStr(text)) <==> value == JStr(text)
  {
  }

  lemma LifecycleTexts(l: Lifecycle)
    ensures LifecycleOf(JStr(Text(l))) == Some(l)
  {
    assert "passed"[0] != "authorized_pending"[0] && "passed"[1] != "published_pending_verification"[1];
    assert "authorized_pending"[0] != "published_pending_verification"[0];
  }

  /** Every variable field holds what the release says. */
  ghost predicate HasEntries(t: Tables, r: Release, p: Policy) {
    forall s :: HasEntry(t, r, p, s)
  }

  predicate HasEntry(t: Tables, r: Release, p: Policy, s: Slot) {
    Value(p, s) == JStr(Entry(t, r, s))
  }

  lemma IsEntry(t: Tables, r: Release, p: Policy, s: Slot)
    requires HasEntries(t, r, p)
    ensures Is(p, s, Entry(t, r, s)) && Value(p, s) == JStr(Entry(t, r, s))
  {
    assert HasEntry(t, r, p, s);
  }

  /** The groups of fields, each as a release fills it. */
  ghost predicate FilledAs(t: Tables, r: Release, p: Policy) {
    && LifecycleOf(Read(p, LifecycleState)) == Some(Progress(r))
    && FixedAsRequired(t, p) && OutcomesAre(t, p, Text(Progress(r))) && HasEntries(t, r, p)
  }

  lemma DescribedIsFilled(t: Tables, r: Release, p: Policy)
    requires Describes(t, r, p)
    ensures FilledAs(t, r, p)
  {
    LifecycleTexts(Progress(r));
    assert LifecycleState in p by { assert Known(t, LifecycleState); }
    forall s: Slot ensures HasEntry(t, r, p, s) {
      assert Known(t, Variable(s));
      EqualToText(p[Variable(s)], Entry(t, r, s));
    }
    forall n | n in t.fixed ensures PyEqual(Read(p, Fixed(n)), t.fixed[n]) {
      assert Known(t, Fixed(n));
    }
    forall n | n in t.outcomes ensures PyEqual(Read(p, Outcome(n)), JStr(Text(Progress(r)))) {
      assert Known(t, Outcome(n));
    }
  }

  lemma FilledIsDescribed(t: Tables, r: Release, p: Policy)
    requires HasShape(t, p) && FilledAs(t, r, p)
    ensures Describes(t, r, p)
  {
    LifecycleTexts(Progress(r));
    forall f | f in p ensures PyEqual(p[f], Content(t, r, f)) {
      match f
      case Variable(s) => IsEntry(t, r, p, s);
      case _ =>
    }
  }

  /**
   * A policy of the right shape describes a release exactly when
   * every group of fields is filled as the release says.
   */
  lemma DescribedFields(t: Tables, r: Release, p: Policy)
    requires HasShape(t, p)
    ensures Describes(t, r, p) <==> FilledAs(t, r, p)
  {
    if Describes(t, r, p) {
      DescribedIsFilled(t, r, p);
    }
    if FilledAs(t, r, p) {
      FilledIsDescribed(t, r, p);
    }
  }

  predicate ChecksFor(t: Tables, p: Policy, l: Lifecycle) {
    match l
    case AuthorizedPending => StillPending(p)
    case PublishedPendingVerification => IdentityPublished(t, p) && VerificationPending(p)
    case Passed => IdentityPublished(t, p) && VerificationPassed(t, p)
  }

  lemma EntriesIdentity(t: Tables, r: Release, p: Policy)
    requires HasEntries(t, r, p) && Proper(r) && !r.Authorized?
    ensures IdentityPublished(t, p)
  {
    IsEntry(t, r, p, PublishedRevision);
    IsEntry(t, r, p, RuntimeDigest);
    IsEntry(t, r, p, StudioDigest);
    IsEntry(t, r, p, PublicationId);
    IsEntry(t, r, p, PublicationUrl);
  }

  lemma EntriesUnverified(t: Tables, r: Release, p: Policy)
    requires HasEntries(t, r, p) && !r.Released?
    ensures VerificationPending(p)
  {
    IsEntry(t, r, p, VerificationId);
    IsEntry(t, r, p, VerificationUrl);
    IsEntry(t, r, p, RuntimeVisibility);
    IsEntry(t, r, p, StudioVisibility);
    IsEntry(t, r, p, AnonymousPull);
  }

  lemma EntriesVerified(t: Tables, r: Release, p: Policy)
    requires HasEntries(t, r, p) && Proper(r) && r.Released?
    ensures VerificationPassed(t, p)
  {
    IsEntry(t, r, p, PublicationId);
    IsEntry(t, r, p, VerificationId);
    IsEntry(t, r, p, VerificationUrl);
    IsEntry(t, r, p, RuntimeVisibility);
    IsEntry(t, r, p, StudioVisibility);
    IsEntry(t, r, p, AnonymousPull);
    EqualToText(Value(p, PublicationId), r.verification);
  }

  lemma EntriesPending(t: Tables, p: Policy)
    requires HasEntries(t, Authorized, p)
    ensures StillPending(p)
  {
    EntriesUnverified(t, Authorized, p);
    IsEntry(t, Authorized, p, PublishedRevision);
    IsEntry(t, Authorized, p, PublicationId);
    IsEntry(t, Authorized, p, PublicationUrl);
    IsEntry(t, Authorized, p, RuntimeDigest);
    IsEntry(t, Authorized, p, StudioDigest);
  }

  /** A policy that says what a release says passes the checks for its stage. */
  lemma EntriesAreChecked(t: Tables, r: Release, p: Policy)
    requires HasEntries(t, r, p) && Proper(r)
    ensures ChecksFor(t, p, Progress(r))
  {
    match r
    case Authorized => EntriesPending(t, p);
    case Published(_, _) =>
      EntriesIdentity(t, r, p);
      EntriesUnverified(t, r, p);
    case Released(_, _, _) =>
      EntriesIdentity(t, r, p);
      EntriesVerified(t, r, p);
  }

  lemma CheckedIdentity(t: Tables, p: Policy) returns (x: Triple, id: string)
    requires IdentityPublished(t, p)
    ensures Verifiable(x) && IsRunId(id)
    ensures Value(p, PublishedRevision) == JStr(x.revision) && Value(p, RuntimeDigest) == JStr(x.runtime)
    ensures Value(p, StudioDigest) == JStr(x.studio) && Value(p, PublicationId) == JStr(id)
    ensures Value(p, PublicationUrl) == JStr(RunUrl(t, id))
  {
    x := Triple(Value(p, PublishedRevision).text, Value(p, RuntimeDigest).text, Value(p, StudioDigest).text);
    id := Value(p, PublicationId).text;
    EqualToText(Value(p, PublicationUrl), RunUrl(t, id));
  }

  lemma CheckedPending(t: Tables, p: Policy)
    requires StillPending(p)
    ensures HasEntries(t, Authorized, p)
  {
    forall s: Slot ensures HasEntry(t, Authorized, p, s) {
      EqualToText(Value(p, s), Entry(t, Authorized, s));
    }
  }

  lemma CheckedPublished(t: Tables, p: Policy) returns (r: Release)
    requires IdentityPublished(t, p) && VerificationPending(p)
    ensures r.Published? && Proper(r) && HasEntries(t, r, p)
  {
    var x, id := CheckedIdentity(t, p);
    r := Published(x, id);
    forall s: Slot ensures HasEntry(t, r, p, s) {
      EqualToText(Value(p, s), Entry(t, r, s));
    }
  }

  lemma CheckedReleased(t: Tables, p: Policy) returns (r: Release)
    requires IdentityPublished(t, p) && VerificationPassed(t, p)
    ensures r.Released? && Proper(r) && HasEntries(t, r, p)
  {
    var x, id := CheckedIdentity(t, p);
    r := Released(x, id, Value(p, VerificationId).text);
    EqualToText(Value(p, PublicationId), r.verification);
    forall s: Slot ensures HasEntry(t, r, p, s) {
      EqualToText(Value(p, s), Entry(t, r, s));
    }
  }

  /** A policy that passes the checks for its stage says what some proper release says. */
  lemma CheckedEntries(t: Tables, p: Policy, l: Lifecycle) returns (r: Release)
    requires ChecksFor(t, p, l)
    ensures Proper(r) && Progress(r) == l && HasEntries(t, r, p)
  {
    match l {
      case AuthorizedPending =>
        r := Authorized;
        CheckedPending(t, p);
      case PublishedPendingVerification => r := CheckedPublished(t, p);
      case Passed => r := CheckedReleased(t, p);
    }
  }

  /** The validation, stage by stage. */
  lemma ValidatedChecks(t: Tables, p: Policy, l: Lifecycle)
    ensures Validate(t, p) == Ok(l) <==>
              && HasShape(t, p) && LifecycleOf(Read(p, LifecycleState)) == Some(l)
              && FixedAsRequired(t, p) && OutcomesAre(t, p, Text(l)) && ChecksFor(t, p, l)
  {
  }

  /** The validation accepts exactly the policies that describe a proper release, and names its stage. */
  lemma ValidDescribesRelease(t: Tables, p: Policy, l: Lifecycle)
    ensures Validate(t, p) == Ok(l) <==> exists r :: Proper(r) && Progress(r) == l && Describes(t, r, p)
  {
    ValidatedChecks(t, p, l);
    if Validate(t, p) == Ok(l) {
      var r := CheckedEntries(t, p, l);
      DescribedFields(t, r, p);
    }
    if r :| Proper(r) && Progress(r) == l && Describes(t, r, p) {
      DescribedFields(t, r, p);
      EntriesAreChecked(t, r, p);
    }
  }

  /** Every proper release has a valid policy. */
  lemma EveryReleaseHasPolicy(t: Tables, r: Release) returns (p: Policy)
    requires Proper(r)
    ensures Describes(t, r, p) && Validate(t, p) == Ok(Progress(r))
  {
    p := map f | f in PolicyKeys(t) :: if Known(t, f) then Content(t, r, f) else JNull;
    forall f | f in p ensures PyEqual(p[f], Content(t, r, f)) {
      PyEqualReflexive(p[f]);
    }
    ValidDescribesRelease(t, p, Progress(r));
  }

  lemma SameEntry(t: Tables, p: Policy, r: Release, r': Release, s: Slot)
    requires HasEntries(t, r, p) && HasEntries(t, r', p)
    ensures Entry(t, r, s) == Entry(t, r', s)
  {
    IsEntry(t, r, p, s);
    IsEntry(t, r', p, s);
  }

  /** A policy describes at most one release, so its stage, subject and runs cannot be read in two ways. */
  lemma OneRelease(t: Tables, p: Policy, r: Release, r': Release)
    requires Describes(t, r, p) && Describes(t, r', p)
    ensures r == r'
  {
    DescribedIsFilled(t, r, p);
    DescribedIsFilled(t, r', p);
    SameEntry(t, p, r, r', PublishedRevision);
    SameEntry(t, p, r, r', RuntimeDigest);
    SameEntry(t, p, r, r', StudioDigest);
    SameEntry(t, p, r, r', PublicationId);
    SameEntry(t, p, r, r', VerificationId);
  }

  // ---------- what may be verified ----------

  /** The arguments of a verification: each may be missing. */
  datatype Request = Request(revision: Option<string>, runtime: Option<string>, studio: Option<string>)

  function AsValue(text: Option<string>): Json {
    match text
    case None => JNull
    case Some(s) => JStr(s)
  }

  /** The format and distinctness check that comes after the selection. */
  function Checked(revision: Json, runtime: Json, studio: Json): Result<Triple, PolicyError> {
    if !IsRevision(revision) || !IsDigestValue(runtime) || !IsDigestValue(studio) || PyEqual(runtime, studio) then
      Err(VerificationInputInvalid)
    else Ok(Triple(revision.text, runtime.text, studio.text))
  }

  /** Which triple is selected at a stage, given what the policy holds. */
  function Choose(l: Lifecycle, revision: Json, runtime: Json, studio: Json, request: Request)
    : Result<Triple, PolicyError>
  {
    match l
    case AuthorizedPending => Checked(AsValue(request.revision), AsValue(request.runtime), AsValue(request.studio))
    case PublishedPendingVerification =>
      if PyEqual(AsValue(request.revision), revision) && PyEqual(AsValue(request.runtime), runtime)
         && PyEqual(AsValue(request.studio), studio) then Checked(revision, runtime, studio)
      else Err(VerificationInputMismatch)
    case Passed =>
      if request.revision.Some? || request.runtime.Some? || request.studio.Some? then Err(OverrideForbidden)
      else Checked(revision, runtime, studio)
  }

  /** Which triple a request gets verified, under a policy. */
  ghost function Select(t: Tables, p: Policy, request: Request): Result<Triple, PolicyError> {
    match Validate(t, p)
    case Err(e) => Err(e)
    case Ok(l) => Choose(l, Value(p, PublishedRevision), Value(p, RuntimeDigest), Value(p, StudioDigest), request)
  }

  /** A request that names a triple in full. */
  function Naming(x: Triple): Request {
    Request(Some(x.revision), Some(x.runtime), Some(x.studio))
  }

  const NOTHING := Request(None, None, None)

  /** What a release lets callers verify: once locked, its own triple and nothing else, whoever asks for what. */
  function Allowed(r: Release, request: Request): Result<Triple, PolicyError> {
    match r
    case Authorized =>
      if request.revision.Some? && request.runtime.Some? && request.studio.Some?
         && Verifiable(Triple(request.revision.value, request.runtime.value, request.studio.value)) then
        Ok(Triple(request.revision.value, request.runtime.value, request.studio.value))
      else Err(VerificationInputInvalid)
    case Published(x, _) => if request == Naming(x) then Ok(x) else Err(VerificationInputMismatch)
    case Released(x, _, _) => if request == NOTHING then Ok(x) else Err(OverrideForbidden)
  }

  lemma ChooseLocked(r: Release, request: Request)
    requires Proper(r) && !r.Authorized?
    ensures Choose(Progress(r), JStr(r.subject.revision), JStr(r.subject.runtime), JStr(r.subject.studio), request)
        == Allowed(r, request)
  {
    assert Checked(JStr(r.subject.revision), JStr(r.subject.runtime), JStr(r.subject.studio)) == Ok(r.subject);
  }

  lemma ChoosePending(revision: Json, runtime: Json, studio: Json, request: Request)
    ensures Choose(AuthorizedPending, revision, runtime, studio, request) == Allowed(Authorized, request)
  {
  }

  /** A locked policy holds the subject of its release. */
  lemma HoldsSubject(t: Tables, p: Policy, r: Release)
    requires Describes(t, r, p) && !r.Authorized?
    ensures Value(p, PublishedRevision) == JStr(r.subject.revision)
        && Value(p, RuntimeDigest) == JStr(r.subject.runtime)
    ensures Value(p, StudioDigest) == JStr(r.subject.studio)
  {
    DescribedFields(t, r, p);
    IsEntry(t, r, p, PublishedRevision);
    IsEntry(t, r, p, RuntimeDigest);
    IsEntry(t, r, p, StudioDigest);
  }

  lemma SelectIsChoose(t: Tables, p: Policy, r: Release, request: Request)
    requires Proper(r) && Describes(t, r, p)
    ensures Select(t, p, request)
            == Choose(Progress(r), Value(p, PublishedRevision), Value(p, RuntimeDigest), Value(p, StudioDigest),
                request)
  {
    ValidDescribesRelease(t, p, Progress(r));
  }

  /** Under a policy that describes a release, exactly what the release allows is verified. */
  lemma SelectionFollowsRelease(t: Tables, p: Policy, r: Release, request: Request)
    requires Proper(r) && Describes(t, r, p)
    ensures Select(t, p, request) == Allowed(r, request)
  {
    SelectIsChoose(t, p, r, request);
    if r.Authorized? {
      ChoosePending(Value(p, PublishedRevision), Value(p, RuntimeDigest), Value(p, StudioDigest), request);
    } else {
      HoldsSubject(t, p, r);
      ChooseLocked(r, request);
    }
  }

  /** The policy's own triple. */
  predicate Holds(p: Policy, x: Triple) {
    && Value(p, PublishedRevision) == JStr(x.revision)
    && Value(p, RuntimeDigest) == JStr(x.runtime)
    && Value(p, StudioDigest) == JStr(x.studio)
  }

  /**
   * In a locked state only the policy's own triple can be verified,
   * and the format check after the selection never fails.
   */
  lemma LockedStateVerifiesOneTriple(t: Tables, p: Policy, request: Request)
    requires Validate(t, p).Ok? && Validate(t, p) != Ok(AuthorizedPending)
    ensures Select(t, p, request).Ok? ==> Holds(p, Select(t, p, request).value)
    ensures Select(t, p, request) != Err(VerificationInputInvalid)
    ensures exists x ::
              Holds(p, x) && Select(t, p, if Validate(t, p) == Ok(Passed) then NOTHING else Naming(x)) == Ok(x)
  {
    var l := Validate(t, p).value;
    var r := ReleaseOf(t, p, l);
    SelectionFollowsRelease(t, p, r, request);
    HoldsSubject(t, p, r);
    SelectionFollowsRelease(t, p, r, if l == Passed then NOTHING else Naming(r.subject));
  }

  lemma ReleaseOf(t: Tables, p: Policy, l: Lifecycle) returns (r: Release)
    requires Validate(t, p) == Ok(l)
    ensures Proper(r) && Progress(r) == l && Describes(t, r, p)
  {
    ValidDescribesRelease(t, p, l);
    r :| Proper(r) && Progress(r) == l && Describes(t, r, p);
  }

  /**
   * Fixed fields are compared loosely: any value Python holds
   * equal to the required one will do, `0` for `False` say.
   */
  lemma FixedComparedLoosely(t: Tables, p: Policy, n: string, value: Json)
    requires Validate(t, p).Ok? && n in t.fixed && PyEqual(value, t.fixed[n])
    ensures Validate(t, p[Fixed(n) := value]) == Validate(t, p)
    ensures PyEqual(JInt(0), JBool(false)) && PyEqual(JFloat(2.0), JInt(2))
  {
    var r := ReleaseOf(t, p, Validate(t, p).value);
    var p' := p[Fixed(n) := value];
    assert Known(t, Fixed(n));
    assert forall f :: f in p' <==> f in p;
    assert Describes(t, r, p');
    ValidDescribesRelease(t, p', Progress(r));
  }

  const SYNTHETIC_FLAG := "synthetic_fixture_may_satisfy_remote_gate"

  lemma FlagIsFixed()
    ensures SYNTHETIC_FLAG in P10_TABLES.fixed && P10_TABLES.fixed[SYNTHETIC_FLAG] == JBool(false)
  {
  }

  /**
   * With the tables in use: a policy may say `0` where it has to
   * say that synthetic fixtures do not satisfy the gate.
   */
  lemma FlagMayBeZero(p: Policy)
    requires Validate(P10_TABLES, p).Ok?
    ensures Validate(P10_TABLES, p[Fixed(SYNTHETIC_FLAG) := JInt(0)]) == Validate(P10_TABLES, p)
  {
    FlagIsFixed();
    assert PyEqual(JInt(0), JBool(false));
    FixedComparedLoosely(P10_TABLES, p, SYNTHETIC_FLAG, JInt(0));
  }
}
