# Gate scripts, modelled and proved

The repository's `scripts/` directory holds gates that fail closed: static analysis of the source tree, content-addressed
verification of image layouts, exact accounting of changed files, digests of trees, and evidence that one script writes and
another later accepts. This project models the algorithmic core of those gates in Dafny and proves what each is for.

| module | what it models |
|---|---|
| `PythonTree`, `Resolution` | the syntax the architecture gate looks at, and what an expression refers to under an alias map |
| `ImportBindings`, `AliasFixpoint`, `AliasChains`, `AliasStability` | what imports bind, the alias map as a closed fixpoint, which chains of aliases it sees through, and which new bindings undo a resolution |
| `Architecture`, `ArchitectureTexts`, `NamesByText`, `Layering`, `AliasInstance` | which trees the gate accepts, what acceptance means for imports and calls, and a file whose clock call it does not see |
| `OciLayout`, `Reachability`, `OciReachability`, `OciDocuments`, `OciInspection`, `OciMixedKinds` | the worklist walk over an image layout, its verdict, and when the order of references decides it |
| `RemotePolicy`, `ReleaseTexts` | the remote-distribution policy as a description of a release, and which triple it lets anyone verify |
| `Utf8`, `Paths`, `Numerals`, `NameStatus`, `ScoredRenames`, `DescendantBoundary` | git's change listings: format, parsers, and the decision drawn from them |
| `Framing`, `Ordering`, `Fingerprint`, `FingerprintBytes`, `TreeDigest` | length-framed, sorted digests of listings and trees |
| `Lines`, `MakefileEdit`, `MakefileInstance`, `MakefileBlock` | the check that a Makefile only gained a marked block and six targets, an edit under the rules in use, and blocks with and without other rules |
| `BoundaryScan`, `Receipts`, `LedgerEntries` | exact cover: findings against a ledger of exceptions, changed files against a receipt |
| `Quickstart`, `Evidence`, `EvidenceTerms` | measured trials with clean-up on every exit, and the validator their results have to satisfy |
| `JsonValues`, `PythonEquality`, `SummarySafety` | decoded JSON, strict and loose comparison, the duplicate-rejecting hook, the privacy screen |
| `Text`, `Sequences`, `Wrappers` | splitting and joining, sequence equalities, result types |

SHA-256 is a function parameter that returns 32 bytes; every injectivity result about digests ends in "or two different byte
strings that were in fact hashed have one digest". JSON decoding, `str.isidentifier`, `bytes.fromhex`, the rules of the boundary
scan and the screens of the evidence gates are function parameters too. UTF-8 is the codec of section 3 of RFC 3629, written out.

Formats and tests that several parts of the model share are told a second time, by the texts, bytes and fields themselves: the
lemmas whose names end in `Exactly` say what each accepts without the model's own functions, so that the main results rest
on what the scripts read and not on how the model reads it.

Where a property the code seems to aim at does not hold in full, the exact condition is proved together with an input that
shows the failure:

- The gate sees through a chain of aliases exactly when the chain is written in walk order: `AliasChains.ChainResolvesExactlyInWalkOrder`
  for the map, `Layering.AliasedCallSeenExactlyInOrder` for the call; `AliasInstance.OutOfOrderChainAccepted` is a file with a
  hidden clock call that passes.
- Resolution is not monotone in the alias map: it looks at nothing but the names at its roots, chains of attributes are never
  undone, and calls and items of chains are undone by some new binding exactly when a helper or a base they need is a free
  name (`AliasStability.CallUndoneExactly`, `AliasStability.SubscriptUndoneExactly`), towers of two-argument helpers of any
  height exactly when one of their roots is (`AliasStability.TowerUndoneExactly`; input: `AliasStability.ResolutionIsNotMonotone`).
- The order in which an image index lists its references has no say when references to one digest agree in kind and platform.
  That is sufficient, not necessary: with one digest under two kinds, two finished walks differ in a counter or in the
  platforms exactly when their first references to it do (`OciMixedKinds.MixedRunsDifferExactly`), and
  `OciMixedKinds.OrderDecidesVerdict` has two layouts that differ in that order alone, one accepted and one refused.
- An accepted Makefile keeps the old bytes exactly when its lines end in newlines only (`MakefileEdit.BytesKeptExactlyWithNewlines`);
  `MakefileInstance.FormFeedAccepted` has a text with a form feed in place of an old newline that is accepted.
- What the evidence collector accepts its validator accepts exactly when the facts the collector does not look at are in order
  (`Evidence.CollectedIsAcceptedExactly`); `Evidence.CollectedAndRefused` has results that are collected and then refused.
- Fixed policy fields are compared with Python's equality (`RemotePolicy.FixedComparedLoosely`), so `0` passes for `False` in
  the policy in use (`RemotePolicy.FlagMayBeZero`).

## Model

| member | source | states |
|---|---|---|
| `PythonTree.ComputeQualifiedName` | scripts/check_p3_architecture.py:242-251 | the loop down an attribute chain yields the chain's segments from the root, and nothing for any other expression |
| `PythonTree.DottedTextIsFaithful` | scripts/check_p3_architecture.py:250-250 | joining segments with dots loses nothing: two dotted names are equal as texts exactly when their segments are |
| `PythonTree.DottedPrefix` | scripts/check_p3_architecture.py:401-404 | `module == prefix or module.startswith(prefix + ".")` holds exactly when the prefix's segments come first |
| `Resolution.ResolveChain` | scripts/check_p3_architecture.py:289-294 | taking an attribute of a name or chain appends that attribute to what the chain resolves to |
| `Resolution.OneSpelling` | scripts/check_p3_architecture.py:306-375 | each of the reflective spellings of one attribute of a static path resolves to the plain path, helper names not rebound |
| `Resolution.SpellingsCollapse` | scripts/check_p3_architecture.py:289-375 | any nesting of direct, `getattr`, `__getattribute__`, `vars` and `__dict__` accesses resolves to the path it spells, at any depth |
| `AliasFixpoint.ComputeImports` | scripts/check_p3_architecture.py:255-262 | the first loop over the walk yields the import bindings, later imports rebinding earlier ones |
| `AliasFixpoint.BindTargets` | scripts/check_p3_architecture.py:281-285 | a resolved value binds every target still free and leaves bound names as they are |
| `AliasFixpoint.ComputePass` | scripts/check_p3_architecture.py:264-285 | one pass is the step of every node in walk order, and reports a change exactly when the map changed |
| `AliasFixpoint.ComputeAliases` | scripts/check_p3_architecture.py:254-286 | the loop ends with the closure of the import bindings; it makes as many passes as it takes until one binds nothing, that one included, and these are at most one more than there are assigned names |
| `AliasFixpoint.AliasesAreClosed` | scripts/check_p3_architecture.py:254-286 | the final map keeps every import binding, binds all targets of every plain assignment whose value resolves under it, and holds nothing that no import or assignment justifies |
| `ImportBindings.LastImportDecides` | scripts/check_p3_architecture.py:254-286 | a name that imports bring means, in the final map, exactly what the last alias of that name in walk order brings, whatever is assigned to it |
| `ImportBindings.NothingElseImported` | scripts/check_p3_architecture.py:254-286 | a name in the final map that no import brings is assigned somewhere |
| `ImportBindings.FromImportBinds` | scripts/check_p3_architecture.py:260-263 | `from m import name as b`, last for `b`, maps `b` to the module path with the name behind it |
| `ImportBindings.ImportBinds` | scripts/check_p3_architecture.py:257-259 | `import a.b as c` maps `c`, and `import a.b` maps `a`, to `a.b` |
| `ImportBindings.ImportedCallRejected` | scripts/check_p3_architecture.py:254-479 | calling a forbidden path by an imported name, with any attributes behind it, makes the gate fail |
| `ImportBindings.TodayRejected` | scripts/check_p3_architecture.py:260-263 | an instance: `from datetime import date` and `date.today()` in a core file |
| `ArchitectureTexts.AssignmentBinds` | scripts/check_p3_architecture.py:266-285 | an assignment to names, annotated or not, whose value resolves under the final map binds each of them |
| `AliasChains.ChainResolvesExactlyInWalkOrder` | scripts/check_p3_architecture.py:264-286 | a chain of once-bound names of any length resolves to the path it starts from, with the attributes taken on the way, exactly when its links are in walk order |
| `AliasStability.ResolutionIsLocal` | scripts/check_p3_architecture.py:289-375 | maps that agree on the names at the heads of callees, first arguments and bases resolve an expression alike, however deep it is |
| `AliasStability.UnrelatedBindings` | scripts/check_p3_architecture.py:289-375 | binding further names, none of them a root of the expression, leaves its resolution alone; so does any extension once all roots are bound |
| `AliasStability.ChainsAreNeverUndone` | scripts/check_p3_architecture.py:289-303 | a name or attribute chain keeps resolving whatever is bound |
| `AliasStability.CallUndoneExactly` | scripts/check_p3_architecture.py:313-358 | some further bindings undo a resolved call of chains exactly when the name at the head of its callee is free with at most one attribute behind it, or the callee is a two-argument helper and the name at the head of its base is free |
| `AliasStability.TowerUndoneExactly` | scripts/check_p3_architecture.py:313-337 | some further bindings undo a resolved call of `getattr` or a base `__getattribute__`, nested to any height over a chain, exactly when some name at the head of a callee or of the chain is free |
| `AliasStability.SubscriptUndoneExactly` | scripts/check_p3_architecture.py:361-375 | some further bindings undo a resolved item of a chain exactly when the chain's first name is free and it does not end in `__dict__` |
| `AliasStability.ResolutionIsNotMonotone` | scripts/check_p3_architecture.py:289-328 | an instance: binding the free name `getattr` makes a call of it stop resolving |
| `ArchitectureTexts.BuiltinsName` | scripts/check_p3_architecture.py:293-293 | an unbound `__builtins__` means the builtins |
| `ArchitectureTexts.ItemsExactly` | scripts/check_p3_architecture.py:361-375 | an item of the builtins or of the dynamic namespace is a reference to its key, `__builtins__` of the namespace the builtins |
| `ArchitectureTexts.NamespaceCalls` | scripts/check_p3_architecture.py:347-350 | `globals` and `locals` called with whatever arguments are the dynamic namespace |
| `Architecture.Ledger.ReportIf` | scripts/check_p3_architecture.py:411-423 | a violation is appended and charged to its own counter and no other, or nothing changes |
| `Architecture.BookedIsBalanced` | scripts/check_p3_architecture.py:411-535 | once every violation listed has been charged, each counter is the number of violations listed for it, port leaks counting more and aliased accesses counting among the calls and reflections |
| `Architecture.BalancedSpotless` | scripts/check_p3_architecture.py:536-543 | balanced counters are all zero exactly when no violation is listed |
| `Architecture.Ledger.InspectCall` | scripts/check_p3_architecture.py:472-496 | a call is listed for exactly its findings, in order |
| `Architecture.Ledger.InspectNodes` | scripts/check_p3_architecture.py:430-524 | a file's walk is listed for exactly the findings of its nodes, in walk order |
| `Architecture.InspectFiles` | scripts/check_p3_architecture.py:424-535 | reads all files exactly when they all parse, and lists exactly what the inspected ones are reported for |
| `Architecture.NothingReported` | scripts/check_p3_architecture.py:424-537 | nothing is reported about a tree exactly when every inspected file is clean |
| `Architecture.CheckArchitecture` | scripts/check_p3_architecture.py:407-543 | passes exactly when all boundaries are present and every inspected file is clean, and then reports the number of inspected files and zeros; a missing boundary comes first, then an unreadable inspected file, else the error holds exactly the set of reported violations |
| `ArchitectureTexts.AcceptsExactly` | scripts/check_p3_architecture.py:424-429 | accepted is every tree whose files are clean but for those that other phases own |
| `ArchitectureTexts.FromImportClean` | scripts/check_p3_architecture.py:439-447 | an import from somewhere is clean exactly when it is absolute, names an approved module and takes no star |
| `ArchitectureTexts.ImportClean` | scripts/check_p3_architecture.py:437-438 | an import is clean exactly when each module it names is approved |
| `ArchitectureTexts.InternalAllowedExactly` | scripts/check_p3_architecture.py:401-404 | a product module is allowed exactly when its dotted name is that of an allowed package or starts with it and a dot |
| `ArchitectureTexts.UnderscoredListed` | scripts/check_p3_architecture.py:497-504 | an attribute with two underscores on either side is listed unless it resolves to `object.__setattr__` |
| `ArchitectureTexts.IsReflectionExactly` | scripts/check_p3_architecture.py:388-398 | a reference is one to reflection by the dynamic namespace or by an underscored segment, `object.__setattr__` excepted |
| `ArchitectureTexts.DeterministicExactly` | scripts/check_p3_architecture.py:128-137 | all boundaries but the SQLite adapter, the API and the worker must be deterministic |
| `ArchitectureTexts.IsPortExactly` | scripts/check_p3_architecture.py:525-525 | a stable port is a file of the application named `ports.py` |
| `ArchitectureTexts.LeaksExactly` | scripts/check_p3_architecture.py:525-535 | a port leaks nothing exactly when no forbidden word stands in its text and no name in it is a forbidden type |
| `NamesByText.ForbiddenExactly` | scripts/check_p3_architecture.py:165-195 | the forbidden references, as the dotted names they are listed by |
| `NamesByText.GetattrExactly` | scripts/check_p3_architecture.py:196-196 | the two names of `getattr` |
| `NamesByText.ReflectionEntryExactly` | scripts/check_p3_architecture.py:197-208 | the eight entries to reflection, by their dotted names |
| `NamesByText.AllowedExactly` | scripts/check_p3_architecture.py:87-126 | which boundaries may import a package |
| `NamesByText.StdlibExactly` | scripts/check_p3_architecture.py:48-86 | which boundaries may import a standard module |
| `Layering.CleanEdge` | scripts/check_p3_architecture.py:87-126 | one import out of a clean file names a module of a boundary its own boundary may import |
| `Layering.TransitiveLayering` | scripts/check_p3_architecture.py:427-462 | through inspected files of an accepted tree no import chain of any length leads from core, governance or application to an adapter, the API or the worker, and chains from core stay in core |
| `Layering.ForbiddenCallRejected` | scripts/check_p3_architecture.py:472-479 | a call in a deterministic boundary whose callee resolves to a forbidden capability makes the gate fail |
| `Layering.AliasedCallRejected` | scripts/check_p3_architecture.py:378-381 | the same through a chain of aliases of any length in walk order |
| `Layering.SpelledCallRejected` | scripts/check_p3_architecture.py:324-375 | the same through any nesting of reflective spellings |
| `Layering.AliasedCallSeenExactlyInOrder` | scripts/check_p3_architecture.py:472-479 | a call of a forbidden path through a chain of aliases, whose names head no forbidden path themselves, is listed as nondeterministic exactly when the chain is in walk order |
| `Layering.DirectCallSeenExactlyOnChains` | scripts/check_p3_architecture.py:472-479 | a call of a directly taken attribute is listed exactly when the attribute ends a name or chain that resolves to a forbidden path; behind a `getattr` or any other call it is listed for nothing |
| `AliasInstance.OutOfOrderChainAccepted` | scripts/check_p3_architecture.py:254-286 | a concrete core file that reaches `datetime.datetime.now` through two aliases, the later one visited first, is accepted |
| `OciLayout.BlobNameInjective` | scripts/check_p10_distribution.py:589-591 | two valid digests name one blob only if they are equal |
| `OciLayout.VisitProgress` | scripts/check_p10_distribution.py:584-602 | taking a descriptor checks a new blob of the archive or changes nothing but the queue: the measure for termination |
| `OciReachability.StepKeepsInvariant` | scripts/check_p10_distribution.py:584-667 | taking any element of the queue keeps the invariant: everything enqueued waits or is verified and checked, everything checked had its children enqueued, counters count what was expanded |
| `OciReachability.RunIsSound` | scripts/check_p10_distribution.py:584-667 | every state of every run, whatever order it takes descriptors in, satisfies the invariant |
| `OciReachability.FinishedIsVerifiedAndClosed` | scripts/check_p10_distribution.py:584-667 | when the queue is empty every descriptor ever enqueued names a present blob with its digest, the index is included, and every checked digest was expanded with its children |
| `OciReachability.FinishedIsLeastFixpoint` | scripts/check_p10_distribution.py:584-667 | when references to one digest lead to the same descriptors, as they do with one kind per digest, what was enqueued is exactly what the index reaches and the checked digests are exactly the reachable ones |
| `OciReachability.RunsAgree` | scripts/check_p10_distribution.py:584-667 | with one kind per digest, any two runs that empty the queue check the same digests and count the same configurations and images |
| `Reachability.ReachableIsLeast` | scripts/check_p10_distribution.py:583-667 | whatever is reachable lies in every set that holds the roots and is closed under children |
| `OciInspection.InspectOciLayout` | scripts/check_p10_distribution.py:572-674 | the loop ends and its result is the function `Inspect` of the layout; on success every object in the lists `manifests` and `layers` and every configuration of a document read was verified, checked and followed, nothing else but the index was, and the counters count just that; on failure the index, a reachable descriptor or an incomplete finished walk is to blame; when references to one digest agree, it succeeds exactly on acceptable layouts |
| `OciDocuments.FinishedReadsWhole` | scripts/check_p10_distribution.py:584-667 | the same for every finished walk, whatever order it took |
| `OciDocuments.VerifiedExactly` | scripts/check_p10_distribution.py:586-599 | a descriptor is verified exactly when its digest is the label and hash of a blob that stands in the archive under that hash |
| `OciDocuments.ChildrenExactly` | scripts/check_p10_distribution.py:603-666 | a document not referred to as a layer adds the objects in `manifests`, its marked configuration and the objects in `layers`, and nothing else |
| `OciDocuments.ChildrenInOrder` | scripts/check_p10_distribution.py:653-665 | manifests first, then the configuration, then the layers, each list in its own order |
| `OciDocuments.CheckConfigExactly` | scripts/check_p10_distribution.py:608-645 | a configuration passes exactly with the four labels, a revision of twenty bytes, and the user and command the image is for |
| `OciDocuments.ExpandableExactly` | scripts/check_p10_distribution.py:603-651 | a verified descriptor is taken exactly when it is a layer, or its document reads, its configuration is in order and its architecture can be looked up |
| `OciDocuments.ContributionExactly` | scripts/check_p10_distribution.py:646-652 | the platforms a descriptor declares: linux on one of two architectures |
| `OciDocuments.FaultsExactly` | scripts/check_p10_distribution.py:585-599 | which fault of a descriptor is reported |
| `OciInspection.IndexExactly` | scripts/check_p10_distribution.py:577-583 | the index is an object in `index.json` with a list of at least one manifest |
| `OciInspection.NeverStuck` | scripts/check_p10_distribution.py:584-667 | when everything reachable is in order, whichever descriptor is taken next is accepted |
| `OciInspection.CountersCountReachable` | scripts/check_p10_distribution.py:603-666 | with one kind per digest, the configuration and image counters of a finished walk are the numbers of reachable digests of that kind |
| `OciInspection.PlatformsAreReachable` | scripts/check_p10_distribution.py:644-651 | the platforms of a finished walk are those some reachable descriptor declares |
| `OciInspection.AcceptedExactlyWhenAcceptable` | scripts/check_p10_distribution.py:572-674 | when references to one digest agree, a layout is accepted exactly when all it reaches is in order with two platforms, two images and two configurations: order has no say |
| `OciMixedKinds.SwapMattersExactly` | scripts/check_p10_distribution.py:584-667 | of two references to one unchecked digest, taking them in the other order leads to the same state exactly when they add the same children, platforms and counts |
| `OciMixedKinds.MixedRunsDifferExactly` | scripts/check_p10_distribution.py:584-667 | with references that agree but for one digest, whose references lead to the same descriptors, two finished walks check the same digests; a counter differs exactly when their first references to that digest count differently, the platforms exactly when those add different ones to the platforms of the other digests |
| `OciMixedKinds.OrderDecidesVerdict` | scripts/check_p10_distribution.py:572-674 | for two images and a layer reference to the first: the layout whose index lists the layer reference first is accepted, the one that lists it last is refused |
| `RemotePolicy.ValidDescribesRelease` | scripts/check_p10_distribution.py:188-253 | a policy is valid for a stage exactly when it describes some proper release of that stage, field by field |
| `RemotePolicy.OneRelease` | scripts/check_p10_distribution.py:188-253 | a policy describes at most one release |
| `RemotePolicy.EveryReleaseHasPolicy` | scripts/check_p10_distribution.py:188-253 | every proper release has a valid policy |
| `RemotePolicy.SelectionFollowsRelease` | scripts/check_p10_distribution.py:1338-1366 | what a request gets verified under a policy is exactly what the release allows |
| `RemotePolicy.LockedStateVerifiesOneTriple` | scripts/check_p10_distribution.py:1343-1366 | in a locked state only the policy's own triple can be verified, it can be, and the later format check never fails |
| `RemotePolicy.FixedComparedLoosely` | scripts/check_p10_distribution.py:194-217 | a fixed field may hold any value Python holds equal to the required one |
| `RemotePolicy.FlagMayBeZero` | scripts/check_p10_distribution.py:194-217 | with the tables in use, `0` in place of `False` for the flag on synthetic fixtures leaves the verdict on an accepted policy as it is |
| `ReleaseTexts.IsRunIdExactly` | scripts/check_p10_distribution.py:178-186 | a run identity is the decimal text of a positive number |
| `ReleaseTexts.IsDigestExactly` | scripts/check_p10_distribution.py:226-230 | a digest is the label and the hexadecimal text of thirty-two bytes |
| `ReleaseTexts.IsRevisionExactly` | scripts/check_p10_distribution.py:225-225 | a revision is the hexadecimal text of twenty bytes |
| `ReleaseTexts.LifecycleExactly` | scripts/check_p10_distribution.py:188-217 | the three states by their texts |
| `ReleaseTexts.RunUrlTells` | scripts/check_p10_distribution.py:184-184 | the address of a run determines its identity |
| `Utf8.EncodeDecode` | scripts/check_p9_repository.py:287-291 | only one byte string decodes to a given text |
| `Utf8.Examples` | scripts/check_p9_repository.py:287-291 | the examples of section 7 of RFC 3629 |
| `Paths.StrictIsFixedPoint` | scripts/check_p9_repository.py:287-295 | strict validation accepts exactly the fixed points of the lenient one |
| `Paths.StrictExactly` | scripts/check_p9_repository.py:287-295 | strict validation accepts the lone dot and proper segments put together with slashes, and nothing else |
| `Paths.LenientExactly` | scripts/check_p8_provenance.py:301-307 | lenient validation refuses the empty text, a slash at either end and a segment that goes up, and nothing else |
| `Paths.LenientIdempotent` | scripts/check_p8_provenance.py:301-307 | what lenient validation returns is normal already, names the same segments and is accepted by both |
| `Paths.LenientIdentifiesSpellings` | scripts/check_p8_provenance.py:301-307 | two accepted texts normalise alike exactly when they name the same segments |
| `Paths.Confined` | scripts/check_p9_provenance.py:48-54 | following an accepted path segment by segment never leaves the root, at no step |
| `NameStatus.ParseIsInverseOfPrint` | scripts/check_p9_repository.py:298-331 | an output parses to a change list exactly when the list is valid and prints as that output, byte for byte |
| `NameStatus.PrintInjective` | scripts/check_p9_repository.py:298-331 | no two change lists print alike |
| `NameStatus.ParseFieldsRoundTrip` | scripts/check_p9_repository.py:305-331 | every field is consumed exactly once |
| `ScoredRenames.ScoreTakesTwo` | scripts/check_p8_repository.py:238-242 | a rename or copy status with any number of leading zeros takes two paths exactly when its score is at most a hundred and its text at most 4300 digits |
| `ScoredRenames.StatusesExactly` | scripts/check_p8_repository.py:238-248 | two paths follow scored renames and copies only, one follows A, D, M and T only |
| `ScoredRenames.RenameIsRead` | scripts/check_p9_repository.py:315-320 | a printed rename of proper paths parses to that one change with both paths in order, exactly when its score is readable |
| `ScoredRenames.EightySeven` | scripts/check_p9_repository.py:315-320 | an instance: `R087` |
| `Numerals.ReadsBack` | scripts/check_p9_repository.py:317-317 | the number of a decimal text, leading zeros or not, is the one it is the text of |
| `Numerals.ValueOfParts` | scripts/check_p9_repository.py:317-317 | the value of a text of digits: every digit counts ten times as much for each digit behind it |
| `NameStatus.NextChangeP8` | scripts/check_p8_repository.py:231-253 | the loop body that settles the number of paths first reads the first change of what is left |
| `NameStatus.ParseP8` | scripts/check_p8_repository.py:222-254 | the loop accepts exactly what the reference parser accepts, with the same changes |
| `NameStatus.NextChangeP9` | scripts/check_p9_repository.py:306-330 | the loop body that checks bounds per kind of status reads the first change of what is left |
| `NameStatus.ParseP9` | scripts/check_p9_repository.py:298-331 | the differently arranged loop accepts exactly the same byte strings, with the same changes |
| `DescendantBoundary.ArrangementsAgree` | scripts/check_p8_repository.py:310-319 | the two phase decisions accept the same path sets in the same phase exactly when the summary tells the two allowed sets apart |
| `DescendantBoundary.ThreeGatesAgree` | scripts/check_p9_repository.py:741-750 | with the implementation set being all but the summary, the P8, P9 and P11R decisions agree on every path set |
| `DescendantBoundary.PathsOfExactly` | scripts/check_p8_repository.py:300-301 | the paths of a listing are those of all its changes |
| `DescendantBoundary.ParseUntracked` | scripts/check_p8_repository.py:282-297 | accepted exactly when git's output is empty or ends in NUL and every field is the UTF-8 text of a normal relative path; the result is those paths |
| `DescendantBoundary.CheckDescendantBoundary` | scripts/check_p8_provenance.py:258-285 | accepted is exactly what git prints for additions and modifications of all the allowed paths, with nothing staged, changed or untracked and no link or special file in the tree |
| `Framing.Hasher.UpdateFramed` | scripts/fingerprint_source_tree.py:51-55 | absorbs eight bytes that spell the length, the first counting most, and then the value |
| `Framing.BigEndianExactly` | scripts/fingerprint_source_tree.py:54-54 | the encoding of a number is the one string of that many bytes whose value, folded from the left, is the number |
| `Framing.FramedExactly` | scripts/fingerprint_source_tree.py:51-55 | the frame of a value is the one byte string of eight bytes that spell its length followed by the value |
| `Framing.HexSpells` | scripts/fingerprint_source_tree.py:113-113 | a hexadecimal digest spells the number its bytes spell, two digits a byte |
| `Framing.BigEndianInjective` | scripts/fingerprint_source_tree.py:54-54 | lengths below the limit have different encodings |
| `Framing.FramesPrefix` | scripts/fingerprint_source_tree.py:51-55 | a known number of frames can be told from whatever follows them |
| `Framing.FramesInjective` | scripts/check_p9_repository.py:556-561 | concatenated frames determine the values, their number and their order |
| `Ordering.SortedForgetsOrder` | scripts/fingerprint_source_tree.py:68-68 | sorting forgets the order of discovery and nothing else |
| `Fingerprint.AbsorbStream` | scripts/fingerprint_source_tree.py:84-86 | reading in chunks of one mebibyte absorbs the content, whole and in order |
| `Fingerprint.HashEntry` | scripts/fingerprint_source_tree.py:76-112 | one entry's digest is that of its message: framed path, mode and tag, then the content as it is or the framed target |
| `Fingerprint.FingerprintWorktreeEntries` | scripts/fingerprint_source_tree.py:58-113 | the loop over the sorted listing computes the specified count and digest, or the first failure |
| `Fingerprint.MessageInjective` | scripts/fingerprint_source_tree.py:80-109 | one entry's bytes determine path, mode, kind and content although the content is not framed |
| `FingerprintBytes.MessageExactly` | scripts/fingerprint_source_tree.py:80-109 | the bytes hashed for an entry: its path, the decimal text of its permissions and its kind in frames of their own, then the content, or the target in a frame |
| `FingerprintBytes.SafePathExactly` | scripts/fingerprint_source_tree.py:69-75 | a safe path is proper segments put together with slashes |
| `FingerprintBytes.ModeExactly` | scripts/fingerprint_source_tree.py:81-83 | four bits of a mode are its type and twelve its permissions |
| `FingerprintBytes.RawPathsExactly` | scripts/fingerprint_source_tree.py:61-63 | paths between NULs, with or without a last one |
| `FingerprintBytes.ByteOrderExactly` | scripts/fingerprint_source_tree.py:68-68 | paths are sorted by the first byte that differs, a proper prefix first |
| `Fingerprint.FingerprintDetermines` | scripts/fingerprint_source_tree.py:58-113 | equal fingerprints mean that the two listings show the same, or exhibit a collision |
| `Fingerprint.FingerprintDepends` | scripts/fingerprint_source_tree.py:58-113 | listings that show the same have equal fingerprints |
| `Fingerprint.FingerprintForgetsOrder` | scripts/fingerprint_source_tree.py:61-68 | the order in which git lists paths changes neither the result nor the failure |
| `TreeDigest.FramedDigest` | scripts/check_p9_provenance.py:63-71 | the loop over sorted paths computes the digest of framed paths and content digests |
| `TreeDigest.DigestSpelled` | scripts/check_p9_provenance.py:63-71 | the digest is the label and the hash of the aggregate, spelled in hexadecimal |
| `TreeDigest.DigestDetermines` | scripts/check_p9_repository.py:544-561 | equal tree digests mean identical path-to-content maps, or exhibit a collision |
| `TreeDigest.DigestDepends` | scripts/check_p8_provenance.py:315-322 | the digest depends on the path-to-content map alone, not on the order of discovery |
| `Lines.SplitLinesJoin` | scripts/check_p11r_repository.py:104-114 | splitting lines put together with newlines gives the lines back |
| `Lines.SplitLinesPair` | scripts/check_p11r_repository.py:104-104 | a carriage return and a newline end one line together |
| `Lines.SplitLinesLast` | scripts/check_p11r_repository.py:104-104 | a last line need not be ended |
| `Lines.WordsApart` | scripts/check_p11r_repository.py:107-107 | words are told apart by any amount of white space |
| `Lines.CharactersExactly` | scripts/check_p11r_repository.py:102-107 | the characters that end lines, and those that are white space, one by one |
| `Lines.FindIsFirst` | scripts/check_p11r_repository.py:99-101 | the marker found is the first, and one is found if there is any |
| `MakefileEdit.MarkerSplits` | scripts/check_p11r_repository.py:99-101 | a text put together around a marker splits into those two parts exactly when the marker occurs neither in the block nor in the prefix with one more newline behind it |
| `MakefileEdit.RemoveTargets` | scripts/check_p11r_repository.py:107-111 | removing targets one by one succeeds exactly when each occurs once, and leaves the other tokens in order |
| `MakefileEdit.ValidateMakefileContents` | scripts/check_p11r_repository.py:98-122 | accepts exactly the additive edits: every base line kept but the fifth, whose tokens only gained the targets, and a marked block in which a target is one of the new ones exactly when some line is that target, a colon and anything, and neither a recipe nor a comment |
| `MakefileEdit.BlockDecides` | scripts/check_p11r_repository.py:115-122 | where the part before the marker keeps the base, acceptance turns on the rules of the block alone |
| `MakefileEdit.OtherRulesRefused` | scripts/check_p11r_repository.py:115-122 | a rule for another target, prerequisites or not, or a missing one makes the edit fail |
| `MakefileBlock.RulesMakeBlock` | scripts/check_p11r_repository.py:115-122 | rules for all the targets among recipes, comments and blank lines make a proper block |
| `MakefileBlock.GoodBlockAccepted` | scripts/check_p11r_repository.py:115-122 | an instance with a prerequisite, a recipe and a comment, all with colons |
| `MakefileBlock.ExtraRuleRefused` | scripts/check_p11r_repository.py:115-122 | the same with a rule for something else is refused |
| `MakefileEdit.PhonyTokensDeleted` | scripts/check_p11r_repository.py:107-112 | the base declaration's tokens are the current ones with each target deleted, in order |
| `MakefileEdit.EveryInterleavingAccepted` | scripts/check_p11r_repository.py:98-122 | any way of putting the targets among the base tokens, written out with the marker and a proper block after it, is accepted; the marker must not occur a second time |
| `MakefileEdit.BytesKeptExactlyWithNewlines` | scripts/check_p11r_repository.py:104-116 | the base is kept to the byte, up to a last newline, exactly when the current text has no line end but newlines |
| `MakefileEdit.OtherLineEndAccepted` | scripts/check_p11r_repository.py:98-122 | if a text is accepted, so is the text with a form feed in place of one of its old newlines |
| `MakefileInstance.FormFeedAccepted` | scripts/check_p11r_repository.py:98-122 | under the P11R rules: a concrete base and current text that is accepted, and accepted with a form feed for its second character, a newline |
| `BoundaryScan.RecordExceptions` | scripts/check_public_boundary.py:112-137 | the ledger is built exactly when every exception is in order and no two excuse one finding; it then has one entry for each |
| `BoundaryScan.ValidateExceptions` | scripts/check_public_boundary.py:104-137 | the same with the checks on version and shape in front |
| `LedgerEntries.EntryExactly` | scripts/check_public_boundary.py:115-137 | an exception excuses a finding exactly when its fields are the required ones, name that finding and its digest, and give a reason and a role |
| `LedgerEntries.VersionedExactly` | scripts/check_public_boundary.py:107-108 | the version is one, however the number is written, and the policy the known one |
| `BoundaryScan.SpellingsCollide` | scripts/check_public_boundary.py:47-55 | two spellings of one path cannot both be excused for one rule |
| `BoundaryScan.ScanDocument` | scripts/check_public_boundary.py:258-290 | each rule found in a file is used up by a matching exception or reported, once |
| `BoundaryScan.ScanTree` | scripts/check_public_boundary.py:241-295 | fails exactly when some exception excuses nothing; else reports, in order, exactly the findings not excused, the links and the unreadable files, with the numbers of files and bytes read |
| `LedgerEntries.SkippedExactly` | scripts/check_public_boundary.py:258-263 | only git's own entry at the root, and what is below it if it is a directory, is skipped |
| `LedgerEntries.RulesOfExactly` | scripts/check_public_boundary.py:278-283 | a file that encodes a text has the rules of that text, any other the rule for the undecodable |
| `LedgerEntries.TotalsExactly` | scripts/check_public_boundary.py:270-276 | each file counts, readable or not, and with its size if it is |
| `BoundaryScan.CleanExactlyWhenCovered` | scripts/check_public_boundary.py:241-295 | a scan is clean exactly when the ledger's domain is the set of findings, every digest is current and nothing is a link or unreadable |
| `BoundaryScan.ExcusedOrReported` | scripts/check_public_boundary.py:284-290 | every finding is excused or reported and none is both |
| `BoundaryScan.OpaqueNeverExcused` | scripts/check_public_boundary.py:264-275 | a link or unreadable file is always reported, and a ledger that tries to excuse it is stale |
| `Receipts.CollectDestinations` | scripts/check_p8_provenance.py:354-367 | collecting succeeds exactly when every entry is in order and all destinations differ after validation |
| `LedgerEntries.DestinationExactly` | scripts/check_p8_provenance.py:355-364 | an entry accounts for a path exactly when it has the fixed fields and a destination that validates to it, and nothing else |
| `Receipts.CheckCoverage` | scripts/check_p8_provenance.py:354-370 | accepted exactly when the entries account for the changed files, each for one of its own |
| `Receipts.CoverageIsOneToOne` | scripts/check_p9_provenance.py:117-134 | coverage means that every changed file is accounted for by exactly one entry and no entry names anything else |
| `Receipts.LenientIsStrictUpToSpelling` | scripts/check_p8_provenance.py:301-307 | the older gate accepts a receipt exactly when the newer one accepts it with destinations in normal spelling |
| `Receipts.StrictAcceptanceCarriesOver` | scripts/check_p9_provenance.py:48-54 | whatever the newer gate accepts, the older one accepts |
| `Receipts.SpellingsCaught` | scripts/check_p8_provenance.py:364-367 | two accepted entries never name one path in two spellings |
| `Quickstart.Attempt` | scripts/check_p10_quickstart.py:89-117 | the timed part succeeds exactly when every answer is safe, ready and in time and the probe saw nothing |
| `EvidenceTerms.AttemptedExactly` | scripts/check_p10_quickstart.py:89-117 | the same by the fields of the answers |
| `EvidenceTerms.ProbeExactly` | scripts/check_p10_compose_runtime.py:257-271 | a probe passes exactly when it was made, reached its control, found the network internal and three services, and saw no connection |
| `Quickstart.RunTrial` | scripts/check_p10_quickstart.py:73-132 | a trial passes exactly when everything answers as it should, with two residue and four port checks; on every exit it has made its directory, attempted `quickstart`, attempted `down` and attempted the removal just as far as it got; an error that escapes from `down` takes the place of any other |
| `Quickstart.CleanedUpAppend` | scripts/check_p10_quickstart.py:118-123 | trials do not disturb each other: a trace that cleans up, continued by one that does, cleans up |
| `Quickstart.RunQuickstartTrials` | scripts/check_p10_quickstart.py:65-134 | completes exactly when all trials pass, with their times and 3, 0, 6 and 12 as counts; however it ends, what it did is what the trials up to the failing one do, in order |
| `Quickstart.TraceTellsTrials` | scripts/check_p10_quickstart.py:74-123 | `quickstart` and `down` were attempted for exactly the same trials, those that got their directory and free ports; removal of the directory for those of them whose `down` did not escape |
| `Quickstart.TrialsCleanUp` | scripts/check_p10_quickstart.py:88-123 | whatever the outside world does, every attempted `quickstart` is followed by one `down` of its trial, and no `down` stands alone |
| `Quickstart.TrialsDiscard` | scripts/check_p10_quickstart.py:77-123 | removal of every directory made is attempted exactly when no trial ended between making it and the end of `down` |
| `Quickstart.RunCleansUp` | scripts/check_p10_quickstart.py:65-134 | of a run that stops at its first failing trial, only the last trial can leave a directory that nothing attempts to remove |
| `Evidence.Max` | scripts/check_p10_evidence.py:206-209 | an element that no other exceeds |
| `Evidence.Median` | scripts/check_p10_evidence.py:206-209 | an element with two no larger and two no smaller |
| `Evidence.CollectedIsAcceptedExactly` | scripts/collect_p10_evidence.py:79-103 | a collected summary is accepted exactly when the facts the collector does not look at are in order |
| `Evidence.CollectedAndRefused` | scripts/check_p10_evidence.py:198-231 | for any required gates and prewrite answer: passed trials whose times round to zero are collected, and the validator refuses the summary |
| `EvidenceTerms.CollectExactly` | scripts/collect_p10_evidence.py:64-101 | every field the collector looks at, and what it must hold |
| `EvidenceTerms.ValidateExactly` | scripts/check_p10_evidence.py:181-269 | every field the validator looks at, and what it must hold |
| `EvidenceTerms.TestsRanExactly` | scripts/check_p10_evidence.py:184-184 | at least one test ran, a boolean counting as a number |
| `Evidence.ReportedTimesAccepted` | scripts/check_p10_evidence.py:198-231 | reported times below the limit are accepted, statistics included, exactly when they are positive |
| `Evidence.PassedTrialsReport` | scripts/check_p10_quickstart.py:135-165 | trials that pass give the counts and flags the collector and the validator ask for |
| `Evidence.EvidencePipeline` | scripts/check_p10_evidence.py:181-288 | from passed trials to an accepted summary: exactly when every measured time is positive and the remaining facts are in order |
| `JsonValues.StrictEqualIsIdentity` | scripts/check_p9_repository.py:471-485 | strict comparison is identity: no boolean passes for a number at any depth |
| `JsonValues.StrictIsFiner` | scripts/check_p9_repository.py:471-485 | Python's equality accepts all that the strict comparison accepts, and more |
| `PythonEquality.PyEqualExactly` | scripts/check_p9_repository.py:471-485 | Python's equality is equality of the values with one kind of number, at every depth |
| `JsonValues.UniqueObject` | scripts/check_p9_repository.py:458-464 | the object hook refuses exactly the repeated names and else keeps one entry for every pair |
| `JsonValues.BuildForgetsOrderOnly` | scripts/check_p9_repository.py:458-485 | hook and strict comparison together forget nothing of a parsed text but the order of object members |
| `SummarySafety.SafeExactlyWhenNothingOffends` | scripts/check_p9_repository.py:493-541 | the screen passes a summary exactly when no path inside it leads to a private text or a forbidden field name |

## Left out

- Architecture.CheckArchitecture: the error holds the set of violations; the sorted text printed from that set is not modelled.
- AliasStability.CallUndoneExactly: calls and items of chains, and with `AliasStability.TowerUndoneExactly` nested two-argument helpers; where a call stands in the place of a callee or inside `vars` or an item, only `AliasStability.ResolutionIsLocal` and `AliasStability.UnrelatedBindings` speak, since there an argument that begins to resolve can undo the whole.
- NameStatus.ParseP8: that two parsers agree is stated for acceptance and changes; which error a malformed output gets is not compared, since the scripts word their errors differently. The P8 provenance parser is the same loop under other names and shares this method.
- DescendantBoundary.CheckDescendantBoundary: which of the errors is raised first is computed but not specified; ancestry, history, file types and residue, which need git or the file system, are not modelled; links and special files come as their number.
- OciInspection.InspectOciLayout: bytes that are no UTF-8 raise another exception than malformed JSON does in the code; here both read as an invalid layout. Hard links inside an archive are not modelled.
- RemotePolicy.ValidDescribesRelease: field names are constructors, and the statements hold for any table of fixed identities, of which `P10_TABLES` is the one in use.
- Fingerprint.FingerprintWorktreeEntries: `os.fsdecode` is the identity on bytes, and a file is looked at twice with whatever the two looks return.
- TreeDigest.DigestDetermines: paths are held as UTF-8 bytes, the order in which the scripts sort them is a parameter, and the filter that skips excluded and residue files is part of the listing.
- MakefileEdit.ValidateMakefileContents: of the errors only the one about the marker is specified exactly.
- BoundaryScan.ScanTree: the regular expressions behind the rules and the validation of the policy document are not modelled; the content digest is a parameter.
- Receipts.CheckCoverage: the checks on the receipt's header and, in P9, on forbidden texts inside it are not modelled.
- Quickstart.RunTrial: removal ignores errors in the code, so that a directory is gone afterwards is not stated; a measured time comes rounded, not-a-number does not occur, and the loop that draws a second port until it differs from the first, which need not end, is taken as done; drawing the ports and looking whether they are free is one answer.
- Evidence.CollectedIsAcceptedExactly: the validator's clauses on identity, timestamps, capability fields and privacy are outside the verdict compared.
- Evidence.EvidencePipeline: fields that are fixed texts or come from git, timestamps and the privacy screen are outside this statement.
- Dotted names are held as their segments; `PythonTree.DottedTextIsFaithful` and `PythonTree.DottedPrefix` say why nothing is lost.
- `ast.walk` gives the node list; the files other phases own and the words the port checks look for are part of a `Policy` parameter.
- A float is a real number: rounding in JSON numbers and infinities are not modelled.
- Git, Docker, HTTP, registry and signing calls are not modelled; their outputs are inputs here.
- The compose-runtime drivers, the workflow-text checks of the distribution gate, fixed inventories of required files and the weaker architecture gates of P2 and P11 would only add easy members.
