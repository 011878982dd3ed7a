# Verified models of the acceptance gates and release tools

The repository's Python gates and build tools decide whether an API change is acceptable,
what a frontend client is generated from, which runtime archive is published, which
download is trusted, whether old test evidence may be reused, how a profile's client
history is written, and when a submitted job counts as done. This project models those
decisions and protocols in Dafny and proves what each of them is relied on for.

| file | subject |
|---|---|
| `Json.dfy`, `OrderedJson.dfy` | JSON values, and JSON texts with member order |
| `Pointers.dfy` | local references, section 4 of RFC 6901 |
| `SchemaRoles.dfy` | which named schemas occur in requests and in responses |
| `Compatibility.dfy`, `CompatibilitySoundness.dfy`, `CompatibilityOrder.dfy`, `CompatibilityWitness.dfy`, `CompatibilityGap.dfy`, `CompatibilityDangling.dfy`, `CompatibilityVerdict.dfy` | the API comparison, what it guarantees about values, its order laws, a change that meets the hypotheses, two beyond them, and the verdict in terms of the documents' members |
| `FragmentMerge.dfy` | merging OpenAPI fragments |
| `FrontendDocument.dfy`, `FrontendValidator.dfy`, `FrontendCompiler.dfy`, `FrontendTotality.dfy`, `FrontendAcceptance.dfy`, `FrontendCanonical.dfy`, `FrontendReversal.dfy`, `FrontendOrder.dfy`, `FrontendClash.dfy`, `FrontendAudit.dfy`, `FrontendFaithful.dfy` | the OpenAPI validator and compiler, totality of the compiler, exactly when acceptance and output forget the member order, what acceptance says of the raw members, and that the compiled operations say what the document says |
| `Sorting.dfy` | Python's stable sort |
| `Hashing.dfy` | SHA-256 as a fold fed in chunks |
| `RuntimeArchive.dfy`, `RuntimeTree.dfy`, `RuntimePublication.dfy` | the runtime archive, which trees are packed, its staged verification, and publication by hard links |
| `DownloadCache.dfy`, `ZipExtraction.dfy` | the verified download cache and ZIP extraction |
| `EvidenceReuse.dfy`, `EvidenceAudit.dfy` | reuse of merged pull-request evidence, and what makes a receipt good or worthless |
| `RelationshipHistory.dfy`, `ClientHistory.dfy`, `GovernedTransactions.dfy` | the profile/client assignment history and the commands on clients, with their SQL triggers, and exactly which commands and transactions pass |
| `AgentSubmission.dfy` | job submission to a live owner |

Objects that the source updates in place are classes (`SchemaRoles.RoleCollector`,
`FragmentMerge.OpenApiDocument`, `RuntimePublication.Outputs`, `DownloadCache.Disk`,
`ZipExtraction.Destination`, `RelationshipHistory.Database`, `AgentSubmission.Session`);
loops are methods proved against specification functions or predicates, about which the
lemmas then speak. Protocols are relations `Next` between states, and their theorems hold
over every run of any interleaving; `Others` stands for whatever the other parties do, and a
caller knows no more about it than its `ensures`.

## Where the code falls short of what is said of it

The models follow the code. Where a promise fails, a lemma shows how, and the theorem says
under which condition it holds.

- Python's `==` and `in` take `true` for 1 and `false` for 0, at every depth. An enum may
  exchange one for the other unnoticed (`BooleanEnumGap`); its values are kept exactly when each
  has its own twin (`EnumKeptExactly`), which soundness asks of the enums met in the role.
- `items` added to an array schema that had none is never reported (`UntypedItemsGap`).
- A property literally named `$ref` hides the references below it (`RefPropertyGap`), so a
  breaking change can pass (`CompatibleButBroken`).
- A dangling reference admits no value (`DanglingAdmitsNothing`), so where the baseline has one,
  a compatible change can produce responses an old client refuses (`CompatibleButUnreadable`);
  response soundness asks that the baseline references met from responses resolve.
- A schema with a malformed enum is not compatible with itself (`Reflexive` says exactly
  when), and an explicit null keyword lets two accepted steps make a refused one when only
  responses are compared (`TransitiveExactly`).
- A `components.schemas` that is no object is passed over in silence (`SchemasPassedOver`).
- An explicit null at `requestBody`, `content` or `headers` passes the validator and then
  makes the compiler fail (`CompilesExactly`).
- Two response headers equal ignoring case keep their document order in the compiled output, and
  that is the only way member order shows (`OrderForgottenExactly`, `MemberOrderShows`).
- A file of the runtime named `runtime-manifest.json` makes the staged verification reject what the
  writer wrote (`WriterVerifierAgree`, `StageArchive`).
- Publication rests on a refused link never having taken effect
  (`UnreportedLinkBreaksSafety`).
- With recursive triggers off, as SQLite has them, `INSERT OR REPLACE` passes by the guard on
  deleting history (`ReplaceReopens`).
- Where several assignment guards object at once, which of them is named is not fixed by
  SQL; the model reports the first in the order of the migration text.

## Model

| member | source | states |
|---|---|---|
| Pointers.ResolveLocalRef | scripts/check-contract-compatibility.py:174-183 | finds exactly what the two-stage unescaped tokens of a `#/` reference lead to, and nothing for any other reference |
| Pointers.SplitJoin | scripts/check-contract-compatibility.py:177-178 | splitting joined words gives the words back when none holds the separator |
| Pointers.UnescapeEscape | scripts/check-contract-compatibility.py:178 | the two-stage replacement undoes the escaping of an arbitrary key |
| Pointers.PointerInverse | scripts/check-contract-compatibility.py:174-183 | a reference built by escaping any path of arbitrary keys resolves to exactly the value at that path |
| SchemaRoles.RoleCollector.Collect | scripts/check-contract-compatibility.py:186-215 | adds only references reachable from the traversal's root, leaves visited everything it was asked to cover, and terminates on cyclic documents |
| SchemaRoles.RoleCollector.CollectRoot | scripts/check-contract-compatibility.py:186-215 | one traversal records precisely the references reachable from its root, in its role, besides those recorded before |
| SchemaRoles.SchemaUsageRoles | scripts/check-contract-compatibility.py:218-246 | a component name gets a role if and only if a reference counted under it is reachable from some operation's request body (responses) |
| Compatibility.CompareComponent | scripts/check-contract-compatibility.py:346-402 | reports nothing if and only if the component's keywords, properties and required set are acceptable in the given roles, and otherwise exactly the kinds of breach there are |
| Compatibility.ComparePaths | scripts/check-contract-compatibility.py:316-334 | reports nothing if and only if every baseline path item is still an object and holds each of its operations, with the same operationId (said of the raw members by `PathsKeptExactly`), and otherwise a removed path, a removed operation or a changed operationId exactly where there is one; what its responses are is not looked at |
| Compatibility.CompareOpenapi | scripts/check-contract-compatibility.py:312-402 | reports nothing if and only if all baseline paths and all baseline schemas, each compared in the roles it has in either document, are kept, which `VerdictExactly` spells out rule by rule; and otherwise exactly the kinds of breach there are |
| CompatibilityVerdict.OperationsSurvive | scripts/check-contract-compatibility.py:316-334 | with no errors, every operation of the baseline, at any route and verb, is an operation of the current document with an equal operationId |
| CompatibilityVerdict.PathsKeptExactly | scripts/check-contract-compatibility.py:316-334 | the path rules hold if and only if every baseline path item and each operation in it survives, stated of the two documents alone |
| CompatibilityVerdict.SchemaExactly | scripts/check-contract-compatibility.py:256-309 | two schemas are accepted if and only if `$ref`, `type` and `format` are equal, their enums grow or shrink as the roles allow, and, of arrays, the items are accepted |
| CompatibilityVerdict.ComponentExactly | scripts/check-contract-compatibility.py:346-402 | a component is accepted if and only if its own keywords hold, no property is removed or changed, and nothing is newly required in requests nor dropped from required in responses |
| CompatibilityVerdict.RolesCompared | scripts/check-contract-compatibility.py:336-360 | a component is compared in exactly the roles it has in either document, and in both where it has none |
| CompatibilityVerdict.SchemaBreaches | scripts/check-contract-compatibility.py:256-309 | each kind of error is reported of two schemas exactly where it is due, at their own level or at that of their items |
| CompatibilityVerdict.VerdictExactly | scripts/check-contract-compatibility.py:312-402 | the whole verdict: no errors if and only if paths and operations survive and, unless the component schemas are no object, every baseline schema is still there and accepted in its roles |
| CompatibilitySoundness.ConformsMonotone | scripts/check-contract-compatibility.py:256-309 | a deeper derivation admits no fewer values, so validity under recursive schemas does not depend on a cut-off |
| CompatibilitySoundness.ComponentRefsUsed | scripts/check-contract-compatibility.py:186-246 | the references of a used component are themselves used, so comparison roles follow every nesting of schemas |
| CompatibilitySoundness.RequestSoundness | scripts/check-contract-compatibility.py:256-402 | with no errors, every value valid before for a component met from a request body, and free of newly declared properties, is valid now, through references of any depth |
| CompatibilitySoundness.ResponseSoundness | scripts/check-contract-compatibility.py:256-402 | with no errors, every value valid now for a component met from responses was valid before, so an old client can read it |
| CompatibilitySoundness.EnumKeptExactly | scripts/check-contract-compatibility.py:271-292 | an accepted pair of enums keeps every value that must stay if and only if each has its own twin, and not merely one Python takes for equal |
| CompatibilitySoundness.UntypedItemsGap | scripts/check-contract-compatibility.py:294-308 | adding `items` to an array schema without them is accepted in any role although it shuts out every non-empty array taken before |
| CompatibilitySoundness.BooleanEnumGap | scripts/check-contract-compatibility.py:271-292 | the enums [1] and [true] are accepted for one another in both directions although they admit disjoint values |
| CompatibilitySoundness.RefPropertyGap | scripts/check-contract-compatibility.py:213-215 | no reference below a property named `$ref` is ever followed |
| CompatibilitySoundness.DanglingAdmitsNothing | scripts/check-contract-compatibility.py:264-267 | a schema whose reference names no component admits no value at all |
| CompatibilityDangling.CompatibleButUnreadable | scripts/check-contract-compatibility.py:186-402 | a change reported as compatible after which a response valid now was not valid before: the baseline refers to a component it does not have |
| CompatibilitySoundness.SchemasPassedOver | scripts/check-contract-compatibility.py:338-350 | where the schemas of either document are no object, none is compared: the paths alone decide |
| CompatibilityGap.CompatibleButBroken | scripts/check-contract-compatibility.py:186-402 | a change reported as compatible that breaks a request: the changed schema is named only below a property called `$ref`, so it is compared as a response alone |
| CompatibilityWitness.SoundnessApplies | scripts/check-contract-compatibility.py:186-402 | adding an optional property to a recursive schema, and values of every depth, meet all hypotheses of both soundness theorems |
| CompatibilityOrder.Reflexive | scripts/check-contract-compatibility.py:256-309 | a schema is accepted as its own successor if and only if its enums, at every nesting of items, are lists |
| CompatibilityOrder.Transitive | scripts/check-contract-compatibility.py:256-309 | two accepted steps make an accepted step, through nested items, enums and added or absent keywords |
| CompatibilityOrder.TransitiveExactly | scripts/check-contract-compatibility.py:256-309 | no two accepted steps from a schema drift into a refused one if and only if requests are compared or none of its compared keywords is an explicit null |
| FragmentMerge.MergeUniqueMap | scripts/check-contract-compatibility.py:58-68 | succeeds if and only if no name is shared, and then yields the union |
| FragmentMerge.MergeOpenapiPaths | scripts/check-contract-compatibility.py:71-88 | merges route by route, refusing exactly the shared (route, key) pairs and malformed items |
| FragmentMerge.OpenApiDocument.MergeFragment | scripts/check-contract-compatibility.py:91-128 | the document after one fragment, or refusal, as the merge specification says |
| FragmentMerge.OpenApiDocument.MergeFragments | scripts/check-contract-compatibility.py:131-140 | the document after all fragments, or refusal at the first that does not merge |
| FragmentMerge.MergeableExactly | scripts/check-contract-compatibility.py:71-128 | a well-shaped fragment merges if and only if it shares no entry with the document |
| FragmentMerge.MergeAllSucceeds | scripts/check-contract-compatibility.py:58-140 | a list of fragments merges if and only if no two contributions share an entry |
| FragmentMerge.OnlyWellShapedMerges | scripts/check-contract-compatibility.py:91-128 | an ill-shaped fragment is never merged: unknown keys or sections, or anything but objects of objects |
| FragmentMerge.MergesExactly | scripts/check-contract-compatibility.py:58-140 | a well-shaped document takes in an arbitrary list of fragments if and only if all are well-shaped and no two contributions share an entry |
| FragmentMerge.MergeAllEntry | scripts/check-contract-compatibility.py:58-140 | an entry is in the result if and only if the document or some fragment contributed it, and it is unchanged |
| FragmentMerge.MergeAllShape | scripts/check-contract-compatibility.py:91-128 | the result is well-shaped and keeps every other top-level key of the root document |
| FragmentMerge.MergeAllPart | scripts/check-contract-compatibility.py:91-128 | routes and sections are exactly those of the document and the fragments |
| FragmentMerge.OrderIndependent | scripts/check-contract-compatibility.py:58-140 | neither success nor the merged document depends on the order of the fragments |
| OrderedJson.CanonicalExactly | scripts/check-frontend-openapi.py:366-367 | the key-sorted forms of two well-formed texts are equal if and only if the values are |
| FrontendDocument.ResolveValue | scripts/check-frontend-openapi.py:81-99 | walks the tokens of a local reference and merges sibling keys over the target, failing on any missing step |
| FrontendDocument.PointerInverse | scripts/check-frontend-openapi.py:84-92 | the compiler's own resolver, too, undoes escaping for every path of arbitrary keys |
| FrontendDocument.ResolveSame | scripts/check-frontend-openapi.py:81-99 | resolution does not depend on member order |
| FrontendValidator.PlaceholdersExactly | scripts/check-frontend-openapi.py:235 | the scan of a path finds exactly the brace-free non-empty names standing in braces |
| FrontendValidator.ValidateParameters | scripts/check-frontend-openapi.py:250-281 | accepts exactly lists of valid parameters and collects exactly the names declared in the path |
| FrontendAcceptance.OperationAcceptedExactly | scripts/check-frontend-openapi.py:245-338 | an operation is accepted in one member order of document, path item and operation if and only if it is in every other |
| FrontendValidator.OperationIndex | scripts/check-frontend-openapi.py:223-339 | accepts exactly the valid paths with unique operation identifiers, and indexes every operation once |
| FrontendValidator.ValidateDocument | scripts/check-frontend-openapi.py:507-527 | accepts exactly the valid documents and hands over their complete index |
| FrontendAcceptance.DocumentAcceptedExactly | scripts/check-frontend-openapi.py:507-527 | a document is accepted in one member order if and only if it is in every other |
| FrontendAudit.RepairFreeExactly | scripts/check-frontend-openapi.py:102-110 | the search for obsolete extensions finds one if and only if some object, at any depth, has it among its keys |
| FrontendAudit.SchemaValidExactly | scripts/check-frontend-openapi.py:113-139 | a schema is valid if and only if every subschema, at every depth, is an object of known keywords without `nullable`, with a resolvable reference and containers of the right kind |
| FrontendAudit.ContentExactly | scripts/check-frontend-openapi.py:142-168 | a content is accepted if and only if it is non-empty and each media type is JSON or problem JSON, parameters and case aside, with a valid schema that says something where it is a problem |
| FrontendAudit.ParameterExactly | scripts/check-frontend-openapi.py:171-281 | a parameter is accepted if and only if it has a name, a schema, and the one style its location allows, and says that it is required where it is in the path |
| FrontendAudit.HeadersExactly | scripts/check-frontend-openapi.py:189-220 | response headers are accepted if and only if each resolves to an unexploded simple header with a valid schema and no content |
| FrontendAudit.ResponseExactly | scripts/check-frontend-openapi.py:312-338 | a response is accepted if and only if its status has three digits, a 204 has no content, and from 400 up every content is a problem |
| FrontendAudit.BodyExactly | scripts/check-frontend-openapi.py:305-310 | a request body is accepted if and only if it is explicitly required and has an accepted content |
| FrontendAudit.SecurityExactly | scripts/check-frontend-openapi.py:287-303 | security is accepted if and only if every alternative is empty or the one known scheme without scopes |
| FrontendAudit.AcceptedOperation | scripts/check-frontend-openapi.py:231-338 | each operation of an accepted document lies under `/api/v1/`, has an identifier, and declares exactly the path parameters its path has places for |
| FrontendCompiler.CompileParameterList | scripts/check-frontend-openapi.py:383-395 | defined if and only if every path-level and operation-level parameter compiles, and then an ascending listing of precisely the compiled ones, which say what was declared (`ParametersFaithful`) |
| FrontendCompiler.CompileOperationIr | scripts/check-frontend-openapi.py:398-455 | the nested loops over operations, parameters, media types, headers, responses and security requirements build the specified operation list, or fail where a lookup is undefined; what is built says what the document says (`CompiledFaithful`) |
| FrontendFaithful.CompiledFaithful | scripts/check-frontend-openapi.py:398-455 | every indexed operation is compiled, and its compiled form has the name, place, flags and schema value of each declared parameter, and the media types, headers, statuses and security names declared |
| FrontendFaithful.EveryOperationCompiled | scripts/check-frontend-openapi.py:398-455 | every operation written in the document is compiled, under its own identifier, path and upper-case verb, and says what is declared of it |
| FrontendFaithful.NothingElseCompiled | scripts/check-frontend-openapi.py:398-455 | every compiled operation stands for one written in the document |
| FrontendFaithful.ParameterFaithful | scripts/check-frontend-openapi.py:383-395 | a compiled parameter has the declared name, location, style, explode and required flag, with the stated defaults, and a schema of the declared value |
| FrontendFaithful.RequiredExactly | scripts/check-frontend-openapi.py:342-395 | at every location the parameters compiled as required are exactly those that resolve to a declaration of `required: true` |
| FrontendFaithful.RequiredHeadersExactly | scripts/check-frontend-openapi.py:342-351 | the header names a compiled operation requires are exactly those `required_request_headers` reads off the document |
| FrontendFaithful.SecurityFaithful | scripts/check-frontend-openapi.py:354-358 | the compiled security names are, ascending and each once, exactly those some requirement in force names, the document's own where the operation has none |
| FrontendTotality.EntryCompiles | scripts/check-frontend-openapi.py:398-455 | a valid operation compiles if and only if it has no explicit null at `requestBody`, `content` or `headers`, and then its compiled form is regular and keeps its identifier |
| FrontendTotality.CompilesExactly | scripts/check-frontend-openapi.py:398-455 | every accepted document compiles without an undefined lookup if and only if it is free of such nulls |
| FrontendTotality.CompiledRegular | scripts/check-frontend-openapi.py:398-455 | one compiled operation per identifier, ascending; path parameters exactly the placeholders and all required; style and explode fixed by location; no content on 204; only problem+json from 400 up |
| FrontendOrder.OrderForgottenExactly | scripts/check-frontend-openapi.py:366-459 | an accepted, compilable document is accepted in every member order, and compiles to one text in all of them if and only if no response has two header names equal ignoring case |
| FrontendClash.MemberOrderShows | scripts/check-frontend-openapi.py:422-434 | an accepted, compilable document and a reordering of it that do not compile to the same text |
| Sorting.SortedStable | scripts/check-frontend-openapi.py:421-424 | sorting keeps elements of equal keys in the order they were listed |
| RuntimeArchive.RegisterCasefoldUniquePath | scripts/camouhost-runtime-package.py:208-212 | refuses exactly a path alike under folding to one registered before, so that registered paths stay distinct under folding |
| RuntimeArchive.RuntimeTreeFiles | scripts/camouhost-runtime-package.py:215-241 | succeeds exactly on trees of plain files and directories, unique under folding, that hold the required paths and keep within the bounds, and lists their files |
| RuntimeArchive.DeterministicArchive | scripts/camouhost-runtime-package.py:365-392 | writes the manifest and the files sorted by name with fixed metadata, whatever order they are given in |
| RuntimeArchive.HashPayload | scripts/camouhost-runtime-package.py:429-438 | however the reads fall, the digest is that of exactly the first `size` bytes, and a shorter payload is noticed |
| RuntimeArchive.VerifyStagedArchive | scripts/camouhost-runtime-package.py:395-447 | accepts exactly the archives whose members are the sorted inventory with matching metadata, sizes and digests and nothing trailing |
| RuntimeArchive.WriterVerifierAgree | scripts/camouhost-runtime-package.py:365-447 | what the writer writes is accepted against a manifest of the same files in any order, if and only if no file has the manifest's name |
| RuntimeArchive.StageArchive | scripts/camouhost-runtime-package.py:215-447 | listing a tree, writing it and verifying the result succeeds if and only if the tree is admissible, complete, and has only writable paths other than the manifest's, whatever the files hold |
| RuntimeTree.PackableExactly | scripts/camouhost-runtime-package.py:197-241 | a tree is packed if and only if it has no symbolic link or special entry, each file's path is relative, never steps up and is not the manifest's, no two are alike under folding, at most 500000 files of 4 GiB in all are there, and the five required ones among them |
| RuntimeTree.AcceptedHeaders | scripts/camouhost-runtime-package.py:405-428 | every member of an accepted archive is a regular file of mode 0644 without owner or time and no shorter than announced |
| RuntimeArchive.AcceptedIsInventory | scripts/camouhost-runtime-package.py:395-447 | an accepted archive decodes to exactly the sorted names of files and manifest, with fixed metadata and nothing after them; each payload is the file's own, or collides with it |
| RuntimePublication.StepKeepsInvariant | scripts/camouhost-runtime-package.py:456-499 | every step of every publisher keeps each publisher's claim on the two names true |
| RuntimePublication.StepKeepsPublished | scripts/camouhost-runtime-package.py:484-499 | no step replaces or removes a published archive or its manifest |
| RuntimePublication.CleanupIsOwn | scripts/camouhost-runtime-package.py:494-496 | the unlink removes only the caller's own manifest, never beside a published archive |
| RuntimePublication.PublicationSafe | scripts/camouhost-runtime-package.py:456-499 | over all interleavings with crashes and refused links: an existing archive name always has the same publisher's verified manifest beside it, and both stay for good |
| RuntimePublication.OneWinner | scripts/camouhost-runtime-package.py:484-499 | at most one publisher of a run reports success |
| RuntimePublication.UnreportedLinkBreaksSafety | scripts/camouhost-runtime-package.py:492-499 | a link that took effect but was reported as refused would strip a published archive of its manifest |
| RuntimePublication.OtherStepsRely | scripts/camouhost-runtime-package.py:456-499 | every step of another publisher is within what a publisher relies on between its own steps |
| RuntimePublication.Outputs.PackageRuntime | scripts/camouhost-runtime-package.py:450-499 | each outcome has its cause: published with both names holding its own verified bundle, an archive that was there first, a manifest that is there, an unverified bundle, a refused manifest link, or a refused archive link that leaves no manifest behind |
| RuntimePublication.Outputs.LinkArchiveTo | scripts/camouhost-runtime-package.py:492-499 | fails exactly on a refused link, and then the manifest name is free again unless the unlink is refused as well |
| DownloadCache.CacheSafe | scripts/camouhost-runtime-build-windows.py:134-196 | over every interleaving and from any cache, a job that returns has bytes of the expected digest, existing entries stay, new ones are filed under their own digest, and a well-formed cache stays so |
| DownloadCache.FiledForever | scripts/camouhost-runtime-build-windows.py:177-196 | a filed entry is never changed or removed |
| DownloadCache.PresentEntryDecides | scripts/camouhost-runtime-build-windows.py:150-158 | a job whose entry is there at its start never reads the network, and never returns if the entry is bad |
| DownloadCache.HitEqualsMiss | scripts/camouhost-runtime-build-windows.py:134-196 | any two jobs that return for one digest hand over the same bytes, or two byte strings that collide |
| DownloadCache.TamperingNeverReturned | scripts/camouhost-runtime-build-windows.py:150-196 | even while the cache is overwritten arbitrarily between any two steps, a job returns only bytes of the expected digest |
| DownloadCache.HitReturns | scripts/camouhost-runtime-build-windows.py:150-158 | a job that finds a good entry can return its bytes, without the network and leaving the cache alone |
| DownloadCache.MissReturns | scripts/camouhost-runtime-build-windows.py:160-196 | a job without an entry that is delivered good bytes, however cut into chunks, can return them and has them filed |
| DownloadCache.Disk.Receive | scripts/camouhost-runtime-build-windows.py:160-173 | the loop writes exactly the delivered bytes and digests exactly what it wrote, within the bound, or fails |
| DownloadCache.Disk.DownloadExact | scripts/camouhost-runtime-build-windows.py:134-196 | succeeds if and only if the digest is well-formed, the target unused, and the entry good where there is one or else the delivery unbroken, non-empty, within the bound and of the digest; then the target holds exactly the entry's or the delivered bytes and, with a cache, the entry is filed; a present entry rules out the network |
| DownloadCache.Disk.FileEntry | scripts/camouhost-runtime-build-windows.py:177-196 | filing succeeds exactly where no bad entry was there before, and always leaves an entry under the digest |
| ZipExtraction.Destination.ExtractExactZip | scripts/camouhost-runtime-build-windows.py:211-238 | the loop accepts exactly the archives all of whose members are admitted one after another, with at least one file, and builds their tree |
| ZipExtraction.PlacesApart | scripts/camouhost-runtime-build-windows.py:211-238 | no two members of an accepted archive land on one place, even under the file system's own folding of names |
| ZipExtraction.ExtractionSafe | scripts/camouhost-runtime-build-windows.py:199-238 | exactly one file per file member with its bytes, strictly below the destination; no two members alike under folding; no file on the way to another member; count and total within bounds |
| ZipExtraction.AcceptedExactly | scripts/camouhost-runtime-build-windows.py:211-238 | all members of an archive are admitted if and only if each is sound on its own, each fits in beside those before it, and the files keep within the bounds |
| ZipExtraction.AcceptedMembers | scripts/camouhost-runtime-build-windows.py:199-226 | no member of an accepted archive is encrypted, a link or special, and every name is plain: relative, without backslash, colon or NUL, no part stepping up, ending in a dot or space, or reserved by Windows |
| EvidenceReuse.LatestRuns | scripts/accepted-main-pr-reuse.py:136-142 | keeps for each required workflow the first run of highest id of exactly this head and event, and fails exactly where ids it must compare are missing |
| EvidenceReuse.JobsByName | scripts/accepted-main-pr-reuse.py:163 | the last job of a name stands for it |
| EvidenceReuse.StepsByName | scripts/accepted-main-pr-reuse.py:170 | the last step of a name stands for it |
| EvidenceReuse.LatestDecides | scripts/accepted-main-pr-reuse.py:143-148 | the checks on the collected map hold if and only if every required workflow's latest run succeeded |
| EvidenceReuse.CheckMerge | scripts/accepted-main-pr-reuse.py:102-128 | succeeds exactly for the squash merge of one closed pull request of this repository whose head has the same tree, and lets an exception through exactly where one that is not caught comes first |
| EvidenceReuse.CheckJobs | scripts/accepted-main-pr-reuse.py:157-172 | holds exactly when every critical job completed and every critical step in it succeeded |
| EvidenceReuse.PolicyCoherent | scripts/accepted-main-pr-reuse.py:24-73 | every gate's steps are looked for in a workflow that is itself required, so the results for coherent policies hold of the permanent one |
| EvidenceReuse.Prove | scripts/accepted-main-pr-reuse.py:100-173 | returns a head if and only if it is proved: exact merge, all required workflows passed, and, where asked for, every critical step executed; an exception escapes exactly where one that is not caught is met on the way |
| EvidenceReuse.ProveUnchangedPriorCamoufox | scripts/accepted-main-pr-reuse.py:207-236 | returns a commit if and only if it is the nearest ancestor with a full physical proof, it and all nearer ones differ from main only in unrelated paths, no nearer one is proved, and no exception ends the walk before |
| EvidenceReuse.NothingBehindRelated | scripts/accepted-main-pr-reuse.py:222-236 | evidence lies in front of the first related change, and nothing at or behind it has any influence |
| EvidenceReuse.Decide | scripts/accepted-main-pr-reuse.py:429-484 | announces reuse exactly on a push to main with a direct proof or, for the browser gate, a passing merge with nearest safe evidence; announces nothing exactly where an uncaught exception is met first |
| EvidenceReuse.NewerFailureRejects | scripts/accepted-main-pr-reuse.py:136-148 | adding a newer unsuccessful run of a required workflow anywhere in the list turns acceptance into rejection |
| EvidenceReuse.OrderForgotten | scripts/accepted-main-pr-reuse.py:136-173 | with distinct ids the decision does not depend on the order of the run list |
| EvidenceAudit.FixtureProved | scripts/accepted-main-pr-reuse.py:239-272 | under every coherent policy of at most a hundred workflows and jobs an untampered receipt proves its head |
| EvidenceAudit.WrongInventoryRejects | scripts/accepted-main-pr-reuse.py:275-308 | a broken, truncated or incomplete workflow inventory proves nothing, nor does one whose newest run of a required workflow is pending or failed |
| EvidenceAudit.WrongJobsReject | scripts/accepted-main-pr-reuse.py:275-308 | a missing, skipped or unfinished critical job or step in the latest run leaves the gate unproved |
| EvidenceAudit.WrongMergeRejects | scripts/accepted-main-pr-reuse.py:275-308 | one wrong answer in the receipt of the merge, whichever, and nothing is proved |
| EvidenceAudit.StrayIgnored | scripts/accepted-main-pr-reuse.py:136-148 | a run of another head, event or workflow has no say, wherever it stands and whatever its id and outcome |
| EvidenceAudit.HandedOn | scripts/accepted-main-pr-reuse.py:186-236 | evidence is handed on from one of at most sixteen ancestors, itself proved with every step, with no nearer proof and no runtime change since |
| RelationshipHistory.AdmittedExactly | migrations/d1/0028_profile_assignment_detach.sql:17-227 | a command is accepted if and only if the validators and table constraints admit it, so the guards inside its apply trigger never object; and its whole effect on every table |
| RelationshipHistory.OpenRowsAfter | scripts/check-step4-governed-writes.py:507-685 | after an ASSIGN its row is the profile's only open row, after a DETACH there is none |
| RelationshipHistory.UsedVersionRefused | scripts/check-step4-governed-writes.py:561-614 | of the commands naming one version of a profile at most one is ever accepted |
| RelationshipHistory.DirectWritesRefused | migrations/d1/0028_profile_assignment_detach.sql:101-169 | by plain INSERT, UPDATE and DELETE, history rows cannot be written other than by commands: consumed commands authorize nothing |
| RelationshipHistory.ReplaceReopens | migrations/d1/0028_profile_assignment_detach.sql:101-117 | an ASSIGN and the DETACH of its row having been accepted, INSERT OR REPLACE of the same row is admitted and reopens it |
| RelationshipHistory.OpenClientStays | migrations/d1/0028_profile_assignment_detach.sql:237-275 | a client of an open row can be neither archived nor merged away |
| RelationshipHistory.ExecKeeps | migrations/d1/0028_profile_assignment_detach.sql:17-275 | every accepted statement keeps the invariants, the history and the version count |
| RelationshipHistory.RunKeeps | scripts/check-step4-governed-writes.py:391-756 | over every run: one open row per profile at most, its client active; version equals the initial one plus accepted commands; rows are only added and closed, closed ones never change |
| RelationshipHistory.Database.CloseOpenRows | migrations/d1/0028_profile_assignment_detach.sql:180-184 | closing row by row under the update guard closes exactly the profile's open rows, or fails where a guard objects |
| RelationshipHistory.Database.InsertCommandRow | scripts/check-step4-governed-writes.py:304-339 | one command in place, its triggers included; a refusal leaves every table as it was |
| ClientHistory.ClientAdmittedExactly | migrations/d1/0014_client_contact_protection.sql:100-185 | a command on a client is accepted if and only if its validators admit it; it names the client's version, raises it by one, sets status, name or merge record, and leaves all other clients alone |
| ClientHistory.MergeGuardsAgree | migrations/d1/0015_client_merge_assignment_history.sql:97-204 | the guards inside the merge's apply trigger never refuse what its validators admitted |
| ClientHistory.UsedClientVersionRefused | migrations/d1/0028_profile_assignment_detach.sql:237-275 | of the renamings, archivings and mergers that name one version of a client at most one is ever accepted |
| ClientHistory.ClientsRunKeeps | migrations/d1/0015_client_merge_assignment_history.sql:47-204 | over every run: each client's version is its initial one plus the accepted commands on it, and a client once archived or merged away never changes again |
| RelationshipHistory.Database.Transact | scripts/check-step4-governed-writes.py:420-504 | a transaction takes effect as a whole, and which do is fixed by `MalformedUndone`, `BadRecordUndone` and the acceptance laws; after a refused statement every table, idempotency, audit and outbox included, is as before it |
| GovernedTransactions.MalformedUndone | scripts/check-step4-governed-writes.py:420-504 | a transaction that holds a statement no table takes is refused, and nothing of it stays |
| GovernedTransactions.BadRecordUndone | scripts/check-step4-governed-writes.py:423-504 | so is one with an idempotency, audit or outbox record that is inadmissible, there before, or inserted earlier in it |
| GovernedTransactions.EnvelopeTogether | scripts/check-step4-governed-writes.py:391-504 | a command and its three new records commit together exactly where the command is admitted, and otherwise none of them does |
| GovernedTransactions.CommandAcceptedExactly | migrations/d1/0028_profile_assignment_detach.sql:17-97 | an assignment command is accepted if and only if its owner, profile, version, time and row are right, stated of the rows themselves |
| GovernedTransactions.ReasonReported | migrations/d1/0028_profile_assignment_detach.sql:17-97 | the reason reported for a refusal holds of the tables, and no reason earlier in the migration's order does |
| GovernedTransactions.ChangeAcceptedExactly | migrations/d1/0028_profile_assignment_detach.sql:126-169 | in whatever state, a history row is changed exactly by closing it, at a time not before its opening, under a command whose version is not used up and, for a DETACH, that names this row and client |
| GovernedTransactions.AdditionAcceptedExactly | migrations/d1/0028_profile_assignment_detach.sql:101-117 | in whatever state, a history row is added exactly where an ASSIGN says everything it says, its client is active, its columns and references are right, and no row is in its way |
| GovernedTransactions.LifecycleAcceptedExactly | migrations/d1/0028_profile_assignment_detach.sql:237-275 | a client is renamed or archived exactly by an owner, at its current version, under a new command, and archived only while no open row names it |
| GovernedTransactions.MergeAcceptedExactly | migrations/d1/0015_client_merge_assignment_history.sql:47-204 | a client is merged exactly by an owner into another one, both active and at their current versions, the source with no open row |
| AgentSubmission.SubmissionSafe | scripts/camouhost-agent.py:347-445 | over every interleaving with an owner that may claim, fail, answer or die: published at most once and run at most once; after publication only 0, 1, 124 or 125; 0 means the script was run exactly once; 124 means the limit has passed |
| AgentSubmission.RefusedNeverRuns | scripts/camouhost-agent.py:306-371 | after 126 the job is never put in place and its script never run, at any later time |
| AgentSubmission.CodeIsReceipt | scripts/camouhost-agent.py:408-445 | 0 and 1 are exactly the readable receipts of this job with status ok and error |
| AgentSubmission.StepNearer | scripts/camouhost-agent.py:389-407 | with a limit every step of the submitter brings its end nearer and no step of the owner puts it off |
| AgentSubmission.PollingEnds | scripts/camouhost-agent.py:389-407 | with a limit no run has more submitter steps than a bound fixed by the limit |
| AgentSubmission.NeverStuck | scripts/camouhost-agent.py:347-445 | until it is over the submitter can always take a step |
| AgentSubmission.OwnerStepsRely | runtime/camouhost/real.py:1569-1661 | each step of the owner's claim, run and answer stays within what the submitter relies on |
| AgentSubmission.Session.Publish | scripts/camouhost-agent.py:306-385 | ends with 126 exactly where a preflight or owner check fails, and publishes only after the owner was rechecked behind a complete staged file |
| AgentSubmission.Session.Poll | scripts/camouhost-agent.py:389-407 | terminates with a limit; a result there at the start is found; 125 exactly where a check finds the owner gone, all checks before having found it; 124 only under a limit and with the owner still there |
| AgentSubmission.Session.Submit | scripts/camouhost-agent.py:347-445 | 126 exactly on a failed check; 0 (1) exactly when a result is found, can be read and has status ok (error); 124 only without a result under a limit; 125 only for a failed write, rename or sync, an unusable receipt, or an owner seen to be gone |
| AgentSubmission.Session.ReadResult | scripts/camouhost-agent.py:408-445 | a result that was found is answered by 0 or 1 exactly as its readable status is ok or error, and by 125 otherwise |

## Left out

- Text: messages, printing, argument parsing, self-checks, and which of several errors is worded how.
- Outside answers: the network, GitHub replies, git, processes, clocks and the path classifier are parameters, arbitrary unless said otherwise.
- Formats: SHA-256 is an abstract fold; gzip, TAR and ZIP are decoded entry lists; JSON numbers are reals, so 1 and 1.0 are one value.
- Unicode: case folding, lower-casing and stripping are parameters.
- `compare_proto`, `lint_openapi`, golden vectors, marker-scan gates: easy field-by-field comparisons and substring checks.
- CompatibilitySoundness.RequestSoundness: within the fragment where a `$ref` names a component, `items` occurs only under type "array", inline schemas carry no properties and no property is named `$ref`; every baseline array met from a request body has `items`, and each of its enum values that Python finds in the current enum is there itself.
- CompatibilitySoundness.ResponseSoundness: within the same fragment, for components the baseline has; baseline references met from responses resolve, and each current enum value that Python finds in the baseline enum is there itself.
- FrontendOrder.OrderForgottenExactly: the rendered text is the key-sorted IR tree, not its characters; IR schemas are compared in sorted form.
- Cache root checks (links, directory kinds) and pending files left by crashes.
- RuntimeArchive.StageArchive: the manifest's text is any rendering that parses back to its inventory; its other members are not modelled.
- RuntimePublication: two directories of staging are one step, since no other publisher sees them.
- EvidenceReuse.CheckMerge: an answer of another shape is an exception that the callers do or do not catch, without its exact kind; every address is answered alike when read twice.
- RelationshipHistory: contact points, grants and the contact, grant and generation commands that also raise versions are not tables here; contact-point guards appear as a flag on the commands they can abort; profile states other than DELETED are not told apart.
- RelationshipHistory.DirectWritesRefused: covers plain INSERT, UPDATE and DELETE on the history; INSERT OR REPLACE is shown to pass by it, and direct writes to the other tables are not modelled.
- AgentSubmission: choosing the owner among live sessions, log output, and scripts that write into their own inbox.
- AgentSubmission.Session.Submit: an unlimited wait is watched for a finite number of polls and then reported as still waiting.
