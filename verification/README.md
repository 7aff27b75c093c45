# Agent Verification Protocol: verified models

This project models the stateful and canonical cores of the Python reference implementation of
the Agent Verification Protocol and proves, in Dafny 4.11, what those cores promise. The
theorems hold for all inputs, all runs or all interleavings; where the code falls short of what
one would expect, a lemma gives the exact condition and another an input that meets it.

`dafny verify dfyconfig.toml` checks everything.

## How the models are built

* Expressions, recursion and frozen data classes are functions and datatypes.
* Loops are methods with invariants, proved equal to a specification function.
* Objects whose methods update fields are classes. Every method of such a class states that its
  new state and its answer are those of a pure `Step` function; the theorems about runs are
  proved for sequences of `Step`s, hence hold for the object.
* SHA-256, canonical JSON, JSON Schema, Python's `int()`, its calendar parsers, generators,
  seeds, reference resolvers and the contents of provenance are arbitrary functions passed as parameters. A theorem that
  needs different content to have different digests says so as a hypothesis.
* Backends are arbitrary: the browser under test, its observer, the Oracle runner, the evidence
  store, telemetry, the tool server, the wrapped subject adapter and the operating system may
  answer or raise an exception in any call the model makes of them; what is not modelled as a
  call (the environment's clock, event listeners) is listed under "Left out".
* A Python `str` is a sequence of code points, unpaired surrogates included.

| files | part of the repository |
|---|---|
| `Common`, `Ordering`, `Canonical` | shared: results, sort order, and the one construction behind every canonical list (identity, duplicate check, form, sort) |
| `Base64`, `DomString`, `Utf8`, `McpHeader`, `JsonPointer`, `DecimalValue` | codecs and lexical rules |
| `RelationalState`, `RelationalDiff`, `RelationalPatch`, `RelationalProtocol`, `RelationalResource` | the relational profile |
| `BrowserImage`, `BrowserHarness` | the browser profile |
| `Publication`, `ArtifactStore` | the content-addressed artifact store |
| `Lifecycle`, `Episodes`, `Verification`, `EpisodeRuntime` | Episodes and Oracle verification |
| `FaultScheduler`, `EnvironmentSession` | the in-memory environment session |
| `CapabilityGuard` | the capability policy and the guarded subject adapter |
| `FabricComposition`, `EnvironmentFabric` | fabric composition |
| `Placeholders`, `Scenario`, `ScenarioText` | scenario compilation and identity |
| `ToolCatalog` | the MCP tool catalog |

## What the proofs found

* The decimal grammar has no form for numbers strictly between -1 and 0, and its negative-zero
  check can never fire (`DecimalValue.RepresentableExactly` gives the exact gap).
* The empty JSON Pointer, which section 5 of RFC 6901 lets denote the whole document, is
  refused (`JsonPointer.WholeDocumentHasNoPointer`). A token selects an array element that the
  RFC does not let it select exactly when it is no index in the RFC's sense and Python's `int`
  reads it as a number from -n to n - 1 (`JsonPointer.MoreElementsExactly`); `/-1` is the last
  element (`JsonPointer.MinusOneIsLast`).
* A null in a nullable key column passes validation but has no difference with anything
  (`RelationalPatch.NullKeyIsValidWithoutDifference`); valid states have a difference exactly
  when neither holds a null in a key column (`RelationalPatch.ValidStatesDifferExactly`).
* Pending mutations are looked up by value: settling an equal copy commits the rows but leaves
  the resource's own mutation pending (`RelationalProtocol.EqualCopyLeavesOriginalPending`); a
  mutation becomes settled exactly through its own object
  (`RelationalProtocol.SettledExactlyThroughOwnObject`).
* `restore` replaces the state before it compares digests, so it can raise with the state
  already replaced, in exactly one case (`RelationalProtocol.RestoreRaisesAfterReplacing`), which
  rows built without key columns reach (`RelationalProtocol.UnboundRowsRaise`).
* An Oracle result whose own validity is not VALID makes the acceptance record raise, and the
  Episode stays VERIFYING; so does a runner that cannot describe itself when verification
  starts, a telemetry bridge that cannot, and a `TypeError` or `ValueError` from strict
  telemetry publication (`Verification.VerifyEnds` decides every case,
  `Verification.CompletesExactly` says when a verification completes, and
  `Verification.UnsoundResultsLeaveVerifying` is the first of these).
* Binding an Episode in the capability policy discards denials logged for it before
  (`CapabilityGuard.BindingForgets`, `CapabilityGuard.EarlyDenialIsForgotten`);
  `CapabilityGuard.EveryDenialIsLogged` says exactly what the log holds.
* Ready does not mean usable: a composite RELEASE leaves a fabric ready with no usable resource
  (`FabricComposition.ReadyDoesNotMeanUsable`), and so, but for the failing one, does a release
  that fails (`FabricComposition.FailedReleaseLeavesReady`) and, for one resource, its own
  release by a caller (`FabricComposition.DirectReleaseLeavesReady`). A resource of a ready
  fabric is usable exactly when its release fails or no call, direct calls included, asked it
  to release (`FabricComposition.ReadyMeansUsableExactly`).
* A composite operation can raise (`FabricComposition.CompositeRaisesExactly`) when earlier
  resources have already changed (`FabricComposition.CompositeRaisesMidway`).
* Substitution is a single pass, so nested text can create a new placeholder
  (`ScenarioText.NestedTextLeavesAPlaceholder`); a template in which any text leaves one is
  never compiled (`ScenarioText.LeftoverIsRefused`).
* Placeholders in member names are neither substituted nor refused: apart from provenance,
  bindings and digest, the member names of a compiled document are exactly those of the
  template and of parameter values that stand alone (`ScenarioText.MemberNamesAreNotChecked`);
  a template with an extension named `${a}` compiles (`ScenarioText.PlaceholderNameCompiles`).

## Model

| member | source | states |
|---|---|---|
| Base64.UnpackPack | src/avp_ref/tck_adapter/browser_harness.py:92-108 | unpacking the sextets of any octets gives the octets back |
| Base64.PackUnpack | src/avp_ref/tck_adapter/browser_harness.py:124-143 | packing the octets of sextets gives the sextets back exactly when no group is a single sextet and the unused bits of the last are zero |
| Base64.StripEncode | src/avp_ref/tck_adapter/browser_harness.py:106-108 | stripping the padding of an encoding leaves exactly the packed characters |
| DomString.EncodeCodeUnits | src/avp_ref/tck_adapter/browser_harness.py:92-108 | encodes exactly the lists of 16-bit units and names the first value that is not one |
| DomString.DecodeEncoded | src/avp_ref/tck_adapter/browser_harness.py:92-145 | decoding what was encoded returns every unit list, unpaired surrogates included |
| DomString.EncodeDecoded | src/avp_ref/tck_adapter/browser_harness.py:111-145 | every accepted text is the encoding of what it decodes to, so there is one text per value |
| DomString.AcceptedExactly | src/avp_ref/tck_adapter/browser_harness.py:111-145 | a text is accepted exactly when its alphabet, group lengths, zero pad bits and even octet count are right |
| BinaryValue.SameLanguage | src/avp_ref/relational.py:724-734 | the lenient decode and re-encode check accepts exactly canonical unpadded base64url |
| BinaryValue.DomStringsAreEvenBinaries | src/avp_ref/relational.py:724-734 | the browser codec accepts exactly the relational binaries with an even number of octets |
| Utf8.DecodeEncode | src/avp_ref/mcp/transport.py:18-41 | no text without surrogates is lost in its UTF-8 form |
| McpHeader.EncodableIffScalar | src/avp_ref/mcp/transport.py:18-41 | encoding fails exactly on texts with a surrogate |
| McpHeader.OutputIsLegal | src/avp_ref/mcp/transport.py:18-41 | the output is tab or printable ASCII without edge blanks, and has the sentinel shape exactly when it was encoded |
| McpHeader.DecoderRecovers | src/avp_ref/mcp/transport.py:18-41 | a receiver recovers every value |
| McpHeader.EncodingIsInjective | src/avp_ref/mcp/transport.py:18-41 | different values never give the same header |
| JsonPointer.Resolve | src/avp_ref/oracle_runner/package.py:55-76 | the loop walks the document by the unescaped tokens and refuses a pointer without a leading slash |
| JsonPointer.UnescapeEscape | src/avp_ref/oracle_runner/package.py:62-64 | unescaping in the source's order undoes the escaping of RFC 6901 for every key |
| JsonPointer.TokensOfPointer | src/avp_ref/oracle_runner/package.py:55-76 | splitting and unescaping the pointer built from any keys recovers exactly those keys |
| JsonPointer.PointerFollowsKeys | src/avp_ref/oracle_runner/package.py:55-76 | the pointer of a key path resolves to the value at that path |
| JsonPointer.WholeDocumentHasNoPointer | src/avp_ref/oracle_runner/package.py:55-57 | in every document the empty pointer, and no other built pointer, is refused for its first character, although no keys at all lead to the whole document |
| JsonPointer.ElementsExactly | src/avp_ref/oracle_runner/package.py:65-75 | a token selects an array element exactly when `int` reads it as a number from -n to n - 1, counted from the end if negative |
| JsonPointer.MoreElementsExactly | src/avp_ref/oracle_runner/package.py:65-75 | every element RFC 6901 selects is found, and which tokens select one although the RFC does not let them |
| JsonPointer.MinusOneIsLast | src/avp_ref/oracle_runner/package.py:65-75 | `/-1` selects the last element, which the RFC does not allow |
| JsonPointer.SwappedOrderFailsOnTildeOne | src/avp_ref/oracle_runner/package.py:62-64 | the other order of replacements is wrong exactly for keys containing `~1` |
| DecimalValue.AcceptedExactly | src/avp_ref/relational.py:700-721 | a literal is accepted exactly when the grammar, the scale and the bound on its magnitude hold, although digits are counted by a max/subtract formula |
| DecimalValue.LiteralIsUnique | src/avp_ref/relational.py:700-721 | accepted literals of one column with the same value are the same literal |
| DecimalValue.RepresentableExactly | src/avp_ref/relational.py:700-721 | which multiples of the scale's unit have a literal: all in range except those strictly between -1 and 0 |
| Ordering.SortIgnoresOrder | src/avp_ref/relational.py:627-632 | sorting duplicate-free items by key does not depend on the order of arrival |
| Ordering.SortedListUnique | src/avp_ref/relational.py:627-632 | two strictly sorted lists with the same items are the same list |
| Canonical.Canonicalize | src/avp_ref/tck_adapter/browser_harness.py:283-303 | the loop with a seen-set and a final sort computes the canonical list, with the first error the walk meets |
| Canonical.ScanCollects | src/avp_ref/tck_adapter/browser_harness.py:283-303 | the walk succeeds exactly when every item passes and no identity repeats |
| Canonical.IgnoresOrder | src/avp_ref/tck_adapter/browser_harness.py:283-303 | lists whose items give the same verdicts in any order have one canonical form |
| Canonical.Stable | src/avp_ref/tck_adapter/browser_harness.py:283-303 | canonicalising a canonical list changes nothing |
| RelationalState.ValidateState | src/avp_ref/relational.py:598-633 | the loops over relations and rows compute the validated state or its first error |
| RelationalState.StateIgnoresOrder | src/avp_ref/relational.py:598-633 | states with the same rows in any order are equally valid and have one canonical form |
| RelationalState.StateIsStable | src/avp_ref/relational.py:598-633 | validating a validated state returns it unchanged |
| RelationalState.RelationKeepsRows | src/avp_ref/relational.py:607-632 | the validated rows are the bound forms of the given rows, each as often as it came |
| RelationalState.CanonicalMeansSorted | src/avp_ref/relational.py:607-632 | canonical rows have strictly ascending key bytes and are their own bound form |
| RelationalState.ReplaceKeepsCanonical | src/avp_ref/relational.py:858-887 | replacing one relation by canonical rows keeps the state canonical |
| RelationalDiff.SortedKeys | src/avp_ref/relational.py:1012-1012 | lists a set of keys in strictly ascending order |
| RelationalDiff.DiffOneRelation | src/avp_ref/relational.py:1004-1050 | the loop over the united keys computes the change list of one relation or the key error |
| RelationalDiff.Diff | src/avp_ref/relational.py:983-1056 | computes the change list of two images, refusing another manifest or an incomplete surface |
| RelationalDiff.IndexOfCanonical | src/avp_ref/relational.py:1004-1011 | indexing canonical rows by key and listing the index gives the rows back |
| RelationalDiff.DiffSucceedsExactly | src/avp_ref/relational.py:983-1056 | a difference exists exactly when both images are of the manifest, cover it and hold no null or missing key column |
| RelationalPatch.DiffRebuilds | src/avp_ref/relational.py:983-1056 | applying the difference of two relations to the first, each change finding the row it describes, rebuilds the second row for row |
| RelationalPatch.DiffIsSorted | src/avp_ref/relational.py:983-1056 | a relation's changes have strictly ascending keys, one change per key |
| RelationalPatch.DiffEmptyIffEqual | src/avp_ref/relational.py:983-1056 | there is no change exactly when the rows are equal |
| RelationalPatch.DiffInverts | src/avp_ref/relational.py:983-1056 | the difference the other way round is the inverse patch of one relation |
| RelationalPatch.ImageDiffRebuilds | src/avp_ref/relational.py:983-1056 | for whole images the changes are strictly sorted by relation and key, each relation's share rebuilds its rows, and there is none exactly when the images agree |
| RelationalPatch.ImageDiffApplies | src/avp_ref/relational.py:983-1056 | applying the change list of two states to the first, change by change, yields the second |
| RelationalPatch.ImageDiffInverts | src/avp_ref/relational.py:983-1056 | swapping the images gives the inverse patch, change for change |
| RelationalPatch.ValidStatesDifferExactly | src/avp_ref/relational.py:983-1056 | two valid states have a difference exactly when neither has a null in a key column, and the null is the error otherwise |
| RelationalPatch.NullKeyIsValidWithoutDifference | src/avp_ref/relational.py:786-799 | a row with a null in a nullable key column validates, and its state has no difference with any state |
| RelationalProtocol.DeclaredProjectionsProject | src/avp_ref/relational.py:820-856 | under a manifest with integrity a projection fails exactly for an undeclared id and lists its relations in strictly ascending order |
| RelationalProtocol.ConfigureEstablishes | src/avp_ref/relational.py:516-562 | a resource that is constructed starts in the invariant |
| RelationalProtocol.StepKeepsInv | src/avp_ref/relational.py:858-951 | every call, successful or refused, keeps the committed state canonical and every proposal fitting |
| RelationalProtocol.RunKeepsInv | src/avp_ref/relational.py:858-951 | the committed state is canonical and valid on every run |
| RelationalProtocol.NoWriterNoChange | src/avp_ref/relational.py:858-934 | a run without a committing settle, reset, restore or privileged replacement leaves the committed state as it is |
| RelationalProtocol.QuiescedStaysPut | src/avp_ref/relational.py:858-903 | a quiesced and settled resource keeps its state through anything but reset and restore |
| RelationalProtocol.FinalProjectionIsFinal | src/avp_ref/relational.py:897-903 | after quiescing and settling, one projection id always yields one document until reset or restore |
| RelationalProtocol.RestoreReturns | src/avp_ref/relational.py:905-944 | restoring an own snapshot after any run returns STATE_EQUIVALENT and exactly the rows of its moment |
| RelationalProtocol.ResetAlwaysSucceeds | src/avp_ref/relational.py:916-924 | the identity error of reset cannot occur on any run |
| RelationalProtocol.RestoreRaisesAfterReplacing | src/avp_ref/relational.py:926-944 | restore raises with the state already replaced exactly for an accepted snapshot with a row not bound to a key; any snapshot not accepted is refused with nothing changed |
| RelationalProtocol.UnboundRowsRaise | src/avp_ref/relational.py:926-934 | for every valid state with a row, restoring its rows as objects without key columns does so |
| RelationalProtocol.EquivalentMeansCanonical | src/avp_ref/relational.py:926-934 | STATE_EQUIVALENT is reported exactly when the snapshot's document is that of the canonical image in place |
| RelationalProtocol.SettledExactlyThroughOwnObject | src/avp_ref/relational.py:875-903 | on every run a mutation becomes settled exactly through its own object, whatever copies are settled, and keeps the final projection refused until then |
| RelationalProtocol.SnapshotNumbersGrow | src/avp_ref/relational.py:905-914 | a later snapshot never has the number of an earlier one |
| RelationalResource.InMemoryRelationalResource.BeginSubjectMutation | src/avp_ref/relational.py:858-873 | validates the candidate state in place and appends a new pending mutation, or refuses |
| RelationalResource.InMemoryRelationalResource.SettleSubjectMutation | src/avp_ref/relational.py:875-887 | looks the mutation up by value, commits its rows if asked and marks the caller's object only |
| RelationalResource.InMemoryRelationalResource.FinalProjectionOf | src/avp_ref/relational.py:897-903 | answers the projection loop's document at a settled quiescing boundary and refuses otherwise |
| RelationalResource.InMemoryRelationalResource.RestoreSnapshot | src/avp_ref/relational.py:926-934 | checks owner, manifest and rows, replaces the state, then compares digests |
| RelationalResource.InMemoryRelationalResource.ResetToBaseline | src/avp_ref/relational.py:916-924 | puts the baseline back, then compares digests |
| RelationalResource.InMemoryRelationalResource.ReplaceRelationsAtomically | src/avp_ref/tck_adapter/reference_relational_harness.py:73-100 | replaces several known relations at once after validating them together |
| BrowserImage.CanonicalizeStateImage | src/avp_ref/tck_adapter/browser_harness.py:386-471 | computes the canonical image or the first refusal |
| BrowserImage.CanonicalizeManifest | src/avp_ref/tck_adapter/browser_harness.py:185-266 | verifies each selection name by name, then looks for duplicates, and encodes only after every other check, with the first refusal in that order |
| BrowserImage.NamesExactly | src/avp_ref/tck_adapter/browser_harness.py:226-262 | those checks accept exactly the selections of distinct, accepted names with a UTF-8 form, and sort them by it |
| BrowserImage.CookieOrder | src/avp_ref/tck_adapter/browser_harness.py:377-383 | the four-part cookie identity is totally ordered |
| BrowserImage.ManifestIgnoresOrder | src/avp_ref/tck_adapter/browser_harness.py:185-266 | a manifest's canonical form does not depend on selection order |
| BrowserImage.ImageIgnoresOrder | src/avp_ref/tck_adapter/browser_harness.py:386-471 | any reordering of cookies, origins, entries and selections has the same canonical image |
| BrowserImage.ImageKeepsContents | src/avp_ref/tck_adapter/browser_harness.py:386-471 | canonicalising loses and adds no cookie, origin or entry |
| BrowserImage.ImageIsStable | src/avp_ref/tck_adapter/browser_harness.py:386-471 | canonicalising a canonical image changes nothing, under the manifest or its canonical form |
| BrowserImage.SameFormIffSameContents | src/avp_ref/tck_adapter/browser_harness.py:386-471 | two accepted images have one canonical form exactly when they have the same contents |
| BrowserImage.ImageIsOrdered | src/avp_ref/tck_adapter/browser_harness.py:283-471 | the output lists every selected origin exactly once in UTF-8 order, storage in code-unit order and cookies in identity order |
| BrowserHarness.WitnessIsForever | src/avp_ref/tck_adapter/browser_harness.py:652-692 | a ledger that once gives a positive witness never changes again |
| BrowserHarness.LedgerIsHistory | src/avp_ref/tck_adapter/browser_harness.py:652-692 | the ledger's tables are exactly the history of successful calls |
| BrowserHarness.WitnessMeansSettled | src/avp_ref/tck_adapter/browser_harness.py:684-692 | a new ledger gives a witness exactly when admission was closed and everything accepted was marked terminal |
| BrowserHarness.BrowserSettlementLedger.RequirePositiveWitness | src/avp_ref/tck_adapter/browser_harness.py:684-692 | refuses while admission is open or accepted work is unresolved |
| BrowserHarness.TargetsAreWriteOnce | src/avp_ref/tck_adapter/browser_harness.py:836-858 | a recorded snapshot target never changes |
| BrowserHarness.RestoreReprojectsFirstSnapshot | src/avp_ref/tck_adapter/browser_harness.py:881-916 | a successful restore ends in the digest recorded when the id was first verified, for the same handle, against any browser and observer |
| BrowserHarness.RestoreAgreesWithEverySnapshot | src/avp_ref/tck_adapter/browser_harness.py:836-916 | every verification of the restored id, before or after, was of that handle and recorded that digest |
| BrowserHarness.RestoredContentsAreTheSnapshots | src/avp_ref/tck_adapter/browser_harness.py:881-916 | with distinguishing digests the restored browser holds the cookies, origins and entries of that snapshot |
| BrowserHarness.ResetReprojectsBaseline | src/avp_ref/tck_adapter/browser_harness.py:860-879 | a successful reset ends in the baseline digest, hence contents |
| BrowserHarness.BrowserConformanceHarness.VerifiedSnapshot | src/avp_ref/tck_adapter/browser_harness.py:836-858 | records a target only for an owned snapshot with the independently projected digest |
| BrowserHarness.BrowserConformanceHarness.VerifiedReset | src/avp_ref/tck_adapter/browser_harness.py:860-879 | projects before and after and compares with the baseline |
| BrowserHarness.BrowserConformanceHarness.VerifiedRestore | src/avp_ref/tck_adapter/browser_harness.py:881-916 | checks ownership twice, projects before, asks for eligibility, restores, projects after and compares |
| Publication.StepKeeps | src/avp_ref/artifacts/filesystem.py:61-152 | whatever one process does next, the invariant holds and nothing published is altered |
| Publication.PublishedIsForever | src/avp_ref/artifacts/filesystem.py:61-152 | under any interleaving with failures and crashes a path goes at most once from absent to one complete content that hashes to it, keeps its inode, and no step writes that inode again |
| Publication.ReturnedRefsHold | src/avp_ref/artifacts/filesystem.py:96-111 | a returned reference names an object of its digest and size forever |
| Publication.ReadsAgree | src/avp_ref/artifacts/filesystem.py:127-217 | a successful reader reads a prefix of the object its reference names, all of it hashing to the digest |
| Publication.ComparisonFailsExactly | src/avp_ref/artifacts/filesystem.py:174-217 | on every run a comparison at end of file fails exactly if the object's size differs from the stream's, or from the reader's reference |
| Publication.PublishersNeverMismatch | src/avp_ref/artifacts/filesystem.py:96-111 | with a distinguishing hash no publisher's verification ever fails, on any run |
| Publication.ReadersOfHeldRefsSucceed | src/avp_ref/artifacts/filesystem.py:127-152 | the comparison never refuses a reader whose reference holds |
| Publication.RefNamesTheStream | src/avp_ref/artifacts/filesystem.py:76-111 | a returned reference has the digest and the size of exactly the octets streamed |
| Publication.ObjectsHoldTheStream | src/avp_ref/artifacts/filesystem.py:61-125 | with a distinguishing hash the object holds exactly the publisher's stream, whoever published first |
| Publication.TempFilesAreTended | src/avp_ref/artifacts/filesystem.py:116-125 | every temporary file is older than the run or some process answers for it |
| ArtifactStore.LocalFilesystemArtifactStore.VerifyPath | src/avp_ref/artifacts/filesystem.py:174-217 | the reading loop accepts exactly an object of that digest and size, and is a run of the protocol |
| ArtifactStore.LocalFilesystemArtifactStore.PutStream | src/avp_ref/artifacts/filesystem.py:61-125 | when it succeeds, what it publishes, that nothing else changes and no temporary file remains, and that the execution is a run of the protocol |
| Lifecycle.RelationFacts | src/avp_ref/runtime/state.py:31-97 | terminal states are exactly those without successor, and every legal step but pausing and resuming strictly lowers the rank |
| Episodes.RunKeepsHistory | src/avp_ref/runtime/episode.py:101-143 | records are a legal path from CREATED numbered 1..n, event numbers are positions, and the timeline shows the records |
| Episodes.RefusedCallsLeaveNoTrace | src/avp_ref/runtime/episode.py:83-143 | a run ends in the same Episode, records and events included, as the run of its calls that were not refused |
| Episodes.TerminalAbsorbs | src/avp_ref/runtime/state.py:31-116 | in a terminal state no transition succeeds again |
| Episodes.AcceptanceIsWrittenOnce | src/avp_ref/runtime/episode.py:83-243 | the acceptance record and the replay source are never rewritten |
| Episodes.RunsAreShort | src/avp_ref/runtime/state.py:40-97 | a run makes at most six transitions plus two for each pause |
| Verification.VerifyEnds | src/avp_ref/runtime/engine.py:368-577 | for every behaviour of runner, store and telemetry, their descriptions of themselves included, the Episode ends as the decision table says: its state, validity, detail, verdict and acceptance record |
| Verification.InvalidateEnds | src/avp_ref/runtime/engine.py:799-843 | invalidation ends INVALID and INCONCLUSIVE with a record exactly when the request exists and the Oracle failed or results had been accepted, or gives up on unsound results |
| Verification.ItemsPublished | src/avp_ref/runtime/engine.py:685-720 | Oracle evidence is published exactly when every identifier is new and well formed and every store call works |
| Verification.Cites | src/avp_ref/runtime/engine.py:484-494 | an accepted result cites its own evidence once each and the execution record |
| Verification.MintedIdsFit | src/avp_ref/runtime/engine.py:165-165 | the evidence identifiers derived from an identifier the runtime makes are always well formed |
| Verification.CompletesExactly | src/avp_ref/runtime/engine.py:368-577 | exactly when a verification completes, over every behaviour of runner, store and telemetry |
| Verification.UnsoundResultsLeaveVerifying | src/avp_ref/runtime/engine.py:799-843 | where everything else would let it complete, one result that is not VALID leaves the Episode VERIFYING without a record |
| EpisodeRuntime.LiveEpisode.TransitionTo | src/avp_ref/runtime/episode.py:101-143 | applies the relation, the freeze, the record and the event in that order, in place |
| EpisodeRuntime.LiveEpisode.FreezeOracleEvaluation | src/avp_ref/runtime/episode.py:145-243 | finds the event chain and makes the record at most once, or raises without making it |
| EpisodeRuntime.LiveEpisode.BindReplaySource | src/avp_ref/runtime/episode.py:83-99 | binds once, before any transition, never to itself |
| EpisodeRuntime.EpisodeEngine.PublishOracleEvidence | src/avp_ref/runtime/engine.py:685-720 | publishes item by item into the registry and stops at the first problem |
| EpisodeRuntime.EpisodeEngine.InvalidateEvaluation | src/avp_ref/runtime/engine.py:799-843 | marks, reports, transitions and finalises telemetry leniently, in place |
| EpisodeRuntime.EpisodeEngine.VerifyEpisode | src/avp_ref/runtime/engine.py:368-577 | runs the whole outcome tree in place |
| FaultScheduler.RunKeepsRules | src/avp_ref/environment/in_memory.py:269-283 | on every run every stored rule has seen fewer calls than its occurrence |
| FaultScheduler.StepKeepsRules | src/avp_ref/environment/in_memory.py:144-283 | a call fires at most one rule, which was listed and is removed |
| FaultScheduler.FiresAtMostOncePerInjection | src/avp_ref/environment/in_memory.py:144-283 | on every run a fault fires at most once for each time it was injected |
| FaultScheduler.FiresAtMostOnce | src/avp_ref/environment/in_memory.py:144-283 | with fresh identifiers no fault fires twice on any run |
| FaultScheduler.FaultsStayOutsideTheWorld | src/avp_ref/environment/in_memory.py:144-157 | between resets and restores the world and its clock are those of exactly the calls that were neither denied nor faulted, in order |
| FaultScheduler.InjectedFaultWindow | src/avp_ref/environment/in_memory.py:144-283 | a fault of occurrence n behind k rules of its tool fires no earlier than the n-th and no later than the (n+k)-th permitted call |
| FaultScheduler.RestoreReturns | src/avp_ref/environment/in_memory.py:188-209 | a snapshot restores the state and clock of its moment after any operations |
| FaultScheduler.AcceptedExactlyIfHandedOut | src/avp_ref/environment/in_memory.py:188-249 | after any run exactly the references the session handed out are accepted; others are refused with nothing changed |
| FaultScheduler.ResetReturns | src/avp_ref/environment/in_memory.py:121-129 | after any run a reset returns the initial state and clock, finds the recorded digest and clears every fault |
| EnvironmentSession.InMemoryCommerceSession.ApplyFaultIfDue | src/avp_ref/environment/in_memory.py:269-283 | the loop counts in insertion order until one rule is due, removes it and stops |
| EnvironmentSession.InMemoryCommerceSession.ExecuteTool | src/avp_ref/environment/in_memory.py:144-157 | checks permission, then faults, then calls the world |
| CapabilityGuard.ToolNameIsLastSegment | src/avp_ref/security/capability_policy.py:99-105 | the compiled tool name is what follows the last slash |
| CapabilityGuard.TablesStayCoupled | src/avp_ref/security/subject_adapter.py:102-144 | bound Episodes are exactly those of live bound handles, one each, with the compiled Scenario |
| CapabilityGuard.ForwardedExactly | src/avp_ref/security/subject_adapter.py:51-138 | a call reaches the wrapped gateway exactly when its Episode is bound at that moment and the Scenario gives the Subject the tool; otherwise it is denied |
| CapabilityGuard.ForwardedToolsAreListed | src/avp_ref/security/capability_policy.py:31-54 | a forwarded tool was listed for the Subject as an MCP capability |
| CapabilityGuard.ReleaseRevokes | src/avp_ref/security/subject_adapter.py:131-138 | release revokes at once even when the wrapped adapter raises |
| CapabilityGuard.EveryDenialIsLogged | src/avp_ref/security/capability_policy.py:31-96 | an Episode's log holds exactly its denials since it was last bound or released |
| CapabilityGuard.BindingForgets | src/avp_ref/security/capability_policy.py:31-45 | after any run, an Episode that becomes bound has an empty log |
| CapabilityGuard.EarlyDenialIsForgotten | src/avp_ref/security/capability_policy.py:31-96 | a denied call, logged, then binding: the log is empty |
| CapabilityGuard.CapabilityGuardPolicy.AuthorizeCall | src/avp_ref/security/capability_policy.py:47-96 | denies by default and appends every denial |
| CapabilityGuard.CapabilityGuardedSubjectAdapter.InvokeSubject | src/avp_ref/security/subject_adapter.py:113-129 | binds a handle to one Episode on first use and refuses another |
| CapabilityGuard.CapabilityGuardedSubjectAdapter.ReleaseHandle | src/avp_ref/security/subject_adapter.py:131-138 | drops policy and handle whether or not the wrapped adapter raises |
| FabricComposition.RunKeepsReleased | src/avp_ref/fabric/runtime.py:83-418 | on every run a released resource is frozen, a failing release never takes effect, a released fabric has every REQUIRED resource released, and numbers never go back |
| FabricComposition.ReleasedExactlyIf | src/avp_ref/fabric/runtime.py:333-369 | a release attempt succeeds exactly when every REQUIRED resource is released or can be |
| FabricComposition.OperationNumbersIncrease | src/avp_ref/fabric/runtime.py:323-345 | every completed operation has a number above all earlier ones |
| FabricComposition.StuckResourceKeepsFabric | src/avp_ref/fabric/runtime.py:120-141 | a REQUIRED resource whose release fails keeps the fabric unreleased forever |
| FabricComposition.IncompatibleNeverReady | src/avp_ref/fabric/runtime.py:249-259 | a fabric without its required capabilities never becomes ready on any run, and a resource no caller uses directly is never provisioned or operated on |
| FabricComposition.RestoreReportsMinimum | src/avp_ref/fabric/runtime.py:304-321 | a successful restore reports the exact minimum fidelity over REQUIRED resources |
| FabricComposition.CompositeRaisesExactly | src/avp_ref/fabric/runtime.py:273-331 | when a composite operation raises, and that it then counts as no operation |
| FabricComposition.CompositeReaches | src/avp_ref/fabric/runtime.py:273-300 | what a composite operation does to each resource, whether or not it raises: those before the one that stops it take part, the others stay as they were |
| FabricComposition.CompositeRaisesMidway | src/avp_ref/fabric/runtime.py:273-300 | a composite operation that raises keeps the effect on a usable resource before the one that stops it |
| FabricComposition.ReadyDoesNotMeanUsable | src/avp_ref/fabric/runtime.py:273-331 | a composite RELEASE leaves the fabric ready with every resource released |
| FabricComposition.FailedReleaseLeavesReady | src/avp_ref/fabric/runtime.py:333-369 | a release that fails releases the others and leaves the fabric ready |
| FabricComposition.DirectReleaseLeavesReady | src/avp_ref/fabric/runtime.py:120-141 | a caller's release of one resource leaves the fabric ready and the resource unusable |
| FabricComposition.ReadyMeansUsableExactly | src/avp_ref/fabric/runtime.py:83-369 | on every run that ends ready a resource is usable exactly when its release fails or no direct release, fabric release or composite RELEASE reached it |
| FabricComposition.ReadyMeansUsableBeforeRelease | src/avp_ref/fabric/runtime.py:83-331 | without any release, direct ones included, ready means that every resource is usable |
| EnvironmentFabric.InMemoryFabricResource.ExecuteOperation | src/avp_ref/fabric/runtime.py:143-189 | one resource's operation in place, with its failures |
| EnvironmentFabric.EnvironmentFabric.UseResource | src/avp_ref/fabric/runtime.py:83-189 | a caller's direct use of a resource the fabric exposes |
| EnvironmentFabric.EnvironmentFabric.ProvisionFabric | src/avp_ref/fabric/runtime.py:249-259 | checks compatibility first, then provisions in order |
| EnvironmentFabric.EnvironmentFabric.ExecuteComposite | src/avp_ref/fabric/runtime.py:273-331 | the loop over resources, the status and the aggregate fidelity |
| EnvironmentFabric.EnvironmentFabric.Release | src/avp_ref/fabric/runtime.py:333-369 | releases every resource and the fabric unless a REQUIRED one fails |
| Placeholders.FoundIffPresent | src/avp_ref/scenario/compiler.py:29-29 | scanning finds a placeholder exactly if one starts somewhere in the text |
| Scenario.ResolveInOrder | src/avp_ref/scenario/compiler.py:156-196 | the loop over sorted names computes the values or the first failing parameter |
| Scenario.ParametersAreLocal | src/avp_ref/scenario/compiler.py:132-196 | a parameter's value depends only on the data seed, its own name, declaration and override |
| Scenario.SubstituteLocal | src/avp_ref/scenario/compiler.py:245-275 | substitution depends on nothing but the parameters mentioned |
| Scenario.CollectsExactly | src/avp_ref/scenario/compiler.py:295-305 | exactly the references in value position are collected, each with its path |
| Scenario.ReferencesAreBound | src/avp_ref/scenario/compiler.py:277-293 | every reference of a compiled document is bound under its own path and text |
| Scenario.IdentityIsDeterministic | src/avp_ref/scenario/compiler.py:58-117 | compilations that agree on the retained template and the parameters it mentions have one instance digest |
| Scenario.ProvenanceIsNotIdentity | src/avp_ref/scenario/identity.py:23-77 | a compiled document verifies, whatever is written into its provenance |
| Scenario.TamperingIsDetected | src/avp_ref/scenario/identity.py:57-77 | a document that verifies against a compiled digest differs at most in provenance |
| Scenario.IdentityCheckCannotFail | src/avp_ref/scenario/compiler.py:108-117 | the compiler's own identity check never fires |
| Scenario.CompiledIsClosed | src/avp_ref/scenario/compiler.py:307-355 | a compiled document holds no placeholder in a template value and shows the Subject nothing confidential at any depth |
| ScenarioText.LeftoverExactly | src/avp_ref/scenario/compiler.py:245-275 | substitution leaves a placeholder in a document exactly when some text of it leaves one |
| ScenarioText.LeftoverIsRefused | src/avp_ref/scenario/compiler.py:307-355 | a template with such a text is never compiled, and that is the reason given exactly when the earlier checks pass |
| ScenarioText.NestedTextLeavesAPlaceholder | src/avp_ref/scenario/compiler.py:257-266 | nested text becomes a new placeholder in the single pass |
| ScenarioText.NestedTextIsRefused | src/avp_ref/scenario/compiler.py:58-117 | no template with that text in any value is compiled |
| ScenarioText.PlainInterpolationCloses | src/avp_ref/scenario/compiler.py:257-266 | text and scalars without a dollar sign are closed by the single pass |
| ScenarioText.SubstituteNames | src/avp_ref/scenario/compiler.py:245-266 | substitution touches no member name and brings in exactly those of parameter values that stand alone |
| ScenarioText.CompiledBody | src/avp_ref/scenario/compiler.py:58-117 | apart from the members the compiler drops or writes, a compiled document is its template substituted |
| ScenarioText.MemberNamesAreNotChecked | src/avp_ref/scenario/compiler.py:245-355 | apart from provenance, bindings and digest, the member names of a compiled document are exactly those of the template and of parameter values that stand alone |
| ScenarioText.PlainTemplateCompiles | src/avp_ref/scenario/compiler.py:58-117 | every template without parameters, references and classifications that the schemas accept compiles to itself with kind, provenance and digest added |
| ScenarioText.PlaceholderNameCompiles | src/avp_ref/scenario/compiler.py:58-117 | a template with every required member and an extension named by a placeholder compiles and keeps the name, wherever the schemas accept it |
| ToolCatalog.ListAllTools | src/avp_ref/mcp/gateway.py:249-302 | the paging loop computes the catalog, or the first protocol error or transport exception |
| ToolCatalog.TraversalIsBounded | src/avp_ref/mcp/gateway.py:249-302 | at most the permitted requests and tools, no cursor sent twice, one lifetime per answer |
| ToolCatalog.CatalogHoldsWhatWasListed | src/avp_ref/mcp/models.py:134-141 | the catalog holds exactly the tools received, strictly sorted by name |
| ToolCatalog.IdentityIgnoresPaging | src/avp_ref/mcp/models.py:155-156 | the identity is the same for every page split and order of the same tools, and with a distinguishing digest only for those |
| ToolCatalog.LeastIsLeast | src/avp_ref/mcp/gateway.py:285-290 | the catalog's lifetime is the shortest of its pages |

## Left out

* Python's dynamic type checks (wrong JSON types, missing or extra members): the models are typed.
* Digest syntax checks: digests are opaque values.
* Calendar validity of dates, times and timestamps: `date.fromisoformat` and its relatives are a parameter; they may accept forms other than the documented one.
* The relational `subject_view`, whose row filtering is a comprehension, and the negative-control resource subclasses, which are deliberately broken.
* The sort of row documents by column: a document is a mapping, and canonical JSON orders its members.
* `materialize_browser_fixture`: it composes the modelled codec and canonicalisers; its result is the hypothesis `BrowserHarness.Materialized`.
* The browser harness when the observer calls back into the harness during a call.
* The guarded adapter when the wrapped adapter calls back into the guard while opening or releasing a handle.
* Directory creation, symbolic-link checks and directory synchronisation in the artifact store are represented only as steps that may fail.
* Corruption of the disk from outside the store.
* `provision`, `run_subject`, tool calls and replay in the Episode engine: a long sequence of calls with one handler each; `verify` is the branching one.
* Telemetry contents; exceptions raised by an event listener or by the environment's clock while verification emits an event; interruptions that are not ordinary exceptions.
* Verification of an Episode whose resources were never bound or are already released.
* Episode events other than those the acceptance record reads carry only a tag.
* The commerce world behind the environment session, its projections and its row comparison: the world is arbitrary.
* Environment handles other than the session's own, and the description of the adapter.
* The confidential-free view for actors other than the Subject: the compiler checks the Subject's view only.
* The fabric manifest and the identity checks of its constructor; resources are assumed to be different objects.
* Parameter type, enumeration and range checks are one arbitrary predicate of name, value and declaration.
* The JSON Schema checks of templates and instances, and the regular expression for reference URIs, are arbitrary predicates.
* Tool descriptor parsing, header-path schema walking, drift detection and tool calls of the MCP gateway.
* Subprocesses, HTTP, SSE, command lines, YAML, the conformance-test dispatchers and the repository scripts.
- JsonPointer.Resolve: Python's `int()` on list tokens is a parameter, because its accepted forms (signs, blanks, underscores, other digits) are not part of the resolver.
- ArtifactStore.LocalFilesystemArtifactStore.PutStream: describes one caller without operating-system failures; failures, crashes and other callers are in `Publication`.
- EpisodeRuntime.EpisodeEngine.VerifyEpisode: the wording of reasons and event payloads that nothing reads back is not modelled.
- EnvironmentSession.InMemoryCommerceSession.ExecuteTool: the before and after digests and the row difference of the result are not modelled.
- ToolCatalog.ListAllTools: page digests, which are not part of the identity, are not modelled.
- Scenario.CompiledIsClosed: speaks of the members taken from the template; provenance records raw parameter values and may contain placeholders.
