# Rentgen core: verified model

Dafny models of the stateful and textual core of `rentgen_core`, with proofs of what that core is for.
`dafny verify dfyconfig.toml` checks the whole project. Loops and updated objects of the program are
methods and classes here, proved against functions and predicates; the theorems are about those.

* **Three-way BSL merge** (`Utf8`, `Patching`, `Matching`, `BslEdits`, `BslMerge`, `BslSquare`, `BslDocument`,
  `BslReparse`, `BslThreeWay`, `BslOutcomes`). From bytes to lines, edit scripts, the merge, the rebuilt
  candidate and its reparse. The matcher is part of the model, so every theorem is about the scripts that the
  program computes. Main results: `CandidateSquare`, `ConflictIffClash`, `CandidateReparses`,
  `CompositeOutcome`, `FormatExactly`, `RowsAreHunks`, `ExchangeBranches`, `ScriptRoundTrip`.
* **Publication and capture** (`Publication`, `PublicationRuns`, `PublicationOutcomes`, `Capture`,
  `CaptureOutcomes`). The tables of one project, and many captures running between other publishers and layer
  changes, with a failure or an interrupt possible at every boundary and commit acknowledgements that may be
  lost. Main results: `RunKeepsChain`, `AttributionNeverCorrupt`, `ReturnedIsDurable`, `FailureIsHonest`,
  `HeadCountsOperations`, `CaptureCanPublish`; which configurations and publications succeed is
  `ConfiguredExactly` and `CommittedExactly`.
* **Lost acknowledgements** (`Acknowledgement`, `DraftAcknowledgement`, `MembershipAcknowledgement`). The
  wrappers that read a receipt back by the name of its operation, as one protocol over any store that keeps its
  laws, and the draft store and the membership log as such stores. Main results: `ReturnedIsDurable`,
  `CommitsOnce`, `CommittedIsNotDenied`.
* **Membership and its receipts** (`Membership`, `MembershipOutcomes`, `Receipts`, `ReceiptsSize`,
  `ReceiptsRead`, `ReceiptsAccepted`). The audited log as compare-and-swap, and its stored documents. Main
  results: `RunKeepsAudit`, `ChangedExactly`, `RecordedIsRead`, `AcceptedIsRecorded`, `ReceiptsFit`.
* **Canonical JSON** (`CanonicalJson`, `CanonicalUnique`, `JsonReader`, `CanonicalDocuments`, `SourceManifest`,
  `ManifestBound`, `SealedManifest`, `ManifestReader`, `AliasedCapture`). The printer follows sections 6 and 7
  of RFC 8259 and section 3 of RFC 3629; three counters that never print are proved equal to its length. Main
  results: `JsonSizeExact`, `SealBoundExact`, `CapturedIffFits`, `CanonicalExactly`, `ReadWritten`,
  `SourceRoundTrip`, `ManifestExactly`, `BoundNeverUnderestimates`.
* **Identity plans** (`IdentityInventory`, `IdentityPlan`, `IdentityOutcomes`). Which inventories of metadata
  objects are accepted, and the three-way comparison of accepted ones. Main results: `Normalize`,
  `SettledSelectsForest`, `ActionsExactly`, `UnsupportedExactly`, `LocationsApartExactly`.
* **Drafts** (`DraftEditing`, `DraftEditOutcomes`, `DraftReading`, `Drafts`, `DraftHistory`, `DraftOutcomes`,
  `DraftLimit`, `DraftPages`). Exact editing, chunked reading, and the versioned store. Main results:
  `ReplacedExactly`, `OrderMattersExactly`, `WalkExactly`, `RunKeepsHistory`, `AttemptExactly`,
  `HistoryIsVisited`, `ListingIsVisited`.
* **Read budget, graph reader and snapshot session** (`ReadBudget`, `GraphReader`, `SnapshotSession`,
  `SessionOutcomes`, `SharedBudget`). Leases on held resources, refunded only after an acknowledged close, by
  owners that share one budget. Main results: `Graph.End`, `Session.Enter`, `Session.End`, `SetupExactly`,
  `ClosedBudgetIsClean`, `Alternate`.
* **Findings and watcher** (`Findings`, `FindingHistory`, `FindingOutcomes`, `Watcher`, `Scheduler`). Main
  results: `RunTracks`, `RunIsTold`, `RepeatedExactly`, `BackoffDelay`, `Scheduler.Run`, `RaisedExactly`.

The modules named `...Outcomes` tell the results of the operations from their inputs alone: which refusal is given when,
and what a success leaves. `Wrappers`, `Sequences`, `Sorting`, `TextOrder` and `LineEnds` hold shared vocabulary.

## What the proofs bring out

* The refusal MEMBERSHIP_LAST_ADMIN cannot occur: whoever acts is an effective administrator, and the
  self-lockout rule is checked first (`LastAdminNeverRefuses`).
* A composite merge always has at least two hunks and keeps the newline style of the base; revalidating the
  candidate can fail on the number of lines only (`MergedHunks`, `MergedStyle`, `CandidateReparses`).
* Two equal scripts with an insertion would conflict with each other; selecting equal branches before merging is
  necessary, not a shortcut (`SameScriptMerges`).
* Success and result of `replace_text` do not depend on the order of the edits, but the error code may: it is
  the same for every order if and only if no two edits are refused for different reasons, of which there are
  three (`OrderMattersExactly`, `ReasonExactly`, `SomeErrorDependsOnOrder`).
* A receipt's ASCII form stays within three times its UTF-8 form only because control characters, DEL included,
  are refused in principal identifiers (`StoredTriples`, `DeleteEscapesSixfold`).
* A draft whose head is 2^63 - 2 accepts nothing further, and the refusal reads STATE_CORRUPT
  (`LastRevisionRefused`); saves alone lead there (`LimitIsReached`). Apart from two proposals with one content
  identity this is the only attempt that reads so (`DraftHistory.CommittedExactly`).
* The outbox may issue its last identifier, after which the whole queue is refused (`IssueLast`).
* Cleanup of a snapshot session looks at the descriptors of its directories only. A file, or a directory that
  failed to open, whose own descriptor could not be closed is not looked for, and the leases are refunded all
  the same. How many descriptors that leaves follows from the setup and the free budget (`Session.Enter`,
  `LeftExactly`); `LeafLeftOpen` is such a run, and `NothingLeftOver` rules it out.
* A scheduler run leaves its journal running exactly when cycles are unbounded and the script leads past the
  cycle counter, 2^53 - 1 (`Scheduler.Run`, `RunsOutExactly`, `EndlessRetriesRunOut`).
* A capture whose commit is durable ends with the bare interrupt, and without a report of an unknown outcome,
  exactly when an interrupt outside ordinary exceptions strikes after the commit was attempted: only ordinary
  exceptions are reconciled (`FailureIsHonest`, `StruckRun`).
* Saves and membership changes are reconciled after an interrupt too. A committed one is never reported as
  unconfirmed, but a committed save may be refused as forbidden when the permission is gone by the time its
  receipt is read back; a membership change then has an unknown outcome (`SaveIsNotDenied`, `SavedYetForbidden`,
  `ChangeIsNotDenied`).
* A graph reader is refunded and acknowledged over a cursor that was never seen closed, if registering its rows
  had failed: that close is tried in silence (`Graph.End`, `RegistrationLeftOpen`).
* Owners of accepted objects form a forest of at most two levels below the roots by the rule for nesting alone.
  A plan that settles every object never selects an object without its owner, but it may select two objects at
  one location (`AcceptedIffForest`, `SettledSelectsForest`, `LocationsApartExactly`, `BothAdd`).
* A captured value may nest deeper than 32 if what lies deeper was captured before at a smaller depth
  (`CapturedIffFits`).

## Model

| member | source | states |
|---|---|---|
| `Utf8.DecodeEncode` | rentgen_core/bsl_three_way.py:57-88 | every text encodes to well-formed UTF-8 (section 3 of RFC 3629) and decodes back to itself |
| `Utf8.EncodeDecode` | rentgen_core/bsl_three_way.py:57-88 | well-formed bytes decode and encode back to themselves; the strict decode loses nothing |
| `Matching.LongestMatchIsPreferred` | rentgen_core/bsl_three_way.py:117-119 | of all common blocks of a window the matcher picks a longest one, and among those the earliest in the first sequence, then in the second |
| `Matching.BlocksAligned` | rentgen_core/bsl_three_way.py:117-119 | the recursive matching yields equal blocks, in order on both sides and inside the window |
| `BslEdits.TrimMargins` | rentgen_core/bsl_three_way.py:91-103 | the two trimming loops keep equal margins on both sides, and what is left differs at its first and at its last line |
| `BslEdits.EditScriptTiles` | rentgen_core/bsl_three_way.py:91-130 | edits of a script copy consecutive, disjoint branch ranges, everything between them is equal on both sides, and an untouched base line separates any two edits |
| `BslEdits.ScriptRoundTrip` | rentgen_core/bsl_three_way.py:91-130 | patching the base with its script yields the branch, and patching the branch backwards through the recorded ranges yields the base, margins included |
| `BslEdits.ComputeEdits` | rentgen_core/bsl_three_way.py:91-130 | the loops that trim, refuse too large a core and collect opcodes compute exactly the edit script that the lemmas above are about |
| `Patching.Rebuild` | rentgen_core/bsl_three_way.py:265-271 | the cursor loop computes the patched sequence for any ordered edits |
| `Patching.PatchedLength` | rentgen_core/bsl_three_way.py:265-271 | the rebuilt sequence is longer than the base by the sum of the net changes |
| `BslMerge.ComputeMerge` | rentgen_core/bsl_three_way.py:133-168 | the two-pointer loop, with its early conflict exit, computes the recursive merge |
| `BslMerge.RefusedIffClash` | rentgen_core/bsl_three_way.py:133-168 | a merge of two separated scripts is refused if and only if some pair of edits overlaps or touches without being the same non-insertion edit; the pair reported is the first such pair of both scripts |
| `BslMerge.MergedSeparated` | rentgen_core/bsl_three_way.py:133-168 | the merged edits are ordered, disjoint and separated by an untouched line |
| `BslMerge.MergedExactly` | rentgen_core/bsl_three_way.py:133-168 | an edit is in the merge if and only if it is an unshared edit of one side or an edit shared by both, which then counts once |
| `BslMerge.CombineCommutes` | rentgen_core/bsl_three_way.py:133-168 | exchanging the sides gives the same changes, or a conflict of the same kind |
| `BslSquare.CommutingSquare` | rentgen_core/bsl_three_way.py:133-168 | the merged edits applied to the base equal either branch patched with the other side's unshared edits, each moved by the net line change before it |
| `BslDocument.JoinOfLines` | rentgen_core/bsl_three_way.py:57-88 | splitting a body into lines and joining them gives the body; only the last line may lack a terminator |
| `BslDocument.LinesOfJoin` | rentgen_core/bsl_three_way.py:57-88 | joining any line list and splitting again gives the same lines |
| `BslDocument.LineCountIsLength` | rentgen_core/bsl_three_way.py:64-70 | the bound that is checked before splitting counts exactly the lines |
| `BslDocument.StyleByLines` | rentgen_core/bsl_three_way.py:78-87 | the newline style, defined by byte counts, says of each line how it ends and whether it holds a CR |
| `BslDocument.StyleExactly` | rentgen_core/bsl_three_way.py:71-88 | the newline style of a body told from its bytes: unsupported if and only if a CR stands alone, mixed if and only if there are CR LF and bare LF, otherwise LF, CR LF or none |
| `BslDocument.ParsedExactly` | rentgen_core/bsl_three_way.py:57-88 | a file is a document if and only if its body is well-formed UTF-8 and has no more lines than allowed; the document is its mark, its body and its lines, and each other file is refused for its own reason |
| `BslDocument.EveryFile` | rentgen_core/bsl_three_way.py:57-88 | every file is a mark, or none, before the line list of its body; the mark is taken if and only if the file begins with it |
| `Matching.BlocksExhaust` | rentgen_core/bsl_three_way.py:117-119 | between the matching blocks nothing is left in common |
| `Matching.LongestIsBlock` | rentgen_core/bsl_three_way.py:117-119 | the preferred match of the whole window is among the matching blocks |
| `BslEdits.EditsShareNothing` | rentgen_core/bsl_three_way.py:91-130 | what an edit takes out and what it puts in have no line in common, so the script keeps whatever can be kept around its blocks |
| `BslOutcomes.WorkLimitExactly` | rentgen_core/bsl_three_way.py:104-117 | a diff is refused if and only if the lines between the longest equal margins make more than four million pairs, and the refusal names these lines |
| `BslReparse.PatchedLineList` | rentgen_core/bsl_three_way.py:265-276 | patching a line list with edits that are themselves clean gives a line list: an unterminated line can only be the last |
| `BslThreeWay.Materialize` | rentgen_core/bsl_three_way.py:193-284 | the whole entry point, limits first, then the three documents, exact selection or composite merge, computes the outcome that the theorems below describe, every refusal and every success |
| `BslThreeWay.MaterializeComposite` | rentgen_core/bsl_three_way.py:250-284 | format rules, both scripts, merge, rebuild, size bound and reparse, in the order of the code |
| `BslThreeWay.ReadyMeansValidated` | rentgen_core/bsl_three_way.py:210-224 | nothing is materialized unless the limits are acceptable and all three inputs are valid documents within them |
| `BslOutcomes.LimitsExactly` | rentgen_core/bsl_three_way.py:193-224 | unsuitable limits are refused if and only if they are, then the first file with too many bytes, then the first one that is not a document, with its problem |
| `BslOutcomes.SelectionExactly` | rentgen_core/bsl_three_way.py:225-248 | each mode of exact selection is taken if and only if its two files, or all three, are equal; the one row covers the whole files |
| `BslOutcomes.FormatExactly` | rentgen_core/bsl_three_way.py:250-259 | for different inputs each of the four format refusals is given if and only if its condition on the bytes of the files holds and none before it: a lone CR, mixed line ends, different line ends, marks that are not all alike; none of them is given otherwise |
| `BslOutcomes.WorkLimitReported` | rentgen_core/bsl_three_way.py:260-264 | the entry point reports the work limit of current, then of upstream, and only these |
| `BslOutcomes.RowsAreHunks` | rentgen_core/bsl_three_way.py:277-284 | the evidence rows are the first 256 hunks in order, each telling kind and base lines, and pointing at exactly the lines of the side, or of both sides, that it comes from |
| `BslThreeWay.ExactSelectionKeepsBytes` | rentgen_core/bsl_three_way.py:225-248 | an unchanged or identical branch selects the other one's exact bytes, and a composite outcome means three different inputs |
| `BslThreeWay.CandidateReparses` | rentgen_core/bsl_three_way.py:260-276 | reparsing the rebuilt candidate gives exactly the merged lines with the byte order mark and the newline style of the base; it fails only when there are too many lines |
| `BslThreeWay.MergedHunks` | rentgen_core/bsl_three_way.py:260-271 | a composite merge of different branches always holds at least two hunks, with a terminated base line surviving |
| `BslThreeWay.MergedStyle` | rentgen_core/bsl_three_way.py:250-276 | the merged lines have the newline style of the base, which is LF or CR LF |
| `BslThreeWay.MergedBom` | rentgen_core/bsl_three_way.py:260-276 | without byte order marks on the inputs the merged body does not begin with one |
| `BslThreeWay.CandidateSquare` | rentgen_core/bsl_three_way.py:260-275 | the candidate lines are `current` patched with upstream's own hunks, and `upstream` patched with current's own hunks |
| `BslThreeWay.CompositeOutcome` | rentgen_core/bsl_three_way.py:250-284 | past the format, diff and conflict rules the only refusals left are the candidate's bytes and its lines; otherwise the candidate and its hunk count are determined |
| `BslThreeWay.ConflictIffClash` | rentgen_core/bsl_three_way.py:133-168 | the entry point reports a conflict if and only if two edits clash, and reports the first such pair, and whether both insert in front of the same line |
| `BslThreeWay.ExchangeBranches` | rentgen_core/bsl_three_way.py:193-284 | exchanging the branches gives the same candidate bytes, or is refused as well, for all inputs and limits |
| `BslThreeWay.KeepingAgreesWithMerging` | rentgen_core/bsl_three_way.py:225-248 | keeping the only changed branch is what the merge itself would have computed |
| `BslThreeWay.SameScriptMerges` | rentgen_core/bsl_three_way.py:133-168 | two equal scripts merge if and only if they insert nothing; this is why equal branches are selected before merging |
| `Publication.StateTransaction.CommitPublication` | rentgen_core/authorization.py:587-717 | one publication changes the tables as specified, every failure rolls all rows back, and the receipt chain is kept |
| `Publication.StateTransaction.WritePublication` | rentgen_core/authorization.py:651-717 | writes catalog row, layers, head, receipt and event, or restores the savepoint |
| `Publication.StateTransaction.InsertRow` | rentgen_core/authorization.py:733-781 | an existing row must agree in content, layers and locator; a new one needs a free locator; a refusal leaves the tables alone |
| `Publication.StateTransaction.ConfigureSourceLayers` | rentgen_core/authorization.py:455-499 | the compare-and-swap of the layers computes the outcome that `ConfiguredExactly` tells; the chain is kept |
| `Publication.CommitKeepsChain` | rentgen_core/authorization.py:587-717 | a publication adds exactly one receipt, linked to the previous head, and never touches older rows; its result names that receipt; the head advances only for a new operation |
| `PublicationOutcomes.CommittedExactly` | rentgen_core/authorization.py:587-717 | a new operation is published if and only if the caller runs analyses and writes, its layers are in sequence and those configured, its expected head is the current one and may advance, and its content agrees with the catalog or has a free locator; each refusal has its own condition; a success adds exactly its rows |
| `PublicationOutcomes.ReplayedExactly` | rentgen_core/authorization.py:554-649 | a repeated operation returns its stored result if and only if head, snapshot and content are those of its publication, and conflicts otherwise; a missing row is reported, which cannot happen on a chain |
| `PublicationOutcomes.InsertedExactly` | rentgen_core/authorization.py:733-781 | a catalog row is inserted, kept or refused, told from the rows |
| `PublicationOutcomes.ConfiguredExactly` | rentgen_core/authorization.py:455-499 | a configuration is stored if and only if an administrator writes, at the current revision, layers in sequence whose roots are apart and suit the disk; it is then exactly these layers under the next revision, returned and stored, and nothing else changes |
| `PublicationOutcomes.ConfiguredLayersDecide` | rentgen_core/authorization.py:455-499 | after that a publication at the new revision is compared with exactly these layers |
| `Publication.ConfigureKeepsChain` | rentgen_core/authorization.py:455-499 | a layer change keeps receipts, catalog, head snapshot and the chain |
| `PublicationRuns.RunKeepsChain` | rentgen_core/authorization.py:587-717 | over any run of publications and layer changes receipts stay one gap-free chain, and catalog rows and receipts never change |
| `PublicationRuns.ReachableChain` | rentgen_core/authorization.py:443-499 | in every state reachable from a new project the chain holds and the head revision is the number of operations |
| `PublicationRuns.ReplayReturnsOriginal` | rentgen_core/authorization.py:554-649 | repeating an operation after any later run returns its original result and changes nothing |
| `PublicationRuns.ReusedSnapshotKeepsLocator` | rentgen_core/authorization.py:733-781 | a snapshot published again keeps the catalog row, and so the locator, of its first publication |
| `PublicationRuns.AttributionNeverCorrupt` | rentgen_core/authorization.py:517-575 | on every chain the attribution of a locator is unreferenced, or the row that owns it with the latest publication of its snapshot; STATE_CORRUPT cannot occur |
| `Capture.CaptureGate.Check` | rentgen_core/_linux_capture.py:121-160 | the gate is nonreentrant, clears its busy flag on every path, binds itself to the first configuration it sees, and passes only at the expected head and that configuration |
| `Capture.WriteBodyConfirms` | rentgen_core/_linux_capture.py:309-324 | the write transaction of an armed capture either leaves a receipt of exactly its operation, head and snapshot or changes nothing; the comparison with the earlier catalog row cannot fail |
| `Capture.BehaviourKeepsWorld` | rentgen_core/_linux_capture.py:87-106 | under every interleaving of captures, other publishers and layer changes, failing or interrupted at any boundary, the invariant of all captures holds and tables only grow |
| `CaptureOutcomes.GateStepExactly` | rentgen_core/_linux_capture.py:121-160 | at each gate a capture goes on if and only if the project is at its head, configured as the gate remembers and, once something has been generated, as that was captured; otherwise it is refused |
| `CaptureOutcomes.EntryExactly` | rentgen_core/_linux_capture.py:87-93 | a repeated operation ends at once, with its stored result if it expected the same head, and in conflict otherwise |
| `CaptureOutcomes.EnterExactly` | rentgen_core/_linux_capture.py:87-106 | a capture enters as a new process, with its operation and head, and with a gate that remembers nothing |
| `CaptureOutcomes.AbortExactly` | rentgen_core/_linux_capture.py:87-106 | before its commit is attempted a capture may fail or be interrupted in every phase, which changes nothing; afterwards it may not |
| `CaptureOutcomes.LookExactly` | rentgen_core/_linux_capture.py:279-305 | the catalogued row is kept only if it still stands after its generation was verified; what is published has its locator |
| `CaptureOutcomes.WriteExactly` | rentgen_core/_linux_capture.py:309-324 | what the write transaction comes to: a stored operation is confirmed if it has this head and snapshot; a new one is published if and only if head, configuration, layers and content are as they must be, and each refusal has its own condition |
| `CaptureOutcomes.ArmedStepExactly` | rentgen_core/_linux_capture.py:306-338 | all steps of an armed capture, failures and interrupts at each boundary included; each of them occurs |
| `CaptureOutcomes.UnacknowledgedStepExactly` | rentgen_core/publication.py:128-144 | all steps after a lost acknowledgement: what the receipt decides, an unreadable receipt, an interrupt; each of them occurs |
| `CaptureOutcomes.CanBeBrokenOff` | rentgen_core/_linux_capture.py:87-106 | in every state that can be reached each capture that has not attempted its commit can fail or be struck, and nothing else changes |
| `CaptureOutcomes.CaptureCanPublish` | rentgen_core/_linux_capture.py:267-338 | from every state that can be reached, an undisturbed capture of the current head publishes what it generated if that may be published, and returns the receipt |
| `Capture.ReturnedIsDurable` | rentgen_core/_linux_capture.py:267-338 | every result a capture returns names a durable receipt of its own operation, head and snapshot, in that state and in all later ones, one revision past its expected head |
| `Capture.FailureIsHonest` | rentgen_core/_linux_capture.py:307-338 | a capture that fails after its own commit became durable reports an unknown outcome if and only if no interrupt outside ordinary exceptions struck after the commit was attempted, and otherwise ends with that interrupt; the two corruption reports of the orchestrator never occur |
| `Capture.StruckRun` | rentgen_core/publication.py:128-144 | a run from a new project: the commit is durable, an interrupt strikes before the capture can return, and it ends without a report of an unknown outcome |
| `Capture.OnlyCommitsChangeTables` | rentgen_core/_linux_capture.py:307-329 | the only step of a capture that changes head, catalog or receipts is the durable commit of an operation without a receipt, acknowledged, unacknowledged or interrupted, which advances the head by one |
| `Capture.HeadCountsOperations` | rentgen_core/_linux_capture.py:267-338 | between any two states of a behaviour the head advances once per new operation |
| `Capture.UndisturbedCapturePublishes` | rentgen_core/_linux_capture.py:309-324 | an armed capture whose head, configuration and catalog have not moved does publish, and the head becomes its result |
| `Capture.ReturnedConfirms` | rentgen_core/publication.py:128-144 | a receipt read back after a lost acknowledgement stays the bound one whatever others publish |
| `Membership.Store.Revision` | rentgen_core/authorization.py:96-101 | the revision is the greatest sequence in the log, or zero |
| `Membership.Store.FindAction` | rentgen_core/authorization.py:161-178 | finds the row of an operation exactly when the log has one |
| `Membership.Store.ChangeMembership` | rentgen_core/authorization.py:246-300 | one audited change computes the specified outcome and state, and the whole audit is kept |
| `Membership.Store.Settle` | rentgen_core/authorization.py:246-300 | a logged operation returns its original outcome or is refused for other inputs; a new one is applied |
| `Membership.Store.ApplyChange` | rentgen_core/authorization.py:216-300 | compare-and-swap on the log, the three administrator protections, then rows and receipt together |
| `Membership.RunKeepsAudit` | rentgen_core/authorization.py:180-300 | over any run of attempts members are the fold of a contiguous, truthful log over the founders, an effective administrator remains, local administrators never fall from some to none, and old receipts stay |
| `Membership.LastAdminImpliedBySelfLockout` | rentgen_core/authorization.py:216-244 | with an effective administrator acting, the last-administrator test never decides |
| `Membership.LastAdminNeverRefuses` | rentgen_core/authorization.py:216-300 | no change is ever refused as MEMBERSHIP_LAST_ADMIN |
| `Membership.LocalAdminsRemain` | rentgen_core/authorization.py:216-244 | a recorded change keeps a local administrator if there was one |
| `Membership.CommittedExactly` | rentgen_core/authorization.py:246-300 | a new change is committed if and only if the caller writes, administers, sends a well-formed request at the current revision, keeps its own administration and leaves a local administrator |
| `MembershipOutcomes.RequestExactly` | rentgen_core/access.py:12-68 | which changes are accepted as requests, told from identifiers, revision and listed permissions, each refusal for its own reason, and what is granted |
| `MembershipOutcomes.OrderDoesNotMatter` | rentgen_core/access.py:26-40 | the order in which permissions are listed does not matter |
| `MembershipOutcomes.ChangedExactly` | rentgen_core/authorization.py:216-300 | every outcome of a change, told from members and log: each refusal for its own reason, in order and without a trace; a repeated request; or the recorded change with its outcome, members and row |
| `Membership.ReplayReturnsOriginal` | rentgen_core/authorization.py:161-178 | repeating an operation after any later changes returns the original outcome as long as its author still administers |
| `CanonicalJson.ComputeTextSize` | rentgen_core/_posix_capture_candidate.py:24-45 | the character loop adds up the UTF-8 length of the quoted, escaped text |
| `CanonicalJson.JsonSizeExact` | rentgen_core/_posix_capture_candidate.py:24-45 | the preflight counter, where it accepts a value, equals the byte length of the canonical JSON; it accepts exactly the values without booleans |
| `CanonicalJson.JsonSizeAgrees` | rentgen_core/_posix_capture_candidate.py:24-45 | the two independent counters agree on every value that the first accepts |
| `CanonicalJson.ManifestSizeExact` | rentgen_core/_posix_generation.py:36-43 | the recursive counter equals the byte length of the canonical JSON, for every value |
| `SealedManifest.SealBoundExact` | rentgen_core/_posix_generation.py:332-347 | the manifest that is built has exactly the size counted from the separately assembled document, so the comparison at the seal cannot fail |
| `CanonicalJson.SortedKeepsSize` | rentgen_core/manifests.py:40-48 | sorting the keys at every level does not change the size |
| `TextOrder.FirstDifference` | rentgen_core/manifests.py:40-48 | the order of keys is that of the first different character, a prefix coming first |
| `CanonicalDocuments.CanonicalExactly` | rentgen_core/manifests.py:40-48 | the canonical bytes of a document are the compact print of that document with the names of every object in ascending order, and no other print is |
| `JsonReader.ReadWritten` | rentgen_core/manifests.py:55-71 | a reader of the grammar of RFC 8259, white space and all escapes included, reads every printed value back, in either escaping |
| `CanonicalDocuments.CanonicalReads` | rentgen_core/manifests.py:55-71 | reading canonical bytes gives the same document with its names in ascending order |
| `CanonicalUnique.WriteInjective` | rentgen_core/manifests.py:40-48 | two values are printed alike only if they are the same, in raw UTF-8 and in ASCII escapes, surrogate pairs included |
| `CanonicalUnique.CanonicalBytesUnique` | rentgen_core/manifests.py:40-48 | equal canonical bytes mean equal values up to the order of fields |
| `CanonicalDocuments.SameBytesIffSame` | rentgen_core/manifests.py:40-48 | two documents have the same canonical bytes if and only if they are equal as mappings |
| `CanonicalDocuments.DecodeAcceptsExactly` | rentgen_core/manifests.py:55-71 | the reader accepts a text if and only if it is the canonical name of a document in the domain, and yields that document |
| `CanonicalDocuments.DomainExactly` | rentgen_core/manifests.py:17-48 | a document has canonical bytes if and only if no integer in it is negative or reaches 2^63 |
| `CanonicalDocuments.ReadBackLoads` | rentgen_core/manifests.py:55-71 | that reader, behind the strict decode, meets what is asked of the JSON library |
| `SourceManifest.BuiltInOrder` | rentgen_core/manifests.py:149-192 | the reader's two order checks pass on every document that is built, and no entry or exclusion is lost or invented |
| `SourceManifest.BuiltAscends` | rentgen_core/manifests.py:171-192 | what is built stands in the order of the ordinals of its layers, and the files of one layer in the order of the bytes of their paths, by the first difference |
| `ManifestReader.HashExactly` | rentgen_core/snapshots.py:17-23 | a digest is sixty-four lower-case hexadecimal digits |
| `ManifestReader.SourceExactly` | rentgen_core/manifests.py:99-168 | the reader accepts a document if and only if it is, up to the order of names, the document of proper contents, and reads exactly these contents |
| `ManifestReader.ParsedExactly` | rentgen_core/manifests.py:195-199 | bytes are accepted if and only if they are the canonical bytes of proper contents, which are then read |
| `ManifestReader.SourceRoundTrip` | rentgen_core/manifests.py:171-199 | a source manifest is built if and only if its contents are proper; what is built is read as these contents in order, and whatever is read is what would be built from it |
| `ManifestReader.ManifestExactly` | rentgen_core/manifests.py:211-264 | the reader of sealed manifests accepts a document if and only if it is the manifest of a proper source under its own project and digest, with fitting provenance and derived inputs, and reads these |
| `ManifestReader.ManifestRoundTrip` | rentgen_core/manifests.py:267-289 | a manifest that is built from an accepted source is accepted and read as that source, its provenance and its derived inputs |
| `ManifestBound.ComputeBound` | rentgen_core/_posix_capture_candidate.py:209-227 | the accumulating loops with their early exits yield the byte length of the padded document, or refuse exactly when it exceeds the maximum |
| `ManifestBound.CountGroup` | rentgen_core/_posix_capture_candidate.py:209-227 | one list is added with its commas, stopping as soon as the maximum is passed |
| `ManifestBound.BoundNeverUnderestimates` | rentgen_core/_posix_capture_candidate.py:339-341 | bound minus built document is exactly the slack of the encodings that were found, in whatever order files were listed; the refusal for exceeding the bound cannot occur |
| `ManifestBound.NoSlackIffMarked` | rentgen_core/_posix_capture_candidate.py:209-240 | the bound is tight if and only if every file begins with a byte order mark |
| `AliasedCapture.Capturer.CaptureRef` | rentgen_core/edt_identity_three_way.py:122-164 | the recursion over memo, active set and size computes the specified capture and leaves the active set as it was |
| `AliasedCapture.Capturer.CaptureList` | rentgen_core/edt_identity_three_way.py:140-150 | the list loop, item by item with its commas and limit |
| `AliasedCapture.Capturer.CaptureMapping` | rentgen_core/edt_identity_three_way.py:150-162 | the mapping loop, entry by entry, refusing non-text keys |
| `AliasedCapture.CaptureFaithful` | rentgen_core/edt_identity_three_way.py:122-164 | whatever is captured is the tree that the references unfold to, with its exact canonical size, aliases included |
| `AliasedCapture.CyclesAreRefused` | rentgen_core/edt_identity_three_way.py:122-164 | no reference from which a container containing itself can be reached is ever captured |
| `AliasedCapture.CapturedVisits` | rentgen_core/edt_identity_three_way.py:122-164 | whatever is captured was reached by a depth-first visit that enters every container once and stays within the depth limit |
| `AliasedCapture.CaptureComplete` | rentgen_core/edt_identity_three_way.py:122-164 | every tree whose visit stays within the depth limit and whose size fits is captured, however its containers are shared and whatever is remembered already |
| `AliasedCapture.CapturedIffFits` | rentgen_core/edt_identity_three_way.py:122-164 | a tree is captured if and only if that visit stays within the depth limit and its canonical bytes fit, and its size is then that length; trees nested no deeper than the limit always pass |
| `IdentityInventory.CollectRecords` | rentgen_core/edt_identity_three_way.py:386-512 | the loop over the records keeps them by identity, and refuses exactly a record that does not fit, or shares identity, location, sibling name or child position with an earlier one, or a file without a record |
| `IdentityInventory.CheckOwners` | rentgen_core/edt_identity_three_way.py:512-556 | the loop over the owners accepts exactly the inventories in which every owner named is there, as named, and nests |
| `IdentityInventory.Normalize` | rentgen_core/edt_identity_three_way.py:302-556 | too many records, an invalid inventory, too many owners: refused in this order, otherwise the rows by identity and the owners |
| `IdentityInventory.OrderDoesNotMatter` | rentgen_core/edt_identity_three_way.py:386-512 | the order in which records are listed changes neither acceptance nor rows |
| `IdentityOutcomes.ListedExactly` | rentgen_core/edt_identity_three_way.py:386-512 | a list of records is accepted if and only if every record suits layer and file, no two of a layer share identity, place, name among siblings or index below an owner, and every file has a record |
| `IdentityInventory.AcceptedIffForest` | rentgen_core/edt_identity_three_way.py:512-556 | owners are accepted if and only if every owner named is there, as named, and every record reaches a root within two steps, two only from an attribute of a tabular section |
| `IdentityInventory.NoOwnerCycle` | rentgen_core/edt_identity_three_way.py:512-556 | no record owns itself, directly or over others |
| `IdentityPlan.AcceptedIsUsable` | rentgen_core/edt_identity_three_way.py:302-556 | every accepted inventory meets what the comparison asks of it |
| `IdentityPlan.AcceptedIsApart` | rentgen_core/edt_identity_three_way.py:386-512 | no two records of an accepted inventory share a location |
| `IdentityPlan.ExchangeSides` | rentgen_core/edt_identity_three_way.py:598-621 | exchanging the branches exchanges what is kept with what is taken and nothing else; unsupported objects stay unsupported; what the actions mean is `ActionsExactly` |
| `IdentityOutcomes.ActionsExactly` | rentgen_core/edt_identity_three_way.py:624-691 | each action told from the fields of the records: versions are alike if both lack the object or have it with the same kind, name, place, owner with whereabouts, layer document, file and hash; unchanged, changed alike, taken, kept and conflict say exactly which versions are alike |
| `IdentityOutcomes.SelectedExactly` | rentgen_core/edt_identity_three_way.py:624-691 | a settled plan selects upstream's object if only upstream changed it, and current's otherwise, deletions included |
| `IdentityOutcomes.UnsupportedExactly` | rentgen_core/edt_identity_three_way.py:598-621 | an object is not compared for the first of these reasons: a moved identity or a changed layer, kind, owner, whereabouts of the owner, or an objection of some version; otherwise it is compared |
| `IdentityPlan.LostOwnerIsUnsupported` | rentgen_core/edt_identity_three_way.py:598-621 | an object whose owner is missing or elsewhere in some version is never compared |
| `IdentityPlan.SettledSelectsForest` | rentgen_core/edt_identity_three_way.py:598-691 | a plan without conflicts and unsupported objects selects objects whose owners are all selected, at the path named, although either side may have removed some; they form a forest again |
| `IdentityPlan.LocationsApartExactly` | rentgen_core/edt_identity_three_way.py:598-691 | two selected objects claim one location if and only if each side brings its own object there |
| `IdentityPlan.BothAdd` | rentgen_core/edt_identity_three_way.py:598-691 | such versions exist, and their plan is settled |
| `Receipts.EscapeTriples` | rentgen_core/access.py:12-23 | ASCII escaping expands text without control characters at most threefold |
| `Receipts.DeleteEscapesSixfold` | rentgen_core/access.py:12-23 | DEL would expand sixfold: the threefold bound rests on the refusal of control characters |
| `ReceiptsSize.StoredTriples` | rentgen_core/access.py:71-74 | a stored document takes at most three times its raw canonical form |
| `ReceiptsSize.ReceiptsFit` | rentgen_core/authorization.py:180-214 | both documents of every membership receipt stay within the reader's limit of 65536 bytes |
| `ReceiptsRead.RecordedIsRead` | rentgen_core/access.py:185-309 | every receipt that is recorded is accepted by the reader and decodes to the same request and result |
| `ReceiptsAccepted.AcceptedIsRecorded` | rentgen_core/access.py:185-309 | conversely, whatever row the reader accepts is what is recorded for some receipt of the log, within the reader's limits |
| `ReceiptsRead.ReaderLoads` | rentgen_core/access.py:185-309 | a reader of the grammar of RFC 8259 meets what is asked of the JSON library here |
| `ReceiptsRead.LogIsReadable` | rentgen_core/authorization.py:180-214 | every row of a log kept by any run satisfies what the reader demands |
| `DraftEditing.Find` | rentgen_core/draft_editing.py:46-52 | the least occurrence of the old text, if there is any |
| `DraftEditing.LocateAll` | rentgen_core/draft_editing.py:44-59 | every edit is located in the original, stopping at the first refusal |
| `DraftEditing.Join` | rentgen_core/draft_editing.py:60-70 | the loop over sorted ranges rebuilds the text, and refuses exactly overlapping ranges |
| `DraftEditing.ReplaceText` | rentgen_core/draft_editing.py:36-71 | the whole operation computes the specified outcome |
| `DraftEditing.ReplacedExactly` | rentgen_core/draft_editing.py:36-71 | an edit succeeds if and only if the edits are well-formed, the candidate is text, every old text occurs once, no two occurrences overlap and the size fits; its length is the candidate's plus the sum of the differences |
| `DraftEditOutcomes.TextExactly` | rentgen_core/draft_editing.py:36-43 | a candidate is text if and only if what follows its mark is the encoding of a text whose CRs all stand in front of an LF and which has not both CR LF and bare LF; it is then that text |
| `DraftEditOutcomes.RefusedExactly` | rentgen_core/draft_editing.py:44-59 | why a single edit is refused, told from the places at which its old text stands |
| `DraftEditOutcomes.ReplacedOutcome` | rentgen_core/draft_editing.py:14-71 | every outcome of an edit, told from the candidate and the edits: each refusal for its own reason, in this order, and success otherwise |
| `DraftEditing.OrderDoesNotMatter` | rentgen_core/draft_editing.py:36-71 | success, result and the overlap and size refusals do not depend on the order of the edits |
| `DraftEditing.OrderMattersExactly` | rentgen_core/draft_editing.py:36-71 | for every input: all orders of the edits give the same result if and only if no two edits are refused for different reasons |
| `DraftEditing.ReasonExactly` | rentgen_core/draft_editing.py:44-59 | the reason of each edit: an empty old text that is not the only insertion into an empty candidate, an old text that does not occur, or one that occurs twice |
| `DraftEditing.ErrorDependsOnOrder` | rentgen_core/draft_editing.py:44-59 | whichever refused edit is listed first, its refusal is the one that the whole operation reports |
| `DraftEditing.SomeErrorDependsOnOrder` | rentgen_core/draft_editing.py:36-71 | concrete candidates: missing against repeated text, and empty against missing text, each in both orders |
| `DraftEditing.ReplacedIsPatched` | rentgen_core/draft_editing.py:60-71 | a successful result is the original patched at the located spans, with the byte order mark kept |
| `DraftEditing.NewTextStands` | rentgen_core/draft_editing.py:60-71 | every new text stands where its only old text stood, shifted by the edits before it |
| `DraftEditing.RestIsKept` | rentgen_core/draft_editing.py:60-71 | every character outside the old texts is kept, in order |
| `DraftReading.ReadDraft` | rentgen_core/draft_editing.py:137-185 | offset, limit and alignment loop compute the specified chunk |
| `DraftReading.ReadExactly` | rentgen_core/draft_editing.py:137-185 | in well-formed text a chunk is read if and only if the offset is a character boundary and the next character fits; it holds as many whole characters as fit |
| `DraftReading.WalkExactly` | rentgen_core/draft_editing.py:137-185 | from any boundary, following `next_offset` succeeds if and only if every remaining character fits the limit, and the chunks join to the remainder |
| `DraftReading.WalkReadsAll` | rentgen_core/draft_editing.py:137-185 | with a limit of at least four the walk never refuses, ends, cuts at character boundaries only, and its chunks join to the candidate |
| `DraftReading.WalkBytesReadsAll` | rentgen_core/draft_editing.py:137-185 | in byte mode any limit walks any candidate |
| `Drafts.Store.ReadHead` | rentgen_core/drafts.py:107-118 | the head, or corruption if it is not the greatest revision |
| `Drafts.Store.Find` | rentgen_core/drafts.py:188-203 | the request and result stored for an operation, checked in full |
| `Drafts.Store.Commit` | rentgen_core/drafts.py:264-371 | one attempt computes the specified result and tables |
| `Drafts.Store.AdvanceHead` | rentgen_core/drafts.py:280-371 | compare-and-swap on the head, the rules of the action, then revision, receipt and proposal |
| `DraftHistory.CommitKeepsHistory` | rentgen_core/drafts.py:264-371 | every attempt keeps contiguous revisions with one consistent receipt each; no row is removed or rewritten, and a refusal changes nothing |
| `DraftHistory.RunKeepsHistory` | rentgen_core/drafts.py:264-371 | so does every run of attempts and new snapshots |
| `DraftHistory.SourceIsFixed` | rentgen_core/drafts.py:264-371 | all revisions of a draft have the same source reference |
| `DraftHistory.ArchiveThenRestore` | rentgen_core/drafts.py:264-371 | a revision restores if and only if the one before it archived; the first one is a save |
| `DraftHistory.CommittedExactly` | rentgen_core/drafts.py:264-371 | a new attempt commits if and only if it expects the current head, follows the rules of its action, fits the limits, its content identity is free and the numbers have not run out; it is refused as corruption if and only if one of the last two alone fails |
| `DraftOutcomes.RepeatExactly` | rentgen_core/drafts.py:264-290 | a repeated operation returns its recorded outcome if and only if action, actor, draft, expected revision and, for a save, title and content are those recorded; otherwise it is an operation conflict; nothing changes |
| `DraftOutcomes.WellFormedIff` | rentgen_core/drafts.py:32-60 | which attempts are well-formed, told from identifiers, revision, action and title |
| `DraftOutcomes.AttemptExactly` | rentgen_core/drafts.py:264-371 | every outcome of an attempt at a kept history, told from the rows: each refusal for its own reason, in order and without a trace, or the next revision with title, content, source and status, and exactly its rows in each table |
| `DraftOutcomes.HeadIsChecked` | rentgen_core/drafts.py:107-229 | whatever the tables hold, a new attempt on a head that is not the greatest revision, or cannot be read, is refused as corruption and changes nothing |
| `DraftOutcomes.OperationIsChecked` | rentgen_core/drafts.py:188-229 | whatever the tables hold, a recorded operation without a revision, or with one that cannot be read or whose head is not the greatest, is refused as corruption and changes nothing |
| `DraftHistory.ReachableHistory` | rentgen_core/drafts.py:264-371 | every state that can be reached from empty tables has a kept history |
| `DraftLimit.LastRevisionRefused` | rentgen_core/drafts.py:264-371 | at head 2^63 - 2 every otherwise acceptable attempt reads as corruption and changes nothing |
| `DraftLimit.LimitIsReached` | rentgen_core/drafts.py:264-371 | saving over and over from empty tables leads to that head, for any size limit that these saves meet |
| `DraftHistory.FindNeverCorrupt` | rentgen_core/drafts.py:121-203 | in every kept history the lookup of an operation never reports corruption |
| `DraftHistory.ReplayNeverCorrupt` | rentgen_core/drafts.py:264-290 | nor does a replay, which changes nothing |
| `DraftHistory.ReplayReturnsOriginal` | rentgen_core/drafts.py:264-290 | repeating an attempt after any later run returns the original receipt |
| `DraftPages.PageReads` | rentgen_core/drafts.py:516-540 | a page of history reads without fault and holds the next revisions below its bound; the contiguity check never fails |
| `DraftPages.HistoryPageExactly` | rentgen_core/drafts.py:516-540 | which requests for a page of history are refused, and which revisions and next bound a page has otherwise |
| `DraftPages.HistoryIsRead` | rentgen_core/drafts.py:516-540 | whatever the tables hold, what a page of history returns has been read and stands below the head without a gap |
| `DraftPages.HistoryIsVisited` | rentgen_core/drafts.py:516-540 | for any page size following `next_before` visits every revision exactly once, newest first |
| `DraftPages.ListPageReads` | rentgen_core/drafts.py:492-514 | on every kept history a page of drafts is read without fault, head and receipt checks included, and holds the next drafts of the status |
| `DraftPages.ListPageExactly` | rentgen_core/drafts.py:492-514 | which requests for a page of drafts are refused; a page holds the first drafts of the status behind the identifier given, in ascending order, and names a next start if and only if there are more |
| `DraftPages.ListedIsRead` | rentgen_core/drafts.py:492-514 | whatever the tables hold, every draft that a page lists is at its greatest revision, which has been read |
| `DraftPages.ListingIsVisited` | rentgen_core/drafts.py:492-514 | on every kept history and for any page size following `next_after` visits exactly the drafts of the status, each once, in ascending order of their characters |
| `Acknowledgement.ReturnedIsDurable` | rentgen_core/drafts.py:374-419 | whatever an operation returns after any failures and interrupts is the receipt that the store holds for it, then and in all later states |
| `Acknowledgement.CommitsOnce` | rentgen_core/drafts.py:374-419 | however its attempts interleave, fail and are repeated, an operation commits at most once |
| `Acknowledgement.CommittedIsNotDenied` | rentgen_core/drafts.py:374-419 | an operation that has committed and fails is never reported as unconfirmed nor by its first exception: it ends as broken off if and only if it was, and otherwise with an unknown outcome or, where that is reported, with the missing permission |
| `Acknowledgement.CommittedFails` | rentgen_core/drafts.py:374-419 | each of these failures occurs, for every request that would commit |
| `DraftAcknowledgement.DraftsAreLawful` | rentgen_core/drafts.py:374-419 | the draft store meets what the protocol asks: receipts read back as returned, growth keeps them, and tables change only for an operation without a receipt |
| `DraftAcknowledgement.SaveIsNotDenied` | rentgen_core/drafts.py:374-419 | a save that has committed fails only as broken off, with an unknown outcome, or as forbidden |
| `DraftAcknowledgement.SavedYetForbidden` | rentgen_core/drafts.py:374-419 | whatever would be saved can be saved and then be refused for a missing permission |
| `MembershipAcknowledgement.ChangesAreLawful` | rentgen_core/access.py:81-136 | so does the membership log |
| `MembershipAcknowledgement.ChangeIsNotDenied` | rentgen_core/access.py:81-136 | a membership change that has committed and fails has an unknown outcome if and only if it was not broken off |
| `ReadBudget.Budget.Charge` | rentgen_core/_read_operation_budget.py:100-112 | work is charged if and only if it stays within its limit, and never refunded |
| `ReadBudget.Budget.Reserve` | rentgen_core/_read_operation_budget.py:114-126 | a lease is given if and only if it fits; held amounts stay the sum of the open leases, within limits and below peaks |
| `ReadBudget.Budget.Release` | rentgen_core/_read_operation_budget.py:43-60 | a lease is refunded once, and a second close does nothing |
| `ReadBudget.Budget.OwnerOpened` | rentgen_core/_read_operation_budget.py:128-132 | an owner is registered once |
| `ReadBudget.Budget.OwnerClosed` | rentgen_core/_read_operation_budget.py:134-139 | an owner is acknowledged once, also after deadline and cancellation |
| `ReadBudget.Budget.Finish` | rentgen_core/_read_operation_budget.py:141-146 | the operation ends if and only if it is open, no owner is left and nothing is held |
| `ReadBudget.Budget.Close` | rentgen_core/_read_operation_budget.py:148-150 | closing asks the checkpoint first |
| `ReadBudget.Budget.ClosedHoldsNothing` | rentgen_core/_read_operation_budget.py:141-153 | a closed budget has no owner and no open lease of any amount |
| `ReadBudget.SumClose` | rentgen_core/_read_operation_budget.py:47-52 | closing one lease lowers the sum of the open leases by exactly its amount |
| `GraphReader.Graph.Execute` | rentgen_core/_verified_graph.py:140-165 | a statement ends with its cursor held, or with its lease refunded, or, exactly when neither registering nor closing its cursor succeeds, with an unconfirmed cursor whose lease stays and whose failure is not noted |
| `GraphReader.Graph.SetupStatement` | rentgen_core/_verified_graph.py:361-375 | a fixed statement succeeds if and only if the budget lends a cursor and the statement and its close succeed; a close that fails is noted and keeps its lease |
| `GraphReader.Graph.Fetch` | rentgen_core/_verified_graph.py:66-94 | the temporary reservation of a fetch is given back on every path, and a fetched row counts with its cost, within the limit |
| `GraphReader.ComputeRowCost` | rentgen_core/_verified_graph.py:83-91 | the loop over the values adds up the cost of a row |
| `GraphReader.RowCostExactly` | rentgen_core/_verified_graph.py:83-91 | a row costs 128 bytes, 48 for each value, 32 more for each text or blob, four times the bytes of its texts and the bytes of its blobs |
| `GraphReader.Graph.FetchOne` | rentgen_core/_verified_graph.py:111-119 | a one-row fetch ends its statement whatever happens, and refunds if and only if the close was acknowledged |
| `GraphReader.Graph.CloseRows` | rentgen_core/_verified_graph.py:96-109 | closing happens once; the lease follows only an acknowledged close |
| `GraphReader.Graph.CloseAllRows` | rentgen_core/_verified_graph.py:377-391 | all cursors are closed even if some fail, and exactly the failing ones stay unconfirmed |
| `GraphReader.Graph.Refund` | rentgen_core/_verified_graph.py:398-404 | all leases go back and the owner is acknowledged |
| `GraphReader.Graph.End` | rentgen_core/_verified_graph.py:377-405 | refund and acknowledgement happen if and only if the database was closed and no setup cursor and no registered cursor ever failed to close; the cursors that are unconfirmed after a refund are exactly those whose registration had failed |
| `GraphReader.Graph.Prepare` | rentgen_core/_verified_graph.py:241-320 | when everything up to the first query succeeds and its cursor can be neither registered nor closed, entering fails with that cursor unconfirmed and the failure not noted |
| `GraphReader.RegistrationLeftOpen` | rentgen_core/_verified_graph.py:156-165 | a run from a new budget and reader: such a first query ends the reader, every lease of it but the cursor's is refunded, the owner is acknowledged, and the cursor was never seen closed |
| `GraphReader.LeaseIffCursor` | rentgen_core/_verified_graph.py:96-165 | what every method keeps about cursor leases, in one sentence: a lease taken so far is open if and only if some cursor, in use or unconfirmed, still holds it |
| `GraphReader.Graph.ClosedBudgetIsClean` | rentgen_core/_verified_graph.py:377-405 | once the budget could be closed the reader has no cursor, confirmed or not, no lease and no registration left |
| `GraphReader.Graph.Enter` | rentgen_core/_verified_graph.py:241-320 | entering either leaves an active, registered reader with its image lease, or ends it; leases of other owners of the budget are untouched |
| `GraphReader.Graph.Run` | rentgen_core/_verified_graph.py:322-353 | an operation leaves the reader active or ended, and other owners' leases untouched |
| `GraphReader.OthersDrop` | rentgen_core/_verified_graph.py:96-165 | a reader does not notice that another owner of the budget gives back a lease |
| `SnapshotSession.Session.OpenRoot` | rentgen_core/_posix_snapshot_session.py:275-278 | root and ancestors are covered by the first reservation; a failed open leaves no capability behind |
| `SnapshotSession.Session.OpenChild` | rentgen_core/_posix_snapshot_session.py:229-234 | every directory descriptor is covered by a lease before it is opened |
| `SnapshotSession.Session.Copy` | rentgen_core/_posix_snapshot_session.py:120-154 | a copy reserves its read in full before reading; the file's own descriptor is gone again unless its close failed |
| `SnapshotSession.Session.Inventory` | rentgen_core/_posix_snapshot_session.py:186-248 | the inventory opens directories behind its own reservation, which is given back on every path |
| `SnapshotSession.Session.Enter` | rentgen_core/_posix_snapshot_session.py:256-325 | an entered session is registered, with an active graph reader on the same budget, and only its directories open; anything else ends it; exactly as many descriptors stay open outside a capability as the first refused opening or file leaves behind; a failed entry that saw the root refunds every lease all the same |
| `SnapshotSession.NothingLeftOver` | rentgen_core/_posix_snapshot_session.py:256-325 | nothing is left behind when every failed opening and every file closes its descriptors |
| `SnapshotSession.Session.Collect` | rentgen_core/_posix_snapshot_session.py:256-308 | openings, copies and inventory go exactly as far as setup and free budget say |
| `SessionOutcomes.SetupExactly` | rentgen_core/_posix_snapshot_session.py:256-308 | everything is opened and read if and only if nothing strikes or is refused and the budget has room for it, told from the sizes of manifest, inventory and files; the room then left is determined |
| `SessionOutcomes.LeftExactly` | rentgen_core/_posix_snapshot_session.py:256-308 | descriptors are left behind in exactly these cases, when all before went well: a refused opening that left them, or a file that could not close its own |
| `SnapshotSession.Session.Query` | rentgen_core/_posix_snapshot_session.py:327-343 | a query leaves the session active or ended |
| `SnapshotSession.Session.Exit` | rentgen_core/_posix_snapshot_session.py:436-463 | the inventory is looked at once more; a session that is left without an error has refunded every lease |
| `SnapshotSession.Session.CloseGraph` | rentgen_core/_posix_snapshot_session.py:380-391 | the graph reader is left first; its failures are hidden by an exception that is already on its way |
| `SnapshotSession.Session.CloseDescriptors` | rentgen_core/_posix_snapshot_session.py:392-413 | cleanup fails if and only if it had failed before, or some directory descriptor is still open or in use again, or none was ever seen, or the last verification failed |
| `SnapshotSession.Session.Refund` | rentgen_core/_posix_snapshot_session.py:426-432 | all leases go back and the session is acknowledged, without touching the graph reader's leases |
| `SnapshotSession.Session.End` | rentgen_core/_posix_snapshot_session.py:380-434 | leases are refunded and the session acknowledged if and only if every directory was seen closed and, unless an exception is on its way, the graph reader ended without a failure; what is then still open is exactly what no capability ever held |
| `SnapshotSession.Session.ClosedBudgetIsClean` | rentgen_core/_posix_snapshot_session.py:380-434 | once the budget could be closed neither session nor graph reader has a lease, a registration, a cursor or a directory descriptor left |
| `SharedBudget.TakeTurn` | rentgen_core/_posix_snapshot_session.py:256-463 | whatever one session does, another one on the same budget keeps its leases, its registration and its validity |
| `SharedBudget.Alternate` | rentgen_core/_posix_snapshot_session.py:256-463 | two sessions take turns in any order; if the budget can then be closed, both and their readers are clean |
| `SnapshotSession.LeafLeftOpen` | rentgen_core/_posix_snapshot_session.py:256-325 | a run from a new session: a manifest whose own close fails ends it, every lease is refunded, and one descriptor is still open |
| `Findings.Validate` | rentgen_core/git_observer.py:192-222 | the loop of checks reports the first refusal of a report |
| `Findings.Step` | rentgen_core/git_observer.py:251-269 | the pass over the sorted identities appends exactly the next records and events |
| `Findings.ReconcileFindings` | rentgen_core/git_observer.py:179-269 | the whole reconciliation computes the update or refusal that `ReconciledExactly`, `ReportIsStored` and `UpdateExactly` tell |
| `FindingOutcomes.PathExactly` | rentgen_core/git_observer.py:209-219 | a path is accepted if and only if it has neither backslash nor colon and every segment between slashes is a proper name |
| `FindingOutcomes.CheckedExactly` | rentgen_core/git_observer.py:198-222 | the findings of a report are refused for the first finding that is refused: for its fields, its path, or an earlier finding of the same identity |
| `FindingOutcomes.ReconciledExactly` | rentgen_core/git_observer.py:179-269 | every outcome of a reconciliation, told from the report and the history: each refusal for its own reason, in order; a repeated report; or an update |
| `FindingOutcomes.ReportIsStored` | rentgen_core/git_observer.py:223-269 | what an accepted new report leaves is that report: its context, its commit, and exactly its findings in ascending order of rule, path and anchor |
| `FindingOutcomes.UpdateExactly` | rentgen_core/git_observer.py:251-269 | records and events of an accepted new report stand in ascending order of identity; there is a record for every identity known before or reported, and exactly the events that happened |
| `FindingOutcomes.RepeatedExactly` | rentgen_core/git_observer.py:223-249 | after any run a second report of the last commit is accepted if and only if it is complete and has the same context and the same findings in whatever order; it then changes nothing, and other findings conflict |
| `FindingHistory.ReplayChangesNothing` | rentgen_core/git_observer.py:223-249 | a report for the same commit is accepted only if it is stored as the same report, and changes nothing |
| `FindingHistory.ReportAdvances` | rentgen_core/git_observer.py:251-269 | after a new report every identity's record is the next one of its previous record |
| `FindingHistory.RunTracks` | rentgen_core/git_observer.py:179-269 | over any run of accepted reports `first_seen`, `last_seen` and `resolved_at` are the commits of first sighting, last sighting and first absence since |
| `FindingHistory.OpenIffInLastReport` | rentgen_core/git_observer.py:179-269 | a finding is open if and only if the last report holds it |
| `FindingHistory.RunIsTold` | rentgen_core/git_observer.py:251-269 | the events of every identity follow new (resolved reopened)* resolved?, and replaying them tells which findings are open |
| `Watcher.BackoffDelay` | rentgen_core/git_watcher.py:672-679 | the delay is min(max_backoff, interval * 2^failures) for every failure count |
| `Watcher.Outbox.Read` | rentgen_core/git_watcher.py:320-375 | the queue reads back as stored unless its counter has passed 2^63 |
| `Watcher.Outbox.Enqueue` | rentgen_core/git_watcher.py:411-432 | a new notification gets the next identifier, never used before, at the end of the queue; the queue stays readable unless that identifier was the last one |
| `Watcher.IssueLast` | rentgen_core/git_watcher.py:320-456 | the last identifier can be issued, and afterwards every operation on the queue is refused |
| `Watcher.Outbox.Peek` | rentgen_core/git_watcher.py:434-440 | the first notifications, in order |
| `Watcher.Outbox.Ack` | rentgen_core/git_watcher.py:442-456 | removes the acknowledged notification; exactly the others remain, in order |
| `Scheduler.Journal.Begin` | rentgen_core/git_watcher.py:167-176 | a run begins unless another one is marked running |
| `Scheduler.Journal.MarkRunning` | rentgen_core/git_watcher.py:190-193 | only the active run advances the journal |
| `Scheduler.Journal.Record` | rentgen_core/git_watcher.py:195-207 | an event is recorded for the active run, within bounds |
| `Scheduler.Journal.Stop` | rentgen_core/git_watcher.py:209-215 | ends the active run |
| `Scheduler.Journal.Recover` | rentgen_core/git_watcher.py:217-232 | closes an interrupted run and keeps its counters |
| `Scheduler.RunCycle` | rentgen_core/git_watcher.py:688-741 | one cycle does exactly what its specification says, records at most one event, and a refusal that ends the run closes the journal itself |
| `Scheduler.RaisedExactly` | rentgen_core/git_watcher.py:681-769 | a run ends with an exception if and only if some cycle that begins breaks: a callback that is called raises, the counter is exhausted, or the event cannot be recorded |
| `Scheduler.EndsAt` | rentgen_core/git_watcher.py:681-769 | the last cycle that begins ends the run with its outcome, counted if and only if it ticked, and with a last sleep if and only if it came to it |
| `Scheduler.AllGoOn` | rentgen_core/git_watcher.py:681-769 | a run whose cycles all go on finishes at the end of its script or at its bound, with a sleep after every cycle but the one that reaches the bound |
| `Scheduler.RunsOutExactly` | rentgen_core/git_watcher.py:681-769 | the cycle counter runs out if and only if cycles are unbounded, every cycle before the last number goes on, and the cycle at that number still ticks |
| `Scheduler.EndlessRetriesRunOut` | rentgen_core/git_watcher.py:681-769 | such a script exists: retried refusals only |
| `Scheduler.Run` | rentgen_core/git_watcher.py:681-769 | outcome, cycles and number of sleeps of a run are those of its script; whatever `tick`, `sleep` and the stop predicate raise, the journal is left idle with its cycles and failures, except that it is left running exactly when the counter runs out; delays follow the failures since the last success, and the newest events are retained |

## Left out

Members whose statement is narrower than the code:

- SnapshotSession.Session.Enter: file stamps, names and digests enter as outcomes of a step; the accounting of resident bytes and the separate bound on retained descriptors are not modelled.
- Membership.ReplayReturnsOriginal: for an author that may still administer; a former administrator is refused before the log is read.
- PublicationRuns.ReplayReturnsOriginal: for a caller that still has `analysis:run` and writes, as the code demands before it looks for the operation.
- ReceiptsRead.RecordedIsRead: the JSON library is a parameter, of which only "reads back what was printed, up to the order of fields" is used; `JsonReader` is such a library.
- CanonicalDocuments.DecodeAcceptsExactly: the same for the byte reader.
- JsonReader.ReadWritten: fractions and exponents, which the printer never writes, are not read.
- IdentityOutcomes.ListedExactly: which single records are proper, and the index of a child, are parameters.
- Scheduler.Run: journal and outbox files are read and written without fault.
- Publication.StateTransaction.ConfigureSourceLayers: the syntax of root paths is not modelled, their normalized form is a given text, and what the directories on disk have against them is a parameter.
- ManifestReader.SourceExactly: the rules for project identifiers, layers, roots and paths are parameters, and the reasons of a refusal are not told apart.
- ManifestReader.ManifestExactly: the same, for the digest as well.
- IdentityInventory.Normalize: the shape of single records is a parameter, and the validation summary, whose refusals come after the limit on owners, is not modelled.
- Watcher.Outbox.Enqueue: whether an event is an object within the size limits is a parameter.

Modelled on values rather than as objects:

- The capture orchestrator: stages are transitions of a state machine, because other captures run in between; the gate is a class. File verification, deadlines and cancellation inside a stage appear as failures that may strike at any boundary.
- The draft and publication rules are functions on tables; the classes `Store` and `StateTransaction` are proved against them.

Not modelled:

- Argument type checks, foreign project identifiers, locator syntax, lone surrogates, and principal identifiers that the `Principal` constructor refuses.
- SQLite, files, clocks, identifiers and digests: transactions are atomic, and timestamps and digests are parameters or abstract functions.
- Actor and timestamp columns and the outbox rows of a publication; paging of memberships.
- Schema upgrades with their receipts, backups, recovery staging, and `state.upgraded` rows among the membership receipts.
- The reconcile wrapper of `state_migration.py`; those of `drafts.py` and `access.py` are instances of `Acknowledgement`, the one of `publication.py` is part of `Capture`.
- `difflib` merging of adjacent equal blocks: the edits depend on the gaps between blocks only, which are the same.
- The popularity heuristic of the matcher, which the program switches off.
- Owner, thread and reentrancy checks of budget, graph reader and session; readers without a budget.
- The SQL authorizer and the traversal queries of `_verified_graph.py`.
- Base64 text of `read_draft`; its offsets and chunks are modelled on bytes.
- Of `edt_identity_three_way.py`: the order and the counts of the rows of a plan, the checks of parser, layers, source references and validation summary, and the digests. The shape of a single record, its path grammar included, is a parameter.
- Observing Git, running analyses, and delivering notifications.
