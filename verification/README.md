# Verified models of the agents-misc tools

A Dafny project that models the parts of the repository whose correctness cannot be read off one
branch, and proves what they are for. Each component is one file, and its modules follow the
component's own structure: values are datatypes, objects whose methods update them are classes
whose methods are proved against a specification function, and the properties are lemmas about that
function over all inputs, runs or interleavings.

| file | component |
|---|---|
| `JsonlReader.dfy` | the bounded line reader of the rollout index and its stable-prefix checkpoint |
| `TailWindow.dfy` | the rolling 64 KiB tail kept while a file is read |
| `ScanIndex.dfy` | the decision between a full and an append scan, and the tables a scan moves through |
| `ScanRuns.dfy` | runs of full, append and aborted scans of a growing file |
| `Json.dfy`, `Decimal.dfy`, `Utf16Order.dfy`, `CanonicalKey.dfy` | JSON values, decimal text, UTF-16 order and the canonical key that decides equality |
| `JsonReader.dfy` | a reader of JSON texts, against which the key is proved |
| `SchemaConjunction.dfy` | the meaning of schema nodes, their conjunction and the `allOf` fold |
| `SchemaShape.dfy` | the form of a conjunction, keyword by keyword |
| `SchemaConditions.dfy` | what a conjunction does to `if`, `then` and `else` |
| `PatchInstall.dfy` | the crash-safe patch install with its write-ahead receipt |
| `RecoveryCuts.dfy`, `PatchFileNames.dfy` | which receipts a recovery survives when it dies itself; the names of patch files |
| `Ownership.dfy` | path ownership, and splitting a tree's changes into a patch series |
| `SseHub.dfy` | the event hub: ring, broadcast channel and de-duplicating cursor |
| `OutputRetention.dfy` | append-only retention of a guest command's output across crashes |
| `IoGate.dfy` | the admission gate: priorities, permits and a token bucket |
| `GuestSessions.dfy` | the ledger of guest sessions and its bound of seven |
| `JobGraph.dfy` | reachability through `needs` in a workflow's job graph |
| `Dedup.dfy`, `DedupRules.dfy` | the entry deduper: identity, window, active calls and merges; its rules one by one |
| `Text.dfy`, `TextLines.dfy` | text normalisation, and what it keeps |
| `Search.dfy`, `Snippets.dfy` | case-folded search ranges and grapheme snippets |
| `Common.dfy` | shared vocabulary |

`dafny verify dfyconfig.toml` checks the whole project.

## Assumptions

SHA-256 is collision-free: a digest is a datatype around the hashed value, so digests are equal
exactly when the values are, and a streaming hash is the bytes fed to it. File systems, SQL, the
network, clocks and processes are parameters: sequences, maps, step relations, and counts that say
after how many writes a process dies. Single-file writes are atomic in the patch install. Each lock
makes one step of what it guards. Real numbers stand for the gate's floating-point tokens.

## What the proofs found

- An incomplete tail is added to the reader's offset twice (reader.rs lines 107 and 143); the stable
  prefix is not affected (`JsonlReader.BoundedJsonlReader.ReadNext`).
- A scan that appends stores the hash of the appended bytes only, because it starts a new hash
  (scanner.rs line 883); the stored checkpoint verifies exactly for scans from offset 0
  (`ScanRuns.StoredCheckpointVerifiesIffFromStart`).
- A rewritten middle of an old snapshot can go unnoticed exactly when the snapshot is longer than
  128 KiB (`ScanIndex.AppendIsProofIff`).
- A conjunction can accept what a closed side rejects (`SchemaConjunction.ClosedSideIsWeakened`), and
  drops a listed 1.0 where the types have `integer` and not `number` (`IntegralFloatIsRefused`,
  `MistypedIff`, `MistypedIsLost`). With both, the exact relation is `ConjoinMeans`.
- A conjunction is refused for a conflict below a property even when that property is optional
  (`NestedConflictMayBeSatisfiable`). Which values that loses is `LostByRefusal`; it loses none but
  dropped ones when the property is required (`UnavoidableIsUnsatisfiable`).
- Conjoining breaks `if`, `then` and `else` in two ways: a half that loses against the base is moved
  into a conjunct of its own and what its pair demanded is gone (`SchemaConditions.LosingThenSaysNothing`,
  `LosingIfSaysNothing`), and halves that say nothing on their own sides are joined into a new demand
  (`JoinedHalvesSayMore`). Exactly when is `SchemaConditions.ConjoinKeepsConditionsIff`.
- A receipt that names a path twice is read. A restoring recovery leaves the old states exactly when
  its records of one path agree on them (`PatchInstall.RecoveryIsAllOrNothing`), and a crash can leave
  it refused for good exactly when what it restores does not fit them
  (`RecoveryCuts.RecoverySurvivesIff`, `DisagreeingReceiptGetsStuck`). Installs write only receipts
  that agree, and these survive any crashes (`AgreeingReceiptSurvives`).
- Admission to reads is not fair: of two background scans one can starve while the other takes every
  byte (`IoGate.BackgroundCanStarve`). What a scan can count on is `IoGate.GrantedUnlessTaken`.
- A lagging subscriber is told to reload under the id after its cursor. If the cursor stands at the
  newest id, the next event gets that same id and is never sent (`SseHub.CollidingLosesTheNextEvent`,
  `SseHub.AnEventCanBeLost`); this is the only way to lose one (`SseHub.LagIsSafeIff`,
  `SseHub.EveryLaterEventArrives`).
- A text merge into an entry whose call is active updates the recent copy only; the call's next
  record is merged into the older copy, and the entry then returned lacks the raw references and the
  text of that merge (`Dedup.DetachedReferenceIsDropped`). The staged references still hold them,
  because staging only adds.
- A snippet may cut a match that would fit into it (`Snippets.FittingMatchCanBeCut`); exactly when is
  `Snippets.FirstMatchShownIff`.

## Model

| member | source | states |
|---|---|---|
| `JsonlReader.LinesPartitionTheFile` | tools/agents-viewer/src/rollout/reader.rs:93-166 | the lines of a file are consecutive, numbered, newline-delimited segments that cover it exactly; a terminated line is oversize exactly when it is longer than the bound |
| `JsonlReader.PartitionIsUnique` | tools/agents-viewer/src/rollout/reader.rs:93-166 | no other list of lines divides the file that way, so the division is what defines the lines |
| `JsonlReader.BoundedJsonlReader.ReadNext` | tools/agents-viewer/src/rollout/reader.rs:93-166 | for every way the source is cut into buffers: the next line, the new offset, line number and stable prefix, and never more than the bound held in memory; an incomplete tail leaves the stable prefix alone |
| `JsonlReader.BoundedJsonlReader.ReadSegment` | tools/agents-viewer/src/rollout/reader.rs:106-150 | the inner loop takes exactly the bytes up to the next newline or the end, keeping them only while they fit |
| `JsonlReader.BoundedJsonlReader.ReadAll` | tools/agents-viewer/src/rollout/normalize/driver.rs:127-163 | reading to the end gives the lines from the current offset on, and a checkpoint at the last newline with the hash of what precedes it |
| `JsonlReader.BoundedJsonlReader.New` | tools/agents-viewer/src/rollout/reader.rs:39-49 | a fresh reader stands at line 1, offset 0, with an empty stable prefix |
| `JsonlReader.BoundedJsonlReader.FromPosition` | tools/agents-viewer/src/rollout/reader.rs:51-66 | a resumed reader claims the offset as stable but starts with an empty hash |
| `JsonlReader.BoundedJsonlReader.FromPositionWithHasher` | tools/agents-viewer/src/rollout/reader.rs:68-84 | a resumed reader continues a given hash |
| `JsonlReader.TailFollowsTerminated` | tools/agents-viewer/src/rollout/reader.rs:86-166 | all lines are the terminated ones, ended by one incomplete tail exactly when bytes follow the last newline |
| `JsonlReader.ResumeAtStableEnd` | tools/agents-viewer/src/rollout/reader.rs:51-66 | the lines of a grown file are the terminated lines of the old one followed by what a reader resumed at its stable end gives |
| `JsonlReader.ResumeTerminated` | tools/agents-viewer/src/rollout/reader.rs:51-91 | the same for the terminated lines alone, so resuming can be repeated |
| `JsonlReader.StableEndIsMonotone` | tools/agents-viewer/src/rollout/reader.rs:86-91 | stable ends and line counts found after a resume are those of a full read |
| `JsonlReader.ResumedCheckpointVerifiesIff` | tools/agents-viewer/src/rollout/reader.rs:66-84 | a resumed reader's checkpoint verifies exactly when it was seeded with the hash of everything before its start |
| `TailWindow.ControlledReader.WithTailSeed` | tools/agents-viewer/src/index/scanner.rs:1115-1130 | a seed longer than the window keeps only its last bytes |
| `TailWindow.ControlledReader.CaptureTail` | tools/agents-viewer/src/index/scanner.rs:1136-1152 | draining and extending in place leaves the last bytes of the old tail followed by the new bytes |
| `TailWindow.ControlledReader.CaptureAll` | tools/agents-viewer/src/index/scanner.rs:1154-1167 | any sequence of reads leaves the last bytes of everything read |
| `TailWindow.LastOfConcat` | tools/agents-viewer/src/index/scanner.rs:1136-1152 | forgetting what left the window never changes a later window |
| `TailWindow.AppendTailIsFullTail` | tools/agents-viewer/src/index/scanner.rs:862-885 | after an append scan the window is that of the whole file, also when the checkpoint lies before the old window |
| `ScanIndex.AppendChosenIff` | tools/agents-viewer/src/index/scanner.rs:788-887 | for a completed row an append is planned exactly when key, growth, steadiness, head and old tail window agree |
| `ScanIndex.GrownFileIsResumed` | tools/agents-viewer/src/index/scanner.rs:788-887 | a file that kept its key and its old bytes and grew is resumed at the old stable end, with that line number and tail |
| `ScanIndex.AppendProvesPrefix` | tools/agents-viewer/src/index/scanner.rs:1021-1080 | for old snapshots of at most 128 KiB, planning an append proves that the old snapshot is a prefix |
| `ScanIndex.LongSnapshotMayBeRewrittenUnnoticed` | tools/agents-viewer/src/index/scanner.rs:1052-1080 | for every longer one that fails: a rewritten middle is still resumed |
| `ScanIndex.AppendIsProofIff` | tools/agents-viewer/src/index/scanner.rs:1021-1080 | so planning an append proves the prefix for every file exactly when the old snapshot has at most 128 KiB |
| `ScanIndex.PlansExactly` | tools/agents-viewer/src/index/scanner.rs:788-887 | for any row at all: an append is planned exactly for the row of a finished scan of an older, smaller version of the file that agrees in its first and last 64 KiB, from its checkpoint with the bytes of the old tail before it; an error when such a row names no session |
| `ScanIndex.NoRowIsFullScan` | tools/agents-viewer/src/index/scanner.rs:788-810 | without a row there is nothing to resume |
| `ScanIndex.IndexDatabase.BeginScan` | tools/agents-viewer/src/index/writer.rs:485-534 | what beginning a scan does to every table |
| `ScanIndex.IndexDatabase.WriteBatch` | tools/agents-viewer/src/index/writer.rs:585-687 | a batch upserts its rows under its token and nothing else |
| `ScanIndex.IndexDatabase.FinishScan` | tools/agents-viewer/src/index/writer.rs:689-881 | the whole new state after a commit: rows kept, dropped and moved from staging, and the source row |
| `ScanIndex.IndexDatabase.AbortScan` | tools/agents-viewer/src/index/writer.rs:883-888 | an abort drops the token's staging |
| `ScanIndex.IndexDatabase.CleanupToken` | tools/agents-viewer/src/index/writer.rs:916-930 | cleaning up a token leaves other tokens' rows alone |
| `ScanIndex.BeginKeepsTheSnapshot` | tools/agents-viewer/src/index/writer.rs:485-534 | beginning a scan notes what is scanned and by whom, and leaves the last snapshot, the committed rows and other tokens alone |
| `ScanIndex.CommitRecordsTheScan` | tools/agents-viewer/src/index/writer.rs:855-881 | a commit makes what was scanned the snapshot, under the next revision, and lets go of its token |
| `ScanIndex.CommitMovesTheRows` | tools/agents-viewer/src/index/writer.rs:740-852 | the committed rows are those before an append's checkpoint and all staged ones, where a name already there keeps its place |
| `ScanIndex.UpsertsExactly` | tools/agents-viewer/src/index/writer.rs:592-612 | a staged name keeps its place and takes the new hash and flag |
| `ScanRuns.EveryFinishIsAFreshFullScan` | tools/agents-viewer/src/index/writer.rs:740-810 | in every run of full, append and aborted scans of a growing file, the committed rows after each finish are those of one fresh full scan of the snapshot, and so is the tail hash |
| `ScanRuns.NothingChangesBeforeAFinish` | tools/agents-viewer/src/index/writer.rs:855-891 | between finishes the committed rows stay as they are |
| `ScanRuns.RevisionCountsCommits` | tools/agents-viewer/src/index/writer.rs:855-881 | in every run the revision counts the commits |
| `ScanRuns.ScansOfAGrownFileAppend` | tools/agents-viewer/src/index/scanner.rs:788-887 | in every reachable state the next scan appends exactly when something is committed and the file has grown |
| `ScanRuns.StepKeepsInv` | tools/agents-viewer/src/index/writer.rs:485-931 | every step of growing, beginning, batching, finishing or aborting keeps the invariant of rows, staging and plan |
| `ScanRuns.RunKeepsInv` | tools/agents-viewer/src/index/writer.rs:485-931 | so every reachable state satisfies it |
| `ScanRuns.FinishRows` | tools/agents-viewer/src/index/writer.rs:740-810 | kept and staged rows together match the lines of the snapshot |
| `ScanRuns.FinishRecords` | tools/agents-viewer/src/index/writer.rs:689-739 | the committed source row describes the snapshot the next plan is compared with |
| `ScanRuns.KeptAndReadAreAll` | tools/agents-viewer/src/index/scanner.rs:741-777 | the lines an append keeps and those it reads are all lines |
| `ScanRuns.MatchingRowsAreTheLines` | tools/agents-viewer/src/index/writer.rs:740-810 | matching rows hold each line once and nothing else |
| `ScanRuns.StoredCheckpointVerifiesIffFromStart` | tools/agents-viewer/src/index/scanner.rs:862-885 | the checkpoint hash stored by a scan verifies exactly when the scan started at offset 0 |
| `CanonicalKey.KeyDecidesEquality` | tools/codex-config-atlas/src/codex_config_atlas/json_value.py:8-37 | two values have the same key exactly when they are equal as JSON: numbers by value, members in any order |
| `JsonReader.KeyReads` | tools/codex-config-atlas/src/codex_config_atlas/json_value.py:8-37 | a reader written from the grammar of RFC 8259 reads the key as the value it was made from, with integers in integer form and members in canonical order, and nothing is left over |
| `JsonReader.CanonicalIsOrdered` | tools/codex-config-atlas/src/codex_config_atlas/json_value.py:27-36 | what is read is equal to the value and has its members in UTF-16 order at every depth |
| `JsonReader.IntegerKeyReads` | tools/codex-config-atlas/src/codex_config_atlas/json_value.py:15-24 | an integer, also one held as a float, is written as an integer that reads as its value |
| `JsonReader.EscapedOnlyWhere` | tools/codex-config-atlas/src/codex_config_atlas/json_value.py:25-26 | only quotes, backslashes and control characters are escaped, in the short form where there is one |
| `CanonicalKey.Readable` | tools/codex-config-atlas/src/codex_config_atlas/json_value.py:8-37 | a rendering followed by anything that ends a number can be read in one way only |
| `CanonicalKey.KeysSelfDelimit` | tools/codex-config-atlas/src/codex_config_atlas/json_value.py:8-37 | keys followed by such text agree only if values and continuations do |
| `CanonicalKey.OntoIsKey` | tools/codex-config-atlas/src/codex_config_atlas/json_value.py:8-37 | rendering with a continuation is the key followed by the continuation |
| `CanonicalKey.EqualOnto` | tools/codex-config-atlas/src/codex_config_atlas/json_value.py:27-36 | equal values render alike, whatever order their members came in |
| `CanonicalKey.SortSorts` | tools/codex-config-atlas/src/codex_config_atlas/json_value.py:29-36 | sorting keeps exactly the members, in strictly increasing UTF-16 order of their names |
| `CanonicalKey.SameNamesSameOrder` | tools/codex-config-atlas/src/codex_config_atlas/json_value.py:29-36 | objects with the same names list them in the same order |
| `Utf16Order.EncodeInjective` | tools/codex-config-atlas/src/codex_config_atlas/json_value.py:32-35 | the UTF-16 encoding used as sort key tells all names apart |
| `Utf16Order.LessTotal` | tools/codex-config-atlas/src/codex_config_atlas/json_value.py:32-35 | of two different names one comes first |
| `Utf16Order.LessStrict` | tools/codex-config-atlas/src/codex_config_atlas/json_value.py:32-35 | the order is strict and transitive |
| `Utf16Order.NotCodePointOrder` | tools/codex-config-atlas/src/codex_config_atlas/json_value.py:32-35 | it is not the order of code points, as section 3.2.3 of RFC 8785 has it |
| `Utf16Order.LessIsByUnits` | tools/codex-config-atlas/src/codex_config_atlas/json_value.py:32-35 | of two names that begin with different characters the order of UTF-16 code units decides, the empty one comes first |
| `Utf16Order.LessByCharacter` | tools/codex-config-atlas/src/codex_config_atlas/json_value.py:32-35 | a common beginning does not matter |
| `Decimal.IntTextInjective` | tools/codex-config-atlas/src/codex_config_atlas/json_value.py:15-24 | different integers are written differently |
| `Decimal.TextMeansNumber` | tools/codex-config-atlas/src/codex_config_atlas/json_value.py:15-24 | the text of an integer has no leading zero and reads, by place value, as that integer |
| `SchemaConjunction.TotalMeans` | tools/codex-config-atlas/src/codex_config_atlas/schema_normalize.py:222-405 | with the always-false schema put where a conflict lies: both schemas accept a value and none of its parts is dropped exactly when the result accepts it and no member escapes a closed side, for all schemas, refused or not, at any depth |
| `SchemaConjunction.ConjoinIsTotal` | tools/codex-config-atlas/src/codex_config_atlas/schema_normalize.py:222-405 | when the source does not refuse, its result is that total conjunction |
| `SchemaConjunction.ConjoinMeans` | tools/codex-config-atlas/src/codex_config_atlas/schema_normalize.py:222-405 | so this is what a conjunction that is not refused means, up to exactly the dropped values and the escaping members |
| `SchemaShape.ConjunctionExactly` | tools/codex-config-atlas/src/codex_config_atlas/schema_normalize.py:222-405 | the merged node in full, keyword by keyword: types, listed values, required names, properties, additional members, branches with one conjunct for each losing keyword, and the other keywords in key order |
| `SchemaShape.ListedExactly` | tools/codex-config-atlas/src/codex_config_atlas/schema_normalize.py:264-280 | the listed values are the first copies in the list of the base, or of the overlay when the base lists none, that the other side lists too, that the types accept and that are not mistyped, in the order of that list; refused exactly when none is left |
| `SchemaShape.TypesExactly` | tools/codex-config-atlas/src/codex_config_atlas/schema_normalize.py:250-262 | the types are the meets in row order without repetition, less integer beside number, or those of the one side that has some |
| `SchemaShape.RequiredExactly` | tools/codex-config-atlas/src/codex_config_atlas/schema_normalize.py:282-293 | the required names are those of both sides, each where it comes first |
| `SchemaShape.PropertiesExactly` | tools/codex-config-atlas/src/codex_config_atlas/schema_normalize.py:295-316 | a property that one side declares is taken over, one that both declare is conjoined, and no other appears |
| `SchemaShape.AdditionalExactly` | tools/codex-config-atlas/src/codex_config_atlas/schema_normalize.py:318-337 | additional members are closed when one side is closed, and the schema of the other side when one is open |
| `SchemaShape.LosingExactly` | tools/codex-config-atlas/src/codex_config_atlas/schema_normalize.py:389-403 | the keywords moved into conjuncts are exactly those of the overlay under whose key the base has another value, less the descriptive ones, in key order |
| `SchemaShape.TrueIsNeutral` | tools/codex-config-atlas/src/codex_config_atlas/schema_normalize.py:222-230 | conjoining with true gives the other side, or the empty node |
| `SchemaConjunction.ConjoinAcceptsWhatBothAccept` | tools/codex-config-atlas/src/codex_config_atlas/schema_normalize.py:222-405 | of what both schemas accept, exactly the values with a dropped part are lost, and no member escapes |
| `SchemaConjunction.NamesAgreeLetsNothingEscape` | tools/codex-config-atlas/src/codex_config_atlas/schema_normalize.py:222-405 | nothing escapes when each side is open or declares all names of the other, at every depth |
| `SchemaConjunction.ConjoinIsConjunction` | tools/codex-config-atlas/src/codex_config_atlas/schema_normalize.py:222-405 | when besides no shared list holds a mistyped float the result accepts exactly what both accept |
| `SchemaConjunction.FittingListsDropNothing` | tools/codex-config-atlas/src/codex_config_atlas/schema_normalize.py:264-280 | two schemas drop nothing when no copy that counts is a mistyped float where they meet, a condition on the schemas alone |
| `SchemaConjunction.MistypedIff` | tools/codex-config-atlas/src/codex_config_atlas/schema_normalize.py:75-116 | the type test turns away a value that the types accept exactly when it is an integral float, integer is among the types and number is not |
| `SchemaConjunction.MistypedIsLost` | tools/codex-config-atlas/src/codex_config_atlas/schema_normalize.py:264-280 | when a conjunction is not refused and the copy that counts is such a float, the equal values are allowed by the types and lists of both and refused by the result |
| `SchemaConjunction.ClosedSideIsWeakened` | tools/codex-config-atlas/src/codex_config_atlas/schema_normalize.py:222-405 | without it the result may accept what a closed side rejects |
| `SchemaConjunction.RefusedIffConflict` | tools/codex-config-atlas/src/codex_config_atlas/schema_normalize.py:222-405 | conjoining refuses exactly when the schemas conflict: no common type, or no value both allow that is not dropped as a mistyped float, at the node, in a property both declare or in what both say of other members, at any depth |
| `SchemaConjunction.TypesRefusedIff` | tools/codex-config-atlas/src/codex_config_atlas/schema_normalize.py:250-262 | a refusal over types means that no listed type of one side meets one of the other |
| `SchemaConjunction.ValuesRefusedIff` | tools/codex-config-atlas/src/codex_config_atlas/schema_normalize.py:264-280 | a refusal over enum and const means that every value both sides list is turned away by the types |
| `SchemaConjunction.LostByRefusal` | tools/codex-config-atlas/src/codex_config_atlas/schema_normalize.py:222-405 | a refusal loses exactly the undropped values that the total conjunction accepts without an escape, and none of them reaches a conflict |
| `SchemaConjunction.MeetingIsUnsatisfiable` | tools/codex-config-atlas/src/codex_config_atlas/schema_normalize.py:295-335 | both schemas accept no value that reaches a conflict through its own members, but for dropped ones |
| `SchemaConjunction.UnavoidableIsUnsatisfiable` | tools/codex-config-atlas/src/codex_config_atlas/schema_normalize.py:282-335 | so refusing a conflict below required properties of objects loses nothing, but for dropped values |
| `SchemaConjunction.OwnConflictIsUnsatisfiable` | tools/codex-config-atlas/src/codex_config_atlas/schema_normalize.py:250-280 | a conflict at the node itself leaves no value, but for dropped ones |
| `SchemaConjunction.NestedConflictMayBeSatisfiable` | tools/codex-config-atlas/src/codex_config_atlas/schema_normalize.py:295-335 | a conflict below a property is refused although objects without that property satisfy both |
| `SchemaConjunction.IntegralFloatIsRefused` | tools/codex-config-atlas/src/codex_config_atlas/schema_normalize.py:75-116 | a listed 1.0 is refused against the type integer although the integer 1 satisfies both |
| `SchemaConjunction.TypeIntersectionMeans` | tools/codex-config-atlas/src/codex_config_atlas/schema_normalize.py:58-72 | the intersection of type lists accepts exactly what both accept, integers within numbers included |
| `SchemaConjunction.ConjoinValuesMeans` | tools/codex-config-atlas/src/codex_config_atlas/schema_normalize.py:264-280 | enum and const of both sides, filtered by type, allow exactly the values both list, less those whose first copy on the listing side is mistyped |
| `SchemaConjunction.ConjoinRequiredMeans` | tools/codex-config-atlas/src/codex_config_atlas/schema_normalize.py:282-293 | the union of required names |
| `SchemaConjunction.MergeOtherMeans` | tools/codex-config-atlas/src/codex_config_atlas/schema_normalize.py:382-404 | keywords judged one by one that cannot be merged are kept as conjuncts, none lost |
| `SchemaConditions.ConjoinKeepsConditionsIff` | tools/codex-config-atlas/src/codex_config_atlas/schema_normalize.py:382-404 | with if, then and else judged together: the merged node rejects nothing that both sides allow exactly when it joins no halves from different sides, and allows nothing that a side rejects exactly when no half of a pair loses; both are conditions on what each side has under these keys |
| `SchemaConditions.MergeHolds` | tools/codex-config-atlas/src/codex_config_atlas/schema_normalize.py:389-403 | the merged keywords are all of the base and, under the keys it lacks, those of the overlay |
| `SchemaConditions.NotStricterIff` | tools/codex-config-atlas/src/codex_config_atlas/schema_normalize.py:389-403 | for all values and judgements, lists of keywords say no less than another exactly when they have all its pairs of an if with a then or else |
| `SchemaConditions.JoinedHalvesSayMore` | tools/codex-config-atlas/src/codex_config_atlas/schema_normalize.py:400-403 | an if on one side and a then on the other, which say nothing, are joined into a rule |
| `SchemaConditions.LosingIfSaysNothing` | tools/codex-config-atlas/src/codex_config_atlas/schema_normalize.py:391-398 | a losing if is kept without its then, and what it demanded is gone |
| `SchemaConditions.LosingThenSaysNothing` | tools/codex-config-atlas/src/codex_config_atlas/schema_normalize.py:391-398 | a losing then is kept without its if, and what it demanded is gone |
| `SchemaConjunction.FoldMeans` | tools/codex-config-atlas/src/codex_config_atlas/schema_normalize.py:195-220 | folding any number of allOf branches means all of them, up to exactly what is dropped and what escapes |
| `SchemaConjunction.ResolveMeans` | tools/codex-config-atlas/src/codex_config_atlas/schema_normalize.py:164-220 | resolving a schema tree keeps its meaning, up to exactly what is dropped and what escapes |
| `SchemaConjunction.ComputeTypeIntersection` | tools/codex-config-atlas/src/codex_config_atlas/schema_normalize.py:58-72 | the loops compute the specified intersection |
| `SchemaConjunction.ComputeUnique` | tools/codex-config-atlas/src/codex_config_atlas/schema_normalize.py:18-26 | the loop keeps the first value of each key |
| `SchemaConjunction.ComputeProperties` | tools/codex-config-atlas/src/codex_config_atlas/schema_normalize.py:295-314 | the loop over property names builds the specified merged map or refuses |
| `SchemaConjunction.ComputeConjunction` | tools/codex-config-atlas/src/codex_config_atlas/schema_normalize.py:222-405 | the step-by-step merge computes the specified conjunction |
| `SchemaConjunction.ComputeResolution` | tools/codex-config-atlas/src/codex_config_atlas/schema_normalize.py:195-220 | the fold over branches computes the specified resolution |
| `PatchInstall.InterruptedInstallIsAtomic` | codex/scripts/workflow.py:1588-1781 | after an install that died and any crashes of later recoveries, once no receipt is left the directory is as before or as the candidate |
| `PatchInstall.NoReceiptMeansAcceptedBaseline` | codex/scripts/workflow.py:1477-1521 | in every reachable state no receipt means the last export is absent or equals the directory, so the next refresh accepts its baseline |
| `PatchInstall.ReachableRecoveryRefusesIff` | codex/scripts/workflow.py:1588-1675 | in every reachable state, with HEAD moving at any time, recovery refuses exactly while HEAD is not where the receipt was written; otherwise it has nothing to do or can finish |
| `PatchInstall.NothingChangesAtAnotherHead` | codex/scripts/workflow.py:1602-1607 | until HEAD is back, files, receipt and export stay as they are, whatever recoveries are tried |
| `PatchInstall.RecoveryGoesExactly` | codex/scripts/workflow.py:1588-1675 | from any world with a receipt: recovery writes nothing unless the receipt belongs to this HEAD and names patch files; it cleans up, completes or restores exactly when the paths are all old, all new in the manifest's directory, or old and new with good backups |
| `PatchInstall.RecoveryTouchesOnly` | codex/scripts/workflow.py:1664-1675 | names that the receipt does not list keep their files, and only a completed install is exported |
| `PatchInstall.JudgesExactly` | codex/scripts/workflow.py:1477-1485 | the baseline is accepted exactly when it is the last export, and missing exactly when nothing is left of one |
| `PatchFileNames.PatchFileNameIff` | codex/scripts/workflow.py:30 | a patch file name is exactly four digits, a hyphen, words joined by single hyphens and the suffix |
| `PatchInstall.RecoveryIsAllOrNothing` | codex/scripts/workflow.py:1588-1675 | from any world with a receipt: a refusal writes nothing; a cut recovery keeps its receipt; a finished one drops it and leaves every path new or, when it restores, old, the latter exactly when records that name the same path agree on its old state; then every cut leaves each path old or new |
| `RecoveryCuts.RecoverySurvivesIff` | codex/scripts/workflow.py:1588-1675 | from any world whose recovery is not refused: however often and wherever it dies, the next one is not refused either, exactly when all paths are old or all new already or each state that restoring leaves is an old or a new one for every record of its path |
| `RecoveryCuts.EitherAtEveryCutIff` | codex/scripts/workflow.py:1636-1673 | no cut leaves a path in a state foreign to one of its records exactly when the targets of the receipt fit |
| `RecoveryCuts.CutRestoreRefusesIff` | codex/scripts/workflow.py:1629-1642 | after a cut restore the next recovery refuses exactly when some path is in a foreign state |
| `RecoveryCuts.AgreeingReceiptSurvives` | codex/scripts/workflow.py:1588-1675 | a receipt whose records agree on old states survives any number of crashes |
| `RecoveryCuts.DisagreeingRecordsMayFit` | codex/scripts/workflow.py:1664-1673 | records that disagree can fit all the same |
| `RecoveryCuts.DisagreeingReceiptGetsStuck` | codex/scripts/workflow.py:1636-1673 | a receipt that does not fit: cut after one write, its recovery refuses from then on |
| `PatchInstall.PatchStore.ReadBackups` | codex/scripts/workflow.py:1642-1663 | all backups are checked first; of two for one path the later counts |
| `PatchInstall.InstallUpTo` | codex/scripts/workflow.py:1678-1781 | what an install cut after any number of writes leaves behind |
| `PatchInstall.RecoverUpTo` | codex/scripts/workflow.py:1588-1675 | what a recovery cut after any number of writes leaves behind |
| `PatchInstall.RecoveryDecides` | codex/scripts/workflow.py:1610-1665 | which way recovery goes for an interrupted install |
| `PatchInstall.StepKeepsInv` | codex/scripts/workflow.py:1588-1781 | every install or recovery, cut anywhere, keeps the invariant of receipt, files and export |
| `PatchInstall.RunKeepsInv` | codex/scripts/workflow.py:1588-1781 | so every reachable state satisfies it |
| `PatchInstall.PatchStore.InstallPatchFiles` | codex/scripts/workflow.py:1678-1781 | the sequence of writes performs the specified operations, as far as the process lives |
| `PatchInstall.PatchStore.RecoverPatchInstall` | codex/scripts/workflow.py:1588-1675 | recovery decides and writes as specified, as far as the process lives |
| `Ownership.ValidateOwnership` | codex/scripts/workflow.py:260-276 | the nested loops accept exactly when no two entries overlap |
| `Ownership.AcceptedMeansOneOwner` | codex/scripts/workflow.py:90-98 | then no path has two owners |
| `Ownership.OverlapMeansTwoOwners` | codex/scripts/workflow.py:260-276 | an overlap names a path that both entries own |
| `Ownership.OwnerForIsTheOwner` | codex/scripts/workflow.py:139-152 | looking up a path's owner never finds several, and finds exactly the one that owns it |
| `Ownership.SplitThenReplayRebuildsTheTree` | codex/scripts/workflow.py:1819-1852 | splitting a tree's changes by owner and applying the parts in series order onto the base gives the tree |
| `Ownership.PartsApplyInOrder` | codex/scripts/workflow.py:1359-1389 | after the first k parts exactly the changes of the first k owners are in place |
| `Ownership.AcceptedManifestSplits` | codex/scripts/workflow.py:1819-1852 | for an accepted manifest the split succeeds exactly when every changed path has an owner and every patch owns a change |
| `Ownership.ApplySeries` | codex/scripts/workflow.py:1359-1389 | the loop applies the parts one after the other, stopping at the first that fails |
| `Ownership.SeriesAppliesIff` | codex/scripts/workflow.py:1359-1389 | a series applies exactly when each patch is not empty, touches only paths that its spec alone owns and expects the contents of the start tree; then the tree has all their new contents and is otherwise as it was |
| `Ownership.OwnerForIff` | codex/scripts/workflow.py:139-152 | whatever the manifest, the lookup names a patch exactly when it is the only owner |
| `SseHub.ResumingMissesNothing` | tools/agents-viewer/src/server/sse.rs:71-160 | whatever happened before and however publisher and subscriber interleave: a client resuming from an id, never told to reload and caught up, was sent every event after that id exactly once, in order |
| `SseHub.StreamBeginsExactly` | tools/agents-viewer/src/server/sse.rs:71-102 | in every run a stream begins with a request to reload exactly when the client resumed from an id whose next event was no longer among the last 512 pushed, and with all events after its id otherwise |
| `SseHub.ReplayIsExact` | tools/agents-viewer/src/server/sse.rs:147-160 | what is replayed, and exactly when a cursor has expired |
| `SseHub.ConnectingReadsTheRing` | tools/agents-viewer/src/server/sse.rs:71-102 | connecting in one go reads the ring as it stands |
| `SseHub.NewClientSeesOnlyLater` | tools/agents-viewer/src/server/sse.rs:76-80 | a client that resumes from nothing is sent only events broadcast after it connected |
| `SseHub.TurnIsExact` | tools/agents-viewer/src/server/sse.rs:103-135 | one turn of the loop: the replay first, the next event when at most 512 behind, a request to reload otherwise |
| `SseHub.NoGapNoRepeat` | tools/agents-viewer/src/server/sse.rs:58-160 | in every run, what was sent since the last resync is a gap-free prefix of the events above the base, and all of those broadcast once caught up |
| `SseHub.DeliveredIdsIncrease` | tools/agents-viewer/src/server/sse.rs:131-135 | in every run ids reach a client in strictly increasing order, resyncs included |
| `SseHub.EveryLaterEventArrives` | tools/agents-viewer/src/server/sse.rs:110-135 | when no lag happens with the cursor at the newest id, every event allocated after connecting or after the last resync arrives |
| `SseHub.LagIsSafeIff` | tools/agents-viewer/src/server/sse.rs:114-128 | a lag's synthetic resync leaves every later event above the base exactly when the cursor was below the newest id |
| `SseHub.BelowTheBaseIsNeverSent` | tools/agents-viewer/src/server/sse.rs:131-135 | nothing at or below the base is sent while it stands |
| `SseHub.CollidingLosesTheNextEvent` | tools/agents-viewer/src/server/sse.rs:114-135 | after a lag with the cursor at or beyond the newest id, the events up to the synthetic id are never sent, in any continuation of any run |
| `SseHub.AnEventCanBeLost` | tools/agents-viewer/src/server/sse.rs:85-135 | a reachable run in which the event that gets the synthetic id is dropped |
| `SseHub.StepKeepsInv` | tools/agents-viewer/src/server/sse.rs:58-160 | every publishing and reading step keeps the hub and the stream consistent |
| `SseHub.RunKeepsInv` | tools/agents-viewer/src/server/sse.rs:58-160 | so every reachable state satisfies it |
| `SseHub.RingAnswers` | tools/agents-viewer/src/server/sse.rs:147-160 | the ring answers for the whole history unless the cursor has expired |
| `SseHub.CursorDecides` | tools/agents-viewer/src/server/sse.rs:131-135 | after the replay, a live event is above the cursor exactly when it is new and above the base |
| `SseHub.EventHub.BeginPublish` | tools/agents-viewer/src/server/sse.rs:58-60 | an id is taken |
| `SseHub.EventHub.Push` | tools/agents-viewer/src/server/sse.rs:61-66 | the ring drops its oldest event when full |
| `SseHub.EventHub.Send` | tools/agents-viewer/src/server/sse.rs:67-68 | the event is broadcast |
| `SseHub.EventHub.Publish` | tools/agents-viewer/src/server/sse.rs:58-69 | uninterrupted, the event gets the next id, is broadcast, and the ring holds the last 512 events |
| `SseHub.EventHub.ReplayEvents` | tools/agents-viewer/src/server/sse.rs:147-160 | the loop collects the retained events after the cursor and detects an expired one |
| `SseHub.Subscription.Subscribe` | tools/agents-viewer/src/server/sse.rs:71-102 | subscribing before reading the ring, with a fresh resync instead of an expired replay |
| `SseHub.Subscription.Poll` | tools/agents-viewer/src/server/sse.rs:103-142 | the stream's loop skips what the cursor has passed and sends the first item beyond it, or waits with nothing left |
| `OutputRetention.RunKeepsInv` | tools/vm-test-mcp/internal/control/command_output.go:23-114 | over any polls, partial writes, saves and crashes, whatever the guest says: the file only grows, the recorded offset stays within it, a complete record has the file's length and hash, and a saved end is final |
| `OutputRetention.StepKeepsInv` | tools/vm-test-mcp/internal/control/command_output.go:23-114 | each step does, and changes nothing once an end is saved |
| `OutputRetention.ReplayAddsNothingTwice` | tools/vm-test-mcp/internal/control/command_output.go:23-55 | after any number of crashes during its write, replaying a chunk leaves what one undisturbed write leaves |
| `OutputRetention.AppendOnlyAppends` | tools/vm-test-mcp/internal/control/command_output.go:23-55 | appending extends the file, and on success the file holds the chunk at its offset |
| `OutputRetention.AppendsExactly` | tools/vm-test-mcp/internal/control/command_output.go:23-55 | appending fails before a gap and against other bytes, and otherwise adds just what is missing |
| `OutputRetention.RefusedExactlyWhen` | tools/vm-test-mcp/internal/control/command_output.go:57-85 | a chunk is refused exactly when it does not continue the confirmed bytes within 64 MiB, or is neither still to come nor at most 256 KiB of intact data that matches its checksum; and with which error |
| `OutputRetention.RetainsExactly` | tools/vm-test-mcp/internal/control/command_output.go:57-114 | what a reply makes of an unfinished record: it completes exactly when the stream ends and its totals agree with the file |
| `OutputRetention.EndsIncompleteExactly` | tools/vm-test-mcp/internal/control/command_output.go:90-112 | why an ended stream is not complete |
| `OutputRetention.BetweenPolls` | tools/vm-test-mcp/internal/control/command_output.go:57-60 | saving, crashing and stopping |
| `OutputRetention.RetainedIsAPrefix` | tools/vm-test-mcp/internal/control/command_output.go:57-114 | with one fixed guest stream the file is always its prefix, and complete means it is the whole |
| `OutputRetention.AnswersAreRetained` | tools/vm-test-mcp/internal/control/command_output.go:57-114 | a reply that follows the protocol is retained and confirmed, and the last one completes the record |
| `OutputRetention.CrashesNeverLoseOutput` | tools/vm-test-mcp/internal/control/command_output.go:57-114 | collecting from such a guest never ends incomplete, however often the process dies |
| `OutputRetention.OutputFile.Append` | tools/vm-test-mcp/internal/control/command_output.go:23-55 | the checks and the positioned write perform the specified append |
| `OutputRetention.RetainedStream.RetainStream` | tools/vm-test-mcp/internal/control/command_output.go:57-114 | the record and the file after a reply, and when another poll is due at once |
| `IoGate.BackgroundIsRateLimited` | tools/agents-viewer/src/index/control.rs:151-203 | in every run, over every span of time, background scans are granted at most 65536 bytes plus 8 MiB per second |
| `IoGate.PermitsAreCounted` | tools/agents-viewer/src/index/control.rs:219-232 | the active count is the number of permits held, at most two, so releasing one never clips |
| `IoGate.LeasesMatchTheTable` | tools/agents-viewer/src/index/control.rs:96-150 | the table holds exactly the live leases, each with its own priority |
| `IoGate.GrantedExactlyWhen` | tools/agents-viewer/src/index/control.rs:151-203 | a read is granted exactly when no live lease of a higher priority exists, fewer than two permits are held and, in the background, a whole byte is in the bucket by now; it gets between 1 byte and 64 KiB as asked, or what the bucket holds, and takes that from it |
| `IoGate.PromotionRaises` | tools/agents-viewer/src/index/control.rs:129-150 | a promotion leaves a lease the higher of two priorities and every other lease alone |
| `IoGate.LeasesComeAndGo` | tools/agents-viewer/src/index/control.rs:96-115 | a new lease gets the next id, a permit given back is that one, a dropped lease is gone |
| `IoGate.GrantedUnlessTaken` | tools/agents-viewer/src/index/control.rs:151-203 | over any run, however often others tried: a background read with only the bucket in its way is granted unless less than a byte is left of what the bucket held, what flowed in and what was taken; exactly then, while the bucket does not run over |
| `IoGate.AloneWaitsOneByte` | tools/agents-viewer/src/index/control.rs:151-203 | so a scan that no other background grant overtakes waits at most one byte's refill time |
| `IoGate.BackgroundCanStarve` | tools/agents-viewer/src/index/control.rs:151-203 | admission is not fair: from every reachable state with two contending background scans and no read under way, some run turns one away any number of times, a slot free each time, and never serves it |
| `IoGate.RunIsAccounted` | tools/agents-viewer/src/index/control.rs:249-256 | over any run, what background scans took and what the bucket holds are what it held and what flowed in, up to a full bucket |
| `IoGate.PrioritiesNeverDrop` | tools/agents-viewer/src/index/control.rs:129-150 | over any run a lease's priority never drops and its id is never reused |
| `IoGate.RunKeepsInv` | tools/agents-viewer/src/index/control.rs:96-256 | every reachable state satisfies the gate's invariant |
| `IoGate.RefillKeepsMetered` | tools/agents-viewer/src/index/control.rs:249-256 | a refill keeps grants plus tokens within the bucket and its refills |
| `IoGate.AdmissionGate.RegisterScan` | tools/agents-viewer/src/index/control.rs:96-115 | registering adds one entry under a new id |
| `IoGate.AdmissionGate.PromoteScan` | tools/agents-viewer/src/index/control.rs:129-150 | promoting raises both copies of the priority or neither |
| `IoGate.AdmissionGate.RefillBackgroundTokens` | tools/agents-viewer/src/index/control.rs:249-256 | the bucket after a refill |
| `IoGate.AdmissionGate.AnyHigher` | tools/agents-viewer/src/index/control.rs:172-173 | the scan of the table finds a higher priority exactly when there is one |
| `IoGate.AdmissionGate.TryAcquire` | tools/agents-viewer/src/index/control.rs:164-191 | one turn of the waiting loop |
| `IoGate.AdmissionGate.Release` | tools/agents-viewer/src/index/control.rs:219-232 | releasing a permit |
| `IoGate.AdmissionGate.Unregister` | tools/agents-viewer/src/index/control.rs:234-247 | dropping a lease |
| `GuestSessions.NeverMoreThanSeven` | tools/vm-test-mcp/internal/control/guest_sessions.go:118-137 | in every interleaving of calls at most four hold a slot, and unconfirmed names plus running calls never exceed seven, so the ledger's overflow failure never occurs |
| `GuestSessions.SevenIsReached` | tools/vm-test-mcp/internal/control/guest_sessions.go:118-120 | seven unconfirmed names can occur, so the bound is exact |
| `GuestSessions.StepKeepsInv` | tools/vm-test-mcp/internal/control/guest_exec.go:68-90 | every step of arriving, taking a slot, asking, finishing, leaving and inspecting keeps the bound |
| `GuestSessions.RunKeepsInv` | tools/vm-test-mcp/internal/control/guest_exec.go:68-90 | so every reachable state satisfies it |
| `GuestSessions.NamesLeaveOnlyWhenGone` | tools/vm-test-mcp/internal/control/guest_sessions.go:182-198 | a name leaves the ledger exactly when a successful inspection reports its session gone |
| `GuestSessions.BaselineGrowsOnlyWhenIdle` | tools/vm-test-mcp/internal/control/guest_sessions.go:182-194 | the count of foreign sessions rises only when nothing of ours could account for the difference |
| `GuestSessions.AdmittedOnlyWhenClear` | tools/vm-test-mcp/internal/control/guest_sessions.go:67-101 | no call is admitted while sessions are unattributed or four names are unconfirmed |
| `GuestSessions.KeptIsExact` | tools/vm-test-mcp/internal/control/guest_sessions.go:194-198 | exactly the names reported absent are deleted |
| `GuestSessions.RetiredIsRecorded` | tools/vm-test-mcp/internal/control/guest_sessions.go:48-66 | a finished run or copy whose process ran to its end is recorded once, and nothing else is |
| `GuestSessions.AdmitsExactlyWhen` | tools/vm-test-mcp/internal/control/guest_sessions.go:67-101 | a turn looks again when it must and may, and admits exactly when fewer than four names, fewer than 24 sessions and nothing unattributed are left |
| `GuestSessions.FailsExactlyWhen` | tools/vm-test-mcp/internal/control/guest_sessions.go:121-182 | why a look fails, in the order in which it is found out |
| `GuestSessions.ReconcilesExactly` | tools/vm-test-mcp/internal/control/guest_sessions.go:121-210 | what a look changes: the error and the next time only when it fails, every field when it succeeds |
| `GuestSessions.ObservesWhenDue` | tools/vm-test-mcp/internal/control/guest_sessions.go:103-116 | an observer looks when the time has come and not before |
| `GuestSessions.CallsMove` | tools/vm-test-mcp/internal/control/guest_exec.go:68-90 | where each action takes a call; no fifth call gets a slot |
| `GuestSessions.SessionTracker.RetireGuestSession` | tools/vm-test-mcp/internal/control/guest_sessions.go:48-66 | retiring a call records its name unless no process ran to its end |
| `GuestSessions.SessionTracker.ReconcileSessions` | tools/vm-test-mcp/internal/control/guest_sessions.go:121-210 | reconciliation, with each way it can fail |
| `GuestSessions.SessionTracker.AdmitGuestSession` | tools/vm-test-mcp/internal/control/guest_sessions.go:67-101 | one turn of the admission loop |
| `JobGraph.DependsOn` | scripts/check-workflows.py:58-70 | the search answers exactly whether the target is the start or reachable through needs, on every finite graph, cyclic or not; equivalently, whether no set of jobs closed under needs holds the start without it |
| `JobGraph.HasAncestor` | scripts/check-workflows.py:58-70 | with a visited set shared between siblings: a hit is a path, and a miss leaves everything newly visited closed under needs and free of the target |
| `JobGraph.GateHoldsInEveryRun` | scripts/check-workflows.py:171-176 | whenever a run that respects needs reaches the job, the required one has come before it |
| `JobGraph.ReachableIsInseparable` | scripts/check-workflows.py:58-70 | whatever is closed under needs and holds the start holds what it reaches |
| `JobGraph.ParentIff` | scripts/check-workflows.py:49-55 | a job needs exactly the one name it gives, or the names of a list that holds nothing else |
| `Dedup.EntriesAreIdentified` | tools/agents-viewer/src/rollout/dedup.rs:37-143 | over a whole session with lines in order, resumed from stored entries as often as one likes: the entries returned are numbered from 1 without a gap, and two of them have the same id exactly when they are versions of one entry |
| `Dedup.IdsDecide` | tools/agents-viewer/src/rollout/dedup.rs:185-211 | equal ids come from the same anchor, details and occurrence, whatever the fields contain |
| `Dedup.NewIdIsUnique` | tools/agents-viewer/src/rollout/dedup.rs:176-211 | a new id differs from every id issued before |
| `Dedup.AcceptKeepsTidy` | tools/agents-viewer/src/rollout/dedup.rs:67-143 | the window never holds an id twice, and every active call is filed under its own call id and unfinished |
| `Dedup.SeedIsTidy` | tools/agents-viewer/src/rollout/dedup.rs:37-59 | so it is after resuming from stored entries |
| `Dedup.Deduper.Resume` | tools/agents-viewer/src/rollout/dedup.rs:37-59 | the loop tracks the stored entries again, and the unfinished calls become active |
| `Dedup.NoReferenceIsDropped` | tools/agents-viewer/src/rollout/dedup.rs:239-245 | while no text merge hits an entry whose call is still active, every entry returned holds all raw references of all records merged into it, across resumed scans too |
| `Dedup.DetachedReferenceIsDropped` | tools/agents-viewer/src/rollout/dedup.rs:103-127 | otherwise the next record of that call yields the entry as if the text merge, its text and its references, had not been |
| `Dedup.ReferenceCanBeDropped` | tools/agents-viewer/src/rollout/dedup.rs:103-127 | such a run exists |
| `Dedup.MergeReplaces` | tools/agents-viewer/src/rollout/dedup.rs:67-127 | a merge replaces every tracked copy of the entry, unless it detaches an active call |
| `DedupRules.ChoosesExactly` | tools/agents-viewer/src/rollout/dedup.rs:71-174 | which entry a record belongs to: the last of its source item; a call's unfinished entry, or its first within ten lines; otherwise the last of its kind, role and phase that says the same within ten lines or two seconds; a new one when there is none |
| `DedupRules.MergedFields` | tools/agents-viewer/src/rollout/dedup.rs:239-292 | what each field of a merged entry is: a status in the record reaches the entry; texts, title and kind come from the better source; a text that continues the other replaces it; nothing is added twice |
| `DedupRules.MergedMetadata` | tools/agents-viewer/src/rollout/dedup.rs:294-323 | attachment counts become the larger one, any other key of the record replaces the entry's |
| `DedupRules.RefsAreAppended` | tools/agents-viewer/src/rollout/dedup.rs:239-245 | exactly the new references are appended, each once, in the record's order |
| `DedupRules.MergeExactly` | tools/agents-viewer/src/rollout/dedup.rs:71-127 | a merge yields the merged entry and tracks it as the newest |
| `DedupRules.ActiveExactly` | tools/agents-viewer/src/rollout/dedup.rs:71-127 | under which call the entry is active after a merge |
| `DedupRules.FreshExactly` | tools/agents-viewer/src/rollout/dedup.rs:128-143 | a new entry is numbered, tracked, and active when it is an unfinished call |
| `DedupRules.WindowExactly` | tools/agents-viewer/src/rollout/dedup.rs:214-236 | the window after a copy came: without its older copy, the new one last, less what lies in front more than ten lines back and more than two seconds apart |
| `DedupRules.SeedTracksEach` | tools/agents-viewer/src/rollout/dedup.rs:37-59 | resuming tracks each stored entry as if it had just come |
| `DedupRules.BasisFields` | tools/agents-viewer/src/rollout/dedup.rs:176-211 | the basis of an id falls into session, anchor, kind, time, call and hash of the body, in this order |
| `DedupRules.OccurrencesCount` | tools/agents-viewer/src/rollout/dedup.rs:189-208 | the occurrence of an id counts from zero on each line |
| `DedupRules.SessionIsFixedOnce` | tools/agents-viewer/src/rollout/dedup.rs:61-65 | the session can be named until an entry has been issued |
| `DedupRules.RecordIsNormalised` | tools/agents-viewer/src/rollout/dedup.rs:67-69 | both texts of a record are normalised, each on its own, and lose nothing but blanks |
| `Text.NormalizeIsNormal` | tools/agents-viewer/src/rollout/dedup.rs:346-355 | normalising gives one kind of line end, no blanks before one and none at the end |
| `TextLines.CharactersAreKept` | tools/agents-viewer/src/rollout/dedup.rs:346-355 | every character that is not blank is kept, in order |
| `TextLines.LinesAreKept` | tools/agents-viewer/src/rollout/dedup.rs:346-355 | with LF, CR LF and CR each ending a line, every line becomes its longest prefix that does not end in a blank, and the lines that are missing at the end are blank |
| `TextLines.TrimIsTheMiddle` | tools/agents-viewer/src/rollout/dedup.rs:165-170 | trimming leaves what lies between the blanks at both ends |
| `TextLines.BlanksAre` | tools/agents-viewer/src/rollout/dedup.rs:346-355 | the blanks are the white space of Unicode |
| `Text.NormalIffFixed` | tools/agents-viewer/src/rollout/dedup.rs:346-355 | a text is normal exactly when normalising leaves it as it is, so normalising twice changes nothing |
| `Text.JoinIsNormal` | tools/agents-viewer/src/rollout/dedup.rs:274-284 | joining two normal texts on separate lines keeps them normal |
| `Dedup.TextsStayNormal` | tools/agents-viewer/src/rollout/dedup.rs:67-69 | whatever a record's texts look like, the entry it yields and everything tracked hold normal texts only |
| `Dedup.Merge` | tools/agents-viewer/src/rollout/dedup.rs:239-292 | a merge keeps id, sequence and session, and appends the new raw references |
| `Dedup.Choose` | tools/agents-viewer/src/rollout/dedup.rs:71-127 | the entry a record is merged into exists, and calls are matched only with calls |
| `Dedup.LastSource` | tools/agents-viewer/src/rollout/dedup.rs:71-77 | the last recent entry of the same source item |
| `Dedup.FirstCall` | tools/agents-viewer/src/rollout/dedup.rs:103-106 | the first recent entry of the same call within the line window |
| `Dedup.LastText` | tools/agents-viewer/src/rollout/dedup.rs:145-174 | the last recent entry whose text the record repeats or continues |
| `Dedup.Deduper.AcceptEntry` | tools/agents-viewer/src/rollout/dedup.rs:67-143 | a record is normalised, merged into the entry it belongs to or issued as a new one, as specified |
| `Dedup.Deduper.AcceptNormalized` | tools/agents-viewer/src/rollout/dedup.rs:71-143 | the branches perform the specified choice and update |
| `Dedup.Deduper.IssueEntry` | tools/agents-viewer/src/rollout/dedup.rs:129-131 | numbering and naming a new entry |
| `Dedup.Deduper.Track` | tools/agents-viewer/src/rollout/dedup.rs:214-236 | the window drops the old copy, appends the new one and is pruned from the front |
| `Dedup.Deduper.FindTextDuplicate` | tools/agents-viewer/src/rollout/dedup.rs:145-174 | the backward search |
| `Dedup.Deduper.SetSession` | tools/agents-viewer/src/rollout/dedup.rs:61-65 | the session id is fixed once an entry has been issued |
| `Search.ContainsIffRanges` | tools/agents-viewer/src/index/search.rs:403-410 | a text contains the folded query exactly when it has a range to show |
| `Search.RangeHoldsQuery` | tools/agents-viewer/src/index/search.rs:453-472 | every range is a non-empty part of the text whose folding contains the folded query |
| `Search.YieldedIsListed` | tools/agents-viewer/src/index/search.rs:461-471 | the range of every occurrence is listed |
| `Search.ListedIsYielded` | tools/agents-viewer/src/index/search.rs:461-471 | and nothing else is |
| `Search.MatchRangesAscend` | tools/agents-viewer/src/index/search.rs:461-471 | starts and ends never go back, even where one character folds to several |
| `Search.MapCovers` | tools/agents-viewer/src/index/search.rs:474-484 | each folded character is mapped to the character whose folding covers it |
| `Search.WindowRanges` | tools/agents-viewer/src/index/search.rs:432-433 | searching a part finds exactly the text's own ranges inside it, shifted |
| `Search.LowercaseWithMap` | tools/agents-viewer/src/index/search.rs:474-484 | the two vectors are built to be the folded text and its map |
| `Snippets.SnippetHoldsTheMatch` | tools/agents-viewer/src/index/search.rs:412-434 | a truncated snippet is exactly the requested number of consecutive graphemes and holds the first match's grapheme, with two thirds of the window or the rest of the text after it |
| `Snippets.MatchGraphemeHolds` | tools/agents-viewer/src/index/search.rs:417-428 | the cursor finds the grapheme in which the first match begins |
| `Snippets.SnippetRangesAreExact` | tools/agents-viewer/src/index/search.rs:432-433 | a truncated snippet's ranges are exactly the text's ranges inside the window |
| `Snippets.FirstMatchShownIff` | tools/agents-viewer/src/index/search.rs:412-434 | the first match starts inside the window and is highlighted exactly when it ends there |
| `Snippets.ShortMatchIsShown` | tools/agents-viewer/src/index/search.rs:429-431 | a match that ends within two thirds of the window is always highlighted |
| `Snippets.FittingTextIsWhole` | tools/agents-viewer/src/index/search.rs:412-416 | a text that fits is shown whole, with all its ranges |
| `Snippets.WindowBeginsExactly` | tools/agents-viewer/src/index/search.rs:429-431 | a third of the window lies before the match, unless the text begins or ends sooner |
| `Snippets.FittingMatchCanBeCut` | tools/agents-viewer/src/index/search.rs:429-431 | a longer one may be cut although it would fit into the snippet |
| `Snippets.MakeSnippet` | tools/agents-viewer/src/index/search.rs:412-434 | the loop with the cursor computes the specified snippet |

## Left out

- Rollout index: I/O errors while reading, entries, diagnostics and full-text rows (one raw row per line read is modelled), catalog refreshes and other writers of the same source, id conflicts between sources, retries and priorities of the writer queue.
- Config Atlas: `$ref` and its cycles, `patternProperties`, malformed documents, definitions, defaults and deprecation marks, union summaries and field reports; Python's `True == 1` in raw comparisons; values that are not JSON.
- CanonicalKey.Readable: non-integral numbers and strings are rendered by assumed faithful texts (a fraction carries its own text, strings use a modelled escape), because float formatting is not part of this model.
- JsonReader.KeyReads: the reader knows escapes of the form \u00xx only, which are all that a key can hold.
- SchemaConjunction.ConjoinMeans: every keyword that is not interpreted is judged by itself. What becomes of `if`, `then` and `else`, which depend on each other, is `SchemaConditions.ConjoinKeepsConditionsIff`; `items` and `additionalItems` depend on each other too and are not judged together.
- Patch install: version-1 receipts, non-regular files, directory syncs, and the `git` commands that compute and apply patches; file and directory conflicts inside a tree.
- PatchInstall.NoReceiptMeansAcceptedBaseline: the manifest is fixed and nothing edits the directory from outside; `RecoveryIsAllOrNothing` covers any world, with what it restores depending on whether records that name the same path agree.
- Event hub: overlapping publishers, the connection limit, shutdown, server restarts that reset ids, and what events say.
- Output retention: the snapshot's own validation, deadlines other than as a step that stops collecting, stdin packets, and files that are not regular; the two streams of a command are two instances of the model.
- IoGate.BackgroundIsRateLimited: counts the bytes granted by permits; readers are trusted to read no more than their permit allows.
- Admission gate: lock poisoning, cancellation, the wake-up order of waiting readers and floating-point rounding.
- Guest sessions: the text of session names, the command itself and its result, timeouts while waiting for the ledger's lock other than as a call that gives up; names are kept in the order sent rather than sorted.
- Job graph: YAML loading, and the other rules of the workflow check.
- Dedup.Deduper.AcceptEntry: saturation of the sequence and occurrence counters is not modelled, because no session reaches it.
- Dedup.EntriesAreIdentified: a candidate's first raw reference is free of NUL and identifies its line; a scan resumes only after one that was committed, so every entry returned is stored; which stored rows it reads back, and their lines, are left open.
- Search: the full-text query, ranking and filters, Unicode's own folding and grapheme tables (both are parameters), and the 32-bit form of the ranges.
- Web UI, hook scripts, configuration validation, TOML rendering, difference reports and native code: input and output, or case tables.
