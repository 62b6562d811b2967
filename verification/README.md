# Verified model of the Neottia authorities

Neottia keeps several plain-data authorities on disk: host configuration files that an installer
edits, layered configuration, issues, memories and design documents. Each is meant to survive
every step, merge, crash and index without losing or inventing anything. This project models the
logic behind that promise and proves it.

**A. The journaled installer** (`Values`, `Files`, `Transaction`, `JsonPaths`, `HostConfig`, `Planner`,
`Conservation`). A file system is a map from paths to contents and every publication or unlink is
one atomic step. `Transaction` states the protocol twice: as a state machine whose events are disk
steps, exceptions just before or after a step, crashes and recoveries, and as the class
`Installer`, whose methods write step by step while the environment chooses how each step ends.
Atomicity holds over every run in which no exception follows the commit point; without that
hypothesis it holds exactly for plans that change at most one path, and a concrete trace shows the
failure for all others. `HostConfig` gives read-over-write laws for structured edits, `Planner`
the inspection and the plan, and `Conservation` the results over whole runs, whose moves may each
have been interrupted and recovered: a plan achieves what it says and nothing else, the receipt
always remembers the original state, an uninstall is always possible and restores it, and planning
again is possible and changes nothing.

**B. Layered configuration** (`Overlays`, `Resolver`, `Registry`, `Snapshot`). `Overlays` is the
reference: a pure fold of trees whose leaves carry their source, in which the last layer that
writes at a path decides it. In `Resolver` mappings are mutable objects, and the merge with its side
map of sources writes into them; it refines the fold, writes into its own objects only, and leaves
the defaults and every patch as they were, even when these share objects among themselves.
Registration accepts exactly distinct ids and prefix-free paths, so the shards located in a fragment
accepted without diagnostics are its split along the owned paths and reassemble to the same leaves.
Deriving a snapshot agrees with the resolver, except that stale entries may remain in its source
map; when they do is stated exactly.

**C. Issues** (`Graphs`, `IssueGraph`, `IssueStore`, `IssueProjection`, `IssueCache`, with `Texts` for
order and repetition of strings). Depth-first cycle detection is
exact, inspection reports nothing exactly for valid graphs, a subtree is collected without a
visited set because legal parent types fall in rank, moves and relations are accepted exactly when
the graph stays valid. `IssueProjection` builds the tables of the search index in the order in which
the queries of `IssueCache` read them back in pages of limited size, and a stored index is accepted
exactly when it is that projection and no single row is too large to be read.

**D. Lifecycles** (`Supersession`, `MemoryStore`, `MemoryIndex`, `DesignCatalog`, `DesignDocs`). Memories
are retired once and never revive; an import is accepted exactly when the union is valid. Design
documents form lineages that stay whole over every run, whose approved versions never change, and
whose operations are never refused by a lineage check.

**E. Arithmetic kernels** (`CodeUnits`, `Diagnostics`, `Encodings`, `Sanitizer`, `Ulid`). `Diagnostics` states as a
function what a bounded copy keeps of a value and proves its laws: charges cover the JSON text,
something is left out exactly when a limit is exceeded, and what is kept is a trimmed prefix.
`Encodings` writes out the texts and bytes that are counted and reads them back; `Sanitizer` refines
the copy with the mutable budget. The streaming ULID encoder emits the digits of the big-integer one,
and its accumulator never outgrows twelve bits while it does.

Code that changes state step by step is modelled by classes and by methods with loops, each proved
against a specification function or predicate; the results over all runs are lemmas about those.

Modelling decisions that the statements rest on: SHA-256 is an injective constructor; unit keys are
tuples; documents are JSON trees and pointers are already decoded; an object is a finite map or, in
`Diagnostics`, its sorted list of entries with distinct keys; a domain operation on a repository
is one serialized atomic batch; no mutation targets the journal or the lock, and a single installer
runs at a time. Identities, clocks and entropy are parameters. Strings are ordered by code: the code
compares UTF-16 units and SQLite compares UTF-8 bytes, which agree on the ASCII identifiers that the
issue schema admits.
The results over whole installer runs hold for units that do not overlap, whose array identities
are unique in the files and whose desired array values carry the identity they are filed under
(`HostConfig.VersionedIdentity` says when they do), with no edits from outside between the moves;
rollback is the one operation also proved against arbitrary outside edits.

## Model

| member | source | states |
|---|---|---|
| Transaction.ValidatePlan | packages/distribution/src/planner.ts:132-154 | a plan is accepted exactly when no path occurs twice and every written content has its checksum |
| Transaction.AfterAt | packages/distribution/src/transaction.ts:120-127 | executing a valid plan puts every planned path at its outcome and leaves every other path alone |
| Transaction.MatchesOne | packages/distribution/src/transaction.ts:214-220 | a content meets its own digest and no other expectation; an absent file meets absence only |
| Transaction.StepsAreGuarded | packages/distribution/src/transaction.ts:17-34 | from any state: a transaction begins exactly with nothing pending, a valid plan and no stale file, a stale file is never written, and a busy process starts nothing else |
| Transaction.LooseRun | packages/distribution/src/transaction.ts:17-117 | over every run, even with late exceptions, each path holds its before-image or its after-image and nothing else is touched |
| Transaction.TightRun | packages/distribution/src/transaction.ts:17-76 | without late exceptions the journal on disk also tells which of the two images all paths hold |
| Transaction.Atomicity | packages/distribution/src/transaction.ts:17-117 | over any run of steps, exceptions before the commit point, crashes and repeated recoveries, a settled disk is wholly before or wholly after the plan; a committed journal means after, a finished rollback means before |
| Transaction.RecoverySettles | packages/distribution/src/transaction.ts:58-76 | from any disk an interruption can leave, an undisturbed recovery settles |
| Transaction.AlwaysAtomicIff | packages/distribution/src/transaction.ts:35-46 | with exceptions allowed after the commit point, atomicity holds if and only if the plan changes at most one path |
| Transaction.HalfUndone | packages/distribution/src/transaction.ts:35-68 | the counterexample: commit, fail, roll back halfway, crash, recover leaves a half-undone state accepted as committed |
| Transaction.RollbackIsSafe | packages/distribution/src/transaction.ts:106-117 | against arbitrary outside edits a rollback stops at the highest path holding neither image, has restored every entry above it and touched nothing else |
| Transaction.RollbackIsReentrant | packages/distribution/src/transaction.ts:106-117 | rerunning a rollback cut short anywhere gives the result of one uncut rollback |
| Transaction.RollbackRestores | packages/distribution/src/transaction.ts:106-117 | from every disk the protocol can reach, rollback gives back the files as they were before the plan |
| Transaction.EditsSurvive | packages/distribution/src/transaction.ts:58-117 | content that is neither the recorded before-image nor what the after-digest was taken of outlives every sequence of recoveries, exceptions and crashes |
| Transaction.Installer.CreateJournal | packages/distribution/src/transaction.ts:86-103 | before-images are collected exactly when the plan is valid and no file is stale, that is, none holds other bytes, is gone, or is there though expected missing |
| Transaction.Installer.RollbackJournal | packages/distribution/src/transaction.ts:106-117 | the loop refines the rollback function, overwrites no outside edit and, when no disk step fails, stops early only at a path holding neither image |
| Transaction.Installer.PerformAll | packages/distribution/src/transaction.ts:28-34 | the mutations are executed in protocol order; with no failing disk step only a stale guard stops them |
| Transaction.Installer.Apply | packages/distribution/src/transaction.ts:17-55 | refused exactly on a pending journal, an invalid plan or a stale file, named by content and digest; otherwise applied means exactly the planned files, failed means unchanged files, and without failing disk steps it is applied |
| Transaction.Installer.Recover | packages/distribution/src/transaction.ts:58-76 | provided no exception followed the commit point, rolled back means the files before the plan and cleaned up means the files after it; in every case outside edits are kept; interrupted without a failing disk step only if some path holds neither image |
| JsonPaths.SetThenGet | packages/distribution/src/host-config.ts:102-104 | a value set at a path is read back there, with missing parents created |
| JsonPaths.SetFrame | packages/distribution/src/host-config.ts:102-104 | setting a path leaves every path that is neither above nor below it as it was |
| JsonPaths.RemoveFrame | packages/distribution/src/host-config.ts:102-104 | removing a path leaves every path that is neither above nor below it as it was |
| JsonPaths.InsertableIff | packages/distribution/src/host-config.ts:102-104 | a value can be added at a path exactly if there are only objects, or nothing yet, on the way to it |
| HostConfig.VersionedIdentity | packages/distribution/src/host-config.ts:137-144 | a package name, scoped or not, bare or with a version without @, is recognized as that package both with the npm: prefix and, as the OpenCode adapter writes it (extensions/opencode-adapter/src/index.ts:312-313), without |
| HostConfig.IdentityIs | packages/distribution/src/host-config.ts:137-144 | for every text: the identity is the name in front of the last @ that neither opens the text nor belongs to its scope, after an optional npm: prefix; an empty name has none |
| HostConfig.WrittenEntryReadsBack | packages/distribution/src/host-config.ts:57-73 | a written array entry reads back if and only if its value carries the identity it is filed under |
| HostConfig.DroppedEntryIsGone | packages/distribution/src/host-config.ts:57-73 | a dropped array entry is gone if and only if it was the only one with its identity |
| HostConfig.OtherEntriesKept | packages/distribution/src/host-config.ts:57-73 | editing one array entry keeps all others, in order |
| HostConfig.EditEntries | packages/distribution/src/host-config.ts:61-72 | push, replace and splice by first index refine the recursive entry edit |
| HostConfig.ApplyHostUnitStates | packages/distribution/src/host-config.ts:47-91 | the edit loop refines the fold of entry edits and fails exactly when it does |
| HostConfig.WriteReadsBack | packages/distribution/src/host-config.ts:26-91 | a change makes its own unit read as the planned state |
| HostConfig.WriteFrame | packages/distribution/src/host-config.ts:26-91 | a change leaves every independent unit, present or absent, readable or not, as it was |
| HostConfig.WritesReadBack | packages/distribution/src/host-config.ts:47-91 | after a list of changes every changed unit reads as planned and every independent unit as before |
| HostConfig.WritesUnchanged | packages/distribution/src/host-config.ts:47-91 | writing states that already hold returns the document itself |
| HostConfig.WritableIff | packages/distribution/src/host-config.ts:57-86 | a change succeeds exactly if its container is of the right kind or absent and what is added has somewhere to go |
| HostConfig.WritesSucceedIff | packages/distribution/src/host-config.ts:47-91 | independent changes can all be made exactly if each of them could be made alone |
| Planner.InspectAssets | packages/distribution/src/inspection.ts:44-92 | succeeds exactly when all desired units are distinct and readable, and lists each once as the disk holds it |
| Planner.InspectOwned | packages/distribution/src/inspection.ts:94-98 | adds exactly the owned units no longer desired, and fails exactly if one cannot be read |
| Planner.InspectInstallation | packages/distribution/src/inspection.ts:29-130 | succeeds exactly when the receipt parses, is there if no manifest is, units are distinct and all readable; then it holds one unit per desired or owned key, every asset of the manifest and every entry of the receipt among them |
| Planner.NextStateIs | packages/distribution/src/planner.ts:44-51 | an install or update gives a wanted unit its asset; an uninstall, and every unit no longer wanted, goes back to what was there before |
| Planner.ConflictsAreDeviations | packages/distribution/src/planner.ts:163-181 | a unit is reported exactly if it is there without a receipt entry, or is not what the recorded checksum was taken of; with that reason, and no key twice |
| Planner.ContentFor | packages/distribution/src/planner.ts:238-278 | a containing file has a target exactly when its units agree on it, files and entries are not mixed and every edit succeeds |
| Planner.BuildContentMutations | packages/distribution/src/planner.ts:224-296 | one guarded mutation for exactly the files whose target differs; fails exactly if some file cannot be planned |
| Planner.CreateInstallationPlan | packages/distribution/src/planner.ts:29-108 | succeeds exactly when the action may start and every file can be planned; the plan has those mutations, the next receipt last, and exactly the deviations from the receipt as conflicts |
| Planner.AuthorizePlan | packages/distribution/src/planner.ts:111-129 | approves exactly the given conflicts, whatever was approved before, and refuses exactly an unknown one |
| Planner.AssertPlanAuthorized | packages/distribution/src/planner.ts:157-161 | true exactly if every conflict is approved |
| Planner.OnlyApprovedDeviations | packages/distribution/src/planner.ts:111-161 | whatever an authorized plan overrides was approved unit by unit: every other inspected unit is absent and unowned or reads as the receipt recorded it |
| Conservation.FileAchieves | packages/distribution/src/planner.ts:224-296 | in the file a plan writes every planned unit reads as intended and every other unit as before |
| Conservation.PlanAchieves | packages/distribution/src/planner.ts:29-108 | once its mutations are done every inspected unit reads as planned, every other unit of the universe as before, and the receipt is the next one |
| Conservation.UnplannableIff | packages/distribution/src/planner.ts:224-296 | what stands in the way of a plan, first installs included: exactly a unit whose file is neither absent nor an object, or whose pointer runs through something else |
| Conservation.MoveConserves | packages/distribution/src/planner.ts:183-221 | install, update and uninstall keep the invariant: the receipt records the original state of each owned unit, and every other unit is in its original state |
| Conservation.InterruptedMoveConserves | packages/distribution/src/transaction.ts:17-117 | a plan interrupted any number of times and settled by recovery keeps that invariant too |
| Conservation.OriginalsConserved | packages/distribution/src/planner.ts:44-51 | over any sequence of moves with changing manifests, each carried out or interrupted and recovered, the receipt holds the state before the first installation |
| Conservation.UninstallRestores | packages/distribution/src/planner.ts:213-221 | after any such sequence an uninstall that is carried out returns every unit, ever owned or not, to its state before the first installation |
| Conservation.UninstallIsPossible | packages/distribution/src/planner.ts:29-60 | as long as there is a receipt, every owned unit can be inspected and the uninstall can be planned for every file |
| Conservation.ReplanIsEmpty | packages/distribution/src/planner.ts:44-89 | after a plan is carried out, an update planned from a new inspection has no mutations and no conflicts |
| Conservation.ReplanIsPossible | packages/distribution/src/planner.ts:29-60 | that inspection and that update plan always exist: the next inspection with the same manifest succeeds, the update may start and every file can be planned |
| Resolver.Provenance.Clear | packages/config/src/resolver.ts:763-768 | exactly the entries at and below a replaced path are removed |
| Resolver.Provenance.RecordLeaves | packages/config/src/resolver.ts:747-760 | below a path the map becomes exactly the leaves of the new value with their source, elsewhere unchanged |
| Resolver.CloneMutable | packages/config/src/immutable.ts:7-11 | a copy stands for the same data and shares no object with the original, nor any within itself |
| Resolver.Provenance.MergeValues | packages/config/src/resolver.ts:726-744 | the merge writes only into the objects of the lower value; its result stands for the erasure of the reference overlay and shares no object with the higher value, which keeps its objects and data; the map records exactly the leaves of the overlay |
| Resolver.Resolution.Apply | packages/config/src/resolver.ts:622-633 | applying a layer extends the fold by that layer and adds only new objects to the resolved value |
| Resolver.ResolveLayers | packages/config/src/resolver.ts:610-633 | resolved value and source map are the erasure and the leaf sources of the left fold of all layers; the value consists of new objects only, and the defaults and all patches, however they share objects, are never modified |
| Overlays.OverlayLeaves | packages/config/src/resolver.ts:726-768 | a leaf of the result comes from the patch, or was there and is not written over |
| Overlays.LastWriterWins | packages/config/src/resolver.ts:610-768 | the last layer that writes at a path decides whether it is a leaf, its value and its source; without one the defaults do |
| Registry.PathsOverlap | packages/config/src/registry.ts:337-343 | true exactly when one path is a prefix of the other |
| Registry.ValidateContributions | packages/config/src/registry.ts:145-184 | reports exactly the repeated ids and the clashes between any two differently placed canonical or legacy paths of all contributions, each under its code, and nothing exactly for distinct ids and prefix-free paths |
| Registry.ValidateOwnedTree | packages/config/src/resolver.ts:508-544 | no diagnostics exactly when every key is owned or leads to an owned path, in both compatibility modes |
| Registry.LocateShard | packages/config/src/resolver.ts:471-499 | accepted exactly when no two of its places, the canonical path and in a file the legacy ones, are declared; then whichever is declared is found there with its value, marked with its path if that is a legacy one |
| Registry.LocateShards | packages/config/src/resolver.ts:469-505 | for the contributions of a registry: valid exactly when none is declared at two of its paths; then under each id stands what the file declares at its canonical or a legacy path, and all together are exactly the split of the file along all owned paths |
| Registry.LeavesAreOwned | packages/config/src/resolver.ts:508-544 | every leaf of an accepted fragment lies under an owned path |
| Registry.OwnerIsUnique | packages/config/src/registry.ts:161-182 | no leaf lies under two of the prefix-free owned paths |
| Registry.ReassembledShards | packages/config/src/snapshot.ts:309-318 | placing shards at prefix-free paths clobbers none of them and nothing apart from them |
| Registry.LosslessOwnership | packages/config/src/registry.ts:161-182 | an accepted fragment and its reassembled shards have the same leaves with the same values |
| Snapshot.MergeIsOverlay | packages/config/src/snapshot.ts:285-290 | the pure merge of a snapshot is the in-place merge of the resolver with the sources forgotten |
| Snapshot.LeafPathsAre | packages/config/src/snapshot.ts:293-296 | the recursion lists exactly the paths of scalars, arrays and empty mappings |
| Snapshot.DeriveCovers | packages/config/src/snapshot.ts:157-208 | derivation gives the resolver's value and the right source at every current leaf |
| Snapshot.DeriveExactIff | packages/config/src/snapshot.ts:195-197 | the source map has no stale entry if and only if every lower leaf the patch writes at is a leaf of the patch and the patch has no empty mapping; it fails when a leaf is replaced by a mapping or a mapping by a leaf |
| Snapshot.StaleEntryRemains | packages/config/src/snapshot.ts:195-197 | the smallest case in which a stale entry remains |
| Snapshot.DeletedLeafPaths | packages/config/src/snapshot.ts:273-282 | deleting a present path removes exactly the leaves below it and leaves no emptied mapping behind |
| Snapshot.DeriveSnapshot | packages/config/src/snapshot.ts:157-208 | accepted exactly when the overrides are an object with a label and every leaf, empty mappings included, lies under a registered path; then each shard is the overlay of its patch |
| Snapshot.SecretsAreRedacted | packages/config/src/snapshot.ts:144-146 | no declared secret survives redaction, and what is apart from all of them is unchanged |
| Snapshot.RedactReads | packages/config/src/snapshot.ts:144-146 | what every path reads after redaction: a secret that is there reads as redacted and hides what is below it, an absent one stays absent, every other leaf is as it was |
| Snapshot.ToJson | packages/config/src/snapshot.ts:136-150 | every contribution's path holds its own redacted shard, whatever the others are |
| Graphs.AssertAcyclic | packages/issues/src/graph.ts:112-130 | terminates for every graph, returns exactly when no cycle exists, and otherwise names a node on one |
| Graphs.DepthFirst.Visit | packages/issues/src/graph.ts:117-128 | visiting keeps the open nodes a path and the finished ones ordered; a node found open lies on a cycle |
| Graphs.AcyclicWithEdge | packages/issues/src/graph.ts:112-130 | a new edge keeps a graph acyclic if and only if its target does not reach its source |
| IssueGraph.InspectIssueGraph | packages/issues/src/graph.ts:24-68 | at most a thousand findings, each a real defect, and none exactly when the graph is valid |
| IssueGraph.InspectEntry | packages/issues/src/graph.ts:36-56 | keeps the earlier findings and adds true ones, none exactly when there is no room or the issue's parent, location and targets are legal |
| IssueGraph.LegalChainsAreShort | packages/issues/src/graph.ts:6-12 | legal parent types alone exclude parent cycles and bound chains at five levels |
| IssueGraph.SubtreeByChildren | packages/issues/src/graph.ts:94-110 | a subtree is its root and the subtrees of its children in the same location |
| IssueGraph.IssueSubtree | packages/issues/src/graph.ts:94-110 | terminates without a visited set and lists, root first and without repeats, exactly the same-location descendants |
| IssueGraph.HydrateIssue | packages/issues/src/graph.ts:71-91 | children and inverse relations are exactly those the catalog implies, each list in order and, but for what blocks an issue, without repeats |
| IssueStore.ArchiveIsValid | packages/issues/src/store.ts:505-542 | archiving an active issue of a valid graph always gives a valid graph |
| IssueStore.RestoreIsValidIff | packages/issues/src/store.ts:505-542 | restoring an archived issue of a valid graph gives a valid graph if and only if its parent is absent or active |
| IssueStore.RestoreUndoesArchiveIff | packages/issues/src/store.ts:369-377 | restore undoes archive if and only if no descendant had been archived before |
| IssueStore.RelateIsValidIff | packages/issues/src/store.ts:286-305 | a relation is accepted if and only if its ends differ and, for a dependency, the target does not already reach the source |
| IssueStore.UnrelateIsValid | packages/issues/src/store.ts:308-328 | removing a relation never invalidates the graph |
| IssueStore.UnrelateUndoesRelate | packages/issues/src/store.ts:286-328 | removing a relation just added gives back the catalog |
| IssueStore.Store.MoveSubtree | packages/issues/src/store.ts:505-542 | moves exactly the same-location subtree in one batch, or nothing; refused exactly on a wrong location or an inactive parent |
| IssueStore.Store.PublishRecord | packages/issues/src/store.ts:585-621 | a record is published exactly when the catalog with it is valid |
| IssueStore.Store.Relate | packages/issues/src/store.ts:286-305 | the new catalog, the no-op for a stored relation, and exactly when it is accepted |
| IssueStore.Store.Unrelate | packages/issues/src/store.ts:308-328 | the relation is gone from its owner and the graph is valid |
| IssueProjection.ProjectionRows | packages/issues/src/cache.ts:340-398 | for every catalog each of the seven tables holds exactly the rows called for, one per issue or one per element of each list under its own kind and position, strictly ascending in the key columns of its queries; the other columns of a row are given |
| IssueProjection.RelationshipsOutOfOrder | packages/issues/src/cache.ts:366-396 | without its own sort the relationship table would be out of that order for any issue that both relates to and duplicates another |
| IssueCache.VerificationPageEnd | packages/issues/src/cache.ts:524-540 | every page makes progress, respects row and byte bounds, and is as long as they allow |
| IssueCache.EncodedIsMeasured | packages/issues/src/cache.ts:535 | the size of a row is the length of its JSON text: braces, quoted names, colons, commas and values |
| IssueCache.ChargedAddsUp | packages/repository-store/src/sqlite/adapter.ts:198-211 | the connection charges a row column by column: its name, and one for null, eight for a number, the bytes of a text |
| IssueCache.MultiRowPageFits | packages/repository-store/src/sqlite/adapter.ts:185-211 | why the target is half the limit: a page of several rows within it never exceeds the limit as the connection measures names and values |
| IssueCache.PageOfMatching | packages/issues/src/cache.ts:503-517 | a keyset page of a matching table is exactly the next expected rows, whatever the byte limit says of it |
| IssueCache.SameCountSameRows | packages/issues/src/cache.ts:189-200 | pigeonhole: equal counts and every expected row stored leave no room for another row |
| IssueCache.VerifyPage | packages/issues/src/cache.ts:503-517 | an accepted page is stored, readable within the byte limit and accounted for; a matching one whose single rows are within that limit never trips it, nor a budget it fits in |
| IssueCache.VerifyRows | packages/issues/src/cache.ts:489-522 | acceptance means that no row exceeds the byte limit and, with equal counts, equal multisets, unique keys or not; a matching table whose single rows are within the limit is accepted if it fits in the budget |
| IssueCache.VerificationBudget.AccountVerifiedRows | packages/issues/src/cache.ts:547-557 | rows and bytes are added up and refused exactly above the limits |
| IssueCache.AssertProjectionBudget | packages/issues/src/cache.ts:565-579 | admits exactly the projections whose rows and bytes are within the limits |
| IssueCache.HealthCheck | packages/issues/src/cache.ts:189-302 | for tables in key order within the budget a cache is accepted if and only if every stored table has its count and its rows and no single row exceeds the byte limit of a query |
| IssueCache.VerifyCatalog | packages/issues/src/cache.ts:132-302 | for every catalog: refused for its size exactly above the budget, otherwise accepted if and only if every stored table holds exactly the rows that the catalog calls for and no single row exceeds the byte limit of a query |
| MemoryIndex.MemoryHealthCheck | packages/memory-core/src/index-sqlite.ts:69-104 | two counts and one lookup per record accept the memory index if and only if both tables are the projection |
| Supersession.PopFrame | packages/memory-core/src/backend/record-helpers.ts:235-240 | closing a frame keeps the open frames a path and the finished nodes ordered |
| Supersession.PushTarget | packages/memory-core/src/backend/record-helpers.ts:241-245 | opening a frame keeps the open frames a path and the finished nodes ordered |
| Supersession.SearchFrom | packages/memory-core/src/backend/record-helpers.ts:230-247 | the search with an explicit stack terminates and finishes all that is reachable, or names a node on a cycle |
| Supersession.AssertAcyclic | packages/memory-core/src/backend/record-helpers.ts:225-249 | rejects exactly the record lists whose supersession has a cycle |
| MemoryStore.ValidateAndClassifySnapshot | packages/memory-core/src/backend/record-helpers.ts:185-201 | accepts exactly resolving and acyclic snapshots and then returns the records neither superseded nor tombstoned |
| MemoryStore.Retirements.Retire | packages/memory-core/src/store.ts:433-446 | the first repeated target is reported with the kinds and origins of its two retirements |
| MemoryStore.AssertSingleRetirement | packages/memory-core/src/store.ts:428-454 | accepts exactly if no record is retired twice across stored and imported documents, else explains the first clash |
| MemoryStore.AssertImportRelationships | packages/memory-core/src/store.ts:415-425 | every reference of the batch resolves and nothing is retired twice, or the error is explained |
| MemoryStore.ValidateImportBatch | packages/memory-core/src/store.ts:281-315 | an import is accepted if and only if the union with what is stored is valid; every error is true of that union |
| MemoryStore.StepIsValid | packages/memory-core/src/store.ts:79-121 | store, supersede, delete and import keep ids unique, references resolved, retirements single and supersession acyclic |
| MemoryStore.RunIsValid | packages/memory-core/src/store.ts:79-270 | over all runs the state stays valid and every stored document stays as it was |
| MemoryStore.RetiredForever | packages/memory-core/src/store.ts:79-121 | a retired record never becomes active again |
| MemoryStore.RetirementsAreConserved | packages/memory-core/src/store.ts:428-454 | active records, superseded ids and tombstones add up to the records |
| MemoryStore.ExportImport | packages/memory-core/src/store.ts:197-270 | an export read into an empty store is accepted and gives back the very same state |
| MemoryStore.ReimportRefused | packages/memory-core/src/store.ts:208-270 | an export with at least one document, read into the store it came from, is refused |
| MemoryStore.MemoryStore.StoreRecord | packages/memory-core/src/store.ts:79-83 | refused exactly on an id in use, otherwise one more active record and nothing else changed |
| MemoryStore.MemoryStore.SupersedeRecord | packages/memory-core/src/store.ts:86-98 | a target that is not stored, one that is retired, its own id and an id in use are told apart in this order; otherwise one more record that retires the target, and nothing else changed |
| MemoryStore.MemoryStore.DeleteRecord | packages/memory-core/src/store.ts:101-121 | a target that is not stored, one that is retired and an id in use are told apart in this order; otherwise one more tombstone, and nothing else changed |
| MemoryStore.MemoryStore.ImportItems | packages/memory-core/src/store.ts:208-270 | publishes all of an accepted batch or nothing, and nothing when previewing |
| DesignCatalog.VersionAtIndex | packages/design-docs/src/catalog.ts:151-160 | in a sound catalog the k-th of a lineage is version k |
| DesignCatalog.LineagesAreSound | packages/design-docs/src/catalog.ts:151-174 | lineages that pass the checks make a sound catalog: versions 1 to n, one location, one creation time, all but the last approved |
| DesignCatalog.ValidateLineage | packages/design-docs/src/catalog.ts:151-174 | no error exactly for a whole lineage, else the first rule broken in the order of the checks |
| DesignCatalog.GroupEntities | packages/design-docs/src/catalog.ts:85-111 | groups every document's versions, refusing exactly a repeated version |
| DesignCatalog.CatalogFromEntities | packages/design-docs/src/catalog.ts:76-114 | accepts a proposed catalog if and only if it is sound and within the limits; a sound one fails only by a limit |
| DesignDocs.ProposalsAreSound | packages/design-docs/src/store.ts:229-384 | create, update, transition, version, archive and restore from a sound catalog never fail a lineage check |
| DesignDocs.OnlyLimitsRefuse | packages/design-docs/src/store.ts:646-742 | such a proposal is refused if and only if there is no room for a new document or version |
| DesignDocs.CheckedIffRoom | packages/design-docs/src/store.ts:646-742 | from a valid catalog the check before publication makes a difference exactly where a document or version finds no room |
| DesignDocs.LineagesStayWhole | packages/design-docs/src/store.ts:229-384 | over all runs lineages stay whole by what the operations do: folding what they propose, unchecked but for imports, keeps a sound catalog sound |
| DesignDocs.RunPreserves | packages/design-docs/src/store.ts:307-384 | over all runs no version disappears, its creation time stays, and an approved document stays as it is |
| DesignDocs.RestoreUndoesArchive | packages/design-docs/src/store.ts:433-448 | restoring an archived lineage with the same revision succeeds and gives back the catalog |
| DesignDocs.ExportImport | packages/design-docs/src/store.ts:450-572 | the decoded documents of an export, imported into an empty repository, are accepted and give back the catalog; encoding and digest are taken as given |
| DesignDocs.RequireCurrent | packages/design-docs/src/store.ts:788-807 | the last catalogued entry is the latest version; missing, misplaced and stale documents are told apart |
| DesignDocs.DesignDocumentStore.FreshId | packages/design-docs/src/store.ts:233-239 | the first of a hundred generated ids that is free, all earlier ones being in use; none exactly when all are in use or that first free one is empty |
| DesignDocs.DesignDocumentStore.CreateDocument | packages/design-docs/src/store.ts:229-254 | adds one draft of version 1 under the first free generated id; refused exactly when there is none, or it is empty, or there is no room |
| DesignDocs.DesignDocumentStore.UpdateDocument | packages/design-docs/src/store.ts:307-311 | of the current version, if it is the expected one and not approved, exactly the given fields and the time change; a missing or misplaced document, another revision and an approved version are told apart |
| DesignDocs.DesignDocumentStore.TransitionDocument | packages/design-docs/src/store.ts:313-350 | drafts go to review and from there back or to approval; then only the status, the time and the recorded evidence change, and every refusal is the one its conditions name |
| DesignDocs.DesignDocumentStore.AddVersion | packages/design-docs/src/store.ts:352-384 | an approved current version gets a draft successor with the given fields, the others kept, and stays as it is; every refusal is the one its conditions name, or there is no room |
| DesignDocs.DesignDocumentStore.MoveLineage | packages/design-docs/src/store.ts:699-728 | every version of the document is at the new location and nothing else changed, exactly if the expected revision is the current one at the old location; never refused by the catalog check |
| DesignDocs.DesignDocumentStore.ImportDocuments | packages/design-docs/src/store.ts:465-572 | adds the documents of the bundle in order, all of them or none, valid exactly when all decode and the resulting catalog is valid |
| Sanitizer.DetailBudget.ChargedPrimitive | packages/design-docs/src/errors.ts:154-159 | the charge is exactly the JSON length, or the value is skipped and the truncation recorded |
| Sanitizer.DetailBudget.ChargedString | packages/design-docs/src/errors.ts:161-177 | the cut, the shrinking loop and the dots refine the reference form of a fitted string, whose laws are those of Diagnostics.TextIsTrimmed, and its charge |
| CodeUnits.ClipIsLongest | packages/design-docs/src/errors.ts:179-183 | the clipped text begins like the original, is within its byte limit even where a cut code point is replaced, and cannot be one unit longer |
| CodeUnits.FittedIsTight | packages/design-docs/src/errors.ts:161-177 | of a cut text as much is kept as fits: with one unit more, beyond at most three that the dots displaced, its UTF-8 or its JSON would have been too long |
| Encodings.Utf8Measures | packages/design-docs/src/errors.ts:164-181 | the measured size of any sequence of code units, lone surrogates included, is the number of bytes that its code points take in UTF-8 |
| Encodings.EncodedDecodes | packages/design-docs/src/errors.ts:164-181 | every code point is read back from its UTF-8 sequence, whose first byte tells its length and is followed by continuation bytes only |
| Encodings.PrefixIsDecoded | packages/design-docs/src/errors.ts:179-181 | a text cut to a number of bytes is what decoding gives of that many bytes of its UTF-8: whole code points, a replacement for one that is cut in two, and for each lone surrogate |
| Encodings.JsonReadsBack | packages/design-docs/src/errors.ts:143-169 | from the JSON text that is measured a string reads back unit by unit, lone surrogates included |
| Encodings.JsonMeasures | packages/design-docs/src/errors.ts:113-158 | the measured size of a value whose numbers print as ASCII is the number of bytes of its JSON text, with escapes, framing and commas written out |
| Diagnostics.TextIsKept | packages/design-docs/src/errors.ts:161-177 | a string is skipped exactly when not even two quotes can be charged |
| Diagnostics.TextIsTrimmed | packages/design-docs/src/errors.ts:161-177 | a kept string is the beginning of the text, followed by nothing but dots, at most 1024 bytes; if it is cut it is tight, and it ends in three dots wherever five bytes are left |
| Diagnostics.TrimIsDone | packages/design-docs/src/errors.ts:117-152 | nothing is truncated exactly when all limits are met, and then bytes and items are charged exactly and the copy is complete |
| Diagnostics.TrimIsPaid | packages/design-docs/src/errors.ts:117-152 | what is charged covers the JSON text and the entries of what is kept, whatever was left out |
| Diagnostics.TrimIsTrimmed | packages/design-docs/src/errors.ts:117-152 | what is kept of an array or a record is a prefix of its parts, each trimmed and under its own key, strings are beginnings, and the marker stands for what is at depth five |
| Diagnostics.FreshIsExact | packages/design-docs/src/errors.ts:107-115 | from a fresh budget something is left out if and only if a string, a list, the depth, the entries or the JSON length exceeds its limit |
| Sanitizer.SanitizeItems | packages/design-docs/src/errors.ts:125-136 | the loop with its two exits keeps the elements that the reference copy keeps and leaves the same budget |
| Sanitizer.SanitizeFields | packages/design-docs/src/errors.ts:138-150 | the loop with its two exits keeps the entries that the reference copy keeps and leaves the same budget |
| Sanitizer.SanitizeValue | packages/design-docs/src/errors.ts:117-152 | the sanitizer over the mutable budget refines the reference copy: kept value trimmed, charges covering it, complete and exactly charged if and only if all limits are met |
| Sanitizer.Assemble | packages/design-docs/src/errors.ts:110-114 | the fallback is unreachable: the result carries exactly the fields kept, and, exactly if something was truncated, the key detailsTruncated once with the value true; it never exceeds 16 KiB |
| Sanitizer.BoundedDetails | packages/design-docs/src/errors.ts:107-115 | at most 16 KiB; exactly the fields kept, or one field `value` with what is no record or with the text [truncated] for nothing, and the marker once and exactly if something did not fit; of a record something is always left, trimmed and within every limit |
| Ulid.ShiftInStreams | packages/issues/src/identities.ts:39-41 | reading a byte keeps digits and pending bits equal to the bytes read, with the accumulator below 2 ^ 12 |
| Ulid.EmitStreams | packages/issues/src/identities.ts:42-46 | emitting a digit keeps digits and pending bits equal to the bytes read, with the accumulator below 2 ^ 12 |
| Ulid.StreamDigits | packages/issues/src/identities.ts:35-47 | the streaming accumulator emits the 16 base-32 digits of the first ten bytes; its loops refine the encoder's state as a function of the bytes read |
| Ulid.AccumulatorIsSmall | packages/issues/src/identities.ts:37-46 | through the first ten bytes the accumulator, once a byte is shifted in, stays below 2 ^ 12 |
| Ulid.IssueUlid | packages/issues/src/identities.ts:25-48 | accepts exactly 48-bit timestamps and encodes the same text as the big-integer form of the first ten bytes |
| Ulid.MemoryUlid | packages/memory-core/src/identities.ts:16-37 | accepts exactly 48-bit timestamps with ten bytes and encodes that text |
| Ulid.EncodesUlid | packages/memory-core/src/identities.ts:9 | every encoded text has the documented shape, its first digit at most 7 |
| Ulid.TimeDecodes | packages/issues/src/identities.ts:28-33 | the ten time digits decode to the timestamp |
| Ulid.OrderFollowsTime | packages/issues/src/identities.ts:24-33 | string order follows timestamp order whatever the entropy |
| Ulid.NothingIsLost | packages/memory-core/src/identities.ts:23-36 | equal texts come from equal timestamps and equal bytes |

## Left out

- The lease, transaction and SQLite internals of the repository store: a domain operation is one serialized atomic batch.
- The installer lock, path containment and symbolic-link checks, temporary files and directory syncs.
- Plan digests and conflict ids, and the command line that drops conflicted units and plans again.
- Target resolution and the choice among existing host configuration files; a receipt's identity fields beyond one manifest checksum.
- The text and formatting of JSONC documents and the decoding of pointers: documents are trees and pointers are lists of keys.
- The order of mutations among files: the plan is proved for any order with the receipt last.
- An emptied parent object that remains after an uninstall: conservation is stated for units.
- Arrays of configuration values are data here, not objects: the resolver never writes into one, and that a copy also copies its arrays is not modelled.
- YAML, zod schemas, environment coercion and secret reference resolution: patches are taken as parsed.
- Keys such as `__proto__`, explicit undefined values and objects with prototypes.
- Cancellation in the issue store, file names, and the publication of a batch of issues.
- The bounds a connection puts on every query: they are taken to be no smaller than those the verification asks for.
- How the values of a row of the issue index are computed: their texts, as UTF-8 and as JSON, are given.
- Full-text ranking and search queries of every index.
- Byte and file-count limits of the memory backends, the compactness and secret scans of a record, and the parsing of JSONL lines.
- Aggregate and per-document byte limits, the encoding of a document and its file name slug, and the `created_by` field of design documents.
- The order of different lineages in a listing, and the publication steps of a checked design catalog.
- Cross-domain validation, address resolution, the harnessctl import format and the bundle digest.
- Wall-clock freshness, deadlines, MCP servers, host extensions and native backends: plumbing or one-branch checks.
- DesignCatalog.SortEntities: orders the versions of one document only, which is all the checks rely on.
- Snapshot.DeriveSnapshot: takes every registered schema to accept its patch unchanged.
- Graphs.AssertAcyclic: starts the search from the nodes in any order.
- Transaction.ValidatePlan: does not check the plan's digest, its schema, absolute paths or containment in the root.
- Registry.ValidateContributions: does not check the shape of ids and paths, schemas, defaults or environment bindings.
- Registry.LocateShard: does not parse the patch with its schema or validate secret references in it.
- Registry.LocateShards: for files only, and with the same restriction.
- IssueStore.Store.MoveSubtree: takes the expected revision to match; destination collisions, limits and references to design documents are not modelled.
- IssueStore.Store.PublishRecord: does not model resource limits and references to design documents.
- IssueStore.Store.Relate: takes an expected revision, if given, to match.
- IssueStore.Store.Unrelate: takes the expected revision to match.
- DesignCatalog.GroupEntities: compares paths and ids as they are; their portable normalization is not modelled.
- DesignCatalog.CatalogFromEntities: does not model the aggregate byte limit.
- DesignDocs.ExportImport: says nothing of the encoding of a bundle, its digest and its byte limits.
- DesignDocs.DesignDocumentStore.ImportDocuments: takes the bundle as decoded; its schema, its digest and the harnessctl format are not modelled.
- IssueProjection.ProjectionRows: takes the columns of each row, apart from its key, as given.
- MemoryStore.ValidateImportBatch: does not model the compactness scan and the scope check of each document.
- MemoryStore.MemoryStore.StoreRecord: does not model the refusal of a record that is not compact.
- MemoryStore.MemoryStore.SupersedeRecord: does not model the refusal of a record that is not compact.
- MemoryStore.MemoryStore.ImportItems: does not model the compactness scan, the scope check and the payload limit.
- DesignDocs.OnlyLimitsRefuse: does not model the aggregate byte limit.
- DesignDocs.CheckedIffRoom: does not model the aggregate byte limit.
- DesignDocs.DesignDocumentStore.CreateDocument: does not model per-document byte limits and `created_by`.
- DesignDocs.DesignDocumentStore.UpdateDocument: does not model per-document byte limits.
- DesignDocs.DesignDocumentStore.TransitionDocument: does not model per-document byte limits.
- DesignDocs.DesignDocumentStore.AddVersion: does not model per-document byte limits.
