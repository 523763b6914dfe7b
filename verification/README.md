# BackupMesh verification

A Dafny model of BackupMesh and proofs about it. It has two halves.

**The snapshot foundation (`replsnap`).** Snapshots form base chains in a map store. The model covers
reading a stream into frames, building and checking manifests, the Merkle root, storing, listing, pruning,
resolving chains, planning and restoring. The main results relate algorithms that never call each other:
pruning never changes how a surviving snapshot restores, two prunings compose to the smaller one, and
restoring a captured chain gives the source streams back, base first.

**The orchestration service (`internal`).** Lease, journal, catalog, receipt, collector, replication, audit,
retry and cursor stores are classes whose methods are proved against functions on their contents. The
service is a transition system over those functions, one service call per step (one store call per step for
leases and retries). Its invariant holds in every run from the empty service and gives the journal-before-publish
rule, frozen snapshots, lease fencing, restore protection, deterministic rollback and exact collection.

How it is laid out:

| file | content |
|---|---|
| `Ordering`, `Formats` | sorting, map iteration in arbitrary order, byte strings, hexadecimal and decimal text, IDs |
| `SnapshotStore`, `ChainRestore`, `Retention`, `Pruning`, `RestorePlanning` | store, chains, retention and planning |
| `MerkleTree`, `SnapshotCapture` | Merkle root, frames, manifests, capture, round trip |
| `BackupModel`, `Journal`, `LeaseStore`, `Catalog`, `GcStore` | values and stores of the service |
| `ServiceSpec`, `BackupService` | what each service call does, and the methods that do it |
| `ServiceInvariant`, `ServiceRuns`, `ServiceContent` | the invariant, and safety over whole runs |
| `CaptureDelivery`, `RestoreDelivery`, `ReceiptDigest` | what each call answers and achieves, over whole runs, and what a receipt covers |
| `Replication`, `AuditLedger`, `RetryQueue`, `RestoreCursor` | budget and plans, hash chain, retries, restore cursor |

Modelling decisions:

- The hash is a parameter of every statement. All that is known of it is its output shape (32 bytes, or text without `|`).
  Collision freedom is only ever assumed for the strings hashed in the two computations being compared.
- A `range` over a map visits keys in an arbitrary order. A key added to a map while it is ranged over may or may
  not be visited. A sort returns any ascending permutation.
- Clock readings, TTLs and durations are integers and arrive as arguments. Where the code reads the clock twice in one
  call, there are two arguments.
- Sequence numbers, epochs and generations (`uint64`) are unbounded naturals. The `int64` sums of the replication budget
  wrap explicitly, and the exact no-overflow condition is proved.
- The audit text joins its fields with `|` without escaping, so the last hash binds a ledger only under a condition on its
  fields. The condition is proved exact; the ledger's own check does not test it.
- Capture handles in a run are those that `BeginCapture` returned; their operation IDs come from the process-wide counter,
  and the `%08d` format is proved injective. Restore plans, replayed entries, retry tasks and mirror updates are arbitrary.
- A refused chunk gives its digest back even when an accepted chunk of the same operation carries it, so a staged digest is
  not always reserved. When it is, is proved exactly.
- The text that compares snapshot metadata in the publish entry, and whether a context is already cancelled, are arguments.
- Where comment and code differ the code is followed: the collector's comment says "older than the keep window", the code also
  takes snapshots exactly as old as the window.

## Model

| member | source | states |
|---|---|---|
| Ordering.Sort | replsnap/store.go:59-64 | a sort call returns some ascending permutation of its input, nothing more |
| Ordering.SortedIsUnique | replsnap/retention.go:10-15 | under an antisymmetric order the sorted permutation is unique, so collection order cannot show |
| Ordering.SortedListingIsUnique | internal/service/service_new.go:96-101 | the sorted duplicate-free list of a set of IDs is determined by the set |
| Ordering.LexIsDictionaryOrder | replsnap/retention.go:10-15 | the string order is the dictionary order: at the first difference the smaller character, or the end, comes first |
| Formats.HexInjective | replsnap/merkle.go:8-11 | hexadecimal encoding loses nothing |
| Formats.HexAt | replsnap/merkle.go:8-11 | two lower-case hexadecimal digits a byte, high half first |
| Formats.NewIDFormat | internal/model/ids.go:10-12 | prefix, dash, and the counter in at least eight decimal digits |
| Formats.NewIDInjective | internal/model/ids.go:10-12 | two IDs with the same prefix are equal only if they came from the same counter value |
| SnapshotStore.MemoryStore.Save | replsnap/store.go:25-29 | files the snapshot under its own ID, replacing any earlier one, and keeps the store well keyed |
| SnapshotStore.MemoryStore.Delete | replsnap/store.go:38-42 | removes exactly the given ID |
| SnapshotStore.MemoryStore.List | replsnap/store.go:52-66 | all metadata once, creation times never decreasing and IDs ascending among equal times, whatever order the map is ranged over |
| ChainRestore.ReverseChain | replsnap/restore.go:21-23 | the swap loop reverses the chain |
| ChainRestore.ResolveChain | replsnap/restore.go:5-25 | the loop with cycle check and in-place reversal terminates on every store and computes `Resolve` |
| ChainRestore.ResolveDecides | replsnap/restore.go:5-25 | success exactly when the chain is complete (with that chain, base first), NotFound(x) exactly when the chain leads to the unstored x, a cycle error exactly when neither |
| ChainRestore.CycleIsReal | replsnap/restore.go:10-13 | a cycle is reported exactly when the chain really comes back to an ID it has passed |
| ChainRestore.RestoreBytes | replsnap/restore.go:27-35 | the bytes of all chunks of all snapshots of the chain in order |
| Retention.FirstAreNewest | replsnap/retention.go:9-23 | taking the first k of any newest-first permutation takes exactly the IDs with fewer than k strictly newer entries, also for lists with repeated IDs |
| Retention.Pass | replsnap/retention.go:26-33 | one pass over the growing map, in any order and whether or not added keys are visited, stays below every closed set, and reports no change only when the set is closed |
| Retention.RetainedIDs | replsnap/retention.go:5-36 | terminates and returns the least set that contains the k newest IDs and is closed under base dependency |
| Retention.LeastClosedIsUnique | replsnap/retention.go:24-34 | that least set is unique, so the iteration order cannot show in the result |
| Pruning.LeastClosedIsNeeded | replsnap/retention.go:24-34 | an ID is retained exactly when it lies on the base chain of one of the k newest snapshots |
| Pruning.DeleteUnretained | replsnap/retention.go:41-47 | the deletion loop removes exactly the listed snapshots that are not retained, and lists each once |
| Pruning.ApplyRetention | replsnap/retention.go:38-50 | leaves exactly the snapshots on the base chains of the k newest and returns the removed IDs sorted, each once |
| Pruning.PruningPreservesRestore | replsnap/retention.go:38-50 | every surviving snapshot resolves after pruning as before: same chain, or same error |
| Pruning.TopOfPruned | replsnap/retention.go:21-23 | pruning to a does not change which are the b newest, for b at most a |
| Pruning.TopIsNewest | replsnap/retention.go:9-23 | whoever was created later than one of the k newest, or at the same time with the greater ID, is one of them |
| Pruning.TopSize | replsnap/retention.go:21-23 | there are exactly k of them, or all if there are fewer; with the row above this leaves one possible set |
| Pruning.PruningComposes | replsnap/retention.go:38-50 | pruning to a then b equals pruning to min(a, b), in either order; counts of zero or less empty the store |
| MerkleTree.NextLevel | replsnap/merkle.go:22-33 | one pass with odd-tail duplication hashes each node with its right partner, the last odd node with itself |
| MerkleTree.MerkleRoot | replsnap/merkle.go:13-35 | the level loop computes the recursive root, in exactly `Passes(n)` passes |
| MerkleTree.RootOfParts | replsnap/merkle.go:22-33 | the root of 2^k chunks followed by at most as many others is the hash of the root of the first, then the root of the others hashed with itself once per level it is lower |
| MerkleTree.RootOfHalves | replsnap/merkle.go:22-33 | for two lists of 2^k chunks with roots x and y the root of both is the hash of x followed by y |
| MerkleTree.RootOfSmall | replsnap/merkle.go:13-20 | no chunks give the hash of the empty string, one chunk its own hash |
| MerkleTree.RootIsDetermined | replsnap/merkle.go:13-35 | the law of the parts and the law of one chunk leave one possible root for every non-empty list |
| MerkleTree.PassesIsCeilLog | replsnap/merkle.go:22-33 | each pass halves the width rounding up, so there are ceil(log2 n) passes |
| MerkleTree.EqualRootsCollide | replsnap/merkle.go:13-35 | two different lists of the same length with equal roots yield two colliding strings among those hashed for them |
| MerkleTree.RootIsBinding | replsnap/merkle.go:13-35 | for equal chunk counts and no collision among the strings hashed, equal roots mean equal chunks |
| MerkleTree.RootIgnoresDuplicatedOddTail | replsnap/merkle.go:23-25 | repeating the last chunk of an odd list of three or more keeps the root, so the equal-count condition is needed |
| SnapshotCapture.ReadFrames | replsnap/stream.go:13-34 | for every block size and every way the reader splits its data: the frames hold the stream's content, each of 1 to blockSize bytes, only the last one can be final and is exactly when the end came together with data; or the stream's own error comes back |
| SnapshotCapture.BuildManifest | replsnap/manifest.go:5-20 | succeeds exactly on a non-empty ID and non-empty frames without empty data, keeps the frame data as chunks and the final flags, and the manifest matches them |
| SnapshotCapture.VerifyManifest | replsnap/verifier.go:5-19 | accepts exactly the matching chunk lists |
| SnapshotCapture.ManifestRecords | replsnap/manifest.go:5-20 | an accepted manifest records index, size and hexadecimal hash of every chunk, and their Merkle root |
| SnapshotCapture.ManifestIsBinding | replsnap/verifier.go:5-19 | a manifest accepts at most one chunk list, absent a collision among the strings hashed |
| SnapshotCapture.SnapshotService.Capture | replsnap/service.go:17-38 | succeeds exactly when not cancelled, the ID is set, the block size positive and the stream ends cleanly and is not empty; stores the source bytes under the ID; otherwise changes nothing and reports the first failed check |
| SnapshotCapture.SnapshotService.Prune | replsnap/service.go:70-72 | prunes the store and keeps every stored snapshot equal to its source |
| SnapshotCapture.RestoreRoundTrip | replsnap/restore.go:27-35 | for every store the service can reach, restoring a complete chain gives the captured streams concatenated base first, before and after pruning |
| RestorePlanning.CountAvailability | replsnap/availability.go:3-19 | counts, for each ID, the inventories that list it; repetitions inside one inventory and empty IDs do not count |
| RestorePlanning.CopiesAreInventories | replsnap/availability.go:3-19 | that count is the cardinality of the set of inventories listing the ID |
| RestorePlanning.ChooseLatestAvailable | replsnap/planner.go:7-25 | an eligible snapshot such that no eligible one was created later, or at the same time with a greater ID; or nothing exactly when none is eligible |
| RestorePlanning.SelectedIsUnique | replsnap/planner.go:17-23 | on a store that choice is unique |
| RestorePlanning.SelectedIsLatest | replsnap/planner.go:17-23 | every other stored snapshot with enough copies was created earlier than the planned one, or at the same time with a smaller ID |
| RestorePlanning.PlanRestore | replsnap/service.go:53-68 | the plan of the selected snapshot with its chain of IDs, or the error of its chain |
| RestorePlanning.PruningPreservesPlan | replsnap/service.go:53-68 | pruning leaves selection and plan as they were whenever the selected snapshot survives |
| Journal.JournalLog.Append | internal/journal/log.go:29-40 | numbers entries 1, 2, 3, ...; a closed journal refuses and does not change |
| Journal.JournalLog.AppendBatch | internal/journal/log.go:42-57 | all or nothing, numbered as if appended one by one |
| Journal.LatestByOperation | internal/journal/log.go:86-103 | the loop over map and order list computes `Latest` |
| Journal.LatestIsMaximum | internal/journal/log.go:86-103 | one row per operation in first-appearance order, each an entry of greatest generation and within that of greatest sequence number |
| Journal.CompactionLaw | internal/journal/log.go:86-103 | Latest(a + b) = Latest(Latest(a) + b), and Latest is idempotent |
| LeaseStore.Store.Acquire | internal/lease/store.go:20-31 | refuses a held lease, otherwise installs the next epoch of the resource |
| LeaseStore.Store.Validate | internal/lease/store.go:33-41 | accepts exactly the current owner and epoch, unreleased and before the deadline |
| LeaseStore.Store.Release | internal/lease/store.go:43-53 | marks the lease released exactly for its owner and epoch |
| LeaseStore.EpochsFence | internal/lease/store.go:20-53 | at most one (owner, epoch) of a resource validates; a released or superseded epoch never validates again in any continuation of store calls |
| LeaseStore.FreshLeaseLasts | internal/lease/store.go:20-53 | a granted lease validates exactly until now + ttl, in every run that neither releases it nor asks for the resource afterwards; from then on the resource is granted again |
| Catalog.Store.ReserveDigest | internal/catalog/store.go:26-34 | a digest belongs to at most one operation |
| Catalog.Store.StageChunk | internal/catalog/store.go:36-52 | stages the chunk unless the operation is full or holds another digest at that index |
| Catalog.Store.ForgetOperation | internal/catalog/store.go:62-71 | drops the operation's chunks and reservations, in any map order, and nothing else |
| Catalog.Store.OrderedChunks | internal/catalog/store.go:185-196 | the staged chunks in index order |
| Catalog.Store.CommitSnapshot | internal/catalog/store.go:73-93 | refuses an existing ID or an empty operation; otherwise publishes the ordered staged chunks and drops the operation's work |
| Catalog.Store.SetState | internal/catalog/store.go:102-115 | changes the state of exactly the snapshot with that ID and generation |
| Catalog.Store.AddRestoreReference | internal/catalog/store.go:117-126 | adds one plan to the snapshot's references |
| Catalog.Store.RemoveRestoreReference | internal/catalog/store.go:128-140 | removes exactly that plan, and the snapshot's entry with its last plan |
| Catalog.Store.ExpireUnprotected | internal/catalog/store.go:148-167 | for some newest-first order, expires exactly what lies beyond the first `keep` and has no restore reference, and returns those IDs sorted |
| Catalog.Store.LastVerifiedFull | internal/catalog/store.go:169-183 | a verified full snapshot of greatest generation below the given one, if there is one, whatever the scan order |
| GcStore.Store.AddRef | internal/gc/store.go:33-47 | adds to the digest's count; array, position index and digest cache stay in step |
| GcStore.Store.Renumber | internal/gc/store.go:61-65 | after a mid-array deletion every later digest points one position lower |
| GcStore.Store.ReleaseRef | internal/gc/store.go:49-71 | subtracts with saturation at zero, where the digest disappears; array, index and cache stay in step |
| GcStore.Store.Refcount | internal/gc/store.go:73-80 | the count of the digest, zero when absent |
| GcStore.Store.Compact | internal/gc/store.go:102-113 | exactly the referenced digests, sorted, each once |
| GcStore.CountsAreNet | internal/gc/store.go:33-71 | over every run of adds and releases the count of a digest is the greatest plain sum of changes over all suffixes of the history (zero for the empty one), and the digest is held exactly while that is positive |
| GcStore.Store.Collect | internal/gc/store.go:127-147 | the given snapshots at least keepWindow old, unpinned and unreferenced, sorted |
| BackupService.Service.BeginCapture | internal/service/capture.go:15-28 | takes the capture lease, a fresh operation ID and the next generation, or changes nothing |
| BackupService.Service.StageChunk | internal/service/capture.go:30-45 | validates, reserves, stages, and gives the digest back when staging is refused |
| BackupService.Service.CommitCapture | internal/service/capture.go:47-78 | the whole new state of every path: fenced, journal closed, refused by the catalog, published |
| BackupService.Service.AbortCapture | internal/service/capture.go:84-87 | drops the operation's work and releases the lease if it still can |
| CaptureDelivery.BeginDecides | internal/service/capture.go:15-28 | a capture begins exactly if not cancelled, with ID, owner and positive TTL, and no unexpired unreleased lease; the handle takes the next ID, generation and epoch |
| CaptureDelivery.CaptureLeaseLasts | internal/service/capture.go:15-31 | the handle validates exactly until its deadline in every service run that neither ends the capture nor begins another of the snapshot after the deadline |
| CaptureDelivery.StageDecides | internal/service/capture.go:30-45 | a chunk is accepted exactly with a valid handle, a digest no other operation reserved, and room or the same digest at its index; then it is staged and its digest reserved |
| CaptureDelivery.StagedIsPublished | internal/catalog/store.go:36-93 | an accepted chunk is in the snapshot that its capture publishes, whatever calls of others and of its own fall in between |
| CaptureDelivery.CommitDecides | internal/service/capture.go:47-78 | a commit succeeds exactly with a valid handle, an open journal, a new ID and something staged |
| CaptureDelivery.CommitPublishes | internal/service/capture.go:60-77 | the new snapshot stands Published and carries the base, full flag, metadata and time of the call; the journal gains its publish entry; a refused commit publishes nothing |
| CaptureDelivery.CaptureDelivers | internal/service/capture.go:15-78 | a capture with one accepted chunk that nobody ends or takes over commits exactly before its deadline, with the journal open and its ID unpublished |
| CaptureDelivery.AbortDecides | internal/service/capture.go:84-87 | an abort drops the work in any case and succeeds exactly for the current, unreleased lease |
| CaptureDelivery.StageKeepsOwner | internal/service/capture.go:36-43 | a staging call keeps a digest reserved if and only if it is not a refused chunk of the same operation with that digest |
| CaptureDelivery.DigestIsExclusive | internal/catalog/store.go:26-34 | data one capture got accepted is refused to all others until the first ends or gives the digest back as in the row above |
| CaptureDelivery.GiveBackFreesStagedDigest | internal/service/capture.go:41-43 | a concrete operation whose refused second chunk frees the digest that its staged first chunk still carries |
| BackupService.Service.Digest | internal/verify/receipts.go:19-26 | the hash of all chunk digests and data in order |
| ReceiptDigest.ReceiptCoversDigestsAndData | internal/verify/receipts.go:19-26 | the receipt digest is the hash of, for each chunk in order, its digest text and then its data |
| ReceiptDigest.ReceiptIsBinding | internal/verify/receipts.go:19-26 | among chunk lists of equal count and field lengths, equal receipt digests mean equal digests and data, absent a collision of the two hashed strings |
| ReceiptDigest.GenuineReceiptIsBinding | internal/verify/receipts.go:19-26 | for chunks carrying the hash of their data no condition on count or lengths is needed |
| BackupService.ReceiptStore.Delete | internal/verify/receipts.go:38-44 | withdraws a receipt only for the same generation |
| BackupService.Service.CommitVerification | internal/service/verify.go:25-36 | journal, then state, then receipt, with the receipt withdrawn when the state change is refused |
| BackupService.Service.VerifySnapshot | internal/service/verify.go:9-23 | the whole new state of every path of verification |
| CaptureDelivery.VerifyDecides | internal/service/verify.go:9-36 | verification succeeds exactly on a Published snapshot with the journal open; the snapshot then stands Verified and has the receipt over its chunks |
| CaptureDelivery.CommittedCanBeVerified | internal/service/verify.go:9-36 | what a commit published can be verified, at once and after any calls that do not verify, expire or replay it; only a closed journal refuses |
| BackupService.Service.BuildPlan | internal/restore/cursor.go:44-54 | refuses an expired snapshot, otherwise a plan for the snapshot with its chunk indexes sorted |
| BackupService.Service.BeginRestore | internal/service/restore.go:11-29 | takes the restore lease and a reference; an expired snapshot gives the lease back |
| BackupService.Service.FinishRestore | internal/service/restore.go:36-52 | journals, releases the lease and removes the reference, stopping at the first refusal |
| RestoreDelivery.BeginRestoreDecides | internal/service/restore.go:11-29 | a restore begins exactly on a stored snapshot that is not expired and whose restore lease is free |
| RestoreDelivery.BeginRestoreRefers | internal/catalog/store.go:117-126 | it adds the reference of its plan and no other |
| RestoreDelivery.PlanListsChunks | internal/restore/cursor.go:44-54 | the plan lists the chunk indexes in the stored order |
| RestoreDelivery.FinishRestoreDecides | internal/service/restore.go:36-52 | finishing succeeds exactly for the owner of the unreleased lease with the journal open and the reference in place, and journals it |
| RestoreDelivery.FinishRestoreDereferences | internal/catalog/store.go:128-140 | it removes the reference of its plan and no other |
| RestoreDelivery.BegunRestoreCanFinish | internal/service/restore.go:11-52 | a begun restore can be finished by its owner after any calls that neither finish a restore of the snapshot nor ask for it after the deadline; only a closed journal refuses |
| RestoreDelivery.FinishedRestoreReleases | internal/service/restore.go:36-54 | once the last restore of a snapshot is finished, retention names it beyond `keep`, and collection once it is old enough, unpinned and unmirrored |
| BackupService.Service.ApplyRetention | internal/service/restore.go:54-54 | expires exactly the unprotected snapshots beyond the newest `keep` |
| RestoreDelivery.RetentionKeepsNewest | internal/catalog/store.go:148-167 | what retention expires has at least `keep` others created no earlier; what it leaves unreferenced has fewer than `keep` created later |
| RestoreDelivery.RetentionExpires | internal/catalog/store.go:155-163 | exactly the named snapshots change, to state Expired |
| RestoreDelivery.ExpiredIsRefused | internal/restore/cursor.go:44-47 | an expired snapshot is neither restored nor verified |
| BackupService.Service.Rollback | internal/service/restore.go:56-70 | journals the last verified full snapshot below the current generation, or reports that there is none |
| RestoreDelivery.RollbackFindsVerified | internal/service/restore.go:56-70 | with a verified full snapshot of lower generation and the journal open, the rollback journals and returns one, and none of them has a greater generation |
| BackupService.Service.Replay | internal/service/restore.go:72-87 | folds the latest entries over the replay generations, skipping generations already seen |
| RestoreDelivery.ReplayVerifies | internal/service/restore.go:72-87 | a replay without error leaves a snapshot Verified if one of the latest rows is an unseen verification of its ID and generation, otherwise as it was |
| BackupService.Service.GcCollect | internal/service/service_new.go:69-101 | pins mirrored snapshots and returns, sorted and without duplicates, the collectable ones among journal and mirror IDs |
| RestoreDelivery.CollectionNames | internal/gc/store.go:127-147 | collection names the stored snapshots at least keepWindow old, unpinned, unmirrored and not being restored |
| RestoreDelivery.PinProtects | internal/service/service_new.go:69-101 | pinning, or collecting while mirrored, keeps a snapshot out of every collection until it is unpinned |
| ServiceRuns.WithdrawalIsDead | internal/service/verify.go:25-36 | whatever calls fall between reading a snapshot and committing its verification, the state change succeeds, so the branch that withdraws the receipt is dead and the only possible error is a closed journal |
| ServiceInvariant.DropEnds | internal/service/capture.go:84-87 | dropping an operation leaves its lease epoch dead and nothing staged or reserved under it |
| ServiceInvariant.CommitIsPublication | internal/service/capture.go:60-67 | the entry written before the snapshot becomes visible carries its ID, operation and generation |
| ServiceRuns.StepKeepsInv | internal/service/capture.go:15-87 | every service call keeps the cross-store invariant, and nothing published, receipted or journalled is lost or altered |
| ServiceRuns.EveryRunIsSound | internal/service/service.go:62-104 | every run from the empty service satisfies the invariant, whatever other parts of the process journal, mirror, pin or draw from the ID counter in between |
| ServiceRuns.PublishedIsJournalledAndFrozen | internal/service/capture.go:60-67 | a catalog snapshot has its publish entry; in every continuation it is there unchanged except for its state, and its receipt still equals the digest of the stored chunks and has its verify entry |
| ServiceRuns.VerifiedOnce | internal/service/verify.go:9-23 | VerifySnapshot succeeds at most once per ID over any run |
| ServiceRuns.FinishedCaptureIsFenced | internal/service/capture.go:30-87 | after a commit past its lease check, or an abort, and any continuation, no call with that handle is accepted and nothing is staged or reserved under its operation |
| ServiceRuns.GcIsExact | internal/service/service_new.go:69-101 | the collector misses nothing: it returns precisely the catalog snapshots old enough, unpinned, unmirrored and unreferenced |
| ServiceRuns.ReferencedIsProtected | internal/catalog/store.go:148-167 | a snapshot holding a restore reference is not expired and is named by no retention or collection result |
| ServiceRuns.RestoreIsProtected | internal/service/restore.go:11-54 | that protection lasts from BeginRestore over every run that does not finish the plan |
| ServiceRuns.GenerationsAreDistinct | internal/service/capture.go:27-27 | generations of catalog snapshots are pairwise distinct in every run |
| ServiceRuns.RollbackIsDeterministic | internal/service/restore.go:56-70 | so a rollback has one possible target, whatever order the catalog is scanned in |
| ServiceRuns.ReplayIsIdempotent | internal/service/restore.go:72-87 | a replay that returned no error does nothing when repeated on the same entries |
| ServiceRuns.ReplayOfCompaction | internal/service/restore.go:75-75 | replaying a log whose front has been compacted has the same outcome |
| ServiceContent.PublishedContentIsGenuine | internal/service/capture.go:34-44 | in every run each published chunk carries the hash of its own data, and chunk indexes ascend strictly |
| ServiceContent.CommitPublishesStaged | internal/catalog/store.go:79-85 | a successful commit publishes each chunk staged under its operation, no chunk that was not staged there, in ascending index order |
| Replication.BudgetStore.Reserve | internal/replication/budget.go:19-34 | grants exactly when the ID is new and set, the bytes positive and the int64 sum within the limit |
| Replication.BudgetStore.Release | internal/replication/budget.go:55-71 | gives back exactly the plan's reservation |
| Replication.ReserveDecides | internal/replication/budget.go:19-34 | a new plan is granted exactly if it fits the limit or overflows an int64 |
| Replication.ReserveBalance | internal/replication/budget.go:28-33 | Reserve keeps used equal to the outstanding reservations and within the limit if and only if the sum does not overflow or the request is refused on other grounds |
| Replication.ReserveCanWrap | internal/replication/budget.go:28-33 | a concrete request whose sum wraps is granted and breaks the balance |
| Replication.ReleaseBalance | internal/replication/budget.go:61-70 | release keeps the balance and the clamp at zero is never needed |
| Replication.Dispatcher.FinishPlan | internal/replication/dispatcher.go:89-139 | reserves and journals, undoing the reservation if the journal is or becomes closed; a rejection names the first thing that failed: already reserved, quota, journal |
| Replication.Dispatcher.PlanSnapshot | internal/replication/dispatcher.go:53-87 | a snapshot failing a check changes nothing and gets the first failing check as its error; one that passes gets a plan over all eligible destinations sorted by ID, reserved and journalled, or the error of that; on balanced books a rejection changes neither budget nor journal entries |
| Replication.ScreenedPasses | internal/replication/dispatcher.go:53-87 | a snapshot passes the checks exactly if it is unexpired, named, non-empty, well formed with distinct indexes, and some healthy destination can hold it |
| Replication.PlanHasEveryFit | internal/replication/registry.go:55-74 | a plan goes to exactly the healthy destinations with capacity for all the bytes |
| Replication.TotalCountsBytes | internal/replication/dispatcher.go:208-217 | the total is the number of data bytes if that fits an int64, else its remainder |
| Replication.RejectedPlanChangesNothing | internal/replication/dispatcher.go:105-126 | a plan call that fails leaves budget, journal entries and completions as they were, provided the used bytes are not negative |
| Replication.ReserveThenRelease | internal/replication/budget.go:28-33 | releasing a granted reservation restores the budget, also when the sum wrapped, if and only if used bytes were not negative before |
| Replication.StepIsSound | internal/replication/dispatcher.go:89-166 | one call keeps the books sound if and only if it is not a new plan, with the journal open, whose bytes added to the used bytes exceed the int64 range |
| Replication.BudgetIsConserved | internal/replication/dispatcher.go:89-166 | a run keeps the books sound after every call (used bytes equal the outstanding reservations within the limit, each of them journalled) if and only if no call overflows where it happens; then used bytes are those granted minus those given back |
| Replication.Dispatcher.Complete | internal/replication/dispatcher.go:141-166 | releases the reservation on the first completion of a plan ID only |
| Replication.CompleteGivesBackOnce | internal/replication/dispatcher.go:141-158 | whatever happens in between, a second completion of a plan ID gives nothing back and changes nothing |
| Replication.FirstCompletionReturnsAll | internal/replication/dispatcher.go:151-158 | the first completion after planning gives back exactly the plan's bytes, whatever other calls do in between, overflow included |
| AuditLedger.Ledger.Record | internal/audit/ledger.go:32-44 | appends the next numbered event linked to the last hash; the ledger always passes its own check |
| AuditLedger.Ledger.Verify | internal/audit/ledger.go:75-86 | accepts exactly the lists that are numbered, linked and correctly hashed |
| AuditLedger.PreimageFormat | internal/audit/ledger.go:100-104 | number, kind, object, detail, time and previous hash, in this order, with a bar between them |
| AuditLedger.PreimageInjective | internal/audit/ledger.go:100-104 | two events that both keep separators out of kind, object, time and previous hash have different texts unless they are equal |
| AuditLedger.PlainTextIsUnique | internal/audit/ledger.go:100-104 | the text of an event without separators in any field has no other reading, not even one with separators: the separators are counted |
| AuditLedger.OtherTextIsAmbiguous | internal/audit/ledger.go:100-104 | an event with a separator in kind, object, detail or time shares its text with a different event of the same number and previous hash |
| AuditLedger.LedgerIsBinding | internal/audit/ledger.go:75-104 | for every verified non-empty ledger: its last hash fixes it among all lists that pass the check without a collision, with no condition on those lists, if and only if no event has a separator in kind, object, detail or time |
| AuditLedger.Exchanged | internal/audit/ledger.go:75-104 | one such event at any position can be exchanged for its other reading: the changed list passes the check with all hashes the same |
| AuditLedger.CleanLedgersAreBinding | internal/audit/ledger.go:75-104 | between two verified ledgers that both keep separators out of kind, object and time, equal last hashes mean equal ledgers, even with separators in details |
| AuditLedger.BarsBreakBinding | internal/audit/ledger.go:100-104 | a concrete detail with a separator: two different one-event lists pass the check with the same hash |
| RetryQueue.Queue.Schedule | internal/retry/queue.go:21-29 | refuses a task at or below the cancellation mark, otherwise files it |
| RetryQueue.Queue.Cancel | internal/retry/queue.go:31-42 | raises the mark, never lowers it, and removes exactly the tasks it covers |
| RetryQueue.Queue.Due | internal/retry/queue.go:44-60 | exactly the due tasks above their mark, by due time then ID |
| RetryQueue.DueListIsUnique | internal/retry/queue.go:53-58 | there is only one such list, whatever order the map is ranged over |
| RetryQueue.DueListIsOrdered | internal/retry/queue.go:44-60 | exactly the filed tasks due by now and above their mark, due times never decreasing and IDs ascending among equal times |
| RetryQueue.ScheduledIsDue | internal/retry/queue.go:21-29 | under any interleaving a scheduled task is due exactly from its due time on until it is cancelled, replaced or reported; one at or below its mark changes nothing |
| RetryQueue.SentTaskIsGone | internal/retry/queue.go:62-66 | a task reported as sent stays out of the queue until its ID is scheduled again or another worker puts back a copy it took |
| RetryQueue.PutBackIsDueLater | internal/retry/queue.go:68-79 | a failed task above its mark is filed with one more attempt and due exactly from the new time on; otherwise it is gone |
| RetryQueue.Queue.RescheduleAfterFailure | internal/retry/queue.go:68-79 | drops a cancelled task, otherwise files it with one more attempt and the new due time |
| RetryQueue.RunRetry | internal/service/worker.go:24-35 | sends the first due task, then completes it or puts it back |
| RetryQueue.CancellationIsPermanent | internal/retry/queue.go:21-79 | under any interleaving of workers, after Cancel(s, g) no due list holds and no worker takes a task of s up to generation g, not even one taken before and put back |
| RestoreCursor.CursorStore.AdvanceContiguous | internal/restore/cursor.go:17-34 | moves the cursor to the end of the unbroken run of received integers, independent of order and repetition |
| RestoreCursor.FrontierIsLargest | internal/restore/cursor.go:23-31 | that end is the largest integer up to which everything was received |
| RestoreCursor.CursorIsSound | internal/restore/cursor.go:17-34 | over any run the cursor never falls, everything up to it was delivered, and it never passes one delivery of everything |
| RestoreCursor.TwoBatches | internal/restore/cursor.go:17-34 | two deliveries reach what their union reaches exactly when the first did not already hold the integer after the final cursor |

## Left out

- Quorum and promotion, replication health reports, mirror conflict rules, migration, quarantine, checkpoints, watermarks, policies, orchestrator and telemetry: small maps, clocks and rates that would add only easy members. Their journal entries are arbitrary entries in the runs, and mirror records are a growing set of IDs.
- The chunk-list entry point of the dispatcher: it differs from planning a snapshot only in the checks before the shared reserve-and-journal part.
- The outcome window and the audit events that the dispatcher writes: they do not touch budget or journal. Destinations in a plan are their IDs.
- Readers that never end: a reader is a finite script of offers, so a stream without an end is not modelled.
- Retry.Pending, the ledger queries by object, and the shallow check up to a sequence number: plain scans.
- Mutexes and memory-level races: a step is one service call, or one store call for leases, retries and the journal check inside planning.
- In-place aliasing of Go slices and defensive copies: slices and byte buffers are values here.
- RetryQueue.RunRetry: states the uninterrupted call; interleavings are covered by the separate take and report steps.
- Replication.FirstCompletionReturnsAll: does not claim that every reservation is eventually released, because a plan ID that was completed before can be reserved again and is then never released by completion.
- ServiceRuns.ReplayIsIdempotent: covers repeating the same entries only; replaying a log in pieces differs from replaying it at once, because publish and verify entries share a generation.
- Overflow of 64-bit counters other than the budget sums, saturation of time differences, JSON encoding and the demo command.
