/** internal/service: what each call does to the stores, as functions from state to state. One
    service call is one step. */
module ServiceSpec {
  import opened BackupModel
  import opened Formats
  import opened Ordering
  import J = Journal
  import L = LeaseStore
  import C = Catalog

  datatype State = State(leases: L.Leases, log: J.Log, catalog: C.Catalog, receipts: map<string, Receipt>,
                         generation: nat, ids: nat, replay: map<string, nat>, pins: set<string>, mirrored: set<string>)

  datatype Outcome<T> = Outcome(state: State, reply: Result<T>)

  function Initial(maxChunkCount: nat): State {
    State(
      L.Leases(map[], map[]), J.Log(false, 1, []), C.Catalog(map[], map[], map[], map[], maxChunkCount), map[],
      0, 0, map[], {}, {})
  }

  function CaptureLease(snapshotID: string): string {
    "capture:" + snapshotID
  }

  function RestoreLease(snapshotID: string): string {
    "restore:" + snapshotID
  }

  // ---------- capture.go ----------

  function BeginCapture(
    s: State, cancelled: bool, snapshotID: string, owner: string, ttl: int, now: int): Outcome<CaptureHandle> {
    if cancelled then Outcome(s, Err(ErrCancelled))
    else if snapshotID == "" || owner == "" || ttl <= 0 then Outcome(s, Err(ErrConflict))
    else
      var resource := CaptureLease(snapshotID);
      if L.Held(s.leases, resource, now) then Outcome(s, Err(ErrLeaseHeld))
      else Outcome(
        s.(leases := L.Acquired(s.leases, resource, owner, now, ttl), generation := s.generation + 1, ids := s.ids + 1),
        Ok(CaptureHandle(NewID("capture", s.ids + 1), snapshotID, owner, L.Epoch(s.leases, resource) + 1,
          s.generation + 1)))
  }

  predicate Validates(s: State, handle: CaptureHandle, now: int) {
    L.Validates(s.leases, CaptureLease(handle.snapshotID), handle.owner, handle.leaseEpoch, now)
  }

  function ReleaseCapture(s: State, handle: CaptureHandle): L.Leases {
    L.Released(s.leases, CaptureLease(handle.snapshotID), handle.owner, handle.leaseEpoch)
  }

  predicate CanRelease(s: State, handle: CaptureHandle) {
    L.Releasable(s.leases, CaptureLease(handle.snapshotID), handle.owner, handle.leaseEpoch)
  }

  /** Reserve the digest, stage the chunk, and give the digest back if staging is refused. */
  function StagedCatalog(c: C.Catalog, operation: string, chunk: Chunk): C.Catalog {
    if !C.CanReserve(c, operation, chunk.digest) then c
    else
      var reserved := C.Reserved(c, operation, chunk.digest);
      var staged := C.StagedChunk(reserved, operation, chunk);
      if C.StageError(reserved, operation, chunk).Ok? then staged else C.ReleasedDigest(staged, operation, chunk.digest)
  }

  function StageReply(c: C.Catalog, operation: string, chunk: Chunk): Result<()> {
    if !C.CanReserve(c, operation, chunk.digest) then Err(ErrConflict)
    else C.StageError(C.Reserved(c, operation, chunk.digest), operation, chunk)
  }

  function StageChunk(h: Hash32, s: State, handle: CaptureHandle, index: int, data: Bytes, now: int): Outcome<()> {
    if !Validates(s, handle, now) then Outcome(s, Err(ErrLeaseFenced))
    else
      var chunk := Chunk(index, Hex(h(data)), data);
      Outcome(s.(catalog := StagedCatalog(s.catalog, handle.operation, chunk)),
        StageReply(s.catalog, handle.operation, chunk))
  }

  function PublishEntry(s: State, handle: CaptureHandle, baseID: string, diff: string, now: int): J.Entry {
    J.Entry(0, handle.generation, "publish", handle.snapshotID, handle.operation,
            if baseID in s.catalog.snapshots then diff else "initial snapshot", now)
  }

  function NewSnapshot(
    handle: CaptureHandle, baseID: string, full: bool, metadata: map<string, string>, now: int): Snapshot {
    Snapshot(handle.snapshotID, baseID, handle.operation, handle.generation, full, Staged, metadata, [], now)
  }

  /** `diff` stands for the text that compares the metadata with that of the base snapshot. */
  ghost function CommitCapture(
    s: State, handle: CaptureHandle, baseID: string, full: bool, metadata: map<string, string>,
    diff: string, validateAt: int, now: int): Outcome<Snapshot>
  {
    if !Validates(s, handle, validateAt) then Outcome(s, Err(ErrLeaseFenced))
    else
      var log := J.Appended(s.log, PublishEntry(s, handle, baseID, diff, now));
      var snapshot := NewSnapshot(handle, baseID, full, metadata, now);
      var refused := C.CommitError(s.catalog, snapshot);
      if s.log.closed then
        Outcome(s.(catalog := C.Forgotten(s.catalog, handle.operation), leases := ReleaseCapture(s, handle)),
          Err(ErrJournalClosed))
      else if refused.Err? then
        Outcome(s.(log := log, catalog := C.Forgotten(s.catalog, handle.operation),
          leases := ReleaseCapture(s, handle)), Err(refused.error))
      else
        Outcome(s.(log := log, catalog := C.Committed(s.catalog, snapshot), leases := ReleaseCapture(s, handle)),
                Ok(C.Published(s.catalog, snapshot)))
  }

  function AbortCapture(s: State, handle: CaptureHandle): Outcome<()> {
    Outcome(s.(catalog := C.Forgotten(s.catalog, handle.operation), leases := ReleaseCapture(s, handle)),
            if CanRelease(s, handle) then Ok(()) else Err(ErrLeaseFenced))
  }

  // ---------- verify.go and internal/verify ----------

  function DigestInput(chunks: seq<Chunk>): Bytes {
    if chunks == [] then []
    else DigestInput(chunks[..|chunks| - 1]) + TextBytes(chunks[|chunks| - 1].digest) + chunks[|chunks| - 1].data
  }

  function SnapshotDigest(h: Hash32, snapshot: Snapshot): string {
    Hex(h(DigestInput(snapshot.chunks)))
  }

  function VerifyEntry(snapshot: Snapshot, digest: string, now: int): J.Entry {
    J.Entry(0, snapshot.generation, "verify", snapshot.id, snapshot.operation, digest, now)
  }

  /** Journal first, then the state change, then the receipt; the receipt is withdrawn if the state
      change is refused. */
  function CommitVerification(
    s: State, snapshot: Snapshot, receipt: Receipt, digest: string, now: int): Outcome<Receipt> {
    if s.log.closed then Outcome(s, Err(ErrJournalClosed))
    else
      var t := s.(log := J.Appended(s.log, VerifyEntry(snapshot, digest, now)));
      var refused := C.SetStateError(s.catalog, snapshot.id, snapshot.generation);
      if refused.Err? then Outcome(t.(receipts := Withdrawn(s.receipts, snapshot.id, snapshot.generation)),
        Err(refused.error))
      else Outcome(
        t.(catalog := C.WithState(s.catalog, snapshot.id, snapshot.generation, Verified),
           receipts := s.receipts[receipt.snapshotID := receipt]), Ok(receipt))
  }

  function Withdrawn(receipts: map<string, Receipt>, snapshotID: string, generation: nat): map<string, Receipt> {
    if snapshotID in receipts && receipts[snapshotID].generation == generation then receipts - {snapshotID}
      else receipts
  }

  function VerifySnapshot(h: Hash32, s: State, snapshotID: string, now: int, entryAt: int): Outcome<Receipt> {
    if snapshotID !in s.catalog.snapshots then Outcome(s, Err(ErrNotFound))
    else
      var snapshot := s.catalog.snapshots[snapshotID];
      if snapshot.state != Published then Outcome(s, Err(ErrInvalidTransition))
      else
        var digest := SnapshotDigest(h, snapshot);
        CommitVerification(s, snapshot, Receipt(snapshot.id, snapshot.generation, digest, now), digest, entryAt)
  }

  // ---------- restore.go ----------

  function IndexesOf(chunks: seq<Chunk>): (indexes: seq<int>)
    ensures |indexes| == |chunks| && forall i :: 0 <= i < |chunks| ==> indexes[i] == chunks[i].index
  {
    seq(|chunks|, i requires 0 <= i < |chunks| => chunks[i].index)
  }

  ghost function PlanFor(snapshot: Snapshot, planID: string): RestorePlan {
    RestorePlan(planID, snapshot.id, SortedInts(IndexesOf(snapshot.chunks)), 0, snapshot.createdAt)
  }

  ghost function BeginRestore(s: State, snapshotID: string, owner: string, ttl: int, now: int): Outcome<RestorePlan> {
    if snapshotID !in s.catalog.snapshots then Outcome(s, Err(ErrNotFound))
    else
      var snapshot := s.catalog.snapshots[snapshotID];
      var resource := RestoreLease(snapshotID);
      var t := s.(ids := s.ids + 1);
      if L.Held(s.leases, resource, now) then Outcome(t, Err(ErrLeaseHeld))
      else
        var leases := L.Acquired(s.leases, resource, owner, now, ttl);
        if snapshot.state == Expired then
          Outcome(t.(leases := L.Released(leases, resource, owner, L.Epoch(leases, resource))),
            Err(ErrInvalidTransition))
        else
          var plan := PlanFor(snapshot, NewID("restore", s.ids + 1));
          Outcome(t.(leases := leases, catalog := C.WithRef(s.catalog, plan.id, snapshotID)), Ok(plan))
  }

  function FinishEntry(plan: RestorePlan, epoch: nat, now: int): J.Entry {
    J.Entry(0, epoch, "restore-complete", plan.snapshotID, plan.id, "", now)
  }

  function FinishRestore(s: State, plan: RestorePlan, owner: string, now: int): Outcome<()> {
    var resource := RestoreLease(plan.snapshotID);
    if resource !in s.leases.leases then Outcome(s, Err(ErrNotFound))
    else if s.log.closed then Outcome(s, Err(ErrJournalClosed))
    else
      var epoch := s.leases.leases[resource].epoch;
      var t := s.(log := J.Appended(s.log, FinishEntry(plan, epoch, now)));
      if !L.Releasable(s.leases, resource, owner, epoch) then Outcome(t, Err(ErrLeaseFenced))
      else
        var u := t.(leases := L.Released(s.leases, resource, owner, epoch));
        if !C.Refers(s.catalog, plan.id, plan.snapshotID) then Outcome(u, Err(ErrNotFound))
        else Outcome(u.(catalog := C.WithoutRef(s.catalog, plan.id, plan.snapshotID)), Ok(()))
  }

  function RollbackEntry(current: Snapshot, target: string, now: int): J.Entry {
    J.Entry(0, current.generation, "rollback", target, current.operation, target, now)
  }

  ghost predicate HasTarget(s: State, snapshotID: string) {
    snapshotID in s.catalog.snapshots &&
    exists id :: C.Candidate(s.catalog, s.catalog.snapshots[snapshotID].generation, id)
  }

  /** `target` is the snapshot `LastVerifiedFull` came up with, if there is a candidate. */
  ghost function Rollback(s: State, snapshotID: string, target: string, now: int): Outcome<string> {
    if !HasTarget(s, snapshotID) then Outcome(s, Err(ErrNotFound))
    else if s.log.closed then Outcome(s, Err(ErrJournalClosed))
    else Outcome(s.(log := J.Appended(s.log, RollbackEntry(s.catalog.snapshots[snapshotID], target, now))), Ok(target))
  }

  function Replayed(s: State, operation: string): nat {
    if operation in s.replay then s.replay[operation] else 0
  }

  /** One iteration of the replay loop. */
  function ReplayRow(s: State, entry: J.Entry): Outcome<()> {
    if entry.generation <= Replayed(s, entry.operation) then Outcome(s, Ok(()))
    else
      var t := s.(replay := s.replay[entry.operation := entry.generation]);
      if entry.kind != "verify" then Outcome(t, Ok(()))
      else
        var refused := C.SetStateError(s.catalog, entry.snapshotID, entry.generation);
        Outcome(t.(catalog := C.WithState(s.catalog, entry.snapshotID, entry.generation, Verified)),
                if refused.Err? && refused.error != ErrNotFound then Err(refused.error) else Ok(()))
  }

  function ReplayRows(s: State, rows: seq<J.Entry>): Outcome<()>
    decreases |rows|
  {
    if rows == [] then Outcome(s, Ok(()))
    else
      var first := ReplayRow(s, rows[0]);
      if first.reply.Err? then first else ReplayRows(first.state, rows[1..])
  }

  function Replay(s: State, entries: seq<J.Entry>): Outcome<()> {
    ReplayRows(s, J.Latest(entries))
  }

  // ---------- service_new.go ----------

  /** The IDs that the collector looks at: from mirror records and the journal, not from the catalog. */
  ghost function GcIDs(s: State): set<string> {
    s.mirrored + (set i | 0 <= i < |s.log.entries| && s.log.entries[i].snapshotID != "" :: s.log.entries[i].snapshotID)
  }

  predicate Collectable(s: State, now: int, keepWindow: int, id: string) {
    && id in s.catalog.snapshots && now - s.catalog.snapshots[id].createdAt >= keepWindow
    && id !in s.pins && id !in s.mirrored && !C.HasRef(s.catalog, id)
  }

  ghost function Collected(s: State, now: int, keepWindow: int): set<string> {
    set id | id in GcIDs(s) && Collectable(s, now, keepWindow, id)
  }

  function GcCollect(s: State): State {
    s.(pins := s.pins + s.mirrored)
  }
}
