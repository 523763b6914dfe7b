/** internal/service: the methods of the service over its stores, each proved to do what
    `ServiceSpec` says. */
module BackupService {
  import opened BackupModel
  import opened Formats
  import opened Ordering
  import opened ServiceSpec
  import J = Journal
  import L = LeaseStore
  import C = Catalog
  import G = GcStore

  /** internal/verify/receipts.go */
  class ReceiptStore {
    var receipts: map<string, Receipt>

    constructor ()
      ensures receipts == map[]
    {
      receipts := map[];
    }

    method Commit(receipt: Receipt)
      modifies this
      ensures receipts == old(receipts)[receipt.snapshotID := receipt]
    {
      receipts := receipts[receipt.snapshotID := receipt];
    }

    method Delete(snapshotID: string, generation: nat)
      modifies this
      ensures receipts == Withdrawn(old(receipts), snapshotID, generation)
    {
      if snapshotID in receipts && receipts[snapshotID].generation == generation {
        receipts := receipts - {snapshotID};
      }
    }
  }

  class Service {
    const h: Hash32
    const catalog: C.Store
    const journal: J.JournalLog
    const leases: L.Store
    const verifications: ReceiptStore
    const gcStore: G.Store
    var generation: nat
    /** The process-wide ID counter. */
    var nextID: nat
    var replayGenerations: map<string, nat>
    /** Snapshot IDs that have a mirror record. */
    var mirrored: set<string>

    ghost predicate Valid()
      reads this, catalog, journal, leases, gcStore
    {
      C.Inv(catalog.Contents()) && J.Numbered(journal.Contents()) && L.Inv(leases.Contents()) && gcStore.Valid()
    }

    ghost function Contents(): State
      reads this, catalog, journal, leases, verifications, gcStore
    {
      State(leases.Contents(), journal.Contents(), catalog.Contents(), verifications.receipts,
            generation, nextID, replayGenerations, gcStore.pins, mirrored)
    }

    constructor (h: Hash32, maxChunks: int)
      ensures Valid()
      ensures Contents() == Initial(if maxChunks < 1 then 64 else maxChunks) && this.h == h
    {
      this.h := h;
      catalog := new C.Store(maxChunks);
      journal := new J.JournalLog();
      leases := new L.Store();
      verifications := new ReceiptStore();
      gcStore := new G.Store();
      generation, nextID, replayGenerations, mirrored := 0, 0, map[], {};
    }

    method BeginCapture(cancelled: bool, snapshotID: string, owner: string, ttl: int, now: int)
      returns (r: Result<CaptureHandle>)
      requires Valid()
      modifies leases, this`generation, this`nextID
      ensures Valid()
      ensures ServiceSpec.BeginCapture(old(Contents()), cancelled, snapshotID, owner, ttl, now) ==
        Outcome(Contents(), r)
    {
      if cancelled {
        return Err(ErrCancelled);
      }
      if snapshotID == "" || owner == "" || ttl <= 0 {
        return Err(ErrConflict);
      }
      var acquired := AcquireAndCount(CaptureLease(snapshotID), owner, ttl, now);
      if acquired.Err? {
        return Err(acquired.error);
      }
      r := Ok(CaptureHandle(NewID("capture", nextID), snapshotID, owner, acquired.value, generation));
    }

    /** Takes the lease, then the next ID and generation; returns the lease epoch. */
    method AcquireAndCount(resource: string, owner: string, ttl: int, now: int) returns (epoch: Result<nat>)
      requires Valid()
      modifies leases, this`generation, this`nextID
      ensures Valid()
      ensures var s := old(Contents());
              if L.Held(s.leases, resource, now) then epoch == Err(ErrLeaseHeld) && Contents() == s
              else
                && epoch == Ok(L.Epoch(s.leases, resource) + 1)
                && Contents() == s.(leases := L.Acquired(s.leases, resource, owner, now, ttl),
                                    generation := s.generation + 1, ids := s.ids + 1)
    {
      var acquired := leases.Acquire(resource, owner, now, ttl);
      if acquired.Err? {
        return Err(acquired.error);
      }
      nextID := nextID + 1;
      generation := generation + 1;
      epoch := Ok(acquired.value.epoch);
    }

    method StageChunk(handle: CaptureHandle, index: int, data: Bytes, now: int) returns (r: Result<()>)
      requires Valid()
      modifies catalog
      ensures Valid()
      ensures ServiceSpec.StageChunk(h, old(Contents()), handle, index, data, now) == Outcome(Contents(), r)
    {
      var valid := leases.Validate(CaptureLease(handle.snapshotID), handle.owner, handle.leaseEpoch, now);
      if !valid {
        return Err(ErrLeaseFenced);
      }
      r := ReserveAndStage(handle.operation, Chunk(index, Hex(h(data)), data));
    }

    method ReserveAndStage(operation: string, chunk: Chunk) returns (r: Result<()>)
      requires Valid()
      modifies catalog
      ensures Valid()
      ensures catalog.Contents() == StagedCatalog(old(catalog.Contents()), operation, chunk)
      ensures r == StageReply(old(catalog.Contents()), operation, chunk)
    {
      var reserved := catalog.ReserveDigest(operation, chunk.digest);
      if !reserved {
        return Err(ErrConflict);
      }
      r := catalog.StageChunk(operation, chunk);
      if r.Err? {
        catalog.ReleaseDigest(operation, chunk.digest);
      }
    }

    /** Forgets the operation's staged chunks and reservations and gives its lease back. */
    method Drop(handle: CaptureHandle) returns (released: bool)
      requires Valid()
      modifies catalog, leases
      ensures Valid()
      ensures catalog.Contents() == C.Forgotten(old(catalog.Contents()), handle.operation)
      ensures leases.Contents() == ReleaseCapture(old(Contents()), handle)
      ensures released <==> CanRelease(old(Contents()), handle)
    {
      catalog.ForgetOperation(handle.operation);
      released := leases.Release(CaptureLease(handle.snapshotID), handle.owner, handle.leaseEpoch);
    }

    method CommitCapture(handle: CaptureHandle, baseID: string, full: bool, metadata: map<string, string>, diff: string,
                         validateAt: int, now: int) returns (r: Result<Snapshot>)
      requires Valid()
      modifies catalog, journal, leases
      ensures Valid()
      ensures ServiceSpec.CommitCapture(old(Contents()), handle, baseID, full, metadata, diff, validateAt, now) ==
        Outcome(Contents(), r)
    {
      var resource := CaptureLease(handle.snapshotID);
      var valid := leases.Validate(resource, handle.owner, handle.leaseEpoch, validateAt);
      if !valid {
        return Err(ErrLeaseFenced);
      }
      var detail := if baseID in catalog.snapshots then diff else "initial snapshot";
      var appended := journal.Append(J.Entry(0, handle.generation, "publish", handle.snapshotID, handle.operation,
        detail, now));
      if appended.Err? {
        var _ := Drop(handle);
        return Err(appended.error);
      }
      r := Publish(handle, NewSnapshot(handle, baseID, full, metadata, now));
    }

    /** The part of `CommitCapture` after the journal entry is written. */
    method Publish(handle: CaptureHandle, snapshot: Snapshot) returns (r: Result<Snapshot>)
      requires Valid() && CanRelease(Contents(), handle) && snapshot.operation == handle.operation
      modifies catalog, leases
      ensures Valid()
      ensures leases.Contents() == ReleaseCapture(old(Contents()), handle)
      ensures var refused := C.CommitError(old(catalog.Contents()), snapshot);
              if refused.Err? then
                && r == Err(refused.error)
                && catalog.Contents() == C.Forgotten(old(catalog.Contents()), handle.operation)
              else
                && r == Ok(C.Published(old(catalog.Contents()), snapshot))
                && catalog.Contents() == C.Committed(old(catalog.Contents()), snapshot)
    {
      var committed := catalog.CommitSnapshot(snapshot);
      if committed.Err? {
        var _ := Drop(handle);
        return Err(committed.error);
      }
      var released := leases.Release(CaptureLease(handle.snapshotID), handle.owner, handle.leaseEpoch);
      if !released {
        return Err(ErrLeaseFenced);
      }
      r := Ok(catalog.snapshots[snapshot.id]);
    }

    method AbortCapture(handle: CaptureHandle) returns (r: Result<()>)
      requires Valid()
      modifies catalog, leases
      ensures Valid()
      ensures ServiceSpec.AbortCapture(old(Contents()), handle) == Outcome(Contents(), r)
    {
      var released := Drop(handle);
      r := if released then Ok(()) else Err(ErrLeaseFenced);
    }

    /** The digest loop of internal/verify. */
    method Digest(chunks: seq<Chunk>) returns (digest: string)
      ensures digest == Hex(h(DigestInput(chunks)))
    {
      var input: Bytes := [];
      for i := 0 to |chunks|
        invariant input == DigestInput(chunks[..i])
      {
        assert chunks[..i + 1][..i] == chunks[..i];
        input := input + TextBytes(chunks[i].digest) + chunks[i].data;
      }
      assert chunks[..|chunks|] == chunks;
      digest := Hex(h(input));
    }

    method CommitVerification(snapshot: Snapshot, receipt: Receipt, digest: string, now: int)
      returns (r: Result<Receipt>)
      requires Valid()
      modifies journal, catalog, verifications
      ensures Valid()
      ensures ServiceSpec.CommitVerification(old(Contents()), snapshot, receipt, digest, now) == Outcome(Contents(), r)
    {
      var appended := journal.Append(VerifyEntry(snapshot, digest, now));
      if appended.Err? {
        return Err(appended.error);
      }
      var changed := catalog.SetState(snapshot.id, snapshot.generation, Verified);
      if changed.Err? {
        verifications.Delete(snapshot.id, snapshot.generation);
        return Err(changed.error);
      }
      verifications.Commit(receipt);
      r := Ok(receipt);
    }

    method VerifySnapshot(snapshotID: string, now: int, entryAt: int) returns (r: Result<Receipt>)
      requires Valid()
      modifies journal, catalog, verifications
      ensures Valid()
      ensures ServiceSpec.VerifySnapshot(h, old(Contents()), snapshotID, now, entryAt) == Outcome(Contents(), r)
    {
      if snapshotID !in catalog.snapshots {
        return Err(ErrNotFound);
      }
      var snapshot := catalog.snapshots[snapshotID];
      if snapshot.state != Published {
        return Err(ErrInvalidTransition);
      }
      var digest := Digest(snapshot.chunks);
      r := CommitVerification(snapshot, Receipt(snapshot.id, snapshot.generation, digest, now), digest, entryAt);
    }

    /** `restore.Planner.Build` */
    method BuildPlan(snapshot: Snapshot, planID: string) returns (r: Result<RestorePlan>)
      ensures r == if snapshot.state == Expired then Err(ErrInvalidTransition) else Ok(PlanFor(snapshot, planID))
    {
      if snapshot.state == Expired {
        return Err(ErrInvalidTransition);
      }
      var sorted := SortInts(IndexesOf(snapshot.chunks));
      r := Ok(RestorePlan(planID, snapshot.id, sorted, 0, snapshot.createdAt));
    }

    method BeginRestore(snapshotID: string, owner: string, ttl: int, now: int) returns (r: Result<RestorePlan>)
      requires Valid()
      modifies leases, catalog, this`nextID
      ensures Valid()
      ensures ServiceSpec.BeginRestore(old(Contents()), snapshotID, owner, ttl, now) == Outcome(Contents(), r)
    {
      if snapshotID !in catalog.snapshots {
        return Err(ErrNotFound);
      }
      var snapshot := catalog.snapshots[snapshotID];
      nextID := nextID + 1;
      var resource := RestoreLease(snapshotID);
      var acquired := leases.Acquire(resource, owner, now, ttl);
      if acquired.Err? {
        return Err(acquired.error);
      }
      var built := BuildPlan(snapshot, NewID("restore", nextID));
      if built.Err? {
        var _ := leases.Release(resource, owner, leases.leases[resource].epoch);
        return Err(built.error);
      }
      catalog.AddRestoreReference(built.value.id, snapshotID);
      r := built;
    }

    method FinishRestore(plan: RestorePlan, owner: string, now: int) returns (r: Result<()>)
      requires Valid()
      modifies journal, leases, catalog
      ensures Valid()
      ensures ServiceSpec.FinishRestore(old(Contents()), plan, owner, now) == Outcome(Contents(), r)
    {
      var resource := RestoreLease(plan.snapshotID);
      if resource !in leases.leases {
        return Err(ErrNotFound);
      }
      var active := leases.leases[resource];
      var appended := journal.Append(FinishEntry(plan, active.epoch, now));
      if appended.Err? {
        return Err(appended.error);
      }
      var released := leases.Release(resource, owner, active.epoch);
      if !released {
        return Err(ErrLeaseFenced);
      }
      var removed := catalog.RemoveRestoreReference(plan.id, plan.snapshotID);
      r := if removed then Ok(()) else Err(ErrNotFound);
    }

    method ApplyRetention(keep: int) returns (expired: seq<string>, ghost order: seq<string>)
      requires Valid()
      modifies catalog
      ensures Valid() && C.NewestFirst(old(catalog.Contents()), order)
      ensures Contents() == old(Contents()).(catalog := C.ExpiredAll(old(catalog.Contents()),
        C.Unprotected(old(catalog.Contents()), keep, order)))
      ensures SortedListing(expired, C.Unprotected(old(catalog.Contents()), keep, order))
    {
      expired, order := catalog.ExpireUnprotected(keep);
    }

    method Rollback(snapshotID: string, now: int) returns (r: Result<string>, ghost target: string)
      requires Valid()
      modifies journal
      ensures Valid()
      ensures HasTarget(old(Contents()), snapshotID) ==>
                C.IsLastVerifiedFull(old(catalog.Contents()), old(catalog.snapshots)[snapshotID].generation, target)
      ensures ServiceSpec.Rollback(old(Contents()), snapshotID, target, now) == Outcome(Contents(), r)
    {
      target := "";
      if snapshotID !in catalog.snapshots {
        return Err(ErrNotFound), target;
      }
      var current := catalog.snapshots[snapshotID];
      var found, selected := catalog.LastVerifiedFull(current.generation);
      target := selected;
      if !found {
        return Err(ErrNotFound), target;
      }
      var appended := journal.Append(RollbackEntry(current, selected, now));
      r := if appended.Err? then Err(appended.error) else Ok(selected);
    }

    method Replay(entries: seq<J.Entry>) returns (r: Result<()>)
      requires Valid()
      modifies catalog, this`replayGenerations
      ensures Valid()
      ensures ServiceSpec.Replay(old(Contents()), entries) == Outcome(Contents(), r)
    {
      var rows := J.LatestByOperation(entries);
      ghost var start := Contents();
      for i := 0 to |rows|
        invariant Valid()
        invariant ReplayRows(start, rows) == ReplayRows(Contents(), rows[i..])
      {
        ghost var before := Contents();
        var step := ReplayOne(rows[i]);
        assert rows[i..][1..] == rows[i + 1..];
        if step.Err? {
          return step;
        }
      }
      assert rows[|rows|..] == [];
      r := Ok(());
    }

    /** The loop body of `Replay`. */
    method ReplayOne(entry: J.Entry) returns (r: Result<()>)
      requires Valid()
      modifies catalog, this`replayGenerations
      ensures Valid()
      ensures ReplayRow(old(Contents()), entry) == Outcome(Contents(), r)
    {
      if entry.generation <= (if entry.operation in replayGenerations then replayGenerations[entry.operation] else 0) {
        return Ok(());
      }
      replayGenerations := replayGenerations[entry.operation := entry.generation];
      if entry.kind == "verify" {
        var changed := catalog.SetState(entry.snapshotID, entry.generation, Verified);
        if changed.Err? && changed.error != ErrNotFound {
          return Err(changed.error);
        }
      }
      r := Ok(());
    }

    method PinMirrored()
      modifies gcStore`pins
      ensures gcStore.pins == old(gcStore.pins) + mirrored
    {
      var records := Enumerate(mirrored);
      ListsMembers(records, mirrored);
      for i := 0 to |records|
        invariant gcStore.pins == old(gcStore.pins) + Members(records[..i])
      {
        assert records[..i + 1] == records[..i] + [records[i]];
        gcStore.Pin(records[i]);
      }
      assert records[..|records|] == records;
      assert Members(records) == mirrored;
    }

    method GcSnapshotIDs() returns (ids: seq<string>)
      ensures Lists(ids, GcIDs(Contents()))
    {
      var seen := mirrored;
      for i := 0 to |journal.entries|
        invariant seen == mirrored + (set j | 0 <= j < i &&
          journal.entries[j].snapshotID != "" :: journal.entries[j].snapshotID)
      {
        if journal.entries[i].snapshotID != "" {
          seen := seen + {journal.entries[i].snapshotID};
        }
      }
      assert seen == GcIDs(Contents());
      ids := Enumerate(seen);
    }

    /** Which IDs hold a restore reference. */
    function Referenced(): set<string>
      reads catalog
    {
      set id | id in catalog.restoreRefs && catalog.restoreRefs[id] != {}
    }

    method GcCollect(now: int, keepWindow: int) returns (expired: seq<string>)
      requires Valid()
      modifies gcStore`pins
      ensures Valid() && Contents() == ServiceSpec.GcCollect(old(Contents()))
      ensures SortedListing(expired, Collected(old(Contents()), now, keepWindow))
    {
      PinMirrored();
      var ids := GcSnapshotIDs();
      var snapshots := Existing(ids);
      expired := gcStore.Collect(now, snapshots, keepWindow, Referenced());
      G.PickedOnce(snapshots, now, keepWindow, gcStore.pins, Referenced());
      PickedIsCollected(old(Contents()), ids, snapshots, now, keepWindow, gcStore.pins, Referenced());
    }

    method Existing(ids: seq<string>) returns (snapshots: seq<Snapshot>)
      requires Valid() && Lists(ids, GcIDs(Contents()))
      ensures IsExisting(Contents(), ids, snapshots)
    {
      snapshots := [];
      for i := 0 to |ids|
        invariant forall j :: 0 <= j < |snapshots| ==>
          snapshots[j].id in ids[..i] && snapshots[j].id in catalog.snapshots &&
            catalog.snapshots[snapshots[j].id] == snapshots[j]
        invariant forall j, k :: 0 <= j < k < |snapshots| ==> snapshots[j].id != snapshots[k].id
        invariant forall j :: 0 <= j < i && ids[j] in catalog.snapshots ==> catalog.snapshots[ids[j]] in snapshots
      {
        assert ids[..i + 1] == ids[..i] + [ids[i]];
        forall j | 0 <= j < i ensures ids[j] != ids[i] {
          ListsDistinct(ids, GcIDs(Contents()), j, i);
        }
        if ids[i] in catalog.snapshots {
          snapshots := snapshots + [catalog.snapshots[ids[i]]];
        }
      }
      assert ids[..|ids|] == ids;
    }
  }

  /** The catalog snapshots among the given IDs, each once. */
  ghost predicate IsExisting(s: State, ids: seq<string>, snapshots: seq<Snapshot>) {
    && (forall j :: 0 <= j < |snapshots| ==>
          snapshots[j].id in ids && snapshots[j].id in s.catalog.snapshots &&
            s.catalog.snapshots[snapshots[j].id] == snapshots[j])
    && (forall j, k :: 0 <= j < k < |snapshots| ==> snapshots[j].id != snapshots[k].id)
    && (forall j :: 0 <= j < |ids| && ids[j] in s.catalog.snapshots ==> s.catalog.snapshots[ids[j]] in snapshots)
  }

  lemma PickedIsCollected(
    s: State, ids: seq<string>, snapshots: seq<Snapshot>, now: int, keepWindow: int, pins: set<string>,
    referenced: set<string>)
    requires C.Inv(s.catalog) && Lists(ids, GcIDs(s)) && IsExisting(s, ids, snapshots)
    requires pins == s.pins + s.mirrored && forall id :: id in referenced <==> C.HasRef(s.catalog, id)
    ensures G.PickedIDs(snapshots, now, keepWindow, pins, referenced) == Collected(s, now, keepWindow)
  {
    ListsMembers(ids, GcIDs(s));
    forall id | id in Collected(s, now, keepWindow)
      ensures id in G.PickedIDs(snapshots, now, keepWindow, pins, referenced)
    {
      var j :| 0 <= j < |ids| && ids[j] == id;
      assert s.catalog.snapshots[id] in snapshots;
      var i :| 0 <= i < |snapshots| && snapshots[i] == s.catalog.snapshots[id];
    }
  }
}
