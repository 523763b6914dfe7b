/** internal/model: the values that the BackupMesh stores exchange. Times and durations are integers. */
module BackupModel {
  import opened Formats

  datatype SnapshotState = Staged | Published | Verified | Expired

  datatype Chunk = Chunk(index: int, digest: string, data: Bytes)

  datatype Snapshot = Snapshot(id: string, baseID: string, operation: string, generation: nat, full: bool,
                               state: SnapshotState, metadata: map<string, string>, chunks: seq<Chunk>, createdAt: int)

  datatype CaptureHandle = CaptureHandle(
    operation: string, snapshotID: string, owner: string, leaseEpoch: nat, generation: nat)

  datatype Lease = Lease(resource: string, owner: string, epoch: nat, deadline: int, released: bool)

  datatype Receipt = Receipt(snapshotID: string, generation: nat, digest: string, verifiedAt: int)

  datatype RestorePlan = RestorePlan(id: string, snapshotID: string, chunks: seq<int>, cursor: int, createdAt: int)

  datatype Error =
    | ErrNotFound | ErrConflict | ErrLeaseHeld | ErrLeaseFenced | ErrJournalClosed
    | ErrInvalidTransition | ErrCapacity | ErrCancelled

  datatype Result<T> = Ok(value: T) | Err(error: Error)
}
