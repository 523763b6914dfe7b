/** What a published snapshot contains: exactly the chunks that were staged, in index order, each with
    the digest of its own data, in every run. */
module ServiceContent {
  import opened BackupModel
  import opened Formats
  import opened Ordering
  import opened ServiceSpec
  import opened ServiceInvariant
  import opened ServiceRuns
  import J = Journal
  import L = LeaseStore
  import C = Catalog

  /** The digest of a chunk is the hash of its data. */
  function Honest(h: Hash32): Chunk -> bool {
    (c: Chunk) => c.digest == Hex(h(c.data))
  }

  ghost predicate ChunksGenuine(good: Chunk -> bool, chunks: C.Chunks) {
    forall i :: i in chunks ==> chunks[i].index == i && good(chunks[i])
  }

  ghost predicate StagedGenuine(good: Chunk -> bool, staged: map<string, C.Chunks>) {
    forall o {:trigger ChunksGenuine(good, staged[o])} :: o in staged ==> ChunksGenuine(good, staged[o])
  }

  /** Strictly ascending indexes and matching digests. */
  ghost predicate ListGenuine(good: Chunk -> bool, chunks: seq<Chunk>) {
    && chunks != []
    && (forall k :: 0 <= k < |chunks| ==> good(chunks[k]))
    && (forall j, k :: 0 <= j < k < |chunks| ==> chunks[j].index < chunks[k].index)
  }

  ghost predicate SnapshotsGenuine(good: Chunk -> bool, snapshots: Snapshots) {
    forall id {:trigger ListGenuine(good, snapshots[id].chunks)} :: id in snapshots ==>
      ListGenuine(good, snapshots[id].chunks)
  }

  ghost predicate Content(good: Chunk -> bool, c: C.Catalog) {
    StagedGenuine(good, c.staged) && SnapshotsGenuine(good, c.snapshots)
  }

  /** The chunk staged at this chunk's index is this one. */
  predicate StagedAt(chunks: C.Chunks, chunk: Chunk) {
    chunk.index in chunks && chunks[chunk.index] == chunk
  }

  ghost predicate OnlyStaged(list: seq<Chunk>, chunks: C.Chunks) {
    forall k :: 0 <= k < |list| ==> StagedAt(chunks, list[k])
  }

  lemma OrderedEntry(chunks: C.Chunks, k: nat)
    requires k < |C.Ordered(chunks)|
    ensures var indexes := C.SortedIndexes(chunks.Keys);
            k < |indexes| && indexes[k] in chunks && C.Ordered(chunks)[k] == chunks[indexes[k]]
  {
    var indexes := C.SortedIndexes(chunks.Keys);
    ListsMembers(indexes, chunks.Keys);
    assert indexes[k] in indexes;
  }

  lemma OrderedHas(chunks: C.Chunks, i: int)
    requires i in chunks
    ensures chunks[i] in C.Ordered(chunks)
  {
    var indexes := C.SortedIndexes(chunks.Keys);
    ListsMembers(indexes, chunks.Keys);
    assert i in indexes;
    var k :| 0 <= k < |indexes| && indexes[k] == i;
    assert C.Ordered(chunks)[k] == chunks[i];
  }

  lemma OrderedAscends(chunks: C.Chunks, j: nat, k: nat)
    requires j < k < |C.Ordered(chunks)|
    ensures var indexes := C.SortedIndexes(chunks.Keys); k < |indexes| && indexes[j] < indexes[k]
  {
    var indexes := C.SortedIndexes(chunks.Keys);
    ListsMembers(indexes, chunks.Keys);
    ListsDistinct(indexes, chunks.Keys, j, k);
    assert IntOrder(indexes[j], indexes[k]);
  }

  lemma OrderedSize(chunks: C.Chunks)
    ensures |C.Ordered(chunks)| == |chunks|
  {
    ListsMembers(C.SortedIndexes(chunks.Keys), chunks.Keys);
  }

  lemma OrderedIsStaged(good: Chunk -> bool, chunks: C.Chunks, k: nat)
    requires ChunksGenuine(good, chunks) && k < |C.Ordered(chunks)|
    ensures StagedAt(chunks, C.Ordered(chunks)[k])
  {
    OrderedEntry(chunks, k);
    var i := C.SortedIndexes(chunks.Keys)[k];
    assert chunks[i].index == i;
  }

  /** The ordered list holds each staged chunk once and nothing else. */
  lemma OrderedHoldsStaged(good: Chunk -> bool, chunks: C.Chunks)
    requires |chunks| > 0 && ChunksGenuine(good, chunks)
    ensures ListGenuine(good, C.Ordered(chunks)) && |C.Ordered(chunks)| == |chunks|
    ensures forall i :: i in chunks ==> chunks[i] in C.Ordered(chunks)
    ensures OnlyStaged(C.Ordered(chunks), chunks)
  {
    var list := C.Ordered(chunks);
    OrderedSize(chunks);
    forall k | 0 <= k < |list| ensures StagedAt(chunks, list[k]) {
      OrderedIsStaged(good, chunks, k);
    }
    forall i | i in chunks ensures chunks[i] in list {
      OrderedHas(chunks, i);
    }
    forall k | 0 <= k < |list| ensures good(list[k]) {
      OrderedEntry(chunks, k);
    }
    forall j, k | 0 <= j < k < |list| ensures list[j].index < list[k].index {
      OrderedEntry(chunks, j);
      OrderedEntry(chunks, k);
      OrderedAscends(chunks, j, k);
    }
  }

  lemma StagedShape(c: C.Catalog, operation: string, chunk: Chunk)
    ensures var d := StagedCatalog(c, operation, chunk);
            || d.staged == c.staged
            || d.staged == c.staged[operation := C.Staged(c, operation)]
            || d.staged == c.staged[operation := C.Staged(c, operation)[chunk.index := chunk]]
  {
    var reserved := C.Reserved(c, operation, chunk.digest);
    assert C.Staged(reserved, operation) == C.Staged(c, operation);
    var staged := C.StagedChunk(reserved, operation, chunk);
    assert C.ReleasedDigest(staged, operation, chunk.digest).staged == staged.staged;
  }

  lemma StagingKeepsGenuine(good: Chunk -> bool, c: C.Catalog, operation: string, chunk: Chunk)
    requires StagedGenuine(good, c.staged) && good(chunk)
    ensures StagedGenuine(good, StagedCatalog(c, operation, chunk).staged)
  {
    var after := StagedCatalog(c, operation, chunk).staged;
    var before := C.Staged(c, operation);
    StagedShape(c, operation, chunk);
    assert operation in c.staged ==> ChunksGenuine(good, c.staged[operation]);
    assert ChunksGenuine(good, before) && ChunksGenuine(good, before[chunk.index := chunk]);
    forall o | o in after ensures ChunksGenuine(good, after[o]) {
      assert o in c.staged ==> ChunksGenuine(good, c.staged[o]);
    }
  }

  lemma CommitKeepsContent(good: Chunk -> bool, c: C.Catalog, snapshot: Snapshot)
    requires Content(good, c)
    ensures Content(good, C.Committed(c, snapshot)) && Content(good, C.Forgotten(c, snapshot.operation))
  {
    var d := C.Committed(c, snapshot);
    if C.CommitError(c, snapshot).Ok? {
      assert ChunksGenuine(good, c.staged[snapshot.operation]);
      OrderedHoldsStaged(good, c.staged[snapshot.operation]);
      forall id | id in d.snapshots ensures ListGenuine(good, d.snapshots[id].chunks) {
        assert id in c.snapshots ==> ListGenuine(good, c.snapshots[id].chunks);
      }
    }
    forall o | o in c.staged && o != snapshot.operation
      ensures ChunksGenuine(good, (c.staged - {snapshot.operation})[o])
    {
      assert ChunksGenuine(good, c.staged[o]);
    }
  }

  // ---------- calls that only change states ----------

  /** Nothing newly staged and no new snapshot. */
  ghost predicate NoNewContent(c: C.Catalog, d: C.Catalog) {
    (forall o :: o in d.staged ==> o in c.staged && d.staged[o] == c.staged[o]) && d.snapshots.Keys == c.snapshots.Keys
  }

  lemma NothingNew(c: C.Catalog, d: C.Catalog)
    requires d.staged == c.staged && d.snapshots.Keys == c.snapshots.Keys
    ensures NoNewContent(c, d)
  {
  }

  lemma EvolvedContent(good: Chunk -> bool, c: C.Catalog, d: C.Catalog)
    requires Content(good, c) && NoNewContent(c, d) && Evolves(c.snapshots, d.snapshots)
    ensures Content(good, d)
  {
    forall o | o in d.staged ensures ChunksGenuine(good, d.staged[o]) {
      assert ChunksGenuine(good, c.staged[o]);
    }
    forall id | id in d.snapshots ensures ListGenuine(good, d.snapshots[id].chunks) {
      assert ListGenuine(good, c.snapshots[id].chunks) && EvolvesAt(c.snapshots, d.snapshots, id);
    }
  }

  lemma {:induction false} ReplayAddsNothing(s: State, rows: seq<J.Entry>)
    ensures NoNewContent(s.catalog, ReplayRows(s, rows).state.catalog)
    decreases |rows|
  {
    if rows != [] && ReplayRow(s, rows[0]).reply.Ok? {
      ReplayAddsNothing(ReplayRow(s, rows[0]).state, rows[1..]);
    }
  }

  lemma VerifyAddsNothing(h: Hash32, s: State, snapshotID: string, now: int, entryAt: int)
    ensures NoNewContent(s.catalog, VerifySnapshot(h, s, snapshotID, now, entryAt).state.catalog)
  {
    VerifyTouchesStateOnly(h, s, snapshotID, now, entryAt);
    NothingNew(s.catalog, VerifySnapshot(h, s, snapshotID, now, entryAt).state.catalog);
  }

  lemma BeginRestoreAddsNothing(s: State, snapshotID: string, owner: string, ttl: int, now: int)
    ensures NoNewContent(s.catalog, BeginRestore(s, snapshotID, owner, ttl, now).state.catalog)
  {
    NothingNew(s.catalog, BeginRestore(s, snapshotID, owner, ttl, now).state.catalog);
  }

  lemma FinishRestoreAddsNothing(s: State, plan: RestorePlan, owner: string, now: int)
    ensures NoNewContent(s.catalog, FinishRestore(s, plan, owner, now).state.catalog)
  {
    NothingNew(s.catalog, FinishRestore(s, plan, owner, now).state.catalog);
  }

  lemma EndingAddsNothing(c: C.Catalog, operation: string, ids: set<string>)
    ensures NoNewContent(c, C.Forgotten(c, operation)) && NoNewContent(c, C.ExpiredAll(c, ids))
  {
  }

  lemma OtherCallsAddNothing(h: Hash32, w: World, call: Call)
    requires !call.StageChunkCall? && !call.CommitCaptureCall?
    ensures NoNewContent(w.s.catalog, Step(h, w, call).s.catalog)
  {
    if LeavesCatalog(call) {
      CatalogIsLeft(h, w, call);
      NothingNew(w.s.catalog, w.s.catalog);
    } else if call.BeginRestoreCall? {
      BeginRestoreAddsNothing(w.s, call.snapshotID, call.owner, call.ttl, call.now);
    } else if call.FinishRestoreCall? {
      FinishRestoreAddsNothing(w.s, call.plan, call.owner, call.now);
    } else if call.VerifySnapshotCall? {
      VerifyAddsNothing(h, w.s, call.snapshotID, call.now, call.entryAt);
    } else if call.ReplayCall? {
      ReplayAddsNothing(w.s, J.Latest(call.entries));
    } else {
      EndingCallsAddNothing(h, w, call);
    }
  }

  lemma EndingCallsAddNothing(h: Hash32, w: World, call: Call)
    requires call.AbortCaptureCall? || call.ApplyRetentionCall?
    ensures NoNewContent(w.s.catalog, Step(h, w, call).s.catalog)
  {
    if call.AbortCaptureCall? {
      EndingAddsNothing(w.s.catalog, call.handle.operation, {});
    } else {
      EndingAddsNothing(w.s.catalog, "", C.Unprotected(w.s.catalog, call.keep, call.order));
    }
  }

  lemma CommitCallKeepsContent(
    h: Hash32, s: State, handle: CaptureHandle, baseID: string, full: bool, metadata: map<string, string>,
    diff: string, validateAt: int, now: int)
    requires Content(Honest(h), s.catalog)
    ensures Content(Honest(h), CommitCapture(s, handle, baseID, full, metadata, diff, validateAt, now).state.catalog)
  {
    CommitKeepsContent(Honest(h), s.catalog, NewSnapshot(handle, baseID, full, metadata, now));
    CommitTouches(s, handle, baseID, full, metadata, diff, validateAt, now);
  }

  lemma StepKeepsContent(h: Hash32, w: World, call: Call)
    requires Inv(h, w) && Enabled(w, call) && Content(Honest(h), w.s.catalog)
    ensures Content(Honest(h), Step(h, w, call).s.catalog)
  {
    if call.StageChunkCall? {
      var chunk := Chunk(call.index, Hex(h(call.data)), call.data);
      StagingKeepsGenuine(Honest(h), w.s.catalog, call.handle.operation, chunk);
      StageTouchesWorkOnly(w.s.catalog, call.handle.operation, chunk);
    } else if call.CommitCaptureCall? {
      CommitCallKeepsContent(
        h, w.s, call.handle, call.baseID, call.full, call.metadata, call.diff, call.validateAt, call.now);
    } else {
      OtherCallsAddNothing(h, w, call);
      StepKeepsInv(h, w, call);
      EvolvedContent(Honest(h), w.s.catalog, Step(h, w, call).s.catalog);
    }
  }

  lemma {:induction false} RunKeepsContent(h: Hash32, w: World, calls: seq<Call>)
    requires Inv(h, w) && Legal(h, w, calls) && Content(Honest(h), w.s.catalog)
    ensures Content(Honest(h), Run(h, w, calls).s.catalog)
    decreases |calls|
  {
    if calls != [] {
      StepKeepsInv(h, w, calls[0]);
      StepKeepsContent(h, w, calls[0]);
      RunKeepsContent(h, Step(h, w, calls[0]), calls[1..]);
    }
  }

  /** In every run each catalog snapshot has chunks with strictly ascending indexes whose digests are the
      hashes of their data. */
  lemma PublishedContentIsGenuine(h: Hash32, maxChunkCount: nat, calls: seq<Call>, id: string)
    requires maxChunkCount >= 1 && Legal(h, Start(maxChunkCount), calls)
    requires id in Run(h, Start(maxChunkCount), calls).s.catalog.snapshots
    ensures ListGenuine(Honest(h), Run(h, Start(maxChunkCount), calls).s.catalog.snapshots[id].chunks)
  {
    RunKeepsContent(h, Start(maxChunkCount), calls);
  }

  /** A successful commit publishes exactly the chunks staged under its operation, by ascending index. */
  lemma CommitPublishesStaged(
    h: Hash32, s: State, handle: CaptureHandle, baseID: string, full: bool, metadata: map<string, string>,
    diff: string, validateAt: int, now: int)
    requires Content(Honest(h), s.catalog) &&
      CommitCapture(s, handle, baseID, full, metadata, diff, validateAt, now).reply.Ok?
    ensures var o := CommitCapture(s, handle, baseID, full, metadata, diff, validateAt, now);
            var staged := C.Staged(s.catalog, handle.operation);
            && handle.snapshotID in o.state.catalog.snapshots &&
              o.state.catalog.snapshots[handle.snapshotID] == o.reply.value
            && ListGenuine(Honest(h), o.reply.value.chunks) && |o.reply.value.chunks| == |staged|
            && OnlyStaged(o.reply.value.chunks, staged) && forall i :: i in staged ==> staged[i] in o.reply.value.chunks
  {
    assert ChunksGenuine(Honest(h), s.catalog.staged[handle.operation]);
    OrderedHoldsStaged(Honest(h), C.Staged(s.catalog, handle.operation));
  }
}
