/** What a capture is good for: its lease lasts, what it stages gets published, and what it publishes can
    be verified, whatever other calls fall in between. */
module CaptureDelivery {
  import opened BackupModel
  import opened Formats
  import opened ServiceSpec
  import opened ServiceInvariant
  import opened ServiceRuns
  import opened ServiceContent
  import J = Journal
  import L = LeaseStore
  import C = Catalog

  // ---------- leases ----------

  predicate HasLease(s: L.Leases, lease: Lease) {
    lease.resource in s.leases && s.leases[lease.resource] == lease && !lease.released
  }

  lemma AcquiredKeepsLease(s: L.Leases, resource: string, owner: string, now: int, ttl: int, lease: Lease)
    requires HasLease(s, lease) && (resource == lease.resource ==> now < lease.deadline)
    ensures HasLease(L.Acquired(s, resource, owner, now, ttl), lease)
  {
  }

  lemma ReleasedKeepsLease(s: L.Leases, resource: string, owner: string, epoch: nat, lease: Lease)
    requires HasLease(s, lease)
    requires !(resource == lease.resource && owner == lease.owner && epoch == lease.epoch)
    ensures HasLease(L.Released(s, resource, owner, epoch), lease)
  {
  }

  lemma LeaseNames(a: string, b: string)
    ensures CaptureLease(a) == CaptureLease(b) ==> a == b
    ensures RestoreLease(a) == RestoreLease(b) ==> a == b
    ensures CaptureLease(a) != RestoreLease(b)
  {
    assert CaptureLease(a)[8..] == a && CaptureLease(b)[8..] == b;
    assert RestoreLease(a)[8..] == a && RestoreLease(b)[8..] == b;
    assert CaptureLease(a)[0] == 'c' && RestoreLease(b)[0] == 'r';
  }

  /** A call that neither ends this lease nor takes its resource over before the deadline. */
  predicate SparesLease(call: Call, lease: Lease) {
    match call
    case BeginCaptureCall(_, id, _, _, now) => CaptureLease(id) == lease.resource ==> now < lease.deadline
    case CommitCaptureCall(x, _, _, _, _, _, _) => !HandleHas(x, lease)
    case AbortCaptureCall(x) => !HandleHas(x, lease)
    case BeginRestoreCall(id, _, _, now) => RestoreLease(id) == lease.resource ==> now < lease.deadline
    case FinishRestoreCall(plan, owner, _) => RestoreLease(plan.snapshotID) == lease.resource ==> owner != lease.owner
    case _ => true
  }

  predicate HandleHas(x: CaptureHandle, lease: Lease) {
    CaptureLease(x.snapshotID) == lease.resource && x.owner == lease.owner && x.leaseEpoch == lease.epoch
  }

  predicate LeavesLeases(call: Call) {
    && !call.BeginCaptureCall? && !call.CommitCaptureCall? && !call.AbortCaptureCall?
    && !call.BeginRestoreCall? && !call.FinishRestoreCall?
  }

  lemma {:induction false} ReplayLeavesLeases(s: State, rows: seq<J.Entry>)
    ensures ReplayRows(s, rows).state.leases == s.leases
    decreases |rows|
  {
    if rows != [] && ReplayRow(s, rows[0]).reply.Ok? {
      ReplayLeavesLeases(ReplayRow(s, rows[0]).state, rows[1..]);
    }
  }

  lemma LeasesAreLeft(h: Hash32, w: World, call: Call)
    requires LeavesLeases(call)
    ensures Step(h, w, call).s.leases == w.s.leases
  {
    if call.ReplayCall? {
      ReplayLeavesLeases(w.s, J.Latest(call.entries));
    } else if call.VerifySnapshotCall? {
      VerifyLeavesLeases(h, w.s, call.snapshotID, call.now, call.entryAt);
    } else if call.StageChunkCall? {
      StageLeavesLeases(h, w.s, call.handle, call.index, call.data, call.now);
    } else if call.RollbackCall? {
      RollbackLeavesLeases(w.s, call.snapshotID, call.target, call.now);
    } else {
      OthersLeaveLeases(h, w, call);
    }
  }

  lemma VerifyLeavesLeases(h: Hash32, s: State, id: string, now: int, entryAt: int)
    ensures VerifySnapshot(h, s, id, now, entryAt).state.leases == s.leases
  {
  }

  lemma StageLeavesLeases(h: Hash32, s: State, x: CaptureHandle, index: int, data: Bytes, now: int)
    ensures StageChunk(h, s, x, index, data, now).state.leases == s.leases
  {
  }

  lemma RollbackLeavesLeases(s: State, id: string, target: string, now: int)
    ensures Rollback(s, id, target, now).state.leases == s.leases
  {
  }

  lemma OthersLeaveLeases(h: Hash32, w: World, call: Call)
    requires LeavesLeases(call) && !call.ReplayCall? && !call.VerifySnapshotCall? && !call.StageChunkCall?
    requires !call.RollbackCall?
    ensures Step(h, w, call).s.leases == w.s.leases
  {
  }

  lemma CommitLeases(
    s: State, x: CaptureHandle, baseID: string, full: bool, metadata: map<string, string>, diff: string,
    validateAt: int, now: int)
    ensures var leases := CommitCapture(s, x, baseID, full, metadata, diff, validateAt, now).state.leases;
      leases == s.leases || leases == ReleaseCapture(s, x)
  {
  }

  lemma BeginRestoreKeepsLease(s: State, id: string, owner: string, ttl: int, now: int, lease: Lease)
    requires HasLease(s.leases, lease) && (RestoreLease(id) == lease.resource ==> now < lease.deadline)
    ensures HasLease(BeginRestore(s, id, owner, ttl, now).state.leases, lease)
  {
    AcquiredKeepsLease(s.leases, RestoreLease(id), owner, now, ttl, lease);
  }

  lemma FinishRestoreKeepsLease(s: State, plan: RestorePlan, owner: string, now: int, lease: Lease)
    requires HasLease(s.leases, lease)
    requires RestoreLease(plan.snapshotID) == lease.resource ==> owner != lease.owner
    ensures HasLease(FinishRestore(s, plan, owner, now).state.leases, lease)
  {
  }

  lemma StepKeepsLease(h: Hash32, w: World, call: Call, lease: Lease)
    requires HasLease(w.s.leases, lease) && SparesLease(call, lease)
    ensures HasLease(Step(h, w, call).s.leases, lease)
  {
    if LeavesLeases(call) {
      LeasesAreLeft(h, w, call);
    } else if call.BeginCaptureCall? {
      AcquiredKeepsLease(w.s.leases, CaptureLease(call.snapshotID), call.owner, call.now, call.ttl, lease);
    } else if call.BeginRestoreCall? {
      BeginRestoreKeepsLease(w.s, call.snapshotID, call.owner, call.ttl, call.now, lease);
    } else if call.FinishRestoreCall? {
      FinishRestoreKeepsLease(w.s, call.plan, call.owner, call.now, lease);
    } else {
      EndingKeepsLease(h, w, call, lease);
    }
  }

  lemma EndingKeepsLease(h: Hash32, w: World, call: Call, lease: Lease)
    requires HasLease(w.s.leases, lease) && SparesLease(call, lease)
    requires call.CommitCaptureCall? || call.AbortCaptureCall?
    ensures HasLease(Step(h, w, call).s.leases, lease)
  {
    var x := call.handle;
    ReleasedKeepsLease(w.s.leases, CaptureLease(x.snapshotID), x.owner, x.leaseEpoch, lease);
    if call.CommitCaptureCall? {
      CommitLeases(
        w.s, x, call.baseID, call.full, call.metadata, call.diff, call.validateAt, call.now);
    }
  }

  lemma {:induction false} RunKeepsLease(h: Hash32, w: World, calls: seq<Call>, lease: Lease)
    requires HasLease(w.s.leases, lease) && forall i :: 0 <= i < |calls| ==> SparesLease(calls[i], lease)
    ensures HasLease(Run(h, w, calls).s.leases, lease)
    decreases |calls|
  {
    if calls != [] {
      StepKeepsLease(h, w, calls[0], lease);
      RunKeepsLease(h, Step(h, w, calls[0]), calls[1..], lease);
    }
  }

  // ---------- the lease of a capture ----------

  predicate EndsOperation(call: Call, operation: string) {
    (call.CommitCaptureCall? || call.AbortCaptureCall?) && call.handle.operation == operation
  }

  /** Nobody commits or aborts the capture or asks for its snapshot after the lease has run out. */
  predicate SparesCapture(call: Call, x: CaptureHandle, deadline: int) {
    && !EndsOperation(call, x.operation)
    && (call.BeginCaptureCall? && call.snapshotID == x.snapshotID ==> call.now < deadline)
  }

  function LeaseOf(x: CaptureHandle, deadline: int): Lease {
    Lease(CaptureLease(x.snapshotID), x.owner, x.leaseEpoch, deadline, false)
  }

  lemma SparesItsLease(w: World, call: Call, x: CaptureHandle, deadline: int)
    requires Unique(w.issued) && x in w.issued && Enabled(w, call) && SparesCapture(call, x, deadline)
    ensures SparesLease(call, LeaseOf(x, deadline))
  {
    if call.BeginCaptureCall? {
      LeaseNames(call.snapshotID, x.snapshotID);
    } else if call.BeginRestoreCall? {
      LeaseNames(x.snapshotID, call.snapshotID);
    } else if call.FinishRestoreCall? {
      LeaseNames(x.snapshotID, call.plan.snapshotID);
    } else if call.CommitCaptureCall? || call.AbortCaptureCall? {
      LeaseNames(call.handle.snapshotID, x.snapshotID);
      assert Apart(call.handle, x);
    }
  }

  lemma {:induction false} RunKeepsCaptureLease(h: Hash32, w: World, calls: seq<Call>, x: CaptureHandle, deadline: int)
    requires Inv(h, w) && Legal(h, w, calls) && x in w.issued && HasLease(w.s.leases, LeaseOf(x, deadline))
    requires forall i :: 0 <= i < |calls| ==> SparesCapture(calls[i], x, deadline)
    ensures HasLease(Run(h, w, calls).s.leases, LeaseOf(x, deadline))
    decreases |calls|
  {
    if calls != [] {
      StepKeepsInv(h, w, calls[0]);
      SparesItsLease(w, calls[0], x, deadline);
      StepKeepsLease(h, w, calls[0], LeaseOf(x, deadline));
      RunKeepsCaptureLease(h, Step(h, w, calls[0]), calls[1..], x, deadline);
    }
  }

  /** A capture begins exactly if it is not cancelled, ID, owner and TTL are given, and nobody holds its
      lease. The handle takes the next ID, generation and epoch. */
  lemma BeginDecides(s: State, cancelled: bool, id: string, owner: string, ttl: int, now: int)
    ensures var o, resource := BeginCapture(s, cancelled, id, owner, ttl, now), "capture:" + id;
      && (o.reply.Ok? <==>
            && !cancelled && id != "" && owner != "" && ttl > 0
            && !(resource in s.leases.leases && !s.leases.leases[resource].released
                 && now < s.leases.leases[resource].deadline))
      && (o.reply.Ok? ==>
            && o.reply.value == CaptureHandle(NewID("capture", s.ids + 1), id, owner,
                                              L.Epoch(s.leases, resource) + 1, s.generation + 1)
            && o.state.ids == s.ids + 1 && o.state.generation == s.generation + 1)
  {
  }

  lemma BeginGivesLease(s: State, cancelled: bool, id: string, owner: string, ttl: int, now: int)
    requires BeginCapture(s, cancelled, id, owner, ttl, now).reply.Ok?
    ensures var o := BeginCapture(s, cancelled, id, owner, ttl, now);
      && o.reply.value.snapshotID == id && o.reply.value.owner == owner
      && HasLease(o.state.leases, LeaseOf(o.reply.value, now + ttl))
  {
  }

  /** The handle of a capture begun at `now` validates exactly until `now + ttl`, in every run that spares
      the capture. */
  lemma CaptureLeaseLasts(
    h: Hash32, w: World, begin: Call, calls: seq<Call>, x: CaptureHandle, later: int)
    requires Inv(h, w) && begin.BeginCaptureCall?
    requires BeginCapture(w.s, begin.cancelled, begin.snapshotID, begin.owner, begin.ttl, begin.now).reply == Ok(x)
    requires Legal(h, Step(h, w, begin), calls)
    requires forall i :: 0 <= i < |calls| ==> SparesCapture(calls[i], x, begin.now + begin.ttl)
    ensures Validates(Run(h, Step(h, w, begin), calls).s, x, later) <==> later < begin.now + begin.ttl
  {
    LeaseAfterBegin(h, w, begin, calls, x);
  }

  // ---------- staged chunks stay ----------

  /** A chunk with this digest is staged at this index. */
  predicate Stages(staged: map<string, C.Chunks>, operation: string, index: int, digest: string) {
    && operation in staged && index in staged[operation]
    && staged[operation][index].index == index && staged[operation][index].digest == digest
  }

  lemma StagingKeepsStaged(c: C.Catalog, o: string, chunk: Chunk, operation: string, index: int, digest: string)
    requires Stages(c.staged, operation, index, digest)
    ensures Stages(StagedCatalog(c, o, chunk).staged, operation, index, digest)
  {
    var reserved := C.Reserved(c, o, chunk.digest);
    var staged := C.StagedChunk(reserved, o, chunk);
    assert reserved.staged == c.staged;
    assert C.ReleasedDigest(staged, o, chunk.digest).staged == staged.staged;
    assert Stages(staged.staged, operation, index, digest);
  }

  lemma {:induction false} ReplayLeavesWork(s: State, rows: seq<J.Entry>)
    ensures WorkOf(ReplayRows(s, rows).state.catalog) == WorkOf(s.catalog)
    decreases |rows|
  {
    if rows != [] && ReplayRow(s, rows[0]).reply.Ok? {
      ReplayLeavesWork(ReplayRow(s, rows[0]).state, rows[1..]);
    }
  }

  lemma BeginRestoreLeavesWork(s: State, id: string, owner: string, ttl: int, now: int)
    ensures WorkOf(BeginRestore(s, id, owner, ttl, now).state.catalog) == WorkOf(s.catalog)
  {
  }

  lemma FinishRestoreLeavesWork(s: State, plan: RestorePlan, owner: string, now: int)
    ensures WorkOf(FinishRestore(s, plan, owner, now).state.catalog) == WorkOf(s.catalog)
  {
  }

  /** Only staging, commit and abort touch what captures have under way. */
  lemma WorkIsLeft(h: Hash32, w: World, call: Call)
    requires !call.StageChunkCall? && !call.CommitCaptureCall? && !call.AbortCaptureCall?
    ensures WorkOf(Step(h, w, call).s.catalog) == WorkOf(w.s.catalog)
  {
    if LeavesCatalog(call) {
      CatalogIsLeft(h, w, call);
    } else if call.BeginRestoreCall? {
      BeginRestoreLeavesWork(w.s, call.snapshotID, call.owner, call.ttl, call.now);
    } else if call.FinishRestoreCall? {
      FinishRestoreLeavesWork(w.s, call.plan, call.owner, call.now);
    } else if call.VerifySnapshotCall? {
      VerifyTouchesStateOnly(h, w.s, call.snapshotID, call.now, call.entryAt);
    } else if call.ReplayCall? {
      ReplayLeavesWork(w.s, J.Latest(call.entries));
    }
  }

  /** Commit and abort take away at most the work of their own operation. */
  lemma EndingLeavesOthers(h: Hash32, w: World, call: Call)
    requires call.CommitCaptureCall? || call.AbortCaptureCall?
    ensures var c, d := w.s.catalog, Step(h, w, call).s.catalog;
      WorkOf(d) == WorkOf(c) || WorkOf(d) == WorkOf(C.Forgotten(c, call.handle.operation))
  {
    if call.CommitCaptureCall? {
      CommitTouches(
        w.s, call.handle, call.baseID, call.full, call.metadata, call.diff, call.validateAt, call.now);
    }
  }

  lemma StepKeepsStaged(h: Hash32, w: World, call: Call, operation: string, index: int, digest: string)
    requires Stages(w.s.catalog.staged, operation, index, digest) && !EndsOperation(call, operation)
    ensures Stages(Step(h, w, call).s.catalog.staged, operation, index, digest)
  {
    if call.StageChunkCall? {
      var chunk := Chunk(call.index, Hex(h(call.data)), call.data);
      StagingKeepsStaged(w.s.catalog, call.handle.operation, chunk, operation, index, digest);
    } else if call.CommitCaptureCall? || call.AbortCaptureCall? {
      EndingLeavesOthers(h, w, call);
    } else {
      WorkIsLeft(h, w, call);
    }
  }

  lemma {:induction false} RunKeepsStaged(
    h: Hash32, w: World, calls: seq<Call>, operation: string, index: int, digest: string)
    requires Stages(w.s.catalog.staged, operation, index, digest)
    requires forall i :: 0 <= i < |calls| ==> !EndsOperation(calls[i], operation)
    ensures Stages(Run(h, w, calls).s.catalog.staged, operation, index, digest)
    decreases |calls|
  {
    if calls != [] {
      StepKeepsStaged(h, w, calls[0], operation, index, digest);
      RunKeepsStaged(h, Step(h, w, calls[0]), calls[1..], operation, index, digest);
    }
  }

  // ---------- what staging decides ----------

  /** A chunk is accepted exactly with a valid handle, a digest that no other operation has reserved, and
      either an index that holds the same digest or a new index with room left; then it is staged. */
  lemma StageDecides(h: Hash32, s: State, x: CaptureHandle, index: int, data: Bytes, now: int)
    ensures var o := StageChunk(h, s, x, index, data, now);
      var digest, mine := Hex(h(data)), C.Staged(s.catalog, x.operation);
      && (o.reply.Ok? <==>
            && Validates(s, x, now)
            && (digest in s.catalog.reservations ==> s.catalog.reservations[digest] == x.operation)
            && (if index in mine then mine[index].digest == digest else |mine| < s.catalog.maxChunkCount))
      && (o.reply.Ok? ==>
            && Stages(o.state.catalog.staged, x.operation, index, digest)
            && o.state.catalog.staged[x.operation] == mine[index := Chunk(index, digest, data)]
            && Owns(o.state.catalog.reservations, x.operation, digest))
  {
    var chunk := Chunk(index, Hex(h(data)), data);
    assert C.Staged(C.Reserved(s.catalog, x.operation, chunk.digest), x.operation) == C.Staged(s.catalog, x.operation);
  }

  predicate Owns(reservations: map<string, string>, operation: string, digest: string) {
    digest in reservations && reservations[digest] == operation
  }

  /** An abort drops the work in any case; it reports success exactly if the handle's lease is the current
      one and not yet released. */
  lemma AbortDecides(s: State, x: CaptureHandle)
    ensures var o, resource := AbortCapture(s, x), "capture:" + x.snapshotID;
      && NothingLeft(WorkOf(o.state.catalog), x.operation)
      && (o.reply.Ok? <==>
            && resource in s.leases.leases && !s.leases.leases[resource].released
            && s.leases.leases[resource].owner == x.owner && s.leases.leases[resource].epoch == x.leaseEpoch)
  {
  }

  // ---------- what commit decides ----------

  /** A commit succeeds exactly with a valid handle, an open journal, a new ID and something staged. */
  lemma CommitDecides(
    s: State, x: CaptureHandle, baseID: string, full: bool, metadata: map<string, string>, diff: string,
    validateAt: int, now: int)
    ensures CommitCapture(s, x, baseID, full, metadata, diff, validateAt, now).reply.Ok? <==>
      && Validates(s, x, validateAt) && !s.log.closed && x.snapshotID !in s.catalog.snapshots
      && x.operation in s.catalog.staged && s.catalog.staged[x.operation] != map[]
  {
    var mine := C.Staged(s.catalog, x.operation);
    assert |mine| == 0 <==> mine == map[];
  }

  /** It then adds one snapshot, in state Published, that carries the handle's and the caller's values; a
      refused commit adds none. */
  lemma CommitPublishes(
    s: State, x: CaptureHandle, baseID: string, full: bool, metadata: map<string, string>, diff: string,
    validateAt: int, now: int)
    ensures var o := CommitCapture(s, x, baseID, full, metadata, diff, validateAt, now);
      if o.reply.Ok? then
        && IsPublication(o.reply.value, x, baseID, full, metadata, now)
        && o.state.catalog.snapshots == s.catalog.snapshots[x.snapshotID := o.reply.value]
        && o.state.log.entries == s.log.entries + [
             J.Entry(s.log.next, x.generation, "publish", x.snapshotID, x.operation,
                     if baseID in s.catalog.snapshots then diff else "initial snapshot", now)]
      else o.state.catalog.snapshots == s.catalog.snapshots
  {
  }

  predicate IsPublication(
    y: Snapshot, x: CaptureHandle, baseID: string, full: bool, metadata: map<string, string>, now: int)
  {
    && y.id == x.snapshotID && y.operation == x.operation && y.generation == x.generation
    && y.state == SnapshotState.Published && y.baseID == baseID && y.full == full && y.metadata == metadata
    && y.createdAt == now
  }

  lemma PublishedHasStaged(s: State, x: CaptureHandle, commit: Call, index: int, digest: string)
    requires commit.CommitCaptureCall? && commit.handle == x && Reply(s, commit).Ok?
    requires Stages(s.catalog.staged, x.operation, index, digest)
    ensures HasChunk(Reply(s, commit).value.chunks, index, digest)
  {
    var mine := C.Staged(s.catalog, x.operation);
    OrderedHas(mine, index);
    var k :| 0 <= k < |C.Ordered(mine)| && C.Ordered(mine)[k] == mine[index];
    assert Reply(s, commit).value.chunks == C.Ordered(mine);
  }

  ghost function Reply(s: State, commit: Call): Result<Snapshot>
    requires commit.CommitCaptureCall?
  {
    CommitCapture(
      s, commit.handle, commit.baseID, commit.full, commit.metadata, commit.diff, commit.validateAt, commit.now).reply
  }

  ghost predicate HasChunk(chunks: seq<Chunk>, index: int, digest: string) {
    exists k :: 0 <= k < |chunks| && chunks[k].index == index && chunks[k].digest == digest
  }

  /** An accepted chunk is in the snapshot that the capture publishes, whatever is called in between short
      of ending the capture. */
  lemma StagedIsPublished(
    h: Hash32, w: World, x: CaptureHandle, index: int, data: Bytes, now: int, calls: seq<Call>, commit: Call)
    requires StageChunk(h, w.s, x, index, data, now).reply.Ok?
    requires forall i :: 0 <= i < |calls| ==> !EndsOperation(calls[i], x.operation)
    requires commit.CommitCaptureCall? && commit.handle == x
    requires Reply(Run(h, Step(h, w, StageChunkCall(x, index, data, now)), calls).s, commit).Ok?
    ensures HasChunk(
      Reply(Run(h, Step(h, w, StageChunkCall(x, index, data, now)), calls).s, commit).value.chunks,
      index, Hex(h(data)))
  {
    var w1 := Step(h, w, StageChunkCall(x, index, data, now));
    StageDecides(h, w.s, x, index, data, now);
    RunKeepsStaged(h, w1, calls, x.operation, index, Hex(h(data)));
    PublishedHasStaged(Run(h, w1, calls).s, x, commit, index, Hex(h(data)));
  }

  /** From `BeginCapture` on: a capture that nobody ends or takes over, and that got one chunk accepted,
      commits exactly before its deadline, with the journal open and its ID not yet published. */
  lemma CaptureDelivers(
    h: Hash32, w: World, begin: Call, first: seq<Call>, x: CaptureHandle, w1: World, stage: Call,
    second: seq<Call>, w2: World, commit: Call)
    requires Inv(h, w) && begin.BeginCaptureCall? && stage.StageChunkCall? && commit.CommitCaptureCall?
    requires BeginCapture(w.s, begin.cancelled, begin.snapshotID, begin.owner, begin.ttl, begin.now).reply == Ok(x)
    requires stage.handle == x && commit.handle == x
    requires Legal(h, Step(h, w, begin), first) && w1 == Run(h, Step(h, w, begin), first)
    requires StageChunk(h, w1.s, x, stage.index, stage.data, stage.now).reply.Ok?
    requires Legal(h, Step(h, w1, stage), second) && w2 == Run(h, Step(h, w1, stage), second)
    requires forall i :: 0 <= i < |first| ==> SparesCapture(first[i], x, begin.now + begin.ttl)
    requires forall i :: 0 <= i < |second| ==> SparesCapture(second[i], x, begin.now + begin.ttl)
    ensures Reply(w2.s, commit).Ok? <==>
      && commit.validateAt < begin.now + begin.ttl && !w2.s.log.closed
      && begin.snapshotID !in w2.s.catalog.snapshots
  {
    var deadline := begin.now + begin.ttl;
    LeaseAfterBegin(h, w, begin, first, x);
    LeaseAndChunkAfterStage(h, w1, stage, second, x, deadline);
    DecidedBy(w2.s, x, commit, deadline, stage.index, Hex(h(stage.data)));
  }

  lemma LeaseAfterBegin(h: Hash32, w: World, begin: Call, calls: seq<Call>, x: CaptureHandle)
    requires Inv(h, w) && begin.BeginCaptureCall? && Legal(h, Step(h, w, begin), calls)
    requires BeginCapture(w.s, begin.cancelled, begin.snapshotID, begin.owner, begin.ttl, begin.now).reply == Ok(x)
    requires forall i :: 0 <= i < |calls| ==> SparesCapture(calls[i], x, begin.now + begin.ttl)
    ensures var v := Run(h, Step(h, w, begin), calls);
      && Inv(h, v) && x in v.issued && x.snapshotID == begin.snapshotID
      && HasLease(v.s.leases, LeaseOf(x, begin.now + begin.ttl))
  {
    BeginGivesLease(w.s, begin.cancelled, begin.snapshotID, begin.owner, begin.ttl, begin.now);
    StepKeepsInv(h, w, begin);
    RunKeepsInv(h, Step(h, w, begin), calls);
    RunKeepsCaptureLease(h, Step(h, w, begin), calls, x, begin.now + begin.ttl);
  }

  lemma LeaseAndChunkAfterStage(
    h: Hash32, w: World, stage: Call, calls: seq<Call>, x: CaptureHandle, deadline: int)
    requires Inv(h, w) && x in w.issued && HasLease(w.s.leases, LeaseOf(x, deadline))
    requires stage.StageChunkCall? && stage.handle == x && Legal(h, Step(h, w, stage), calls)
    requires StageChunk(h, w.s, x, stage.index, stage.data, stage.now).reply.Ok?
    requires forall i :: 0 <= i < |calls| ==> SparesCapture(calls[i], x, deadline)
    ensures var v := Run(h, Step(h, w, stage), calls).s;
      HasLease(v.leases, LeaseOf(x, deadline)) && Stages(v.catalog.staged, x.operation, stage.index, Hex(h(stage.data)))
  {
    StepKeepsInv(h, w, stage);
    StepKeepsLease(h, w, stage, LeaseOf(x, deadline));
    RunKeepsCaptureLease(h, Step(h, w, stage), calls, x, deadline);
    StageDecides(h, w.s, x, stage.index, stage.data, stage.now);
    RunKeepsStagedFrom(h, Step(h, w, stage), calls, x, stage.index, Hex(h(stage.data)), deadline);
  }

  lemma RunKeepsStagedFrom(
    h: Hash32, w: World, calls: seq<Call>, x: CaptureHandle, index: int, digest: string, deadline: int)
    requires Stages(w.s.catalog.staged, x.operation, index, digest)
    requires forall i :: 0 <= i < |calls| ==> SparesCapture(calls[i], x, deadline)
    ensures Stages(Run(h, w, calls).s.catalog.staged, x.operation, index, digest)
  {
    RunKeepsStaged(h, w, calls, x.operation, index, digest);
  }

  lemma DecidedBy(s: State, x: CaptureHandle, commit: Call, deadline: int, index: int, digest: string)
    requires commit.CommitCaptureCall? && commit.handle == x && HasLease(s.leases, LeaseOf(x, deadline))
    requires Stages(s.catalog.staged, x.operation, index, digest)
    ensures Reply(s, commit).Ok? <==>
      commit.validateAt < deadline && !s.log.closed && x.snapshotID !in s.catalog.snapshots
  {
    CommitDecides(
      s, x, commit.baseID, commit.full, commit.metadata, commit.diff, commit.validateAt, commit.now);
    assert s.catalog.staged[x.operation] != map[];
  }

  // ---------- digests are reserved by one operation ----------

  /** The operation's own refused chunk: it gives the digest back, even one that an accepted chunk of the
      same operation still carries. */
  predicate GivesBack(h: Hash32, s: State, call: Call, operation: string, digest: string) {
    && call.StageChunkCall? && call.handle.operation == operation && Hex(h(call.data)) == digest
    && Validates(s, call.handle, call.now) && StageChunk(h, s, call.handle, call.index, call.data, call.now).reply.Err?
  }

  lemma StagingKeepsOwner(c: C.Catalog, o: string, chunk: Chunk, operation: string, digest: string)
    requires Owns(c.reservations, operation, digest)
    ensures Owns(StagedCatalog(c, o, chunk).reservations, operation, digest) <==>
      !(o == operation && chunk.digest == digest && StageReply(c, o, chunk).Err?)
  {
    var reserved := C.Reserved(c, o, chunk.digest);
    var staged := C.StagedChunk(reserved, o, chunk);
    assert staged.reservations == reserved.reservations && Owns(reserved.reservations, operation, digest);
    if C.CanReserve(c, o, chunk.digest) && C.StageError(reserved, o, chunk).Err? {
      assert StagedCatalog(c, o, chunk) == C.ReleasedDigest(staged, o, chunk.digest);
    }
  }

  /** A reservation survives a staging call exactly if that call is not such a give-back. */
  lemma StageKeepsOwner(h: Hash32, w: World, call: Call, operation: string, digest: string)
    requires call.StageChunkCall? && Owns(w.s.catalog.reservations, operation, digest)
    ensures Owns(Step(h, w, call).s.catalog.reservations, operation, digest) <==>
      !GivesBack(h, w.s, call, operation, digest)
  {
    StagingKeepsOwner(
      w.s.catalog, call.handle.operation, Chunk(call.index, Hex(h(call.data)), call.data), operation, digest);
  }

  /** No call ends the operation or gives the digest back. */
  ghost predicate KeepsDigest(h: Hash32, w: World, calls: seq<Call>, operation: string, digest: string)
    decreases |calls|
  {
    calls == [] ||
    (!EndsOperation(calls[0], operation) && !GivesBack(h, w.s, calls[0], operation, digest) &&
     KeepsDigest(h, Step(h, w, calls[0]), calls[1..], operation, digest))
  }

  lemma StepKeepsOwner(h: Hash32, w: World, call: Call, operation: string, digest: string)
    requires Owns(w.s.catalog.reservations, operation, digest) && !EndsOperation(call, operation)
    requires !GivesBack(h, w.s, call, operation, digest)
    ensures Owns(Step(h, w, call).s.catalog.reservations, operation, digest)
  {
    if call.StageChunkCall? {
      StageKeepsOwner(h, w, call, operation, digest);
    } else if call.CommitCaptureCall? || call.AbortCaptureCall? {
      EndingLeavesOthers(h, w, call);
    } else {
      WorkIsLeft(h, w, call);
    }
  }

  lemma {:induction false} RunKeepsOwner(
    h: Hash32, w: World, calls: seq<Call>, operation: string, digest: string)
    requires Owns(w.s.catalog.reservations, operation, digest) && KeepsDigest(h, w, calls, operation, digest)
    ensures Owns(Run(h, w, calls).s.catalog.reservations, operation, digest)
    decreases |calls|
  {
    if calls != [] {
      StepKeepsOwner(h, w, calls[0], operation, digest);
      RunKeepsOwner(h, Step(h, w, calls[0]), calls[1..], operation, digest);
    }
  }

  /** Data that one capture got accepted is refused to every other one until the first ends, or itself gives
      the digest back. */
  lemma DigestIsExclusive(
    h: Hash32, w: World, x: CaptureHandle, index: int, data: Bytes, now: int, calls: seq<Call>,
    y: CaptureHandle, other: int, later: int)
    requires StageChunk(h, w.s, x, index, data, now).reply.Ok? && y.operation != x.operation
    requires KeepsDigest(h, Step(h, w, StageChunkCall(x, index, data, now)), calls, x.operation, Hex(h(data)))
    ensures var v := Run(h, Step(h, w, StageChunkCall(x, index, data, now)), calls).s;
      StageChunk(h, v, y, other, data, later)
        == Outcome(v, Err(if Validates(v, y, later) then ErrConflict else ErrLeaseFenced))
  {
    var w1 := Step(h, w, StageChunkCall(x, index, data, now));
    StageDecides(h, w.s, x, index, data, now);
    RunKeepsOwner(h, w1, calls, x.operation, Hex(h(data)));
  }

  /** The give-back does happen: with room for one chunk, an operation that stages the same data at a
      second index is refused, and the digest of its staged chunk is free for others. */
  lemma GiveBackFreesStagedDigest(d: string, data: Bytes)
    ensures var c := C.Catalog(map[], map["a" := map[0 := Chunk(0, d, data)]], map[d := "a"], map[], 1);
      var after := StagedCatalog(c, "a", Chunk(1, d, data));
      && StageReply(c, "a", Chunk(1, d, data)) == Err(ErrCapacity)
      && Stages(after.staged, "a", 0, d) && C.CanReserve(after, "b", d)
  {
    var mine: C.Chunks := map[0 := Chunk(0, d, data)];
    assert |mine| == 1;
  }

  // ---------- from publication to verification ----------

  /** A call that leaves this snapshot's state alone: it neither verifies nor expires it, and replays no
      verification of it. */
  ghost predicate SparesState(w: World, call: Call, id: string) {
    match call
    case VerifySnapshotCall(other, _, _) => other != id
    case ApplyRetentionCall(keep, order) => id !in C.Unprotected(w.s.catalog, keep, order)
    case ReplayCall(entries) =>
      forall i :: 0 <= i < |entries| && entries[i].kind == "verify" ==> entries[i].snapshotID != id
    case _ => true
  }

  ghost predicate AllSpareState(h: Hash32, w: World, calls: seq<Call>, id: string)
    decreases |calls|
  {
    calls == [] || (SparesState(w, calls[0], id) && AllSpareState(h, Step(h, w, calls[0]), calls[1..], id))
  }

  predicate Stores(c: C.Catalog, x: Snapshot) {
    x.id in c.snapshots && c.snapshots[x.id] == x
  }

  lemma {:induction false} ReplayKeepsSnapshot(s: State, rows: seq<J.Entry>, x: Snapshot)
    requires Stores(s.catalog, x)
    requires forall i :: 0 <= i < |rows| && rows[i].kind == "verify" ==> rows[i].snapshotID != x.id
    ensures Stores(ReplayRows(s, rows).state.catalog, x)
    decreases |rows|
  {
    if rows != [] {
      assert rows[0].kind == "verify" ==> rows[0].snapshotID != x.id;
      if ReplayRow(s, rows[0]).reply.Ok? {
        ReplayKeepsSnapshot(ReplayRow(s, rows[0]).state, rows[1..], x);
      }
    }
  }

  lemma LatestAreEntries(entries: seq<J.Entry>, id: string)
    requires forall i :: 0 <= i < |entries| && entries[i].kind == "verify" ==> entries[i].snapshotID != id
    ensures forall i :: 0 <= i < |J.Latest(entries)| && J.Latest(entries)[i].kind == "verify" ==>
      J.Latest(entries)[i].snapshotID != id
  {
    J.LatestIsMaximum(entries);
    var rows := J.Latest(entries);
    forall i | 0 <= i < |rows| && rows[i].kind == "verify" ensures rows[i].snapshotID != id {
      assert rows[i] in entries;
    }
  }

  lemma VerifyKeepsOthers(h: Hash32, s: State, id: string, now: int, entryAt: int, x: Snapshot)
    requires Stores(s.catalog, x) && id != x.id && C.Inv(s.catalog)
    ensures Stores(VerifySnapshot(h, s, id, now, entryAt).state.catalog, x)
  {
    if id in s.catalog.snapshots {
      var y := s.catalog.snapshots[id];
      CommitVerificationTouchesStateOnly(
        s, y, Receipt(y.id, y.generation, SnapshotDigest(h, y), now), SnapshotDigest(h, y), entryAt);
    }
  }

  lemma EndingKeepsSnapshot(h: Hash32, w: World, call: Call, x: Snapshot)
    requires Stores(w.s.catalog, x) && (call.CommitCaptureCall? || call.AbortCaptureCall?)
    ensures Stores(Step(h, w, call).s.catalog, x)
  {
    if call.CommitCaptureCall? {
      CommitTouches(
        w.s, call.handle, call.baseID, call.full, call.metadata, call.diff, call.validateAt, call.now);
    }
  }

  lemma BeginRestoreKeepsSnapshots(s: State, id: string, owner: string, ttl: int, now: int)
    ensures BeginRestore(s, id, owner, ttl, now).state.catalog.snapshots == s.catalog.snapshots
  {
  }

  lemma FinishRestoreKeepsSnapshots(s: State, plan: RestorePlan, owner: string, now: int)
    ensures FinishRestore(s, plan, owner, now).state.catalog.snapshots == s.catalog.snapshots
  {
  }

  lemma StepKeepsSnapshot(h: Hash32, w: World, call: Call, x: Snapshot)
    requires C.Inv(w.s.catalog) && Stores(w.s.catalog, x) && SparesState(w, call, x.id)
    ensures Stores(Step(h, w, call).s.catalog, x)
  {
    if LeavesCatalog(call) {
      CatalogIsLeft(h, w, call);
    } else if call.CommitCaptureCall? || call.AbortCaptureCall? {
      EndingKeepsSnapshot(h, w, call, x);
    } else if call.StageChunkCall? {
      StageTouchesWorkOnly(w.s.catalog, call.handle.operation, Chunk(call.index, Hex(h(call.data)), call.data));
    } else if call.VerifySnapshotCall? {
      VerifyKeepsOthers(h, w.s, call.snapshotID, call.now, call.entryAt, x);
    } else if call.BeginRestoreCall? {
      BeginRestoreKeepsSnapshots(w.s, call.snapshotID, call.owner, call.ttl, call.now);
    } else if call.FinishRestoreCall? {
      FinishRestoreKeepsSnapshots(w.s, call.plan, call.owner, call.now);
    } else if call.ReplayCall? {
      LatestAreEntries(call.entries, x.id);
      ReplayKeepsSnapshot(w.s, J.Latest(call.entries), x);
    }
  }

  lemma {:induction false} RunKeepsSnapshot(h: Hash32, w: World, calls: seq<Call>, x: Snapshot)
    requires Inv(h, w) && Legal(h, w, calls) && Stores(w.s.catalog, x) && AllSpareState(h, w, calls, x.id)
    ensures Stores(Run(h, w, calls).s.catalog, x)
    decreases |calls|
  {
    if calls != [] {
      StepKeepsInv(h, w, calls[0]);
      StepKeepsSnapshot(h, w, calls[0], x);
      RunKeepsSnapshot(h, Step(h, w, calls[0]), calls[1..], x);
    }
  }

  /** Verification of a stored snapshot succeeds exactly if it stands Published and the journal is open. It
      then stands Verified, with a receipt over its chunks. */
  lemma VerifyDecides(h: Hash32, w: World, id: string, now: int, entryAt: int)
    requires Inv(h, w) && id in w.s.catalog.snapshots
    ensures var o, x := VerifySnapshot(h, w.s, id, now, entryAt), w.s.catalog.snapshots[id];
      var receipt := Receipt(id, x.generation, SnapshotDigest(h, x), now);
      && (o.reply.Ok? <==> x.state == SnapshotState.Published && !w.s.log.closed)
      && (o.reply.Ok? ==>
            && o.reply == Ok(receipt) && o.state.receipts == w.s.receipts[id := receipt]
            && o.state.catalog.snapshots == w.s.catalog.snapshots[id := x.(state := Verified)])
  {
  }

  /** What a commit has published can be verified at once and later, as long as it has not been verified,
      expired or replayed meanwhile; only a closed journal refuses. */
  lemma CommittedCanBeVerified(
    h: Hash32, w: World, commit: Call, calls: seq<Call>, now: int, entryAt: int)
    requires Inv(h, w) && commit.CommitCaptureCall? && commit.handle in w.issued && Reply(w.s, commit).Ok?
    requires Legal(h, Step(h, w, commit), calls)
    requires AllSpareState(h, Step(h, w, commit), calls, commit.handle.snapshotID)
    ensures var v := Run(h, Step(h, w, commit), calls).s;
      var x := Reply(w.s, commit).value;
      VerifySnapshot(h, v, x.id, now, entryAt).reply ==
        if v.log.closed then Err(ErrJournalClosed) else Ok(Receipt(x.id, x.generation, SnapshotDigest(h, x), now))
  {
    var w1, x := Step(h, w, commit), Reply(w.s, commit).value;
    CommitPublishes(
      w.s, commit.handle, commit.baseID, commit.full, commit.metadata, commit.diff, commit.validateAt, commit.now);
    StepKeepsInv(h, w, commit);
    assert Stores(w1.s.catalog, x);
    RunKeepsInv(h, w1, calls);
    RunKeepsSnapshot(h, w1, calls, x);
    VerifyDecides(h, Run(h, w1, calls), x.id, now, entryAt);
  }
}
