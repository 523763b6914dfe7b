/** What restores, retention, rollback and replay achieve: a begun restore can be finished, a finished one
    gives its snapshot back to retention and collection, and both take exactly what they should. */
module RestoreDelivery {
  import opened BackupModel
  import opened Formats
  import opened Ordering
  import opened ServiceSpec
  import opened ServiceInvariant
  import opened ServiceRuns
  import opened ServiceContent
  import opened CaptureDelivery
  import J = Journal
  import L = LeaseStore
  import C = Catalog

  // ---------- beginning a restore ----------

  /** A restore begins exactly if the snapshot is stored and not expired and nobody holds its restore
      lease. The plan has a fresh ID, and its reference is the only thing added to the catalog. */
  lemma BeginRestoreDecides(s: State, id: string, owner: string, ttl: int, now: int)
    requires C.Inv(s.catalog)
    ensures var o, resource := BeginRestore(s, id, owner, ttl, now), "restore:" + id;
      && (o.reply.Ok? <==>
            && id in s.catalog.snapshots && s.catalog.snapshots[id].state != Expired
            && !(resource in s.leases.leases && !s.leases.leases[resource].released
                 && now < s.leases.leases[resource].deadline))
      && (o.reply.Ok? ==>
            && o.reply.value.id == NewID("restore", s.ids + 1) && o.reply.value.snapshotID == id
            && o.reply.value.cursor == 0 && o.reply.value.createdAt == s.catalog.snapshots[id].createdAt
            && HasLease(o.state.leases, RestoreLeaseOf(s, id, owner, now + ttl)))
  {
  }

  function RestoreLeaseOf(s: State, id: string, owner: string, deadline: int): Lease {
    Lease(RestoreLease(id), owner, L.Epoch(s.leases, RestoreLease(id)) + 1, deadline, false)
  }

  /** It adds this one reference. */
  lemma BeginRestoreRefers(s: State, id: string, owner: string, ttl: int, now: int, p: string, other: string)
    requires BeginRestore(s, id, owner, ttl, now).reply.Ok? && C.Inv(s.catalog)
    ensures var o := BeginRestore(s, id, owner, ttl, now);
      C.Refers(o.state.catalog, p, other) <==>
        C.Refers(s.catalog, p, other) || (p == o.reply.value.id && other == id)
  {
  }

  /** The plan lists the chunk indexes in the order in which the snapshot stores its chunks. */
  lemma PlanListsChunks(
    good: Chunk -> bool, s: State, id: string, owner: string, ttl: int, now: int, k: nat)
    requires BeginRestore(s, id, owner, ttl, now).reply.Ok? && ListGenuine(good, s.catalog.snapshots[id].chunks)
    ensures var plan, chunks := BeginRestore(s, id, owner, ttl, now).reply.value, s.catalog.snapshots[id].chunks;
      |plan.chunks| == |chunks| && (k < |chunks| ==> plan.chunks[k] == chunks[k].index)
  {
    var x := s.catalog.snapshots[id];
    IndexesAreSorted(good, x.chunks);
    assert BeginRestore(s, id, owner, ttl, now).reply.value == PlanFor(x, NewID("restore", s.ids + 1));
  }

  lemma IndexesAreSorted(good: Chunk -> bool, chunks: seq<Chunk>)
    requires ListGenuine(good, chunks)
    ensures SortedInts(IndexesOf(chunks)) == IndexesOf(chunks)
  {
    var indexes := IndexesOf(chunks);
    forall i, j | 0 <= i < j < |indexes| ensures IntOrder(indexes[i], indexes[j]) {
      assert chunks[i].index < chunks[j].index;
    }
    SortedIsUnique(indexes, SortedInts(indexes), IntOrder);
  }

  // ---------- finishing it ----------

  /** Finishing succeeds exactly for the owner of the unreleased lease, with the journal open and the
      reference in place. It then removes this one reference. */
  lemma FinishRestoreDecides(s: State, plan: RestorePlan, owner: string, now: int)
    ensures var o, resource := FinishRestore(s, plan, owner, now), "restore:" + plan.snapshotID;
      && (o.reply.Ok? <==>
            && !s.log.closed && resource in s.leases.leases
            && s.leases.leases[resource].owner == owner && !s.leases.leases[resource].released
            && C.Refers(s.catalog, plan.id, plan.snapshotID))
      && (o.reply.Ok? ==>
            && resource in o.state.leases.leases && o.state.leases.leases[resource].released
            && o.state.log.entries == s.log.entries + [
                 J.Entry(s.log.next, s.leases.leases[resource].epoch, "restore-complete", plan.snapshotID, plan.id,
                         "", now)])
  {
  }

  lemma FinishRestoreDereferences(
    s: State, plan: RestorePlan, owner: string, now: int, p: string, other: string)
    requires FinishRestore(s, plan, owner, now).reply.Ok?
    ensures C.Refers(FinishRestore(s, plan, owner, now).state.catalog, p, other) <==>
      C.Refers(s.catalog, p, other) && !(p == plan.id && other == plan.snapshotID)
  {
    var refs := s.catalog.restoreRefs[plan.snapshotID] - {plan.id};
    assert p in refs <==> p in s.catalog.restoreRefs[plan.snapshotID] && p != plan.id;
  }

  predicate SparesRestore(call: Call, id: string, deadline: int) {
    && (call.FinishRestoreCall? ==> call.plan.snapshotID != id)
    && (call.BeginRestoreCall? && call.snapshotID == id ==> call.now < deadline)
  }

  lemma SparesRestoreLease(call: Call, lease: Lease, id: string)
    requires SparesRestore(call, id, lease.deadline) && lease.resource == RestoreLease(id)
    ensures SparesLease(call, lease)
  {
    if call.BeginCaptureCall? {
      LeaseNames(call.snapshotID, id);
    } else if call.BeginRestoreCall? {
      LeaseNames(call.snapshotID, id);
    } else if call.FinishRestoreCall? {
      LeaseNames(call.plan.snapshotID, id);
    } else if call.CommitCaptureCall? || call.AbortCaptureCall? {
      LeaseNames(call.handle.snapshotID, id);
    }
  }

  /** A restore that was begun can be finished by its owner as long as nobody finishes a restore of the
      snapshot or asks for it after the lease has run out; only a closed journal refuses. */
  lemma BegunRestoreCanFinish(
    h: Hash32, w: World, begin: Call, plan: RestorePlan, calls: seq<Call>, now: int)
    requires Inv(h, w) && begin.BeginRestoreCall?
    requires BeginRestore(w.s, begin.snapshotID, begin.owner, begin.ttl, begin.now).reply == Ok(plan)
    requires forall i :: 0 <= i < |calls| ==> SparesRestore(calls[i], begin.snapshotID, begin.now + begin.ttl)
    ensures var v := Run(h, Step(h, w, begin), calls).s;
      FinishRestore(v, plan, begin.owner, now).reply.Ok? <==> !v.log.closed
  {
    var id, w1 := begin.snapshotID, Step(h, w, begin);
    var lease := RestoreLeaseOf(w.s, id, begin.owner, begin.now + begin.ttl);
    RestoreIsHeld(h, w, begin, plan);
    forall i | 0 <= i < |calls| ensures SparesLease(calls[i], lease) && !Finishes(calls[i], plan.id, id) {
      SparesRestoreLease(calls[i], lease, id);
    }
    RunKeepsLease(h, w1, calls, lease);
    RunKeepsHold(h, w1, calls, plan.id, id);
    HolderCanFinish(Run(h, w1, calls).s, plan, lease, now);
  }

  lemma RestoreIsHeld(h: Hash32, w: World, begin: Call, plan: RestorePlan)
    requires Inv(h, w) && begin.BeginRestoreCall?
    requires BeginRestore(w.s, begin.snapshotID, begin.owner, begin.ttl, begin.now).reply == Ok(plan)
    ensures var v := Step(h, w, begin).s;
      && plan.snapshotID == begin.snapshotID && C.Refers(v.catalog, plan.id, plan.snapshotID)
      && HasLease(v.leases, RestoreLeaseOf(w.s, begin.snapshotID, begin.owner, begin.now + begin.ttl))
  {
    BeginRestoreDecides(w.s, begin.snapshotID, begin.owner, begin.ttl, begin.now);
    BeginRestoreRefers(
      w.s, begin.snapshotID, begin.owner, begin.ttl, begin.now, plan.id, begin.snapshotID);
  }

  lemma HolderCanFinish(s: State, plan: RestorePlan, lease: Lease, now: int)
    requires HasLease(s.leases, lease) && lease.resource == RestoreLease(plan.snapshotID)
    requires C.Refers(s.catalog, plan.id, plan.snapshotID)
    ensures FinishRestore(s, plan, lease.owner, now).reply.Ok? <==> !s.log.closed
  {
    FinishRestoreDecides(s, plan, lease.owner, now);
  }

  // ---------- a finished restore protects no longer ----------

  /** Retention names what stands at or beyond `keep` in its order and has no reference. */
  lemma RetentionNames(c: C.Catalog, keep: int, order: seq<string>, id: string)
    requires C.Inv(c)
    ensures id in C.Unprotected(c, keep, order) <==>
      id !in c.restoreRefs && exists i :: 0 <= i < |order| && i >= keep && order[i] == id
  {
    assert id in c.restoreRefs ==> C.HasRef(c, id);
  }

  /** Collection names the stored snapshots that are at least `keepWindow` old, neither pinned nor
      mirrored, and not being restored. */
  lemma CollectionNames(h: Hash32, w: World, now: int, keepWindow: int, id: string)
    requires Inv(h, w)
    ensures id in Collected(w.s, now, keepWindow) <==>
      && id in w.s.catalog.snapshots && now - w.s.catalog.snapshots[id].createdAt >= keepWindow
      && id !in w.s.pins && id !in w.s.mirrored && id !in w.s.catalog.restoreRefs
  {
    GcIsExact(h, w, now, keepWindow);
    assert id in w.s.catalog.restoreRefs ==> C.HasRef(w.s.catalog, id);
  }

  lemma LastReferenceGone(s: State, plan: RestorePlan, owner: string, now: int)
    requires FinishRestore(s, plan, owner, now).reply.Ok? && s.catalog.restoreRefs[plan.snapshotID] == {plan.id}
    ensures plan.snapshotID !in FinishRestore(s, plan, owner, now).state.catalog.restoreRefs
  {
    assert {plan.id} - {plan.id} == {};
  }

  /** When the last restore of a snapshot is finished, retention and collection treat it like any other:
      beyond `keep` it is expired, and collected once it is old enough, unpinned and unmirrored. */
  lemma FinishedRestoreReleases(
    h: Hash32, w: World, plan: RestorePlan, owner: string, now: int, keep: int, order: seq<string>, gcNow: int,
    keepWindow: int)
    requires Inv(h, w) && FinishRestore(w.s, plan, owner, now).reply.Ok?
    requires w.s.catalog.restoreRefs[plan.snapshotID] == {plan.id}
    ensures var v, id := FinishRestore(w.s, plan, owner, now).state, plan.snapshotID;
      && !C.Refers(v.catalog, plan.id, id)
      && (id in C.Unprotected(v.catalog, keep, order) <==> exists i :: 0 <= i < |order| && i >= keep && order[i] == id)
      && (id in Collected(v, gcNow, keepWindow) <==>
            && id in w.s.catalog.snapshots && gcNow - w.s.catalog.snapshots[id].createdAt >= keepWindow
            && id !in w.s.pins && id !in w.s.mirrored)
  {
    var w1 := w.(s := FinishRestore(w.s, plan, owner, now).state);
    FinishRestoreKeeps(h, w, plan, owner, now);
    LastReferenceGone(w.s, plan, owner, now);
    FinishRestoreKeepsSnapshots(w.s, plan, owner, now);
    FinishRestoreKeepsPins(w.s, plan, owner, now);
    RetentionNames(w1.s.catalog, keep, order, plan.snapshotID);
    CollectionNames(h, w1, gcNow, keepWindow, plan.snapshotID);
  }

  lemma FinishRestoreKeepsPins(s: State, plan: RestorePlan, owner: string, now: int)
    ensures var v := FinishRestore(s, plan, owner, now).state; v.pins == s.pins && v.mirrored == s.mirrored
  {
  }

  // ---------- retention ----------

  ghost function CreatedAfter(c: C.Catalog, id: string): set<string>
    requires id in c.snapshots
  {
    set j | j in c.snapshots && c.snapshots[j].createdAt > c.snapshots[id].createdAt
  }

  ghost function CreatedNoEarlier(c: C.Catalog, id: string): set<string>
    requires id in c.snapshots
  {
    set j | j in c.snapshots && j != id && c.snapshots[j].createdAt >= c.snapshots[id].createdAt
  }

  lemma BeforeInOrder(c: C.Catalog, order: seq<string>, p: nat)
    requires C.NewestFirst(c, order) && p < |order|
    ensures order[p] in c.snapshots
    ensures CreatedAfter(c, order[p]) <= Members(order[..p]) <= CreatedNoEarlier(c, order[p])
  {
    var id := order[p];
    ListsMembers(order, c.snapshots.Keys);
    assert id in order;
    forall j | j in CreatedAfter(c, id) ensures j in Members(order[..p]) {
      var q :| 0 <= q < |order| && order[q] == j;
      assert q < p;
    }
    forall j | j in Members(order[..p]) ensures j in CreatedNoEarlier(c, id) {
      var q :| 0 <= q < p && order[q] == j;
      assert j in order;
      ListsDistinct(order, c.snapshots.Keys, q, p);
    }
  }

  /** What retention expires has at least `keep` others created no earlier; what it leaves without a
      reference has fewer than `keep` created later. Ties may fall either way. */
  lemma RetentionKeepsNewest(c: C.Catalog, keep: int, order: seq<string>, id: string)
    requires C.Inv(c) && C.NewestFirst(c, order) && id in c.snapshots
    ensures id in C.Unprotected(c, keep, order) ==> |CreatedNoEarlier(c, id)| >= keep
    ensures id !in C.Unprotected(c, keep, order) && id !in c.restoreRefs ==> |CreatedAfter(c, id)| < keep
  {
    RetentionNames(c, keep, order, id);
    ListsMembers(order, c.snapshots.Keys);
    assert id in order;
    var p :| 0 <= p < |order| && order[p] == id;
    forall q | 0 <= q < |order| && order[q] == id ensures q == p {
      if q < p {
        ListsDistinct(order, c.snapshots.Keys, q, p);
      } else if p < q {
        ListsDistinct(order, c.snapshots.Keys, p, q);
      }
    }
    BeforeInOrder(c, order, p);
    ListsPrefixSize(order, c.snapshots.Keys, p);
    SubsetSize(CreatedAfter(c, id), Members(order[..p]));
    SubsetSize(Members(order[..p]), CreatedNoEarlier(c, id));
  }

  /** Exactly the named snapshots change: they stand Expired, and can be neither restored nor verified. */
  lemma RetentionExpires(h: Hash32, w: World, keep: int, order: seq<string>, id: string)
    requires id in w.s.catalog.snapshots
    ensures var v := Step(h, w, ApplyRetentionCall(keep, order)).s.catalog.snapshots;
      && id in v
      && v[id] == (if id in C.Unprotected(w.s.catalog, keep, order) then w.s.catalog.snapshots[id].(state := Expired)
                   else w.s.catalog.snapshots[id])
  {
  }

  lemma ExpiredIsRefused(h: Hash32, s: State, id: string, owner: string, ttl: int, now: int, entryAt: int)
    requires id in s.catalog.snapshots && s.catalog.snapshots[id].state == Expired
    ensures VerifySnapshot(h, s, id, now, entryAt) == Outcome(s, Err(ErrInvalidTransition))
    ensures var o := BeginRestore(s, id, owner, ttl, now);
      o.state.catalog == s.catalog && (o.reply == Err(ErrInvalidTransition) || o.reply == Err(ErrLeaseHeld))
  {
  }

  // ---------- pins ----------

  predicate LeavesPins(call: Call) {
    !call.PinCall? && !call.UnpinCall? && !call.GcCollectCall?
  }

  lemma {:induction false} ReplayLeavesPins(s: State, rows: seq<J.Entry>)
    ensures ReplayRows(s, rows).state.pins == s.pins
    decreases |rows|
  {
    if rows != [] && ReplayRow(s, rows[0]).reply.Ok? {
      ReplayLeavesPins(ReplayRow(s, rows[0]).state, rows[1..]);
    }
  }

  lemma CommitLeavesPins(
    s: State, x: CaptureHandle, baseID: string, full: bool, metadata: map<string, string>, diff: string,
    validateAt: int, now: int)
    ensures CommitCapture(s, x, baseID, full, metadata, diff, validateAt, now).state.pins == s.pins
  {
  }

  lemma VerifyLeavesPins(h: Hash32, s: State, id: string, now: int, entryAt: int)
    ensures VerifySnapshot(h, s, id, now, entryAt).state.pins == s.pins
  {
  }

  lemma RestoreLeavesPins(s: State, id: string, owner: string, ttl: int, now: int)
    ensures BeginRestore(s, id, owner, ttl, now).state.pins == s.pins
  {
  }

  lemma PinsAreLeft(h: Hash32, w: World, call: Call)
    requires LeavesPins(call)
    ensures Step(h, w, call).s.pins == w.s.pins
  {
    if call.ReplayCall? {
      ReplayLeavesPins(w.s, J.Latest(call.entries));
    } else if call.CommitCaptureCall? {
      CommitLeavesPins(
        w.s, call.handle, call.baseID, call.full, call.metadata, call.diff, call.validateAt, call.now);
    } else if call.VerifySnapshotCall? {
      VerifyLeavesPins(h, w.s, call.snapshotID, call.now, call.entryAt);
    } else if call.BeginRestoreCall? {
      RestoreLeavesPins(w.s, call.snapshotID, call.owner, call.ttl, call.now);
    } else if call.FinishRestoreCall? {
      FinishRestoreKeepsPins(w.s, call.plan, call.owner, call.now);
    } else {
      OthersLeavePins(h, w, call);
    }
  }

  lemma OthersLeavePins(h: Hash32, w: World, call: Call)
    requires LeavesPins(call) && !call.ReplayCall? && !call.CommitCaptureCall? && !call.VerifySnapshotCall?
    requires !call.BeginRestoreCall? && !call.FinishRestoreCall?
    ensures Step(h, w, call).s.pins == w.s.pins
  {
  }

  lemma {:induction false} RunKeepsPin(h: Hash32, w: World, calls: seq<Call>, id: string)
    requires id in w.s.pins && forall i :: 0 <= i < |calls| ==> calls[i] != UnpinCall(id)
    ensures id in Run(h, w, calls).s.pins
    decreases |calls|
  {
    if calls != [] {
      if LeavesPins(calls[0]) {
        PinsAreLeft(h, w, calls[0]);
      }
      RunKeepsPin(h, Step(h, w, calls[0]), calls[1..], id);
    }
  }

  /** Pinning a snapshot, or collecting while it is mirrored, keeps it out of every collection until it is
      unpinned. */
  lemma PinProtects(h: Hash32, w: World, call: Call, calls: seq<Call>, id: string, now: int, keepWindow: int)
    requires call == PinCall(id) || (call.GcCollectCall? && id in w.s.mirrored)
    requires forall i :: 0 <= i < |calls| ==> calls[i] != UnpinCall(id)
    ensures id !in Collected(Run(h, Step(h, w, call), calls).s, now, keepWindow)
  {
    StepPins(h, w, call, id);
    RunKeepsPin(h, Step(h, w, call), calls, id);
    PinnedIsNotCollected(Run(h, Step(h, w, call), calls).s, id, now, keepWindow);
  }

  lemma StepPins(h: Hash32, w: World, call: Call, id: string)
    requires call == PinCall(id) || (call.GcCollectCall? && id in w.s.mirrored)
    ensures id in Step(h, w, call).s.pins
  {
  }

  lemma PinnedIsNotCollected(s: State, id: string, now: int, keepWindow: int)
    requires id in s.pins
    ensures id !in Collected(s, now, keepWindow)
  {
  }

  // ---------- rollback ----------

  /** With a verified full snapshot of lower generation in the catalog, and the journal open, a rollback
      goes to such a snapshot, and none of them has a greater generation than the target. */
  lemma RollbackFindsVerified(h: Hash32, w: World, rollback: Call, x: string)
    requires rollback.RollbackCall? && Enabled(w, rollback) && !w.s.log.closed
    requires var id, all := rollback.snapshotID, w.s.catalog.snapshots;
      id in all && x in all && all[x].full && all[x].state == Verified && all[x].generation < all[id].generation
    ensures var id, all, target := rollback.snapshotID, w.s.catalog.snapshots, rollback.target;
      && Rollback(w.s, id, target, rollback.now).reply == Ok(target)
      && target in all && all[target].full && all[target].state == Verified
      && all[x].generation <= all[target].generation < all[id].generation
      && Rollback(w.s, id, target, rollback.now).state.log.entries == w.s.log.entries + [
           J.Entry(w.s.log.next, all[id].generation, "rollback", target, all[id].operation, target, rollback.now)]
  {
    assert C.Candidate(w.s.catalog, w.s.catalog.snapshots[rollback.snapshotID].generation, x);
  }

  // ---------- replay ----------

  /** A row that replay has not seen yet and that verifies this very snapshot. */
  predicate Verifies(s: State, row: J.Entry, x: Snapshot) {
    && row.kind == "verify" && row.snapshotID == x.id && row.generation == x.generation
    && row.generation > Replayed(s, row.operation)
  }

  ghost predicate SomeVerifies(s: State, rows: seq<J.Entry>, x: Snapshot) {
    exists i :: 0 <= i < |rows| && Verifies(s, rows[i], x)
  }

  ghost predicate DistinctOperations(rows: seq<J.Entry>) {
    forall i, j :: 0 <= i < j < |rows| ==> rows[i].operation != rows[j].operation
  }

  lemma RowDecides(s: State, row: J.Entry, x: Snapshot)
    requires Stores(s.catalog, x) && ReplayRow(s, row).reply.Ok?
    ensures Stores(ReplayRow(s, row).state.catalog, if Verifies(s, row, x) then x.(state := Verified) else x)
    ensures forall o :: o != row.operation ==> Replayed(ReplayRow(s, row).state, o) == Replayed(s, o)
  {
  }

  lemma SomeVerifiesStep(s: State, t: State, rows: seq<J.Entry>, x: Snapshot, y: Snapshot)
    requires rows != [] && DistinctOperations(rows) && y == x.(state := y.state)
    requires forall o :: o != rows[0].operation ==> Replayed(t, o) == Replayed(s, o)
    ensures SomeVerifies(s, rows, x) <==> Verifies(s, rows[0], x) || SomeVerifies(t, rows[1..], y)
  {
    if i :| 1 <= i < |rows| && Verifies(s, rows[i], x) {
      assert Verifies(t, rows[1..][i - 1], y);
    }
    if i :| 0 <= i < |rows| - 1 && Verifies(t, rows[1..][i], y) {
      assert rows[1..][i] == rows[i + 1];
      assert Verifies(s, rows[i + 1], x);
    }
  }

  lemma {:induction false} ReplayRowsVerify(s: State, rows: seq<J.Entry>, x: Snapshot)
    requires Stores(s.catalog, x) && DistinctOperations(rows) && ReplayRows(s, rows).reply.Ok?
    ensures Stores(ReplayRows(s, rows).state.catalog, if SomeVerifies(s, rows, x) then x.(state := Verified) else x)
    decreases |rows|
  {
    if rows != [] {
      var t := ReplayRow(s, rows[0]).state;
      var y := if Verifies(s, rows[0], x) then x.(state := Verified) else x;
      RowDecides(s, rows[0], x);
      SomeVerifiesStep(s, t, rows, x, y);
      ReplayRowsVerify(t, rows[1..], y);
    }
  }

  /** A replay without error leaves a stored snapshot Verified if one of the latest rows is an unseen
      verification of its ID and generation, and otherwise exactly as it was. */
  lemma ReplayVerifies(s: State, entries: seq<J.Entry>, x: Snapshot)
    requires Stores(s.catalog, x) && Replay(s, entries).reply.Ok?
    ensures Stores(
      Replay(s, entries).state.catalog, if SomeVerifies(s, J.Latest(entries), x) then x.(state := Verified) else x)
  {
    J.LatestIsMaximum(entries);
    ReplayRowsVerify(s, J.Latest(entries), x);
  }
}
