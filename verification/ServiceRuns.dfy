/** Safety of the service over whole runs: every sequence of calls from the empty service. */
module ServiceRuns {
  import opened BackupModel
  import opened Formats
  import opened ServiceSpec
  import opened ServiceInvariant
  import J = Journal
  import L = LeaseStore
  import C = Catalog

  datatype Call =
    | BeginCaptureCall(cancelled: bool, snapshotID: string, owner: string, ttl: int, now: int)
    | StageChunkCall(handle: CaptureHandle, index: int, data: Bytes, now: int)
    | CommitCaptureCall(handle: CaptureHandle, baseID: string, full: bool, metadata: map<string, string>, diff: string,
                        validateAt: int, now: int)
    | AbortCaptureCall(handle: CaptureHandle)
    | VerifySnapshotCall(snapshotID: string, now: int, entryAt: int)
    | BeginRestoreCall(snapshotID: string, owner: string, ttl: int, now: int)
    | FinishRestoreCall(plan: RestorePlan, owner: string, now: int)
    | ApplyRetentionCall(keep: int, order: seq<string>)
    | RollbackCall(snapshotID: string, target: string, now: int)
    | ReplayCall(entries: seq<J.Entry>)
    | GcCollectCall
    | PinCall(snapshotID: string)
    | UnpinCall(snapshotID: string)
    | MirrorCall(snapshotID: string)
    /** An entry that replication, migration, quarantine or orchestration writes. */
    | JournalCall(entry: J.Entry)
    | SetClosedCall(closed: bool)
    /** Another part of the process takes the next ID, as scheduling a retry does. */
    | DrawIDCall

  /** Handles are genuine; `order` and `target` are answers the nondeterministic parts may give. */
  ghost predicate Enabled(w: World, call: Call) {
    match call
    case StageChunkCall(handle, _, _, _) => handle in w.issued
    case CommitCaptureCall(handle, _, _, _, _, _, _) => handle in w.issued
    case AbortCaptureCall(handle) => handle in w.issued
    case ApplyRetentionCall(_, order) => C.NewestFirst(w.s.catalog, order)
    case RollbackCall(id, target, _) =>
      HasTarget(w.s, id) ==> C.IsLastVerifiedFull(w.s.catalog, w.s.catalog.snapshots[id].generation, target)
    case _ => true
  }

  ghost function Step(h: Hash32, w: World, call: Call): World {
    match call
    case BeginCaptureCall(cancelled, id, owner, ttl, now) =>
      AfterBegin(w, BeginCapture(w.s, cancelled, id, owner, ttl, now))
    case StageChunkCall(handle, index, data, now) => w.(s := StageChunk(h, w.s, handle, index, data, now).state)
    case CommitCaptureCall(handle, baseID, full, metadata, diff, validateAt, now) =>
      AfterCommit(w, handle, validateAt,
        CommitCapture(w.s, handle, baseID, full, metadata, diff, validateAt, now).state)
    case AbortCaptureCall(handle) => AfterEnd(w, handle, AbortCapture(w.s, handle).state)
    case VerifySnapshotCall(id, now, entryAt) => w.(s := VerifySnapshot(h, w.s, id, now, entryAt).state)
    case BeginRestoreCall(id, owner, ttl, now) => w.(s := BeginRestore(w.s, id, owner, ttl, now).state)
    case FinishRestoreCall(plan, owner, now) => w.(s := FinishRestore(w.s, plan, owner, now).state)
    case ApplyRetentionCall(keep, order) =>
      w.(s := w.s.(catalog := C.ExpiredAll(w.s.catalog, C.Unprotected(w.s.catalog, keep, order))))
    case RollbackCall(id, target, now) => w.(s := Rollback(w.s, id, target, now).state)
    case ReplayCall(entries) => w.(s := Replay(w.s, entries).state)
    case GcCollectCall => w.(s := GcCollect(w.s))
    case PinCall(id) => w.(s := w.s.(pins := w.s.pins + {id}))
    case UnpinCall(id) => w.(s := w.s.(pins := w.s.pins - {id}))
    case MirrorCall(id) => w.(s := w.s.(mirrored := w.s.mirrored + {id}))
    case JournalCall(entry) => w.(s := w.s.(log := J.Appended(w.s.log, entry)))
    case SetClosedCall(closed) => w.(s := w.s.(log := w.s.log.(closed := closed)))
    case DrawIDCall => w.(s := w.s.(ids := w.s.ids + 1))
  }

  ghost function Run(h: Hash32, w: World, calls: seq<Call>): World
    decreases |calls|
  {
    if calls == [] then w else Run(h, Step(h, w, calls[0]), calls[1..])
  }

  ghost predicate Legal(h: Hash32, w: World, calls: seq<Call>)
    decreases |calls|
  {
    calls == [] || (Enabled(w, calls[0]) && Legal(h, Step(h, w, calls[0]), calls[1..]))
  }

  ghost function Start(maxChunkCount: nat): World {
    World(Initial(maxChunkCount), {}, {})
  }

  // ---------- the invariant over runs ----------

  lemma PlainStateKeeps(h: Hash32, w: World, t: State)
    requires Inv(h, w) && t == w.s.(pins := t.pins, mirrored := t.mirrored, log := w.s.log.(closed := t.log.closed))
    ensures Inv(h, w.(s := t)) && Grows(w, w.(s := t))
  {
    EvolvesSelf(w.s.catalog.snapshots);
  }

  lemma StepKeepsInv(h: Hash32, w: World, call: Call)
    requires Inv(h, w) && Enabled(w, call)
    ensures Inv(h, Step(h, w, call)) && Grows(w, Step(h, w, call))
  {
    match call
    case BeginCaptureCall(cancelled, id, owner, ttl, now) => BeginCaptureKeeps(h, w, cancelled, id, owner, ttl, now);
    case StageChunkCall(handle, index, data, now) => StageChunkKeeps(h, w, handle, index, data, now);
    case CommitCaptureCall(handle, baseID, full, metadata, diff, validateAt, now) =>
      CommitCaptureKeeps(h, w, handle, baseID, full, metadata, diff, validateAt, now);
    case AbortCaptureCall(handle) => AbortCaptureKeeps(h, w, handle);
    case VerifySnapshotCall(id, now, entryAt) => VerifySnapshotKeeps(h, w, id, now, entryAt);
    case BeginRestoreCall(id, owner, ttl, now) => BeginRestoreKeeps(h, w, id, owner, ttl, now);
    case FinishRestoreCall(plan, owner, now) => FinishRestoreKeeps(h, w, plan, owner, now);
    case ApplyRetentionCall(keep, order) => ApplyRetentionKeeps(h, w, keep, order);
    case RollbackCall(id, target, now) => RollbackKeeps(h, w, id, target, now);
    case ReplayCall(entries) => ReplayKeeps(h, w, J.Latest(entries));
    case GcCollectCall => PlainStateKeeps(h, w, Step(h, w, call).s);
    case PinCall(id) => PlainStateKeeps(h, w, Step(h, w, call).s);
    case UnpinCall(id) => PlainStateKeeps(h, w, Step(h, w, call).s);
    case MirrorCall(id) => PlainStateKeeps(h, w, Step(h, w, call).s);
    case JournalCall(entry) => JournalKeeps(h, w, entry);
    case SetClosedCall(closed) => PlainStateKeeps(h, w, Step(h, w, call).s);
    case DrawIDCall => DrawnIDKeeps(h, w);
  }

  lemma RollbackKeeps(h: Hash32, w: World, id: string, target: string, now: int)
    requires Inv(h, w)
    ensures var v := w.(s := Rollback(w.s, id, target, now).state); Inv(h, v) && Grows(w, v)
  {
    EvolvesSelf(w.s.catalog.snapshots);
    if HasTarget(w.s, id) && !w.s.log.closed {
      JournalKeeps(h, w, RollbackEntry(w.s.catalog.snapshots[id], target, now));
    }
  }

  lemma {:induction false} RunKeepsInv(h: Hash32, w: World, calls: seq<Call>)
    requires Inv(h, w) && Legal(h, w, calls)
    ensures Inv(h, Run(h, w, calls)) && Grows(w, Run(h, w, calls))
    decreases |calls|
  {
    if calls == [] {
      EvolvesSelf(w.s.catalog.snapshots);
    } else {
      StepKeepsInv(h, w, calls[0]);
      RunKeepsInv(h, Step(h, w, calls[0]), calls[1..]);
      GrowsTransitive(w, Step(h, w, calls[0]), Run(h, w, calls));
    }
  }

  /** Every state that any run of the service reaches satisfies the invariant. */
  lemma EveryRunIsSound(h: Hash32, maxChunkCount: nat, calls: seq<Call>)
    requires maxChunkCount >= 1 && Legal(h, Start(maxChunkCount), calls)
    ensures Inv(h, Run(h, Start(maxChunkCount), calls))
  {
    RunKeepsInv(h, Start(maxChunkCount), calls);
  }

  // ---------- publication, freezing, verification ----------

  /** A snapshot in the catalog has a journal entry for its publication, and in every continuation it
      is still there, unchanged except for its state. */
  lemma PublishedIsJournalledAndFrozen(h: Hash32, w: World, calls: seq<Call>, id: string)
    requires Inv(h, w) && Legal(h, w, calls) && id in w.s.catalog.snapshots
    ensures HasEntry(w.s.log.entries, "publish", w.s.catalog.snapshots[id])
    ensures var later := Run(h, w, calls).s.catalog.snapshots;
            id in later && later[id] == w.s.catalog.snapshots[id].(state := later[id].state)
    ensures id in w.s.receipts ==>
              var v := Run(h, w, calls).s;
              && id in v.receipts && v.receipts[id] == w.s.receipts[id]
              && v.receipts[id].digest == SnapshotDigest(h, v.catalog.snapshots[id])
              && HasVerifyEntry(v.log.entries, v.catalog.snapshots[id], v.receipts[id].digest)
  {
    RunKeepsInv(h, w, calls);
    var v := Run(h, w, calls);
    assert PublicationOk(w.issued, w.s.catalog.snapshots[id], w.s.log.entries);
    assert EvolvesAt(w.s.catalog.snapshots, v.s.catalog.snapshots, id);
    assert HasGoodReceipt(h, v.s.receipts, v.s.catalog.snapshots, v.s.log.entries, id);
  }

  /** Whatever is called between reading a snapshot for verification and changing its state, the change
      is not refused: the branch that withdraws the receipt is dead. */
  lemma WithdrawalIsDead(
    h: Hash32, w: World, calls: seq<Call>, id: string, receipt: Receipt, digest: string, now: int)
    requires Inv(h, w) && Legal(h, w, calls) && id in w.s.catalog.snapshots
    ensures var x, v := w.s.catalog.snapshots[id], Run(h, w, calls).s;
            && x.id == id && C.SetStateError(v.catalog, x.id, x.generation).Ok?
            && CommitVerification(v, x, receipt, digest, now).reply
               == (if v.log.closed then Err(ErrJournalClosed) else Ok(receipt))
  {
    PublishedIsJournalledAndFrozen(h, w, calls, id);
  }

  /** `VerifySnapshot` succeeds at most once per ID, whatever is called in between. */
  lemma VerifiedOnce(
    h: Hash32, w: World, id: string, now: int, entryAt: int, calls: seq<Call>, now': int, entryAt': int)
    requires Inv(h, w) && VerifySnapshot(h, w.s, id, now, entryAt).reply.Ok?
    requires Legal(h, Step(h, w, VerifySnapshotCall(id, now, entryAt)), calls)
    ensures var later := Run(h, Step(h, w, VerifySnapshotCall(id, now, entryAt)), calls);
            VerifySnapshot(h, later.s, id, now', entryAt') == Outcome(later.s, Err(ErrInvalidTransition))
  {
    var v := Step(h, w, VerifySnapshotCall(id, now, entryAt));
    var later := Run(h, v, calls);
    VerificationIsNotRefused(h, w, id);
    VerifySnapshotKeeps(h, w, id, now, entryAt);
    RunKeepsInv(h, v, calls);
    assert EvolvesAt(v.s.catalog.snapshots, later.s.catalog.snapshots, id);
    assert v.s.catalog.snapshots[id].state == Verified;
  }

  // ---------- lease fencing of captures ----------

  lemma FinishedStaysFenced(h: Hash32, w: World, handle: CaptureHandle, calls: seq<Call>, now: int)
    requires Inv(h, w) && handle in w.issued && handle.operation in w.finished && Legal(h, w, calls)
    ensures var v := Run(h, w, calls);
      NothingLeft(WorkOf(v.s.catalog), handle.operation) && !Validates(v.s, handle, now)
  {
    RunKeepsInv(h, w, calls);
    var v := Run(h, w, calls);
    assert Ended(handle, v.finished, v.s.leases, WorkOf(v.s.catalog));
  }

  /** A commit past its lease check, or an abort in any case. */
  predicate Ends(s: State, call: Call, handle: CaptureHandle) {
    || call == AbortCaptureCall(handle)
    || (call.CommitCaptureCall? && call.handle == handle && Validates(s, handle, call.validateAt))
  }

  lemma EndingFinishes(h: Hash32, w: World, call: Call, handle: CaptureHandle)
    requires Ends(w.s, call, handle)
    ensures handle.operation in Step(h, w, call).finished && Step(h, w, call).issued == w.issued
  {
  }

  /** Once a capture has gone through commit (past the lease check) or abort, no call with its handle is
      ever accepted again, and nothing is ever staged or reserved under its operation. */
  lemma FinishedCaptureIsFenced(
    h: Hash32, w: World, call: Call, handle: CaptureHandle, calls: seq<Call>, index: int, data: Bytes, now: int)
    requires Inv(h, w) && handle in w.issued && Ends(w.s, call, handle) && Legal(h, Step(h, w, call), calls)
    ensures var v := Run(h, Step(h, w, call), calls).s;
            && NothingLeft(WorkOf(v.catalog), handle.operation)
            && !Validates(v, handle, now)
            && StageChunk(h, v, handle, index, data, now) == Outcome(v, Err(ErrLeaseFenced))
  {
    StepKeepsInv(h, w, call);
    EndingFinishes(h, w, call, handle);
    FinishedStaysFenced(h, Step(h, w, call), handle, calls, now);
  }

  // ---------- garbage collection ----------

  /** The collector misses nothing although it never lists the catalog: it returns exactly the stored
      snapshots that are old enough, unpinned, not mirrored and not being restored. */
  lemma GcIsExact(h: Hash32, w: World, now: int, keepWindow: int)
    requires Inv(h, w)
    ensures Collected(w.s, now, keepWindow) == set id | id in w.s.catalog.snapshots &&
      Collectable(w.s, now, keepWindow, id)
  {
    forall id | id in w.s.catalog.snapshots ensures id in GcIDs(w.s) {
      var x := w.s.catalog.snapshots[id];
      assert PublicationOk(w.issued, x, w.s.log.entries) && x.id == id;
      var i :| 0 <= i < |w.s.log.entries| && EntryFor(w.s.log.entries[i], "publish", x);
      assert w.s.log.entries[i].snapshotID == id;
    }
  }

  // ---------- restore protection ----------

  lemma {:induction false} ReplayKeepsRefs(s: State, rows: seq<J.Entry>)
    ensures ReplayRows(s, rows).state.catalog.restoreRefs == s.catalog.restoreRefs
    decreases |rows|
  {
    if rows != [] && ReplayRow(s, rows[0]).reply.Ok? {
      ReplayKeepsRefs(ReplayRow(s, rows[0]).state, rows[1..]);
    }
  }

  lemma StageKeepsRefs(h: Hash32, s: State, handle: CaptureHandle, index: int, data: Bytes, now: int)
    ensures StageChunk(h, s, handle, index, data, now).state.catalog.restoreRefs == s.catalog.restoreRefs
  {
    StageTouchesWorkOnly(s.catalog, handle.operation, Chunk(index, Hex(h(data)), data));
  }

  /** A commit publishes, forgets the operation's work, or is fenced off. */
  lemma CommitTouches(s: State, handle: CaptureHandle, baseID: string, full: bool, metadata: map<string, string>,
                      diff: string, validateAt: int, now: int)
    ensures var c := CommitCapture(s, handle, baseID, full, metadata, diff, validateAt, now).state.catalog;
            || c == s.catalog || c == C.Forgotten(s.catalog, handle.operation)
            || c == C.Committed(s.catalog, NewSnapshot(handle, baseID, full, metadata, now))
  {
  }

  lemma CommitKeepsRefs(s: State, handle: CaptureHandle, baseID: string, full: bool, metadata: map<string, string>,
                        diff: string, validateAt: int, now: int)
    ensures CommitCapture(s, handle, baseID, full, metadata, diff, validateAt, now).state.catalog.restoreRefs ==
      s.catalog.restoreRefs
  {
    CommitTouches(s, handle, baseID, full, metadata, diff, validateAt, now);
  }

  /** Verification changes at most one snapshot's state in the catalog. */
  lemma VerifyTouchesStateOnly(h: Hash32, s: State, snapshotID: string, now: int, entryAt: int)
    ensures var c := VerifySnapshot(h, s, snapshotID, now, entryAt).state.catalog;
            c == s.catalog || exists id, generation :: c == C.WithState(s.catalog, id, generation, Verified)
  {
    if snapshotID in s.catalog.snapshots {
      var x := s.catalog.snapshots[snapshotID];
      var digest := SnapshotDigest(h, x);
      CommitVerificationTouchesStateOnly(s, x, Receipt(x.id, x.generation, digest, now), digest, entryAt);
    }
  }

  lemma CommitVerificationTouchesStateOnly(s: State, x: Snapshot, receipt: Receipt, digest: string, now: int)
    ensures var c := CommitVerification(s, x, receipt, digest, now).state.catalog;
            c == s.catalog || c == C.WithState(s.catalog, x.id, x.generation, Verified)
  {
  }

  lemma VerifyKeepsRefs(h: Hash32, s: State, snapshotID: string, now: int, entryAt: int)
    ensures VerifySnapshot(h, s, snapshotID, now, entryAt).state.catalog.restoreRefs == s.catalog.restoreRefs
  {
    VerifyTouchesStateOnly(h, s, snapshotID, now, entryAt);
  }

  lemma BeginRestoreKeepsHold(
    s: State, snapshotID: string, owner: string, ttl: int, now: int, planID: string, id: string)
    ensures C.Refers(s.catalog, planID, id) ==>
      C.Refers(BeginRestore(s, snapshotID, owner, ttl, now).state.catalog, planID, id)
    ensures BeginRestore(s, snapshotID, owner, ttl, now).reply.Ok? ==>
              C.Refers(BeginRestore(s, snapshotID, owner, ttl, now).state.catalog,
                BeginRestore(s, snapshotID, owner, ttl, now).reply.value.id, snapshotID)
  {
  }

  predicate Finishes(call: Call, planID: string, id: string) {
    call.FinishRestoreCall? && call.plan.id == planID && call.plan.snapshotID == id
  }

  lemma FinishRestoreKeepsHold(s: State, plan: RestorePlan, owner: string, now: int, planID: string, id: string)
    requires C.Refers(s.catalog, planID, id) && !(plan.id == planID && plan.snapshotID == id)
    ensures C.Refers(FinishRestore(s, plan, owner, now).state.catalog, planID, id)
  {
    RemovalKeepsOthers(s.catalog, plan.id, plan.snapshotID, planID, id);
  }

  lemma RemovalKeepsOthers(c: C.Catalog, removed: string, snapshotID: string, planID: string, id: string)
    requires C.Refers(c, planID, id) && !(removed == planID && snapshotID == id)
    ensures C.Refers(C.WithoutRef(c, removed, snapshotID), planID, id)
  {
    if snapshotID == id {
      assert planID in c.restoreRefs[id] - {removed};
    }
  }

  predicate LeavesCatalog(call: Call) {
    match call
    case BeginCaptureCall(_, _, _, _, _) => true
    case RollbackCall(_, _, _) => true
    case GcCollectCall => true
    case PinCall(_) => true
    case UnpinCall(_) => true
    case MirrorCall(_) => true
    case JournalCall(_) => true
    case SetClosedCall(_) => true
    case DrawIDCall => true
    case _ => false
  }

  lemma CatalogIsLeft(h: Hash32, w: World, call: Call)
    requires LeavesCatalog(call)
    ensures Step(h, w, call).s.catalog == w.s.catalog
  {
  }

  /** Only the two restore calls touch references. */
  lemma StepKeepsRefs(h: Hash32, w: World, call: Call)
    requires !call.BeginRestoreCall? && !call.FinishRestoreCall? && !LeavesCatalog(call)
    ensures Step(h, w, call).s.catalog.restoreRefs == w.s.catalog.restoreRefs
  {
    match call
    case StageChunkCall(handle, index, data, now) => StageKeepsRefs(h, w.s, handle, index, data, now);
    case CommitCaptureCall(handle, baseID, full, metadata, diff, validateAt, now) =>
      CommitKeepsRefs(w.s, handle, baseID, full, metadata, diff, validateAt, now);
    case AbortCaptureCall(_) =>
    case VerifySnapshotCall(snapshotID, now, entryAt) => VerifyKeepsRefs(h, w.s, snapshotID, now, entryAt);
    case ApplyRetentionCall(_, _) =>
    case ReplayCall(entries) => ReplayKeepsRefs(w.s, J.Latest(entries));
  }

  lemma SameRefsKeepHold(c: C.Catalog, d: C.Catalog, planID: string, id: string)
    requires C.Refers(c, planID, id) && d.restoreRefs == c.restoreRefs
    ensures C.Refers(d, planID, id)
  {
  }

  lemma StepKeepsHold(h: Hash32, w: World, call: Call, planID: string, id: string)
    requires C.Refers(w.s.catalog, planID, id) && !Finishes(call, planID, id)
    ensures C.Refers(Step(h, w, call).s.catalog, planID, id)
  {
    if LeavesCatalog(call) {
      CatalogIsLeft(h, w, call);
    } else if call.BeginRestoreCall? {
      BeginRestoreKeepsHold(w.s, call.snapshotID, call.owner, call.ttl, call.now, planID, id);
    } else if call.FinishRestoreCall? {
      FinishRestoreKeepsHold(w.s, call.plan, call.owner, call.now, planID, id);
    } else {
      StepKeepsRefs(h, w, call);
      SameRefsKeepHold(w.s.catalog, Step(h, w, call).s.catalog, planID, id);
    }
  }

  lemma {:induction false} RunKeepsHold(h: Hash32, w: World, calls: seq<Call>, planID: string, id: string)
    requires C.Refers(w.s.catalog, planID, id) && forall i :: 0 <= i < |calls| ==> !Finishes(calls[i], planID, id)
    ensures C.Refers(Run(h, w, calls).s.catalog, planID, id)
    decreases |calls|
  {
    if calls != [] {
      StepKeepsHold(h, w, calls[0], planID, id);
      RunKeepsHold(h, Step(h, w, calls[0]), calls[1..], planID, id);
    }
  }

  /** A restored snapshot is never expired and named by no retention or collection result: */
  lemma ReferencedIsProtected(
    h: Hash32, w: World, planID: string, id: string, keep: int, order: seq<string>, now: int, keepWindow: int)
    requires Inv(h, w) && C.Refers(w.s.catalog, planID, id)
    ensures id in w.s.catalog.snapshots && w.s.catalog.snapshots[id].state != Expired
    ensures id !in C.Unprotected(w.s.catalog, keep, order)
    ensures id !in Collected(w.s, now, keepWindow)
  {
    assert RefOk(w.s.catalog.restoreRefs, w.s.catalog.snapshots, id);
    assert C.HasRef(w.s.catalog, id);
  }

  /** that holds in every run from a successful `BeginRestore` on, as long as the plan is not finished. */
  lemma RestoreIsProtected(
    h: Hash32, w: World, id: string, owner: string, ttl: int, now: int, plan: RestorePlan, t: State, calls: seq<Call>,
    keep: int, order: seq<string>, gcNow: int, keepWindow: int)
    requires Inv(h, w) && BeginRestore(w.s, id, owner, ttl, now) == Outcome(t, Ok(plan)) && Legal(h, w.(s := t), calls)
    requires forall i :: 0 <= i < |calls| ==> !Finishes(calls[i], plan.id, id)
    ensures var v := Run(h, w.(s := t), calls).s;
            && id in v.catalog.snapshots && v.catalog.snapshots[id].state != Expired
            && id !in C.Unprotected(v.catalog, keep, order)
            && id !in Collected(v, gcNow, keepWindow)
  {
    BeginRestoreHolds(h, w, id, owner, ttl, now, plan, t);
    HoldProtects(h, w.(s := t), plan.id, id, calls, keep, order, gcNow, keepWindow);
  }

  lemma BeginRestoreHolds(
    h: Hash32, w: World, id: string, owner: string, ttl: int, now: int, plan: RestorePlan, t: State)
    requires Inv(h, w) && BeginRestore(w.s, id, owner, ttl, now) == Outcome(t, Ok(plan))
    ensures Inv(h, w.(s := t)) && C.Refers(t.catalog, plan.id, id)
  {
    BeginRestoreKeeps(h, w, id, owner, ttl, now);
    BeginRestoreKeepsHold(w.s, id, owner, ttl, now, plan.id, id);
  }

  lemma HoldProtects(
    h: Hash32, v: World, planID: string, id: string, calls: seq<Call>, keep: int, order: seq<string>, gcNow: int,
    keepWindow: int)
    requires Inv(h, v) && C.Refers(v.s.catalog, planID, id) && Legal(h, v, calls)
    requires forall i :: 0 <= i < |calls| ==> !Finishes(calls[i], planID, id)
    ensures var u := Run(h, v, calls).s;
            && id in u.catalog.snapshots && u.catalog.snapshots[id].state != Expired
            && id !in C.Unprotected(u.catalog, keep, order)
            && id !in Collected(u, gcNow, keepWindow)
  {
    RunKeepsInv(h, v, calls);
    RunKeepsHold(h, v, calls, planID, id);
    ReferencedIsProtected(h, Run(h, v, calls), planID, id, keep, order, gcNow, keepWindow);
  }

  // ---------- rollback ----------

  /** Generations are pairwise distinct in the catalog. */
  lemma GenerationsAreDistinct(h: Hash32, w: World, a: string, b: string)
    requires Inv(h, w) && a in w.s.catalog.snapshots && b in w.s.catalog.snapshots
    requires w.s.catalog.snapshots[a].generation == w.s.catalog.snapshots[b].generation
    ensures a == b
  {
    var x, y := w.s.catalog.snapshots[a], w.s.catalog.snapshots[b];
    assert PublicationOk(w.issued, x, w.s.log.entries) && PublicationOk(w.issued, y, w.s.log.entries);
    var p :| p in w.issued && p.snapshotID == x.id && p.operation == x.operation && p.generation == x.generation;
    var q :| q in w.issued && q.snapshotID == y.id && q.operation == y.operation && q.generation == y.generation;
    assert Apart(p, q);
  }

  /** So a rollback has one possible target, whatever order the catalog is scanned in. */
  lemma RollbackIsDeterministic(h: Hash32, w: World, beforeGeneration: nat, a: string, b: string)
    requires Inv(h, w) && C.IsLastVerifiedFull(w.s.catalog, beforeGeneration, a) &&
      C.IsLastVerifiedFull(w.s.catalog, beforeGeneration, b)
    ensures a == b
  {
    assert C.Candidate(w.s.catalog, beforeGeneration, a) && C.Candidate(w.s.catalog, beforeGeneration, b);
    GenerationsAreDistinct(h, w, a, b);
  }

  // ---------- replay ----------

  lemma {:induction false} ReplayReaches(s: State, rows: seq<J.Entry>, operation: string)
    ensures Replayed(s, operation) <= Replayed(ReplayRows(s, rows).state, operation)
    ensures ReplayRows(s, rows).reply.Ok? ==>
              forall i :: 0 <= i < |rows| && rows[i].operation == operation ==>
                rows[i].generation <= Replayed(ReplayRows(s, rows).state, operation)
    decreases |rows|
  {
    if rows != [] {
      var t := ReplayRow(s, rows[0]).state;
      if ReplayRow(s, rows[0]).reply.Ok? {
        ReplayReaches(t, rows[1..], operation);
        assert forall i :: 1 <= i < |rows| ==> rows[i] == rows[1..][i - 1];
      }
    }
  }

  lemma {:induction false} ReplaySkips(s: State, rows: seq<J.Entry>)
    requires forall i :: 0 <= i < |rows| ==> rows[i].generation <= Replayed(s, rows[i].operation)
    ensures ReplayRows(s, rows) == Outcome(s, Ok(()))
    decreases |rows|
  {
    if rows != [] {
      ReplaySkips(s, rows[1..]);
    }
  }

  /** A replay that returned no error does nothing when repeated on the same entries. */
  lemma ReplayIsIdempotent(s: State, entries: seq<J.Entry>)
    requires Replay(s, entries).reply.Ok?
    ensures Replay(Replay(s, entries).state, entries) == Outcome(Replay(s, entries).state, Ok(()))
  {
    var rows := J.Latest(entries);
    var t := ReplayRows(s, rows).state;
    forall i | 0 <= i < |rows| ensures rows[i].generation <= Replayed(t, rows[i].operation) {
      ReplayReaches(s, rows, rows[i].operation);
    }
    ReplaySkips(t, rows);
  }

  /** Replaying a log or its compaction is the same. */
  lemma ReplayOfCompaction(s: State, a: seq<J.Entry>, b: seq<J.Entry>)
    ensures Replay(s, a + b) == Replay(s, J.Latest(a) + b)
  {
    J.CompactionLaw(a, b);
  }
}
