/** What every run of the service keeps. The handles that callers use are those `BeginCapture` gave out. */
module ServiceInvariant {
  import opened BackupModel
  import opened Formats
  import opened ServiceSpec
  import J = Journal
  import L = LeaseStore
  import C = Catalog

  /** Service state, the handles given out, and the operations that went through commit (past its
      lease check) or abort. */
  datatype World = World(s: State, issued: set<CaptureHandle>, finished: set<string>)

  type Snapshots = map<string, Snapshot>

  // ---------- the parts of the invariant ----------

  predicate EntryFor(e: J.Entry, kind: string, snapshot: Snapshot) {
    e.kind == kind && e.snapshotID == snapshot.id && e.operation == snapshot.operation &&
      e.generation == snapshot.generation
  }

  ghost predicate HasEntry(entries: seq<J.Entry>, kind: string, snapshot: Snapshot) {
    exists i :: 0 <= i < |entries| && EntryFor(entries[i], kind, snapshot)
  }

  ghost predicate HasVerifyEntry(entries: seq<J.Entry>, snapshot: Snapshot, digest: string) {
    exists i :: 0 <= i < |entries| && EntryFor(entries[i], "verify", snapshot) && entries[i].detail == digest
  }

  /** The operation ID was made from an earlier value of the ID counter. */
  ghost predicate OldID(operation: string, ids: nat) {
    exists n: nat :: n <= ids && operation == NewID("capture", n)
  }

  ghost predicate HandleOk(x: CaptureHandle, leases: L.Leases, generation: nat, ids: nat) {
    && x.snapshotID != "" && x.generation <= generation && OldID(x.operation, ids)
    && var r := CaptureLease(x.snapshotID);
       r in leases.leases &&
       (leases.leases[r].epoch > x.leaseEpoch ||
         (leases.leases[r].epoch == x.leaseEpoch && leases.leases[r].owner == x.owner))
  }

  ghost predicate HandlesOk(issued: set<CaptureHandle>, leases: L.Leases, generation: nat, ids: nat) {
    forall x {:trigger HandleOk(x, leases, generation, ids)} :: x in issued ==> HandleOk(x, leases, generation, ids)
  }

  predicate Apart(x: CaptureHandle, y: CaptureHandle) {
    x != y ==>
      && x.generation != y.generation && x.operation != y.operation
      && !(x.snapshotID == y.snapshotID && x.leaseEpoch == y.leaseEpoch)
  }

  /** Generation, operation, and lease epoch of the snapshot each identify the handle. */
  ghost predicate Unique(issued: set<CaptureHandle>) {
    forall x, y {:trigger Apart(x, y)} :: x in issued && y in issued ==> Apart(x, y)
  }

  ghost predicate CapturedBy(issued: set<CaptureHandle>, snapshot: Snapshot) {
    exists x :: x in issued && x.snapshotID == snapshot.id && x.operation == snapshot.operation &&
      x.generation == snapshot.generation
  }

  /** Journal before publish: the snapshot has its "publish" entry, and an issued handle made it. */
  ghost predicate PublicationOk(issued: set<CaptureHandle>, snapshot: Snapshot, entries: seq<J.Entry>) {
    snapshot.id != "" && CapturedBy(issued, snapshot) && HasEntry(entries, "publish", snapshot)
  }

  ghost predicate PublishedOk(issued: set<CaptureHandle>, snapshots: Snapshots, entries: seq<J.Entry>) {
    forall id {:trigger PublicationOk(issued, snapshots[id], entries)} :: id in snapshots ==>
      PublicationOk(issued, snapshots[id], entries)
  }

  /** The receipt equals the digest of the stored chunks and has its "verify" entry. */
  ghost predicate ReceiptOk(h: Hash32, receipt: Receipt, snapshot: Snapshot, entries: seq<J.Entry>) {
    && receipt.snapshotID == snapshot.id && receipt.generation == snapshot.generation
    && receipt.digest == SnapshotDigest(h, snapshot) && snapshot.state != Published
    && HasVerifyEntry(entries, snapshot, receipt.digest)
  }

  ghost predicate HasGoodReceipt(
    h: Hash32, receipts: map<string, Receipt>, snapshots: Snapshots, entries: seq<J.Entry>, id: string) {
    id in receipts ==> id in snapshots && ReceiptOk(h, receipts[id], snapshots[id], entries)
  }

  ghost predicate ReceiptsOk(h: Hash32, receipts: map<string, Receipt>, snapshots: Snapshots, entries: seq<J.Entry>) {
    forall id {:trigger HasGoodReceipt(h, receipts, snapshots, entries, id)} ::
      HasGoodReceipt(h, receipts, snapshots, entries, id)
  }

  /** A snapshot that holds a restore reference is stored and not expired. */
  ghost predicate RefOk(refs: map<string, set<string>>, snapshots: Snapshots, id: string) {
    id in refs ==> id in snapshots && snapshots[id].state != Expired
  }

  ghost predicate RefsOk(refs: map<string, set<string>>, snapshots: Snapshots) {
    forall id {:trigger RefOk(refs, snapshots, id)} :: RefOk(refs, snapshots, id)
  }

  /** What operations have under way: staged chunks and reserved digests. */
  datatype Work = Work(staged: map<string, C.Chunks>, reservations: map<string, string>)

  function WorkOf(c: C.Catalog): Work {
    Work(c.staged, c.reservations)
  }

  predicate NothingLeft(u: Work, operation: string) {
    operation !in u.staged && forall d :: d in u.reservations ==> u.reservations[d] != operation
  }

  /** A finished operation is fenced for good and has nothing staged or reserved. */
  ghost predicate Ended(x: CaptureHandle, finished: set<string>, leases: L.Leases, u: Work) {
    x.operation in finished ==> L.Dead(leases, CaptureLease(x.snapshotID), x.leaseEpoch) && NothingLeft(u, x.operation)
  }

  ghost predicate FinishedOk(issued: set<CaptureHandle>, finished: set<string>, leases: L.Leases, u: Work) {
    forall x {:trigger Ended(x, finished, leases, u)} :: x in issued ==> Ended(x, finished, leases, u)
  }

  ghost predicate FinishedOld(finished: set<string>, ids: nat) {
    forall o {:trigger OldID(o, ids)} :: o in finished ==> OldID(o, ids)
  }

  ghost predicate StoresOk(s: State) {
    C.Inv(s.catalog) && J.Numbered(s.log) && L.Inv(s.leases)
  }

  ghost predicate Inv(h: Hash32, w: World) {
    && StoresOk(w.s) && HandlesOk(w.issued, w.s.leases, w.s.generation, w.s.ids) && Unique(w.issued)
    && PublishedOk(w.issued, w.s.catalog.snapshots, w.s.log.entries)
    && ReceiptsOk(h, w.s.receipts, w.s.catalog.snapshots, w.s.log.entries)
    && RefsOk(w.s.catalog.restoreRefs, w.s.catalog.snapshots)
    && FinishedOk(w.issued, w.finished, w.s.leases, WorkOf(w.s.catalog)) && FinishedOld(w.finished, w.s.ids)
  }

  // ---------- what never shrinks or changes ----------

  /** A stored snapshot stays, changes nothing but its state, and never becomes Published again. */
  ghost predicate EvolvesAt(a: Snapshots, b: Snapshots, id: string) {
    id in a ==>
      && id in b && b[id] == a[id].(state := b[id].state)
      && (b[id].state == Published ==> a[id].state == Published)
  }

  ghost predicate Evolves(a: Snapshots, b: Snapshots) {
    forall id {:trigger EvolvesAt(a, b, id)} :: EvolvesAt(a, b, id)
  }

  ghost predicate Extends(a: map<string, Receipt>, b: map<string, Receipt>) {
    forall id :: id in a ==> id in b && b[id] == a[id]
  }

  ghost predicate Grows(w: World, v: World) {
    && Evolves(w.s.catalog.snapshots, v.s.catalog.snapshots) && Extends(w.s.receipts, v.s.receipts)
    && w.s.log.entries <= v.s.log.entries && w.issued <= v.issued && w.finished <= v.finished
  }

  lemma EvolvesTransitive(a: Snapshots, b: Snapshots, c: Snapshots)
    requires Evolves(a, b) && Evolves(b, c)
    ensures Evolves(a, c)
  {
    forall id ensures EvolvesAt(a, c, id) {
      assert EvolvesAt(a, b, id) && EvolvesAt(b, c, id);
    }
  }

  lemma GrowsTransitive(a: World, b: World, c: World)
    requires Grows(a, b) && Grows(b, c)
    ensures Grows(a, c)
  {
    EvolvesTransitive(a.s.catalog.snapshots, b.s.catalog.snapshots, c.s.catalog.snapshots);
  }

  // ---------- monotonicity of the parts ----------

  lemma EntryStays(a: seq<J.Entry>, b: seq<J.Entry>, kind: string, x: Snapshot, y: Snapshot)
    requires a <= b && HasEntry(a, kind, x) && y == x.(state := y.state)
    ensures HasEntry(b, kind, y)
  {
    var i :| 0 <= i < |a| && EntryFor(a[i], kind, x);
    assert b[i] == a[i] && EntryFor(b[i], kind, y);
  }

  lemma VerifyEntryStays(a: seq<J.Entry>, b: seq<J.Entry>, digest: string, x: Snapshot, y: Snapshot)
    requires a <= b && HasVerifyEntry(a, x, digest) && y == x.(state := y.state)
    ensures HasVerifyEntry(b, y, digest)
  {
    var i :| 0 <= i < |a| && EntryFor(a[i], "verify", x) && a[i].detail == digest;
    assert b[i] == a[i] && EntryFor(b[i], "verify", y);
  }

  /** More entries, more handles and state changes leave publication in order. */
  lemma PublishedStays(
    issued: set<CaptureHandle>, more: set<CaptureHandle>, a: Snapshots, b: Snapshots, es: seq<J.Entry>,
    fs: seq<J.Entry>)
    requires PublishedOk(issued, a, es) && issued <= more && es <= fs && a.Keys == b.Keys && Evolves(a, b)
    ensures PublishedOk(more, b, fs)
  {
    forall id | id in b ensures PublicationOk(more, b[id], fs) {
      assert PublicationOk(issued, a[id], es) && EvolvesAt(a, b, id);
      PublicationStays(issued, more, a[id], b[id], es, fs);
    }
  }

  lemma PublicationStays(
    issued: set<CaptureHandle>, more: set<CaptureHandle>, x: Snapshot, y: Snapshot, es: seq<J.Entry>, fs: seq<J.Entry>)
    requires PublicationOk(issued, x, es) && issued <= more && es <= fs && y == x.(state := y.state)
    ensures PublicationOk(more, y, fs)
  {
    EntryStays(es, fs, "publish", x, y);
    var maker :| maker in issued && maker.snapshotID == x.id && maker.operation == x.operation &&
      maker.generation == x.generation;
    assert maker in more;
  }

  lemma ReceiptsStay(
    h: Hash32, receipts: map<string, Receipt>, a: Snapshots, b: Snapshots, es: seq<J.Entry>, fs: seq<J.Entry>)
    requires ReceiptsOk(h, receipts, a, es) && es <= fs && Evolves(a, b)
    ensures ReceiptsOk(h, receipts, b, fs)
  {
    forall id ensures HasGoodReceipt(h, receipts, b, fs, id) {
      assert HasGoodReceipt(h, receipts, a, es, id) && EvolvesAt(a, b, id);
      if id in receipts {
        VerifyEntryStays(es, fs, receipts[id].digest, a[id], b[id]);
      }
    }
  }

  lemma OldIDStays(operation: string, ids: nat, more: nat)
    requires OldID(operation, ids) && ids <= more
    ensures OldID(operation, more)
  {
    var n: nat :| n <= ids && operation == NewID("capture", n);
    assert n <= more;
  }

  lemma FinishedOldStays(finished: set<string>, ids: nat, more: nat)
    requires FinishedOld(finished, ids) && ids <= more
    ensures FinishedOld(finished, more)
  {
    forall o | o in finished ensures OldID(o, more) {
      OldIDStays(o, ids, more);
    }
  }

  lemma HandlesStay(issued: set<CaptureHandle>, leases: L.Leases, generation: nat, ids: nat, more: nat, moreIDs: nat)
    requires HandlesOk(issued, leases, generation, ids) && generation <= more && ids <= moreIDs
    ensures HandlesOk(issued, leases, more, moreIDs)
  {
    forall x | x in issued ensures HandleOk(x, leases, more, moreIDs) {
      assert HandleOk(x, leases, generation, ids);
      OldIDStays(x.operation, ids, moreIDs);
    }
  }

  lemma HandlesAfterAcquire(
    issued: set<CaptureHandle>, leases: L.Leases, generation: nat, ids: nat, resource: string, owner: string, now: int,
    ttl: int)
    requires HandlesOk(issued, leases, generation, ids) && L.Inv(leases)
    ensures HandlesOk(issued, L.Acquired(leases, resource, owner, now, ttl), generation, ids)
  {
    forall x | x in issued ensures HandleOk(x, L.Acquired(leases, resource, owner, now, ttl), generation, ids) {
      assert HandleOk(x, leases, generation, ids);
    }
  }

  lemma HandlesAfterRelease(
    issued: set<CaptureHandle>, leases: L.Leases, generation: nat, ids: nat, resource: string, owner: string,
    epoch: nat)
    requires HandlesOk(issued, leases, generation, ids)
    ensures HandlesOk(issued, L.Released(leases, resource, owner, epoch), generation, ids)
  {
    forall x | x in issued ensures HandleOk(x, L.Released(leases, resource, owner, epoch), generation, ids) {
      assert HandleOk(x, leases, generation, ids);
    }
  }

  lemma FinishedAfterAcquire(
    issued: set<CaptureHandle>, finished: set<string>, leases: L.Leases, u: Work, resource: string, owner: string,
    now: int, ttl: int)
    requires FinishedOk(issued, finished, leases, u) && L.Inv(leases)
    ensures FinishedOk(issued, finished, L.Acquired(leases, resource, owner, now, ttl), u)
  {
    forall x | x in issued ensures Ended(x, finished, L.Acquired(leases, resource, owner, now, ttl), u) {
      assert Ended(x, finished, leases, u);
      if x.operation in finished {
        L.AcquiredKeepsDead(leases, resource, owner, now, ttl, CaptureLease(x.snapshotID), x.leaseEpoch);
      }
    }
  }

  lemma FinishedAfterRelease(
    issued: set<CaptureHandle>, finished: set<string>, leases: L.Leases, u: Work, resource: string, owner: string,
    epoch: nat)
    requires FinishedOk(issued, finished, leases, u)
    ensures FinishedOk(issued, finished, L.Released(leases, resource, owner, epoch), u)
  {
    forall x | x in issued ensures Ended(x, finished, L.Released(leases, resource, owner, epoch), u) {
      assert Ended(x, finished, leases, u);
      if x.operation in finished {
        L.ReleasedKeepsDead(leases, resource, owner, epoch, CaptureLease(x.snapshotID), x.leaseEpoch);
      }
    }
  }

  // ---------- capture ----------

  lemma FreshHandle(w: World, handle: CaptureHandle)
    requires HandlesOk(w.issued, w.s.leases, w.s.generation, w.s.ids) && Unique(w.issued) &&
      FinishedOld(w.finished, w.s.ids)
    requires handle.operation == NewID("capture", w.s.ids + 1) && handle.generation == w.s.generation + 1
    requires L.Inv(w.s.leases) && handle.leaseEpoch == L.Epoch(w.s.leases, CaptureLease(handle.snapshotID)) + 1
    ensures Unique(w.issued + {handle}) && handle.operation !in w.finished && OldID(handle.operation, w.s.ids + 1)
  {
    forall o | OldID(o, w.s.ids) ensures o != handle.operation {
      var n: nat :| n <= w.s.ids && o == NewID("capture", n);
      if o == handle.operation {
        NewIDInjective("capture", n, w.s.ids + 1);
      }
    }
    forall x | x in w.issued
      ensures x.operation != handle.operation && x.generation != handle.generation
      ensures !(x.snapshotID == handle.snapshotID && x.leaseEpoch == handle.leaseEpoch)
    {
      assert HandleOk(x, w.s.leases, w.s.generation, w.s.ids);
    }
    forall x, y | x in w.issued + {handle} && y in w.issued + {handle} ensures Apart(x, y) {
      assert x in w.issued && y in w.issued ==> Apart(x, y);
    }
    assert handle.operation in w.finished ==> OldID(handle.operation, w.s.ids);
  }

  ghost function AfterBegin(w: World, o: Outcome<CaptureHandle>): World {
    w.(s := o.state, issued := if o.reply.Ok? then w.issued + {o.reply.value} else w.issued)
  }

  lemma HandleAdded(issued: set<CaptureHandle>, finished: set<string>, x: CaptureHandle, s: State)
    requires HandlesOk(issued, s.leases, s.generation, s.ids) &&
      FinishedOk(issued, finished, s.leases, WorkOf(s.catalog))
    requires HandleOk(x, s.leases, s.generation, s.ids) && x.operation !in finished
    ensures HandlesOk(issued + {x}, s.leases, s.generation, s.ids) &&
      FinishedOk(issued + {x}, finished, s.leases, WorkOf(s.catalog))
  {
    forall y | y in issued + {x} ensures Ended(y, finished, s.leases, WorkOf(s.catalog)) {
      assert y in issued ==> Ended(y, finished, s.leases, WorkOf(s.catalog));
    }
  }

  lemma EvolvesSelf(a: Snapshots)
    ensures Evolves(a, a)
  {
    forall id ensures EvolvesAt(a, a, id) {}
  }

  lemma BeginCaptureKeeps(h: Hash32, w: World, cancelled: bool, snapshotID: string, owner: string, ttl: int, now: int)
    requires Inv(h, w)
    ensures var v := AfterBegin(w, BeginCapture(w.s, cancelled, snapshotID, owner, ttl, now)); Inv(h, v) && Grows(w, v)
  {
    var o := BeginCapture(w.s, cancelled, snapshotID, owner, ttl, now);
    EvolvesSelf(w.s.catalog.snapshots);
    if o.reply.Ok? {
      FreshHandle(w, o.reply.value);
      AcquireKeeps(h, w, CaptureLease(snapshotID), owner, now, ttl, w.s.generation + 1, w.s.ids + 1);
      IssueKeeps(h, w.(s := o.state), o.reply.value);
      GrowsTransitive(w, w.(s := o.state), AfterBegin(w, o));
    }
  }

  lemma IssueKeeps(h: Hash32, w: World, x: CaptureHandle)
    requires Inv(h, w) && HandleOk(x, w.s.leases, w.s.generation, w.s.ids)
    requires Unique(w.issued + {x}) && x.operation !in w.finished
    ensures var v := w.(issued := w.issued + {x}); Inv(h, v) && Grows(w, v)
  {
    var a, es := w.s.catalog.snapshots, w.s.log.entries;
    EvolvesSelf(a);
    HandleAdded(w.issued, w.finished, x, w.s);
    PublishedStays(w.issued, w.issued + {x}, a, a, es, es);
  }

  /** Work added under one operation leaves every other operation's record clean. */
  ghost predicate OnlyUnder(u: Work, v: Work, operation: string) {
    && (forall o :: o in v.staged && o != operation ==> o in u.staged)
    && (forall d :: d in v.reservations && v.reservations[d] != operation ==>
      d in u.reservations && u.reservations[d] == v.reservations[d])
  }

  lemma WorkKeepsFinished(w: World, handle: CaptureHandle, v: Work)
    requires FinishedOk(w.issued, w.finished, w.s.leases, WorkOf(w.s.catalog)) && Unique(w.issued)
    requires handle in w.issued && handle.operation !in w.finished &&
      OnlyUnder(WorkOf(w.s.catalog), v, handle.operation)
    ensures FinishedOk(w.issued, w.finished, w.s.leases, v)
  {
    forall x | x in w.issued ensures Ended(x, w.finished, w.s.leases, v) {
      assert Ended(x, w.finished, w.s.leases, WorkOf(w.s.catalog)) && Apart(x, handle);
    }
  }

  lemma ValidIsUnfinished(w: World, handle: CaptureHandle, now: int)
    requires FinishedOk(w.issued, w.finished, w.s.leases, WorkOf(w.s.catalog)) && handle in w.issued &&
      Validates(w.s, handle, now)
    ensures handle.operation !in w.finished
  {
    assert Ended(handle, w.finished, w.s.leases, WorkOf(w.s.catalog));
  }

  lemma CatalogOnlyUnder(c: C.Catalog, operation: string, digest: string, chunk: Chunk)
    ensures C.CanReserve(c, operation, digest) ==>
      OnlyUnder(WorkOf(c), WorkOf(C.Reserved(c, operation, digest)), operation)
    ensures OnlyUnder(WorkOf(c), WorkOf(C.StagedChunk(c, operation, chunk)), operation)
    ensures OnlyUnder(WorkOf(c), WorkOf(C.ReleasedDigest(c, operation, digest)), operation)
  {
  }

  lemma OnlyUnderTransitive(u: Work, v: Work, t: Work, operation: string)
    requires OnlyUnder(u, v, operation) && OnlyUnder(v, t, operation)
    ensures OnlyUnder(u, t, operation)
  {
  }

  lemma StageOnlyUnder(c: C.Catalog, operation: string, chunk: Chunk)
    ensures OnlyUnder(WorkOf(c), WorkOf(StagedCatalog(c, operation, chunk)), operation)
  {
    var digest := chunk.digest;
    if C.CanReserve(c, operation, digest) {
      var reserved := C.Reserved(c, operation, digest);
      var staged := C.StagedChunk(reserved, operation, chunk);
      CatalogOnlyUnder(c, operation, digest, chunk);
      CatalogOnlyUnder(reserved, operation, digest, chunk);
      CatalogOnlyUnder(staged, operation, digest, chunk);
      OnlyUnderTransitive(WorkOf(c), WorkOf(reserved), WorkOf(staged), operation);
      OnlyUnderTransitive(WorkOf(c), WorkOf(staged), WorkOf(C.ReleasedDigest(staged, operation, digest)), operation);
    }
  }

  lemma StageTouchesWorkOnly(c: C.Catalog, operation: string, chunk: Chunk)
    ensures var d := StagedCatalog(c, operation, chunk); d == c.(staged := d.staged, reservations := d.reservations)
  {
  }

  lemma StageChunkKeeps(h: Hash32, w: World, handle: CaptureHandle, index: int, data: Bytes, now: int)
    requires Inv(h, w) && handle in w.issued
    ensures var v := w.(s := StageChunk(h, w.s, handle, index, data, now).state); Inv(h, v) && Grows(w, v)
  {
    EvolvesSelf(w.s.catalog.snapshots);
    if Validates(w.s, handle, now) {
      var chunk := Chunk(index, Hex(h(data)), data);
      StageOnlyUnder(w.s.catalog, handle.operation, chunk);
      StageTouchesWorkOnly(w.s.catalog, handle.operation, chunk);
      ValidIsUnfinished(w, handle, now);
      WorkKeepsFinished(w, handle, WorkOf(StagedCatalog(w.s.catalog, handle.operation, chunk)));
    }
  }

  /** Dropping an operation ends it: its lease epoch is dead and its work is gone. */
  lemma DropEnds(w: World, handle: CaptureHandle)
    requires FinishedOk(w.issued, w.finished, w.s.leases, WorkOf(w.s.catalog)) && Unique(w.issued)
    requires HandlesOk(w.issued, w.s.leases, w.s.generation, w.s.ids) && handle in w.issued
    ensures FinishedOk(w.issued, w.finished + {handle.operation}, ReleaseCapture(w.s, handle),
      WorkOf(C.Forgotten(w.s.catalog, handle.operation)))
  {
    var leases, u := ReleaseCapture(w.s, handle), WorkOf(C.Forgotten(w.s.catalog, handle.operation));
    FinishedAfterRelease(w.issued, w.finished, w.s.leases, WorkOf(w.s.catalog), CaptureLease(handle.snapshotID),
      handle.owner, handle.leaseEpoch);
    assert HandleOk(handle, w.s.leases, w.s.generation, w.s.ids);
    forall x | x in w.issued ensures Ended(x, w.finished + {handle.operation}, leases, u) {
      assert Apart(x, handle) && Ended(x, w.finished, leases, WorkOf(w.s.catalog));
    }
  }

  lemma DropKeepsRest(w: World, handle: CaptureHandle)
    requires StoresOk(w.s) && HandlesOk(w.issued, w.s.leases, w.s.generation, w.s.ids) &&
      FinishedOld(w.finished, w.s.ids) && handle in w.issued
    ensures L.Inv(ReleaseCapture(w.s, handle)) && C.Inv(C.Forgotten(w.s.catalog, handle.operation))
    ensures HandlesOk(w.issued, ReleaseCapture(w.s, handle), w.s.generation, w.s.ids)
    ensures FinishedOld(w.finished + {handle.operation}, w.s.ids)
  {
    HandlesAfterRelease(w.issued, w.s.leases, w.s.generation, w.s.ids, CaptureLease(handle.snapshotID), handle.owner,
      handle.leaseEpoch);
    assert HandleOk(handle, w.s.leases, w.s.generation, w.s.ids);
    forall o | o in w.finished + {handle.operation} ensures OldID(o, w.s.ids) {
      assert o in w.finished ==> OldID(o, w.s.ids);
    }
  }

  ghost function AfterEnd(w: World, handle: CaptureHandle, s: State): World {
    w.(s := s, finished := w.finished + {handle.operation})
  }

  lemma AbortCaptureKeeps(h: Hash32, w: World, handle: CaptureHandle)
    requires Inv(h, w) && handle in w.issued
    ensures var v := AfterEnd(w, handle, AbortCapture(w.s, handle).state); Inv(h, v) && Grows(w, v)
  {
    EvolvesSelf(w.s.catalog.snapshots);
    DropEnds(w, handle);
    DropKeepsRest(w, handle);
  }

  ghost function AfterCommit(w: World, handle: CaptureHandle, validateAt: int, s: State): World {
    if Validates(w.s, handle, validateAt) then AfterEnd(w, handle, s) else w.(s := s)
  }

  lemma AppendedGrows(log: J.Log, entry: J.Entry)
    requires J.Numbered(log)
    ensures J.Numbered(J.Appended(log, entry)) && log.entries <= J.Appended(log, entry).entries
    ensures !log.closed ==> J.Appended(log, entry).entries == log.entries + [entry.(sequence := log.next)]
  {
  }

  /** A snapshot with its publication record may become visible. */
  lemma PublishKeeps(h: Hash32, w: World, p: Snapshot)
    requires Inv(h, w) && p.id !in w.s.catalog.snapshots && PublicationOk(w.issued, p, w.s.log.entries)
    ensures var v := w.(s := w.s.(catalog := w.s.catalog.(snapshots := w.s.catalog.snapshots[p.id := p])));
      Inv(h, v) && Grows(w, v)
  {
    var a, es := w.s.catalog.snapshots, w.s.log.entries;
    var b := a[p.id := p];
    forall id ensures EvolvesAt(a, b, id) {}
    forall id | id in b ensures PublicationOk(w.issued, b[id], es) {
      assert id in a ==> PublicationOk(w.issued, a[id], es);
    }
    forall id ensures RefOk(w.s.catalog.restoreRefs, b, id) {
      assert RefOk(w.s.catalog.restoreRefs, a, id);
    }
    ReceiptsStay(h, w.s.receipts, a, b, es, es);
  }

  /** The journal entry written before the snapshot becomes visible is its publication record. */
  lemma CommitIsPublication(
    w: World, handle: CaptureHandle, baseID: string, full: bool, metadata: map<string, string>, diff: string, now: int)
    requires StoresOk(w.s) && HandlesOk(w.issued, w.s.leases, w.s.generation, w.s.ids) && handle in w.issued &&
      !w.s.log.closed
    ensures PublicationOk(w.issued, C.Published(w.s.catalog, NewSnapshot(handle, baseID, full, metadata, now)),
                          J.Appended(w.s.log, PublishEntry(w.s, handle, baseID, diff, now)).entries)
  {
    assert HandleOk(handle, w.s.leases, w.s.generation, w.s.ids);
    var entries := J.Appended(w.s.log, PublishEntry(w.s, handle, baseID, diff, now)).entries;
    assert EntryFor(entries[|w.s.log.entries|], "publish",
      C.Published(w.s.catalog, NewSnapshot(handle, baseID, full, metadata, now)));
  }

  // ---------- journal, state changes, receipts ----------

  lemma JournalKeeps(h: Hash32, w: World, entry: J.Entry)
    requires Inv(h, w)
    ensures var v := w.(s := w.s.(log := J.Appended(w.s.log, entry))); Inv(h, v) && Grows(w, v)
  {
    var a, es, fs := w.s.catalog.snapshots, w.s.log.entries, J.Appended(w.s.log, entry).entries;
    EvolvesSelf(a);
    AppendedGrows(w.s.log, entry);
    PublishedStays(w.issued, w.issued, a, a, es, fs);
    ReceiptsStay(h, w.s.receipts, a, a, es, fs);
  }

  lemma StatesKeep(h: Hash32, w: World, b: Snapshots)
    requires Inv(h, w) && Evolves(w.s.catalog.snapshots, b) && b.Keys == w.s.catalog.snapshots.Keys
    requires RefsOk(w.s.catalog.restoreRefs, b)
    ensures var v := w.(s := w.s.(catalog := w.s.catalog.(snapshots := b))); Inv(h, v) && Grows(w, v)
  {
    var a, es := w.s.catalog.snapshots, w.s.log.entries;
    PublishedStays(w.issued, w.issued, a, b, es, es);
    ReceiptsStay(h, w.s.receipts, a, b, es, es);
    assert C.Inv(w.s.catalog.(snapshots := b)) by {
      forall id | id in b ensures b[id].id == id {
        assert EvolvesAt(a, b, id);
      }
    }
  }

  lemma VerifiedStateKeeps(h: Hash32, w: World, id: string, generation: nat)
    requires Inv(h, w)
    ensures var v := w.(s := w.s.(catalog := C.WithState(w.s.catalog, id, generation, Verified)));
      Inv(h, v) && Grows(w, v)
  {
    var a, b := w.s.catalog.snapshots, C.WithState(w.s.catalog, id, generation, Verified).snapshots;
    forall x ensures EvolvesAt(a, b, x) {}
    forall x ensures RefOk(w.s.catalog.restoreRefs, b, x) {
      assert RefOk(w.s.catalog.restoreRefs, a, x);
    }
    assert C.WithState(w.s.catalog, id, generation, Verified) == w.s.catalog.(snapshots := b);
    StatesKeep(h, w, b);
  }

  lemma ReceiptKeeps(h: Hash32, w: World, receipt: Receipt)
    requires Inv(h, w) && receipt.snapshotID !in w.s.receipts && receipt.snapshotID in w.s.catalog.snapshots
    requires ReceiptOk(h, receipt, w.s.catalog.snapshots[receipt.snapshotID], w.s.log.entries)
    ensures var v := w.(s := w.s.(receipts := w.s.receipts[receipt.snapshotID := receipt])); Inv(h, v) && Grows(w, v)
  {
    EvolvesSelf(w.s.catalog.snapshots);
    var more := w.s.receipts[receipt.snapshotID := receipt];
    forall id ensures HasGoodReceipt(h, more, w.s.catalog.snapshots, w.s.log.entries, id) {
      assert HasGoodReceipt(h, w.s.receipts, w.s.catalog.snapshots, w.s.log.entries, id);
    }
  }

  /** In `VerifySnapshot` the state change is never refused, so the branch that withdraws the receipt is
      not taken; and the snapshot has no receipt yet. */
  lemma VerificationIsNotRefused(h: Hash32, w: World, snapshotID: string)
    requires Inv(h, w) && snapshotID in w.s.catalog.snapshots && w.s.catalog.snapshots[snapshotID].state == Published
    ensures var x := w.s.catalog.snapshots[snapshotID];
            x.id == snapshotID && C.SetStateError(w.s.catalog, x.id, x.generation).Ok?
    ensures snapshotID !in w.s.receipts
  {
    assert HasGoodReceipt(h, w.s.receipts, w.s.catalog.snapshots, w.s.log.entries, snapshotID);
  }

  lemma VerifySnapshotKeeps(h: Hash32, w: World, snapshotID: string, now: int, entryAt: int)
    requires Inv(h, w)
    ensures var v := w.(s := VerifySnapshot(h, w.s, snapshotID, now, entryAt).state); Inv(h, v) && Grows(w, v)
  {
    EvolvesSelf(w.s.catalog.snapshots);
    if snapshotID in w.s.catalog.snapshots && w.s.catalog.snapshots[snapshotID].state == Published && !w.s.log.closed {
      var x := w.s.catalog.snapshots[snapshotID];
      VerificationIsNotRefused(h, w, snapshotID);
      var digest := SnapshotDigest(h, x);
      var entry := VerifyEntry(x, digest, entryAt);
      JournalKeeps(h, w, entry);
      var w1 := w.(s := w.s.(log := J.Appended(w.s.log, entry)));
      VerifiedStateKeeps(h, w1, x.id, x.generation);
      var w2 := w1.(s := w1.s.(catalog := C.WithState(w.s.catalog, x.id, x.generation, Verified)));
      assert HasVerifyEntry(w2.s.log.entries, x.(state := Verified), digest) by {
        assert EntryFor(w2.s.log.entries[|w.s.log.entries|], "verify", x.(state := Verified));
      }
      ReceiptKeeps(h, w2, Receipt(x.id, x.generation, digest, now));
      var w3 := w2.(s := w2.s.(receipts := w.s.receipts[x.id := Receipt(x.id, x.generation, digest, now)]));
      GrowsTransitive(w, w1, w2);
      GrowsTransitive(w, w2, w3);
      assert w3 == w.(s := VerifySnapshot(h, w.s, snapshotID, now, entryAt).state);
    }
  }

  lemma CommitCaptureKeeps(
    h: Hash32, w: World, handle: CaptureHandle, baseID: string, full: bool, metadata: map<string, string>,
    diff: string, validateAt: int, now: int)
    requires Inv(h, w) && handle in w.issued
    ensures var v := AfterCommit(w, handle, validateAt,
      CommitCapture(w.s, handle, baseID, full, metadata, diff, validateAt, now).state);
            Inv(h, v) && Grows(w, v)
  {
    EvolvesSelf(w.s.catalog.snapshots);
    if Validates(w.s, handle, validateAt) {
      if w.s.log.closed {
        AbortCaptureKeeps(h, w, handle);
      } else {
        OpenCommitKeeps(h, w, handle, baseID, full, metadata, diff, now);
      }
    }
  }

  ghost function AfterOpenCommit(
    w: World, handle: CaptureHandle, baseID: string, full: bool, metadata: map<string, string>, diff: string,
    now: int): World {
    var snapshot := NewSnapshot(handle, baseID, full, metadata, now);
    var log := J.Appended(w.s.log, PublishEntry(w.s, handle, baseID, diff, now));
    AfterEnd(w, handle, w.s.(log := log, leases := ReleaseCapture(w.s, handle),
      catalog := if C.CommitError(w.s.catalog, snapshot).Err? then C.Forgotten(w.s.catalog, handle.operation)
                 else C.Committed(w.s.catalog, snapshot)))
  }

  /** Journal first, then drop the operation's work and lease, then make the snapshot visible. */
  lemma OpenCommitKeeps(
    h: Hash32, w: World, handle: CaptureHandle, baseID: string, full: bool, metadata: map<string, string>, diff: string,
    now: int)
    requires Inv(h, w) && handle in w.issued && !w.s.log.closed
    ensures var v := AfterOpenCommit(w, handle, baseID, full, metadata, diff, now); Inv(h, v) && Grows(w, v)
  {
    var entry := PublishEntry(w.s, handle, baseID, diff, now);
    var snapshot := NewSnapshot(handle, baseID, full, metadata, now);
    JournalKeeps(h, w, entry);
    var w1 := w.(s := w.s.(log := J.Appended(w.s.log, entry)));
    AbortCaptureKeeps(h, w1, handle);
    var w2 := AfterEnd(w1, handle, AbortCapture(w1.s, handle).state);
    GrowsTransitive(w, w1, w2);
    if C.CommitError(w.s.catalog, snapshot).Ok? {
      var p := C.Published(w.s.catalog, snapshot);
      CommitIsPublication(w, handle, baseID, full, metadata, diff, now);
      PublishKeeps(h, w2, p);
      GrowsTransitive(w, w2, AfterOpenCommit(w, handle, baseID, full, metadata, diff, now));
    }
  }

  // ---------- restore ----------

  lemma LeaseKeeps(h: Hash32, w: World, leases: L.Leases, generation: nat, ids: nat)
    requires Inv(h, w) && L.Inv(leases) && HandlesOk(w.issued, leases, w.s.generation, w.s.ids)
    requires w.s.generation <= generation && w.s.ids <= ids
    requires FinishedOk(w.issued, w.finished, leases, WorkOf(w.s.catalog))
    ensures var v := w.(s := w.s.(leases := leases, generation := generation, ids := ids)); Inv(h, v) && Grows(w, v)
  {
    EvolvesSelf(w.s.catalog.snapshots);
    HandlesStay(w.issued, leases, w.s.generation, w.s.ids, generation, ids);
    FinishedOldStays(w.finished, w.s.ids, ids);
  }

  lemma AcquireKeeps(
    h: Hash32, w: World, resource: string, owner: string, now: int, ttl: int, generation: nat, ids: nat)
    requires Inv(h, w) && w.s.generation <= generation && w.s.ids <= ids
    ensures var leases := L.Acquired(w.s.leases, resource, owner, now, ttl);
            var v := w.(s := w.s.(leases := leases, generation := generation, ids := ids));
            Inv(h, v) && Grows(w, v)
  {
    HandlesAfterAcquire(w.issued, w.s.leases, w.s.generation, w.s.ids, resource, owner, now, ttl);
    FinishedAfterAcquire(w.issued, w.finished, w.s.leases, WorkOf(w.s.catalog), resource, owner, now, ttl);
    LeaseKeeps(h, w, L.Acquired(w.s.leases, resource, owner, now, ttl), generation, ids);
  }

  /** An ID drawn by another part of the process. */
  lemma DrawnIDKeeps(h: Hash32, w: World)
    requires Inv(h, w)
    ensures var v := w.(s := w.s.(ids := w.s.ids + 1)); Inv(h, v) && Grows(w, v)
  {
    LeaseKeeps(h, w, w.s.leases, w.s.generation, w.s.ids + 1);
  }

  lemma ReleaseKeeps(h: Hash32, w: World, resource: string, owner: string, epoch: nat)
    requires Inv(h, w)
    ensures var v := w.(s := w.s.(leases := L.Released(w.s.leases, resource, owner, epoch))); Inv(h, v) && Grows(w, v)
  {
    HandlesAfterRelease(w.issued, w.s.leases, w.s.generation, w.s.ids, resource, owner, epoch);
    FinishedAfterRelease(w.issued, w.finished, w.s.leases, WorkOf(w.s.catalog), resource, owner, epoch);
    LeaseKeeps(h, w, L.Released(w.s.leases, resource, owner, epoch), w.s.generation, w.s.ids);
  }

  lemma RefsKeep(h: Hash32, w: World, refs: map<string, set<string>>)
    requires Inv(h, w) && RefsOk(refs, w.s.catalog.snapshots) && forall id :: id in refs ==> refs[id] != {}
    ensures var v := w.(s := w.s.(catalog := w.s.catalog.(restoreRefs := refs))); Inv(h, v) && Grows(w, v)
  {
    EvolvesSelf(w.s.catalog.snapshots);
  }

  lemma WithRefKeeps(h: Hash32, w: World, planID: string, snapshotID: string)
    requires Inv(h, w) && snapshotID in w.s.catalog.snapshots && w.s.catalog.snapshots[snapshotID].state != Expired
    ensures var v := w.(s := w.s.(catalog := C.WithRef(w.s.catalog, planID, snapshotID))); Inv(h, v) && Grows(w, v)
  {
    var refs := C.WithRef(w.s.catalog, planID, snapshotID).restoreRefs;
    forall id ensures RefOk(refs, w.s.catalog.snapshots, id) {
      assert RefOk(w.s.catalog.restoreRefs, w.s.catalog.snapshots, id);
    }
    RefsKeep(h, w, refs);
  }

  lemma WithoutRefKeeps(h: Hash32, w: World, planID: string, snapshotID: string)
    requires Inv(h, w)
    ensures var v := w.(s := w.s.(catalog := C.WithoutRef(w.s.catalog, planID, snapshotID))); Inv(h, v) && Grows(w, v)
  {
    var refs := C.WithoutRef(w.s.catalog, planID, snapshotID).restoreRefs;
    forall id ensures RefOk(refs, w.s.catalog.snapshots, id) {
      assert RefOk(w.s.catalog.restoreRefs, w.s.catalog.snapshots, id);
    }
    assert C.WithoutRef(w.s.catalog, planID, snapshotID) == w.s.catalog.(restoreRefs := refs);
    RefsKeep(h, w, refs);
  }

  lemma BeginRestoreKeeps(h: Hash32, w: World, snapshotID: string, owner: string, ttl: int, now: int)
    requires Inv(h, w)
    ensures var v := w.(s := BeginRestore(w.s, snapshotID, owner, ttl, now).state); Inv(h, v) && Grows(w, v)
  {
    EvolvesSelf(w.s.catalog.snapshots);
    if snapshotID in w.s.catalog.snapshots {
      var resource := RestoreLease(snapshotID);
      AcquireKeeps(h, w, resource, owner, now, ttl, w.s.generation, w.s.ids + 1);
      var w1 := w.(s := w.s.(leases := L.Acquired(w.s.leases, resource, owner, now, ttl), ids := w.s.ids + 1));
      if L.Held(w.s.leases, resource, now) {
        assert w1.s == BeginRestore(w.s, snapshotID, owner, ttl, now).state;
      } else if w.s.catalog.snapshots[snapshotID].state == Expired {
        ReleaseKeeps(h, w1, resource, owner, L.Epoch(w1.s.leases, resource));
        GrowsTransitive(w, w1, w.(s := BeginRestore(w.s, snapshotID, owner, ttl, now).state));
      } else {
        WithRefKeeps(h, w1, NewID("restore", w.s.ids + 1), snapshotID);
        GrowsTransitive(w, w1, w.(s := BeginRestore(w.s, snapshotID, owner, ttl, now).state));
      }
    }
  }

  lemma FinishRestoreKeeps(h: Hash32, w: World, plan: RestorePlan, owner: string, now: int)
    requires Inv(h, w)
    ensures var v := w.(s := FinishRestore(w.s, plan, owner, now).state); Inv(h, v) && Grows(w, v)
  {
    EvolvesSelf(w.s.catalog.snapshots);
    var resource := RestoreLease(plan.snapshotID);
    if resource in w.s.leases.leases && !w.s.log.closed {
      var epoch := w.s.leases.leases[resource].epoch;
      var entry := FinishEntry(plan, epoch, now);
      JournalKeeps(h, w, entry);
      var w1 := w.(s := w.s.(log := J.Appended(w.s.log, entry)));
      if L.Releasable(w.s.leases, resource, owner, epoch) {
        ReleaseKeeps(h, w1, resource, owner, epoch);
        var w2 := w1.(s := w1.s.(leases := L.Released(w.s.leases, resource, owner, epoch)));
        WithoutRefKeeps(h, w2, plan.id, plan.snapshotID);
        var w3 := w2.(s := w2.s.(catalog := C.WithoutRef(w.s.catalog, plan.id, plan.snapshotID)));
        GrowsTransitive(w, w1, w2);
        GrowsTransitive(w, w2, w3);
      }
    }
  }

  lemma ApplyRetentionKeeps(h: Hash32, w: World, keep: int, order: seq<string>)
    requires Inv(h, w)
    ensures var v := w.(s := w.s.(catalog := C.ExpiredAll(w.s.catalog, C.Unprotected(w.s.catalog, keep, order))));
      Inv(h, v) && Grows(w, v)
  {
    var ids := C.Unprotected(w.s.catalog, keep, order);
    var a, b := w.s.catalog.snapshots, C.ExpiredAll(w.s.catalog, ids).snapshots;
    forall x ensures EvolvesAt(a, b, x) {}
    forall x ensures RefOk(w.s.catalog.restoreRefs, b, x) {
      assert RefOk(w.s.catalog.restoreRefs, a, x);
      assert x in w.s.catalog.restoreRefs ==> C.HasRef(w.s.catalog, x);
    }
    assert C.ExpiredAll(w.s.catalog, ids) == w.s.catalog.(snapshots := b);
    StatesKeep(h, w, b);
  }

  lemma ReplayRowKeeps(h: Hash32, w: World, entry: J.Entry)
    requires Inv(h, w)
    ensures var v := w.(s := ReplayRow(w.s, entry).state); Inv(h, v) && Grows(w, v)
  {
    EvolvesSelf(w.s.catalog.snapshots);
    if entry.generation > Replayed(w.s, entry.operation) && entry.kind == "verify" {
      var w1 := w.(s := w.s.(replay := w.s.replay[entry.operation := entry.generation]));
      assert Inv(h, w1) && Grows(w, w1);
      VerifiedStateKeeps(h, w1, entry.snapshotID, entry.generation);
      GrowsTransitive(w, w1, w.(s := ReplayRow(w.s, entry).state));
    }
  }

  lemma {:induction false} ReplayKeeps(h: Hash32, w: World, rows: seq<J.Entry>)
    requires Inv(h, w)
    ensures var v := w.(s := ReplayRows(w.s, rows).state); Inv(h, v) && Grows(w, v)
    decreases |rows|
  {
    EvolvesSelf(w.s.catalog.snapshots);
    if rows != [] {
      ReplayRowKeeps(h, w, rows[0]);
      var w1 := w.(s := ReplayRow(w.s, rows[0]).state);
      if ReplayRow(w.s, rows[0]).reply.Ok? {
        ReplayKeeps(h, w1, rows[1..]);
        GrowsTransitive(w, w1, w.(s := ReplayRows(w.s, rows).state));
      }
    }
  }
}
