/** internal/catalog/store.go: staged chunks, published snapshots and restore references. */
module Catalog {
  import opened BackupModel
  import opened Ordering

  type Chunks = map<int, Chunk>

  datatype Catalog = Catalog(
    snapshots: map<string, Snapshot>, staged: map<string, Chunks>, reservations: map<string, string>,
    restoreRefs: map<string, set<string>>, maxChunkCount: nat)

  /** Snapshots are filed under their own ID and reference sets are not empty. */
  ghost predicate Inv(c: Catalog) {
    && (forall id :: id in c.snapshots ==> c.snapshots[id].id == id)
    && (forall id :: id in c.restoreRefs ==> c.restoreRefs[id] != {})
    && c.maxChunkCount >= 1
  }

  function Staged(c: Catalog, operation: string): Chunks {
    if operation in c.staged then c.staged[operation] else map[]
  }

  predicate HasRef(c: Catalog, snapshotID: string) {
    snapshotID in c.restoreRefs && c.restoreRefs[snapshotID] != {}
  }

  // ---------- staging ----------

  predicate CanReserve(c: Catalog, operation: string, digest: string) {
    digest in c.reservations ==> c.reservations[digest] == operation
  }

  function Reserved(c: Catalog, operation: string, digest: string): Catalog {
    if CanReserve(c, operation, digest) then c.(reservations := c.reservations[digest := operation]) else c
  }

  function StageError(c: Catalog, operation: string, chunk: Chunk): Result<()> {
    var chunks := Staged(c, operation);
    if chunk.index !in chunks && |chunks| >= c.maxChunkCount then Err(ErrCapacity)
    else if chunk.index in chunks && chunks[chunk.index].digest != chunk.digest then Err(ErrConflict)
    else Ok(())
  }

  function StagedChunk(c: Catalog, operation: string, chunk: Chunk): Catalog {
    var chunks := Staged(c, operation);
    c.(staged := c.staged[operation := if StageError(c, operation, chunk).Ok? then chunks[chunk.index := chunk]
      else chunks])
  }

  function ReleasedDigest(c: Catalog, operation: string, digest: string): Catalog {
    if digest in c.reservations && c.reservations[digest] == operation
    then c.(reservations := c.reservations - {digest}) else c
  }

  function Unreserved(reservations: map<string, string>, operation: string): map<string, string> {
    map d | d in reservations && reservations[d] != operation :: reservations[d]
  }

  function Forgotten(c: Catalog, operation: string): Catalog {
    c.(staged := c.staged - {operation}, reservations := Unreserved(c.reservations, operation))
  }

  // ---------- publication ----------

  ghost function SortedIndexes(s: set<int>): (r: seq<int>)
    ensures Lists(r, s) && Ascending(r, IntOrder)
  {
    SortedSeq(s, IntOrder)
  }

  /** The staged chunks in index order. */
  ghost function Ordered(chunks: Chunks): seq<Chunk> {
    var indexes := SortedIndexes(chunks.Keys);
    ListsMembers(indexes, chunks.Keys);
    assert forall i :: 0 <= i < |indexes| ==> indexes[i] in indexes;
    ChunksAt(chunks, indexes)
  }

  function ChunksAt(chunks: Chunks, indexes: seq<int>): (r: seq<Chunk>)
    requires forall i :: 0 <= i < |indexes| ==> indexes[i] in chunks
    ensures |r| == |indexes|
    ensures forall i :: 0 <= i < |r| ==> r[i] == chunks[indexes[i]]
  {
    seq(|indexes|, i requires 0 <= i < |indexes| => chunks[indexes[i]])
  }

  function CommitError(c: Catalog, snapshot: Snapshot): Result<()> {
    if snapshot.id in c.snapshots then Err(ErrConflict)
    else if |Staged(c, snapshot.operation)| == 0 then Err(ErrNotFound)
    else Ok(())
  }

  ghost function Published(c: Catalog, snapshot: Snapshot): Snapshot {
    snapshot.(chunks := Ordered(Staged(c, snapshot.operation)), state := SnapshotState.Published)
  }

  ghost function Committed(c: Catalog, snapshot: Snapshot): Catalog {
    if CommitError(c, snapshot).Err? then c
    else Forgotten(c, snapshot.operation).(snapshots := c.snapshots[snapshot.id := Published(c, snapshot)])
  }

  // ---------- state changes ----------

  function SetStateError(c: Catalog, id: string, generation: nat): Result<()> {
    if id !in c.snapshots then Err(ErrNotFound)
    else if c.snapshots[id].generation != generation then Err(ErrConflict)
    else Ok(())
  }

  function WithState(c: Catalog, id: string, generation: nat, state: SnapshotState): Catalog {
    if SetStateError(c, id, generation).Err? then c
    else c.(snapshots := c.snapshots[id := c.snapshots[id].(state := state)])
  }

  function WithRef(c: Catalog, planID: string, snapshotID: string): Catalog {
    var refs := if snapshotID in c.restoreRefs then c.restoreRefs[snapshotID] else {};
    c.(restoreRefs := c.restoreRefs[snapshotID := refs + {planID}])
  }

  predicate Refers(c: Catalog, planID: string, snapshotID: string) {
    snapshotID in c.restoreRefs && planID in c.restoreRefs[snapshotID]
  }

  function WithoutRef(c: Catalog, planID: string, snapshotID: string): Catalog {
    if !Refers(c, planID, snapshotID) then c
    else
      var refs := c.restoreRefs[snapshotID] - {planID};
      c.(restoreRefs := if refs == {} then c.restoreRefs - {snapshotID} else c.restoreRefs[snapshotID := refs])
  }

  /** A newest-first arrangement of all snapshot IDs; ties in creation time may fall either way. */
  ghost predicate NewestFirst(c: Catalog, order: seq<string>) {
    && Lists(order, c.snapshots.Keys)
    && forall i, j :: 0 <= i < j < |order| && order[i] in c.snapshots && order[j] in c.snapshots ==>
         c.snapshots[order[i]].createdAt >= c.snapshots[order[j]].createdAt
  }

  ghost function Unprotected(c: Catalog, keep: int, order: seq<string>): set<string> {
    set i | 0 <= i < |order| && i >= keep && !HasRef(c, order[i]) :: order[i]
  }

  function ExpiredAll(c: Catalog, ids: set<string>): Catalog {
    c.(snapshots := map id | id in c.snapshots :: if id in ids then c.snapshots[id].(state := Expired)
      else c.snapshots[id])
  }

  predicate Candidate(c: Catalog, beforeGeneration: nat, id: string) {
    id in c.snapshots && c.snapshots[id].full && c.snapshots[id].state == Verified &&
      c.snapshots[id].generation < beforeGeneration
  }

  /** `id` is a verified full snapshot of greatest generation below the given one. */
  ghost predicate IsLastVerifiedFull(c: Catalog, beforeGeneration: nat, id: string) {
    Candidate(c, beforeGeneration, id) &&
    forall j :: Candidate(c, beforeGeneration, j) ==> c.snapshots[j].generation <= c.snapshots[id].generation
  }

  predicate CreatedOrder(a: Snapshot, b: Snapshot) {
    a.createdAt >= b.createdAt
  }

  class Store {
    var snapshots: map<string, Snapshot>
    var staged: map<string, Chunks>
    var reservations: map<string, string>
    var restoreRefs: map<string, set<string>>
    const maxChunkCount: nat

    ghost function Contents(): Catalog
      reads this
    {
      Catalog(snapshots, staged, reservations, restoreRefs, maxChunkCount)
    }

    constructor (maxChunks: int)
      ensures Inv(Contents())
      ensures Contents() == Catalog(map[], map[], map[], map[], if maxChunks < 1 then 64 else maxChunks)
    {
      snapshots, staged, reservations, restoreRefs := map[], map[], map[], map[];
      maxChunkCount := if maxChunks < 1 then 64 else maxChunks;
    }

    method ReserveDigest(operation: string, digest: string) returns (ok: bool)
      modifies this`reservations
      ensures Contents() == Reserved(old(Contents()), operation, digest)
      ensures ok <==> CanReserve(old(Contents()), operation, digest)
    {
      if digest in reservations && reservations[digest] != operation {
        return false;
      }
      reservations := reservations[digest := operation];
      ok := true;
    }

    method StageChunk(operation: string, chunk: Chunk) returns (r: Result<()>)
      modifies this`staged
      ensures Contents() == StagedChunk(old(Contents()), operation, chunk)
      ensures r == StageError(old(Contents()), operation, chunk)
    {
      if operation !in staged {
        staged := staged[operation := map[]];
      }
      var chunks := staged[operation];
      if chunk.index !in chunks && |chunks| >= maxChunkCount {
        return Err(ErrCapacity);
      }
      if chunk.index in chunks && chunks[chunk.index].digest != chunk.digest {
        return Err(ErrConflict);
      }
      staged := staged[operation := chunks[chunk.index := chunk]];
      r := Ok(());
    }

    method ReleaseDigest(operation: string, digest: string)
      modifies this`reservations
      ensures Contents() == ReleasedDigest(old(Contents()), operation, digest)
    {
      if digest in reservations && reservations[digest] == operation {
        reservations := reservations - {digest};
      }
    }

    /** The loop that drops an operation's reservations, in map order. */
    method DropReservations(operation: string)
      modifies this`reservations
      ensures reservations == Unreserved(old(reservations), operation)
    {
      var pending := reservations.Keys;
      while pending != {}
        invariant pending <= reservations.Keys <= old(reservations).Keys
        invariant forall d :: d in reservations ==> reservations[d] == old(reservations)[d]
        invariant forall d :: d in old(reservations) && d !in pending ==>
          (d in reservations <==> old(reservations)[d] != operation)
        decreases pending
      {
        var digest :| digest in pending;
        pending := pending - {digest};
        if reservations[digest] == operation {
          reservations := reservations - {digest};
        }
      }
    }

    method ForgetOperation(operation: string)
      modifies this`staged, this`reservations
      ensures Contents() == Forgotten(old(Contents()), operation)
    {
      staged := staged - {operation};
      DropReservations(operation);
    }

    method OrderedChunks(chunks: Chunks) returns (r: seq<Chunk>)
      ensures r == Ordered(chunks)
    {
      var indexes := SortIndexes(chunks.Keys);
      ListsMembers(indexes, chunks.Keys);
      assert forall i :: 0 <= i < |indexes| ==> indexes[i] in indexes;
      r := CollectChunks(chunks, indexes);
    }

    method CollectChunks(chunks: Chunks, indexes: seq<int>) returns (r: seq<Chunk>)
      requires forall i :: 0 <= i < |indexes| ==> indexes[i] in chunks
      ensures r == ChunksAt(chunks, indexes)
    {
      r := [];
      for i := 0 to |indexes|
        invariant |r| == i && forall j :: 0 <= j < i ==> r[j] == chunks[indexes[j]]
      {
        r := r + [chunks[indexes[i]]];
      }
    }

    method SortIndexes(s: set<int>) returns (indexes: seq<int>)
      ensures indexes == SortedIndexes(s)
    {
      indexes := Enumerate(s);
      indexes := Sort(indexes, IntOrder);
      SortedIsUnique(indexes, SortedIndexes(s), IntOrder);
    }

    method CommitSnapshot(snapshot: Snapshot) returns (r: Result<()>)
      requires Inv(Contents())
      modifies this
      ensures Inv(Contents()) && Contents() == Committed(old(Contents()), snapshot)
      ensures r == CommitError(old(Contents()), snapshot)
    {
      if snapshot.id in snapshots {
        return Err(ErrConflict);
      }
      var chunks := if snapshot.operation in staged then staged[snapshot.operation] else map[];
      if |chunks| == 0 {
        return Err(ErrNotFound);
      }
      var ordered := OrderedChunks(chunks);
      snapshots := snapshots[snapshot.id := snapshot.(chunks := ordered, state := SnapshotState.Published)];
      staged := staged - {snapshot.operation};
      DropReservations(snapshot.operation);
      r := Ok(());
    }

    method SetState(id: string, generation: nat, state: SnapshotState) returns (r: Result<()>)
      requires Inv(Contents())
      modifies this`snapshots
      ensures Inv(Contents()) && Contents() == WithState(old(Contents()), id, generation, state)
      ensures r == SetStateError(old(Contents()), id, generation)
    {
      if id !in snapshots {
        return Err(ErrNotFound);
      }
      if snapshots[id].generation != generation {
        return Err(ErrConflict);
      }
      snapshots := snapshots[id := snapshots[id].(state := state)];
      r := Ok(());
    }

    method AddRestoreReference(planID: string, snapshotID: string)
      requires Inv(Contents())
      modifies this`restoreRefs
      ensures Inv(Contents()) && Contents() == WithRef(old(Contents()), planID, snapshotID)
    {
      var refs := if snapshotID in restoreRefs then restoreRefs[snapshotID] else {};
      restoreRefs := restoreRefs[snapshotID := refs + {planID}];
    }

    method RemoveRestoreReference(planID: string, snapshotID: string) returns (ok: bool)
      requires Inv(Contents())
      modifies this`restoreRefs
      ensures Inv(Contents()) && Contents() == WithoutRef(old(Contents()), planID, snapshotID)
      ensures ok <==> Refers(old(Contents()), planID, snapshotID)
    {
      if snapshotID !in restoreRefs || planID !in restoreRefs[snapshotID] {
        return false;
      }
      var refs := restoreRefs[snapshotID] - {planID};
      if refs == {} {
        restoreRefs := restoreRefs - {snapshotID};
      } else {
        restoreRefs := restoreRefs[snapshotID := refs];
      }
      ok := true;
    }

    /** Expires what lies beyond the `keep` newest and holds no restore reference. Which of several
        snapshots created at the same instant count as newer is left to the sort. */
    method ExpireUnprotected(keep: int) returns (expired: seq<string>, ghost order: seq<string>)
      requires Inv(Contents())
      modifies this`snapshots
      ensures Inv(Contents()) && NewestFirst(old(Contents()), order)
      ensures Contents() == ExpiredAll(old(Contents()), Unprotected(old(Contents()), keep, order))
      ensures SortedListing(expired, Unprotected(old(Contents()), keep, order))
    {
      var all := Values(snapshots);
      all := Sort(all, CreatedOrder);
      order := SortedOrder(Contents(), all);
      expired := ExpireBeyond(all, keep, order);
      expired := SortStrings(expired, Unprotected(old(Contents()), keep, order));
    }

    /** The marking loop of `ExpireUnprotected`. */
    method ExpireBeyond(all: seq<Snapshot>, keep: int, ghost order: seq<string>) returns (expired: seq<string>)
      requires Inv(Contents()) && NewestFirst(Contents(), order) && |order| == |all|
      requires forall i :: 0 <= i < |all| ==>
        order[i] == all[i].id && order[i] in snapshots && snapshots[order[i]] == all[i]
      modifies this`snapshots
      ensures Contents() == ExpiredAll(old(Contents()), Unprotected(old(Contents()), keep, order))
      ensures Lists(expired, Unprotected(old(Contents()), keep, order))
    {
      expired := [];
      ghost var c := Contents();
      ghost var ids := Unprotected(c, keep, order[..0]);
      assert snapshots == ExpiredAll(c, ids).snapshots;
      for index := 0 to |all|
        invariant ids == Unprotected(c, keep, order[..index])
        invariant snapshots == ExpiredAll(c, ids).snapshots
        invariant Lists(expired, ids)
      {
        var snapshot := all[index];
        UnprotectedStep(c, keep, order, index);
        if index < keep || (snapshot.id in restoreRefs && restoreRefs[snapshot.id] != {}) {
          continue;
        }
        ListsExtend(expired, ids, snapshot.id);
        ExpireOneMore(c, ids, snapshot.id);
        snapshots := snapshots[snapshot.id := snapshot.(state := Expired)];
        expired := expired + [snapshot.id];
        ids := ids + {snapshot.id};
      }
      assert order[..|all|] == order;
    }

    method LastVerifiedFull(beforeGeneration: nat) returns (found: bool, selected: string)
      ensures found <==> exists id :: Candidate(Contents(), beforeGeneration, id)
      ensures found ==> IsLastVerifiedFull(Contents(), beforeGeneration, selected)
    {
      found, selected := false, "";
      var pending := snapshots.Keys;
      while pending != {}
        invariant pending <= snapshots.Keys
        invariant found ==> Candidate(Contents(), beforeGeneration, selected)
        invariant forall id :: Candidate(Contents(), beforeGeneration, id) && id !in pending ==>
          found && snapshots[id].generation <= snapshots[selected].generation
        decreases pending
      {
        var id :| id in pending;
        pending := pending - {id};
        var snapshot := snapshots[id];
        if !snapshot.full || snapshot.state != Verified || snapshot.generation >= beforeGeneration {
          continue;
        }
        if !found || snapshot.generation > snapshots[selected].generation {
          found, selected := true, id;
        }
      }
    }
  }

  lemma UnprotectedStep(c: Catalog, keep: int, order: seq<string>, n: nat)
    requires NewestFirst(c, order) && n < |order|
    ensures order[n] !in Unprotected(c, keep, order[..n])
    ensures Unprotected(c, keep, order[..n + 1]) ==
            Unprotected(c, keep, order[..n]) + if n < keep || HasRef(c, order[n]) then {} else {order[n]}
  {
    forall i | 0 <= i < n ensures order[i] != order[n] {
      ListsDistinct(order, c.snapshots.Keys, i, n);
    }
    var before, after := Unprotected(c, keep, order[..n]), Unprotected(c, keep, order[..n + 1]);
    forall id | id in before ensures id in after {
      var i :| 0 <= i < n && i >= keep && !HasRef(c, order[..n][i]) && order[..n][i] == id;
      assert order[..n + 1][i] == id;
    }
    forall id | id in after && id != order[n] ensures id in before {
      var i :| 0 <= i < n + 1 && i >= keep && !HasRef(c, order[..n + 1][i]) && order[..n + 1][i] == id;
      assert order[..n][i] == id;
    }
    if n >= keep && !HasRef(c, order[n]) {
      assert order[..n + 1][n] == order[n];
    }
  }

  lemma ExpireOneMore(c: Catalog, ids: set<string>, id: string)
    requires id in c.snapshots
    ensures ExpiredAll(c, ids).snapshots[id := c.snapshots[id].(state := Expired)] ==
      ExpiredAll(c, ids + {id}).snapshots
  {
  }

  /** The IDs of a sorted listing of all snapshots. */
  lemma SortedOrder(c: Catalog, all: seq<Snapshot>) returns (order: seq<string>)
    requires Inv(c) && Lists(all, c.snapshots.Values) && Ascending(all, CreatedOrder)
    ensures |order| == |all| && forall i :: 0 <= i < |all| ==>
      order[i] == all[i].id && order[i] in c.snapshots && c.snapshots[order[i]] == all[i]
    ensures NewestFirst(c, order)
  {
    ListsMembers(all, c.snapshots.Values);
    order := seq(|all|, i requires 0 <= i < |all| => all[i].id);
    assert forall i :: 0 <= i < |all| ==> all[i] in c.snapshots.Values;
    SameListing(c, all, order, |all|);
    assert order[..|all|] == order;
    forall id ensures id in c.snapshots.Keys <==> id in order {
      if id in c.snapshots {
        assert c.snapshots[id] in c.snapshots.Values && c.snapshots[id] in all;
      }
    }
    assert Members(order) == c.snapshots.Keys;
  }

  lemma {:induction false} SameListing(c: Catalog, all: seq<Snapshot>, order: seq<string>, n: nat)
    requires Inv(c) && Lists(all, c.snapshots.Values) && |order| == |all| && n <= |all|
    requires forall i :: 0 <= i < |all| ==>
      order[i] == all[i].id && order[i] in c.snapshots && c.snapshots[order[i]] == all[i]
    ensures Lists(order[..n], Members(order[..n]))
  {
    if n > 0 {
      SameListing(c, all, order, n - 1);
      assert order[..n] == order[..n - 1] + [order[n - 1]];
      forall i | 0 <= i < n - 1 ensures order[i] != order[n - 1] {
        ListsDistinct(all, c.snapshots.Values, i, n - 1);
      }
      ListsExtend(order[..n - 1], Members(order[..n - 1]), order[n - 1]);
      assert Members(order[..n - 1]) + {order[n - 1]} == Members(order[..n]);
    }
  }
}
