/** replsnap/model.go and replsnap/store.go: snapshots and the in-memory store. */
module SnapshotStore {
  import opened Formats
  import opened Ordering

  datatype ChunkMeta = ChunkMeta(index: int, size: int, digest: string, final: bool)

  datatype Manifest = Manifest(snapshotID: string, chunks: seq<ChunkMeta>, merkleRoot: string)

  datatype SnapshotMeta = SnapshotMeta(id: string, baseID: string, createdAt: int)

  datatype Snapshot = Snapshot(meta: SnapshotMeta, manifest: Manifest, chunks: seq<Bytes>)

  type Snapshots = map<string, Snapshot>

  /** Every snapshot is filed under its own ID. */
  ghost predicate WellKeyed(m: Snapshots) {
    forall id :: id in m ==> m[id].meta.id == id
  }

  function MetaByID(m: Snapshots): map<string, SnapshotMeta> {
    map id | id in m :: m[id].meta
  }

  ghost function Metas(m: Snapshots): set<SnapshotMeta> {
    MetaByID(m).Values
  }

  /** The strict order in which snapshots count as newer: creation time, then ID. */
  predicate Newer(a: SnapshotMeta, b: SnapshotMeta) {
    a.createdAt > b.createdAt || (a.createdAt == b.createdAt && LexLess(b.id, a.id))
  }

  predicate NewestFirst(a: SnapshotMeta, b: SnapshotMeta) {
    !Newer(b, a)
  }

  predicate OldestFirst(a: SnapshotMeta, b: SnapshotMeta) {
    !Newer(a, b)
  }

  lemma NewerIsStrict(a: SnapshotMeta, b: SnapshotMeta)
    ensures !(Newer(a, b) && Newer(b, a))
    ensures !Newer(a, b) && !Newer(b, a) ==> a.createdAt == b.createdAt && a.id == b.id
  {
    LexTrichotomy(a.id, b.id);
  }

  lemma NewerTransitive(a: SnapshotMeta, b: SnapshotMeta, c: SnapshotMeta)
    requires NewestFirst(a, b) && NewestFirst(b, c)
    ensures NewestFirst(a, c)
    ensures Newer(a, b) || Newer(b, c) ==> Newer(a, c)
  {
    NewerIsStrict(a, b);
    NewerIsStrict(b, c);
    NewerIsStrict(a, c);
    if a.createdAt == b.createdAt == c.createdAt && a.id != b.id && b.id != c.id {
      LexTransitive(c.id, b.id, a.id);
    }
  }

  lemma MetaOrders()
    ensures TotalPreorder(NewestFirst) && TotalPreorder(OldestFirst)
  {
    forall a, b ensures NewestFirst(a, b) || NewestFirst(b, a) { NewerIsStrict(a, b); }
    forall a, b ensures OldestFirst(a, b) || OldestFirst(b, a) { NewerIsStrict(a, b); }
    forall a, b, c | NewestFirst(a, b) && NewestFirst(b, c) ensures NewestFirst(a, c) {
      NewerTransitive(a, b, c);
    }
    forall a, b, c | OldestFirst(a, b) && OldestFirst(b, c) ensures OldestFirst(a, c) {
      NewerTransitive(c, b, a);
    }
  }

  class MemoryStore {
    var snapshots: Snapshots

    ghost predicate Valid()
      reads this
    {
      WellKeyed(snapshots)
    }

    constructor ()
      ensures Valid() && snapshots == map[]
    {
      snapshots := map[];
    }

    method Save(snapshot: Snapshot)
      requires Valid()
      modifies this
      ensures Valid()
      ensures snapshots == old(snapshots)[snapshot.meta.id := snapshot]
    {
      snapshots := snapshots[snapshot.meta.id := snapshot];
    }

    method Delete(id: string)
      requires Valid()
      modifies this
      ensures Valid()
      ensures snapshots == old(snapshots) - {id}
    {
      snapshots := snapshots - {id};
    }

    /** All metadata, oldest first. The order is total, so the map iteration order does not show. */
    method List() returns (metas: seq<SnapshotMeta>)
      requires Valid()
      ensures Lists(metas, Metas(snapshots)) && Ascending(metas, OldestFirst)
      ensures forall i, j :: 0 <= i < j < |metas| ==>
                || metas[i].createdAt < metas[j].createdAt
                || (metas[i].createdAt == metas[j].createdAt && LexLeq(metas[i].id, metas[j].id))
    {
      metas := Values(MetaByID(snapshots));
      MetaOrders();
      metas := Sort(metas, OldestFirst);
    }
  }
}
