/** What `ApplyRetention` leaves of a store, and the laws pruning obeys. */
module Pruning {
  import opened Ordering
  import opened SnapshotStore
  import opened ChainRestore
  import opened Retention

  // ---------- the surviving snapshots, said without the algorithm ----------

  /** IDs of stored snapshots strictly newer than `x`. */
  ghost function NewerIDs(m: Snapshots, x: SnapshotMeta): set<string> {
    set id | id in m && Newer(m[id].meta, x)
  }

  ghost function Top(m: Snapshots, k: int): set<string> {
    set id | id in m && |NewerIDs(m, m[id].meta)| < k
  }

  /** `id` lies on the base chain of one of the `k` newest snapshots. */
  ghost predicate Needed(m: Snapshots, k: int, id: string) {
    exists a, n: nat :: a in Top(m, k) && Steps(m, a, id, n)
  }

  ghost function Pruned(m: Snapshots, k: int): Snapshots {
    map id | id in m && Needed(m, k, id) :: m[id]
  }

  /** Whoever was created later than one of the `k` newest, or at the same time with the greater ID, is
      one of them. */
  lemma TopIsNewest(m: Snapshots, k: int, a: string, b: string)
    requires WellKeyed(m) && a in Top(m, k) && b in m
    requires m[b].meta.createdAt > m[a].meta.createdAt
             || (m[b].meta.createdAt == m[a].meta.createdAt && LexLess(a, b))
    ensures b in Top(m, k)
  {
    assert b in NewerIDs(m, m[a].meta);
    NewerThanNewer(m, m[a].meta, b);
  }

  /** There are `k` of them, or all snapshots if there are fewer. Together with `TopIsNewest` this leaves
      one possible set. */
  lemma TopSize(m: Snapshots, k: nat)
    requires WellKeyed(m)
    ensures |Top(m, k)| == if k <= |m| then k else |m|
  {
    MetaOrders();
    var ordered := SortedSeq(Metas(m), NewestFirst);
    ListingHasDistinctIDs(m, ordered);
    ListingMatchesStore(m, ordered, k);
    FirstAreNewest(ordered, ordered, k);
    MetasSize(m, ordered);
    var n := if k <= |ordered| then k else |ordered|;
    FirstIDsSize(ordered, n);
    assert Top(m, k) == FirstIDs(ordered, n);
  }

  ghost function FirstIDs(metas: seq<SnapshotMeta>, n: nat): set<string> {
    set i | 0 <= i < |metas| && i < n :: metas[i].id
  }

  lemma {:induction false} FirstIDsSize(metas: seq<SnapshotMeta>, n: nat)
    requires DistinctIDs(metas) && n <= |metas|
    ensures |FirstIDs(metas, n)| == n
  {
    if n == 0 {
      assert FirstIDs(metas, 0) == {};
    } else {
      FirstIDsSize(metas, n - 1);
      FirstIDsStep(metas, n - 1);
    }
  }

  lemma FirstIDsStep(metas: seq<SnapshotMeta>, n: nat)
    requires DistinctIDs(metas) && n < |metas|
    ensures metas[n].id !in FirstIDs(metas, n)
    ensures FirstIDs(metas, n + 1) == FirstIDs(metas, n) + {metas[n].id}
  {
    forall id ensures id in FirstIDs(metas, n + 1) <==> id in FirstIDs(metas, n) || id == metas[n].id {
      if id in FirstIDs(metas, n + 1) {
        var i :| 0 <= i < |metas| && i < n + 1 && metas[i].id == id;
        assert i < n ==> id in FirstIDs(metas, n);
      }
    }
  }

  lemma MetasSize(m: Snapshots, metas: seq<SnapshotMeta>)
    requires WellKeyed(m) && Lists(metas, Metas(m))
    ensures |metas| == |m|
  {
    ListingHasDistinctIDs(m, metas);
    FirstIDsSize(metas, |metas|);
    assert FirstIDs(metas, |metas|) == m.Keys by {
      forall id | id in m ensures id in FirstIDs(metas, |metas|) {
        assert m[id].meta in metas;
      }
    }
  }

  lemma NeededIsClosed(m: Snapshots, k: int, id: string)
    requires Needed(m, k, id) && id in m && m[id].meta.baseID != ""
    ensures Needed(m, k, m[id].meta.baseID)
  {
    var a, n: nat :| a in Top(m, k) && Steps(m, a, id, n);
    StepsExtend(m, a, id, n);
  }

  lemma TopIsNeeded(m: Snapshots, k: int, id: string)
    requires id in Top(m, k)
    ensures Needed(m, k, id)
  {
    assert Steps(m, id, id, 0);
  }

  // ---------- the algorithm computes them ----------

  ghost predicate DistinctIDs(metas: seq<SnapshotMeta>) {
    forall i, j :: 0 <= i < j < |metas| ==> metas[i].id != metas[j].id
  }

  lemma ListingHasDistinctIDs(m: Snapshots, metas: seq<SnapshotMeta>)
    requires WellKeyed(m) && Lists(metas, Metas(m))
    ensures DistinctIDs(metas)
    ensures forall i :: 0 <= i < |metas| ==> metas[i].id in m && m[metas[i].id].meta == metas[i]
    ensures forall id :: id in m ==> m[id].meta in metas
  {
    ListsMembers(metas, Metas(m));
    forall i | 0 <= i < |metas| ensures metas[i].id in m && m[metas[i].id].meta == metas[i] {
      assert metas[i] in MetaByID(m).Values;
    }
    forall id | id in m ensures m[id].meta in metas {
      assert MetaByID(m)[id] in MetaByID(m).Values;
    }
    forall i, j | 0 <= i < j < |metas| ensures metas[i].id != metas[j].id {
      ListsDistinct(metas, Metas(m), i, j);
    }
  }

  ghost function NewerListed(metas: seq<SnapshotMeta>, x: SnapshotMeta): set<string> {
    set m | m in metas && Newer(m, x) :: m.id
  }

  lemma {:induction false} CountIsCardinality(metas: seq<SnapshotMeta>, x: SnapshotMeta)
    requires DistinctIDs(metas)
    ensures CountNewer(metas, x) == |NewerListed(metas, x)|
  {
    if metas == [] {
      assert NewerListed(metas, x) == {};
    } else {
      var n := |metas| - 1;
      var rest, last := metas[..n], metas[n];
      CountIsCardinality(rest, x);
      assert forall m :: m in metas <==> m in rest || m == last;
      if Newer(last, x) {
        assert NewerListed(metas, x) == NewerListed(rest, x) + {last.id};
        assert last.id !in NewerListed(rest, x);
      } else {
        assert NewerListed(metas, x) == NewerListed(rest, x);
      }
    }
  }

  lemma {:induction false} ByIDLooksUp(metas: seq<SnapshotMeta>)
    requires DistinctIDs(metas)
    ensures forall i :: 0 <= i < |metas| ==> metas[i].id in ByID(metas) && ByID(metas)[metas[i].id] == metas[i]
    ensures forall id :: id in ByID(metas) ==> exists i :: 0 <= i < |metas| && metas[i].id == id
  {
    if metas != [] {
      ByIDLooksUp(metas[..|metas| - 1]);
    }
  }

  lemma ListingCounts(m: Snapshots, metas: seq<SnapshotMeta>, x: SnapshotMeta)
    requires WellKeyed(m) && Lists(metas, Metas(m))
    ensures CountNewer(metas, x) == |NewerIDs(m, x)|
  {
    ListingHasDistinctIDs(m, metas);
    CountIsCardinality(metas, x);
    assert NewerListed(metas, x) == NewerIDs(m, x);
  }

  lemma ListingMatchesStore(m: Snapshots, metas: seq<SnapshotMeta>, k: int)
    requires WellKeyed(m) && Lists(metas, Metas(m))
    ensures ByID(metas) == MetaByID(m)
    ensures NewestIDs(metas, k) == Top(m, k)
  {
    ListingHasDistinctIDs(m, metas);
    assert ByID(metas) == MetaByID(m) by {
      ByIDLooksUp(metas);
    }
    forall x ensures CountNewer(metas, x) == |NewerIDs(m, x)| {
      ListingCounts(m, metas, x);
    }
    assert forall id :: id in Top(m, k) ==> m[id].meta in metas;
  }

  lemma {:induction false} ClosedContainsSteps(m: Snapshots, ids: set<string>, a: string, b: string, n: nat)
    requires Closed(MetaByID(m), ids) && a in ids && Steps(m, a, b, n)
    ensures b in ids
    decreases n
  {
    if n > 0 {
      assert Deps(MetaByID(m), a) <= ids;
      ClosedContainsSteps(m, ids, m[a].meta.baseID, b, n - 1);
    }
  }

  /** The least closed set around the `k` newest is the set of needed IDs. */
  lemma LeastClosedIsNeeded(m: Snapshots, k: int, retained: set<string>)
    requires LeastClosed(MetaByID(m), Top(m, k), retained)
    ensures forall id :: id in retained <==> Needed(m, k, id)
  {
    var needed := set id | id in retained && Needed(m, k, id);
    forall id | Needed(m, k, id) ensures id in retained {
      var a, n: nat :| a in Top(m, k) && Steps(m, a, id, n);
      ClosedContainsSteps(m, retained, a, id, n);
    }
    forall id | id in needed ensures Deps(MetaByID(m), id) <= needed {
      if Deps(MetaByID(m), id) != {} {
        NeededIsClosed(m, k, id);
      }
    }
    forall id | id in Top(m, k) ensures id in needed {
      TopIsNeeded(m, k, id);
    }
    assert Closed(MetaByID(m), needed);
  }

  ghost function Unretained(metadata: seq<SnapshotMeta>, retained: set<string>): set<string> {
    set meta | meta in metadata && meta.id !in retained :: meta.id
  }

  lemma UnretainedStep(metadata: seq<SnapshotMeta>, retained: set<string>, i: nat)
    requires i < |metadata| && DistinctIDs(metadata)
    ensures metadata[i].id !in Unretained(metadata[..i], retained)
    ensures Unretained(metadata[..i + 1], retained) ==
      Unretained(metadata[..i], retained) + ({metadata[i].id} - retained)
  {
    assert metadata[..i + 1] == metadata[..i] + [metadata[i]];
  }

  lemma MinusOneMore(m: Snapshots, gone: set<string>, id: string)
    ensures (m - gone) - {id} == m - (gone + {id})
  {
  }

  /** The deletion loop of `ApplyRetention`. */
  method DeleteUnretained(store: MemoryStore, metadata: seq<SnapshotMeta>, retained: set<string>)
    returns (removed: seq<string>)
    requires store.Valid() && DistinctIDs(metadata)
    modifies store
    ensures store.Valid()
    ensures store.snapshots == old(store.snapshots) - Unretained(metadata, retained)
    ensures Lists(removed, Unretained(metadata, retained))
  {
    removed := [];
    ghost var gone := Unretained(metadata[..0], retained);
    for i := 0 to |metadata|
      invariant gone == Unretained(metadata[..i], retained)
      invariant store.Valid()
      invariant store.snapshots == old(store.snapshots) - gone
      invariant Lists(removed, gone)
    {
      UnretainedStep(metadata, retained, i);
      var id := metadata[i].id;
      if id !in retained {
        store.Delete(id);
        MinusOneMore(old(store.snapshots), gone, id);
        ListsExtend(removed, gone, id);
        removed := removed + [id];
        gone := gone + {id};
      }
    }
    assert metadata[..|metadata|] == metadata;
  }

  lemma UnretainedAreOthers(m: Snapshots, metadata: seq<SnapshotMeta>, retained: set<string>)
    requires WellKeyed(m) && Lists(metadata, Metas(m))
    ensures Unretained(metadata, retained) == m.Keys - retained
  {
    ListingHasDistinctIDs(m, metadata);
    forall id | id in m && id !in retained ensures id in Unretained(metadata, retained) {
      assert m[id].meta in metadata && m[id].meta.id == id;
    }
  }

  lemma UnretainedIsPruned(m: Snapshots, metadata: seq<SnapshotMeta>, k: int, retained: set<string>)
    requires WellKeyed(m) && Lists(metadata, Metas(m))
    requires LeastClosed(ByID(metadata), NewestIDs(metadata, k), retained)
    ensures m - Unretained(metadata, retained) == Pruned(m, k)
    ensures Unretained(metadata, retained) == m.Keys - Pruned(m, k).Keys
  {
    UnretainedAreOthers(m, metadata, retained);
    assert forall id :: id in retained <==> Needed(m, k, id) by {
      ListingMatchesStore(m, metadata, k);
      LeastClosedIsNeeded(m, k, retained);
    }
  }

  method ApplyRetention(store: MemoryStore, keepNewest: int) returns (removed: seq<string>)
    requires store.Valid()
    modifies store
    ensures store.Valid()
    ensures store.snapshots == Pruned(old(store.snapshots), keepNewest)
    ensures SortedListing(removed, old(store.snapshots).Keys - store.snapshots.Keys)
  {
    var metadata := store.List();
    var retained := RetainedIDs(metadata, keepNewest);
    ListingHasDistinctIDs(store.snapshots, metadata);
    UnretainedIsPruned(store.snapshots, metadata, keepNewest, retained);
    removed := DeleteUnretained(store, metadata, retained);
    removed := SortStrings(removed, Unretained(metadata, retained));
  }

  // ---------- pruning preserves restorability ----------

  /** `p` is part of `m` and keeps every stored base of what it keeps. */
  ghost predicate ClosedPart(p: Snapshots, m: Snapshots) {
    && (forall id :: id in p ==> id in m && p[id] == m[id])
    && (forall id :: id in p && m[id].meta.baseID != "" && m[id].meta.baseID in m ==> m[id].meta.baseID in p)
  }

  lemma PrunedIsClosedPart(m: Snapshots, k: int)
    ensures ClosedPart(Pruned(m, k), m)
    ensures Top(m, k) <= Pruned(m, k).Keys
  {
    var p := Pruned(m, k);
    forall id | id in p && m[id].meta.baseID != "" && m[id].meta.baseID in m ensures m[id].meta.baseID in p {
      NeededIsClosed(m, k, id);
    }
    forall id | id in Top(m, k) ensures id in p {
      TopIsNeeded(m, k, id);
    }
  }

  lemma {:induction false} WalkInPart(p: Snapshots, m: Snapshots, id: string, visited: set<string>)
    requires ClosedPart(p, m) && (id != "" && id in m ==> id in p)
    ensures Walk(p, id, visited) == Walk(m, id, visited)
    decreases m.Keys - visited
  {
    if id != "" && id !in visited && id in m {
      WalkInPart(p, m, m[id].meta.baseID, visited + {id});
    }
  }

  /** Every surviving snapshot resolves after pruning exactly as before: same chain and bytes,
      or the same error. */
  lemma PruningPreservesRestore(m: Snapshots, k: int, id: string)
    requires id in Pruned(m, k)
    ensures Resolve(Pruned(m, k), id) == Resolve(m, id)
  {
    PrunedIsClosedPart(m, k);
    WalkInPart(Pruned(m, k), m, id, {});
  }

  // ---------- pruning composes ----------

  function Min(a: int, b: int): int {
    if a <= b then a else b
  }

  lemma NewerThanNewer(m: Snapshots, x: SnapshotMeta, y: string)
    requires y in NewerIDs(m, x)
    ensures NewerIDs(m, m[y].meta) < NewerIDs(m, x)
    ensures |NewerIDs(m, m[y].meta)| < |NewerIDs(m, x)|
  {
    var inner, outer := NewerIDs(m, m[y].meta), NewerIDs(m, x);
    NewerIsStrict(m[y].meta, m[y].meta);
    assert y !in inner;
    forall z | z in inner ensures z in outer {
      NewerIsStrict(m[z].meta, m[y].meta);
      NewerIsStrict(m[y].meta, x);
      NewerTransitive(m[z].meta, m[y].meta, x);
    }
    SmallerSubset(inner, outer, y);
  }

  lemma SmallerSubset(a: set<string>, b: set<string>, y: string)
    requires a <= b && y in b && y !in a
    ensures |a| < |b|
  {
    SubsetSize(a, b - {y});
  }

  /** Whoever has at least `k` newer snapshots has at least `k` newer ones among the `k` newest. */
  lemma {:induction false} ManyNewerInTop(m: Snapshots, x: SnapshotMeta, k: int)
    requires |NewerIDs(m, x)| >= k
    ensures |NewerIDs(m, x) * Top(m, k)| >= k
    decreases |NewerIDs(m, x)|
  {
    var newer := NewerIDs(m, x);
    if y :| y in newer && |NewerIDs(m, m[y].meta)| >= k {
      NewerThanNewer(m, x, y);
      ManyNewerInTop(m, m[y].meta, k);
      SubsetSize(NewerIDs(m, m[y].meta) * Top(m, k), newer * Top(m, k));
    } else {
      assert newer * Top(m, k) == newer;
    }
  }

  lemma RankInPart(p: Snapshots, m: Snapshots, id: string)
    requires ClosedPart(p, m) && id in p
    ensures NewerIDs(p, p[id].meta) <= NewerIDs(m, m[id].meta)
    ensures |NewerIDs(p, p[id].meta)| <= |NewerIDs(m, m[id].meta)|
  {
    SubsetSize(NewerIDs(p, p[id].meta), NewerIDs(m, m[id].meta));
  }

  /** Pruning to `a` does not change who the `b <= a` newest are. */
  lemma TopOfPruned(m: Snapshots, a: int, b: int)
    requires b <= a
    ensures Top(Pruned(m, a), b) == Top(m, b)
  {
    var p := Pruned(m, a);
    PrunedIsClosedPart(m, a);
    forall id | id in Top(m, b) ensures id in Top(p, b) {
      assert id in Top(m, a);
      RankInPart(p, m, id);
    }
    forall id | id in Top(p, b) ensures id in Top(m, b) {
      var all, kept := NewerIDs(m, m[id].meta), NewerIDs(p, p[id].meta);
      if |all| >= a {
        ManyNewerInTop(m, m[id].meta, a);
        SubsetSize(all * Top(m, a), kept);
        assert false;
      } else {
        forall y | y in all ensures y in kept {
          NewerThanNewer(m, m[id].meta, y);
          assert y in Top(m, a);
        }
        SubsetSize(all, kept);
      }
    }
  }

  lemma {:induction false} StepsInPart(p: Snapshots, m: Snapshots, a: string, b: string, n: nat)
    requires ClosedPart(p, m) && (a in m ==> a in p)
    ensures Steps(p, a, b, n) <==> Steps(m, a, b, n)
    decreases n
  {
    if n > 0 && a in p && m[a].meta.baseID != "" {
      StepsInPart(p, m, m[a].meta.baseID, b, n - 1);
    }
  }

  lemma NeededInPart(p: Snapshots, m: Snapshots, k: int, id: string)
    requires ClosedPart(p, m) && Top(p, k) == Top(m, k) <= p.Keys
    ensures Needed(p, k, id) <==> Needed(m, k, id)
  {
    forall a, n: nat | a in Top(m, k) ensures Steps(p, a, id, n) <==> Steps(m, a, id, n) {
      StepsInPart(p, m, a, id, n);
    }
  }

  lemma NeededGrows(m: Snapshots, a: int, b: int, id: string)
    requires b <= a && Needed(m, b, id)
    ensures Needed(m, a, id)
  {
    var t, n: nat :| t in Top(m, b) && Steps(m, t, id, n);
    assert t in Top(m, a);
  }

  lemma NeededAfterPruning(m: Snapshots, a: int, b: int, id: string)
    requires b <= a
    ensures id in Pruned(m, a) && Needed(Pruned(m, a), b, id) <==> id in m && Needed(m, b, id)
  {
    PrunedIsClosedPart(m, a);
    TopOfPruned(m, a, b);
    assert Top(m, b) <= Top(m, a);
    NeededInPart(Pruned(m, a), m, b, id);
    if Needed(m, b, id) {
      NeededGrows(m, a, b, id);
    }
  }

  lemma PruneThenKeepFewer(m: Snapshots, a: int, b: int)
    requires b <= a
    ensures Pruned(Pruned(m, a), b) == Pruned(m, b)
  {
    forall id ensures id in Pruned(Pruned(m, a), b) <==> id in Pruned(m, b) {
      NeededAfterPruning(m, a, b, id);
    }
  }

  lemma StillNeeded(m: Snapshots, a: int, b: int, id: string)
    requires a <= b && id in Pruned(m, a)
    ensures Needed(Pruned(m, a), b, id)
  {
    var p := Pruned(m, a);
    var t, n: nat :| t in Top(m, a) && Steps(m, t, id, n);
    PrunedIsClosedPart(m, a);
    RankInPart(p, m, t);
    StepsInPart(p, m, t, id, n);
    assert t in Top(p, b);
  }

  lemma PruneThenKeepMore(m: Snapshots, a: int, b: int)
    requires a <= b
    ensures Pruned(Pruned(m, a), b) == Pruned(m, a)
  {
    forall id ensures id in Pruned(Pruned(m, a), b) <==> id in Pruned(m, a) {
      if id in Pruned(m, a) {
        StillNeeded(m, a, b, id);
      }
    }
  }

  /** Two prunings leave what one pruning to the smaller count leaves; in particular pruning is
      idempotent and the order of two prunings does not matter. Negative counts act as zero. */
  lemma PruningComposes(m: Snapshots, a: int, b: int)
    ensures Pruned(Pruned(m, a), b) == Pruned(m, Min(a, b))
    ensures Pruned(Pruned(m, a), b) == Pruned(Pruned(m, b), a)
    ensures a <= 0 ==> Pruned(m, a) == map[]
  {
    if b <= a {
      PruneThenKeepFewer(m, a, b);
      PruneThenKeepMore(m, b, a);
    } else {
      PruneThenKeepMore(m, a, b);
      PruneThenKeepFewer(m, b, a);
    }
  }
}
