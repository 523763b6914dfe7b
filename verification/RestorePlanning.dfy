/** replsnap/availability.go, planner.go and `PlanRestore` of service.go: choosing what to restore. */
module RestorePlanning {
  import opened Ordering
  import opened SnapshotStore
  import opened ChainRestore
  import opened Pruning

  datatype PlanResult =
    | Plan(snapshotID: string, copies: int, chain: seq<string>)
    | NoRecoveryPoint
    | Unresolved(cause: Resolution)

  // ---------- how many replicas hold a snapshot ----------

  /** Number of inventories that list `id`; an inventory counts once, the empty ID never. */
  function CopiesOf(inventories: seq<seq<string>>, id: string): nat {
    if inventories == [] then 0
    else CopiesOf(inventories[..|inventories| - 1], id)
         + (if id != "" && id in inventories[|inventories| - 1] then 1 else 0)
  }

  function Lookup(counts: map<string, int>, id: string): int {
    if id in counts then counts[id] else 0
  }

  method CountAvailability(inventories: seq<seq<string>>) returns (counts: map<string, int>)
    ensures forall id :: Lookup(counts, id) == CopiesOf(inventories, id)
  {
    counts := map[];
    for i := 0 to |inventories|
      invariant forall id :: Lookup(counts, id) == CopiesOf(inventories[..i], id)
    {
      var ids := inventories[i];
      var seen: set<string> := {};
      ghost var before := counts;
      for j := 0 to |ids|
        invariant forall id :: id in seen <==> id != "" && id in ids[..j]
        invariant forall id :: Lookup(counts, id) == Lookup(before, id) + (if id in seen then 1 else 0)
      {
        var id := ids[j];
        assert ids[..j + 1] == ids[..j] + [id];
        if id != "" && id !in seen {
          seen := seen + {id};
          counts := counts[id := Lookup(counts, id) + 1];
        }
      }
      assert ids[..|ids|] == ids;
      assert inventories[..i + 1][..i] == inventories[..i];
    }
    assert inventories[..|inventories|] == inventories;
  }

  // ---------- the newest eligible snapshot ----------

  /** `RecoveryPolicy.Eligible`: a minimum below one counts as one. */
  predicate Eligible(copies: int, minimum: int) {
    copies >= (if minimum < 1 then 1 else minimum)
  }

  method ChooseLatestAvailable(metadata: seq<SnapshotMeta>, copies: map<string, int>, minimum: int)
    returns (found: bool, selected: SnapshotMeta, count: int)
    ensures found <==> exists m :: m in metadata && Eligible(Lookup(copies, m.id), minimum)
    ensures found ==>
              && selected in metadata && Eligible(Lookup(copies, selected.id), minimum)
              && count == Lookup(copies, selected.id)
    ensures found ==> forall m :: m in metadata && Eligible(Lookup(copies, m.id), minimum) ==>
              || m.createdAt < selected.createdAt
              || (m.createdAt == selected.createdAt && LexLeq(m.id, selected.id))
  {
    var candidates: seq<SnapshotMeta> := [];
    for i := 0 to |metadata|
      invariant forall m :: m in candidates <==> m in metadata[..i] && Eligible(Lookup(copies, m.id), minimum)
    {
      assert metadata[..i + 1] == metadata[..i] + [metadata[i]];
      if Eligible(Lookup(copies, metadata[i].id), minimum) {
        candidates := candidates + [metadata[i]];
      }
    }
    assert metadata[..|metadata|] == metadata;
    if |candidates| == 0 {
      return false, SnapshotMeta("", "", 0), 0;
    }
    MetaOrders();
    var sorted := Sort(candidates, NewestFirst);
    found, selected := true, sorted[0];
    count := Lookup(copies, selected.id);
    forall m ensures m in sorted <==> m in candidates {
      MemberOfPermutation(sorted, candidates, m);
    }
    assert sorted[0] in sorted && sorted[0] in candidates;
    NewerIsStrict(selected, selected);
  }

  // ---------- the plan ----------

  /** Held by enough replicas, and no stored snapshot held by enough replicas is newer. */
  ghost predicate Selected(m: Snapshots, inventories: seq<seq<string>>, minimum: int, id: string) {
    && id in m && Eligible(CopiesOf(inventories, id), minimum)
    && forall j :: j in m && Eligible(CopiesOf(inventories, j), minimum) ==> !Newer(m[j].meta, m[id].meta)
  }

  function IDsOf(chain: seq<Snapshot>): seq<string> {
    seq(|chain|, i requires 0 <= i < |chain| => chain[i].meta.id)
  }

  /** The plan for a selected snapshot. */
  function PlanOf(m: Snapshots, inventories: seq<seq<string>>, id: string): PlanResult {
    match Resolve(m, id)
    case Chain(chain) => Plan(id, CopiesOf(inventories, id), IDsOf(chain))
    case NotFound(missing) => Unresolved(NotFound(missing))
    case DependencyCycle => Unresolved(DependencyCycle)
  }

  lemma SelectedIsUnique(m: Snapshots, inventories: seq<seq<string>>, minimum: int, a: string, b: string)
    requires WellKeyed(m) && Selected(m, inventories, minimum, a) && Selected(m, inventories, minimum, b)
    ensures a == b
  {
    NewerIsStrict(m[a].meta, m[b].meta);
  }

  /** The number of copies is the number of inventories that list the ID. */
  lemma {:induction false} CopiesAreInventories(inventories: seq<seq<string>>, id: string)
    requires id != ""
    ensures CopiesOf(inventories, id) == |ListedIn(inventories, id)|
  {
    if inventories == [] {
      assert ListedIn(inventories, id) == {};
    } else {
      var n := |inventories| - 1;
      CopiesAreInventories(inventories[..n], id);
      ListedInStep(inventories, id);
    }
  }

  ghost function ListedIn(inventories: seq<seq<string>>, id: string): set<int> {
    set i | 0 <= i < |inventories| && id in inventories[i]
  }

  lemma ListedInStep(inventories: seq<seq<string>>, id: string)
    requires inventories != []
    ensures var n := |inventories| - 1;
      && n !in ListedIn(inventories[..n], id)
      && ListedIn(inventories, id) == ListedIn(inventories[..n], id) + if id in inventories[n] then {n} else {}
  {
  }

  /** The selected snapshot has enough copies, and every other stored snapshot that has was created
      earlier, or at the same time with a smaller ID. */
  lemma SelectedIsLatest(m: Snapshots, inventories: seq<seq<string>>, minimum: int, id: string, other: string)
    requires WellKeyed(m) && Selected(m, inventories, minimum, id)
    ensures CopiesOf(inventories, id) >= 1 && CopiesOf(inventories, id) >= minimum
    ensures other in m && other != id && CopiesOf(inventories, other) >= 1
            && CopiesOf(inventories, other) >= minimum ==>
              || m[other].meta.createdAt < m[id].meta.createdAt
              || (m[other].meta.createdAt == m[id].meta.createdAt && LexLess(other, id))
  {
    if other in m {
      NewerIsStrict(m[other].meta, m[id].meta);
      LexTrichotomy(other, id);
    }
  }

  method PlanRestore(store: MemoryStore, inventories: seq<seq<string>>, minimum: int) returns (r: PlanResult)
    requires store.Valid()
    ensures r.NoRecoveryPoint? <==> forall id :: id in store.snapshots ==> !Eligible(CopiesOf(inventories, id), minimum)
    ensures !r.NoRecoveryPoint? ==>
              exists id :: Selected(store.snapshots, inventories, minimum, id) &&
                r == PlanOf(store.snapshots, inventories, id)
  {
    var counts := CountAvailability(inventories);
    var metadata := store.List();
    ListingHasDistinctIDs(store.snapshots, metadata);
    var found, selected, count := ChooseLatestAvailable(metadata, counts, minimum);
    if !found {
      assert forall id :: id in store.snapshots ==> store.snapshots[id].meta in metadata;
      return NoRecoveryPoint;
    }
    var id := selected.id;
    assert Selected(store.snapshots, inventories, minimum, id) by {
      forall j | j in store.snapshots && Eligible(CopiesOf(inventories, j), minimum)
        ensures !Newer(store.snapshots[j].meta, store.snapshots[id].meta)
      {
        assert store.snapshots[j].meta in metadata && store.snapshots[j].meta.id == j;
      }
    }
    var resolved := ResolveChain(store, id);
    if !resolved.Chain? {
      return Unresolved(resolved);
    }
    var chain := resolved.chain;
    var ids: seq<string> := [];
    for i := 0 to |chain|
      invariant ids == IDsOf(chain)[..i]
    {
      ids := ids + [chain[i].meta.id];
    }
    r := Plan(id, count, ids);
  }

  /** Pruning leaves the plan as it was whenever the selected snapshot survives. */
  lemma PruningPreservesPlan(m: Snapshots, inventories: seq<seq<string>>, minimum: int, k: int, id: string)
    requires Selected(m, inventories, minimum, id) && id in Pruned(m, k)
    ensures Selected(Pruned(m, k), inventories, minimum, id)
    ensures PlanOf(Pruned(m, k), inventories, id) == PlanOf(m, inventories, id)
  {
    PruningPreservesRestore(m, k, id);
  }
}
