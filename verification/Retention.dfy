/** replsnap/retention.go: which snapshots pruning keeps, and what pruning does to the store. */
module Retention {
  import opened Ordering
  import opened SnapshotStore

  // ---------- the k newest, by rank ----------

  /** How many entries of the list are strictly newer than `m`, counted with repetitions. */
  function CountNewer(metas: seq<SnapshotMeta>, m: SnapshotMeta): nat {
    if metas == [] then 0
    else CountNewer(metas[..|metas| - 1], m) + (if Newer(metas[|metas| - 1], m) then 1 else 0)
  }

  /** IDs with fewer than `k` strictly newer entries. */
  ghost function NewestIDs(metas: seq<SnapshotMeta>, k: int): set<string> {
    set m | m in metas && CountNewer(metas, m) < k :: m.id
  }

  lemma {:induction false} CountNewerConcat(a: seq<SnapshotMeta>, b: seq<SnapshotMeta>, m: SnapshotMeta)
    ensures CountNewer(a + b, m) == CountNewer(a, m) + CountNewer(b, m)
  {
    if b == [] {
      assert a + b == a;
    } else {
      CountNewerConcat(a, b[..|b| - 1], m);
      assert (a + b)[..|a + b| - 1] == a + b[..|b| - 1];
    }
  }

  lemma CountNewerWithout(b: seq<SnapshotMeta>, j: nat, m: SnapshotMeta)
    requires j < |b|
    ensures CountNewer(b, m) == CountNewer(b[..j] + b[j + 1..], m) + (if Newer(b[j], m) then 1 else 0)
  {
    assert b == (b[..j] + [b[j]]) + b[j + 1..];
    CountNewerConcat(b[..j] + [b[j]], b[j + 1..], m);
    assert (b[..j] + [b[j]])[..j] == b[..j];
    CountNewerConcat(b[..j], b[j + 1..], m);
  }

  lemma MultisetWithout(b: seq<SnapshotMeta>, j: nat)
    requires j < |b|
    ensures multiset(b[..j] + b[j + 1..]) == multiset(b) - multiset{b[j]}
  {
    assert b == b[..j] + ([b[j]] + b[j + 1..]);
  }

  lemma {:induction false} CountNewerPermutation(a: seq<SnapshotMeta>, b: seq<SnapshotMeta>, m: SnapshotMeta)
    requires multiset(a) == multiset(b)
    ensures CountNewer(a, m) == CountNewer(b, m)
    decreases |a|
  {
    if a == [] {
      assert |multiset(b)| == |b|;
    } else {
      var n := |a| - 1;
      MemberOfPermutation(a, b, a[n]);
      var j :| 0 <= j < |b| && b[j] == a[n];
      MultisetWithout(a, n);
      MultisetWithout(b, j);
      assert a[..n] + a[n + 1..] == a[..n];
      CountNewerPermutation(a[..n], b[..j] + b[j + 1..], m);
      CountNewerWithout(b, j, m);
    }
  }

  /** In a newest-first list the entries newer than `m` are exactly the first ones. */
  lemma {:induction false} NewerArePrefix(ordered: seq<SnapshotMeta>, m: SnapshotMeta)
    requires Ascending(ordered, NewestFirst)
    ensures CountNewer(ordered, m) <= |ordered|
    ensures forall i :: 0 <= i < |ordered| ==> (Newer(ordered[i], m) <==> i < CountNewer(ordered, m))
  {
    if ordered != [] {
      var n := |ordered| - 1;
      NewerArePrefix(ordered[..n], m);
      if Newer(ordered[n], m) {
        forall i | 0 <= i < n ensures Newer(ordered[i], m) {
          NewerIsStrict(ordered[n], m);
          NewerTransitive(ordered[i], ordered[n], m);
        }
      }
    }
  }

  /** Taking the first `k` of a newest-first permutation takes exactly the `k` newest IDs. */
  lemma FirstAreNewest(metas: seq<SnapshotMeta>, ordered: seq<SnapshotMeta>, k: nat)
    requires multiset(ordered) == multiset(metas) && Ascending(ordered, NewestFirst)
    ensures (set i | 0 <= i < |ordered| && i < k :: ordered[i].id) == NewestIDs(metas, k)
  {
    var first := set i | 0 <= i < |ordered| && i < k :: ordered[i].id;
    forall id | id in first ensures id in NewestIDs(metas, k) {
      var i :| 0 <= i < |ordered| && i < k && ordered[i].id == id;
      var m := ordered[i];
      MemberOfPermutation(ordered, metas, m);
      CountNewerPermutation(ordered, metas, m);
      NewerArePrefix(ordered, m);
      NewerIsStrict(m, m);
    }
    forall id | id in NewestIDs(metas, k) ensures id in first {
      var m :| m in metas && CountNewer(metas, m) < k && m.id == id;
      MemberOfPermutation(ordered, metas, m);
      CountNewerPermutation(ordered, metas, m);
      var c := CountNewer(ordered, m);
      NewerArePrefix(ordered, m);
      var p :| 0 <= p < |ordered| && ordered[p] == m;
      NewerIsStrict(m, m);
      assert c <= p;
      NewerIsStrict(ordered[c], m);
      assert ordered[c].id == m.id;
    }
  }

  // ---------- closure under base dependency ----------

  /** The lookup table: the last entry of an ID wins. */
  function ByID(metas: seq<SnapshotMeta>): map<string, SnapshotMeta> {
    if metas == [] then map[]
    else ByID(metas[..|metas| - 1])[metas[|metas| - 1].id := metas[|metas| - 1]]
  }

  /** `Dependencies()` of the entry of `id`, absent entries having none. */
  function Deps(byID: map<string, SnapshotMeta>, id: string): set<string> {
    if id in byID && byID[id].baseID != "" then {byID[id].baseID} else {}
  }

  ghost predicate Closed(byID: map<string, SnapshotMeta>, ids: set<string>) {
    forall id :: id in ids ==> Deps(byID, id) <= ids
  }

  ghost predicate LeastClosed(byID: map<string, SnapshotMeta>, seed: set<string>, ids: set<string>) {
    && seed <= ids && Closed(byID, ids)
    && forall other: set<string> :: seed <= other && Closed(byID, other) ==> ids <= other
  }

  lemma LeastClosedIsUnique(byID: map<string, SnapshotMeta>, seed: set<string>, a: set<string>, b: set<string>)
    requires LeastClosed(byID, seed, a) && LeastClosed(byID, seed, b)
    ensures a == b
  {
  }

  ghost predicate BelowEveryClosed(byID: map<string, SnapshotMeta>, seed: set<string>, ids: set<string>) {
    forall other: set<string> :: seed <= other && Closed(byID, other) ==> ids <= other
  }

  /** One `for id := range retained` pass. The keys present at the start are visited in any order;
      a key added during the pass may or may not be visited, as the language leaves it open. */
  method Pass(byID: map<string, SnapshotMeta>, start: set<string>, ghost seed: set<string>)
    returns (retained: set<string>, changed: bool)
    requires seed <= start && BelowEveryClosed(byID, seed, start)
    ensures start <= retained && BelowEveryClosed(byID, seed, retained)
    ensures changed ==> GainsBase(byID, start, retained)
    ensures retained <= start + Bases(byID)
    ensures !changed ==> retained == start && Closed(byID, start)
  {
    retained, changed := start, false;
    var pending := start;
    while pending != {}
      invariant start <= retained <= start + Bases(byID) && pending <= retained
      invariant BelowEveryClosed(byID, seed, retained)
      invariant changed ==> GainsBase(byID, start, retained)
      invariant !changed ==> retained == start && Visited(byID, start, pending)
      decreases Bases(byID) - retained, pending
    {
      var id :| id in pending;
      ghost var visiting := pending;
      pending := pending - {id};
      var missing := Deps(byID, id) - retained;
      if missing == {} {
        VisitedStep(byID, retained, visiting, id);
      } else {
        var dependency :| dependency in missing;
        AddedKeeps(byID, seed, retained, id, dependency);
        retained := retained + {dependency};
        changed := true;
        if * {
          pending := pending + {dependency};
        }
      }
    }
  }

  /** The pass found a base that was not there at its start. */
  ghost predicate GainsBase(byID: map<string, SnapshotMeta>, start: set<string>, retained: set<string>) {
    exists id :: id in retained && id !in start && id in Bases(byID)
  }

  /** Everything no longer pending has its dependencies in `ids`. */
  ghost predicate Visited(byID: map<string, SnapshotMeta>, ids: set<string>, pending: set<string>) {
    forall id :: id in ids && id !in pending ==> Deps(byID, id) <= ids
  }

  lemma VisitedStep(byID: map<string, SnapshotMeta>, ids: set<string>, pending: set<string>, id: string)
    requires Deps(byID, id) - ids == {}
    ensures Visited(byID, ids, pending) ==> Visited(byID, ids, pending - {id})
  {
    assert Deps(byID, id) <= ids by {
      assert forall d :: d in Deps(byID, id) && d !in ids ==> d in Deps(byID, id) - ids;
    }
  }

  lemma AddedKeeps(
    byID: map<string, SnapshotMeta>, seed: set<string>, ids: set<string>, id: string, dependency: string)
    requires BelowEveryClosed(byID, seed, ids) && id in ids && dependency in Deps(byID, id) && dependency !in ids
    ensures BelowEveryClosed(byID, seed, ids + {dependency})
    ensures dependency in Bases(byID) && Bases(byID) - (ids + {dependency}) < Bases(byID) - ids
  {
    forall other: set<string> | seed <= other && Closed(byID, other) ensures ids + {dependency} <= other {
      assert ids <= other && Deps(byID, id) <= other;
    }
    assert dependency == byID[id].baseID;
    assert dependency in Bases(byID) - ids;
  }

  ghost function Bases(byID: map<string, SnapshotMeta>): set<string> {
    set id | id in byID :: byID[id].baseID
  }

  method RetainedIDs(metadata: seq<SnapshotMeta>, keepNewest: int) returns (retained: set<string>)
    ensures LeastClosed(ByID(metadata), NewestIDs(metadata, keepNewest), retained)
  {
    var keep := if keepNewest < 0 then 0 else keepNewest;
    MetaOrders();
    var ordered := Sort(metadata, NewestFirst);
    var byID := map[];
    for i := 0 to |metadata|
      invariant byID == ByID(metadata[..i])
    {
      byID := byID[metadata[i].id := metadata[i]];
      assert metadata[..i + 1][..i] == metadata[..i];
    }
    assert metadata[..|metadata|] == metadata;
    retained := {};
    var index := 0;
    while index < |ordered| && index < keep
      invariant 0 <= index <= |ordered| && (index <= keep)
      invariant retained == set i | 0 <= i < index :: ordered[i].id
    {
      retained := retained + {ordered[index].id};
      index := index + 1;
    }
    ghost var seed := NewestIDs(metadata, keepNewest);
    assert retained == seed by {
      FirstAreNewest(metadata, ordered, keep);
      assert retained == set i | 0 <= i < |ordered| && i < keep :: ordered[i].id;
      assert NewestIDs(metadata, keep) == NewestIDs(metadata, keepNewest);
    }
    var changed := true;
    while changed
      invariant seed <= retained && BelowEveryClosed(byID, seed, retained)
      invariant !changed ==> Closed(byID, retained)
      decreases Bases(byID) - retained, changed
    {
      ghost var before := retained;
      retained, changed := Pass(byID, retained, seed);
      assert changed ==> Bases(byID) - retained < Bases(byID) - before;
    }
  }
}
