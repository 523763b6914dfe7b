/** internal/gc/store.go: chunk reference counts, pins and collection. */
module GcStore {
  import opened BackupModel
  import opened Ordering

  datatype RefEntry = RefEntry(digest: string, count: int)

  /** What the store is about: how often each digest is referenced. */
  type Counts = map<string, int>

  function Count(c: Counts, digest: string): int {
    if digest in c then c[digest] else 0
  }

  function Added(c: Counts, digest: string, n: int): Counts {
    if n < 1 then c else c[digest := Count(c, digest) + n]
  }

  /** Saturating release: a count never goes below zero, and a digest at zero is gone. */
  function Released(c: Counts, digest: string, n: int): Counts {
    if n < 1 then c
    else if Count(c, digest) <= n then c - {digest}
    else c[digest := Count(c, digest) - n]
  }

  ghost function Digests(refs: seq<RefEntry>): seq<string> {
    seq(|refs|, i requires 0 <= i < |refs| => refs[i].digest)
  }

  /** Array and position index are inverse to each other, and counts are positive. */
  ghost predicate Indexed(refs: seq<RefEntry>, index: map<string, int>) {
    && (forall d :: d in index ==> 0 <= index[d] < |refs| && refs[index[d]].digest == d)
    && (forall i :: 0 <= i < |refs| ==> refs[i].digest in index && index[refs[i].digest] == i && refs[i].count > 0)
  }

  ghost function CountsOf(refs: seq<RefEntry>, index: map<string, int>): Counts
    requires Indexed(refs, index)
  {
    map d | d in index :: refs[index[d]].count
  }

  function Without(refs: seq<RefEntry>, p: nat): (r: seq<RefEntry>)
    requires p < |refs|
    ensures |r| == |refs| - 1
    ensures forall i :: 0 <= i < p ==> r[i] == refs[i]
    ensures forall i :: p <= i < |r| ==> r[i] == refs[i + 1]
  {
    refs[..p] + refs[p + 1..]
  }

  /** Changing one count keeps array and index in step. */
  lemma SetCount(refs: seq<RefEntry>, index: map<string, int>, p: nat, count: int)
    requires Indexed(refs, index) && p < |refs| && count > 0
    ensures Indexed(refs[p := refs[p].(count := count)], index)
    ensures CountsOf(refs[p := refs[p].(count := count)], index) == CountsOf(refs, index)[refs[p].digest := count]
  {
  }

  lemma AppendEntry(refs: seq<RefEntry>, index: map<string, int>, entry: RefEntry)
    requires Indexed(refs, index) && entry.digest !in index && entry.count > 0
    ensures Indexed(refs + [entry], index[entry.digest := |refs|])
    ensures CountsOf(refs + [entry], index[entry.digest := |refs|]) ==
      CountsOf(refs, index)[entry.digest := entry.count]
  {
  }

  /** The position index after deleting position `p` and renumbering what lies in `p..upto`. */
  ghost predicate RenumberedTo(index: map<string, int>, digest: string, p: int, upto: int, now: map<string, int>) {
    && now.Keys == index.Keys - {digest}
    && forall d :: d in now ==> now[d] == if p < index[d] <= upto then index[d] - 1 else index[d]
  }

  lemma SurvivorMoves(refs: seq<RefEntry>, index: map<string, int>, p: nat, now: map<string, int>, d: string)
    requires Indexed(refs, index) && p < |refs| && RenumberedTo(index, refs[p].digest, p, |refs| - 1, now) && d in now
    ensures 0 <= now[d] < |refs| - 1 && Without(refs, p)[now[d]] == refs[index[d]]
  {
    assert d in index && refs[index[d]].digest == d && index[d] != p;
  }

  lemma SurvivorIsFound(refs: seq<RefEntry>, index: map<string, int>, p: nat, now: map<string, int>, i: nat)
    requires Indexed(refs, index) && p < |refs| && RenumberedTo(index, refs[p].digest, p, |refs| - 1, now) &&
      i < |refs| - 1
    ensures var e := Without(refs, p)[i]; e.digest in now && now[e.digest] == i && e.count > 0
  {
    var j := if i < p then i else i + 1;
    assert Without(refs, p)[i] == refs[j] && index[refs[j].digest] == j && index[refs[p].digest] == p;
  }

  lemma DeleteKeepsIndexed(refs: seq<RefEntry>, index: map<string, int>, p: nat, now: map<string, int>)
    requires Indexed(refs, index) && p < |refs| && RenumberedTo(index, refs[p].digest, p, |refs| - 1, now)
    ensures Indexed(Without(refs, p), now)
  {
    var rest := Without(refs, p);
    forall d | d in now ensures 0 <= now[d] < |rest| && rest[now[d]].digest == d {
      SurvivorMoves(refs, index, p, now, d);
    }
    forall i | 0 <= i < |rest| ensures rest[i].digest in now && now[rest[i].digest] == i && rest[i].count > 0 {
      SurvivorIsFound(refs, index, p, now, i);
    }
  }

  lemma DeleteEntry(refs: seq<RefEntry>, index: map<string, int>, p: nat, now: map<string, int>)
    requires Indexed(refs, index) && p < |refs| && RenumberedTo(index, refs[p].digest, p, |refs| - 1, now)
    ensures Indexed(Without(refs, p), now)
    ensures CountsOf(Without(refs, p), now) == CountsOf(refs, index) - {refs[p].digest}
  {
    DeleteKeepsIndexed(refs, index, p, now);
    forall d | d in now ensures CountsOf(Without(refs, p), now)[d] == CountsOf(refs, index)[d] {
      SurvivorMoves(refs, index, p, now, d);
    }
  }

  class Store {
    var refs: seq<RefEntry>
    var index: map<string, int>
    var pins: set<string>
    var digests: seq<string>

    ghost predicate Valid()
      reads this
    {
      Indexed(refs, index) && digests == Digests(refs)
    }

    ghost function Contents(): Counts
      reads this
      requires Valid()
    {
      CountsOf(refs, index)
    }

    constructor ()
      ensures Valid() && Contents() == map[] && pins == {}
    {
      refs, index, pins, digests := [], map[], {}, [];
    }

    /** Recomputes the digest cache from the array. */
    method RebuildDigests()
      requires Indexed(refs, index)
      modifies this`digests
      ensures Valid()
    {
      digests := [];
      for i := 0 to |refs|
        invariant digests == Digests(refs)[..i]
      {
        if refs[i].count > 0 {
          digests := digests + [refs[i].digest];
        }
      }
    }

    method AddRef(digest: string, count: int)
      requires Valid()
      modifies this`refs, this`index, this`digests
      ensures Valid() && Contents() == Added(old(Contents()), digest, count)
    {
      if count < 1 {
        return;
      }
      if digest in index {
        var position := index[digest];
        var total := refs[position].count + count;
        SetCount(refs, index, position, total);
        refs := refs[position := refs[position].(count := total)];
        RebuildDigests();
        return;
      }
      AppendEntry(refs, index, RefEntry(digest, count));
      index := index[digest := |refs|];
      refs := refs + [RefEntry(digest, count)];
      RebuildDigests();
    }

    /** The renumbering loop after a deletion at `position`. */
    method Renumber(digest: string, position: nat, ghost refs0: seq<RefEntry>, ghost index0: map<string, int>)
      requires Indexed(refs0, index0) && position < |refs0| && digest == refs0[position].digest
      requires refs == Without(refs0, position) && index == index0 - {digest}
      modifies this`index
      ensures RenumberedTo(index0, digest, position, |refs0| - 1, index)
    {
      for i := position to |refs|
        invariant RenumberedTo(index0, digest, position, i, index)
      {
        assert refs[i] == refs0[i + 1] && index0[refs0[i + 1].digest] == i + 1;
        index := index[refs[i].digest := i];
      }
    }

    method ReleaseRef(digest: string, count: int)
      requires Valid()
      modifies this`refs, this`index, this`digests
      ensures Valid() && Contents() == Released(old(Contents()), digest, count)
    {
      if count < 1 {
        return;
      }
      if digest !in index {
        assert digest !in Contents();
        return;
      }
      var position := index[digest];
      var current := refs[position].count - count;
      ghost var refs0, index0 := refs, index;
      if current <= 0 {
        refs := Without(refs, position);
        index := index - {digest};
        Renumber(digest, position, refs0, index0);
        DeleteEntry(refs0, index0, position, index);
        RebuildDigests();
        return;
      }
      SetCount(refs, index, position, current);
      refs := refs[position := refs[position].(count := current)];
      RebuildDigests();
    }

    method Refcount(digest: string) returns (count: int)
      requires Valid()
      ensures count == Count(Contents(), digest)
    {
      if digest in index {
        return refs[index[digest]].count;
      }
      count := 0;
    }

    method Pin(snapshotID: string)
      modifies this`pins
      ensures pins == old(pins) + {snapshotID}
    {
      pins := pins + {snapshotID};
    }

    method Unpin(snapshotID: string)
      modifies this`pins
      ensures pins == old(pins) - {snapshotID}
    {
      pins := pins - {snapshotID};
    }

    /** The live digests, sorted: exactly the digests with a reference. */
    method Compact() returns (live: seq<string>)
      requires Valid()
      ensures SortedListing(live, Contents().Keys)
    {
      live := [];
      ghost var seen: set<string> := {};
      for i := 0 to |refs|
        invariant forall d :: d in seen <==> d in index && index[d] < i
        invariant Lists(live, seen)
      {
        if refs[i].count > 0 {
          ListsExtend(live, seen, refs[i].digest);
          live := live + [refs[i].digest];
          seen := seen + {refs[i].digest};
        }
      }
      assert seen == Contents().Keys;
      live := SortStrings(live, seen);
    }

    /** IDs of the given snapshots that are old enough, unpinned and unreferenced, sorted. */
    method Collect(now: int, snapshots: seq<Snapshot>, keepWindow: int, referenced: set<string>)
      returns (expired: seq<string>)
      ensures multiset(expired) == multiset(Picked(snapshots, now, keepWindow, pins, referenced))
      ensures Ascending(expired, LexLeq)
    {
      expired := [];
      for i := 0 to |snapshots|
        invariant expired == Picked(snapshots[..i], now, keepWindow, pins, referenced)
      {
        var snapshot := snapshots[i];
        assert snapshots[..i + 1][..i] == snapshots[..i];
        if now - snapshot.createdAt < keepWindow {
          continue;
        }
        if snapshot.id in pins || snapshot.id in referenced {
          continue;
        }
        expired := expired + [snapshot.id];
      }
      assert snapshots[..|snapshots|] == snapshots;
      LexOrder();
      expired := Sort(expired, LexLeq);
    }
  }

  predicate Collectable(snapshot: Snapshot, now: int, keepWindow: int, pins: set<string>, referenced: set<string>) {
    now - snapshot.createdAt >= keepWindow && snapshot.id !in pins && snapshot.id !in referenced
  }

  ghost function Picked(
    snapshots: seq<Snapshot>, now: int, keepWindow: int, pins: set<string>, referenced: set<string>): seq<string> {
    if snapshots == [] then []
    else
      var last := snapshots[|snapshots| - 1];
      Picked(snapshots[..|snapshots| - 1], now, keepWindow, pins, referenced)
      + if Collectable(last, now, keepWindow, pins, referenced) then [last.id] else []
  }

  ghost function PickedIDs(
    snapshots: seq<Snapshot>, now: int, keepWindow: int, pins: set<string>, referenced: set<string>): set<string> {
    set i | 0 <= i < |snapshots| && Collectable(snapshots[i], now, keepWindow, pins, referenced) :: snapshots[i].id
  }

  /** From distinct snapshots each collectable one is picked once. */
  lemma {:induction false} PickedOnce(
    snapshots: seq<Snapshot>, now: int, keepWindow: int, pins: set<string>, referenced: set<string>)
    requires forall i, j :: 0 <= i < j < |snapshots| ==> snapshots[i].id != snapshots[j].id
    ensures Lists(Picked(snapshots, now, keepWindow, pins, referenced),
      PickedIDs(snapshots, now, keepWindow, pins, referenced))
  {
    var all := PickedIDs(snapshots, now, keepWindow, pins, referenced);
    if snapshots == [] {
      assert all == {};
    } else {
      var n := |snapshots| - 1;
      var rest, last := snapshots[..n], snapshots[n];
      PickedOnce(rest, now, keepWindow, pins, referenced);
      var ids := PickedIDs(rest, now, keepWindow, pins, referenced);
      PickedStep(snapshots, now, keepWindow, pins, referenced);
      if Collectable(last, now, keepWindow, pins, referenced) {
        ListsExtend(Picked(rest, now, keepWindow, pins, referenced), ids, last.id);
      }
    }
  }

  lemma PickedStep(snapshots: seq<Snapshot>, now: int, keepWindow: int, pins: set<string>, referenced: set<string>)
    requires snapshots != [] && forall i, j :: 0 <= i < j < |snapshots| ==> snapshots[i].id != snapshots[j].id
    ensures var n := |snapshots| - 1;
            var ids := PickedIDs(snapshots[..n], now, keepWindow, pins, referenced);
            && snapshots[n].id !in ids
            && PickedIDs(snapshots, now, keepWindow, pins, referenced) ==
               ids + if Collectable(snapshots[n], now, keepWindow, pins, referenced) then {snapshots[n].id} else {}
  {
    var n := |snapshots| - 1;
    var ids := PickedIDs(snapshots[..n], now, keepWindow, pins, referenced);
    forall id | id in ids ensures id in PickedIDs(snapshots, now, keepWindow, pins, referenced) {
      var i :| 0 <= i < n && Collectable(snapshots[..n][i], now, keepWindow, pins, referenced) &&
        snapshots[..n][i].id == id;
      assert snapshots[i].id == id;
    }
    forall id | id in PickedIDs(snapshots, now, keepWindow, pins, referenced) && id != snapshots[n].id
      ensures id in ids
    {
      var i :| 0 <= i <= n && Collectable(snapshots[i], now, keepWindow, pins, referenced) && snapshots[i].id == id;
      assert snapshots[..n][i].id == id;
    }
  }

  // ---------- runs ----------

  datatype Change = Add(digest: string, count: int) | Release(digest: string, count: int)

  function After(c: Counts, changes: seq<Change>): Counts {
    if changes == [] then c
    else
      var before := After(c, changes[..|changes| - 1]);
      match changes[|changes| - 1]
      case Add(digest, count) => Added(before, digest, count)
      case Release(digest, count) => Released(before, digest, count)
  }

  /** What one change asks for: calls with a count below one are ignored. */
  function Delta(change: Change, digest: string): int {
    if change.digest != digest || change.count < 1 then 0
    else if change.Add? then change.count else -change.count
  }

  /** References added minus references released, without saturation. */
  function Total(changes: seq<Change>, digest: string): int {
    if changes == [] then 0
    else Total(changes[..|changes| - 1], digest) + Delta(changes[|changes| - 1], digest)
  }

  /** `count` is the greatest total over all suffixes of the history, the empty one included. */
  ghost predicate GreatestSuffix(changes: seq<Change>, digest: string, count: int) {
    && (forall k :: 0 <= k <= |changes| ==> Total(changes[k..], digest) <= count)
    && (exists k :: 0 <= k <= |changes| && Total(changes[k..], digest) == count)
  }

  /** Over every run the count of a digest is its greatest suffix total: releases beyond zero are
      forgotten, nothing else is. The store holds the digest exactly while that is positive. */
  lemma {:induction false} CountsAreNet(changes: seq<Change>, digest: string)
    ensures GreatestSuffix(changes, digest, Count(After(map[], changes), digest))
    ensures digest in After(map[], changes) <==> Count(After(map[], changes), digest) > 0
  {
    if changes == [] {
      assert Total(changes[0..], digest) == 0;
    } else {
      var n := |changes| - 1;
      CountsAreNet(changes[..n], digest);
      var before := Count(After(map[], changes[..n]), digest);
      SaturatedStep(After(map[], changes[..n]), changes, digest);
      GreatestSuffixStep(changes, digest, before);
    }
  }

  lemma SaturatedStep(c: Counts, changes: seq<Change>, digest: string)
    requires changes != [] && c == After(map[], changes[..|changes| - 1]) && (digest in c <==> Count(c, digest) > 0)
    ensures var after, sum := After(map[], changes), Count(c, digest) + Delta(changes[|changes| - 1], digest);
      Count(after, digest) == (if sum < 0 then 0 else sum) && (digest in after <==> sum > 0)
  {
  }

  lemma TotalStep(changes: seq<Change>, digest: string, k: nat)
    requires k < |changes|
    ensures var n := |changes| - 1;
      Total(changes[k..], digest) == Total(changes[..n][k..], digest) + Delta(changes[n], digest)
  {
    var n := |changes| - 1;
    assert changes[k..][..n - k] == changes[..n][k..];
  }

  lemma GreatestSuffixStep(changes: seq<Change>, digest: string, before: int)
    requires changes != [] && GreatestSuffix(changes[..|changes| - 1], digest, before)
    ensures var sum := before + Delta(changes[|changes| - 1], digest);
      GreatestSuffix(changes, digest, if sum < 0 then 0 else sum)
  {
    var n := |changes| - 1;
    var sum := before + Delta(changes[n], digest);
    assert Total(changes[n + 1..], digest) == 0;
    forall k | 0 <= k <= n ensures Total(changes[k..], digest) <= sum {
      TotalStep(changes, digest, k);
    }
    var best :| 0 <= best <= n && Total(changes[..n][best..], digest) == before;
    TotalStep(changes, digest, best);
  }
}
