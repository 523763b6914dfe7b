/** replsnap/restore.go: walking a base chain and putting its bytes back together. */
module ChainRestore {
  import opened Formats
  import opened SnapshotStore

  datatype Resolution =
    | Chain(chain: seq<Snapshot>)
    | NotFound(missing: string)
    | DependencyCycle

  // ---------- what a walk from `id` meets, said without a visited set ----------

  /** `id` leads in exactly `n` steps through stored snapshots to one without a base. */
  predicate Complete(m: Snapshots, id: string, n: nat)
    decreases n
  {
    if id == "" then n == 0 else n > 0 && id in m && Complete(m, m[id].meta.baseID, n - 1)
  }

  /** `id` leads in exactly `n` steps to an ID that is not stored. */
  predicate Broken(m: Snapshots, id: string, n: nat, missing: string)
    decreases n
  {
    id != "" &&
    if id !in m then n == 0 && id == missing else n > 0 && Broken(m, m[id].meta.baseID, n - 1, missing)
  }

  /** The snapshots of a complete chain, base first. */
  function ChainOf(m: Snapshots, id: string, n: nat): (chain: seq<Snapshot>)
    requires Complete(m, id, n)
    ensures |chain| == n
    decreases n
  {
    if id == "" then [] else ChainOf(m, m[id].meta.baseID, n - 1) + [m[id]]
  }

  lemma {:induction false} OneOutcome(m: Snapshots, id: string, n: nat, k: nat, x: string, y: string)
    ensures Complete(m, id, n) && Complete(m, id, k) ==> n == k
    ensures Broken(m, id, n, x) && Broken(m, id, k, y) ==> n == k && x == y
    ensures !(Complete(m, id, n) && Broken(m, id, k, x))
    decreases n
  {
    if id != "" && id in m && n > 0 && k > 0 {
      OneOutcome(m, m[id].meta.baseID, n - 1, k - 1, x, y);
    }
  }

  // ---------- the walk of the program ----------

  /** What `ResolveChain` returns when the loop stands at `current`. */
  function Walk(m: Snapshots, current: string, visited: set<string>): Resolution
    decreases m.Keys - visited
  {
    if current == "" then Chain([])
    else if current in visited then DependencyCycle
    else if current !in m then NotFound(current)
    else match Walk(m, m[current].meta.baseID, visited + {current})
      case Chain(chain) => Chain(chain + [m[current]])
      case NotFound(missing) => NotFound(missing)
      case DependencyCycle => DependencyCycle
  }

  function Resolve(m: Snapshots, id: string): Resolution {
    Walk(m, id, {})
  }

  function Reversed<T>(s: seq<T>): (r: seq<T>)
    ensures |r| == |s|
    ensures forall i :: 0 <= i < |s| ==> r[i] == s[|s| - 1 - i]
  {
    seq(|s|, i requires 0 <= i < |s| => s[|s| - 1 - i])
  }

  /** The swap loop at the end of `ResolveChain`. */
  method ReverseChain(walked: seq<Snapshot>) returns (chain: seq<Snapshot>)
    ensures chain == Reversed(walked)
  {
    chain := walked;
    var left, right := 0, |chain| - 1;
    while left < right
      invariant |chain| == |walked| && 0 <= left && right == |walked| - 1 - left && left <= right + 2
      invariant forall i :: 0 <= i < left ==> chain[i] == walked[|walked| - 1 - i]
      invariant forall i :: left <= i <= right ==> chain[i] == walked[i]
      invariant forall i :: right < i < |walked| ==> chain[i] == walked[|walked| - 1 - i]
    {
      chain := chain[left := chain[right]][right := chain[left]];
      left, right := left + 1, right - 1;
    }
  }

  /** What the whole call returns once `walked` has been collected and the rest of the walk
      ends in `rest`. */
  ghost function Finish(walked: seq<Snapshot>, rest: Resolution): Resolution {
    if rest.Chain? then Chain(rest.chain + Reversed(walked)) else rest
  }

  lemma FinishStep(walked: seq<Snapshot>, snapshot: Snapshot, rest: Resolution)
    requires rest.Chain?
    ensures Finish(walked, Chain(rest.chain + [snapshot])) == Finish(walked + [snapshot], rest)
  {
    assert Reversed(walked + [snapshot]) == [snapshot] + Reversed(walked);
    assert rest.chain + [snapshot] + Reversed(walked) == rest.chain + ([snapshot] + Reversed(walked));
  }

  method ResolveChain(store: MemoryStore, snapshotID: string) returns (r: Resolution)
    ensures r == Resolve(store.snapshots, snapshotID)
  {
    var visited: set<string> := {};
    var chain: seq<Snapshot> := [];
    var current := snapshotID;
    assert Finish([], Resolve(store.snapshots, snapshotID)) == Resolve(store.snapshots, snapshotID);
    while current != ""
      invariant Resolve(store.snapshots, snapshotID) == Finish(chain, Walk(store.snapshots, current, visited))
      decreases store.snapshots.Keys - visited
    {
      if current in visited {
        return DependencyCycle;
      }
      if current !in store.snapshots {
        return NotFound(current);
      }
      var snapshot := store.snapshots[current];
      ghost var rest := Walk(store.snapshots, snapshot.meta.baseID, visited + {current});
      if rest.Chain? {
        FinishStep(chain, snapshot, rest);
      }
      visited := visited + {current};
      chain := chain + [snapshot];
      current := snapshot.meta.baseID;
    }
    chain := ReverseChain(chain);
    r := Chain(chain);
  }

  // ---------- the walk answers the question ----------

  lemma {:induction false} WalkComplete(m: Snapshots, id: string, visited: set<string>, n: nat)
    requires Complete(m, id, n)
    requires forall v, k: nat :: v in visited && k <= n ==> !Complete(m, v, k)
    ensures Walk(m, id, visited) == Chain(ChainOf(m, id, n))
    decreases n
  {
    if id != "" {
      forall k: nat | k <= n - 1 ensures !Complete(m, id, k) {
        OneOutcome(m, id, n, k, "", "");
      }
      WalkComplete(m, m[id].meta.baseID, visited + {id}, n - 1);
    }
  }

  lemma {:induction false} WalkBroken(m: Snapshots, id: string, visited: set<string>, n: nat, missing: string)
    requires Broken(m, id, n, missing)
    requires forall v, k: nat :: v in visited && k <= n ==> !Broken(m, v, k, missing)
    ensures Walk(m, id, visited) == NotFound(missing)
    decreases n
  {
    if id in m {
      forall k: nat | k <= n - 1 ensures !Broken(m, id, k, missing) {
        OneOutcome(m, id, n, k, missing, missing);
      }
      WalkBroken(m, m[id].meta.baseID, visited + {id}, n - 1, missing);
    }
  }

  /** How many stored snapshots the walk has passed when it stops. */
  lemma {:induction false} WalkWitness(m: Snapshots, id: string, visited: set<string>) returns (n: nat)
    ensures Walk(m, id, visited).Chain? ==> Complete(m, id, n)
    ensures Walk(m, id, visited).NotFound? ==> Broken(m, id, n, Walk(m, id, visited).missing)
    decreases m.Keys - visited
  {
    n := 0;
    if id != "" && id !in visited && id in m {
      var k := WalkWitness(m, m[id].meta.baseID, visited + {id});
      n := k + 1;
    }
  }

  ghost predicate HasCompleteChain(m: Snapshots, id: string) {
    exists n: nat :: Complete(m, id, n)
  }

  ghost predicate LeadsToMissing(m: Snapshots, id: string, missing: string) {
    exists n: nat :: Broken(m, id, n, missing)
  }

  lemma ResolveFindsChain(m: Snapshots, id: string)
    ensures Resolve(m, id).Chain? <==> HasCompleteChain(m, id)
    ensures forall n: nat :: Complete(m, id, n) ==> Resolve(m, id) == Chain(ChainOf(m, id, n))
  {
    if Resolve(m, id).Chain? {
      var w := WalkWitness(m, id, {});
      assert Complete(m, id, w);
    }
    forall n: nat | Complete(m, id, n) ensures Resolve(m, id) == Chain(ChainOf(m, id, n)) {
      WalkComplete(m, id, {}, n);
    }
  }

  lemma ResolveFindsMissing(m: Snapshots, id: string, missing: string)
    ensures Resolve(m, id) == NotFound(missing) <==> LeadsToMissing(m, id, missing)
  {
    if Resolve(m, id) == NotFound(missing) {
      var w := WalkWitness(m, id, {});
      assert Broken(m, id, w, missing);
    }
    if LeadsToMissing(m, id, missing) {
      var n: nat :| Broken(m, id, n, missing);
      WalkBroken(m, id, {}, n, missing);
    }
  }

  /** `ResolveChain` succeeds exactly when the base chain is complete (and hence acyclic), with
      that chain base first; it reports an ID as missing exactly when the chain leads to it
      and it is not stored; and it reports a cycle exactly when the chain does neither. */
  lemma ResolveDecides(m: Snapshots, id: string)
    ensures Resolve(m, id).Chain? <==> HasCompleteChain(m, id)
    ensures forall n: nat :: Complete(m, id, n) ==> Resolve(m, id) == Chain(ChainOf(m, id, n))
    ensures forall x :: Resolve(m, id) == NotFound(x) <==> LeadsToMissing(m, id, x)
    ensures Resolve(m, id).DependencyCycle? <==>
            !HasCompleteChain(m, id) && forall x :: !LeadsToMissing(m, id, x)
  {
    ResolveFindsChain(m, id);
    forall x ensures Resolve(m, id) == NotFound(x) <==> LeadsToMissing(m, id, x) {
      ResolveFindsMissing(m, id, x);
    }
    assert Resolve(m, id).NotFound? ==> LeadsToMissing(m, id, Resolve(m, id).missing);
  }

  // ---------- cycles ----------

  /** `a` leads to `b` by following base links `n` times. */
  predicate Steps(m: Snapshots, a: string, b: string, n: nat)
    decreases n
  {
    if n == 0 then a == b
    else a in m && m[a].meta.baseID != "" && Steps(m, m[a].meta.baseID, b, n - 1)
  }

  lemma {:induction false} StepsExtend(m: Snapshots, a: string, b: string, n: nat)
    requires Steps(m, a, b, n) && b in m && m[b].meta.baseID != ""
    ensures Steps(m, a, m[b].meta.baseID, n + 1)
    decreases n
  {
    if n > 0 {
      StepsExtend(m, m[a].meta.baseID, b, n - 1);
    } else {
      assert Steps(m, m[b].meta.baseID, m[b].meta.baseID, 0);
    }
  }

  lemma {:induction false} OutcomeAlongSteps(m: Snapshots, a: string, b: string, n: nat, c: nat, x: string)
    requires Steps(m, a, b, n) && a != ""
    ensures b != ""
    ensures Complete(m, a, c) ==> n <= c && Complete(m, b, c - n)
    ensures Broken(m, a, c, x) ==> n <= c && Broken(m, b, c - n, x)
    decreases n
  {
    if n > 0 {
      OutcomeAlongSteps(m, m[a].meta.baseID, b, n - 1, if c > 0 then c - 1 else 0, x);
    }
  }

  /** A chain that comes back to an ID it has passed neither ends nor leads to a missing one. */
  lemma CycleHasNoEnd(m: Snapshots, id: string, v: string, n: nat, k: nat, c: nat, x: string)
    requires id != "" && Steps(m, id, v, n) && Steps(m, v, v, k) && k >= 1
    ensures !Complete(m, id, c) && !Broken(m, id, c, x)
  {
    OutcomeAlongSteps(m, id, v, n, c, x);
    if n <= c {
      OutcomeAlongSteps(m, v, v, k, c - n, x);
      if k <= c - n {
        OneOutcome(m, v, c - n, c - n - k, x, x);
      }
    }
  }

  /** Every visited ID leads to where the loop stands. */
  ghost predicate AllLeadTo(m: Snapshots, visited: set<string>, current: string) {
    forall v :: v in visited ==> exists k: nat :: k >= 1 && Steps(m, v, current, k)
  }

  lemma AllLeadOn(m: Snapshots, visited: set<string>, current: string)
    requires AllLeadTo(m, visited, current) && current in m && m[current].meta.baseID != ""
    ensures AllLeadTo(m, visited + {current}, m[current].meta.baseID)
  {
    forall v | v in visited + {current} ensures exists k: nat :: k >= 1 && Steps(m, v, m[current].meta.baseID, k) {
      if v == current {
        assert Steps(m, current, current, 0);
        StepsExtend(m, current, current, 0);
      } else {
        var k: nat :| k >= 1 && Steps(m, v, current, k);
        StepsExtend(m, v, current, k);
      }
    }
  }

  lemma {:induction false} WalkCycle(m: Snapshots, start: string, current: string, n: nat, visited: set<string>)
    returns (v: string, i: nat, k: nat)
    requires Steps(m, start, current, n) && AllLeadTo(m, visited, current) && Walk(m, current, visited).DependencyCycle?
    ensures Steps(m, start, v, i) && Steps(m, v, v, k) && k >= 1
    decreases m.Keys - visited
  {
    if current in visited {
      k :| k >= 1 && Steps(m, current, current, k);
      v, i := current, n;
    } else {
      StepsExtend(m, start, current, n);
      AllLeadOn(m, visited, current);
      v, i, k := WalkCycle(m, start, m[current].meta.baseID, n + 1, visited + {current});
    }
  }

  ghost predicate ReachesCycle(m: Snapshots, id: string) {
    id != "" && exists v, n: nat, k: nat :: k >= 1 && Steps(m, id, v, n) && Steps(m, v, v, k)
  }

  /** `ResolveChain` reports a cycle exactly when the chain really comes back to an ID it has passed. */
  lemma CycleIsReal(m: Snapshots, id: string)
    ensures Resolve(m, id).DependencyCycle? <==> ReachesCycle(m, id)
  {
    if Resolve(m, id).DependencyCycle? {
      assert id != "" && Steps(m, id, id, 0);
      var v, n, k := WalkCycle(m, id, id, 0, {});
      assert k >= 1 && Steps(m, id, v, n) && Steps(m, v, v, k);
    }
    if ReachesCycle(m, id) {
      CycleIsReported(m, id);
    }
  }

  lemma CycleIsReported(m: Snapshots, id: string)
    requires ReachesCycle(m, id)
    ensures Resolve(m, id).DependencyCycle?
  {
    var v, n: nat, k: nat :| k >= 1 && Steps(m, id, v, n) && Steps(m, v, v, k);
    var c := WalkWitness(m, id, {});
    match Resolve(m, id)
    case Chain(_) => CycleHasNoEnd(m, id, v, n, k, c, "");
    case NotFound(missing) => CycleHasNoEnd(m, id, v, n, k, c, missing);
    case DependencyCycle =>
  }

  // ---------- bytes ----------

  /** All chunks of a chain in order. */
  function ChainBytes(chain: seq<Snapshot>): Bytes {
    if chain == [] then [] else ChainBytes(chain[..|chain| - 1]) + Flatten(chain[|chain| - 1].chunks)
  }

  method RestoreBytes(chain: seq<Snapshot>) returns (result: Bytes)
    ensures result == ChainBytes(chain)
  {
    result := [];
    for i := 0 to |chain|
      invariant result == ChainBytes(chain[..i])
    {
      ghost var before := result;
      var chunks := chain[i].chunks;
      for j := 0 to |chunks|
        invariant result == before + Flatten(chunks[..j])
      {
        result := result + chunks[j];
        assert chunks[..j + 1][..j] == chunks[..j];
      }
      assert chunks[..|chunks|] == chunks;
      assert chain[..i + 1][..i] == chain[..i];
    }
    assert chain[..|chain|] == chain;
  }
}
