/** internal/restore/cursor.go: the gap-preserving restore cursor. */
module RestoreCursor {
  import opened Ordering

  /** Every integer after `c` up to `x` is in `s`. */
  ghost predicate Covers(c: int, s: set<int>, x: int) {
    c <= x && forall v :: c < v <= x ==> v in s
  }

  /** `r` is the last integer of the unbroken run after `c` inside `s`. */
  ghost predicate IsFrontier(c: int, s: set<int>, r: int) {
    Covers(c, s, r) && r + 1 !in s
  }

  function Frontier(c: int, s: set<int>): (r: int)
    ensures IsFrontier(c, s, r)
    decreases s
  {
    if c + 1 in s then Frontier(c + 1, s - {c + 1}) else c
  }

  lemma FrontierIsLargest(c: int, s: set<int>, r: int)
    requires IsFrontier(c, s, r)
    ensures r == Frontier(c, s)
    ensures forall x :: Covers(c, s, x) ==> x <= r
  {
  }

  class CursorStore {
    var cursors: map<string, int>

    constructor ()
      ensures cursors == map[]
    {
      cursors := map[];
    }

    function Cursor(planID: string): int
      reads this
    {
      if planID in cursors then cursors[planID] else 0
    }

    /** The result depends only on which integers were received, not on order or repetition. */
    method AdvanceContiguous(planID: string, received: seq<int>) returns (cursor: int)
      modifies this
      ensures cursor == Frontier(old(Cursor(planID)), set v | v in received)
      ensures cursors == old(cursors)[planID := cursor]
    {
      ghost var delivered := set v | v in received;
      ghost var start := Cursor(planID);
      var values := Sort(received, IntOrder);
      forall v ensures v in values <==> v in delivered {
        MemberOfPermutation(values, received, v);
      }
      cursor := Cursor(planID);
      var i := 0;
      while i < |values|
        invariant 0 <= i <= |values|
        invariant Covers(start, delivered, cursor)
        invariant forall j :: 0 <= j < i ==> values[j] <= cursor
      {
        if values[i] > cursor {
          if values[i] != cursor + 1 {
            break;
          }
          assert values[i] in values;
          cursor := values[i];
        }
        i := i + 1;
      }
      assert cursor + 1 !in values;
      assert IsFrontier(start, delivered, cursor);
      FrontierIsLargest(start, delivered, cursor);
      cursors := cursors[planID := cursor];
    }
  }

  // ---------- runs ----------

  function Advanced(c: int, batches: seq<set<int>>): int {
    if batches == [] then c else Frontier(Advanced(c, batches[..|batches| - 1]), batches[|batches| - 1])
  }

  ghost function Delivered(batches: seq<set<int>>): set<int> {
    set i, v | 0 <= i < |batches| && v in batches[i] :: v
  }

  /** Over any run the cursor never falls, everything up to it was delivered, and it never passes
      what one delivery of everything would have reached. */
  lemma {:induction false} CursorIsSound(c: int, batches: seq<set<int>>)
    ensures c <= Advanced(c, batches) <= Frontier(c, Delivered(batches))
    ensures forall v :: c < v <= Advanced(c, batches) ==> v in Delivered(batches)
  {
    if batches != [] {
      var n := |batches| - 1;
      CursorIsSound(c, batches[..n]);
      assert forall v :: v in Delivered(batches) <==> v in Delivered(batches[..n]) || v in batches[n];
      FrontierIsLargest(c, Delivered(batches), Frontier(c, Delivered(batches)));
    }
  }

  /** Two deliveries never pass their union, and reach it exactly when the first one did not
      already hold the integer right after the final cursor. */
  lemma TwoBatches(c: int, a: set<int>, b: set<int>)
    ensures Frontier(Frontier(c, a), b) <= Frontier(c, a + b)
    ensures Frontier(Frontier(c, a), b) == Frontier(c, a + b) <==> Frontier(Frontier(c, a), b) + 1 !in a
    ensures (forall v :: v in a ==> v <= Frontier(c, a)) ==> Frontier(Frontier(c, a), b) == Frontier(c, a + b)
  {
    var first := Frontier(c, a);
    var r := Frontier(first, b);
    CoversConcat(c, a, first, b, r);
    FrontierIsLargest(c, a + b, Frontier(c, a + b));
    if r + 1 !in a {
      assert IsFrontier(c, a + b, r);
      FrontierIsLargest(c, a + b, r);
    } else {
      assert Frontier(c, a + b) + 1 !in a + b;
    }
  }

  lemma CoversConcat(c: int, a: set<int>, m: int, b: set<int>, r: int)
    requires Covers(c, a, m) && Covers(m, b, r)
    ensures Covers(c, a + b, r)
  {
  }
}
