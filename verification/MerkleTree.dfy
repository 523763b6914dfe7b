/** replsnap/merkle.go: chunk digests and the Merkle root of a chunk list. */
module MerkleTree {
  import opened Formats
  import opened Ordering

  function Digest(h: Hash32, data: Bytes): (s: string)
    ensures |s| == 64
  {
    Hex(h(data))
  }

  // ---------- the tree as a recursive definition ----------

  function CeilHalf(n: nat): nat {
    (n + 1) / 2
  }

  /** Right partner of node `2 * i`; the last node of an odd level is its own partner. */
  function Partner(i: nat, width: nat): nat {
    if 2 * i + 1 < width then 2 * i + 1 else 2 * i
  }

  /** The string hashed to make node `i` of the level above. */
  function PairInput(level: seq<Bytes>, i: nat): Bytes
    requires i < CeilHalf(|level|)
  {
    level[2 * i] + level[Partner(i, |level|)]
  }

  function Pairs(level: seq<Bytes>): (pairs: seq<Bytes>)
    ensures |pairs| == CeilHalf(|level|)
  {
    seq(CeilHalf(|level|), i requires 0 <= i < CeilHalf(|level|) => PairInput(level, i))
  }

  ghost predicate Nodes(level: seq<Bytes>) {
    forall i :: 0 <= i < |level| ==> |level[i]| == 32
  }

  function HashAll(h: Hash32, xs: seq<Bytes>): (ys: seq<Bytes>)
    ensures |ys| == |xs| && Nodes(ys)
  {
    seq(|xs|, i requires 0 <= i < |xs| => h(xs[i]))
  }

  function Up(h: Hash32, level: seq<Bytes>): (above: seq<Bytes>)
    ensures |above| == CeilHalf(|level|) && Nodes(above)
  {
    HashAll(h, Pairs(level))
  }

  function Top(h: Hash32, level: seq<Bytes>): Bytes
    requires |level| >= 1
    decreases |level|
  {
    if |level| == 1 then level[0] else Top(h, Up(h, level))
  }

  function Root(h: Hash32, chunks: seq<Bytes>): string {
    if chunks == [] then Digest(h, []) else Hex(Top(h, HashAll(h, chunks)))
  }

  // ---------- number of passes ----------

  function Passes(n: nat): nat
    requires n >= 1
  {
    if n == 1 then 0 else 1 + Passes(CeilHalf(n))
  }

  function Pow2(k: nat): nat {
    if k == 0 then 1 else 2 * Pow2(k - 1)
  }

  /** The loop makes exactly ceil(log2 n) passes. */
  lemma {:induction false} PassesIsCeilLog(n: nat)
    requires n >= 1
    ensures n <= Pow2(Passes(n))
    ensures n > 1 ==> Pow2(Passes(n) - 1) < n
  {
    if n > 1 {
      PassesIsCeilLog(CeilHalf(n));
    }
  }

  // ---------- the level-by-level loop ----------

  /** One pass of the outer loop: duplicate an odd tail, then hash neighbours two by two. */
  method NextLevel(h: Hash32, current: seq<Bytes>) returns (next: seq<Bytes>)
    requires |current| > 1
    ensures next == Up(h, current)
  {
    var level := current;
    if |level| % 2 == 1 {
      level := level + [level[|level| - 1]];
    }
    next := HashNeighbours(h, level, CeilHalf(|current|));
    NeighboursAreUp(h, current, next);
  }

  /** The inner loop, two nodes at a time. */
  method HashNeighbours(h: Hash32, level: seq<Bytes>, ghost n: nat) returns (next: seq<Bytes>)
    requires |level| == 2 * n
    ensures |next| == n && forall j :: 0 <= j < n ==> next[j] == Neighbours(h, level, j)
  {
    next := [];
    var index := 0;
    while index < |level|
      invariant 0 <= index == 2 * |next| <= |level|
      invariant forall j :: 0 <= j < |next| ==> next[j] == Neighbours(h, level, j)
      decreases |level| - index
    {
      var pair := level[index] + level[index + 1];
      var node := h(pair);
      assert node == Neighbours(h, level, |next|);
      next := next + [node];
      index := index + 2;
    }
  }

  function Neighbours(h: Hash32, level: seq<Bytes>, j: nat): Bytes
    requires 2 * j + 1 < |level|
  {
    h(level[2 * j] + level[2 * j + 1])
  }

  function Padded(level: seq<Bytes>): (padded: seq<Bytes>)
    requires level != []
    ensures |padded| == 2 * CeilHalf(|level|)
  {
    if |level| % 2 == 1 then level + [level[|level| - 1]] else level
  }

  lemma PaddedAt(level: seq<Bytes>, i: nat)
    requires level != [] && i < CeilHalf(|level|)
    ensures Padded(level)[2 * i] == level[2 * i]
    ensures Padded(level)[2 * i + 1] == level[Partner(i, |level|)]
  {
  }

  lemma PaddedPair(h: Hash32, level: seq<Bytes>, i: nat)
    requires level != [] && i < CeilHalf(|level|)
    ensures Up(h, level)[i] == Neighbours(h, Padded(level), i)
  {
    PaddedAt(level, i);
    var input := PairInput(level, i);
    assert Neighbours(h, Padded(level), i) == h(input);
    assert Pairs(level)[i] == input;
  }

  lemma NeighboursAreUp(h: Hash32, level: seq<Bytes>, next: seq<Bytes>)
    requires level != [] && |next| == CeilHalf(|level|)
    requires forall j :: 0 <= j < |next| ==> next[j] == Neighbours(h, Padded(level), j)
    ensures next == Up(h, level)
  {
    forall j | 0 <= j < |next| ensures next[j] == Up(h, level)[j] {
      PaddedPair(h, level, j);
    }
  }

  method MerkleRoot(h: Hash32, chunks: seq<Bytes>) returns (root: string, ghost passes: nat)
    ensures root == Root(h, chunks)
    ensures chunks != [] ==> passes == Passes(|chunks|)
  {
    passes := 0;
    if |chunks| == 0 {
      return Digest(h, []), passes;
    }
    var level := [];
    for index := 0 to |chunks|
      invariant |level| == index
      invariant forall i :: 0 <= i < index ==> level[i] == h(chunks[i])
    {
      level := level + [h(chunks[index])];
    }
    assert level == HashAll(h, chunks);
    while |level| > 1
      invariant |level| >= 1
      invariant Top(h, level) == Top(h, HashAll(h, chunks))
      invariant passes + Passes(|level|) == Passes(|chunks|)
      decreases |level|
    {
      level := NextLevel(h, level);
      passes := passes + 1;
    }
    root := Hex(level[0]);
  }

  // ---------- binding ----------

  /** Every string hashed from `level` up to its top. */
  ghost function HashedAbove(h: Hash32, level: seq<Bytes>): set<Bytes>
    requires |level| >= 1
    decreases |level|
  {
    if |level| == 1 then {}
    else Members(Pairs(level)) + HashedAbove(h, Up(h, level))
  }

  /** Every string hashed while computing the root of `chunks`. */
  ghost function Hashed(h: Hash32, chunks: seq<Bytes>): set<Bytes> {
    if chunks == [] then {[]}
    else Members(chunks) + HashedAbove(h, HashAll(h, chunks))
  }

  /** `x` and `y` are different strings with the same hash. */
  ghost predicate Collide(h: Hash32, x: Bytes, y: Bytes) {
    x != y && h(x) == h(y)
  }

  lemma HashAllCollision(h: Hash32, xs: seq<Bytes>, ys: seq<Bytes>) returns (x: Bytes, y: Bytes)
    requires |xs| == |ys| && xs != ys && HashAll(h, xs) == HashAll(h, ys)
    ensures x in Members(xs) && y in Members(ys) && Collide(h, x, y)
  {
    var i :| 0 <= i < |xs| && xs[i] != ys[i];
    assert HashAll(h, xs)[i] == HashAll(h, ys)[i];
    x, y := xs[i], ys[i];
  }

  lemma PairsInjective(a: seq<Bytes>, b: seq<Bytes>)
    requires |a| == |b| && Nodes(a) && Nodes(b) && Pairs(a) == Pairs(b)
    ensures a == b
  {
    forall j | 0 <= j < |a| ensures a[j] == b[j] {
      var i := j / 2;
      var x, y := PairInput(a, i), PairInput(b, i);
      assert Pairs(a)[i] == x && Pairs(b)[i] == y;
      assert x[..32] == a[2 * i] && y[..32] == b[2 * i];
      assert x[32..] == a[Partner(i, |a|)] && y[32..] == b[Partner(i, |a|)];
    }
  }

  /** Two different levels of the same width with the same top contain a collision. */
  lemma {:induction false} TopCollision(h: Hash32, a: seq<Bytes>, b: seq<Bytes>) returns (x: Bytes, y: Bytes)
    requires |a| == |b| >= 1 && Nodes(a) && Nodes(b) && a != b
    requires Top(h, a) == Top(h, b)
    ensures x in HashedAbove(h, a) && y in HashedAbove(h, b) && Collide(h, x, y)
    decreases |a|
  {
    assert |a| > 1;
    if Up(h, a) == Up(h, b) {
      if Pairs(a) == Pairs(b) {
        PairsInjective(a, b);
      }
      x, y := HashAllCollision(h, Pairs(a), Pairs(b));
    } else {
      x, y := TopCollision(h, Up(h, a), Up(h, b));
    }
  }

  /** Two different chunk lists of the same length with the same root exhibit a hash collision among
      the strings hashed for them. */
  lemma EqualRootsCollide(h: Hash32, a: seq<Bytes>, b: seq<Bytes>) returns (x: Bytes, y: Bytes)
    requires |a| == |b| && a != b && Root(h, a) == Root(h, b)
    ensures x in Hashed(h, a) && y in Hashed(h, b) && Collide(h, x, y)
  {
    HexInjective(Top(h, HashAll(h, a)), Top(h, HashAll(h, b)));
    if HashAll(h, a) == HashAll(h, b) {
      x, y := HashAllCollision(h, a, b);
    } else {
      x, y := TopCollision(h, HashAll(h, a), HashAll(h, b));
    }
  }

  /** For equal chunk counts the root determines the chunks, if no two of the strings
      hashed on the way collide. */
  lemma RootIsBinding(h: Hash32, a: seq<Bytes>, b: seq<Bytes>)
    requires |a| == |b|
    requires InjectiveOn(h, Hashed(h, a) + Hashed(h, b))
    ensures Root(h, a) == Root(h, b) <==> a == b
  {
    if a != b && Root(h, a) == Root(h, b) {
      var x, y := EqualRootsCollide(h, a, b);
      assert false;
    }
  }

  // ---------- the root from the roots of its parts ----------

  /** A lone last node is joined with itself once on every level it has to climb. */
  function SelfPaired<N>(join: (N, N) -> N, node: N, levels: nat): N
    decreases levels
  {
    if levels == 0 then node else SelfPaired(join, join(node, node), levels - 1)
  }

  /** The top of the tree over any rule that makes the next level from the last. */
  ghost function TopBy<N(!new)>(up: seq<N> -> seq<N>, level: seq<N>): N
    requires Halves(up) && |level| >= 1
    decreases |level|
  {
    if |level| == 1 then level[0] else TopBy(up, up(level))
  }

  ghost predicate Halves<N(!new)>(up: seq<N> -> seq<N>) {
    forall level :: |up(level)| == CeilHalf(|level|)
  }

  /** The rule joins neighbours, and the levels of two parts grow side by side when the left one has
      even width. */
  ghost predicate PairsUp<N(!new)>(join: (N, N) -> N, up: seq<N> -> seq<N>) {
    && (forall x, y :: JoinsTwo(join, up, x, y))
    && (forall a, b, half: nat :: GrowsInParts(up, a, b, half))
  }

  ghost predicate JoinsTwo<N>(join: (N, N) -> N, up: seq<N> -> seq<N>, x: N, y: N) {
    up([x, y]) == [join(x, y)] && up([x]) == [join(x, x)]
  }

  ghost predicate GrowsInParts<N>(up: seq<N> -> seq<N>, a: seq<N>, b: seq<N>, half: nat) {
    |a| == 2 * half ==> up(a + b) == up(a) + up(b)
  }

  lemma Halving(n: nat, k: nat)
    requires 1 <= n <= Pow2(k + 1)
    ensures Pow2(k + 1) == 2 * Pow2(k) && 1 <= CeilHalf(n) <= Pow2(k) && CeilHalf(Pow2(k + 1)) == Pow2(k)
    ensures Passes(n) == if n == 1 then 0 else 1 + Passes(CeilHalf(n))
  {
  }

  /** The top of a right part, raised to the level of 2^k nodes to its left. */
  ghost function Raised<N(!new)>(join: (N, N) -> N, up: seq<N> -> seq<N>, b: seq<N>, k: nat): N
    requires Halves(up) && |b| >= 1 && Passes(|b|) <= k
  {
    SelfPaired(join, TopBy(up, b), k - Passes(|b|))
  }

  lemma RaisedOne<N(!new)>(join: (N, N) -> N, up: seq<N> -> seq<N>, x: N, k: nat)
    requires Halves(up) && JoinsTwo(join, up, x, x)
    ensures Raised(join, up, up([x]), k) == Raised(join, up, [x], k + 1)
  {
    var y := join(x, x);
    assert up([x]) == [y] && Passes(1) == 0;
    assert SelfPaired(join, x, k + 1) == SelfPaired(join, y, k);
  }

  lemma RaisedMany<N(!new)>(join: (N, N) -> N, up: seq<N> -> seq<N>, b: seq<N>, k: nat)
    requires Halves(up) && |b| > 1 && Passes(|b|) == 1 + Passes(|up(b)|) <= k + 1
    ensures Raised(join, up, up(b), k) == Raised(join, up, b, k + 1)
  {
    assert TopBy(up, b) == TopBy(up, up(b));
  }

  /** Raising the next level of a right part is raising the part itself one level more. */
  lemma RaisedStep<N(!new)>(join: (N, N) -> N, up: seq<N> -> seq<N>, b: seq<N>, k: nat)
    requires Halves(up) && PairsUp(join, up)
    requires 1 <= |b| <= Pow2(k + 1) && Passes(|up(b)|) <= k
    ensures Passes(|b|) <= k + 1 && Raised(join, up, up(b), k) == Raised(join, up, b, k + 1)
  {
    Halving(|b|, k);
    if |b| == 1 {
      assert b == [b[0]] && JoinsTwo(join, up, b[0], b[0]);
      RaisedOne(join, up, b[0], k);
    } else {
      RaisedMany(join, up, b, k);
    }
  }

  lemma TopOfTwo<N(!new)>(join: (N, N) -> N, up: seq<N> -> seq<N>, x: N, y: N)
    requires Halves(up) && JoinsTwo(join, up, x, y)
    ensures TopBy(up, [x, y]) == join(TopBy(up, [x]), Raised(join, up, [y], 0))
  {
    assert TopBy(up, [x, y]) == TopBy(up, up([x, y]));
  }

  lemma TopSteps<N(!new)>(up: seq<N> -> seq<N>, a: seq<N>, b: seq<N>)
    requires Halves(up) && |a| > 1 && up(a + b) == up(a) + up(b)
    ensures TopBy(up, a) == TopBy(up, up(a)) && TopBy(up, a + b) == TopBy(up, up(a) + up(b))
  {
  }

  lemma {:induction false} TopByParts<N(!new)>(
    join: (N, N) -> N, up: seq<N> -> seq<N>, a: seq<N>, b: seq<N>, k: nat)
    requires Halves(up) && PairsUp(join, up) && |a| == Pow2(k) && 1 <= |b| <= |a|
    ensures Passes(|b|) <= k && TopBy(up, a + b) == join(TopBy(up, a), Raised(join, up, b, k))
    decreases k
  {
    if k == 0 {
      assert a == [a[0]] && b == [b[0]] && a + b == [a[0], b[0]] && JoinsTwo(join, up, a[0], b[0]);
      TopOfTwo(join, up, a[0], b[0]);
    } else {
      NextParts(up, a, b, k - 1);
      assert GrowsInParts(up, a, b, Pow2(k - 1));
      TopByParts(join, up, up(a), up(b), k - 1);
      TopSteps(up, a, b);
      RaisedStep(join, up, b, k - 1);
    }
  }

  lemma NextParts<N(!new)>(up: seq<N> -> seq<N>, a: seq<N>, b: seq<N>, k: nat)
    requires Halves(up) && |a| == Pow2(k + 1) && 1 <= |b| <= |a|
    ensures |a| == 2 * Pow2(k) > 1 && |up(a)| == Pow2(k) && 1 <= |up(b)| <= |up(a)|
  {
    Halving(|a|, k);
    Halving(|b|, k);
  }

  /** The laws of a tree root: the root of one leaf, and of 2^k leaves with at most as many to their
      right. */
  ghost predicate FollowsParts<C(!new), N>(leaf: C -> N, join: (N, N) -> N, root: seq<C> -> N) {
    && (forall c :: LeafLaw(leaf, root, c))
    && (forall a, b, k: nat :: PartsLaw(join, root, a, b, k))
  }

  ghost predicate LeafLaw<C, N>(leaf: C -> N, root: seq<C> -> N, c: C) {
    root([c]) == leaf(c)
  }

  /** Left part before right part: the root of a list joins the root of its first 2^k leaves with the
      root of the others, raised to the same level. */
  ghost predicate PartsLaw<C, N>(join: (N, N) -> N, root: seq<C> -> N, a: seq<C>, b: seq<C>, k: nat) {
    |a| == Pow2(k) && 1 <= |b| <= |a| ==>
      Passes(|b|) <= k && root(a + b) == join(root(a), SelfPaired(join, root(b), k - Passes(|b|)))
  }

  lemma {:induction false} PassesOfPow2(k: nat)
    ensures Pow2(k) >= 1 && Passes(Pow2(k)) == k
  {
    if k > 0 {
      PassesOfPow2(k - 1);
      Halving(Pow2(k), k - 1);
    }
  }

  /** The greatest power of two below the width is where the list splits. */
  lemma SplitWidth(n: nat) returns (k: nat)
    requires n > 1
    ensures 1 <= Pow2(k) < n <= 2 * Pow2(k)
  {
    PassesIsCeilLog(n);
    k := Passes(n) - 1;
    PassesOfPow2(k);
    assert Pow2(k + 1) == 2 * Pow2(k);
  }

  /** The laws leave one possible root for every list. */
  lemma {:induction false} PartsDetermineRoot<C(!new), N>(
    leaf: C -> N, join: (N, N) -> N, f: seq<C> -> N, g: seq<C> -> N, chunks: seq<C>)
    requires FollowsParts(leaf, join, f) && FollowsParts(leaf, join, g) && chunks != []
    ensures f(chunks) == g(chunks)
    decreases |chunks|
  {
    if |chunks| == 1 {
      assert chunks == [chunks[0]];
      assert LeafLaw(leaf, f, chunks[0]) && LeafLaw(leaf, g, chunks[0]);
    } else {
      var k := SplitWidth(|chunks|);
      var a, b := chunks[..Pow2(k)], chunks[Pow2(k)..];
      assert chunks == a + b;
      PartsDetermineRoot(leaf, join, f, g, a);
      PartsDetermineRoot(leaf, join, f, g, b);
      assert PartsLaw(join, f, a, b, k) && PartsLaw(join, g, a, b, k);
    }
  }

  lemma PairOfParts(a: seq<Bytes>, b: seq<Bytes>, half: nat, i: nat)
    requires |a| == 2 * half && i < CeilHalf(|a + b|)
    ensures i < half ==> PairInput(a + b, i) == PairInput(a, i)
    ensures i >= half ==> i - half < CeilHalf(|b|) && PairInput(a + b, i) == PairInput(b, i - half)
  {
    if i >= half {
      assert Partner(i, |a + b|) == |a| + Partner(i - half, |b|);
    }
  }

  lemma PairsOfParts(a: seq<Bytes>, b: seq<Bytes>, half: nat)
    requires |a| == 2 * half
    ensures Pairs(a + b) == Pairs(a) + Pairs(b)
  {
    forall i | 0 <= i < CeilHalf(|a + b|) ensures Pairs(a + b)[i] == (Pairs(a) + Pairs(b))[i] {
      PairOfParts(a, b, half, i);
    }
  }

  lemma HashAllOfParts(h: Hash32, a: seq<Bytes>, b: seq<Bytes>)
    ensures HashAll(h, a + b) == HashAll(h, a) + HashAll(h, b)
  {
  }

  lemma UpOfParts(h: Hash32, a: seq<Bytes>, b: seq<Bytes>, half: nat)
    requires |a| == 2 * half
    ensures Up(h, a + b) == Up(h, a) + Up(h, b) && |Up(h, a)| == half
  {
    PairsOfParts(a, b, half);
    HashAllOfParts(h, Pairs(a), Pairs(b));
  }

  lemma UpOfTwo(h: Hash32, x: Bytes, y: Bytes)
    ensures Up(h, [x, y]) == [h(x + y)] && Up(h, [x]) == [h(x + x)]
  {
    assert Pairs([x, y])[0] == x + y && Pairs([x])[0] == x + x;
  }

  function UpWith(h: Hash32): seq<Bytes> -> seq<Bytes> {
    (level: seq<Bytes>) => Up(h, level)
  }

  function JoinWith(h: Hash32): (Bytes, Bytes) -> Bytes {
    (x: Bytes, y: Bytes) => h(x + y)
  }

  lemma UpPairsUp(h: Hash32)
    ensures Halves(UpWith(h)) && PairsUp(JoinWith(h), UpWith(h))
  {
    forall x, y ensures JoinsTwo(JoinWith(h), UpWith(h), x, y) {
      UpOfTwo(h, x, y);
    }
    forall a, b, half: nat ensures GrowsInParts(UpWith(h), a, b, half) {
      if |a| == 2 * half {
        UpOfParts(h, a, b, half);
      }
    }
  }

  lemma {:induction false} TopIsTopBy(h: Hash32, level: seq<Bytes>)
    requires |level| >= 1 && Halves(UpWith(h))
    ensures Top(h, level) == TopBy(UpWith(h), level)
    decreases |level|
  {
    if |level| > 1 {
      TopIsTopBy(h, Up(h, level));
    }
  }

  /** The root before it is written in hexadecimal. */
  function BinaryRoot(h: Hash32): seq<Bytes> -> Bytes {
    (chunks: seq<Bytes>) => if chunks == [] then h([]) else Top(h, HashAll(h, chunks))
  }

  lemma RootIsHex(h: Hash32, chunks: seq<Bytes>)
    ensures Root(h, chunks) == Hex(BinaryRoot(h)(chunks))
  {
  }

  lemma BinaryRootOfParts(h: Hash32, a: seq<Bytes>, b: seq<Bytes>, k: nat)
    ensures PartsLaw(JoinWith(h), BinaryRoot(h), a, b, k)
  {
    if |a| == Pow2(k) && 1 <= |b| <= |a| {
      var x, y := HashAll(h, a), HashAll(h, b);
      HashAllOfParts(h, a, b);
      UpPairsUp(h);
      TopByParts(JoinWith(h), UpWith(h), x, y, k);
      TopIsTopBy(h, x);
      TopIsTopBy(h, y);
      TopIsTopBy(h, x + y);
    }
  }

  lemma BinaryRootFollowsParts(h: Hash32)
    ensures FollowsParts(h, JoinWith(h), BinaryRoot(h))
  {
    forall c ensures LeafLaw(h, BinaryRoot(h), c) {
      assert HashAll(h, [c]) == [h(c)];
    }
    forall a, b, k: nat ensures PartsLaw(JoinWith(h), BinaryRoot(h), a, b, k) {
      BinaryRootOfParts(h, a, b, k);
    }
  }

  lemma SameHex(h: Hash32, chunks: seq<Bytes>, x: Bytes)
    requires Root(h, chunks) == Hex(x)
    ensures BinaryRoot(h)(chunks) == x
  {
    RootIsHex(h, chunks);
    HexInjective(x, BinaryRoot(h)(chunks));
  }

  /** The root of 2^k chunks followed by at most as many others hashes the root of the first, then the
      root of the others, self-paired up to the same level. */
  lemma RootOfParts(h: Hash32, a: seq<Bytes>, b: seq<Bytes>, k: nat, x: Bytes, y: Bytes)
    requires |a| == Pow2(k) && 1 <= |b| <= |a| && Root(h, a) == Hex(x) && Root(h, b) == Hex(y)
    ensures Passes(|b|) <= k
    ensures Root(h, a + b) == Hex(h(x + SelfPaired(JoinWith(h), y, k - Passes(|b|))))
  {
    SameHex(h, a, x);
    SameHex(h, b, y);
    BinaryRootOfParts(h, a, b, k);
    var raised := PartsValue(JoinWith(h), BinaryRoot(h), a, b, k, x, y);
    HexOfParts(h, a + b, x, raised);
  }

  lemma PartsValue<C, N>(join: (N, N) -> N, root: seq<C> -> N, a: seq<C>, b: seq<C>, k: nat, x: N, y: N)
    returns (raised: N)
    requires PartsLaw(join, root, a, b, k) && |a| == Pow2(k) && 1 <= |b| <= |a| && root(a) == x && root(b) == y
    ensures Passes(|b|) <= k && raised == SelfPaired(join, y, k - Passes(|b|)) && root(a + b) == join(x, raised)
  {
    raised := SelfPaired(join, y, k - Passes(|b|));
  }

  lemma HexOfParts(h: Hash32, chunks: seq<Bytes>, x: Bytes, y: Bytes)
    requires BinaryRoot(h)(chunks) == JoinWith(h)(x, y)
    ensures Root(h, chunks) == Hex(h(x + y))
  {
    RootIsHex(h, chunks);
  }

  /** In particular the plain pair law for two lists of the same width 2^k. */
  lemma RootOfHalves(h: Hash32, a: seq<Bytes>, b: seq<Bytes>, k: nat, x: Bytes, y: Bytes)
    requires |a| == |b| == Pow2(k) && Root(h, a) == Hex(x) && Root(h, b) == Hex(y)
    ensures Root(h, a + b) == Hex(h(x + y))
  {
    PassesOfPow2(k);
    SameHex(h, a, x);
    SameHex(h, b, y);
    BinaryRootOfParts(h, a, b, k);
    HexOfParts(h, a + b, x, y);
  }

  /** No chunk hashes like the empty string, one chunk gives its own hash. */
  lemma RootOfSmall(h: Hash32, c: Bytes)
    ensures Root(h, []) == Hex(h([])) && Root(h, [c]) == Hex(h(c))
  {
    assert HashAll(h, [c]) == [h(c)];
  }

  /** The two laws determine the root of every list. */
  lemma RootIsDetermined(h: Hash32, root: seq<Bytes> -> Bytes, chunks: seq<Bytes>)
    requires FollowsParts(h, JoinWith(h), root) && chunks != []
    ensures Root(h, chunks) == Hex(root(chunks))
  {
    BinaryRootFollowsParts(h);
    PartsDetermineRoot(h, JoinWith(h), root, BinaryRoot(h), chunks);
    RootIsHex(h, chunks);
  }

  // ---------- why the count matters ----------

  lemma DuplicatedOddTailPairs(level: seq<Bytes>)
    requires |level| % 2 == 1
    ensures Pairs(level + [level[|level| - 1]]) == Pairs(level)
  {
  }

  /** Repeating the last chunk of an odd list of three or more leaves the root as it was, so
      the equal-count condition of `RootIsBinding` cannot be dropped. */
  lemma RootIgnoresDuplicatedOddTail(h: Hash32, chunks: seq<Bytes>)
    requires |chunks| % 2 == 1 && |chunks| > 1
    ensures Root(h, chunks + [chunks[|chunks| - 1]]) == Root(h, chunks)
  {
    var a, b := HashAll(h, chunks), HashAll(h, chunks + [chunks[|chunks| - 1]]);
    assert b == a + [a[|a| - 1]];
    DuplicatedOddTailPairs(a);
    assert Top(h, b) == Top(h, Up(h, b));
    assert Top(h, a) == Top(h, Up(h, a));
  }
}
