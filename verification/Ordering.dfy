/** Orders used by the sort calls of the program, and what those calls promise. */
module Ordering {

  /** A comparator that Go's `sort` package accepts, in its non-strict form. */
  ghost predicate TotalPreorder<T(!new)>(leq: (T, T) -> bool) {
    && (forall a, b :: leq(a, b) || leq(b, a))
    && (forall a, b, c :: leq(a, b) && leq(b, c) ==> leq(a, c))
  }

  ghost predicate Ascending<T(!new)>(xs: seq<T>, leq: (T, T) -> bool) {
    forall i, j :: 0 <= i < j < |xs| ==> leq(xs[i], xs[j])
  }

  /** Every member of `s`, each exactly once. */
  ghost predicate Lists<T>(xs: seq<T>, s: set<T>) {
    multiset(xs) == multiset(s)
  }

  function Insert<T>(x: T, ys: seq<T>, leq: (T, T) -> bool): (r: seq<T>)
    ensures multiset(r) == multiset(ys) + multiset{x}
  {
    if ys == [] || leq(x, ys[0]) then [x] + ys
    else
      assert ys == [ys[0]] + ys[1..];
      [ys[0]] + Insert(x, ys[1..], leq)
  }

  lemma {:induction false} InsertAscending<T(!new)>(x: T, ys: seq<T>, leq: (T, T) -> bool)
    requires TotalPreorder(leq) && Ascending(ys, leq)
    ensures Ascending(Insert(x, ys, leq), leq)
  {
    if ys != [] && !leq(x, ys[0]) {
      var rest := Insert(x, ys[1..], leq);
      InsertAscending(x, ys[1..], leq);
      forall j | 0 <= j < |rest| ensures leq(ys[0], rest[j]) {
        assert rest[j] in multiset(rest);
        assert rest[j] == x || rest[j] in ys[1..];
      }
    }
  }

  /** Go's `sort.Slice` and its relatives: any ascending permutation may come back. */
  method Sort<T(!new)>(xs: seq<T>, leq: (T, T) -> bool) returns (ys: seq<T>)
    requires TotalPreorder(leq)
    ensures multiset(ys) == multiset(xs)
    ensures |ys| == |xs|
    ensures Ascending(ys, leq)
  {
    ys := [];
    for i := 0 to |xs|
      invariant multiset(ys) == multiset(xs[..i])
      invariant Ascending(ys, leq)
    {
      InsertAscending(xs[i], ys, leq);
      ys := Insert(xs[i], ys, leq);
      assert xs[..i + 1] == xs[..i] + [xs[i]];
    }
    assert xs[..|xs|] == xs;
    assert |multiset(ys)| == |ys| && |multiset(xs)| == |xs|;
  }

  lemma MemberOfPermutation<T>(xs: seq<T>, ys: seq<T>, x: T)
    requires multiset(xs) == multiset(ys)
    ensures x in xs <==> x in ys
  {
    assert x in xs <==> x in multiset(xs);
    assert x in ys <==> x in multiset(ys);
  }

  ghost predicate AntisymmetricOn<T(!new)>(xs: seq<T>, leq: (T, T) -> bool) {
    forall a, b {:trigger leq(a, b), leq(b, a)} :: a in xs && b in xs && leq(a, b) && leq(b, a) ==> a == b
  }

  /** With an antisymmetric order the sorted permutation is unique, whatever order the
      elements were collected in. */
  lemma {:induction false} SortedIsUnique<T(!new)>(xs: seq<T>, ys: seq<T>, leq: (T, T) -> bool)
    requires TotalPreorder(leq) && AntisymmetricOn(xs, leq)
    requires multiset(xs) == multiset(ys) && Ascending(xs, leq) && Ascending(ys, leq)
    ensures xs == ys
  {
    SameLength(xs, ys);
    if xs != [] {
      SameFirst(xs, ys, leq);
      SameTail(xs, ys);
      AntisymmetricTail(xs, leq);
      AscendingTail(xs, leq);
      AscendingTail(ys, leq);
      SortedIsUnique(xs[1..], ys[1..], leq);
      assert xs == [xs[0]] + xs[1..] && ys == [ys[0]] + ys[1..];
    }
  }

  lemma SameLength<T>(xs: seq<T>, ys: seq<T>)
    requires multiset(xs) == multiset(ys)
    ensures |xs| == |ys|
  {
    assert |multiset(xs)| == |xs| && |multiset(ys)| == |ys|;
  }

  lemma SameTail<T>(xs: seq<T>, ys: seq<T>)
    requires multiset(xs) == multiset(ys) && xs != [] && ys != [] && xs[0] == ys[0]
    ensures multiset(xs[1..]) == multiset(ys[1..])
  {
    assert xs == [xs[0]] + xs[1..] && ys == [ys[0]] + ys[1..];
    assert multiset(xs[1..]) == multiset(xs) - multiset{xs[0]};
    assert multiset(ys[1..]) == multiset(ys) - multiset{ys[0]};
  }

  lemma AscendingTail<T(!new)>(xs: seq<T>, leq: (T, T) -> bool)
    requires Ascending(xs, leq) && xs != []
    ensures Ascending(xs[1..], leq)
  {
  }

  lemma AntisymmetricTail<T(!new)>(xs: seq<T>, leq: (T, T) -> bool)
    requires AntisymmetricOn(xs, leq) && xs != []
    ensures AntisymmetricOn(xs[1..], leq)
  {
    assert forall x :: x in xs[1..] ==> x in xs;
  }

  lemma SameFirst<T(!new)>(xs: seq<T>, ys: seq<T>, leq: (T, T) -> bool)
    requires TotalPreorder(leq) && AntisymmetricOn(xs, leq) && xs != [] && ys != []
    requires multiset(xs) == multiset(ys) && Ascending(xs, leq) && Ascending(ys, leq)
    ensures xs[0] == ys[0]
  {
    MemberOfPermutation(xs, ys, xs[0]);
    MemberOfPermutation(xs, ys, ys[0]);
    assert leq(xs[0], xs[0]) && leq(ys[0], ys[0]);
    assert leq(xs[0], ys[0]) && leq(ys[0], xs[0]);
  }

  ghost function Members<T(!new)>(xs: seq<T>): set<T> {
    set x | x in xs
  }

  lemma ListsMembers<T(!new)>(xs: seq<T>, s: set<T>)
    requires Lists(xs, s)
    ensures forall x :: x in xs <==> x in s
    ensures |xs| == |s|
  {
    forall x ensures x in xs <==> x in s {
      assert x in xs <==> x in multiset(xs);
    }
    assert |multiset(xs)| == |xs| && |multiset(s)| == |s|;
  }

  lemma ListsDistinct<T>(xs: seq<T>, s: set<T>, i: nat, j: nat)
    requires Lists(xs, s) && i < j < |xs|
    ensures xs[i] != xs[j]
  {
    assert xs == xs[..j] + ([xs[j]] + xs[j + 1..]);
    assert xs[i] in xs[..j];
    assert multiset(xs)[xs[i]] <= 1;
  }

  lemma {:induction false} SubsetSize<T>(a: set<T>, b: set<T>)
    requires a <= b
    ensures |a| <= |b|
  {
    if a != {} {
      var x :| x in a;
      SubsetSize(a - {x}, b - {x});
    }
  }

  /** The first n listed members are n different ones. */
  lemma {:induction false} ListsPrefixSize<T(!new)>(xs: seq<T>, s: set<T>, n: nat)
    requires Lists(xs, s) && n <= |xs|
    ensures |Members(xs[..n])| == n
  {
    if n == 0 {
      assert Members(xs[..0]) == {};
    } else {
      ListsPrefixSize(xs, s, n - 1);
      forall i | 0 <= i < n - 1 ensures xs[i] != xs[n - 1] {
        ListsDistinct(xs, s, i, n - 1);
      }
      assert xs[..n] == xs[..n - 1] + [xs[n - 1]];
      assert Members(xs[..n]) == Members(xs[..n - 1]) + {xs[n - 1]};
    }
  }

  lemma ListsExtend<T>(xs: seq<T>, s: set<T>, x: T)
    requires Lists(xs, s) && x !in s
    ensures Lists(xs + [x], s + {x})
  {
  }

  /** `sort.Ints` */
  ghost function SortedInts(xs: seq<int>): (r: seq<int>)
    ensures multiset(r) == multiset(xs) && Ascending(r, IntOrder)
  {
    if xs == [] then []
    else
      var n := |xs| - 1;
      assert xs == xs[..n] + [xs[n]];
      InsertAscending(xs[n], SortedInts(xs[..n]), IntOrder);
      Insert(xs[n], SortedInts(xs[..n]), IntOrder)
  }

  predicate IntOrder(a: int, b: int) {
    a <= b
  }

  method SortInts(xs: seq<int>) returns (ys: seq<int>)
    ensures ys == SortedInts(xs)
  {
    ys := Sort(xs, IntOrder);
    SortedIsUnique(ys, SortedInts(xs), IntOrder);
  }

  /** Some ascending listing of a set; the only one if the order is antisymmetric. */
  ghost function SortedSeq<T(!new)>(s: set<T>, leq: (T, T) -> bool): (r: seq<T>)
    requires TotalPreorder(leq)
    ensures Lists(r, s) && Ascending(r, leq)
  {
    if s == {} then []
    else
      var x :| x in s;
      var rest := SortedSeq(s - {x}, leq);
      InsertAscending(x, rest, leq);
      assert (s - {x}) + {x} == s;
      Insert(x, rest, leq)
  }

  /** Byte-wise order on Go strings (code point order gives the same result for UTF-8). */
  predicate LexLess(a: string, b: string) {
    b != [] && (a == [] || a[0] < b[0] || (a[0] == b[0] && LexLess(a[1..], b[1..])))
  }

  predicate LexLeq(a: string, b: string) {
    !LexLess(b, a)
  }

  /** `a` and `b` agree up to position `k`, where `a` ends or has the smaller character. */
  predicate SmallerAt(a: string, b: string, k: nat) {
    k <= |a| && k < |b| && a[..k] == b[..k] && (k == |a| || a[k] < b[k])
  }

  /** The recursive order is the dictionary order: the first difference decides. */
  lemma {:induction false} LexIsDictionaryOrder(a: string, b: string)
    ensures LexLess(a, b) <==> exists k: nat :: SmallerAt(a, b, k)
  {
    if a != [] && b != [] && a[0] == b[0] {
      LexIsDictionaryOrder(a[1..], b[1..]);
      if LexLess(a, b) {
        var k: nat :| SmallerAt(a[1..], b[1..], k);
        assert a[..k + 1] == [a[0]] + a[1..][..k] && b[..k + 1] == [b[0]] + b[1..][..k];
        assert SmallerAt(a, b, k + 1);
      }
      if k: nat :| SmallerAt(a, b, k) {
        assert k > 0;
        assert a[1..][..k - 1] == a[..k][1..] && b[1..][..k - 1] == b[..k][1..];
        assert SmallerAt(a[1..], b[1..], k - 1);
      }
    } else if LexLess(a, b) {
      assert SmallerAt(a, b, 0);
    } else if k: nat :| SmallerAt(a, b, k) && k > 0 {
      SmallerAgree(a, b, k);
    }
  }

  lemma SmallerAgree(a: string, b: string, k: nat)
    requires SmallerAt(a, b, k) && k > 0
    ensures a != [] && b != [] && a[0] == b[0]
  {
    assert a[..k][0] == b[..k][0];
  }

  lemma {:induction false} LexTransitive(a: string, b: string, c: string)
    requires LexLess(a, b) && LexLess(b, c)
    ensures LexLess(a, c)
  {
    if a != [] && a[0] == b[0] && b[0] == c[0] {
      LexTransitive(a[1..], b[1..], c[1..]);
    }
  }

  lemma {:induction false} LexTrichotomy(a: string, b: string)
    ensures LexLess(a, b) || LexLess(b, a) || a == b
    ensures !(LexLess(a, b) && LexLess(b, a))
  {
    if a != [] && b != [] && a[0] == b[0] {
      LexTrichotomy(a[1..], b[1..]);
      assert a == [a[0]] + a[1..] && b == [b[0]] + b[1..];
    }
  }

  lemma LexLeqTransitive(a: string, b: string, c: string)
    requires LexLeq(a, b) && LexLeq(b, c)
    ensures LexLeq(a, c)
  {
    if LexLess(c, a) {
      LexTrichotomy(a, b);
      if a != b {
        LexTransitive(c, a, b);
      }
      assert false;
    }
  }

  lemma LexOrder()
    ensures TotalPreorder(LexLeq)
  {
    forall a, b ensures LexLeq(a, b) || LexLeq(b, a) { LexTrichotomy(a, b); }
    forall a, b, c | LexLeq(a, b) && LexLeq(b, c) ensures LexLeq(a, c) {
      LexLeqTransitive(a, b, c);
    }
  }

  /** What `sort.Strings` leaves of a duplicate-free list: one listing, determined by the set. */
  ghost predicate SortedListing(xs: seq<string>, s: set<string>) {
    Lists(xs, s) && Ascending(xs, LexLeq)
  }

  lemma SortedListingIsUnique(xs: seq<string>, ys: seq<string>, s: set<string>)
    requires SortedListing(xs, s) && SortedListing(ys, s)
    ensures xs == ys
  {
    LexOrder();
    forall a, b | a in xs && b in xs && LexLeq(a, b) && LexLeq(b, a) ensures a == b {
      LexTrichotomy(a, b);
    }
    SortedIsUnique(xs, ys, LexLeq);
  }

  method SortStrings(xs: seq<string>, ghost s: set<string>) returns (ys: seq<string>)
    requires Lists(xs, s)
    ensures SortedListing(ys, s)
  {
    LexOrder();
    ys := Sort(xs, LexLeq);
  }

  /** Go's `range` over a set of keys: every member once, in an order the program cannot choose. */
  method Enumerate<T(==)>(s: set<T>) returns (xs: seq<T>)
    ensures Lists(xs, s)
  {
    xs := [];
    var rest := s;
    while rest != {}
      invariant rest <= s
      invariant Lists(xs, s - rest)
      decreases rest
    {
      var x :| x in rest;
      ListsExtend(xs, s - rest, x);
      assert (s - rest) + {x} == s - (rest - {x});
      xs := xs + [x];
      rest := rest - {x};
    }
    assert s - {} == s;
  }

  /** Go's `range` over a map whose values are distinct: every value once, in any order. */
  method Values<K(==), V(==)>(m: map<K, V>) returns (vs: seq<V>)
    requires forall j, k :: j in m && k in m && m[j] == m[k] ==> j == k
    ensures Lists(vs, m.Values)
  {
    vs := [];
    var rest := m.Keys;
    ghost var seen := {};
    while rest != {}
      invariant rest <= m.Keys
      invariant forall v :: v in seen <==> exists k :: k in m && k !in rest && m[k] == v
      invariant Lists(vs, seen)
      decreases rest
    {
      var k :| k in rest;
      ListsExtend(vs, seen, m[k]);
      vs := vs + [m[k]];
      seen := seen + {m[k]};
      rest := rest - {k};
    }
    assert seen == m.Values;
  }
}
