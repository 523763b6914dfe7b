/** internal/verify/receipts.go: what a receipt digest covers, and that it fixes the chunks. */
module ReceiptDigest {
  import opened BackupModel
  import opened Formats
  import opened ServiceSpec
  import opened ServiceContent

  /** The digest hashes, chunk by chunk, the text of the chunk's digest and then its data. */
  lemma {:induction false} DigestInputIsFlat(chunks: seq<Chunk>, parts: seq<Bytes>)
    requires |parts| == 2 * |chunks|
    requires forall i :: 0 <= i < |chunks| ==>
      parts[2 * i] == TextBytes(chunks[i].digest) && parts[2 * i + 1] == chunks[i].data
    ensures DigestInput(chunks) == Flatten(parts)
  {
    if chunks != [] {
      var n := |chunks| - 1;
      DigestInputIsFlat(chunks[..n], parts[..2 * n]);
      FlattenLastTwo(parts, 2 * n);
      assert parts[2 * n] == TextBytes(chunks[n].digest) && parts[2 * n + 1] == chunks[n].data;
    }
  }

  lemma FlattenLastTwo<T>(parts: seq<seq<T>>, n: nat)
    requires |parts| == n + 2
    ensures Flatten(parts) == Flatten(parts[..n]) + parts[n] + parts[n + 1]
  {
    var most := parts[..n + 1];
    assert most[..n] == parts[..n];
    assert Flatten(parts) == Flatten(most) + parts[n + 1];
    assert Flatten(most) == Flatten(most[..n]) + most[n];
  }

  lemma ReceiptCoversDigestsAndData(h: Hash32, snapshot: Snapshot, parts: seq<Bytes>)
    requires |parts| == 2 * |snapshot.chunks|
    requires forall i :: 0 <= i < |snapshot.chunks| ==>
      parts[2 * i] == TextBytes(snapshot.chunks[i].digest) && parts[2 * i + 1] == snapshot.chunks[i].data
    ensures SnapshotDigest(h, snapshot) == Hex(h(Flatten(parts)))
  {
    DigestInputIsFlat(snapshot.chunks, parts);
  }

  // ---------- taking the hashed string apart ----------

  lemma SplitEqual(a: Bytes, b: Bytes, x: Bytes, y: Bytes)
    requires a + b == x + y && |a| == |x|
    ensures a == x && b == y
  {
    assert (a + b)[..|a|] == a && (x + y)[..|x|] == x;
    assert (a + b)[|a|..] == b && (x + y)[|x|..] == y;
  }

  lemma {:induction false} FirstChunk(chunks: seq<Chunk>)
    requires chunks != []
    ensures DigestInput(chunks) == TextBytes(chunks[0].digest) + (chunks[0].data + DigestInput(chunks[1..]))
  {
    var n := |chunks| - 1;
    if n == 0 {
      OneChunk(chunks);
    } else {
      var most := chunks[..n];
      FirstChunk(most);
      SameEnds(chunks, n);
      LastChunk(chunks, 0);
      LastChunk(chunks, 1);
      Regroup(DigestInput(chunks), DigestInput(most), DigestInput(chunks[1..]), DigestInput(most[1..]),
              TextBytes(chunks[0].digest), chunks[0].data, TextBytes(chunks[n].digest), chunks[n].data);
    }
  }

  lemma OneChunk(chunks: seq<Chunk>)
    requires |chunks| == 1
    ensures DigestInput(chunks) == TextBytes(chunks[0].digest) + (chunks[0].data + DigestInput(chunks[1..]))
  {
    assert chunks[..0] == [] && chunks[1..] == [];
    assert DigestInput(chunks) == [] + TextBytes(chunks[0].digest) + chunks[0].data;
  }

  lemma SameEnds<T>(xs: seq<T>, n: nat)
    requires |xs| == n + 1 && n > 0
    ensures xs[0..] == xs && xs[0..n] == xs[..n] && xs[..n][1..] == xs[1..n] && xs[..n][0] == xs[0]
  {
  }

  lemma LastChunk(chunks: seq<Chunk>, i: nat)
    requires i < |chunks|
    ensures var n := |chunks| - 1;
      DigestInput(chunks[i..]) == DigestInput(chunks[i..n]) + TextBytes(chunks[n].digest) + chunks[n].data
  {
    var n := |chunks| - 1;
    assert chunks[i..][..n - i] == chunks[i..n] && chunks[i..][n - i] == chunks[n];
  }

  lemma Regroup<T>(
    whole: seq<T>, most: seq<T>, rest: seq<T>, middle: seq<T>, a: seq<T>, b: seq<T>, y: seq<T>, z: seq<T>)
    requires whole == most + y + z && most == a + (b + middle) && rest == middle + y + z
    ensures whole == a + (b + rest)
  {
  }

  predicate SingleBytes(s: string) {
    forall i :: 0 <= i < |s| ==> s[i] as int < 256
  }

  lemma TextBytesInjective(s: string, t: string)
    requires SingleBytes(s) && SingleBytes(t) && TextBytes(s) == TextBytes(t)
    ensures s == t
  {
    assert |TextBytes(s)| == |s| && |TextBytes(t)| == |t|;
    forall i | 0 <= i < |s| ensures s[i] == t[i] {
      assert TextBytes(s)[i] as int == s[i] as int && TextBytes(t)[i] as int == t[i] as int;
    }
  }

  predicate SameLengths(a: Chunk, b: Chunk) {
    |a.digest| == |b.digest| && |a.data| == |b.data|
  }

  predicate SameContent(a: Chunk, b: Chunk) {
    a.digest == b.digest && a.data == b.data
  }

  ghost predicate SameContents(a: seq<Chunk>, b: seq<Chunk>) {
    |a| == |b| && forall i :: 0 <= i < |a| ==> SameContent(a[i], b[i])
  }

  lemma SameTail(a: seq<Chunk>, b: seq<Chunk>)
    requires a != [] && b != [] && SameContent(a[0], b[0]) && SameContents(a[1..], b[1..])
    ensures SameContents(a, b)
  {
    forall i | 1 <= i < |a| ensures SameContent(a[i], b[i]) {
      assert SameContent(a[1..][i - 1], b[1..][i - 1]);
    }
  }

  lemma {:induction false} SameInput(a: seq<Chunk>, b: seq<Chunk>)
    requires SameContents(a, b)
    ensures DigestInput(a) == DigestInput(b)
  {
    if a != [] {
      SameInput(a[..|a| - 1], b[..|b| - 1]);
      assert SameContent(a[|a| - 1], b[|b| - 1]);
    }
  }

  lemma {:induction false} InputIsBinding(a: seq<Chunk>, b: seq<Chunk>)
    requires |a| == |b| && DigestInput(a) == DigestInput(b)
    requires forall i :: 0 <= i < |a| ==>
      SameLengths(a[i], b[i]) && SingleBytes(a[i].digest) && SingleBytes(b[i].digest)
    ensures SameContents(a, b)
  {
    if a != [] {
      FirstChunk(a);
      FirstChunk(b);
      assert SameLengths(a[0], b[0]);
      SplitEqual(TextBytes(a[0].digest), a[0].data + DigestInput(a[1..]),
                 TextBytes(b[0].digest), b[0].data + DigestInput(b[1..]));
      TextBytesInjective(a[0].digest, b[0].digest);
      SplitEqual(a[0].data, DigestInput(a[1..]), b[0].data, DigestInput(b[1..]));
      InputIsBinding(a[1..], b[1..]);
      SameTail(a, b);
    }
  }

  /** The hash does not send the two strings hashed for the receipts to the same value. */
  predicate InputsApart(h: Hash32, a: seq<Chunk>, b: seq<Chunk>) {
    h(DigestInput(a)) == h(DigestInput(b)) ==> DigestInput(a) == DigestInput(b)
  }

  /** Among chunk lists of the same shape a receipt digest fits only one. */
  lemma ReceiptIsBinding(h: Hash32, a: Snapshot, b: Snapshot)
    requires |a.chunks| == |b.chunks| && InputsApart(h, a.chunks, b.chunks)
    requires forall i :: 0 <= i < |a.chunks| ==>
      && SameLengths(a.chunks[i], b.chunks[i])
      && SingleBytes(a.chunks[i].digest) && SingleBytes(b.chunks[i].digest)
    ensures SnapshotDigest(h, a) == SnapshotDigest(h, b) <==> SameContents(a.chunks, b.chunks)
  {
    if SnapshotDigest(h, a) == SnapshotDigest(h, b) {
      HexInjective(h(DigestInput(a.chunks)), h(DigestInput(b.chunks)));
      InputIsBinding(a.chunks, b.chunks);
    } else if SameContents(a.chunks, b.chunks) {
      SameInput(a.chunks, b.chunks);
    }
  }

  // ---------- genuine chunks need no shape ----------

  lemma {:induction false} HexIsSingleBytes(b: Bytes)
    ensures SingleBytes(Hex(b))
  {
    if b != [] {
      HexIsSingleBytes(b[1..]);
      assert HexDigit(b[0] as int / 16) as int < 256 && HexDigit(b[0] as int % 16) as int < 256;
    }
  }

  ghost predicate Genuine(good: Chunk -> bool, chunks: seq<Chunk>) {
    forall k :: 0 <= k < |chunks| ==> good(chunks[k])
  }

  ghost predicate DataApart(h: Hash32, a: seq<Chunk>, b: seq<Chunk>) {
    forall i :: 0 <= i < |a| && i < |b| && h(a[i].data) == h(b[i].data) ==> a[i].data == b[i].data
  }

  lemma FirstIsBinding(h: Hash32, x: Chunk, y: Chunk, r: Bytes, s: Bytes)
    requires Honest(h)(x) && Honest(h)(y) && (h(x.data) == h(y.data) ==> x.data == y.data)
    requires TextBytes(x.digest) + (x.data + r) == TextBytes(y.digest) + (y.data + s)
    ensures SameContent(x, y) && r == s
  {
    SplitEqual(TextBytes(x.digest), x.data + r, TextBytes(y.digest), y.data + s);
    HexIsSingleBytes(h(x.data));
    HexIsSingleBytes(h(y.data));
    TextBytesInjective(x.digest, y.digest);
    HexInjective(h(x.data), h(y.data));
    SplitEqual(x.data, r, y.data, s);
  }

  lemma NotEmpty(h: Hash32, chunks: seq<Chunk>)
    requires chunks != [] && Honest(h)(chunks[0])
    ensures DigestInput(chunks) != []
  {
    FirstChunk(chunks);
    assert |TextBytes(chunks[0].digest)| == 64;
  }

  lemma {:induction false} GenuineInputIsBinding(h: Hash32, a: seq<Chunk>, b: seq<Chunk>)
    requires Genuine(Honest(h), a) && Genuine(Honest(h), b) && DataApart(h, a, b) && DigestInput(a) == DigestInput(b)
    ensures SameContents(a, b)
  {
    if a == [] && b != [] {
      NotEmpty(h, b);
    } else if a != [] && b == [] {
      NotEmpty(h, a);
    } else if a != [] {
      FirstChunk(a);
      FirstChunk(b);
      FirstIsBinding(h, a[0], b[0], DigestInput(a[1..]), DigestInput(b[1..]));
      TailsApart(h, a, b);
      GenuineInputIsBinding(h, a[1..], b[1..]);
      SameTail(a, b);
    }
  }

  lemma TailsApart(h: Hash32, a: seq<Chunk>, b: seq<Chunk>)
    requires a != [] && b != [] && DataApart(h, a, b)
    ensures DataApart(h, a[1..], b[1..])
  {
    forall i | 0 <= i < |a| - 1 && i < |b| - 1 && h(a[1..][i].data) == h(b[1..][i].data)
      ensures a[1..][i].data == b[1..][i].data
    {
      assert a[1..][i] == a[i + 1] && b[1..][i] == b[i + 1];
    }
  }

  /** For chunks that carry the hash of their data, as all published ones do, the receipt digest alone
      fixes count, digests and data. */
  lemma GenuineReceiptIsBinding(h: Hash32, a: Snapshot, b: Snapshot)
    requires Genuine(Honest(h), a.chunks) && Genuine(Honest(h), b.chunks)
    requires InputsApart(h, a.chunks, b.chunks) && DataApart(h, a.chunks, b.chunks)
    ensures SnapshotDigest(h, a) == SnapshotDigest(h, b) <==> SameContents(a.chunks, b.chunks)
  {
    if SnapshotDigest(h, a) == SnapshotDigest(h, b) {
      HexInjective(h(DigestInput(a.chunks)), h(DigestInput(b.chunks)));
      GenuineInputIsBinding(h, a.chunks, b.chunks);
    } else if SameContents(a.chunks, b.chunks) {
      SameInput(a.chunks, b.chunks);
    }
  }
}
