/** replsnap/stream.go, manifest.go, verifier.go and service.go: from a reader to a stored
    snapshot and back to its bytes. */
module SnapshotCapture {
  import opened Formats
  import opened MerkleTree
  import opened Ordering
  import opened SnapshotStore
  import opened ChainRestore
  import opened Pruning

  // ---------- readers ----------

  datatype ReadError = NoError | EOF | Failed(message: string)

  /** Data a reader hands out in one go, and the error that comes with its last byte. */
  datatype Offer = Offer(data: Bytes, err: ReadError)

  /** An `io.Reader` over any finite script of offers. An offer larger than the caller's buffer is
      handed out in buffer-sized pieces. */
  class Reader {
    var script: seq<Offer>

    constructor (script: seq<Offer>)
      ensures this.script == script
    {
      this.script := script;
    }

    method Read(size: nat) returns (data: Bytes, err: ReadError)
      requires size >= 1
      modifies this
      ensures |data| <= size
      ensures StreamEnd(old(script)) == AfterRead(data, err, StreamEnd(script))
      ensures EndsWithData(old(script)) <==>
                data != [] && (err.EOF? || (err.NoError? && EndsWithData(script)))
      ensures err.NoError? && data != [] ==> Volume(script) < Volume(old(script))
    {
      if script == [] {
        return [], EOF;
      }
      var offer := script[0];
      if |offer.data| > size {
        data, err := offer.data[..size], NoError;
        script := [Offer(offer.data[size..], offer.err)] + script[1..];
        assert offer.data == data + offer.data[size..];
        assert script[1..] == old(script)[1..];
      } else {
        data, err := offer.data, offer.err;
        script := script[1..];
      }
    }
  }

  /** How a stream ends, whatever buffer it is read with. */
  datatype StreamResult = Ended(content: Bytes) | Broke(message: string) | NoProgress

  function AfterRead(data: Bytes, err: ReadError, rest: StreamResult): StreamResult {
    match err
    case EOF => Ended(data)
    case Failed(message) => Broke(message)
    case NoError =>
      if data == [] then NoProgress
      else if rest.Ended? then Ended(data + rest.content) else rest
  }

  function StreamEnd(script: seq<Offer>): StreamResult {
    if script == [] then Ended([]) else AfterRead(script[0].data, script[0].err, StreamEnd(script[1..]))
  }

  /** The end is reported together with data, not by an empty read after it. */
  predicate EndsWithData(script: seq<Offer>) {
    script != [] && script[0].data != [] &&
    (script[0].err.EOF? || (script[0].err.NoError? && EndsWithData(script[1..])))
  }

  function Volume(script: seq<Offer>): nat {
    if script == [] then 0 else |script[0].data| + Volume(script[1..])
  }

  // ---------- frames ----------

  datatype Frame = Frame(data: Bytes, final: bool)

  datatype Error = BadBlockSize | ReadFailed(message: string) | ErrNoProgress | InvalidManifest | Cancelled

  datatype Result<T> = Ok(value: T) | Err(error: Error)

  ghost predicate GoodFrames(frames: seq<Frame>, blockSize: int) {
    forall i :: 0 <= i < |frames| ==> 1 <= |frames[i].data| <= blockSize
  }

  /** Only the last frame can be final, and it is when the end came with its data. */
  ghost predicate FinalFlags(frames: seq<Frame>, withData: bool) {
    && (forall i :: 0 <= i < |frames| ==> (frames[i].final <==> withData && i == |frames| - 1))
    && (withData ==> frames != [])
  }

  function FrameData(frames: seq<Frame>): (parts: seq<Bytes>)
    ensures |parts| == |frames|
  {
    seq(|frames|, i requires 0 <= i < |frames| => frames[i].data)
  }

  ghost function FrameBytes(frames: seq<Frame>): Bytes {
    Flatten(FrameData(frames))
  }

  lemma FrameBytesAppend(frames: seq<Frame>, frame: Frame)
    ensures FrameBytes(frames + [frame]) == FrameBytes(frames) + frame.data
  {
    assert FrameData(frames + [frame]) == FrameData(frames) + [frame.data];
    assert (FrameData(frames) + [frame.data])[..|frames|] == FrameData(frames);
  }

  /** What the whole stream ends in, given the frames read so far and the end of the rest. */
  ghost function Overall(read: Bytes, rest: StreamResult): StreamResult {
    if rest.Ended? then Ended(read + rest.content) else rest
  }

  method ReadFrames(reader: Reader, blockSize: int) returns (r: Result<seq<Frame>>)
    modifies reader
    ensures blockSize < 1 ==> r == Err(BadBlockSize)
    ensures blockSize >= 1 ==>
              match StreamEnd(old(reader.script))
              case Ended(content) =>
                && r.Ok? && GoodFrames(r.value, blockSize) && FrameBytes(r.value) == content
                && FinalFlags(r.value, EndsWithData(old(reader.script)))
              case Broke(message) => r == Err(ReadFailed(message))
              case NoProgress => r == Err(ErrNoProgress)
  {
    if blockSize < 1 {
      return Err(BadBlockSize);
    }
    var frames: seq<Frame> := [];
    while true
      invariant GoodFrames(frames, blockSize) && FinalFlags(frames, false)
      invariant EndsWithData(old(reader.script)) == EndsWithData(reader.script)
      invariant StreamEnd(old(reader.script)) == Overall(FrameBytes(frames), StreamEnd(reader.script))
      decreases Volume(reader.script)
    {
      ghost var before := frames;
      var data, err := reader.Read(blockSize);
      if |data| > 0 {
        FramesAppend(frames, Frame(data, err.EOF?), blockSize);
        frames := frames + [Frame(data, err.EOF?)];
      }
      OverallStep(FrameBytes(before), data, err, StreamEnd(reader.script));
      if !err.NoError? {
        if err.EOF? {
          return Ok(frames);
        }
        return Err(ReadFailed(err.message));
      }
      if |data| == 0 {
        return Err(ErrNoProgress);
      }
    }
  }

  lemma FramesAppend(frames: seq<Frame>, frame: Frame, blockSize: int)
    requires GoodFrames(frames, blockSize) && FinalFlags(frames, false) && 1 <= |frame.data| <= blockSize
    ensures GoodFrames(frames + [frame], blockSize) && FinalFlags(frames + [frame], frame.final)
    ensures FrameBytes(frames + [frame]) == FrameBytes(frames) + frame.data
  {
    FrameBytesAppend(frames, frame);
  }

  lemma OverallStep(read: Bytes, data: Bytes, err: ReadError, rest: StreamResult)
    ensures Overall(read, AfterRead(data, err, rest)) ==
            match err
            case EOF => Ended(read + data)
            case Failed(message) => Broke(message)
            case NoError => if data == [] then NoProgress else Overall(read + data, rest)
  {
    assert rest.Ended? ==> read + (data + rest.content) == (read + data) + rest.content;
  }

  // ---------- manifests ----------

  ghost predicate Matches(h: Hash32, manifest: Manifest, chunks: seq<Bytes>) {
    && manifest.snapshotID != "" && |manifest.chunks| == |chunks| && chunks != []
    && (forall i :: 0 <= i < |chunks| ==> ChunkMatches(h, manifest.chunks[i], i, chunks[i]))
    && manifest.merkleRoot == Root(h, chunks)
  }

  predicate ChunkMatches(h: Hash32, meta: ChunkMeta, index: int, chunk: Bytes) {
    meta.index == index && meta.size == |chunk| && meta.digest == Digest(h, chunk)
  }

  /** What the manifest records of one frame. */
  ghost predicate Described(h: Hash32, meta: ChunkMeta, index: int, frame: Frame) {
    ChunkMatches(h, meta, index, frame.data) && meta.final == frame.final
  }

  ghost predicate AllDescribed(h: Hash32, metadata: seq<ChunkMeta>, frames: seq<Frame>) {
    |metadata| == |frames| && forall i :: 0 <= i < |frames| ==> Described(h, metadata[i], i, frames[i])
  }

  ghost predicate NoneEmpty(frames: seq<Frame>) {
    forall i :: 0 <= i < |frames| ==> frames[i].data != []
  }

  method BuildManifest(h: Hash32, snapshotID: string, frames: seq<Frame>) returns (r: Result<(Manifest, seq<Bytes>)>)
    ensures r.Ok? <==> snapshotID != "" && frames != [] && NoneEmpty(frames)
    ensures r.Ok? ==> r.value.1 == FrameData(frames) && r.value.0.snapshotID == snapshotID
    ensures r.Ok? ==> Matches(h, r.value.0, r.value.1) && AllDescribed(h, r.value.0.chunks, frames)
    ensures r.Err? ==> r.error == InvalidManifest
  {
    if snapshotID == "" || |frames| == 0 {
      return Err(InvalidManifest);
    }
    var complete, metadata, chunks := DescribeFrames(h, frames);
    if !complete {
      return Err(InvalidManifest);
    }
    var root, _ := MerkleRoot(h, chunks);
    var manifest := Manifest(snapshotID, metadata, root);
    DescribedMatches(h, manifest, frames);
    r := Ok((manifest, chunks));
  }

  lemma DescribedMatches(h: Hash32, manifest: Manifest, frames: seq<Frame>)
    requires AllDescribed(h, manifest.chunks, frames) && frames != []
    requires manifest.snapshotID != "" && manifest.merkleRoot == Root(h, FrameData(frames))
    ensures Matches(h, manifest, FrameData(frames))
  {
    forall i | 0 <= i < |frames| ensures ChunkMatches(h, manifest.chunks[i], i, FrameData(frames)[i]) {
      assert Described(h, manifest.chunks[i], i, frames[i]);
    }
  }

  /** The loop over the frames; it stops at an empty one. */
  method DescribeFrames(h: Hash32, frames: seq<Frame>)
    returns (complete: bool, metadata: seq<ChunkMeta>, chunks: seq<Bytes>)
    ensures complete <==> NoneEmpty(frames)
    ensures complete ==> chunks == FrameData(frames) && AllDescribed(h, metadata, frames)
  {
    chunks, metadata := [], [];
    for index := 0 to |frames|
      invariant |chunks| == |metadata| == index
      invariant forall i :: 0 <= i < index ==> frames[i].data != [] && chunks[i] == frames[i].data
      invariant forall i :: 0 <= i < index ==> Described(h, metadata[i], i, frames[i])
    {
      var data := frames[index].data;
      if |data| == 0 {
        complete := false;
        return;
      }
      chunks := chunks + [data];
      metadata := metadata + [ChunkMeta(index, |data|, Digest(h, data), frames[index].final)];
    }
    complete := true;
  }

  method VerifyManifest(h: Hash32, manifest: Manifest, chunks: seq<Bytes>) returns (ok: bool)
    ensures ok <==> Matches(h, manifest, chunks)
  {
    if manifest.snapshotID == "" || |manifest.chunks| != |chunks| || |chunks| == 0 {
      return false;
    }
    for index := 0 to |chunks|
      invariant forall i :: 0 <= i < index ==> ChunkMatches(h, manifest.chunks[i], i, chunks[i])
    {
      if !ChunkMatches(h, manifest.chunks[index], index, chunks[index]) {
        return false;
      }
    }
    var root, _ := MerkleRoot(h, chunks);
    ok := manifest.merkleRoot == root;
  }

  /** A manifest that accepts chunks records index, size and hexadecimal hash of each, and their root. */
  lemma ManifestRecords(h: Hash32, manifest: Manifest, chunks: seq<Bytes>, i: nat)
    requires Matches(h, manifest, chunks)
    ensures |manifest.chunks| == |chunks| && manifest.merkleRoot == Hex(BinaryRoot(h)(chunks))
    ensures i < |chunks| ==>
      && manifest.chunks[i].index == i && manifest.chunks[i].size == |chunks[i]|
      && manifest.chunks[i].digest == Hex(h(chunks[i]))
  {
    RootIsHex(h, chunks);
    assert i < |chunks| ==> ChunkMatches(h, manifest.chunks[i], i, chunks[i]);
  }

  /** A manifest accepts at most one chunk list, if the hash does not collide on the strings
      hashed for the two candidates. */
  lemma ManifestIsBinding(h: Hash32, manifest: Manifest, a: seq<Bytes>, b: seq<Bytes>)
    requires Matches(h, manifest, a) && Matches(h, manifest, b)
    requires InjectiveOn(h, Hashed(h, a) + Hashed(h, b))
    ensures a == b
  {
    RootIsBinding(h, a, b);
  }

  // ---------- the service ----------

  /** Every stored snapshot carries a matching manifest and exactly the bytes of its source. */
  ghost predicate Faithful(h: Hash32, m: Snapshots, sources: map<string, Bytes>) {
    forall id :: id in m ==>
      && id in sources && Flatten(m[id].chunks) == sources[id]
      && m[id].manifest.snapshotID == id && Matches(h, m[id].manifest, m[id].chunks)
  }

  /** Which error a capture that fails reports: the first check that does not pass. */
  ghost function CaptureError(cancelled: bool, id: string, blockSize: int, stream: StreamResult): Error {
    if cancelled then Cancelled
    else if id == "" then InvalidManifest
    else if blockSize < 1 then BadBlockSize
    else match stream
      case Broke(message) => ReadFailed(message)
      case NoProgress => ErrNoProgress
      case Ended(_) => InvalidManifest
  }

  class SnapshotService {
    const h: Hash32
    const store: MemoryStore
    /** Content of the stream last captured under each ID. */
    ghost var sources: map<string, Bytes>

    ghost predicate Valid()
      reads this, store
    {
      store.Valid() && Faithful(h, store.snapshots, sources)
    }

    constructor (h: Hash32)
      ensures Valid() && fresh(store) && store.snapshots == map[]
    {
      this.h := h;
      store := new MemoryStore();
      sources := map[];
    }

    method Capture(cancelled: bool, meta: SnapshotMeta, reader: Reader, blockSize: int) returns (r: Result<Snapshot>)
      requires Valid()
      modifies store, reader, this`sources
      ensures Valid()
      ensures r.Ok? <==> !cancelled && meta.id != "" && blockSize >= 1
                         && StreamEnd(old(reader.script)).Ended? && StreamEnd(old(reader.script)).content != []
      ensures r.Err? ==> r.error == CaptureError(cancelled, meta.id, blockSize, StreamEnd(old(reader.script)))
      ensures r.Ok? ==> r.value.meta == meta && Flatten(r.value.chunks) == StreamEnd(old(reader.script)).content
      ensures r.Ok? ==> store.snapshots == old(store.snapshots)[meta.id := r.value]
      ensures r.Ok? ==> sources == old(sources)[meta.id := StreamEnd(old(reader.script)).content]
      ensures r.Err? ==> store.snapshots == old(store.snapshots) && sources == old(sources)
    {
      if cancelled {
        return Err(Cancelled);
      }
      if meta.id == "" {
        return Err(InvalidManifest);
      }
      var frames := ReadFrames(reader, blockSize);
      if frames.Err? {
        return Err(frames.error);
      }
      var built := BuildManifest(h, meta.id, frames.value);
      FramesEmptyIff(frames.value, blockSize);
      if built.Err? {
        return Err(built.error);
      }
      var (manifest, chunks) := built.value;
      var ok := VerifyManifest(h, manifest, chunks);
      if !ok {
        return Err(InvalidManifest);
      }
      var snapshot := Snapshot(meta, manifest, chunks);
      sources := sources[meta.id := Flatten(chunks)];
      store.Save(snapshot);
      r := Ok(snapshot);
    }

    method Prune(keepNewest: int) returns (removed: seq<string>)
      requires Valid()
      modifies store
      ensures Valid()
      ensures store.snapshots == Pruned(old(store.snapshots), keepNewest)
      ensures SortedListing(removed, old(store.snapshots).Keys - store.snapshots.Keys)
    {
      removed := ApplyRetention(store, keepNewest);
    }
  }

  lemma FramesEmptyIff(frames: seq<Frame>, blockSize: int)
    requires GoodFrames(frames, blockSize)
    ensures frames == [] <==> FrameBytes(frames) == []
  {
    if frames != [] {
      var n := |frames| - 1;
      assert frames == frames[..n] + [frames[n]];
      FrameBytesAppend(frames[..n], frames[n]);
    }
  }

  // ---------- round trip ----------

  /** The source streams along a complete chain, base first. */
  ghost function SourceBytes(m: Snapshots, sources: map<string, Bytes>, id: string, n: nat): Bytes
    requires Complete(m, id, n) && forall k :: k in m ==> k in sources
    decreases n
  {
    if id == "" then [] else SourceBytes(m, sources, m[id].meta.baseID, n - 1) + sources[id]
  }

  lemma {:induction false} ChainBytesAreSources(
    h: Hash32, m: Snapshots, sources: map<string, Bytes>, id: string, n: nat)
    requires Faithful(h, m, sources) && Complete(m, id, n)
    ensures ChainBytes(ChainOf(m, id, n)) == SourceBytes(m, sources, id, n)
    decreases n
  {
    if id != "" {
      var base := m[id].meta.baseID;
      ChainBytesAreSources(h, m, sources, base, n - 1);
      assert ChainOf(m, id, n)[..n - 1] == ChainOf(m, base, n - 1);
    }
  }

  /** For any store the service can reach: restoring a snapshot whose chain is complete gives the
      captured streams concatenated base first, and pruning does not change that. */
  lemma RestoreRoundTrip(h: Hash32, m: Snapshots, sources: map<string, Bytes>, id: string, n: nat, k: int)
    requires Faithful(h, m, sources) && Complete(m, id, n)
    ensures Resolve(m, id).Chain?
    ensures ChainBytes(Resolve(m, id).chain) == SourceBytes(m, sources, id, n)
    ensures id in Pruned(m, k) ==> Resolve(Pruned(m, k), id) == Resolve(m, id)
  {
    ResolveDecides(m, id);
    ChainBytesAreSources(h, m, sources, id, n);
    if id in Pruned(m, k) {
      PruningPreservesRestore(m, k, id);
    }
  }
}
