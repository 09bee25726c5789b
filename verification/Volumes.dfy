/**
 Volumes as values: what a manifest, a dirty overlay and an object store
 together mean as one flat byte string, and the facts that keep that meaning
 in place while the store grows.

 SHA-256 is taken to be free of collisions: an identifier is a free
 constructor over the chunk's bytes, and `HashInjective` is the only property
 of it that is used.
 */
module Volumes {
  import opened Bytes
  import opened Chunks
  import opened Wire

  type Id = string

  datatype ChunkId = Digest(preimage: Bytes)

  function HashChunk(b: Bytes): ChunkId {
    Digest(b)
  }

  lemma HashInjective(a: Bytes, b: Bytes)
    requires HashChunk(a) == HashChunk(b)
    ensures a == b
  {
  }

  type Manifest = map<int, ChunkId>
  type WireManifest = map<string, ChunkId>

  datatype Geometry = Geometry(sizeBytes: int, chunkSize: int) {
    /** The number of bytes that can be addressed: none unless both sizes are positive. */
    function Size(): nat {
      if chunkSize > 0 && sizeBytes > 0 then sizeBytes else 0
    }

    /** The request lies in the device. */
    predicate Contains(offset: int, length: int) {
      chunkSize > 0 && 0 <= offset && 0 <= length && offset + length <= sizeBytes
    }

    /** Moreover the end of the last chunk it touches is an int64 value, so that it can be cut into ranges. */
    predicate Takes(offset: int, length: int) {
      Contains(offset, length) && Fits(offset, length, chunkSize)
    }

    /** It lies in the device, but the end of its last chunk is not an int64 value. */
    predicate Overreaches(offset: int, length: int) {
      Contains(offset, length) && !Fits(offset, length, chunkSize)
    }

    /** The sizes are int64 values. */
    predicate Int64Sized() {
      -TWO_63 <= sizeBytes < TWO_63 && -TWO_63 <= chunkSize < TWO_63
    }

    /** The end of the last chunk is an int64 value too. */
    predicate Addressable() {
      Int64Sized() && (Size() > 0 ==> Fits(0, sizeBytes, chunkSize))
    }
  }

  /** That is exactly when every request in the device can be cut into ranges. */
  lemma AddressableExact(g: Geometry)
    requires g.Int64Sized()
    ensures g.Addressable() <==>
            forall offset: nat, length: nat :: g.Contains(offset, length) ==> Fits(offset, length, g.chunkSize)
  {
    if g.Addressable() {
      forall offset: nat, length: nat | g.Contains(offset, length)
        ensures Fits(offset, length, g.chunkSize)
      {
        AddressableFits(g, offset, length);
      }
    } else {
      assert g.Contains(0, g.sizeBytes);
    }
  }

  lemma AddressableFits(g: Geometry, offset: nat, length: nat)
    requires g.Addressable() && g.Contains(offset, length)
    ensures Fits(offset, length, g.chunkSize)
  {
    if length > 0 {
      FitsWithin(0, g.sizeBytes, offset, length, g.chunkSize);
    }
  }

  /** On such a volume no request overreaches. */
  lemma AddressableNeverOverreaches(g: Geometry, offset: int, length: int)
    requires g.Addressable()
    ensures !g.Overreaches(offset, length)
  {
    hide Fits;
    if g.Contains(offset, length) {
      AddressableFits(g, offset, length);
    }
  }

  /** A longer request overreaches if a shorter one does. */
  lemma LongerOverreaches(g: Geometry, offset: int, length: int, longer: int)
    requires g.Overreaches(offset, length) && length <= longer && g.Contains(offset, longer)
    ensures g.Overreaches(offset, longer)
  {
    hide Fits;
    if Fits(offset, longer, g.chunkSize) {
      FitsWithin(offset, longer, offset, length, g.chunkSize);
    }
  }

  datatype Volume = Volume(volumeId: Id, geometry: Geometry, latest: Option<Id>, lastNode: Id)

  /** Chunk objects and manifest objects have different key prefixes, so the key space is a sum. */
  datatype ManifestKey = ManifestKey(snapshotId: Id)

  datatype Snapshot = Snapshot(snapshotId: Id, volumeId: Id, manifestKey: ManifestKey)

  datatype BaseImage = BaseImage(imageId: Id, volumeId: Id, snapshotId: Id)

  datatype Store = Store(chunks: map<ChunkId, Bytes>, manifests: map<ManifestKey, WireManifest>)

  datatype Repo = Repo(volumes: map<Id, Volume>, snapshots: map<Id, Snapshot>, images: map<Id, BaseImage>)

  /** A session: a base manifest under a dirty overlay. `dirty` is the index set, `files` the overlay's chunk files. */
  datatype SessionState = SessionState(volume: Volume, baseSnapshot: Option<Id>, manifest: Manifest,
                                       dirty: set<int>, files: map<int, Bytes>)

  // ----- Meaning -----

  /** The chunk that overlay, manifest and store together hold at index `i`. */
  ghost function ChunkAt(g: Geometry, files: map<int, Bytes>, m: Manifest, chunks: map<ChunkId, Bytes>, i: int): Bytes {
    if i in files then files[i]
    else if i in m && m[i] in chunks then chunks[m[i]]
    else Zeros(Max(g.chunkSize, 0))
  }

  /** Byte `p`, zero past the end of a short chunk. */
  ghost function ByteAt(g: Geometry, files: map<int, Bytes>, m: Manifest, chunks: map<ChunkId, Bytes>, p: nat): Byte
    requires p < g.Size()
  {
    var c := ChunkAt(g, files, m, chunks, p / g.chunkSize);
    if p % g.chunkSize < |c| then c[p % g.chunkSize] else 0
  }

  ghost function Contents(g: Geometry, files: map<int, Bytes>, m: Manifest, chunks: map<ChunkId, Bytes>): (b: Bytes)
    ensures |b| == g.Size()
    ensures forall p :: 0 <= p < |b| ==> b[p] == ByteAt(g, files, m, chunks, p)
  {
    seq(g.Size(), p requires 0 <= p < g.Size() => ByteAt(g, files, m, chunks, p))
  }

  /** The flat device that a session shows. */
  ghost function View(s: SessionState, chunks: map<ChunkId, Bytes>): (b: Bytes)
    ensures |b| == s.volume.geometry.Size()
  {
    Contents(s.volume.geometry, s.files, s.manifest, chunks)
  }

  ghost predicate IsPrinted(w: WireManifest, m: Manifest) {
    w == ToWire(m)
  }

  /** The manifest that was printed as `w`. */
  ghost function ManifestOf(w: WireManifest): Manifest {
    if exists m :: IsPrinted(w, m) then var m :| IsPrinted(w, m); m else map[]
  }

  ghost function SnapshotManifest(repo: Repo, store: Store, sid: Id): Manifest
    requires sid in repo.snapshots && repo.snapshots[sid].manifestKey in store.manifests
  {
    ManifestOf(store.manifests[repo.snapshots[sid].manifestKey])
  }

  /** What snapshot `sid` decodes to on a device of geometry `g`. */
  ghost function Decode(repo: Repo, store: Store, sid: Id, g: Geometry): (b: Bytes)
    requires sid in repo.snapshots && repo.snapshots[sid].manifestKey in store.manifests
    ensures |b| == g.Size()
  {
    Contents(g, map[], SnapshotManifest(repo, store, sid), store.chunks)
  }

  /** The content a volume record points at: its latest snapshot, or zeros before the first commit. */
  ghost function LatestContent(repo: Repo, store: Store, v: Volume): (b: Bytes)
    requires v.latest.Some? ==> SnapshotOk(repo, store, v.latest.value)
    ensures |b| == v.geometry.Size()
  {
    if v.latest.None? then Zeros(v.geometry.Size()) else Decode(repo, store, v.latest.value, v.geometry)
  }

  // ----- Well-formedness -----

  predicate ChunksOk(chunks: map<ChunkId, Bytes>) {
    forall id :: id in chunks ==> HashChunk(chunks[id]) == id
  }

  /** Every entry is in range and names a stored object of exactly one chunk. */
  predicate ManifestOk(m: Manifest, g: Geometry, chunks: map<ChunkId, Bytes>) {
    forall i :: i in m ==> 0 <= i < g.Size() && m[i] in chunks && |chunks[m[i]]| == g.chunkSize
  }

  predicate FilesOk(files: map<int, Bytes>, g: Geometry) {
    forall i :: i in files ==> 0 <= i < g.Size() && |files[i]| == g.chunkSize
  }

  predicate SessionOk(s: SessionState, chunks: map<ChunkId, Bytes>) {
    && s.volume.geometry.Int64Sized()
    && ManifestOk(s.manifest, s.volume.geometry, chunks)
    && FilesOk(s.files, s.volume.geometry)
    && s.files.Keys <= s.dirty
  }

  /** No overlay file has been lost: true of a session until a failed clean-up. */
  predicate Intact(s: SessionState) {
    s.dirty == s.files.Keys
  }

  ghost predicate SnapshotOk(repo: Repo, store: Store, sid: Id) {
    && sid in repo.snapshots
    && var snap := repo.snapshots[sid];
    && snap.manifestKey == ManifestKey(sid)
    && snap.manifestKey in store.manifests
    && snap.volumeId in repo.volumes
    && IsPrinted(store.manifests[snap.manifestKey], SnapshotManifest(repo, store, sid))
    && ManifestOk(SnapshotManifest(repo, store, sid), repo.volumes[snap.volumeId].geometry, store.chunks)
  }

  /** The volume's pointer, when set, names a complete snapshot taken of a device of the same geometry. */
  ghost predicate PointerOk(repo: Repo, store: Store, v: Volume) {
    v.latest.Some? ==>
      && SnapshotOk(repo, store, v.latest.value)
      && repo.volumes[repo.snapshots[v.latest.value].volumeId].geometry == v.geometry
  }

  ghost predicate RepoOk(repo: Repo, store: Store) {
    && ChunksOk(store.chunks)
    && (forall v :: v in repo.volumes ==>
          && repo.volumes[v].volumeId == v
          && repo.volumes[v].geometry.Int64Sized()
          && PointerOk(repo, store, repo.volumes[v]))
    && (forall sid :: sid in repo.snapshots ==> SnapshotOk(repo, store, sid))
    && (forall i :: i in repo.images ==>
          && repo.images[i].snapshotId in repo.snapshots
          && repo.snapshots[repo.images[i].snapshotId].volumeId == repo.images[i].volumeId)
  }

  // ----- Growth: objects and records are added, never changed -----

  predicate StoreExtends(a: Store, b: Store) {
    && (forall id :: id in a.chunks ==> id in b.chunks && b.chunks[id] == a.chunks[id])
    && (forall k :: k in a.manifests ==> k in b.manifests && b.manifests[k] == a.manifests[k])
  }

  predicate RepoExtends(a: Repo, b: Repo) {
    && (forall v :: v in a.volumes ==> v in b.volumes && b.volumes[v].geometry == a.volumes[v].geometry)
    && (forall s :: s in a.snapshots ==> s in b.snapshots && b.snapshots[s] == a.snapshots[s])
    && (forall i :: i in a.images ==> i in b.images && b.images[i] == a.images[i])
  }

  // ----- Facts about meaning -----

  lemma ChunkLength(g: Geometry, files: map<int, Bytes>, m: Manifest, chunks: map<ChunkId, Bytes>, i: int)
    requires g.chunkSize > 0
    requires FilesOk(files, g) && ManifestOk(m, g, chunks)
    ensures |ChunkAt(g, files, m, chunks, i)| == g.chunkSize
  {
  }

  /** Two overlays that hold the same chunks show the same device. */
  lemma SameChunksSameContents(g: Geometry,
                               filesA: map<int, Bytes>, mA: Manifest, chunksA: map<ChunkId, Bytes>,
                               filesB: map<int, Bytes>, mB: Manifest, chunksB: map<ChunkId, Bytes>)
    requires forall i :: ChunkAt(g, filesA, mA, chunksA, i) == ChunkAt(g, filesB, mB, chunksB, i)
    ensures Contents(g, filesA, mA, chunksA) == Contents(g, filesB, mB, chunksB)
  {
    var a, b := Contents(g, filesA, mA, chunksA), Contents(g, filesB, mB, chunksB);
    forall p | 0 <= p < g.Size()
      ensures a[p] == b[p]
    {
      assert ChunkAt(g, filesA, mA, chunksA, p / g.chunkSize) == ChunkAt(g, filesB, mB, chunksB, p / g.chunkSize);
    }
  }

  /** A growing store leaves every well-formed device as it was. */
  lemma ContentsStable(g: Geometry, files: map<int, Bytes>, m: Manifest,
                       chunks: map<ChunkId, Bytes>, more: map<ChunkId, Bytes>)
    requires ManifestOk(m, g, chunks)
    requires forall id :: id in chunks ==> id in more && more[id] == chunks[id]
    ensures ManifestOk(m, g, more)
    ensures Contents(g, files, m, more) == Contents(g, files, m, chunks)
  {
    SameChunksSameContents(g, files, m, more, files, m, chunks);
  }

  lemma EmptyContents(g: Geometry, chunks: map<ChunkId, Bytes>)
    ensures Contents(g, map[], map[], chunks) == Zeros(g.Size())
  {
  }

  /** Reading the part of a chunk that a range names reads that range of the device. */
  lemma RangeOfContents(g: Geometry, files: map<int, Bytes>, m: Manifest, chunks: map<ChunkId, Bytes>,
                        offset: nat, length: nat, k: nat)
    requires g.chunkSize > 0 && offset + length <= g.Size()
    requires FilesOk(files, g) && ManifestOk(m, g, chunks)
    requires k < |Ranges(offset, length, g.chunkSize)|
    ensures
      var r := Ranges(offset, length, g.chunkSize)[k];
      && 0 <= r.reqStart <= r.reqEnd <= g.Size()
      && 0 <= r.chunkStart <= r.chunkStart + r.reqEnd - r.reqStart <= |ChunkAt(g, files, m, chunks, r.index)|
      && ChunkAt(g, files, m, chunks, r.index)[r.chunkStart..r.chunkStart + r.reqEnd - r.reqStart]
      == Contents(g, files, m, chunks)[r.reqStart..r.reqEnd]
  {
    hide Ranges, ChunkAt, FilesOk, ManifestOk, Contents;
    var r := Ranges(offset, length, g.chunkSize)[k];
    var c, b := ChunkAt(g, files, m, chunks, r.index), Contents(g, files, m, chunks);
    RangeFacts(offset, length, g.chunkSize, k);
    ChunkLength(g, files, m, chunks, r.index);
    forall p | r.reqStart <= p < r.reqEnd
      ensures b[p] == c[r.chunkStart + (p - r.reqStart)]
    {
      RangeBytes(offset, length, g.chunkSize, k, p);
    }
    assert c[r.chunkStart..r.chunkStart + r.reqEnd - r.reqStart] == b[r.reqStart..r.reqEnd];
  }

  /** Patching one chunk and putting it in the overlay splices the patch into the device and touches nothing else. */
  lemma PatchedContents(g: Geometry, files: map<int, Bytes>, m: Manifest, chunks: map<ChunkId, Bytes>,
                        offset: nat, length: nat, k: nat, part: Bytes)
    requires g.chunkSize > 0 && offset + length <= g.Size()
    requires FilesOk(files, g) && ManifestOk(m, g, chunks)
    requires k < |Ranges(offset, length, g.chunkSize)|
    requires var r := Ranges(offset, length, g.chunkSize)[k]; |part| == r.reqEnd - r.reqStart
    ensures
      var r := Ranges(offset, length, g.chunkSize)[k];
      && 0 <= r.chunkStart && r.chunkStart + |part| <= |ChunkAt(g, files, m, chunks, r.index)|
      && 0 <= r.reqStart && r.reqStart + |part| <= g.Size()
      && var patched := Splice(ChunkAt(g, files, m, chunks, r.index), r.chunkStart, part);
         && FilesOk(files[r.index := patched], g)
         && Contents(g, files[r.index := patched], m, chunks) == Splice(Contents(g, files, m, chunks), r.reqStart, part)
  {
    hide Ranges, ChunkAt, ManifestOk, Contents, ByteAt, Splice;
    var r := Ranges(offset, length, g.chunkSize)[k];
    RangeFacts(offset, length, g.chunkSize, k);
    ChunkLength(g, files, m, chunks, r.index);
    var c := ChunkAt(g, files, m, chunks, r.index);
    var patched := Splice(c, r.chunkStart, part);
    var a := Contents(g, files[r.index := patched], m, chunks);
    var b := Splice(Contents(g, files, m, chunks), r.reqStart, part);
    forall p | 0 <= p < g.Size()
      ensures a[p] == b[p]
    {
      PatchedByte(g, files, m, chunks, offset, length, k, part, p);
    }
  }

  lemma PatchedByte(g: Geometry, files: map<int, Bytes>, m: Manifest, chunks: map<ChunkId, Bytes>,
                    offset: nat, length: nat, k: nat, part: Bytes, p: nat)
    requires g.chunkSize > 0 && offset + length <= g.Size() && p < g.Size()
    requires k < |Ranges(offset, length, g.chunkSize)|
    requires
      var r := Ranges(offset, length, g.chunkSize)[k];
      && |part| == r.reqEnd - r.reqStart
      && 0 <= r.chunkStart && r.chunkStart + |part| <= |ChunkAt(g, files, m, chunks, r.index)|
    ensures
      var r := Ranges(offset, length, g.chunkSize)[k];
      var patched := Splice(ChunkAt(g, files, m, chunks, r.index), r.chunkStart, part);
      ByteAt(g, files[r.index := patched], m, chunks, p)
      == if r.reqStart <= p < r.reqEnd then part[p - r.reqStart] else ByteAt(g, files, m, chunks, p)
  {
    var r := Ranges(offset, length, g.chunkSize)[k];
    RangeFacts(offset, length, g.chunkSize, k);
    var i := p / g.chunkSize;
    if r.reqStart <= p < r.reqEnd {
      RangeBytes(offset, length, g.chunkSize, k, p);
    } else if i == r.index {
      DivBounds(p, g.chunkSize);
      ChunkOfByte(p, g.chunkSize, i);
    }
  }

  /** One round of a read: the part of the next chunk extends what has been read so far. */
  lemma ReadNext(g: Geometry, files: map<int, Bytes>, m: Manifest, chunks: map<ChunkId, Bytes>,
                 offset: nat, length: nat, k: nat, chunk: Bytes)
    requires g.chunkSize > 0 && offset + length <= g.Size()
    requires FilesOk(files, g) && ManifestOk(m, g, chunks)
    requires k < |Ranges(offset, length, g.chunkSize)|
    requires PaddedSlice(chunk, 0, g.chunkSize)
          == ChunkAt(g, files, m, chunks, Ranges(offset, length, g.chunkSize)[k].index)
    ensures
      var rs := Ranges(offset, length, g.chunkSize);
      var b := Contents(g, files, m, chunks);
      && offset <= Reached(offset, rs, k) <= Reached(offset, rs, k + 1) <= offset + length
      && 0 <= rs[k].chunkStart && 0 <= rs[k].reqEnd - rs[k].reqStart
      && b[offset..Reached(offset, rs, k)] + PaddedSlice(chunk, rs[k].chunkStart, rs[k].reqEnd - rs[k].reqStart)
      == b[offset..Reached(offset, rs, k + 1)]
  {
    hide ChunkAt, Contents;
    var r := Ranges(offset, length, g.chunkSize)[k];
    ReachedFacts(offset, length, g.chunkSize, k);
    RangeFacts(offset, length, g.chunkSize, k);
    RangeOfContents(g, files, m, chunks, offset, length, k);
    var n := r.reqEnd - r.reqStart;
    assert PaddedSlice(chunk, r.chunkStart, n) == PaddedSlice(chunk, 0, g.chunkSize)[r.chunkStart..r.chunkStart + n];
    var b := Contents(g, files, m, chunks);
    assert b[offset..r.reqStart] + b[r.reqStart..r.reqEnd] == b[offset..r.reqEnd];
  }

  /** A read of `view` has got through `k` ranges, and `out` is what they hold. */
  ghost predicate Reading(g: Geometry, view: Bytes, offset: nat, length: nat, k: nat, out: Bytes) {
    && g.chunkSize > 0 && offset + length <= |view|
    && k <= |Ranges(offset, length, g.chunkSize)|
    && var reached := Reached(offset, Ranges(offset, length, g.chunkSize), k);
    && offset <= reached <= offset + length && out == view[offset..reached]
    && (k == |Ranges(offset, length, g.chunkSize)| ==> Fits(offset, length, g.chunkSize))
  }

  /** One round with the range that int64 arithmetic gives: it goes through, or overruns the buffer. */
  lemma ReadingRound(s: SessionState, chunks: map<ChunkId, Bytes>, offset: nat, length: nat, k: nat, out: Bytes,
                     r: ChunkRange)
    requires s.volume.geometry.chunkSize > 0 && SessionOk(s, chunks)
    requires Reading(s.volume.geometry, View(s, chunks), offset, length, k, out)
    requires k < |MachineRanges(offset, length, s.volume.geometry.chunkSize)|
    requires r == MachineRanges(offset, length, s.volume.geometry.chunkSize)[k]
    ensures k < |Ranges(offset, length, s.volume.geometry.chunkSize)|
    ensures r.index == Ranges(offset, length, s.volume.geometry.chunkSize)[k].index
    ensures
      var g := s.volume.geometry;
      var n := Wrap64(r.reqEnd - r.reqStart);
      var chunk := ChunkAt(g, s.files, s.manifest, chunks, r.index);
      && 0 <= n && 0 <= r.chunkStart && r.chunkStart + n <= g.chunkSize
      && (|out| + n > length ==> !Fits(offset, length, g.chunkSize))
      && (|out| + n <= length ==>
            Reading(g, View(s, chunks), offset, length, k + 1, out + PaddedSlice(chunk, r.chunkStart, n)))
  {
    hide ChunkAt, Contents, Ranges, MachineRanges, Fits, FilesOk, ManifestOk;
    var g := s.volume.geometry;
    NoRanges(offset, length, g.chunkSize);
    RangeFacts(offset, length, g.chunkSize, k);
    MachineRangeFacts(offset, length, g.chunkSize, k);
    ReachedFacts(offset, length, g.chunkSize, k);
    var chunk := ChunkAt(g, s.files, s.manifest, chunks, r.index);
    ChunkLength(g, s.files, s.manifest, chunks, r.index);
    PaddedSliceInside(chunk, 0, g.chunkSize);
    ReadNext(g, s.files, s.manifest, chunks, offset, length, k, chunk);
    OverrunsWhenUnfit(offset, length, g.chunkSize, |Ranges(offset, length, g.chunkSize)|);
  }

  lemma ReadingStarts(s: SessionState, chunks: map<ChunkId, Bytes>, offset: nat, length: nat)
    requires s.volume.geometry.chunkSize > 0 && offset + length <= s.volume.geometry.Size()
    ensures Reading(s.volume.geometry, View(s, chunks), offset, length, 0, [])
  {
    hide Contents, Fits, Ranges;
    NoRanges(offset, length, s.volume.geometry.chunkSize);
  }

  lemma ReadingEnds(g: Geometry, view: Bytes, offset: nat, length: nat, out: Bytes)
    requires g.chunkSize > 0
    requires Reading(g, view, offset, length, |Ranges(offset, length, g.chunkSize)|, out)
    ensures Fits(offset, length, g.chunkSize) && offset + length <= |view| && out == view[offset..offset + length]
  {
    hide Ranges, Fits;
    ReachedFacts(offset, length, g.chunkSize, |Ranges(offset, length, g.chunkSize)|);
  }

  /** The part of a write that goes into its `k`-th range. */
  function WritePart(offset: nat, data: Bytes, chunkSize: int, k: nat): (part: Bytes)
    requires chunkSize > 0 && k < |Ranges(offset, |data|, chunkSize)|
    ensures |part| == Ranges(offset, |data|, chunkSize)[k].reqEnd - Ranges(offset, |data|, chunkSize)[k].reqStart
  {
    RangeFacts(offset, |data|, chunkSize, k);
    var r := Ranges(offset, |data|, chunkSize)[k];
    data[r.reqStart - offset..r.reqEnd - offset]
  }

  /** That part is what is left of the data after the earlier ranges, cut to the length of the range. */
  lemma WritePartFacts(offset: nat, data: Bytes, chunkSize: int, k: nat)
    requires chunkSize > 0 && k < |Ranges(offset, |data|, chunkSize)|
    ensures
      var rs := Ranges(offset, |data|, chunkSize);
      var pos, n := Reached(offset, rs, k) - offset, rs[k].reqEnd - rs[k].reqStart;
      && 0 <= pos <= pos + n <= |data|
      && pos + n == Reached(offset, rs, k + 1) - offset
      && (k + 1 == |rs| ==> pos + n == |data|)
      && data[pos..][..n] == WritePart(offset, data, chunkSize, k)
  {
    RangeFacts(offset, |data|, chunkSize, k);
    ReachedFacts(offset, |data|, chunkSize, k);
    ReachedFacts(offset, |data|, chunkSize, k + 1);
  }

  /** Patching the next chunk splices the next part of the data into the device. */
  lemma WritePatch(g: Geometry, files: map<int, Bytes>, m: Manifest, chunks: map<ChunkId, Bytes>,
                   offset: nat, data: Bytes, k: nat)
    requires g.chunkSize > 0 && offset + |data| <= g.Size()
    requires FilesOk(files, g) && ManifestOk(m, g, chunks)
    requires k < |Ranges(offset, |data|, g.chunkSize)|
    ensures
      var r := Ranges(offset, |data|, g.chunkSize)[k];
      var part := WritePart(offset, data, g.chunkSize, k);
      && 0 <= r.chunkStart && r.chunkStart + |part| <= |ChunkAt(g, files, m, chunks, r.index)| == g.chunkSize
      && 0 <= r.reqStart && r.reqStart + |part| <= g.Size()
      && 0 <= r.index < g.Size()
      && var files' := files[r.index := Splice(ChunkAt(g, files, m, chunks, r.index), r.chunkStart, part)];
         FilesOk(files', g) && Contents(g, files', m, chunks) == Splice(Contents(g, files, m, chunks), r.reqStart, part)
  {
    hide ChunkAt, Contents, Splice, FilesOk, ManifestOk, WritePart;
    RangeFacts(offset, |data|, g.chunkSize, k);
    ChunkLength(g, files, m, chunks, Ranges(offset, |data|, g.chunkSize)[k].index);
    PatchedContents(g, files, m, chunks, offset, |data|, k, WritePart(offset, data, g.chunkSize, k));
  }

  /** Splicing the next part onto what is applied applies one range more. */
  lemma WriteSplice(before: Bytes, offset: nat, data: Bytes, chunkSize: int, k: nat)
    requires chunkSize > 0 && offset + |data| <= |before| && k < |Ranges(offset, |data|, chunkSize)|
    ensures
      var rs := Ranges(offset, |data|, chunkSize);
      var n, n' := Reached(offset, rs, k) - offset, Reached(offset, rs, k + 1) - offset;
      var part := WritePart(offset, data, chunkSize, k);
      && 0 <= n <= n' <= |data| && rs[k].reqStart == offset + n && offset + n + |part| <= |before|
      && Splice(Splice(before, offset, data[..n]), offset + n, part) == Splice(before, offset, data[..n'])
  {
    hide Splice, Ranges;
    var n := Reached(offset, Ranges(offset, |data|, chunkSize), k) - offset;
    ReachedFacts(offset, |data|, chunkSize, k);
    WritePartFacts(offset, data, chunkSize, k);
    var part := WritePart(offset, data, chunkSize, k);
    SpliceAdjacent(before, offset, data[..n], part);
    assert data[..n] + part == data[..n + |part|];
  }

  /** One round of a write: patching the next chunk applies exactly the next part of the data. */
  lemma WriteNext(g: Geometry, files: map<int, Bytes>, m: Manifest, chunks: map<ChunkId, Bytes>,
                  offset: nat, data: Bytes, before: Bytes, k: nat)
    requires g.chunkSize > 0 && offset + |data| <= g.Size() == |before|
    requires FilesOk(files, g) && ManifestOk(m, g, chunks)
    requires k < |Ranges(offset, |data|, g.chunkSize)|
    requires
      var n := Reached(offset, Ranges(offset, |data|, g.chunkSize), k);
      && offset <= n <= offset + |data|
      && Contents(g, files, m, chunks) == Splice(before, offset, data[..n - offset])
    ensures
      var rs := Ranges(offset, |data|, g.chunkSize);
      var part := WritePart(offset, data, g.chunkSize, k);
      && 0 <= rs[k].chunkStart
      && rs[k].chunkStart + |part| <= |ChunkAt(g, files, m, chunks, rs[k].index)| == g.chunkSize
      && 0 <= rs[k].reqStart && rs[k].reqStart + |part| <= g.Size()
      && offset <= Reached(offset, rs, k + 1) <= offset + |data|
      && 0 <= rs[k].index < g.Size()
      && var files' := files[rs[k].index := Splice(ChunkAt(g, files, m, chunks, rs[k].index), rs[k].chunkStart, part)];
         && FilesOk(files', g)
         && Contents(g, files', m, chunks) == Splice(before, offset, data[..Reached(offset, rs, k + 1) - offset])
         && Contents(g, files', m, chunks) == Splice(Contents(g, files, m, chunks), rs[k].reqStart, part)
  {
    hide ChunkAt, Contents, Splice, Ranges, FilesOk, ManifestOk, WritePart, Reached;
    WritePatch(g, files, m, chunks, offset, data, k);
    WriteSplice(before, offset, data, g.chunkSize, k);
  }

  /** A write with `k` of its ranges, `dataPos` bytes, carried out on the session. */
  ghost predicate Writing(s: SessionState, chunks: map<ChunkId, Bytes>, before: Bytes, offset: nat, data: Bytes,
                          k: nat, dataPos: int)
  {
    var g := s.volume.geometry;
    && g.chunkSize > 0 && offset + |data| <= g.Size() == |before| && SessionOk(s, chunks)
    && k <= |Ranges(offset, |data|, g.chunkSize)|
    && 0 <= dataPos == Reached(offset, Ranges(offset, |data|, g.chunkSize), k) - offset <= |data|
    && View(s, chunks) == Splice(before, offset, data[..dataPos])
  }

  lemma WritingStarts(s: SessionState, chunks: map<ChunkId, Bytes>, offset: nat, data: Bytes)
    requires s.volume.geometry.chunkSize > 0 && offset + |data| <= s.volume.geometry.Size() && SessionOk(s, chunks)
    ensures Writing(s, chunks, View(s, chunks), offset, data, 0, 0)
  {
    hide View, Ranges;
    SpliceNothing(View(s, chunks), offset, data);
  }

  /**
   The next round as the program does it, with the range that int64 arithmetic
   gives: it carries out one range more, unless the range overruns; then more
   bytes are asked for than are left.
   */
  lemma WritingRound(s: SessionState, chunks: map<ChunkId, Bytes>, before: Bytes, offset: nat, data: Bytes,
                     k: nat, dataPos: int, r: ChunkRange)
    requires Writing(s, chunks, before, offset, data, k, dataPos)
    requires k < |MachineRanges(offset, |data|, s.volume.geometry.chunkSize)|
    requires r == MachineRanges(offset, |data|, s.volume.geometry.chunkSize)[k]
    ensures
      var g := s.volume.geometry;
      var chunk := ChunkAt(g, s.files, s.manifest, chunks, r.index);
      var n := Wrap64(r.reqEnd - r.reqStart);
      && 0 <= n && 0 <= r.chunkStart && r.chunkStart + n <= |chunk| == g.chunkSize
      && (n > |data| - dataPos <==> Overruns(offset, |data|, g.chunkSize, k))
      && (n <= |data| - dataPos ==>
            Writing(s.(dirty := s.dirty + {r.index},
                       files := s.files[r.index := Splice(chunk, r.chunkStart, data[dataPos..][..n])]),
                    chunks, before, offset, data, k + 1, dataPos + n))
  {
    hide ChunkAt, Contents, Splice, Ranges, MachineRanges, FilesOk, ManifestOk, WritePart, Overruns;
    var g := s.volume.geometry;
    NoRanges(offset, |data|, g.chunkSize);
    MachineRangeFacts(offset, |data|, g.chunkSize, k);
    RangeFacts(offset, |data|, g.chunkSize, k);
    WritePartFacts(offset, data, g.chunkSize, k);
    WriteNext(g, s.files, s.manifest, chunks, offset, data, before, k);
    OverrunsLast(offset, |data|, g.chunkSize, k);
  }

  lemma OverrunsLast(offset: nat, length: nat, chunkSize: int, k: nat)
    requires chunkSize > 0
    ensures Overruns(offset, length, chunkSize, k) ==> k + 1 == |Ranges(offset, length, chunkSize)| && length > 0
  {
  }

  /**
   A write that does not fit, from a buffer with `spare` bytes of capacity after
   the data, goes on to the end of its last chunk with those bytes.
   */
  predicate Spills(offset: nat, length: nat, chunkSize: int, spare: Bytes)
    requires chunkSize > 0
  {
    !Fits(offset, length, chunkSize) && Beyond(offset, length, chunkSize) <= |spare|
  }

  /** Patching a chunk to its end, past the end of the device, splices the part that is on the device. */
  lemma SpillContents(g: Geometry, files: map<int, Bytes>, m: Manifest, chunks: map<ChunkId, Bytes>,
                      index: int, chunkStart: nat, part: Bytes)
    requires g.chunkSize > 0 && FilesOk(files, g) && ManifestOk(m, g, chunks)
    requires chunkStart + |part| == g.chunkSize && 0 <= index < g.Size()
    requires 0 <= index * g.chunkSize + chunkStart < g.Size() <= index * g.chunkSize + g.chunkSize
    ensures |ChunkAt(g, files, m, chunks, index)| == g.chunkSize
    ensures
      var start := index * g.chunkSize + chunkStart;
      var patched := Splice(ChunkAt(g, files, m, chunks, index), chunkStart, part);
      && FilesOk(files[index := patched], g)
      && g.Size() - start <= |part|
      && Contents(g, files[index := patched], m, chunks)
         == Splice(Contents(g, files, m, chunks), start, part[..g.Size() - start])
  {
    hide ChunkAt, ManifestOk, Contents, Splice, ByteAt;
    ChunkLength(g, files, m, chunks, index);
    var start := index * g.chunkSize + chunkStart;
    var patched := Splice(ChunkAt(g, files, m, chunks, index), chunkStart, part);
    var a := Contents(g, files[index := patched], m, chunks);
    var b := Splice(Contents(g, files, m, chunks), start, part[..g.Size() - start]);
    forall p | 0 <= p < g.Size()
      ensures a[p] == b[p]
    {
      SpilledByte(g, files, m, chunks, index, chunkStart, part, p);
    }
  }

  lemma SpilledByte(g: Geometry, files: map<int, Bytes>, m: Manifest, chunks: map<ChunkId, Bytes>,
                    index: int, chunkStart: nat, part: Bytes, p: nat)
    requires g.chunkSize > 0 && |ChunkAt(g, files, m, chunks, index)| == g.chunkSize
    requires chunkStart + |part| == g.chunkSize && 0 <= index && p < g.Size()
    requires 0 <= index * g.chunkSize + chunkStart < g.Size() <= index * g.chunkSize + g.chunkSize
    ensures
      var start := index * g.chunkSize + chunkStart;
      var patched := Splice(ChunkAt(g, files, m, chunks, index), chunkStart, part);
      ByteAt(g, files[index := patched], m, chunks, p)
      == if start <= p then part[p - start] else ByteAt(g, files, m, chunks, p)
  {
    var start := index * g.chunkSize + chunkStart;
    if index * g.chunkSize <= p {
      ChunkOfByte(p, g.chunkSize, index);
    } else if p / g.chunkSize == index {
      DivBounds(p, g.chunkSize);
      assert false;
    }
  }

  /** What a write that spills leaves behind. */
  function Spilled(before: Bytes, offset: nat, data: Bytes, spare: Bytes): Bytes
    requires offset <= |before| <= offset + |data| + |spare|
  {
    Splice(before, offset, (data + spare)[..|before| - offset])
  }

  /** The write has got through `k` ranges: all of them in order, or the last one by spilling. */
  ghost predicate Progress(s: SessionState, chunks: map<ChunkId, Bytes>, before: Bytes, offset: nat, data: Bytes,
                           spare: Bytes, k: nat, dataPos: int)
  {
    var g := s.volume.geometry;
    && g.chunkSize > 0
    && if k == |Ranges(offset, |data|, g.chunkSize)| && !Fits(offset, |data|, g.chunkSize)
       then && SessionOk(s, chunks) && Spills(offset, |data|, g.chunkSize, spare)
            && offset <= |before| <= offset + |data| + |spare|
            && View(s, chunks) == Spilled(before, offset, data, spare)
       else Writing(s, chunks, before, offset, data, k, dataPos)
  }

  /** The last round of a write that spills. */
  lemma SpillRound(s: SessionState, chunks: map<ChunkId, Bytes>, before: Bytes, offset: nat, data: Bytes, spare: Bytes,
                   k: nat, dataPos: int, r: ChunkRange)
    requires Writing(s, chunks, before, offset, data, k, dataPos)
    requires k < |MachineRanges(offset, |data|, s.volume.geometry.chunkSize)|
    requires r == MachineRanges(offset, |data|, s.volume.geometry.chunkSize)[k]
    requires Overruns(offset, |data|, s.volume.geometry.chunkSize, k)
    ensures
      var g := s.volume.geometry;
      var chunk := ChunkAt(g, s.files, s.manifest, chunks, r.index);
      var n := Wrap64(r.reqEnd - r.reqStart);
      && 0 <= n && 0 <= r.chunkStart && r.chunkStart + n == |chunk| == g.chunkSize && 0 <= dataPos <= |data|
      && (n <= |data| - dataPos + |spare| <==> Spills(offset, |data|, g.chunkSize, spare))
      && (n <= |data| - dataPos + |spare| ==>
            Progress(s.(dirty := s.dirty + {r.index},
                        files := s.files[r.index := Splice(chunk, r.chunkStart, (data + spare)[dataPos..][..n])]),
                     chunks, before, offset, data, spare, k + 1, dataPos + n))
  {
    hide ChunkAt, Contents, Splice, Ranges, MachineRanges, FilesOk, ManifestOk, Fits, Beyond, Reached;
    var g := s.volume.geometry;
    NoRanges(offset, |data|, g.chunkSize);
    MachineRangeFacts(offset, |data|, g.chunkSize, k);
    RangeFacts(offset, |data|, g.chunkSize, k);
    ReachedFacts(offset, |data|, g.chunkSize, k);
    OverrunsLast(offset, |data|, g.chunkSize, k);
    LastIndex(offset, |data|, g.chunkSize);
    ChunkLength(g, s.files, s.manifest, chunks, r.index);
    var n := Wrap64(r.reqEnd - r.reqStart);
    if n <= |data| - dataPos + |spare| {
      var part := (data + spare)[dataPos..][..n];
      SpillContents(g, s.files, s.manifest, chunks, r.index, r.chunkStart, part);
      SpillSplice(before, offset, data, spare, dataPos, part);
    }
  }

  lemma SpillSplice(before: Bytes, offset: nat, data: Bytes, spare: Bytes, dataPos: nat, part: Bytes)
    requires dataPos <= |data| && offset + |data| <= |before| <= offset + dataPos + |part|
    requires dataPos + |part| <= |data| + |spare| && part == (data + spare)[dataPos..][..|part|]
    ensures Splice(Splice(before, offset, data[..dataPos]), offset + dataPos, part[..|before| - offset - dataPos])
         == Spilled(before, offset, data, spare)
  {
    hide Splice;
    var rest := part[..|before| - offset - dataPos];
    SpliceAdjacent(before, offset, data[..dataPos], rest);
    assert data[..dataPos] + rest == (data + spare)[..|before| - offset];
  }

  /** One round, whatever the buffer's capacity: it goes through, or asks for more bytes than the buffer can hold. */
  lemma ProgressRound(s: SessionState, chunks: map<ChunkId, Bytes>, before: Bytes, offset: nat, data: Bytes,
                      spare: Bytes, k: nat, dataPos: int, r: ChunkRange)
    requires Progress(s, chunks, before, offset, data, spare, k, dataPos) && s.volume.geometry.chunkSize > 0
    requires k < |MachineRanges(offset, |data|, s.volume.geometry.chunkSize)|
    requires r == MachineRanges(offset, |data|, s.volume.geometry.chunkSize)[k]
    ensures
      var g := s.volume.geometry;
      var chunk := ChunkAt(g, s.files, s.manifest, chunks, r.index);
      var n := Wrap64(r.reqEnd - r.reqStart);
      && 0 <= n && 0 <= r.chunkStart && r.chunkStart + n <= |chunk| == g.chunkSize && 0 <= dataPos <= |data|
      && SessionOk(s, chunks) && Applied(g, before, offset, data, k, View(s, chunks))
      && (n > |data| - dataPos + |spare| <==>
            Overruns(offset, |data|, g.chunkSize, k) && !Spills(offset, |data|, g.chunkSize, spare))
      && (n <= |data| - dataPos + |spare| ==>
            Progress(s.(dirty := s.dirty + {r.index},
                        files := s.files[r.index := Splice(chunk, r.chunkStart, (data + spare)[dataPos..][..n])]),
                     chunks, before, offset, data, spare, k + 1, dataPos + n))
  {
    var g := s.volume.geometry;
    hide ChunkAt, View, Splice, Ranges, MachineRanges, Fits, Writing, Overruns, Spills, Applied, SessionOk;
    NoRanges(offset, |data|, g.chunkSize);
    WritingRound(s, chunks, before, offset, data, k, dataPos, r);
    WritingFacts(s, chunks, before, offset, data, k, dataPos);
    OverrunsWhenUnfit(offset, |data|, g.chunkSize, |Ranges(offset, |data|, g.chunkSize)|);
    var n := Wrap64(r.reqEnd - r.reqStart);
    if Overruns(offset, |data|, g.chunkSize, k) {
      SpillRound(s, chunks, before, offset, data, spare, k, dataPos, r);
    } else {
      assert (data + spare)[dataPos..][..n] == data[dataPos..][..n];
    }
  }

  /** `after` is `before` with the data of the first `done` ranges of a write applied, and nothing else. */
  ghost predicate Applied(g: Geometry, before: Bytes, offset: int, data: Bytes, done: nat, after: Bytes) {
    && g.chunkSize > 0 && 0 <= offset && offset + |data| <= |before|
    && done <= |Ranges(offset, |data|, g.chunkSize)|
    && var n := Reached(offset, Ranges(offset, |data|, g.chunkSize), done) - offset;
    && 0 <= n <= |data|
    && after == Splice(before, offset, data[..n])
  }

  lemma AppliedPrefix(g: Geometry, before: Bytes, offset: int, data: Bytes, done: nat, after: Bytes)
    requires Applied(g, before, offset, data, done, after)
    ensures PrefixApplied(before, offset, data, after)
  {
  }

  lemma WritingFacts(s: SessionState, chunks: map<ChunkId, Bytes>, before: Bytes, offset: nat, data: Bytes, k: nat,
                     dataPos: int)
    requires Writing(s, chunks, before, offset, data, k, dataPos)
    ensures SessionOk(s, chunks) && 0 <= dataPos <= |data|
    ensures Applied(s.volume.geometry, before, offset, data, k, View(s, chunks))
  {
    hide SessionOk, View, Ranges;
  }

  lemma ProgressStarts(s: SessionState, chunks: map<ChunkId, Bytes>, offset: nat, data: Bytes, spare: Bytes)
    requires s.volume.geometry.chunkSize > 0 && offset + |data| <= s.volume.geometry.Size() && SessionOk(s, chunks)
    ensures Progress(s, chunks, View(s, chunks), offset, data, spare, 0, 0)
  {
    hide View, Ranges, Writing, Fits;
    NoRanges(offset, |data|, s.volume.geometry.chunkSize);
    WritingStarts(s, chunks, offset, data);
  }

  lemma ProgressEnds(s: SessionState, chunks: map<ChunkId, Bytes>, before: Bytes, offset: nat, data: Bytes,
                     spare: Bytes, dataPos: int)
    requires s.volume.geometry.chunkSize > 0
    requires
      var n := |Ranges(offset, |data|, s.volume.geometry.chunkSize)|;
      Progress(s, chunks, before, offset, data, spare, n, dataPos)
    ensures SessionOk(s, chunks)
    ensures
      var g := s.volume.geometry;
      if Fits(offset, |data|, g.chunkSize)
      then Applied(g, before, offset, data, |Ranges(offset, |data|, g.chunkSize)|, View(s, chunks))
      else && Spills(offset, |data|, g.chunkSize, spare)
           && offset <= |before| <= offset + |data| + |spare| && View(s, chunks) == Spilled(before, offset, data, spare)
  {
    hide View, Ranges, Writing, Fits, SessionOk, Applied, Spilled, Spills;
    if Fits(offset, |data|, s.volume.geometry.chunkSize) {
      WritingFacts(s, chunks, before, offset, data, |Ranges(offset, |data|, s.volume.geometry.chunkSize)|, dataPos);
    }
  }

  /** With all ranges done the whole of the data is in place. */
  lemma AppliedAll(g: Geometry, before: Bytes, offset: int, data: Bytes, after: Bytes)
    requires g.chunkSize > 0 && 0 <= offset
    requires Applied(g, before, offset, data, |Ranges(offset, |data|, g.chunkSize)|, after)
    ensures after == Splice(before, offset, data)
  {
    ReachedFacts(offset, |data|, g.chunkSize, |Ranges(offset, |data|, g.chunkSize)|);
    assert data[..|data|] == data;
  }

  /**
   The outcome of a read on a device that shows `view`. Success means that the
   true range, not only its wrapped end, lies in the device. A range in the
   device is refused without an I/O error only by a panic, and only if the end
   of its last chunk is not an int64 value.
   */
  predicate ReadAnswer(g: Geometry, view: Bytes, offset: int, length: int, faultless: bool, r: Result<Bytes>)
    requires |view| == g.Size()
  {
    && (r.Ok? ==>
          && g.Contains(offset, length) && Fits(offset, length, g.chunkSize)
          && r.value == view[offset..offset + length])
    && (r == Err(Panic) ==> g.Contains(offset, length) && !Fits(offset, length, g.chunkSize))
    && (faultless && g.Contains(offset, length) ==>
          if Fits(offset, length, g.chunkSize) then r.Ok? else r == Err(Panic))
  }

  /**
   The outcome of a write with `done` of its ranges carried out, from a buffer
   with `spare` bytes of capacity after the data. Whatever the reason for
   stopping, exactly the data of those ranges has been applied. Only a write
   whose last chunk ends past int64 does otherwise: it spills if the capacity
   reaches the end of that chunk, and panics before the last range if not.
   */
  ghost predicate WriteAnswer(g: Geometry, before: Bytes, offset: int, data: Bytes, spare: Bytes, done: nat,
                              after: Bytes, faultless: bool, r: Result<()>)
  {
    if !g.Contains(offset, |data|) then
      r.Err? && r.error != Panic && after == before
    else
      && (if r.Ok? && !Fits(offset, |data|, g.chunkSize)
          then && Spills(offset, |data|, g.chunkSize, spare)
               && offset <= |before| <= offset + |data| + |spare| && after == Spilled(before, offset, data, spare)
          else && Applied(g, before, offset, data, done, after)
               && (r.Ok? ==> done == |Ranges(offset, |data|, g.chunkSize)|))
      && (r == Err(Panic) ==>
            && !Fits(offset, |data|, g.chunkSize) && !Spills(offset, |data|, g.chunkSize, spare)
            && done == |Ranges(offset, |data|, g.chunkSize)| - 1)
      && (faultless ==>
            if Fits(offset, |data|, g.chunkSize) || Spills(offset, |data|, g.chunkSize, spare) then r.Ok?
            else r == Err(Panic))
  }

  /** A successful write that fits has spliced in the whole of its data and nothing else. */
  lemma WriteDone(g: Geometry, before: Bytes, offset: int, data: Bytes, spare: Bytes, done: nat, after: Bytes,
                  faultless: bool, r: Result<()>)
    requires WriteAnswer(g, before, offset, data, spare, done, after, faultless, r) && r.Ok?
    requires g.Contains(offset, |data|) ==> Fits(offset, |data|, g.chunkSize)
    ensures g.Contains(offset, |data|) && offset + |data| <= |before| && after == Splice(before, offset, data)
  {
    hide Fits, Ranges, Spills;
    AppliedAll(g, before, offset, data, after);
  }

  /** A buffer without spare capacity never spills. */
  lemma NoSpareNoSpill(offset: nat, length: nat, chunkSize: int)
    requires chunkSize > 0 && offset + length < TWO_63
    ensures !Spills(offset, length, chunkSize, [])
  {
  }

  /** A write that spills changes nothing else exactly if the rest of the device already reads as the spare bytes. */
  lemma SpillExact(before: Bytes, offset: nat, data: Bytes, spare: Bytes)
    requires offset + |data| <= |before| <= offset + |data| + |spare|
    ensures Spilled(before, offset, data, spare) == Splice(before, offset, data) <==>
            spare[..|before| - offset - |data|] == before[offset + |data|..]
  {
    var end := offset + |data|;
    var n := |before| - end;
    var a, b := Spilled(before, offset, data, spare), Splice(before, offset, data);
    assert (data + spare)[..|before| - offset] == data + spare[..n];
    assert a == before[..offset] + data + spare[..n];
    assert a[end..] == spare[..n] && b[end..] == before[end..];
  }

  /**
   Spilling does overwrite other bytes: one byte written at 2^63-64 to a volume
   of 2^63-1 bytes in chunks of 64, from a buffer with room for a whole chunk,
   puts the buffer's other bytes on the device after it.
   */
  lemma SpillOverwrites(before: Bytes, b: Byte, spare: Bytes)
    requires |before| == TWO_63 - 1 && |spare| >= 63
    ensures
      var g := Geometry(TWO_63 - 1, 64);
      var at := TWO_63 - 64;
      && g.Contains(at, 1) && Spills(at, 1, g.chunkSize, spare)
      && Spilled(before, at, [b], spare) == Splice(before, at, [b] + spare[..62])
  {
    assert ([b] + spare)[..63] == [b] + spare[..62];
  }

  /** The manifest a commit produces: the base overridden at exactly the overlay's indexes. */
  function Committed(m: Manifest, files: map<int, Bytes>): Manifest {
    m + map i | i in files :: HashChunk(files[i])
  }

  /**
   Once every overlay chunk is stored, the committed manifest alone shows the
   device, with any part of the overlay still lying on top of it.
   */
  lemma CommittedContents(g: Geometry, files: map<int, Bytes>, m: Manifest, chunks: map<ChunkId, Bytes>,
                          left: map<int, Bytes>)
    requires FilesOk(files, g) && ManifestOk(m, g, chunks) && ChunksOk(chunks)
    requires forall i :: i in files ==> HashChunk(files[i]) in chunks
    requires forall i :: i in left ==> i in files && left[i] == files[i]
    ensures ManifestOk(Committed(m, files), g, chunks)
    ensures Contents(g, left, Committed(m, files), chunks) == Contents(g, files, m, chunks)
  {
    forall i | i in files
      ensures chunks[HashChunk(files[i])] == files[i]
    {
      HashInjective(chunks[HashChunk(files[i])], files[i]);
    }
    SameChunksSameContents(g, left, Committed(m, files), chunks, files, m, chunks);
  }

  /** The overlay chunks listed in `done`. */
  function Overlay(files: map<int, Bytes>, done: seq<int>): map<int, Bytes> {
    map i | i in files && i in done :: files[i]
  }

  lemma OverlayGrows(m: Manifest, files: map<int, Bytes>, done: seq<int>, i: int)
    requires i in files
    ensures Committed(m, Overlay(files, done + [i])) == Committed(m, Overlay(files, done))[i := HashChunk(files[i])]
  {
    assert forall j :: j in done + [i] <==> j in done || j == i;
    assert Overlay(files, done + [i]) == Overlay(files, done)[i := files[i]];
  }

  lemma OverlayAll(files: map<int, Bytes>, done: seq<int>)
    requires forall i :: i in files ==> i in done
    ensures Overlay(files, done) == files
  {
    forall i | i in files
      ensures i in Overlay(files, done)
    {
    }
  }

  // ----- Facts about growth -----

  lemma SnapshotStable(a: Repo, sa: Store, b: Repo, sb: Store, sid: Id, g: Geometry)
    requires SnapshotOk(a, sa, sid)
    requires RepoExtends(a, b) && StoreExtends(sa, sb)
    requires a.volumes[a.snapshots[sid].volumeId].geometry == g
    ensures SnapshotOk(b, sb, sid)
    ensures SnapshotManifest(b, sb, sid) == SnapshotManifest(a, sa, sid)
    ensures Decode(b, sb, sid, g) == Decode(a, sa, sid, g)
    ensures b.volumes[b.snapshots[sid].volumeId].geometry == g
  {
    ContentsStable(g, map[], SnapshotManifest(a, sa, sid), sa.chunks, sb.chunks);
  }

  lemma PointerStable(a: Repo, sa: Store, b: Repo, sb: Store, v: Volume)
    requires PointerOk(a, sa, v)
    requires RepoExtends(a, b) && StoreExtends(sa, sb)
    ensures PointerOk(b, sb, v)
    ensures LatestContent(b, sb, v) == LatestContent(a, sa, v)
  {
    if v.latest.Some? {
      SnapshotStable(a, sa, b, sb, v.latest.value, v.geometry);
    }
  }

  lemma SessionStable(s: SessionState, a: map<ChunkId, Bytes>, b: map<ChunkId, Bytes>)
    requires SessionOk(s, a)
    requires forall id :: id in a ==> id in b && b[id] == a[id]
    ensures SessionOk(s, b)
    ensures View(s, b) == View(s, a)
  {
    ContentsStable(s.volume.geometry, s.files, s.manifest, a, b);
  }

  /** A printed manifest is recovered from its wire form. */
  lemma ManifestOfPrinted(m: Manifest)
    ensures ManifestOf(ToWire(m)) == m
  {
    hide FormatInt, ParseInt, ToWire;
    var w := ToWire(m);
    assert IsPrinted(w, m);
    assert IsPrinted(w, ManifestOf(w));
    ToWireInjective(m, ManifestOf(w));
  }

  lemma ToWireInjective(m: Manifest, n: Manifest)
    requires ToWire(m) == ToWire(n)
    ensures m == n
  {
    hide FormatInt, ParseInt, ToWire;
    forall k | k in m
      ensures k in n && n[k] == m[k]
    {
      WireEntry(m, k);
      var j := WireOrigin(n, FormatInt(k));
      FormatInjective(j, k);
    }
    forall k | k in n
      ensures k in m
    {
      WireEntry(n, k);
      var j := WireOrigin(m, FormatInt(k));
      FormatInjective(j, k);
    }
  }

  /** Loading what was saved yields the snapshot's manifest and nothing else. */
  lemma LoadedManifest(repo: Repo, store: Store, sid: Id, loaded: Manifest)
    requires SnapshotOk(repo, store, sid)
    requires repo.volumes[repo.snapshots[sid].volumeId].geometry.Int64Sized()
    ensures AllParse(store.manifests[repo.snapshots[sid].manifestKey])
    ensures LoadsAs(store.manifests[repo.snapshots[sid].manifestKey], loaded) <==>
            loaded == SnapshotManifest(repo, store, sid)
  {
    hide FormatInt, ParseInt, ToWire;
    WireRoundTrip(SnapshotManifest(repo, store, sid), loaded);
  }
}
