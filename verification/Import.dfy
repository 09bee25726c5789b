/**
 Clients of the backend: importing a file as a volume's first snapshot, and
 picking a volume up on another node.
 */
module Clients {
  import opened Bytes
  import opened Chunks
  import opened Volumes
  import opened Snapshots
  import opened Stores
  import opened Cache
  import opened Backends

  /** What the import buffer holds past the last piece of a file: zeros, or the end of the piece before. */
  function Leftover(file: Bytes, chunkSize: int): Bytes
    requires chunkSize > 0
  {
    var n := |file| % chunkSize;
    if |file| < chunkSize then Zeros(chunkSize - n) else file[|file| - chunkSize..|file| - n]
  }

  /**
   What `base` becomes when a file is copied to the start of it: the file and
   then what was there, unless the end of the file's last chunk is not an int64
   value. Then the rest of the buffer follows the file, as far as `base` goes.
   */
  function Laid(chunkSize: int, base: Bytes, file: Bytes): (r: Bytes)
    requires chunkSize > 0 && |file| <= |base|
    ensures |r| == |base| && r[..|file|] == file
    ensures Fits(0, |file|, chunkSize) ==> r[|file|..] == base[|file|..]
  {
    if Fits(0, |file|, chunkSize) then Splice(base, 0, file)
    else
      var all := file + Leftover(file, chunkSize);
      Splice(base, 0, all[..Min(|base|, |all|)])
  }

  /** The rest of the buffer is zero in the first piece, and else repeats the piece before. */
  lemma LaidTail(chunkSize: int, base: Bytes, file: Bytes, p: nat)
    requires chunkSize > 0 && |file| <= p < |base| < TWO_63 && !Fits(0, |file|, chunkSize)
    ensures p < |file| + chunkSize
    ensures Laid(chunkSize, base, file)[p] == if p < chunkSize then 0 else file[p - chunkSize]
  {
    hide Splice, Fits, Leftover;
    LastEnd(|file|, chunkSize);
    LeftoverAt(file, chunkSize, p - |file|);
    var rest := Leftover(file, chunkSize);
    var all := file + rest;
    assert all[p] == rest[p - |file|];
  }

  lemma LeftoverAt(file: Bytes, chunkSize: int, k: nat)
    requires chunkSize > 0 && k < chunkSize - |file| % chunkSize
    ensures |Leftover(file, chunkSize)| == chunkSize - |file| % chunkSize
    ensures Leftover(file, chunkSize)[k] == if |file| + k < chunkSize then 0 else file[|file| + k - chunkSize]
  {
    if |file| < chunkSize {
      ChunkOfByte(|file|, chunkSize, 0);
    }
  }

  lemma LastEnd(size: nat, chunkSize: int)
    requires chunkSize > 0 && size < TWO_63 && !Fits(0, size, chunkSize)
    ensures size % chunkSize != 0 && size - size % chunkSize + chunkSize >= TWO_63
  {
    DivBounds(size, chunkSize);
    DivBounds(size - 1, chunkSize);
    var k := size / chunkSize;
    if size % chunkSize != 0 {
      ChunkOfByte(size - 1, chunkSize, k);
    } else {
      Distribute(k - 1, chunkSize);
      ChunkOfByte(size - 1, chunkSize, k - 1);
    }
  }

  /** What the import buffer holds after the first `k` pieces, all of them whole. */
  function Buffered(file: Bytes, chunkSize: int, k: nat): Bytes
    requires chunkSize > 0 && k * chunkSize <= |file|
  {
    if k == 0 then Zeros(chunkSize) else Piece(file, chunkSize, k - 1)
  }

  /** The `k`-th piece, which is whole. */
  function Piece(file: Bytes, chunkSize: int, k: nat): (r: Bytes)
    requires chunkSize > 0 && (k + 1) * chunkSize <= |file|
    ensures |r| == chunkSize
  {
    Distribute(k, chunkSize);
    file[k * chunkSize..k * chunkSize + chunkSize]
  }

  lemma Distribute(k: nat, chunkSize: int)
    ensures (k + 1) * chunkSize == k * chunkSize + chunkSize
    ensures chunkSize > 0 ==> 0 <= k * chunkSize
  {
  }

  /** A whole piece fits. A short one ends the file, and the rest of the buffer reaches to the end of its chunk. */
  lemma PieceFits(file: Bytes, chunkSize: int, k: nat, n: nat)
    requires chunkSize > 0 && |file| < TWO_63 && 0 < n == Min(chunkSize, |file| - k * chunkSize)
    ensures Beyond(k * chunkSize, n, chunkSize) == chunkSize - n
    ensures n == chunkSize ==> Fits(k * chunkSize, n, chunkSize)
    ensures n < chunkSize ==> (Fits(k * chunkSize, n, chunkSize) <==> Fits(0, |file|, chunkSize))
  {
    ChunkOfByte(k * chunkSize + n - 1, chunkSize, k);
  }

  /** The buffer after a whole read. */
  lemma BufferWhole(file: Bytes, chunkSize: int, k: nat)
    requires chunkSize > 0 && k * chunkSize + chunkSize <= |file|
    ensures (k + 1) * chunkSize == k * chunkSize + chunkSize
    ensures file[k * chunkSize..k * chunkSize + chunkSize] == Buffered(file, chunkSize, k + 1)
  {
    Distribute(k, chunkSize);
  }

  /** The buffer after a short read. */
  lemma BufferShort(file: Bytes, chunkSize: int, k: nat)
    requires chunkSize > 0 && k * chunkSize < |file| < k * chunkSize + chunkSize
    ensures |Buffered(file, chunkSize, k)| == chunkSize
    ensures Buffered(file, chunkSize, k)[|file| - k * chunkSize..] == Leftover(file, chunkSize)
  {
    hide Piece;
    ChunkOfByte(|file|, chunkSize, k);
    if k > 0 {
      Distribute(k - 1, chunkSize);
      PieceTail(file, chunkSize, k, |file| - k * chunkSize);
    }
  }

  lemma PieceTail(file: Bytes, chunkSize: int, k: nat, n: nat)
    requires chunkSize > 0 && 0 < k && 0 < n < chunkSize && k * chunkSize == (k - 1) * chunkSize + chunkSize
    requires |file| == k * chunkSize + n
    ensures Piece(file, chunkSize, k - 1)[n..] == file[|file| - chunkSize..|file| - n]
  {
  }

  /** A file of whole pieces fits. */
  lemma LaidWhole(file: Bytes, chunkSize: int, k: nat, base: Bytes)
    requires chunkSize > 0 && |file| == k * chunkSize < TWO_63 && |file| <= |base|
    ensures Laid(chunkSize, base, file) == Splice(base, 0, file[..k * chunkSize])
  {
    assert file[..k * chunkSize] == file;
    if k > 0 {
      Distribute(k - 1, chunkSize);
      ChunkOfByte(|file| - 1, chunkSize, k - 1);
    }
  }

  /** What was written with the last, short piece is what should have been. */
  lemma LaidShort(file: Bytes, chunkSize: int, k: nat, base: Bytes, buf: Bytes, view: Bytes)
    requires chunkSize > 0 && k * chunkSize < |file| < k * chunkSize + chunkSize && |file| <= |base|
    requires |buf| == chunkSize
    requires buf == file[k * chunkSize..] + Leftover(file, chunkSize)
    requires
      var laid, n := file[..k * chunkSize], |file| - k * chunkSize;
      if Fits(0, |file|, chunkSize) then view == Splice(base, 0, laid + buf[..n])
      else |base| <= |laid| + |buf| && view == Splice(base, 0, (laid + buf)[..|base|])
    ensures view == Laid(chunkSize, base, file)
  {
    hide Fits, Splice, Leftover;
    var laid, n := file[..k * chunkSize], |file| - k * chunkSize;
    assert laid + buf[..n] == file;
    assert laid + buf == file + Leftover(file, chunkSize);
  }

  /**
   Writes the piece at the front of the buffer after what is already laid over
   `base`. The rest of the buffer follows it if the end of the piece's chunk is
   not an int64 value.
   */
  method WritePart(b: Backend, sid: Id, buf: Bytes, n: nat, offset: nat, ghost laid: Bytes, ghost base: Bytes, now: int)
    returns (r: Result<()>)
    requires b.Valid() && sid in b.sessions && offset + n < TWO_63 && 0 < n <= |buf|
    requires |laid| == offset <= |base| && b.ViewOf(sid) == Splice(base, 0, laid)
    requires
      var chunkSize := b.sessions[sid].volume.geometry.chunkSize;
      chunkSize > 0 && (Fits(offset, n, chunkSize) || Beyond(offset, n, chunkSize) <= |buf| - n)
    modifies b`tally, b.cache, b.Of(sid)
    ensures b.Valid()
    ensures r.Ok? ==>
              && b.InRange(sid, offset, n) && offset + n <= |base|
              && if Fits(offset, n, b.sessions[sid].volume.geometry.chunkSize)
                 then b.ViewOf(sid) == Splice(base, 0, laid + buf[..n])
                 else |base| <= offset + |buf| && b.ViewOf(sid) == Splice(base, 0, (laid + buf)[..|base|])
    ensures r != Err(Panic)
    ensures old(Intact(b.sessions[sid].State())) ==>
              && Intact(b.sessions[sid].State())
              && (b.Reliable() && b.InRange(sid, offset, n) ==> r.Ok?)
  {
    hide Backend.Valid, Applied, Volumes.Intact, View, Splice, Fits, Ranges, Beyond;
    ghost var done;
    r, done := b.Write(sid, offset, buf[..n], buf[n..], now);
    if r.Ok? {
      LaidNext(b.sessions[sid].volume.geometry, base, laid, buf, n, done, b.ViewOf(sid),
               b.Reliable() && old(Intact(b.sessions[sid].State())), r);
    }
  }

  lemma LaidNext(g: Geometry, base: Bytes, laid: Bytes, buf: Bytes, n: nat, done: nat, after: Bytes, faultless: bool,
                 r: Result<()>)
    requires g.chunkSize > 0 && 0 < n <= |buf| && |laid| <= |base| == g.Size() && r.Ok?
    requires WriteAnswer(g, Splice(base, 0, laid), |laid|, buf[..n], buf[n..], done, after, faultless, r)
    ensures g.Contains(|laid|, n) && |laid| + n <= |base|
    ensures if Fits(|laid|, n, g.chunkSize) then after == Splice(base, 0, laid + buf[..n])
            else |base| <= |laid| + |buf| && after == Splice(base, 0, (laid + buf)[..|base|])
  {
    hide Fits, Ranges, Splice, Applied, Spills;
    var before := Splice(base, 0, laid);
    SpliceLength(base, 0, laid);
    if Fits(|laid|, n, g.chunkSize) {
      WriteDone(g, before, |laid|, buf[..n], buf[n..], done, after, faultless, r);
      SpliceAdjacent(base, 0, laid, buf[..n]);
    } else {
      assert buf[..n] + buf[n..] == buf;
      var rest := buf[..|base| - |laid|];
      SpliceAdjacent(base, 0, laid, rest);
      assert laid + rest == (laid + buf)[..|base|];
    }
  }

  lemma SpliceLength(base: Bytes, offset: nat, data: Bytes)
    requires offset + |data| <= |base|
    ensures |Splice(base, offset, data)| == |base|
  {
  }

  /** The first `k` pieces, all whole, are laid over `base`, and the last of them is in the buffer. */
  predicate Copying(chunkSize: int, base: Bytes, file: Bytes, k: nat, buf: Bytes, view: Bytes) {
    && chunkSize > 0 && k * chunkSize <= |file| && k * chunkSize <= |base|
    && buf == Buffered(file, chunkSize, k) && view == Splice(base, 0, file[..k * chunkSize])
  }

  /** One piece more: the copy goes on after a whole piece and is complete after a short one. */
  predicate Copied(chunkSize: int, base: Bytes, file: Bytes, k: nat, buf: Bytes, view: Bytes)
    requires chunkSize > 0
  {
    if |file| - k * chunkSize < chunkSize then |file| <= |base| && view == Laid(chunkSize, base, file)
    else (k + 1) * chunkSize == k * chunkSize + chunkSize && Copying(chunkSize, base, file, k + 1, buf, view)
  }

  /** One turn of the import loop: the buffer is filled from the file, as far as the file goes, and written. */
  method CopyPart(b: Backend, sid: Id, file: Bytes, k: nat, buf: Bytes, n: nat, ghost base: Bytes, now: int)
    returns (r: Result<()>, next: Bytes)
    requires b.Valid() && sid in b.sessions && |file| < TWO_63
    requires Copying(b.sessions[sid].volume.geometry.chunkSize, base, file, k, buf, b.ViewOf(sid))
    requires
      var chunkSize := b.sessions[sid].volume.geometry.chunkSize;
      0 < n == Min(chunkSize, |file| - k * chunkSize)
    modifies b`tally, b.cache, b.Of(sid)
    ensures b.Valid()
    ensures r.Ok? ==>
              && b.InRange(sid, k * b.sessions[sid].volume.geometry.chunkSize, n)
              && Copied(b.sessions[sid].volume.geometry.chunkSize, base, file, k, next, b.ViewOf(sid))
    ensures r != Err(Panic)
    ensures old(Intact(b.sessions[sid].State())) ==>
              && Intact(b.sessions[sid].State())
              && (b.Reliable() && b.InRange(sid, k * b.sessions[sid].volume.geometry.chunkSize, n) ==> r.Ok?)
  {
    hide Backend.Valid, Volumes.Intact, View, Fits, Splice, Beyond, Leftover, Laid, Buffered;
    var chunkSize := b.sessions[sid].volume.geometry.chunkSize;
    var offset := k * chunkSize;
    PieceFits(file, chunkSize, k, n);
    BufferLength(file, chunkSize, k);
    next := file[offset..offset + n] + buf[n..];
    r := WritePart(b, sid, next, n, offset, file[..offset], base, now);
    if n < chunkSize {
      BufferShort(file, chunkSize, k);
      if r.Ok? {
        LaidShort(file, chunkSize, k, base, next, b.ViewOf(sid));
      }
    } else {
      BufferWhole(file, chunkSize, k);
      assert file[..offset] + next[..n] == file[..offset + n];
    }
  }

  /**
   The import loop: fills the buffer and writes what was read until a short
   read. It gets to the end of every file that fits the device; see `Laid`.
   */
  method CopyFile(b: Backend, sid: Id, file: Bytes, now: int) returns (r: Result<()>)
    requires b.Valid() && sid in b.sessions && |file| < TWO_63 && b.sessions[sid].volume.geometry.chunkSize > 0
    modifies b`tally, b.cache, b.Of(sid)
    ensures b.Valid()
    ensures r.Ok? ==>
              && (file == [] || b.InRange(sid, 0, |file|)) && |file| <= |old(b.ViewOf(sid))|
              && b.ViewOf(sid) == Laid(b.sessions[sid].volume.geometry.chunkSize, old(b.ViewOf(sid)), file)
    ensures r != Err(Panic)
    ensures old(Intact(b.sessions[sid].State())) ==> Intact(b.sessions[sid].State())
    ensures b.Reliable() && old(Intact(b.sessions[sid].State())) && (file == [] || b.InRange(sid, 0, |file|)) ==> r.Ok?
  {
    hide Backend.Valid, Volumes.Intact, View, Splice, Buffered, Laid;
    ghost var base := b.ViewOf(sid);
    var chunkSize := b.sessions[sid].volume.geometry.chunkSize;
    var buf, offset, k := Zeros(chunkSize), 0, 0;
    BufferStarts(file, chunkSize);
    SpliceNothing(base, 0, file);
    while true
      invariant b.Valid()
      invariant 0 <= offset == k * chunkSize
      invariant offset > 0 ==> b.InRange(sid, 0, offset)
      invariant Copying(chunkSize, base, file, k, buf, b.ViewOf(sid))
      invariant old(Intact(b.sessions[sid].State())) ==> Intact(b.sessions[sid].State())
      decreases |file| - offset
    {
      var n := Min(chunkSize, |file| - offset);
      var unreadable := OperationFails(b.Reliable());
      if unreadable {
        return Err(Io);
      }
      if n > 0 {
        r, buf := CopyPart(b, sid, file, k, buf, n, base, now);
        if r.Err? {
          return;
        }
        offset := offset + n;
      } else {
        LaidWhole(file, chunkSize, k, base);
      }
      if n < chunkSize {
        break;
      }
      k := k + 1;
    }
    r := Ok(());
  }

  lemma BufferStarts(file: Bytes, chunkSize: int)
    requires chunkSize > 0
    ensures Buffered(file, chunkSize, 0) == Zeros(chunkSize)
  {
  }

  lemma BufferLength(file: Bytes, chunkSize: int, k: nat)
    requires chunkSize > 0 && k * chunkSize <= |file|
    ensures |Buffered(file, chunkSize, k)| == chunkSize
  {
  }

  lemma VolumeFacts(b: Backend, v: Id)
    requires b.Valid() && v in b.repo.volumes
    ensures b.repo.volumes[v].geometry.Int64Sized()
    ensures PointerOk(b.repo.State(), b.store.State(), b.repo.volumes[v])
  {
    hide SnapshotOk, PointerOk, Sum;
  }

  /** The file is empty, or fits in a device of geometry `g`. */
  predicate Importable(g: Geometry, file: Bytes) {
    g.chunkSize > 0 && (file == [] || g.Contains(0, |file|))
  }

  /**
   Imports a file. On success the volume's latest snapshot decodes to the file
   laid over what the volume held before (see `Laid`); the session is gone
   either way. A negative chunk size cannot be allocated.
   */
  method ImportFile(b: Backend, volume: Volume, file: Bytes, sid: Id, snap: Id, now: int) returns (r: Result<Snapshot>)
    requires b.Valid() && sid !in b.sessions && b.FreshName(snap) && |file| < TWO_63
    requires volume.volumeId in b.repo.volumes && volume == b.repo.volumes[volume.volumeId]
    requires volume.geometry.chunkSize != 0
    modifies b`sessions, b`tally, b.cache, b.store, b.repo`snapshots, b.repo`volumes
    ensures b.Valid() && b.sessions == old(b.sessions)
    ensures r.Ok? ==>
              && r.value == Snapshot(snap, volume.volumeId, ManifestKey(snap))
              && Importable(volume.geometry, file)
              && b.Published(volume.volumeId, snap,
                             Laid(volume.geometry.chunkSize,
                                  old(LatestContent(b.repo.State(), b.store.State(), volume)), file))
    ensures b.Reliable() ==> (r.Ok? <==> Importable(volume.geometry, file))
    ensures RepoExtends(old(b.repo.State()), b.repo.State())
  {
    hide Backend.Valid, View, LatestContent, PublishedIn, RepoExtends, VolumeContents, PointerOk, Laid;
    VolumeFacts(b, volume.volumeId);
    var started := b.StartSession(volume.volumeId, sid);
    if started.Err? {
      return Err(started.error);
    }
    ghost var before := b.repo.State();
    ExtendsSelf(before);
    if volume.geometry.chunkSize < 0 {
      r := Err(Panic);
    } else {
      r := CopyAndCommit(b, sid, file, snap, now);
    }
    RepoExtendsTransitive(old(b.repo.State()), before, b.repo.State());
    var stopped := b.Stop(sid);
    assert b.sessions == old(b.sessions);
  }

  /** Copies the file into an open session and commits it. */
  method CopyAndCommit(b: Backend, sid: Id, file: Bytes, snap: Id, now: int) returns (r: Result<Snapshot>)
    requires b.Valid() && sid in b.sessions && b.FreshName(snap) && |file| < TWO_63
    requires b.sessions[sid].volume.geometry.chunkSize > 0
    modifies b`tally, b.cache, b.store, b.repo`snapshots, b.repo`volumes, b.Of(sid)
    ensures b.Valid()
    ensures r.Ok? ==>
              && r.value == Snapshot(snap, b.sessions[sid].volume.volumeId, ManifestKey(snap))
              && Importable(b.sessions[sid].volume.geometry, file) && |file| <= |old(b.ViewOf(sid))|
              && b.Published(b.sessions[sid].volume.volumeId, snap,
                             Laid(b.sessions[sid].volume.geometry.chunkSize, old(b.ViewOf(sid)), file))
    ensures RepoExtends(old(b.repo.State()), b.repo.State())
    ensures
      var importable := Importable(b.sessions[sid].volume.geometry, file);
      b.Reliable() && old(Intact(b.sessions[sid].State())) && importable ==> r.Ok?
  {
    hide Backend.Valid, View, PublishedIn, RepoExtends, StoreExtends, Volumes.Intact, Laid;
    ExtendsSelf(b.repo.State());
    var copied := CopyFile(b, sid, file, now);
    if copied.Err? {
      return Err(copied.error);
    }
    var stats;
    r, stats := b.CommitWithOptions(sid, 0, snap, now);
  }

  /** What a new volume holds after a file was imported into it; a volume for an empty file gets the default size. */
  function Imported(file: Bytes): Bytes {
    if file == [] then Zeros(DEFAULT_SIZE_BYTES) else file
  }

  /** On a new volume of the file's own size nothing but the file is laid. */
  lemma LaidFresh(g: Geometry, file: Bytes)
    requires g.chunkSize > 0 && g.sizeBytes == if file == [] then DEFAULT_SIZE_BYTES else |file|
    ensures Laid(g.chunkSize, Zeros(g.Size()), file) == Imported(file)
  {
    hide Leftover;
    NoRanges(0, |file|, g.chunkSize);
    var all := file + Leftover(file, g.chunkSize);
    assert all[..|file|] == file;
    assert Splice(Zeros(g.Size()), 0, file) == Imported(file);
  }

  /**
   The import round trip: a file imported into a new volume of its own size
   comes back byte for byte, short last chunk or not.
   */
  method ImportFresh(b: Backend, volumeId: Id, file: Bytes, chunkSize: Int64, sid: Id, snap: Id, now: int)
    returns (r: Result<Snapshot>)
    requires b.Valid() && sid !in b.sessions && b.FreshName(snap) && volumeId !in b.repo.volumes && |file| < TWO_63
    modifies b`sessions, b`tally, b.cache, b.store, b.repo`snapshots, b.repo`volumes
    ensures b.Valid() && b.sessions == old(b.sessions)
    ensures r.Ok? ==> volumeId in b.repo.volumes && b.Published(volumeId, snap, Imported(file))
    ensures r.Ok? ==> b.repo.volumes[volumeId].geometry == WithDefaults(Geometry(|file|, chunkSize))
    ensures b.Reliable() ==> (r.Ok? <==> Importable(WithDefaults(Geometry(|file|, chunkSize)), file))
  {
    hide Backend.Valid, View, SnapshotOk, Laid;
    var created := b.CreateVolume(volumeId, |file|, chunkSize);
    if created.Err? {
      return Err(created.error);
    }
    r := ImportFile(b, created.value, file, sid, snap, now);
    ghost var g := WithDefaults(Geometry(|file|, chunkSize));
    if g.chunkSize > 0 {
      LaidFresh(g, file);
    }
  }

  /** Opening a published volume on any node and reading all of it gives the published content. */
  method ReadBack(b: Backend, volumeId: Id, ghost snap: Id, ghost content: Bytes, length: Int64, sid: Id, now: int)
    returns (r: Result<Bytes>)
    requires b.Valid() && sid !in b.sessions && b.Published(volumeId, snap, content) && 0 < length == |content|
    modifies b`sessions, b`tally, b.repo`volumes, b.cache
    ensures b.Valid()
    ensures r.Ok? ==> r.value == content
    ensures b.Reliable() ==> (r.Ok? <==> old(b.repo.volumes[volumeId].geometry.Addressable()))
  {
    hide Backend.Valid, View, LatestContent, RepoExtends, VolumeContents, SnapshotOk, Fits;
    VolumeFacts(b, volumeId);
    var started := b.StartSession(volumeId, sid);
    if started.Err? {
      return Err(started.error);
    }
    r := b.Read(sid, 0, length, now);
    assert b.ViewOf(sid)[0..length] == content;
  }

  /**
   The import round trip across nodes: a file imported on one node is read back
   whole on another that starts afterwards with any coherent cache of its own.
   */
  method ImportThenReadElsewhere(a: Backend, volumeId: Id, file: Bytes, chunkSize: Int64, sid: Id, snap: Id,
                                 otherNode: Id, otherCache: LocalCache, now: int) returns (r: Result<Bytes>)
    requires a.Valid() && sid !in a.sessions && a.FreshName(snap) && volumeId !in a.repo.volumes && |file| < TWO_63
    requires otherCache != a.cache && otherCache.Valid() && otherCache.Coherent()
    modifies a`sessions, a`tally, a.cache, a.store, a.repo`snapshots, a.repo`volumes, otherCache
    ensures r.Ok? ==> r.value == Imported(file)
    ensures
      var g := WithDefaults(Geometry(|file|, chunkSize));
      a.Reliable() && otherCache.reliable ==> (r.Ok? <==> g.chunkSize > 0 && g.Addressable())
  {
    hide RepoOk, LocalCache.Valid, LocalCache.Coherent, SnapshotOk, LatestContent, Backend.Ready, Backend.Holds,
         Fits, Sum;
    var imported := ImportFresh(a, volumeId, file, chunkSize, sid, snap, now);
    if imported.Err? {
      return Err(imported.error);
    }
    var b := new Backend(otherNode, a.repo, a.store, otherCache);
    r := ReadBack(b, volumeId, snap, Imported(file), |Imported(file)|, sid, now);
  }

  /** Each chunk that the request touches is dirty, or in no manifest, or was at some time in the node's cache. */
  ghost predicate AtHand(b: Backend, s: Session, offset: int, length: int)
    reads s, b.cache
  {
    forall i :: b.Touches(s, offset, length, i) ==>
      i in s.dirty || i !in s.baseManifest || s.baseManifest[i] in b.cache.everPut
  }

  /** After a commit all those chunks are in the cache, if it has room for them. */
  lemma CommittedIsWarm(b: Backend, s: Session, before: SessionState, ever: map<ChunkId, Bytes>, offset: int,
                        length: int)
    requires Intact(before) && s.dirty == {} && s.baseManifest == Committed(before.manifest, before.files)
    requires before.files.Keys <= before.dirty && b.cache.everPut == ever + ByHash(before.files)
    requires TotalBytes(b.cache.everPut) <= b.cache.maxSize
    requires forall i :: b.Touches(s, offset, length, i) ==>
               i in before.dirty || i !in before.manifest || before.manifest[i] in ever
    ensures b.Warm(s, offset, length)
  {
    hide TotalBytes, ByHash, Backend.Touches;
    forall i | b.Touches(s, offset, length, i)
      ensures b.Known(s, i)
    {
      if i in before.files {
        HashedIds(before.files, HashChunk(before.files[i]));
      }
    }
  }

  /** A commit leaves its chunks in the node's cache, if it has room for them. */
  method CommitWarm(b: Backend, sid: Id, snap: Id, ghost offset: int, ghost length: int, now: int)
    returns (committed: Result<Snapshot>)
    requires b.Valid() && sid in b.sessions && b.FreshName(snap)
    modifies b.cache, b.store, b.repo`snapshots, b.repo`volumes
    modifies b.Of(sid)`baseSnapshot, b.Of(sid)`baseManifest, b.Of(sid)`dirty, b.Of(sid)`files
    ensures b.Valid() && b.ViewOf(sid) == old(b.ViewOf(sid))
    ensures
      var s := b.sessions[sid];
      committed.Ok? ==>
        && s.dirty == {}
        && (old(AtHand(b, s, offset, length))
            && TotalBytes(old(b.cache.everPut) + ByHash(old(s.files))) <= b.cache.maxSize ==>
              b.Warm(s, offset, length))
  {
    hide Backend.Valid, View, TotalBytes, ByHash, Volumes.Intact, RepoExtends, StoreExtends, PublishedIn;
    hide Backend.Warm, Committed;
    ghost var s := b.sessions[sid];
    ghost var before, ever := s.State(), b.cache.everPut;
    SessionFacts(b, sid);
    var stats;
    committed, stats := b.CommitWithOptions(sid, 0, snap, now);
    if committed.Ok? && old(AtHand(b, s, offset, length)) && TotalBytes(b.cache.everPut) <= b.cache.maxSize {
      CommittedIsWarm(b, s, before, ever, offset, length);
    }
  }

  /**
   So a read of what was just committed misses nothing and fetches nothing;
   without I/O failures every chunk it touches is a hit or a zero-fill.
   */
  method CommitThenRead(b: Backend, sid: Id, snap: Id, offset: Int64, length: Int64, now: int)
    returns (committed: Result<Snapshot>, r: Result<Bytes>)
    requires b.Valid() && sid in b.sessions && b.FreshName(snap)
    modifies b`tally, b.cache, b.store, b.repo`snapshots, b.repo`volumes, b.Of(sid)
    ensures b.Valid() && sid in b.sessions
    ensures committed.Ok? && r.Ok? ==>
              && b.InRange(sid, offset, length) && offset + length <= |old(b.ViewOf(sid))|
              && r.value == old(b.ViewOf(sid))[offset..offset + length]
    ensures
      var s := b.sessions[sid];
      committed.Ok? && old(AtHand(b, s, offset, length))
      && TotalBytes(old(b.cache.everPut) + ByHash(old(s.files))) <= b.cache.maxSize ==>
        && s.cacheMisses == old(s.cacheMisses) && s.remoteFetches == old(s.remoteFetches)
        && (b.Reliable() && r.Ok? ==>
              s.cacheHits + s.zeroFills
              == old(s.cacheHits + s.zeroFills) + |Ranges(offset, length, s.volume.geometry.chunkSize)|)
  {
    hide Backend.Valid, View, TotalBytes, ByHash, Volumes.Intact, Ranges, Fits, Backend.Warm, AtHand;
    SessionFacts(b, sid);
    committed := CommitWarm(b, sid, snap, offset, length, now);
    if committed.Err? {
      return committed, Err(Io);
    }
    r := b.Read(sid, offset, length, now);
    SessionFacts(b, sid);
  }

  lemma SessionFacts(b: Backend, sid: Id)
    requires b.Valid() && sid in b.sessions
    ensures b.sessions[sid].files.Keys <= b.sessions[sid].dirty
    ensures |b.ViewOf(sid)| == b.sessions[sid].volume.geometry.Size()
    ensures
      var s := b.sessions[sid];
      b.Reliable() ==> s.cacheHits + s.cacheMisses + s.zeroFills == s.resolutions
  {
    hide RepoOk, Backend.Ready, TotalBytes, ManifestOk, FilesOk, View;
  }

  /** A commit on one node leaves every session of another node good and showing the same device. */
  method CommitBeside(a: Backend, b: Backend, sid: Id, snap: Id, now: int) returns (r: Result<Snapshot>)
    requires a.Valid() && b.Valid() && a != b && a.repo == b.repo && a.store == b.store && a.cache != b.cache
    requires sid in a.sessions && a.FreshName(snap)
    requires forall t :: t in b.sessions ==> b.sessions[t] != a.sessions[sid]
    modifies a.cache, a.store, a.repo`snapshots, a.repo`volumes, a.Of(sid)
    ensures a.Valid() && b.Valid() && b.sessions == old(b.sessions)
    ensures forall t :: t in b.sessions ==> b.ViewOf(t) == old(b.ViewOf(t))
    ensures r.Ok? ==> a.Published(a.sessions[sid].volume.volumeId, snap, old(a.ViewOf(sid)))
    ensures a.Reliable() && old(Intact(a.sessions[sid].State())) ==> r.Ok?
  {
    hide Backend.Valid, RepoOk, View, PublishedIn, Committed, Volumes.Intact, StoreExtends, RepoExtends;
    var stats;
    r, stats := a.CommitWithOptions(sid, 0, snap, now);
    GoodRepo(a);
    b.GrownAround();
  }

  lemma GoodRepo(b: Backend)
    requires b.Valid()
    ensures RepoOk(b.repo.State(), b.store.State())
  {
    hide RepoOk;
  }

  /**
   A volume committed on one node and opened on another shows there exactly
   what the committing session shows.
   */
  method CommitThenOpenElsewhere(a: Backend, b: Backend, sid: Id, elsewhere: Id, snap: Id, now: int)
    returns (r: Result<Session>)
    requires a.Valid() && b.Valid() && a != b && a.repo == b.repo && a.store == b.store && a.cache != b.cache
    requires sid in a.sessions && elsewhere !in b.sessions && a.FreshName(snap)
    requires forall t :: t in b.sessions ==> b.sessions[t] != a.sessions[sid]
    modifies a.cache, a.store, a.repo`snapshots, a.repo`volumes, a.Of(sid), b`sessions, b`tally
    ensures b.Valid()
    ensures r.Ok? ==>
              elsewhere in b.sessions && r.value == b.sessions[elsewhere] && b.ViewOf(elsewhere) == old(a.ViewOf(sid))
    ensures a.Reliable() && b.Reliable() && old(Intact(a.sessions[sid].State())) ==> r.Ok?
  {
    hide Backend.Valid, View, LatestContent, SnapshotOk, VolumeContents, Volumes.Intact, RepoExtends;
    var committed := CommitBeside(a, b, sid, snap, now);
    if committed.Err? {
      return Err(committed.error);
    }
    r := b.StartSession(a.sessions[sid].volume.volumeId, elsewhere);
  }
}
