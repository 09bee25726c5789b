/**
 A node's storage backend: sessions that read lazily through the cache, write
 into a dirty overlay, and commit the overlay as a new snapshot.
 */
module Backends {
  import opened Bytes
  import opened Chunks
  import opened Wire
  import opened Volumes
  import opened Cache
  import opened Stores
  import opened Snapshots

  /** Short chunks are padded with zeros, long ones refused. */
  function NormalizeChunk(b: Bytes, chunkSize: int): Result<Bytes> {
    if |b| == chunkSize then Ok(b)
    else if |b| > chunkSize then Err(Io)
    else Ok(b + Zeros(chunkSize - |b|))
  }

  method Smallest(among: set<int>) returns (smallest: int)
    requires among != {}
    ensures smallest in among
    ensures forall i :: i in among ==> smallest <= i
  {
    ghost var first := Member(among);
    smallest :| smallest in among;
    var rest := among - {smallest};
    while rest != {}
      invariant smallest in among && rest <= among
      invariant forall i :: i in among && i !in rest ==> smallest <= i
      decreases rest
    {
      ghost var member := Member(rest);
      var i: int :| i in rest;
      if i < smallest {
        smallest := i;
      }
      rest := rest - {i};
    }
  }

  /** The dirty indexes in increasing order. */
  method SortedIndexes(dirty: set<int>) returns (out: seq<int>)
    ensures StrictlyIncreasing(out)
    ensures forall i :: i in out <==> i in dirty
    ensures |out| == |dirty|
  {
    out := [];
    var rest := dirty;
    while rest != {}
      invariant rest <= dirty
      invariant StrictlyIncreasing(out)
      invariant forall i :: i in out <==> i in dirty && i !in rest
      invariant forall k, i :: 0 <= k < |out| && i in rest ==> out[k] < i
      invariant |out| == |dirty| - |rest|
      decreases rest
    {
      var i := Smallest(rest);
      out := out + [i];
      rest := rest - {i};
    }
  }

  /** What a commit did: every dirty chunk is either uploaded or found to be there. */
  datatype CommitStats = CommitStats(chunks: nat, uploaded: nat, skipped: nat) {
    function Plus(other: CommitStats): CommitStats {
      CommitStats(chunks + other.chunks, uploaded + other.uploaded, skipped + other.skipped)
    }
  }

  /**
   A commit's account: each dirty chunk was there, and was uploaded or skipped, each upload is a
   new object, and the cache was given every dirty chunk and nothing else.
   */
  ghost predicate Accounted(s: SessionState, chunks: map<ChunkId, Bytes>, ever: map<ChunkId, Bytes>,
                            stats: CommitStats, chunks': map<ChunkId, Bytes>, ever': map<ChunkId, Bytes>)
  {
    && Intact(s) && stats.chunks == |s.dirty| == stats.uploaded + stats.skipped
    && |chunks'| == |chunks| + stats.uploaded
    && ever' == ever + ByHash(s.files)
  }

  /**
   A node's account of its remote fetches: how many there were, how many of
   them did not end with the chunk in the cache, which chunks the others
   brought in, how many were made by sessions since stopped, and how many by
   each open session.
   */
  datatype Tally = Tally(fetches: nat, failedFills: nat, filled: set<ChunkId>, closed: nat, open: map<Id, nat>) {
    function Of(session: Id): nat {
      if session in open then open[session] else 0
    }

    /** Session `session` fetched chunk `id`, and it did or did not get into the cache. */
    function Fetch(session: Id, id: ChunkId, intoCache: bool): Tally {
      Tally(fetches + 1, if intoCache then failedFills else failedFills + 1,
            if intoCache then filled + {id} else filled,
            closed, open[session := Of(session) + 1])
    }

    /** Only session `session` has fetched since `before`, `n` times. */
    predicate Charged(before: Tally, session: Id, n: int) {
      if n == 0 then open == before.open else n > 0 && open == before.open[session := before.Of(session) + n]
    }
  }

  /**
   The sessions' counts add up to the fetches. While the cache has room for
   everything it was given, a chunk is fetched again only after a fill of it
   failed.
   */
  ghost predicate TallyOk(t: Tally, ever: map<ChunkId, Bytes>, maxSize: int, reliable: bool) {
    && t.fetches == t.closed + Sum(t.open)
    && (TotalBytes(ever) <= maxSize ==> t.filled <= ever.Keys && t.fetches == |t.filled| + t.failedFills)
    && (reliable ==> t.failedFills == 0)
  }

  /** One fetch by a cache that has room: of a chunk it was never given, which it is given now unless the fill fails. */
  ghost predicate FetchStep(ever: map<ChunkId, Bytes>, t: Tally, session: Id, id: ChunkId, chunk: Bytes,
                            ever': map<ChunkId, Bytes>, t': Tally)
  {
    && id !in ever && HashChunk(chunk) == id
    && (|| (ever' == ever[id := chunk] && t' == t.Fetch(session, id, true))
        || ((ever' == ever || ever' == ever[id := chunk]) && t' == t.Fetch(session, id, false)))
  }

  lemma FetchTally(ever: map<ChunkId, Bytes>, t: Tally, session: Id, id: ChunkId, chunk: Bytes, intoCache: bool,
                   ever': map<ChunkId, Bytes>, maxSize: int, reliable: bool)
    requires TallyOk(t, ever, maxSize, reliable) && (reliable ==> intoCache)
    requires TotalBytes(ever') <= maxSize ==>
               && TotalBytes(ever) <= maxSize
               && FetchStep(ever, t, session, id, chunk, ever', t.Fetch(session, id, intoCache))
    ensures TallyOk(t.Fetch(session, id, intoCache), ever', maxSize, reliable)
  {
    SumUpdate(t.open, session, t.Of(session) + 1);
  }

  lemma Fetched(ever: map<ChunkId, Bytes>, t: Tally, session: Id, id: ChunkId, chunk: Bytes, intoCache: bool,
                ever': map<ChunkId, Bytes>)
    requires id !in ever && HashChunk(chunk) == id
    requires ever' == ever[id := chunk] || (!intoCache && ever' == ever)
    ensures FetchStep(ever, t, session, id, chunk, ever', t.Fetch(session, id, intoCache))
  {
  }

  /** If there is room now, there was room before, and what was in neither tier had never been put. */
  lemma RoomBefore(ever: map<ChunkId, Bytes>, items: map<ChunkId, MemoryChunk>, disk: map<ChunkId, DiskFile>,
                   evicted: nat,
                   maxSize: int, ever': map<ChunkId, Bytes>, id: ChunkId, chunk: Bytes)
    requires CoherentState(ever, items, disk, evicted, maxSize) && TotalBytes(ever') <= maxSize
    requires HashChunk(chunk) == id && (ever' == ever || ever' == ever[id := chunk]) && id !in disk
    ensures TotalBytes(ever) <= maxSize && id !in ever
  {
    hide TotalBytes;
    GrownCache(ever, ever', id, chunk);
    NeverPut(ever, items, disk, evicted, maxSize, id);
  }

  /** The plain bound fails: a fetch whose fill fails is followed by a second fetch of the same chunk. */
  lemma RefetchAfterFailedFill(session: Id, chunk: Bytes)
    ensures
      var id := HashChunk(chunk);
      var t0 := Tally(0, 0, {}, 0, map[session := 0]);
      var t1 := t0.Fetch(session, id, false);
      var t2 := t1.Fetch(session, id, true);
      && FetchStep(map[], t0, session, id, chunk, map[], t1)
      && FetchStep(map[], t1, session, id, chunk, map[id := chunk], t2)
      && t2.fetches == t2.open[session] == 2 > |map[id := chunk]|
  {
  }

  ghost function Sum(m: map<Id, nat>): nat {
    if m == map[] then 0
    else
      var k :| k in m;
      m[k] + Sum(m - {k})
  }

  lemma {:induction false} SumRemove(m: map<Id, nat>, k: Id)
    requires k in m
    ensures Sum(m) == m[k] + Sum(m - {k})
    decreases |m|
  {
    var pick :| pick in m && Sum(m) == m[pick] + Sum(m - {pick});
    if pick != k {
      SumRemove(m - {pick}, k);
      SumRemove(m - {k}, pick);
      assert m - {pick} - {k} == m - {k} - {pick};
    }
  }

  lemma SumUpdate(m: map<Id, nat>, k: Id, n: nat)
    ensures Sum(m[k := n]) == Sum(m) + n - if k in m then m[k] else 0
  {
    SumRemove(m[k := n], k);
    if k in m {
      SumRemove(m, k);
      assert m[k := n] - {k} == m - {k};
    } else {
      assert m[k := n] - {k} == m;
    }
  }

  lemma TallyOpened(t: Tally, ever: map<ChunkId, Bytes>, maxSize: int, reliable: bool, session: Id)
    requires TallyOk(t, ever, maxSize, reliable) && session !in t.open
    ensures TallyOk(t.(open := t.open[session := 0]), ever, maxSize, reliable)
  {
    SumUpdate(t.open, session, 0);
  }

  lemma TallyClosed(t: Tally, ever: map<ChunkId, Bytes>, maxSize: int, reliable: bool, session: Id)
    requires TallyOk(t, ever, maxSize, reliable) && session in t.open
    ensures TallyOk(t.(closed := t.closed + t.open[session], open := t.open - {session}), ever, maxSize, reliable)
  {
    SumRemove(t.open, session);
  }

  /** How many of the ranges are in chunks outside the overlay. */
  ghost function Outside(rs: seq<ChunkRange>, dirty: set<int>): nat {
    if rs == [] then 0
    else Outside(rs[..|rs| - 1], dirty) + if rs[|rs| - 1].index in dirty then 0 else 1
  }

  lemma OutsideNone(rs: seq<ChunkRange>, dirty: set<int>)
    ensures Outside(rs[..0], dirty) == 0
  {
  }

  lemma OutsideNext(rs: seq<ChunkRange>, dirty: set<int>, k: nat)
    requires k < |rs|
    ensures Outside(rs[..k + 1], dirty) == Outside(rs[..k], dirty) + if rs[k].index in dirty then 0 else 1
  {
    assert rs[..k + 1][..k] == rs[..k];
  }

  lemma {:induction false} OutsideAll(rs: seq<ChunkRange>)
    ensures Outside(rs, {}) == |rs|
  {
    if rs != [] {
      OutsideAll(rs[..|rs| - 1]);
    }
  }

  class Session {
    const id: Id
    const volume: Volume
    var baseSnapshot: Option<Id>
    var baseManifest: Manifest
    var dirty: set<int>
    /** The chunk files of the overlay directory. */
    var files: map<int, Bytes>

    var cacheHits: nat
    var cacheMisses: nat
    var remoteFetches: nat
    var zeroFills: nat

    /** How many chunks outside the overlay have been asked for. */
    ghost var resolutions: nat

    constructor (id: Id, volume: Volume, manifest: Manifest)
      ensures this.id == id && State() == SessionState(volume, volume.latest, manifest, {}, map[])
      ensures this.volume == volume
      ensures cacheHits == cacheMisses == remoteFetches == zeroFills == resolutions == 0
    {
      this.id, this.volume := id, volume;
      baseSnapshot, baseManifest, dirty, files := volume.latest, manifest, {}, map[];
      cacheHits, cacheMisses, remoteFetches, zeroFills, resolutions := 0, 0, 0, 0, 0;
    }

    ghost function State(): SessionState
      reads this
    {
      SessionState(volume, baseSnapshot, baseManifest, dirty, files)
    }

    /**
     Each chunk asked for was a hit, a miss or a zero-fill; without I/O errors
     each was exactly one, and each miss a fetch.
     */
    ghost predicate Counted(reliable: bool)
      reads this
    {
      && cacheHits + cacheMisses + zeroFills <= resolutions
      && remoteFetches <= cacheMisses
      && (reliable ==> cacheHits + cacheMisses + zeroFills == resolutions && remoteFetches == cacheMisses)
    }

    method ReadDirtyChunk(index: int, reliable: bool) returns (r: Result<Bytes>)
      ensures r.Err? ==> r.error == Io
      ensures r.Ok? ==> index in files && |files[index]| <= volume.geometry.chunkSize
      ensures r.Ok? ==> r.value == PaddedSlice(files[index], 0, volume.geometry.chunkSize)
      ensures reliable && index in files && |files[index]| <= volume.geometry.chunkSize ==> r.Ok?
    {
      var fails := OperationFails(reliable);
      if fails || index !in files {
        return Err(Io);
      }
      r := NormalizeChunk(files[index], volume.geometry.chunkSize);
      assert r.Ok? ==> r.value == PaddedSlice(files[index], 0, volume.geometry.chunkSize);
    }

    method ReadDirtyRange(index: int, offset: nat, length: nat, reliable: bool) returns (r: Result<Bytes>)
      ensures r.Err? ==> r.error == Io
      ensures r.Ok? ==> index in files && r.value == PaddedSlice(files[index], offset, length)
      ensures reliable && index in files ==> r.Ok?
    {
      var fails := OperationFails(reliable);
      if fails || index !in files {
        return Err(Io);
      }
      r := Ok(PaddedSlice(files[index], offset, length));
    }

    method WriteDirtyChunk(index: int, chunk: Bytes, reliable: bool) returns (r: Result<()>)
      modifies this`files
      ensures files == if r.Ok? then old(files)[index := chunk] else old(files)
      ensures r.Err? ==> r.error == Io
      ensures reliable ==> r.Ok?
    {
      var fails := OperationFails(reliable);
      if fails {
        return Err(Io);
      }
      files := files[index := chunk];
      r := Ok(());
    }

    /** Removing the directory may fail after any of its files is gone. */
    method ClearDirtyOverlay(reliable: bool) returns (r: Result<()>)
      modifies this`files, this`dirty
      ensures r.Ok? ==> files == map[] && dirty == {}
      ensures r.Err? ==> dirty == old(dirty)
      ensures forall i :: i in files ==> i in old(files) && files[i] == old(files)[i]
      ensures reliable ==> r.Ok?
    {
      var rest := files.Keys;
      while rest != {}
        invariant rest <= files.Keys
        invariant forall i :: i in files ==> i in old(files) && files[i] == old(files)[i]
        invariant dirty == old(dirty)
        decreases rest
      {
        var fails := OperationFails(reliable);
        if fails {
          return Err(Io);
        }
        ghost var member := Member(rest);
        var i: int :| i in rest;
        files := files - {i};
        rest := rest - {i};
      }
      files := map[];
      var noDirectory := OperationFails(reliable);
      if noDirectory {
        return Err(Io);
      }
      dirty := {};
      r := Ok(());
    }
  }

  class Backend {
    const nodeId: Id
    const repo: Repository
    const store: ObjectStore
    const cache: LocalCache
    var sessions: map<Id, Session>

    /** Remote fetches by all sessions this backend has ever had. */
    ghost var tally: Tally

    constructor (nodeId: Id, repo: Repository, store: ObjectStore, cache: LocalCache)
      requires cache.Valid() && cache.Coherent() && RepoOk(repo.State(), store.State())
      ensures Valid() && sessions == map[] && tally == Tally(0, 0, {}, 0, map[])
      ensures this.nodeId == nodeId && this.repo == repo && this.store == store && this.cache == cache
    {
      this.nodeId, this.repo, this.store, this.cache := nodeId, repo, store, cache;
      sessions, tally := map[], Tally(0, 0, {}, 0, map[]);
    }

    /** Whether no I/O operation of this node ever fails. */
    predicate Reliable() {
      repo.reliable && store.reliable && cache.reliable
    }

    /** The cache tells the truth and the store holds chunks under their own hash. */
    ghost predicate Ready()
      reads this`tally, store, cache
    {
      && cache.Valid() && cache.Coherent()
      && ChunksOk(store.chunks)
      && FetchesBounded()
    }

    ghost predicate FetchesBounded()
      reads this`tally, cache
    {
      TallyOk(tally, cache.everPut, cache.maxSize, Reliable())
    }

    /** A session of this node: good over the store, on a volume of the repository, its counters in order. */
    ghost predicate Holds(s: Session)
      reads repo, store, s
    {
      Held(s.State(), repo.State(), store.State()) && s.Counted(Reliable())
    }

    ghost predicate Valid()
      reads this, repo, store, cache, sessions.Values
    {
      && Ready()
      && RepoOk(repo.State(), store.State())
      && tally.open.Keys == sessions.Keys
      && (forall t :: t in sessions ==>
            sessions[t].id == t && Holds(sessions[t]) && tally.open[t] == sessions[t].remoteFetches)
    }

    // ----- Resolving chunks -----

    /** The store has no object for `id`, or a whole chunk. */
    ghost predicate Whole(id: ChunkId, chunkSize: int)
      reads store
    {
      id in store.chunks ==> |store.chunks[id]| == chunkSize
    }

    /** If the cache has room and the chunk is whole, this was one fetch in the sense of `FetchStep`. */
    twostate predicate FetchedOnce(s: Session, id: ChunkId)
      requires id in store.chunks
      reads this`tally, store, cache, s
    {
      Whole(id, s.volume.geometry.chunkSize) && TotalBytes(cache.everPut) <= cache.maxSize ==>
        FetchStep(old(cache.everPut), old(tally), s.id, id, store.chunks[id], cache.everPut, tally)
    }

    /** A fetched chunk goes into the cache, and the fetch into the account. */
    method FillCache(s: Session, id: ChunkId, chunk: Bytes, now: int) returns (r: Result<()>)
      requires Ready() && cache.Lookup(id).None?
      modifies cache, this`tally
      ensures HashChunk(chunk) == id ==> Ready()
      ensures tally == old(tally).Fetch(s.id, id, r.Ok?)
      ensures r.Ok? ==> cache.everPut == old(cache.everPut)[id := chunk]
      ensures HashChunk(chunk) == id && TotalBytes(cache.everPut) <= cache.maxSize ==>
                FetchStep(old(cache.everPut), old(tally), s.id, id, chunk, cache.everPut, tally)
      ensures Reliable() ==> r.Ok?
    {
      hide LocalCache.Valid, TotalBytes, EvictedOldest, Fronted, Recent, CoherentState, TallyOk, FetchStep;
      ghost var ever, items, disk, evicted := cache.everPut, cache.memoryItems, cache.disk, cache.evicted;
      r := cache.Put(id, chunk, now);
      if HashChunk(chunk) == id {
        if TotalBytes(cache.everPut) <= cache.maxSize {
          RoomBefore(ever, items, disk, evicted, cache.maxSize, cache.everPut, id, chunk);
          Fetched(ever, tally, s.id, id, chunk, r.Ok?, cache.everPut);
        }
        FetchTally(ever, tally, s.id, id, chunk, r.Ok?, cache.everPut, cache.maxSize, Reliable());
      }
      tally := tally.Fetch(s.id, id, r.Ok?);
    }

    /** The miss path: fetch from the store, pad, and fill the cache. A missing object reads as zeros. */
    method FetchChunk(s: Session, id: ChunkId, now: int) returns (r: Result<Bytes>)
      requires s.volume.geometry.chunkSize > 0
      requires Ready() && cache.Lookup(id).None?
      modifies cache, s`cacheMisses, s`remoteFetches, s`zeroFills, this`tally
      ensures Whole(id, s.volume.geometry.chunkSize) ==> Ready()
      ensures r.Ok? && id !in store.chunks ==> r.value == Zeros(s.volume.geometry.chunkSize)
      ensures r.Ok? && id in store.chunks ==>
                && |store.chunks[id]| <= s.volume.geometry.chunkSize
                && r.value == PaddedSlice(store.chunks[id], 0, s.volume.geometry.chunkSize)
      ensures r.Err? ==> r.error == Io
      ensures Reliable() && Whole(id, s.volume.geometry.chunkSize) ==> r.Ok?
      ensures s.cacheMisses == old(s.cacheMisses) + 1
      ensures tally.Charged(old(tally), s.id, s.remoteFetches - old(s.remoteFetches))
      ensures old(s.remoteFetches) <= s.remoteFetches <= old(s.remoteFetches) + 1
      ensures id in store.chunks ==> s.zeroFills == old(s.zeroFills)
      ensures id !in store.chunks && r.Ok? ==>
                s.zeroFills == old(s.zeroFills) + 1 && s.remoteFetches == old(s.remoteFetches)
      ensures Reliable() && id in store.chunks ==> s.remoteFetches == old(s.remoteFetches) + 1
      ensures tally == old(tally) || (id in store.chunks && FetchedOnce(s, id))
      ensures if id !in store.chunks then cache.everPut == old(cache.everPut)
              else r.Ok? ==>
                     && s.remoteFetches == old(s.remoteFetches) + 1
                     && cache.everPut == old(cache.everPut)[id := r.value]
    {
      hide LocalCache.Valid, TotalBytes, CoherentState, TallyOk, FetchStep;
      s.cacheMisses := s.cacheMisses + 1;
      var remote := store.GetChunk(id);
      if remote.Err? {
        if remote.error == NotFound {
          s.zeroFills := s.zeroFills + 1;
          return Ok(Zeros(s.volume.geometry.chunkSize));
        }
        return Err(Io);
      }
      s.remoteFetches := s.remoteFetches + 1;
      r := NormalizeChunk(remote.value, s.volume.geometry.chunkSize);
      if r.Err? {
        tally := tally.Fetch(s.id, id, false);
        return;
      }
      assert r.value == PaddedSlice(remote.value, 0, s.volume.geometry.chunkSize);
      var put := FillCache(s, id, r.value, now);
      if put.Err? {
        return Err(Io);
      }
    }

    /** The chunk that the session shows at `index`. */
    ghost function Shows(s: Session, index: int): Bytes
      reads s, store
    {
      ChunkAt(s.volume.geometry, s.files, s.baseManifest, store.chunks, index)
    }

    /** Counters after a chunk outside the overlay was asked for and found in the cache, fetched or failed. */
    twostate predicate CountedOne(s: Session)
      reads s
    {
      && s.resolutions == old(s.resolutions) && s.zeroFills == old(s.zeroFills)
      && old(s.cacheHits + s.cacheMisses) <= s.cacheHits + s.cacheMisses <= old(s.cacheHits + s.cacheMisses) + 1
      && 0 <= s.remoteFetches - old(s.remoteFetches) <= s.cacheMisses - old(s.cacheMisses)
    }

    /**
     A chunk that the manifest names was asked for. If the cache had it, that is
     a hit and nothing is fetched; if not, a miss, and if that succeeds a fetch
     after which the cache has been given the chunk.
     */
    twostate predicate CountedAs(s: Session, id: ChunkId, found: bool, ok: bool)
      reads s, cache, store
    {
      if found then
        && s.cacheMisses == old(s.cacheMisses) && s.remoteFetches == old(s.remoteFetches)
        && cache.everPut == old(cache.everPut)
        && (ok ==> s.cacheHits == old(s.cacheHits) + 1)
      else
        && s.cacheHits == old(s.cacheHits)
        && (ok ==>
              && s.cacheMisses == old(s.cacheMisses) + 1 && s.remoteFetches == old(s.remoteFetches) + 1
              && id in store.chunks && cache.everPut == old(cache.everPut)[id := store.chunks[id]])
    }

    /** A whole chunk that the manifest names: from the cache, or from the store and into the cache. */
    method ResolveMapped(s: Session, id: ChunkId, now: int) returns (r: Result<Bytes>)
      requires s.volume.geometry.chunkSize > 0
      requires Ready() && id in store.chunks && |store.chunks[id]| == s.volume.geometry.chunkSize
      modifies cache, s`cacheHits, s`cacheMisses, s`remoteFetches, s`zeroFills, this`tally
      ensures Ready() && CountedOne(s)
      ensures r.Err? ==> r.error == Io
      ensures r.Ok? ==> r.value == store.chunks[id]
      ensures tally.Charged(old(tally), s.id, s.remoteFetches - old(s.remoteFetches))
      ensures CountedAs(s, id, old(cache.Lookup(id)).Some?, r.Ok?)
      ensures Reliable() ==>
                && r.Ok? && s.cacheHits + s.cacheMisses == old(s.cacheHits + s.cacheMisses) + 1
                && s.remoteFetches - old(s.remoteFetches) == s.cacheMisses - old(s.cacheMisses)
    {
      hide TotalBytes, LocalCache.Valid;
      var cached := cache.Get(id, now);
      if cached.Err? {
        return Err(cached.error);
      }
      if cached.value.Some? {
        s.cacheHits := s.cacheHits + 1;
        HashInjective(cached.value.value, store.chunks[id]);
        return NormalizeChunk(cached.value.value, s.volume.geometry.chunkSize);
      }
      r := FetchChunk(s, id, now);
    }

    /** The same for part of a chunk. */
    method ResolveMappedRange(s: Session, id: ChunkId, chunkOffset: nat, length: nat, now: int)
      returns (r: Result<Bytes>)
      requires s.volume.geometry.chunkSize > 0 && chunkOffset + length <= s.volume.geometry.chunkSize
      requires Ready() && id in store.chunks && |store.chunks[id]| == s.volume.geometry.chunkSize
      modifies cache, s`cacheHits, s`cacheMisses, s`remoteFetches, s`zeroFills, this`tally
      ensures Ready() && CountedOne(s)
      ensures r.Err? ==> r.error == Io
      ensures r.Ok? ==> r.value == PaddedSlice(store.chunks[id], chunkOffset, length)
      ensures tally.Charged(old(tally), s.id, s.remoteFetches - old(s.remoteFetches))
      ensures CountedAs(s, id, old(cache.Lookup(id)).Some?, r.Ok?)
      ensures Reliable() ==>
                && r.Ok? && s.cacheHits + s.cacheMisses == old(s.cacheHits + s.cacheMisses) + 1
                && s.remoteFetches - old(s.remoteFetches) == s.cacheMisses - old(s.cacheMisses)
    {
      hide TotalBytes, LocalCache.Valid;
      ghost var held := cache.Lookup(id);
      var cached := cache.GetRange(id, chunkOffset, length, now);
      if cached.Err? {
        return Err(cached.error);
      }
      if cached.value.Some? {
        s.cacheHits := s.cacheHits + 1;
        HashInjective(held.value, store.chunks[id]);
        return Ok(cached.value.value);
      }
      var remote := FetchChunk(s, id, now);
      if remote.Err? {
        return remote;
      }
      PaddedSliceInside(store.chunks[id], 0, s.volume.geometry.chunkSize);
      PaddedSliceInside(remote.value, chunkOffset, length);
      r := Ok(remote.value[chunkOffset..chunkOffset + length]);
    }

    /** Asking for the chunk fetches nothing: it is in the overlay, or nowhere, or in a cache that has room for all. */
    ghost predicate Known(s: Session, index: int)
      reads s, cache
    {
      || index in s.dirty || index !in s.baseManifest
      || (TotalBytes(cache.everPut) <= cache.maxSize && s.baseManifest[index] in cache.everPut)
    }

    /** Nothing was missed or fetched. */
    twostate predicate NothingFetched(s: Session)
      reads s, cache
    {
      && s.cacheMisses == old(s.cacheMisses) && s.remoteFetches == old(s.remoteFetches)
      && cache.everPut == old(cache.everPut)
    }

    /** A chunk was asked for: nothing counts for one of the overlay, and one in no manifest is a zero-fill. */
    twostate predicate CountedOutside(s: Session, index: int)
      reads s
    {
      && (index in s.dirty || index !in s.baseManifest ==>
            && s.cacheHits == old(s.cacheHits)
            && s.zeroFills == old(s.zeroFills) + if index in s.dirty then 0 else 1)
      && (index in s.baseManifest ==> s.zeroFills == old(s.zeroFills))
    }

    lemma KnownIsFound(s: Session, index: int)
      requires Ready() && Known(s, index) && index !in s.dirty && index in s.baseManifest
      ensures cache.Lookup(s.baseManifest[index]).Some?
    {
      hide TotalBytes, LocalCache.Valid, TallyOk;
      assert s.baseManifest[index] in cache.everPut.Keys;
    }

    /** A whole chunk, for a write to patch. */
    method ResolveChunk(s: Session, index: int, now: int) returns (r: Result<Bytes>)
      requires s.volume.geometry.chunkSize > 0
      requires Ready() && SessionOk(s.State(), store.chunks) && s.Counted(Reliable())
      modifies cache, s`cacheHits, s`cacheMisses, s`remoteFetches, s`zeroFills, s`resolutions, this`tally
      ensures Ready() && s.Counted(Reliable())
      ensures r.Err? ==> r.error == Io
      ensures r.Ok? ==> r.value == Shows(s, index)
      ensures Reliable() && (index in s.dirty ==> index in s.files) ==> r.Ok?
      ensures tally.Charged(old(tally), s.id, s.remoteFetches - old(s.remoteFetches))
      ensures s.resolutions == old(s.resolutions) + if index in s.dirty then 0 else 1
      ensures CountedOutside(s, index) && (old(Known(s, index)) ==> NothingFetched(s))
    {
      hide Ready, Known;
      if old(Known(s, index)) && index !in s.dirty && index in s.baseManifest {
        KnownIsFound(s, index);
      }
      if index in s.dirty {
        r := s.ReadDirtyChunk(index, cache.reliable);
        return;
      }
      if index !in s.baseManifest {
        s.zeroFills, s.resolutions := s.zeroFills + 1, s.resolutions + 1;
        return Ok(Zeros(s.volume.geometry.chunkSize));
      }
      r := ResolveMapped(s, s.baseManifest[index], now);
      s.resolutions := s.resolutions + 1;
    }

    /** Part of a chunk, for a read. */
    method ResolveChunkRange(s: Session, index: int, chunkOffset: nat, length: nat, now: int) returns (r: Result<Bytes>)
      requires chunkOffset + length <= s.volume.geometry.chunkSize && s.volume.geometry.chunkSize > 0
      requires Ready() && SessionOk(s.State(), store.chunks) && s.Counted(Reliable())
      modifies cache, s`cacheHits, s`cacheMisses, s`remoteFetches, s`zeroFills, s`resolutions, this`tally
      ensures Ready() && s.Counted(Reliable())
      ensures r.Err? ==> r.error == Io
      ensures r.Ok? ==> r.value == PaddedSlice(Shows(s, index), chunkOffset, length)
      ensures Reliable() && (index in s.dirty ==> index in s.files) ==> r.Ok?
      ensures tally.Charged(old(tally), s.id, s.remoteFetches - old(s.remoteFetches))
      ensures s.resolutions == old(s.resolutions) + if index in s.dirty then 0 else 1
      ensures CountedOutside(s, index) && (old(Known(s, index)) ==> NothingFetched(s))
    {
      hide Ready, Known;
      if old(Known(s, index)) && index !in s.dirty && index in s.baseManifest {
        KnownIsFound(s, index);
      }
      if index in s.dirty {
        r := s.ReadDirtyRange(index, chunkOffset, length, cache.reliable);
        return;
      }
      if index !in s.baseManifest {
        s.zeroFills, s.resolutions := s.zeroFills + 1, s.resolutions + 1;
        return Ok(Zeros(length));
      }
      r := ResolveMappedRange(s, s.baseManifest[index], chunkOffset, length, now);
      s.resolutions := s.resolutions + 1;
    }

    // ----- Reading and writing -----

    /** The session object of `sid`, if there is one. */
    ghost function Of(sid: Id): set<Session>
      reads this
    {
      if sid in sessions then {sessions[sid]} else {}
    }

    /** The flat device that session `sid` shows. */
    ghost function ViewOf(sid: Id): Bytes
      requires sid in sessions
      reads this, store, sessions[sid]
    {
      View(sessions[sid].State(), store.chunks)
    }

    /** The request lies in the volume, and the volume can be addressed at all. */
    predicate InRange(sid: Id, offset: int, length: int)
      requires sid in sessions
      reads this, sessions[sid]
    {
      sessions[sid].volume.geometry.Contains(offset, length)
    }

    /** The request touches chunk `i`. */
    ghost predicate Touches(s: Session, offset: int, length: int, i: int) {
      && s.volume.geometry.chunkSize > 0 && 0 <= offset && 0 < length
      && offset / s.volume.geometry.chunkSize <= i <= (offset + length - 1) / s.volume.geometry.chunkSize
    }

    /** No chunk that the request touches is to be fetched. */
    ghost predicate Warm(s: Session, offset: int, length: int)
      reads s, cache
    {
      forall i :: Touches(s, offset, length, i) ==> Known(s, i)
    }

    /** The read loop: gathers the parts of the request chunk by chunk. A part that overruns the buffer is a panic. */
    method ReadRanges(s: Session, offset: nat, length: nat, rs: seq<ChunkRange>, now: int) returns (r: Result<Bytes>)
      requires s.volume.geometry.chunkSize > 0 && offset + length <= s.volume.geometry.sizeBytes
      requires rs == MachineRanges(offset, length, s.volume.geometry.chunkSize)
      requires Ready() && SessionOk(s.State(), store.chunks) && s.Counted(Reliable())
      modifies cache, s`cacheHits, s`cacheMisses, s`remoteFetches, s`zeroFills, s`resolutions, this`tally
      ensures Ready() && s.Counted(Reliable())
      ensures r.Ok? ==>
                && Fits(offset, length, s.volume.geometry.chunkSize)
                && r.value == View(s.State(), store.chunks)[offset..offset + length]
      ensures r == Err(Panic) ==> !Fits(offset, length, s.volume.geometry.chunkSize)
      ensures Reliable() && Intact(s.State()) ==>
                if Fits(offset, length, s.volume.geometry.chunkSize) then r.Ok? else r == Err(Panic)
      ensures tally.Charged(old(tally), s.id, s.remoteFetches - old(s.remoteFetches))
      ensures old(Warm(s, offset, length)) ==> NothingFetched(s)
      ensures r.Ok? ==> s.resolutions == old(s.resolutions) + Outside(rs, s.dirty)
    {
      hide ChunkAt, View, Ranges, MachineRanges, Fits, SessionOk, Ready, Session.Counted, Outside, Reading;
      hide TotalBytes, CountedOutside;
      var chunkSize := s.volume.geometry.chunkSize;
      NoRanges(offset, length, chunkSize);
      ReadingStarts(s.State(), store.chunks, offset, length);
      OutsideNone(rs, s.dirty);
      ghost var warm := Warm(s, offset, length);
      var out: Bytes := [];
      var k := 0;
      while k < |rs|
        invariant 0 <= k <= |rs|
        invariant Ready() && s.Counted(Reliable())
        invariant Reading(s.volume.geometry, View(s.State(), store.chunks), offset, length, k, out)
        invariant tally.Charged(old(tally), s.id, s.remoteFetches - old(s.remoteFetches))
        invariant warm ==> Warm(s, offset, length) && NothingFetched(s)
        invariant s.resolutions == old(s.resolutions) + Outside(rs[..k], s.dirty)
      {
        ReadingRound(s.State(), store.chunks, offset, length, k, out, rs[k]);
        TouchedRange(s, offset, length, k);
        OutsideNext(rs, s.dirty, k);
        var partLen := Wrap64(rs[k].reqEnd - rs[k].reqStart);
        var part := ResolveChunkRange(s, rs[k].index, rs[k].chunkStart, partLen, now);
        if part.Err? {
          return Err(part.error);
        }
        if |out| + partLen > length {
          return Err(Panic);
        }
        out := out + part.value;
        k := k + 1;
      }
      ReadingEnds(s.volume.geometry, View(s.State(), store.chunks), offset, length, out);
      assert rs[..k] == rs;
      r := Ok(out);
    }

    lemma TouchedRange(s: Session, offset: nat, length: nat, k: nat)
      requires s.volume.geometry.chunkSize > 0
      requires k < |Ranges(offset, length, s.volume.geometry.chunkSize)|
      ensures Touches(s, offset, length, Ranges(offset, length, s.volume.geometry.chunkSize)[k].index)
    {
      RangeFacts(offset, length, s.volume.geometry.chunkSize, k);
    }

    /** A read of the session itself: the range checks and the loop. */
    method ReadSession(s: Session, offset: Int64, length: Int64, now: int) returns (r: Result<Bytes>)
      requires Ready() && Holds(s)
      modifies cache, s`cacheHits, s`cacheMisses, s`remoteFetches, s`zeroFills, s`resolutions, this`tally
      ensures Ready() && Holds(s)
      ensures ReadAnswer(s.volume.geometry, View(s.State(), store.chunks), offset, length,
                         Reliable() && Intact(s.State()), r)
      ensures tally.Charged(old(tally), s.id, s.remoteFetches - old(s.remoteFetches))
      ensures old(Warm(s, offset, length)) ==> NothingFetched(s)
      ensures r.Ok? ==>
                s.resolutions
                == old(s.resolutions) + Outside(Ranges(offset, length, s.volume.geometry.chunkSize), s.dirty)
    {
      hide ManifestOk, FilesOk, Ready, View, Ranges, MachineRanges, Fits, Session.Counted, Intact, Warm, Outside;
      var g := s.volume.geometry;
      if Wrap64(offset + length) > g.sizeBytes {
        return Err(OutOfRange);
      }
      var ranges := ChunkIndexes(offset, length, g.chunkSize);
      if ranges.Err? {
        return Err(ranges.error);
      }
      r := ReadRanges(s, offset, length, ranges.value, now);
    }

    /** Reads a range; see `ReadAnswer`. Nothing but counters and the cache changes. */
    method Read(sid: Id, offset: Int64, length: Int64, now: int) returns (r: Result<Bytes>)
      requires Valid()
      modifies this`tally, cache, Of(sid)
      ensures Valid()
      ensures sid !in sessions ==> r == Err(NotFound)
      ensures sid in sessions ==>
                && sessions[sid].State() == old(sessions[sid].State())
                && ReadAnswer(sessions[sid].volume.geometry, ViewOf(sid), offset, length,
                              Reliable() && Intact(sessions[sid].State()), r)
                && (old(Warm(sessions[sid], offset, length)) ==> NothingFetched(sessions[sid]))
      ensures sid in sessions && r.Ok? && sessions[sid].dirty == {} ==>
                sessions[sid].resolutions
                == old(sessions[sid].resolutions) + |Ranges(offset, length, sessions[sid].volume.geometry.chunkSize)|
    {
      hide RepoOk, Holds, Ready, View, Intact, Warm, Outside, Ranges, Fits;
      if sid !in sessions {
        return Err(NotFound);
      }
      r := ReadSession(sessions[sid], offset, length, now);
      if r.Ok? {
        OutsideAll(Ranges(offset, length, sessions[sid].volume.geometry.chunkSize));
      }
    }

    /**
     The write loop: patches the chunks of the request in order. `spare` is what
     the caller's buffer holds after the data, up to its capacity; a part that
     reaches past that is a panic.
     */
    method WriteRanges(s: Session, offset: nat, data: Bytes, spare: Bytes, rs: seq<ChunkRange>, now: int)
      returns (r: Result<()>, ghost done: nat)
      requires s.volume.geometry.chunkSize > 0 && offset + |data| <= s.volume.geometry.sizeBytes
      requires rs == MachineRanges(offset, |data|, s.volume.geometry.chunkSize)
      requires Ready() && SessionOk(s.State(), store.chunks) && s.Counted(Reliable())
      modifies cache, s, this`tally
      ensures Ready() && SessionOk(s.State(), store.chunks) && s.Counted(Reliable())
      ensures s.baseManifest == old(s.baseManifest) && s.baseSnapshot == old(s.baseSnapshot)
      ensures WriteAnswer(s.volume.geometry, old(View(s.State(), store.chunks)), offset, data, spare, done,
                          View(s.State(), store.chunks), Reliable() && old(Intact(s.State())), r)
      ensures old(Intact(s.State())) ==> Intact(s.State())
      ensures tally.Charged(old(tally), s.id, s.remoteFetches - old(s.remoteFetches))
    {
      hide Progress, MachineRanges, Overruns, Spills, Ranges, Fits, Ready, Session.Counted, Splice, View, SessionOk,
           ChunkAt, Applied, Spilled;
      ghost var before, chunkSize := View(s.State(), store.chunks), s.volume.geometry.chunkSize;
      NoRanges(offset, |data|, chunkSize);
      OverrunsWhenUnfit(offset, |data|, chunkSize, |rs|);
      ProgressStarts(s.State(), store.chunks, offset, data, spare);
      done := 0;
      var dataPos: int, k := 0, 0;
      while k < |rs|
        invariant 0 <= k == done <= |rs|
        invariant Ready() && s.Counted(Reliable())
        invariant Progress(s.State(), store.chunks, before, offset, data, spare, k, dataPos)
        invariant s.baseManifest == old(s.baseManifest) && s.baseSnapshot == old(s.baseSnapshot)
        invariant old(Intact(s.State())) ==> Intact(s.State())
        invariant tally.Charged(old(tally), s.id, s.remoteFetches - old(s.remoteFetches))
      {
        ProgressRound(s.State(), store.chunks, before, offset, data, spare, k, dataPos, rs[k]);
        var partLen := Wrap64(rs[k].reqEnd - rs[k].reqStart);
        r := WriteOneChunk(s, rs[k].index, rs[k].chunkStart, partLen, (data + spare)[dataPos..], now);
        if r.Err? {
          return;
        }
        dataPos := dataPos + partLen;
        k := k + 1;
        done := k;
      }
      ProgressEnds(s.State(), store.chunks, before, offset, data, spare, dataPos);
      r := Ok(());
    }

    /**
     One round of the write loop: materialise the chunk, patch it with the next
     `partLen` bytes, put it in the overlay. `rest` is what is left of the buffer,
     its spare capacity included; more bytes than that is a panic.
     */
    method WriteOneChunk(s: Session, index: int, chunkStart: nat, partLen: nat, rest: Bytes, now: int)
      returns (r: Result<()>)
      requires s.volume.geometry.chunkSize > 0
      requires chunkStart + partLen <= |Shows(s, index)| == s.volume.geometry.chunkSize
      requires Ready() && SessionOk(s.State(), store.chunks) && s.Counted(Reliable())
      modifies cache, s, this`tally
      ensures Ready() && s.Counted(Reliable())
      ensures r.Ok? ==>
                && partLen <= |rest|
                && var patched := Splice(old(Shows(s, index)), chunkStart, rest[..partLen]);
                   s.State() == old(s.State()).(dirty := old(s.dirty) + {index},
                                                files := old(s.files)[index := patched])
      ensures r.Err? ==> s.State() == old(s.State())
      ensures r == Err(Panic) ==> partLen > |rest|
      ensures Reliable() && (index in old(s.dirty) ==> index in old(s.files)) ==>
                if partLen <= |rest| then r.Ok? else r == Err(Panic)
      ensures tally.Charged(old(tally), s.id, s.remoteFetches - old(s.remoteFetches))
    {
      hide LocalCache.Valid, LocalCache.Coherent, ChunksOk, TotalBytes, FetchesBounded, ManifestOk;
      var chunk: Result<Bytes>;
      if index in s.dirty {
        chunk := s.ReadDirtyChunk(index, cache.reliable);
      } else {
        chunk := ResolveChunk(s, index, now);
      }
      if chunk.Err? {
        return Err(chunk.error);
      }
      assert chunk.value == Shows(s, index);
      if partLen > |rest| {
        return Err(Panic);
      }
      r := s.WriteDirtyChunk(index, Splice(chunk.value, chunkStart, rest[..partLen]), cache.reliable);
      if r.Ok? {
        s.dirty := s.dirty + {index};
      }
    }

    /** A write to the session itself: the range checks and the loop. */
    method WriteSession(s: Session, offset: Int64, data: Bytes, spare: Bytes, now: int)
      returns (r: Result<()>, ghost done: nat)
      requires Ready() && Holds(s) && |data| < TWO_63
      modifies cache, s, this`tally
      ensures Ready() && Holds(s)
      ensures s.baseManifest == old(s.baseManifest) && s.baseSnapshot == old(s.baseSnapshot)
      ensures WriteAnswer(s.volume.geometry, old(View(s.State(), store.chunks)), offset, data, spare, done,
                          View(s.State(), store.chunks), Reliable() && old(Intact(s.State())), r)
      ensures !s.volume.geometry.Contains(offset, |data|) ==> s.State() == old(s.State())
      ensures old(Intact(s.State())) ==> Intact(s.State())
      ensures tally.Charged(old(tally), s.id, s.remoteFetches - old(s.remoteFetches))
    {
      hide ManifestOk, FilesOk, Ready, View, Ranges, MachineRanges, Applied, Fits, Spills, Spilled, Intact;
      hide Session.Counted;
      done := 0;
      var g := s.volume.geometry;
      if offset < 0 || Wrap64(offset + |data|) > g.sizeBytes {
        return Err(OutOfRange), 0;
      }
      var ranges := ChunkIndexes(offset, |data|, g.chunkSize);
      if ranges.Err? {
        return Err(ranges.error), 0;
      }
      NoRanges(offset, |data|, g.chunkSize);
      r, done := WriteRanges(s, offset, data, spare, ranges.value, now);
    }

    /** Writes a range, from a buffer with `spare` after the data; see `WriteAnswer`. */
    method Write(sid: Id, offset: Int64, data: Bytes, spare: Bytes, now: int) returns (r: Result<()>, ghost done: nat)
      requires Valid() && |data| < TWO_63
      modifies this`tally, cache, Of(sid)
      ensures Valid()
      ensures sid !in sessions ==> r == Err(NotFound)
      ensures sid in sessions ==>
                && WriteAnswer(sessions[sid].volume.geometry, old(ViewOf(sid)), offset, data, spare, done, ViewOf(sid),
                               Reliable() && old(Intact(sessions[sid].State())), r)
                && (!InRange(sid, offset, |data|) ==> sessions[sid].State() == old(sessions[sid].State()))
                && (old(Intact(sessions[sid].State())) ==> Intact(sessions[sid].State()))
                && sessions[sid].baseManifest == old(sessions[sid].baseManifest)
                && sessions[sid].baseSnapshot == old(sessions[sid].baseSnapshot)
    {
      hide RepoOk, Holds, Ready, View, WriteAnswer, Intact;
      done := 0;
      if sid !in sessions {
        return Err(NotFound), 0;
      }
      r, done := WriteSession(sessions[sid], offset, data, spare, now);
    }

    // ----- Commit -----

    /** Caches a chunk under its own hash. */
    method CacheChunk(b: Bytes, now: int) returns (r: Result<()>)
      requires Ready()
      modifies cache
      ensures Ready()
      ensures r.Ok? ==> cache.everPut == old(cache.everPut)[HashChunk(b) := b]
      ensures r.Err? ==>
                cache.everPut == old(cache.everPut) || cache.everPut == old(cache.everPut)[HashChunk(b) := b]
      ensures Reliable() ==> r.Ok?
    {
      hide Recent, Fronted, EvictedOldest;
      ghost var ever := cache.everPut;
      r := cache.Put(HashChunk(b), b, now);
      GrownCache(ever, cache.everPut, HashChunk(b), b);
    }

    /** Stores one chunk unless the store has it, caches it, and counts which it was. */
    method CommitChunk(b: Bytes, now: int) returns (r: Result<()>, uploaded: bool)
      requires Ready()
      modifies cache, store`chunks
      ensures Ready()
      ensures StoreExtends(old(store.State()), store.State())
      ensures r.Ok? ==>
                && uploaded == (HashChunk(b) !in old(store.chunks))
                && store.chunks == old(store.chunks)[HashChunk(b) := b]
                && cache.everPut == old(cache.everPut)[HashChunk(b) := b]
      ensures cache.everPut != old(cache.everPut) ==>
                HashChunk(b) in store.chunks && cache.everPut == old(cache.everPut)[HashChunk(b) := b]
      ensures Reliable() ==> r.Ok?
    {
      hide LocalCache.Valid, LocalCache.Coherent, TotalBytes;
      uploaded := false;
      var id := HashChunk(b);
      if id in store.chunks {
        HashInjective(store.chunks[id], b);
      }
      var present := store.ChunkExists(id);
      if present.Err? {
        return Err(Io), false;
      }
      if !present.value {
        r := store.PutChunk(id, b);
        if r.Err? {
          return;
        }
        uploaded := true;
      } else {
        assert store.chunks == old(store.chunks)[id := b];
      }
      r := CacheChunk(b, now);
    }

    /** `batch` holds the overlay chunks at the first indexes, whole. */
    ghost predicate InMemory(s: Session, indexes: seq<int>, batch: seq<Bytes>)
      reads s
    {
      && |batch| <= |indexes|
      && (forall j :: 0 <= j < |batch| ==>
            indexes[j] in s.files && batch[j] == s.files[indexes[j]] && |batch[j]| == s.volume.geometry.chunkSize)
    }

    /** Reads the overlay chunks of a batch into memory. */
    method ReadBatch(s: Session, indexes: seq<int>) returns (r: Result<seq<Bytes>>)
      requires FilesOk(s.files, s.volume.geometry)
      ensures r.Ok? ==> InMemory(s, indexes, r.value) && |r.value| == |indexes|
      ensures cache.reliable && (forall i :: i in indexes ==> i in s.files) ==> r.Ok?
    {
      var batch: seq<Bytes> := [];
      while |batch| < |indexes|
        invariant InMemory(s, indexes, batch)
      {
        var i := indexes[|batch|];
        var chunk := s.ReadDirtyChunk(i, cache.reliable);
        if chunk.Err? {
          return Err(Io);
        }
        PaddedSliceInside(s.files[i], 0, s.volume.geometry.chunkSize);
        batch := batch + [chunk.value];
      }
      r := Ok(batch);
    }

    /** Commits the chunks of a batch one by one, extending the manifest. */
    method CommitLoaded(s: Session, indexes: seq<int>, batch: seq<Bytes>, manifest: Manifest, ghost prior: seq<int>,
                        now: int)
      returns (r: Result<Manifest>, stats: CommitStats)
      requires Ready() && InMemory(s, indexes, batch) && |batch| == |indexes|
      requires manifest == Committed(s.baseManifest, Overlay(s.files, prior))
      modifies cache, store`chunks
      ensures Ready() && StoreExtends(old(store.State()), store.State())
      ensures r.Ok? ==>
                && r.value == Committed(s.baseManifest, Overlay(s.files, prior + indexes))
                && Stored(s.files, indexes, store.chunks)
                && stats.chunks == |indexes| == stats.uploaded + stats.skipped
                && |store.chunks| == |old(store.chunks)| + stats.uploaded
                && cache.everPut == old(cache.everPut) + ByHash(Overlay(s.files, indexes))
      ensures Reliable() ==> r.Ok?
    {
      hide Committed, Overlay, Ready, HashChunk, StoreExtends, Stored, ByHash;
      stats := CommitStats(0, 0, 0);
      var m := manifest;
      var j := 0;
      assert prior + indexes[..0] == prior;
      StartOfBatch(s.files, store.State());
      NothingGiven(cache.everPut, s.files, indexes);
      while j < |indexes|
        invariant 0 <= j <= |indexes|
        invariant Ready() && StoreExtends(old(store.State()), store.State())
        invariant m == Committed(s.baseManifest, Overlay(s.files, prior + indexes[..j]))
        invariant Stored(s.files, indexes[..j], store.chunks)
        invariant stats.chunks == j == stats.uploaded + stats.skipped
        invariant |store.chunks| == |old(store.chunks)| + stats.uploaded
        invariant cache.everPut == old(cache.everPut) + ByHash(Overlay(s.files, indexes[..j]))
      {
        ghost var before := store.State();
        var done, uploaded := CommitChunk(batch[j], now);
        ExtendsTransitive(old(store.State()), before, store.State());
        if done.Err? {
          return Err(Io), stats;
        }
        assert indexes[..j + 1] == indexes[..j] + [indexes[j]];
        assert prior + indexes[..j + 1] == prior + indexes[..j] + [indexes[j]];
        StoredNext(s.files, indexes[..j], indexes[j], before, store.State());
        OverlayGrows(s.baseManifest, s.files, prior + indexes[..j], indexes[j]);
        OneMoreGiven(old(cache.everPut), s.files, indexes[..j], indexes[j]);
        m := m[indexes[j] := HashChunk(batch[j])];
        stats := stats.Plus(CommitStats(1, if uploaded then 1 else 0, if uploaded then 0 else 1));
        j := j + 1;
      }
      assert indexes[..j] == indexes;
      r := Ok(m);
    }

    /** One batch: reads its overlay chunks into memory, then commits them. */
    method CommitDirtyBatch(s: Session, indexes: seq<int>, manifest: Manifest, ghost prior: seq<int>, now: int)
      returns (r: Result<Manifest>, stats: CommitStats)
      requires Ready() && FilesOk(s.files, s.volume.geometry)
      requires manifest == Committed(s.baseManifest, Overlay(s.files, prior))
      modifies cache, store`chunks
      ensures Ready() && StoreExtends(old(store.State()), store.State())
      ensures r.Ok? ==>
                && r.value == Committed(s.baseManifest, Overlay(s.files, prior + indexes))
                && Stored(s.files, indexes, store.chunks)
                && stats.chunks == |indexes| == stats.uploaded + stats.skipped
                && |store.chunks| == |old(store.chunks)| + stats.uploaded
                && cache.everPut == old(cache.everPut) + ByHash(Overlay(s.files, indexes))
      ensures Reliable() && (forall i :: i in indexes ==> i in s.files) ==> r.Ok?
    {
      hide Committed, Overlay, Ready, FilesOk, Stored, InMemory, ByHash;
      stats := CommitStats(0, 0, 0);
      var batch := ReadBatch(s, indexes);
      if batch.Err? {
        return Err(Io), stats;
      }
      r, stats := CommitLoaded(s, indexes, batch.value, manifest, prior, now);
    }

    /**
     Uploads all dirty chunks, batch after batch. The result is the base
     manifest overridden at exactly the dirty indexes, whatever the batch
     size, and each upload added one new object to the store.
     */
    method UploadDirty(s: Session, batchOption: int, now: int) returns (r: Result<Manifest>, stats: CommitStats)
      requires Ready() && SessionOk(s.State(), store.chunks)
      modifies cache, store`chunks
      ensures Ready() && StoreExtends(old(store.State()), store.State())
      ensures r.Ok? ==>
                && CommitReady(s.State(), r.value, store.chunks)
                && Accounted(s.State(), old(store.chunks), old(cache.everPut), stats, store.chunks, cache.everPut)
      ensures Reliable() && Intact(s.State()) ==> r.Ok?
    {
      hide Ready, FilesOk, StoreExtends, ManifestOk, StrictlyIncreasing, CommitReady, Accounted, Uploaded;
      hide Committed, Overlay, ByHash, Stored;
      var batchSize := if batchOption <= 0 then 16 else batchOption;
      var indexes := SortedIndexes(s.dirty);
      stats := CommitStats(0, 0, 0);
      var m := s.baseManifest;
      ghost var first, given := store.State(), cache.everPut;
      SameStore(first);
      UploadStarts(s.State(), first, given, indexes);
      var start := 0;
      while start < |indexes|
        invariant 0 <= start <= |indexes|
        invariant Ready() && StoreExtends(first, store.State())
        invariant m == Committed(s.baseManifest, Overlay(s.files, indexes[..start]))
        invariant Uploaded(s.State(), first, given, indexes[..start], stats, store.State(), cache.everPut)
      {
        var end := if start + batchSize > |indexes| then |indexes| else start + batchSize;
        ghost var before, ever := store.State(), cache.everPut;
        var batch := indexes[start..end];
        var done, added := CommitDirtyBatch(s, batch, m, indexes[..start], now);
        ExtendsTransitive(first, before, store.State());
        if done.Err? {
          return Err(Io), stats;
        }
        UploadRound(s.State(), first, given, indexes[..start], stats, before, ever, batch, added, store.State(),
                    cache.everPut);
        assert indexes[..end] == indexes[..start] + batch;
        m := done.value;
        stats := stats.Plus(added);
        start := end;
      }
      assert indexes[..start] == indexes;
      UploadEnds(s.State(), first, given, indexes, stats, store.State(), cache.everPut);
      r := Ok(m);
    }

    /** Nothing in the store or the repository bears this snapshot name yet. */
    ghost predicate FreshName(snap: Id)
      reads store, repo
    {
      ManifestKey(snap) !in store.manifests && snap !in repo.snapshots
    }

    method SaveManifest(key: ManifestKey, m: Manifest) returns (r: Result<()>)
      requires RepoOk(repo.State(), store.State()) && key !in store.manifests
      modifies store`manifests
      ensures RepoOk(repo.State(), store.State()) && StoreExtends(old(store.State()), store.State())
      ensures r.Ok? ==> key in store.manifests && store.manifests[key] == ToWire(m)
      ensures store.reliable ==> r.Ok?
    {
      hide ToWire, PointerOk, SnapshotOk, VolumeContents, SnapshotContents;
      var w := ManifestToWire(m);
      ghost var before := store.State();
      r := store.PutManifest(key, w);
      RepoQuiet(repo.State(), before, repo.State(), store.State());
    }

    /** Records the snapshot of a saved manifest. */
    method RecordSnapshot(s: Session, m: Manifest, snap: Id) returns (r: Result<()>)
      requires RepoOk(repo.State(), store.State()) && Holds(s) && CommitReady(s.State(), m, store.chunks)
      requires ManifestKey(snap) in store.manifests && store.manifests[ManifestKey(snap)] == ToWire(m)
      requires snap !in repo.snapshots
      modifies repo`snapshots
      ensures RepoOk(repo.State(), store.State()) && RepoExtends(old(repo.State()), repo.State())
      ensures r.Ok? ==>
                && snap in repo.snapshots
                && repo.snapshots[snap] == Snapshot(snap, s.volume.volumeId, ManifestKey(snap))
                && SnapshotContent(repo.State(), store.State(), snap) == View(s.State(), store.chunks)
      ensures repo.reliable ==> r.Ok?
    {
      hide ToWire, PointerOk, SnapshotOk, VolumeContents, SnapshotContents, SnapshotContent, View, SessionOk,
           CommitReady;
      ghost var before := repo.State();
      r := repo.CreateSnapshot(Snapshot(snap, s.volume.volumeId, ManifestKey(snap)));
      if repo.State() != before {
        RecordedSnapshot(repo.State(), store.State(), s.State(), m, snap);
        RepoRecord(before, store.State(), repo.State(), snap);
      }
    }

    /** Moves the volume's pointer to a recorded snapshot; the move may take effect and still be reported as failed. */
    method PointAt(v: Id, snap: Id) returns (r: Result<()>)
      requires RepoOk(repo.State(), store.State()) && v in repo.volumes && snap in repo.snapshots
      requires repo.volumes[repo.snapshots[snap].volumeId].geometry == repo.volumes[v].geometry
      modifies repo`volumes
      ensures RepoOk(repo.State(), store.State()) && RepoExtends(old(repo.State()), repo.State())
      ensures v in repo.volumes && repo.volumes.Keys == old(repo.volumes.Keys)
      ensures forall u :: u in repo.volumes && u != v ==> repo.volumes[u] == old(repo.volumes[u])
      ensures repo.volumes[v] == old(repo.volumes[v]) || repo.volumes[v] == old(repo.volumes[v]).(latest := Some(snap))
      ensures r.Ok? ==> repo.volumes[v] == old(repo.volumes[v]).(latest := Some(snap))
      ensures repo.volumes[v].latest == Some(snap) && repo.volumes != old(repo.volumes) ==>
                LatestContent(repo.State(), store.State(), repo.volumes[v])
                == old(SnapshotContent(repo.State(), store.State(), snap))
      ensures r.Ok? ==>
                LatestContent(repo.State(), store.State(), repo.volumes[v])
                == old(SnapshotContent(repo.State(), store.State(), snap))
      ensures repo.reliable ==> r.Ok?
    {
      hide PointerOk, SnapshotOk, VolumeContents, SnapshotContents, SnapshotContent, LatestContent;
      ghost var before := repo.State();
      r := repo.UpdateLatestSnapshot(v, snap);
      ghost var moved := before.(volumes := before.volumes[v := before.volumes[v].(latest := Some(snap))]);
      RepoPoint(before, store.State(), moved, v, snap);
      MovedPointer(before, store.State(), moved, v, snap);
    }

    /** The pointer of volume `v` names the complete snapshot `snap`, which decodes to `view`. */
    ghost predicate Published(v: Id, snap: Id, view: Bytes)
      reads repo, store
    {
      PublishedIn(repo.State(), store.State(), v, snap, view)
    }

    /** From a finished manifest to a moved pointer: save, record, point. */
    method Publish(s: Session, m: Manifest, snap: Id) returns (r: Result<()>)
      requires RepoOk(repo.State(), store.State()) && Holds(s)
      requires CommitReady(s.State(), m, store.chunks) && FreshName(snap)
      modifies store`manifests, repo`snapshots, repo`volumes
      ensures RepoOk(repo.State(), store.State())
      ensures StoreExtends(old(store.State()), store.State()) && RepoExtends(old(repo.State()), repo.State())
      ensures r.Ok? || repo.volumes != old(repo.volumes) ==>
                Published(s.volume.volumeId, snap, View(s.State(), store.chunks))
      ensures Reliable() ==> r.Ok?
    {
      hide ToWire, PointerOk, SnapshotOk, SnapshotContent, LatestContent, View, SessionOk, CommitReady, RepoOk;
      var key := ManifestKey(snap);
      r := SaveManifest(key, m);
      if r.Err? {
        return;
      }
      r := RecordSnapshot(s, m, snap);
      if r.Err? {
        return;
      }
      RecordedIsOk(repo.State(), store.State(), snap);
      r := PointAt(s.volume.volumeId, snap);
      RecordedIsOk(repo.State(), store.State(), snap);
    }

    /** Commits a session; see `CommitOutcome`. */
    method CommitSession(s: Session, batchOption: int, snap: Id, now: int)
      returns (r: Result<Snapshot>, stats: CommitStats)
      requires Ready() && RepoOk(repo.State(), store.State()) && Holds(s) && FreshName(snap)
      modifies cache, store, repo`snapshots, repo`volumes, s`baseSnapshot, s`baseManifest, s`dirty, s`files
      ensures Ready() && RepoOk(repo.State(), store.State()) && Holds(s)
      ensures StoreExtends(old(store.State()), store.State()) && RepoExtends(old(repo.State()), repo.State())
      ensures CommitOutcome(old(repo.State()), old(store.State()), old(s.State()),
                            repo.State(), store.State(), s.State(), snap, r)
      ensures r.Ok? ==>
                Accounted(old(s.State()), old(store.chunks), old(cache.everPut), stats, store.chunks, cache.everPut)
      ensures Reliable() && old(Intact(s.State())) ==> r.Ok?
    {
      hide PointerOk, SnapshotOk, RepoOk, SessionOk, Committed, View, CommitReady, StoreExtends, RepoExtends, Intact;
      hide PublishedIn, Accounted;
      var uploaded;
      uploaded, stats := UploadDirty(s, batchOption, now);
      StoreGrew(repo.State(), old(store.State()), store.State(), s.State());
      ExtendsSelf(repo.State());
      if uploaded.Err? {
        return Err(Io), stats;
      }
      ghost var stored := store.State();
      r := FinishCommit(s, uploaded.value, snap);
      ExtendsTransitive(old(store.State()), stored, store.State());
    }

    /** The rest of a commit, once all chunks are stored. */
    method FinishCommit(s: Session, m: Manifest, snap: Id) returns (r: Result<Snapshot>)
      requires Ready() && RepoOk(repo.State(), store.State()) && Holds(s) && FreshName(snap)
      requires CommitReady(s.State(), m, store.chunks)
      modifies store`manifests, repo`snapshots, repo`volumes, s`baseSnapshot, s`baseManifest, s`dirty, s`files
      ensures Ready() && RepoOk(repo.State(), store.State()) && Holds(s)
      ensures StoreExtends(old(store.State()), store.State()) && RepoExtends(old(repo.State()), repo.State())
      ensures CommitOutcome(old(repo.State()), old(store.State()), old(s.State()),
                            repo.State(), store.State(), s.State(), snap, r)
      ensures Reliable() ==> r.Ok?
    {
      hide PointerOk, SnapshotOk, RepoOk, SessionOk, Committed, View, CommitReady, StoreExtends, PublishedIn, ChunksOk;
      var published := Publish(s, m, snap);
      if published.Err? {
        return Err(Io);
      }
      var cleared := AdoptAndClear(s, m, snap);
      if cleared.Err? {
        return Err(Io);
      }
      r := Ok(Snapshot(snap, s.volume.volumeId, ManifestKey(snap)));
    }

    /** Takes over the committed manifest and empties the overlay; the device stays the same throughout. */
    method AdoptAndClear(s: Session, m: Manifest, snap: Id) returns (r: Result<()>)
      requires ChunksOk(store.chunks) && SessionOk(s.State(), store.chunks) && CommitReady(s.State(), m, store.chunks)
      modifies s`baseSnapshot, s`baseManifest, s`dirty, s`files
      ensures SessionOk(s.State(), store.chunks)
      ensures View(s.State(), store.chunks) == old(View(s.State(), store.chunks))
      ensures s.baseSnapshot == Some(snap) && s.baseManifest == m
      ensures r.Ok? ==>
                s.State() == SessionState(s.volume, Some(snap), Committed(old(s.baseManifest), old(s.files)), {}, map[])
      ensures cache.reliable ==> r.Ok?
    {
      hide Contents, ChunksOk, Committed;
      AdoptedManifest(s.State(), m, store.chunks, snap);
      s.baseSnapshot, s.baseManifest := Some(snap), m;
      ghost var full := s.files;
      r := s.ClearDirtyOverlay(cache.reliable);
      DroppedFiles(s.volume.geometry, full, m, store.chunks, s.files);
    }

    /** Commits session `sid`; see `CommitOutcome`. No other session, on this volume or any, is disturbed. */
    method CommitWithOptions(sid: Id, batchOption: int, snap: Id, now: int)
      returns (r: Result<Snapshot>, stats: CommitStats)
      requires Valid() && FreshName(snap)
      modifies cache, store, repo`snapshots, repo`volumes
      modifies Of(sid)`baseSnapshot, Of(sid)`baseManifest, Of(sid)`dirty, Of(sid)`files
      ensures Valid()
      ensures StoreExtends(old(store.State()), store.State()) && RepoExtends(old(repo.State()), repo.State())
      ensures sid !in sessions ==> r == Err(NotFound)
      ensures forall t :: t in sessions && t != sid ==>
                sessions[t].State() == old(sessions[t].State()) && ViewOf(t) == old(ViewOf(t))
      ensures sid in sessions ==>
                CommitOutcome(old(repo.State()), old(store.State()), old(sessions[sid].State()),
                              repo.State(), store.State(), sessions[sid].State(), snap, r)
      ensures sid in sessions && r.Ok? ==>
                Accounted(old(sessions[sid].State()), old(store.chunks), old(cache.everPut), stats, store.chunks,
                          cache.everPut)
      ensures sid in sessions && Reliable() && old(Intact(sessions[sid].State())) ==> r.Ok?
    {
      hide SnapshotOk, RepoOk, Held, CommitOutcome, View, Intact, Ready, Session.Counted, StoreExtends, RepoExtends;
      hide Accounted;
      stats := CommitStats(0, 0, 0);
      if sid !in sessions {
        SameStore(store.State());
        ExtendsSelf(repo.State());
        return Err(NotFound), stats;
      }
      r, stats := CommitSession(sessions[sid], batchOption, snap, now);
      forall t | t in sessions && t != sid
        ensures Holds(sessions[t]) && ViewOf(t) == old(ViewOf(t))
      {
        HeldStable(sessions[t].State(), old(repo.State()), old(store.State()), repo.State(), store.State());
      }
    }

    // ----- Volumes and sessions -----

    /** Creates a volume unless it exists. */
    method CreateVolume(id: Id, sizeBytes: Int64, chunkSize: Int64) returns (r: Result<Volume>)
      requires Valid()
      modifies repo`volumes
      ensures Valid()
      ensures r.Ok? ==> id in repo.volumes && r.value == repo.volumes[id]
      ensures id in old(repo.volumes) ==> repo.volumes == old(repo.volumes)
      ensures RepoExtends(old(repo.State()), repo.State())
      ensures r.Ok? && id !in old(repo.volumes) ==>
                && r.value == Volume(id, WithDefaults(Geometry(sizeBytes, chunkSize)), None, "")
                && r.value.geometry.sizeBytes == (if sizeBytes == 0 then 10737418240 else sizeBytes)
                && r.value.geometry.chunkSize == (if chunkSize == 0 then 4194304 else chunkSize)
      ensures Reliable() ==> r.Ok?
    {
      hide SnapshotOk, SessionOk, Ready, VolumeContents, SnapshotContents, Sum;
      ghost var before := repo.State();
      r := repo.CreateVolume(Volume(id, Geometry(sizeBytes, chunkSize), None, ""));
      if repo.State() != before {
        RepoAddVolume(before, store.State(), repo.State(), id);
      }
    }

    /** The manifest of the snapshot a volume record points at; empty before the first commit. */
    method LoadBase(volume: Volume) returns (r: Result<Manifest>)
      requires RepoOk(repo.State(), store.State())
      requires PointerOk(repo.State(), store.State(), volume) && volume.geometry.Int64Sized()
      ensures r.Ok? ==>
                && ManifestOk(r.value, volume.geometry, store.chunks)
                && Contents(volume.geometry, map[], r.value, store.chunks)
                   == LatestContent(repo.State(), store.State(), volume)
      ensures Reliable() ==> r.Ok?
    {
      hide RepoOk, IsPrinted, Contents, LoadsAs;
      if volume.latest.None? {
        EmptyContents(volume.geometry, store.chunks);
        return Ok(map[]);
      }
      var snapshot := repo.GetSnapshot(volume.latest.value);
      if snapshot.Err? {
        return Err(snapshot.error);
      }
      var wire := store.GetManifest(snapshot.value.manifestKey);
      if wire.Err? {
        return Err(wire.error);
      }
      r := ManifestFromWire(wire.value);
      LoadedManifest(repo.State(), store.State(), volume.latest.value, if r.Ok? then r.value else map[]);
    }

    /** Reads the volume record and loads the content it points at into a new session. */
    method OpenSession(volumeId: Id, sid: Id) returns (r: Result<Session>)
      requires RepoOk(repo.State(), store.State())
      ensures r.Ok? ==>
                && fresh(r.value) && r.value.id == sid && Holds(r.value)
                && volumeId in repo.volumes && r.value.volume == repo.volumes[volumeId]
                && r.value.dirty == {} && r.value.files == map[] && r.value.remoteFetches == 0
                && r.value.baseSnapshot == repo.volumes[volumeId].latest
                && View(r.value.State(), store.chunks)
                   == LatestContent(repo.State(), store.State(), repo.volumes[volumeId])
      ensures Reliable() ==> (r.Ok? <==> volumeId in repo.volumes)
    {
      hide SnapshotOk, PointerOk, Contents, LatestContent;
      var found := repo.GetVolume(volumeId);
      if found.Err? {
        return Err(found.error);
      }
      var manifest := LoadBase(found.value);
      if manifest.Err? {
        return Err(manifest.error);
      }
      var session := new Session(sid, found.value, manifest.value);
      r := Ok(session);
    }

    /** Notes on the volume record which node used it last; nothing else about any volume changes. */
    method NoteLastNode(volumeId: Id) returns (r: Result<()>)
      requires RepoOk(repo.State(), store.State())
      modifies repo`volumes
      ensures RepoOk(repo.State(), store.State()) && RepoExtends(old(repo.State()), repo.State())
      ensures repo.volumes.Keys == old(repo.volumes.Keys)
      ensures forall u :: u in repo.volumes ==> repo.volumes[u].latest == old(repo.volumes[u].latest)
      ensures r.Ok? ==>
                && volumeId in old(repo.volumes)
                && repo.volumes == old(repo.volumes)[volumeId := old(repo.volumes)[volumeId].(lastNode := nodeId)]
      ensures VolumeContents(repo.State(), store.State()) == old(VolumeContents(repo.State(), store.State()))
      ensures repo.reliable && volumeId in old(repo.volumes) ==> r.Ok?
    {
      hide SnapshotOk, PointerOk, VolumeContents, SnapshotContents;
      ghost var before := repo.State();
      r := repo.UpdateLastNode(volumeId, nodeId);
      RepoQuiet(before, store.State(), repo.State(), store.State());
    }

    /** Enters a new session into the node's table. */
    method Register(sid: Id, session: Session)
      requires Valid() && sid !in sessions && session.id == sid && Holds(session) && session.remoteFetches == 0
      modifies this`sessions, this`tally
      ensures Valid() && sessions == old(sessions)[sid := session]
    {
      hide RepoOk, Holds, LocalCache.Valid, LocalCache.Coherent, ChunksOk, TallyOk;
      TallyOpened(tally, cache.everPut, cache.maxSize, Reliable(), sid);
      tally := tally.(open := tally.open[sid := 0]);
      sessions := sessions[sid := session];
    }

    /** The last step of a start: the node is noted, and if that fails there is no session. */
    method FinishStart(volumeId: Id, session: Session) returns (r: Result<()>)
      requires Valid() && session.id !in sessions && Holds(session) && session.remoteFetches == 0
      modifies this`sessions, this`tally, repo`volumes
      ensures Valid() && RepoExtends(old(repo.State()), repo.State())
      ensures VolumeContents(repo.State(), store.State()) == old(VolumeContents(repo.State(), store.State()))
      ensures sessions == if r.Ok? then old(sessions)[session.id := session] else old(sessions)
      ensures r.Ok? ==>
                && volumeId in old(repo.volumes)
                && repo.volumes == old(repo.volumes)[volumeId := old(repo.volumes)[volumeId].(lastNode := nodeId)]
      ensures repo.reliable && volumeId in old(repo.volumes) ==> r.Ok?
    {
      hide RepoOk, VolumeContents, Held, Session.Counted, RepoExtends, StoreExtends, Ready, View;
      SameStore(store.State());
      r := NoteLastNode(volumeId);
      forall s: Session | s == session || s in sessions.Values
        ensures Holds(s)
      {
        HeldStable(s.State(), old(repo.State()), store.State(), repo.State(), store.State());
      }
      if r.Ok? {
        Register(session.id, session);
      }
    }

    /** Opens a session on the content that is latest when its volume record is read. */
    method StartSession(volumeId: Id, sid: Id) returns (r: Result<Session>)
      requires Valid() && sid !in sessions
      modifies this`sessions, this`tally, repo`volumes
      ensures Valid()
      ensures RepoExtends(old(repo.State()), repo.State())
      ensures VolumeContents(repo.State(), store.State()) == old(VolumeContents(repo.State(), store.State()))
      ensures r.Err? ==> sessions == old(sessions)
      ensures r.Ok? ==>
                && fresh(r.value) && sessions == old(sessions)[sid := r.value]
                && volumeId in old(repo.volumes)
                && r.value.volume == old(repo.volumes)[volumeId]
                && repo.volumes == old(repo.volumes)[volumeId := old(repo.volumes)[volumeId].(lastNode := nodeId)]
                && r.value.dirty == {} && r.value.files == map[]
                && r.value.baseSnapshot == old(repo.volumes)[volumeId].latest
                && ViewOf(sid) == old(LatestContent(repo.State(), store.State(), repo.volumes[volumeId]))
      ensures Reliable() ==> (r.Ok? <==> volumeId in old(repo.volumes))
    {
      hide RepoOk, VolumeContents, View, LatestContent, Held, RepoExtends, Ready, Session.Counted;
      ExtendsSelf(repo.State());
      r := OpenSession(volumeId, sid);
      if r.Err? {
        return;
      }
      var noted := FinishStart(volumeId, r.value);
      if noted.Err? {
        return Err(noted.error);
      }
    }

    /** Opens and syncs every overlay file. */
    method FlushDirty(sid: Id) returns (r: Result<()>)
      ensures sid !in sessions ==> r == Err(NotFound)
      ensures sid in sessions && r.Ok? ==> sessions[sid].dirty <= sessions[sid].files.Keys
      ensures sid in sessions && cache.reliable && sessions[sid].dirty <= sessions[sid].files.Keys ==> r.Ok?
    {
      if sid !in sessions {
        return Err(NotFound);
      }
      var fails := OperationFails(cache.reliable);
      r := if fails || !(sessions[sid].dirty <= sessions[sid].files.Keys) then Err(Io) else Ok(());
    }

    /** Closes a session and drops its overlay. */
    method Stop(sid: Id) returns (r: Result<()>)
      requires Valid()
      modifies this`sessions, this`tally
      ensures Valid()
      ensures sessions == old(sessions) - {sid}
      ensures sid !in old(sessions) ==> r == Err(NotFound)
      ensures cache.reliable && sid in old(sessions) ==> r.Ok?
    {
      hide RepoOk, Holds, LocalCache.Valid, LocalCache.Coherent, ChunksOk, TallyOk;
      if sid !in sessions {
        assert sessions - {sid} == sessions;
        return Err(NotFound);
      }
      TallyClosed(tally, cache.everPut, cache.maxSize, Reliable(), sid);
      tally := tally.(closed := tally.closed + tally.open[sid], open := tally.open - {sid});
      sessions := sessions - {sid};
      var fails := OperationFails(cache.reliable);
      r := if fails then Err(Io) else Ok(());
    }

    /**
     Whatever other nodes add to store and repository, this node stays good and
     its sessions show what they showed.
     */
    twostate lemma GrownAround()
      requires old(Valid()) && unchanged(this, cache) && unchanged(old(sessions).Values)
      requires RepoOk(repo.State(), store.State())
      requires StoreExtends(old(store.State()), store.State()) && RepoExtends(old(repo.State()), repo.State())
      ensures Valid() && forall t :: t in sessions ==> ViewOf(t) == old(ViewOf(t))
    {
      hide RepoOk, Held, View, LocalCache.Valid, LocalCache.Coherent, TallyOk, Session.Counted, RepoExtends,
           StoreExtends;
      assert ChunksOk(store.chunks) by {
        GoodChunks(repo.State(), store.State());
      }
      forall t | t in sessions
        ensures Holds(sessions[t]) && ViewOf(t) == old(ViewOf(t))
      {
        HeldStable(sessions[t].State(), old(repo.State()), old(store.State()), repo.State(), store.State());
      }
    }
  }

  /**
   The fetch bound, for every node whose cache has room for all it was ever
   given, whatever else fails. Nothing was evicted. The remote fetches counted
   by all its sessions, open and stopped, are the chunks that fetches brought
   in plus the fills that failed; so they are at most the number of different
   chunks exactly as long as the failed fills do not outnumber the chunks that
   came in otherwise.
   */
  lemma FetchBound(b: Backend)
    requires b.Valid() && TotalBytes(b.cache.everPut) <= b.cache.maxSize
    ensures b.cache.evicted == 0 && b.cache.disk.Keys == b.cache.everPut.Keys
    ensures
      var fetched := b.tally.closed + Sum(map t | t in b.sessions :: b.sessions[t].remoteFetches);
      && fetched == |b.tally.filled| + b.tally.failedFills <= |b.cache.everPut| + b.tally.failedFills
      && (fetched <= |b.cache.everPut| <==> b.tally.failedFills <= |b.cache.everPut.Keys - b.tally.filled|)
      && (b.Reliable() ==> fetched <= |b.cache.everPut|)
    ensures forall t :: t in b.sessions ==> b.sessions[t].remoteFetches <= |b.cache.everPut| + b.tally.failedFills
  {
    hide RepoOk, SessionOk, LocalCache.Valid, ChunksOk, Sum, TotalBytes;
    var ever, filled := b.cache.everPut.Keys, b.tally.filled;
    assert filled + (ever - filled) == ever;
    var counts := map t | t in b.sessions :: b.sessions[t].remoteFetches;
    assert counts == b.tally.open;
    forall t | t in b.sessions
      ensures b.sessions[t].remoteFetches <= |b.cache.everPut| + b.tally.failedFills
    {
      SumRemove(counts, t);
    }
  }

  /**
   In every node whose I/O does not fail, each chunk asked for was a hit, a miss
   or a zero-fill, and each miss a fetch. The methods that resolve chunks do
   the work; this reads off what they keep in `Valid`.
   */
  lemma EachResolutionCounted(b: Backend, t: Id)
    requires b.Valid() && b.Reliable() && t in b.sessions
    ensures
      var s := b.sessions[t];
      s.cacheHits + s.cacheMisses + s.zeroFills == s.resolutions && s.remoteFetches == s.cacheMisses
  {
    hide RepoOk, SessionOk, LocalCache.Valid, ChunksOk;
  }

  lemma GoodChunks(repo: Repo, store: Store)
    requires RepoOk(repo, store)
    ensures ChunksOk(store.chunks)
  {
  }

  lemma SameStore(store: Store)
    ensures StoreExtends(store, store)
  {
  }

  lemma NothingCommitted(m: Manifest, files: map<int, Bytes>)
    ensures Committed(m, Overlay(files, [])) == m
  {
    assert Overlay(files, []) == map[];
  }

  lemma StartOfBatch(files: map<int, Bytes>, store: Store)
    ensures Stored(files, [], store.chunks) && StoreExtends(store, store)
  {
  }

  /** The chunks of an overlay, each under its hash. */
  ghost function ByHash(files: map<int, Bytes>): map<ChunkId, Bytes> {
    map id | id in (set i | i in files :: HashChunk(files[i])) :: id.preimage
  }

  lemma NothingGiven(ever: map<ChunkId, Bytes>, files: map<int, Bytes>, indexes: seq<int>)
    ensures ever + ByHash(Overlay(files, indexes[..0])) == ever
  {
    assert Overlay(files, indexes[..0]) == map[];
    assert ByHash(map[]) == map[];
  }

  /** The chunks of `done` are stored, counted, and given to the cache. */
  ghost predicate Uploaded(s: SessionState, first: Store, given: map<ChunkId, Bytes>, done: seq<int>,
                           stats: CommitStats, store: Store, ever: map<ChunkId, Bytes>)
  {
    && Stored(s.files, done, store.chunks)
    && stats.chunks == |done| == stats.uploaded + stats.skipped
    && |store.chunks| == |first.chunks| + stats.uploaded
    && ever == given + ByHash(Overlay(s.files, done))
  }

  lemma UploadStarts(s: SessionState, first: Store, given: map<ChunkId, Bytes>, indexes: seq<int>)
    ensures Uploaded(s, first, given, indexes[..0], CommitStats(0, 0, 0), first, given)
    ensures Committed(s.manifest, Overlay(s.files, indexes[..0])) == s.manifest
  {
    hide ByHash, Overlay, Committed;
    NothingGiven(given, s.files, indexes);
    NothingCommitted(s.manifest, s.files);
    assert indexes[..0] == [];
  }

  lemma UploadRound(s: SessionState, first: Store, given: map<ChunkId, Bytes>, done: seq<int>, stats: CommitStats,
                    store: Store, ever: map<ChunkId, Bytes>, batch: seq<int>, added: CommitStats, store': Store,
                    ever': map<ChunkId, Bytes>)
    requires Uploaded(s, first, given, done, stats, store, ever) && StoreExtends(store, store')
    requires Stored(s.files, batch, store'.chunks) && ever' == ever + ByHash(Overlay(s.files, batch))
    requires added.chunks == |batch| == added.uploaded + added.skipped
    requires |store'.chunks| == |store.chunks| + added.uploaded
    ensures Uploaded(s, first, given, done + batch, stats.Plus(added), store', ever')
  {
    hide ByHash, Overlay, Stored, StoreExtends;
    StoredBoth(s.files, done, batch, store, store');
    BothGiven(given, s.files, done, batch);
  }

  lemma UploadEnds(s: SessionState, first: Store, given: map<ChunkId, Bytes>, indexes: seq<int>, stats: CommitStats,
                   store: Store, ever: map<ChunkId, Bytes>)
    requires Uploaded(s, first, given, indexes, stats, store, ever)
    requires s.files.Keys <= s.dirty && |indexes| == |s.dirty| && forall i :: i in indexes <==> i in s.dirty
    ensures CommitReady(s, Committed(s.manifest, Overlay(s.files, indexes)), store.chunks)
    ensures Accounted(s, first.chunks, given, stats, store.chunks, ever)
  {
    hide ByHash, Overlay, Stored, Committed;
    FinishedManifest(s, indexes, store.chunks);
    assert forall i :: i in s.files ==> i in s.dirty;
    OverlayAll(s.files, indexes);
  }

  lemma HashedIds(files: map<int, Bytes>, id: ChunkId)
    ensures id in ByHash(files) <==> exists i :: i in files && HashChunk(files[i]) == id
    ensures id in ByHash(files) ==> ByHash(files)[id] == id.preimage
  {
  }

  lemma OneMoreGiven(ever: map<ChunkId, Bytes>, files: map<int, Bytes>, indexes: seq<int>, i: int)
    requires i in files
    ensures ever + ByHash(Overlay(files, indexes + [i]))
         == (ever + ByHash(Overlay(files, indexes)))[HashChunk(files[i]) := files[i]]
  {
    hide ByHash;
    var a, b := Overlay(files, indexes), Overlay(files, indexes + [i]);
    assert b == a[i := files[i]];
    forall id
      ensures id in ByHash(b) <==> id in ByHash(a) || id == HashChunk(files[i])
      ensures id in ByHash(b) ==> ByHash(b)[id] == id.preimage
      ensures id in ByHash(a) ==> ByHash(a)[id] == id.preimage
    {
      HashedIds(a, id);
      HashedIds(b, id);
      if j :| j in b && HashChunk(b[j]) == id {
        assert j == i || (j in a && a[j] == b[j]);
      }
      if j :| j in a && HashChunk(a[j]) == id {
        assert j in b && b[j] == a[j];
      }
      assert i in b && b[i] == files[i];
    }
  }

  lemma BothGiven(ever: map<ChunkId, Bytes>, files: map<int, Bytes>, a: seq<int>, b: seq<int>)
    ensures ever + ByHash(Overlay(files, a + b)) == ever + ByHash(Overlay(files, a)) + ByHash(Overlay(files, b))
  {
    hide ByHash;
    var x, y, z := Overlay(files, a), Overlay(files, b), Overlay(files, a + b);
    assert forall i :: i in z <==> i in x || i in y;
    forall id
      ensures id in ByHash(z) <==> id in ByHash(x) || id in ByHash(y)
      ensures id in ByHash(z) ==> ByHash(z)[id] == id.preimage
      ensures id in ByHash(x) ==> ByHash(x)[id] == id.preimage
      ensures id in ByHash(y) ==> ByHash(y)[id] == id.preimage
    {
      HashedIds(x, id);
      HashedIds(y, id);
      HashedIds(z, id);
      if j :| j in z && HashChunk(z[j]) == id {
        assert (j in x && x[j] == z[j]) || (j in y && y[j] == z[j]);
      }
    }
  }

  lemma FinishedManifest(s: SessionState, indexes: seq<int>, chunks: map<ChunkId, Bytes>)
    requires s.files.Keys <= s.dirty
    requires forall i :: i in indexes <==> i in s.dirty
    requires Stored(s.files, indexes, chunks)
    ensures CommitReady(s, Committed(s.manifest, Overlay(s.files, indexes)), chunks)
  {
    assert forall i :: i in s.files ==> i in s.dirty;
    OverlayAll(s.files, indexes);
    assert forall i :: i in s.dirty ==> i in s.files;
  }

  lemma GrownCache(a: map<ChunkId, Bytes>, b: map<ChunkId, Bytes>, id: ChunkId, chunk: Bytes)
    requires HashChunk(chunk) == id
    requires forall j :: j in a ==> HashChunk(a[j]) == j
    requires b == a || b == a[id := chunk]
    ensures TotalBytes(a) <= TotalBytes(b) && |a| <= |b|
  {
    if id in a {
      HashInjective(a[id], chunk);
    }
    TotalSubmap(a, b);
  }
}
