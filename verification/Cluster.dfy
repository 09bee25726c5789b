/**
 Many nodes over one object store and one metadata repository.

 A cluster state holds the shared store and repository, each node's private
 cache and every open session with its position inside the operation it is
 executing. One event is one store, repository or cache call, together with
 the node-local work up to the next such call. Failures are events: an
 operation may fail at any point, an effectful call of a session may report
 failure after having taken effect (`reported` is then false), a cache may lose
 any entry, and a node may crash between any two calls. Whether the creation
 of a volume, an image or a fork is reported makes no difference to the state.
 */
module Cluster {
  import opened Bytes
  import opened Chunks
  import opened Wire
  import opened Volumes
  import opened Stores
  import opened Snapshots

  /** Which call a starting session makes next. */
  datatype Need = NeedSnapshot | NeedManifest(key: ManifestKey) | NeedNode

  /** A read with the bytes it has, or a write with the device it began on (kept as history only). */
  datatype Job =
    | ReadJob(offset: nat, length: nat, got: Bytes)
    | WriteJob(offset: nat, data: Bytes, before: Bytes)
  {
    function Length(): nat {
      if ReadJob? then length else |data|
    }
  }

  /** How far the current chunk has been resolved. */
  datatype Access = Lookup | Fetch | Fill(chunk: Bytes)

  datatype ChunkStep = Check | Upload | CacheIt

  datatype Phase =
    | Opening(need: Need)
    | Idle
    | Working(job: Job, k: nat, access: Access)
    | Uploading(indexes: seq<int>, next: nat, manifest: Manifest, step: ChunkStep)
    | Recording(manifest: Manifest, snap: Id)
    | Publishing(manifest: Manifest, snap: Id)
    | Clearing

  datatype Session = Session(node: Id, state: SessionState, phase: Phase)

  type Cache = map<ChunkId, Bytes>

  datatype Cluster = Cluster(store: Store, repo: Repo, caches: map<Id, Cache>, sessions: map<Id, Session>)

  /** A call that a session makes, or node-local work that ends an operation. */
  datatype Call =
    | GetSnapshot
    | LoadManifest(loaded: Manifest)
    | UpdateLastNode(reported: bool)
    | BeginRead(offset: nat, length: nat)
    | BeginWrite(offset: nat, data: Bytes)
    | ResolveLocal
    | CacheGet
    | StoreGet
    | CachePut(reported: bool)
    | EndJob
    | BeginCommit(indexes: seq<int>)
    | StoreExists
    | StorePut(reported: bool)
    | CacheChunk(reported: bool)
    | SaveManifest(snap: Id, reported: bool)
    | CreateSnapshot(reported: bool)
    | UpdateLatest(reported: bool)
    | RemoveFile(index: int)
    | ClearOverlay
    | Fail
    | Stop

  datatype Event =
    | CreateVolume(v: Id, g: Geometry)
    | CreateImage(image: BaseImage)
    | ForkVolume(v: Id, imageId: Id, snap: Id)
    | GetVolume(sid: Id, node: Id, v: Id)
    | By(sid: Id, call: Call)
    | Crash(node: Id)
    | Evict(node: Id, id: ChunkId)

  // ----- Steps -----

  function SessionRanges(s: Session): seq<ChunkRange>
    requires s.phase.Working? && s.state.volume.geometry.chunkSize > 0
  {
    Ranges(s.phase.job.offset, s.phase.job.Length(), s.state.volume.geometry.chunkSize)
  }

  /** The session is in the middle of a job with a chunk still to resolve. */
  predicate Resolving(s: Session) {
    && s.phase.Working?
    && s.state.volume.geometry.chunkSize > 0
    && s.phase.k < |SessionRanges(s)|
  }

  function CurrentRange(s: Session): ChunkRange
    requires Resolving(s)
  {
    SessionRanges(s)[s.phase.k]
  }

  /** The bytes of a write that go into the current range. */
  function CurrentPart(s: Session): Bytes
    requires Resolving(s) && s.phase.job.WriteJob?
  {
    WritePart(s.phase.job.offset, s.phase.job.data, s.state.volume.geometry.chunkSize, s.phase.k)
  }

  /** The current chunk is known: a read takes its part of it, a write patches it and puts it in the overlay. */
  function Deliver(s: Session, chunk: Bytes): Session
    requires Resolving(s)
  {
    var r := CurrentRange(s);
    RangeFacts(s.phase.job.offset, s.phase.job.Length(), s.state.volume.geometry.chunkSize, s.phase.k);
    match s.phase.job
    case ReadJob(offset, length, got) =>
      var part := PaddedSlice(chunk, r.chunkStart, r.reqEnd - r.reqStart);
      s.(phase := Working(ReadJob(offset, length, got + part), s.phase.k + 1, Lookup))
    case WriteJob(_, _, _) =>
      var patched := Splice(PaddedSlice(chunk, 0, s.state.volume.geometry.chunkSize), r.chunkStart, CurrentPart(s));
      s.(state := s.state.(dirty := s.state.dirty + {r.index}, files := s.state.files[r.index := patched]),
         phase := Working(s.phase.job, s.phase.k + 1, Lookup))
  }

  function CacheOf(c: Cluster, node: Id): Cache {
    if node in c.caches then c.caches[node] else map[]
  }

  function WithSession(c: Cluster, sid: Id, s: Session): Cluster {
    c.(sessions := c.sessions[sid := s])
  }

  /** The current chunk is neither in the overlay nor unmapped: it must come from the cache or the store. */
  predicate ResolvingRemote(s: Session) {
    Resolving(s) && CurrentRange(s).index !in s.state.dirty && CurrentRange(s).index in s.state.manifest
  }

  /** The overlay chunk being committed. */
  predicate CommittingChunk(s: Session, step: ChunkStep) {
    && s.phase.Uploading?
    && s.phase.step == step
    && s.phase.next < |s.phase.indexes|
    && s.phase.indexes[s.phase.next] in s.state.files
  }

  function CommitChunk(s: Session): Bytes
    requires s.phase.Uploading? && CommittingChunk(s, s.phase.step)
  {
    s.state.files[s.phase.indexes[s.phase.next]]
  }

  ghost predicate Enabled(c: Cluster, e: Event) {
    match e
    case CreateVolume(v, g) => WithDefaults(g).Int64Sized()
    case CreateImage(image) =>
      image.snapshotId in c.repo.snapshots && c.repo.snapshots[image.snapshotId].volumeId == image.volumeId
    case ForkVolume(v, imageId, snap) =>
      && v !in c.repo.volumes
      && imageId in c.repo.images
      && c.repo.images[imageId].snapshotId == snap
      && c.repo.images[imageId].volumeId in c.repo.volumes
    case GetVolume(sid, node, v) => sid !in c.sessions && v in c.repo.volumes
    case Crash(_) => true
    case Evict(_, _) => true
    case By(sid, call) => sid in c.sessions && CallEnabled(c, c.sessions[sid], call)
  }

  ghost predicate CallEnabled(c: Cluster, s: Session, call: Call) {
    match call
    case GetSnapshot =>
      s.phase == Opening(NeedSnapshot) && s.state.volume.latest.Some? && s.state.volume.latest.value in c.repo.snapshots
    case LoadManifest(loaded) =>
      && s.phase.Opening? && s.phase.need.NeedManifest?
      && s.phase.need.key in c.store.manifests
      && LoadsAs(c.store.manifests[s.phase.need.key], loaded)
    case UpdateLastNode(_) => s.phase == Opening(NeedNode) && s.state.volume.volumeId in c.repo.volumes
    case BeginRead(offset, length) =>
      s.phase.Idle? && s.state.volume.geometry.Takes(offset, length)
    case BeginWrite(offset, data) =>
      s.phase.Idle? && s.state.volume.geometry.Takes(offset, |data|)
    case ResolveLocal =>
      && Resolving(s) && s.phase.access.Lookup?
      && var i := CurrentRange(s).index;
         if i in s.state.dirty then
           && i in s.state.files
           && (s.phase.job.WriteJob? ==> |s.state.files[i]| <= s.state.volume.geometry.chunkSize)
         else i !in s.state.manifest
    case CacheGet =>
      && ResolvingRemote(s) && s.phase.access.Lookup?
      && var id := s.state.manifest[CurrentRange(s).index];
         id in CacheOf(c, s.node) && s.phase.job.WriteJob? ==>
           |CacheOf(c, s.node)[id]| <= s.state.volume.geometry.chunkSize
    case StoreGet =>
      && ResolvingRemote(s) && s.phase.access.Fetch?
      && var id := s.state.manifest[CurrentRange(s).index];
         id in c.store.chunks ==> |c.store.chunks[id]| <= s.state.volume.geometry.chunkSize
    case CachePut(_) => ResolvingRemote(s) && s.phase.access.Fill?
    case EndJob =>
      s.phase.Working? && s.state.volume.geometry.chunkSize > 0 && s.phase.k == |SessionRanges(s)|
    case BeginCommit(indexes) =>
      s.phase.Idle? && StrictlyIncreasing(indexes) && (set i | i in indexes) == s.state.dirty
    case StoreExists => CommittingChunk(s, Check)
    case StorePut(_) => CommittingChunk(s, Upload)
    case CacheChunk(_) => CommittingChunk(s, CacheIt)
    case SaveManifest(snap, _) =>
      s.phase.Uploading? && s.phase.next == |s.phase.indexes| && ManifestKey(snap) !in c.store.manifests
    case CreateSnapshot(_) => s.phase.Recording? && s.phase.snap !in c.repo.snapshots
    case UpdateLatest(_) => s.phase.Publishing? && s.state.volume.volumeId in c.repo.volumes
    case RemoveFile(_) => s.phase.Clearing?
    case ClearOverlay => s.phase.Clearing?
    case Fail => !s.phase.Idle?
    case Stop => s.phase.Idle?
  }

  ghost function Next(c: Cluster, e: Event): Cluster
    requires Enabled(c, e)
  {
    match e
    case CreateVolume(v, g) =>
      if v in c.repo.volumes then c
      else c.(repo := c.repo.(volumes := c.repo.volumes[v := Volume(v, WithDefaults(g), None, "")]))
    case CreateImage(image) =>
      if image.imageId in c.repo.images then c
      else c.(repo := c.repo.(images := c.repo.images[image.imageId := image]))
    case ForkVolume(v, imageId, snap) =>
      var base := c.repo.volumes[c.repo.images[imageId].volumeId];
      c.(repo := c.repo.(volumes := c.repo.volumes[v := Volume(v, base.geometry, Some(snap), "")]))
    case GetVolume(sid, node, v) =>
      var volume := c.repo.volumes[v];
      WithSession(c, sid, Session(node, SessionState(volume, volume.latest, map[], {}, map[]),
                                  Opening(if volume.latest.Some? then NeedSnapshot else NeedNode)))
    case Crash(node) =>
      c.(sessions := map t | t in c.sessions && c.sessions[t].node != node :: c.sessions[t])
    case Evict(node, id) =>
      c.(caches := c.caches[node := CacheOf(c, node) - {id}])
    case By(sid, call) => NextCall(c, sid, call)
  }

  ghost function NextCall(c: Cluster, sid: Id, call: Call): Cluster
    requires sid in c.sessions && CallEnabled(c, c.sessions[sid], call)
  {
    var s := c.sessions[sid];
    match call
    case GetSnapshot =>
      WithSession(c, sid, s.(phase := Opening(NeedManifest(c.repo.snapshots[s.state.volume.latest.value].manifestKey))))
    case LoadManifest(loaded) =>
      WithSession(c, sid, s.(state := s.state.(manifest := loaded), phase := Opening(NeedNode)))
    case UpdateLastNode(reported) =>
      var v := s.state.volume.volumeId;
      var d := WithSession(c, sid, s.(phase := Idle)).(
        repo := c.repo.(volumes := c.repo.volumes[v := c.repo.volumes[v].(lastNode := s.node)]));
      if reported then d else d.(sessions := d.sessions - {sid})
    case BeginRead(offset, length) =>
      WithSession(c, sid, s.(phase := Working(ReadJob(offset, length, []), 0, Lookup)))
    case BeginWrite(offset, data) =>
      WithSession(c, sid, s.(phase := Working(WriteJob(offset, data, View(s.state, c.store.chunks)), 0, Lookup)))
    case ResolveLocal =>
      var i := CurrentRange(s).index;
      WithSession(c, sid, Deliver(s, if i in s.state.dirty then s.state.files[i] else []))
    case CacheGet =>
      var id := s.state.manifest[CurrentRange(s).index];
      if id in CacheOf(c, s.node) then WithSession(c, sid, Deliver(s, CacheOf(c, s.node)[id]))
      else WithSession(c, sid, s.(phase := s.phase.(access := Fetch)))
    case StoreGet =>
      var id := s.state.manifest[CurrentRange(s).index];
      if id in c.store.chunks then
        var chunk := PaddedSlice(c.store.chunks[id], 0, s.state.volume.geometry.chunkSize);
        WithSession(c, sid, s.(phase := s.phase.(access := Fill(chunk))))
      else WithSession(c, sid, Deliver(s, []))
    case CachePut(reported) =>
      var id := s.state.manifest[CurrentRange(s).index];
      var b := s.phase.access.chunk;
      WithSession(c, sid, if reported then Deliver(s, b) else s.(phase := Idle)).(
        caches := c.caches[s.node := CacheOf(c, s.node)[id := b]])
    case EndJob => WithSession(c, sid, s.(phase := Idle))
    case BeginCommit(indexes) =>
      WithSession(c, sid, s.(phase := Uploading(indexes, 0, s.state.manifest, Check)))
    case StoreExists =>
      var step := if HashChunk(CommitChunk(s)) in c.store.chunks then CacheIt else Upload;
      WithSession(c, sid, s.(phase := s.phase.(step := step)))
    case StorePut(reported) =>
      WithSession(c, sid, s.(phase := if reported then s.phase.(step := CacheIt) else Idle)).(
        store := c.store.(chunks := c.store.chunks[HashChunk(CommitChunk(s)) := CommitChunk(s)]))
    case CacheChunk(reported) =>
      var id := HashChunk(CommitChunk(s));
      var added := s.phase.manifest[s.phase.indexes[s.phase.next] := id];
      var phase := if reported then Uploading(s.phase.indexes, s.phase.next + 1, added, Check) else Idle;
      WithSession(c, sid, s.(phase := phase)).(
        caches := c.caches[s.node := CacheOf(c, s.node)[id := CommitChunk(s)]])
    case SaveManifest(snap, reported) =>
      WithSession(c, sid, s.(phase := if reported then Recording(s.phase.manifest, snap) else Idle)).(
        store := c.store.(manifests := c.store.manifests[ManifestKey(snap) := ToWire(s.phase.manifest)]))
    case CreateSnapshot(reported) =>
      var snap := s.phase.snap;
      var record := Snapshot(snap, s.state.volume.volumeId, ManifestKey(snap));
      WithSession(c, sid, s.(phase := if reported then Publishing(s.phase.manifest, snap) else Idle)).(
        repo := c.repo.(snapshots := c.repo.snapshots[snap := record]))
    case UpdateLatest(reported) =>
      var v := s.state.volume.volumeId;
      WithSession(c, sid,
        if reported then
          s.(state := s.state.(baseSnapshot := Some(s.phase.snap), manifest := s.phase.manifest), phase := Clearing)
        else s.(phase := Idle)).(
        repo := c.repo.(volumes := c.repo.volumes[v := c.repo.volumes[v].(latest := Some(s.phase.snap))]))
    case RemoveFile(index) =>
      WithSession(c, sid, s.(state := s.state.(files := s.state.files - {index})))
    case ClearOverlay =>
      WithSession(c, sid, s.(state := s.state.(files := map[], dirty := {}), phase := Idle))
    case Fail =>
      if s.phase.Opening? then c.(sessions := c.sessions - {sid}) else WithSession(c, sid, s.(phase := Idle))
    case Stop => c.(sessions := c.sessions - {sid})
  }

  // ----- The flat specification -----

  /** What users are promised: every volume, snapshot and open session is one byte string. */
  datatype Flat = Flat(volumes: map<Id, Bytes>, snapshots: map<Id, Bytes>, sessions: map<Id, Bytes>)

  datatype Action =
    | Nothing
    | AddVolume(v: Id, size: nat)
    | Fork(v: Id, snap: Id)
    | Open(sid: Id, v: Id)
    | Write(sid: Id, at: nat, data: Bytes)
    | Snap(snap: Id, sid: Id)
    | Point(v: Id, sid: Id)
    | Close(sids: set<Id>)

  /** The action makes sense on `a`; new names are new. */
  predicate Allowed(a: Flat, act: Action) {
    match act
    case Nothing => true
    case AddVolume(v, _) => v !in a.volumes
    case Fork(v, snap) => v !in a.volumes && snap in a.snapshots
    case Open(sid, v) => sid !in a.sessions && v in a.volumes
    case Write(sid, at, data) => sid in a.sessions && at + |data| <= |a.sessions[sid]|
    case Snap(snap, sid) => snap !in a.snapshots && sid in a.sessions
    case Point(v, sid) => v in a.volumes && sid in a.sessions
    case Close(_) => true
  }

  function Apply(a: Flat, act: Action): Flat
    requires Allowed(a, act)
  {
    match act
    case Nothing => a
    case AddVolume(v, size) => a.(volumes := a.volumes[v := Zeros(size)])
    case Fork(v, snap) => a.(volumes := a.volumes[v := a.snapshots[snap]])
    case Open(sid, v) => a.(sessions := a.sessions[sid := a.volumes[v]])
    case Write(sid, at, data) => a.(sessions := a.sessions[sid := Splice(a.sessions[sid], at, data)])
    case Snap(snap, sid) => a.(snapshots := a.snapshots[snap := a.sessions[sid]])
    case Point(v, sid) => a.(volumes := a.volumes[v := a.sessions[sid]])
    case Close(sids) => a.(sessions := a.sessions - sids)
  }

  /** The flat meaning of an event. Only these few calls have any. */
  ghost function Effect(c: Cluster, e: Event): Action
    requires Enabled(c, e)
  {
    match e
    case CreateVolume(v, g) => if v in c.repo.volumes then Nothing else AddVolume(v, WithDefaults(g).Size())
    case CreateImage(_) => Nothing
    case ForkVolume(v, _, snap) => Fork(v, snap)
    case GetVolume(sid, _, v) => Open(sid, v)
    case By(sid, call) => CallEffect(c, sid, call)
    case Crash(node) => Close(set t | t in c.sessions && c.sessions[t].node == node)
    case Evict(_, _) => Nothing
  }

  ghost function CallEffect(c: Cluster, sid: Id, call: Call): Action
    requires sid in c.sessions && CallEnabled(c, c.sessions[sid], call)
  {
    var s := c.sessions[sid];
    match call
    case ResolveLocal => Delivery(sid, s)
    case CacheGet => if s.state.manifest[CurrentRange(s).index] in CacheOf(c, s.node) then Delivery(sid, s) else Nothing
    case StoreGet => if s.state.manifest[CurrentRange(s).index] in c.store.chunks then Nothing else Delivery(sid, s)
    case CachePut(reported) => if reported then Delivery(sid, s) else Nothing
    case UpdateLastNode(reported) => if reported then Nothing else Close({sid})
    case CreateSnapshot(_) => Snap(s.phase.snap, sid)
    case UpdateLatest(_) => Point(s.state.volume.volumeId, sid)
    case Fail => if s.phase.Opening? then Close({sid}) else Nothing
    case Stop => Close({sid})
    case _ => Nothing
  }

  /** Resolving a chunk of a write writes that range; resolving a chunk of a read changes nothing. */
  ghost function Delivery(sid: Id, s: Session): Action
    requires Resolving(s)
  {
    RangeFacts(s.phase.job.offset, s.phase.job.Length(), s.state.volume.geometry.chunkSize, s.phase.k);
    if s.phase.job.ReadJob? then Nothing else Write(sid, CurrentRange(s).reqStart, CurrentPart(s))
  }
}
