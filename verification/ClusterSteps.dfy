/**
 Every event keeps the invariant and does to the flat reading exactly what
 its flat effect says: one lemma per kind of event.
 */
module ClusterSteps {
  import opened Bytes
  import opened Chunks
  import opened Wire
  import opened Volumes
  import opened Snapshots
  import opened Cluster
  import opened ClusterInvariant

  /** The step from `c` to `d` keeps the invariant and is the flat action `act`. */
  ghost predicate Refines(c: Cluster, d: Cluster, act: Action)
    requires Inv(c)
  {
    && Inv(d)
    && Allowed(Abs(c), act)
    && Abs(d) == Apply(Abs(c), act)
  }

  // ----- Steps that touch one session and caches only -----

  lemma LocalStep(c: Cluster, d: Cluster, sid: Id)
    requires Inv(c)
    requires sid in c.sessions && sid in d.sessions
    requires d.store == c.store && d.repo == c.repo && d.sessions == c.sessions[sid := d.sessions[sid]]
    requires CachesOk(d.caches)
    requires SessOk(c.repo, c.store, d.sessions[sid])
    requires !d.sessions[sid].phase.Recording?
    ensures Inv(d)
    ensures Abs(d) == Abs(c).(sessions := Abs(c).sessions[sid := Shown(c.repo, c.store, d.sessions[sid])])
  {
    hide RepoOk, SessOk, Shown, VolumeContents, SnapshotContents;
    PendingUnrecorded(c);
    Frame(c, d, sid);
    assert Abs(d).sessions == Abs(c).sessions[sid := Shown(c.repo, c.store, d.sessions[sid])];
  }

  lemma CachesStayOk(c: Cluster, node: Id, id: ChunkId, b: Bytes)
    requires Inv(c) && HashChunk(b) == id
    ensures CachesOk(c.caches[node := CacheOf(c, node)[id := b]])
  {
    hide RepoOk, SessOk;
  }

  /** A step after which the session still shows the same device is invisible. */
  lemma QuietStep(c: Cluster, d: Cluster, sid: Id)
    requires Inv(c)
    requires sid in c.sessions && sid in d.sessions
    requires d.store == c.store && d.repo == c.repo && d.sessions == c.sessions[sid := d.sessions[sid]]
    requires CachesOk(d.caches)
    requires SessOk(c.repo, c.store, d.sessions[sid])
    requires !d.sessions[sid].phase.Recording?
    requires Shown(c.repo, c.store, d.sessions[sid]) == Shown(c.repo, c.store, c.sessions[sid])
    ensures Refines(c, d, Nothing)
  {
    hide RepoOk, SessOk, Shown, VolumeContents, SnapshotContents;
    LocalStep(c, d, sid);
    assert Abs(d).sessions == Abs(c).sessions;
  }

  lemma SessionOf(c: Cluster, sid: Id)
    requires Inv(c) && sid in c.sessions
    ensures SessOk(c.repo, c.store, c.sessions[sid])
    ensures CachesOk(c.caches)
    ensures RepoOk(c.repo, c.store)
  {
  }

  lemma OpeningStep(c: Cluster, sid: Id, call: Call)
    requires Inv(c) && sid in c.sessions && CallEnabled(c, c.sessions[sid], call)
    requires call.GetSnapshot? || call.LoadManifest?
    ensures Refines(c, NextCall(c, sid, call), CallEffect(c, sid, call))
  {
    hide Inv, Refines, ToWire, IsPrinted, Contents, LoadsAs;
    SessionOf(c, sid);
    var s, d := c.sessions[sid], NextCall(c, sid, call);
    if call.LoadManifest? {
      LoadedManifest(c.repo, c.store, s.state.volume.latest.value, call.loaded);
    }
    QuietStep(c, d, sid);
  }

  lemma BegunJob(s: Session, chunks: map<ChunkId, Bytes>, job: Job)
    requires SessionOk(s.state, chunks) && s.state.volume.geometry.chunkSize > 0
    requires s.state.volume.geometry.Takes(job.offset, job.Length())
    requires job.ReadJob? ==> job.got == []
    requires job.WriteJob? ==> job.before == View(s.state, chunks)
    ensures JobOk(s.(phase := Working(job, 0, Lookup)), chunks)
  {
    hide Contents, Ranges, SessionOk;
    if job.WriteJob? {
      assert Splice(job.before, job.offset, job.data[..0]) == job.before;
    }
  }

  lemma JobBoundaryStep(c: Cluster, sid: Id, call: Call)
    requires Inv(c) && sid in c.sessions && CallEnabled(c, c.sessions[sid], call)
    requires call.BeginRead? || call.BeginWrite? || call.EndJob?
    ensures Refines(c, NextCall(c, sid, call), CallEffect(c, sid, call))
  {
    hide Inv, Refines, RepoOk, PointerOk, SessionOk, View, JobOk;
    SessionOf(c, sid);
    var s, d := c.sessions[sid], NextCall(c, sid, call);
    if call.BeginRead? {
      BegunJob(s, c.store.chunks, ReadJob(call.offset, call.length, []));
    } else if call.BeginWrite? {
      BegunJob(s, c.store.chunks, WriteJob(call.offset, call.data, View(s.state, c.store.chunks)));
    }
    QuietStep(c, d, sid);
  }

  // ----- Resolving one chunk of a read or write -----

  /** Reading the current range out of the right chunk extends what the read has got. */
  lemma DeliverToRead(s: Session, chunks: map<ChunkId, Bytes>, chunk: Bytes)
    requires SessionOk(s.state, chunks) && s.phase.Working? && JobOk(s, chunks) && Resolving(s)
    requires s.phase.job.ReadJob?
    requires PaddedSlice(chunk, 0, s.state.volume.geometry.chunkSize)
          == ChunkAt(s.state.volume.geometry, s.state.files, s.state.manifest, chunks, CurrentRange(s).index)
    ensures JobOk(Deliver(s, chunk), chunks)
  {
    hide ChunkAt, Contents, Ranges, Reached, FilesOk, ManifestOk;
    ReadNext(s.state.volume.geometry, s.state.files, s.state.manifest, chunks,
             s.phase.job.offset, s.phase.job.length, s.phase.k, chunk);
  }

  /** Patching the right chunk applies exactly the next part of the write. */
  lemma DeliverToWrite(s: Session, chunks: map<ChunkId, Bytes>, chunk: Bytes)
    requires SessionOk(s.state, chunks) && s.phase.Working? && JobOk(s, chunks) && Resolving(s)
    requires s.phase.job.WriteJob?
    requires PaddedSlice(chunk, 0, s.state.volume.geometry.chunkSize)
          == ChunkAt(s.state.volume.geometry, s.state.files, s.state.manifest, chunks, CurrentRange(s).index)
    ensures SessionOk(Deliver(s, chunk).state, chunks) && JobOk(Deliver(s, chunk), chunks)
    ensures 0 <= CurrentRange(s).reqStart && CurrentRange(s).reqStart + |CurrentPart(s)| <= |View(s.state, chunks)|
    ensures View(Deliver(s, chunk).state, chunks)
         == Splice(View(s.state, chunks), CurrentRange(s).reqStart, CurrentPart(s))
  {
    hide ChunkAt, Contents, Ranges, Reached, FilesOk, ManifestOk, PaddedSlice, WritePart;
    WriteNext(s.state.volume.geometry, s.state.files, s.state.manifest, chunks,
              s.phase.job.offset, s.phase.job.data, s.phase.job.before, s.phase.k);
  }

  lemma DeliverStep(c: Cluster, d: Cluster, sid: Id, chunk: Bytes)
    requires Inv(c) && sid in c.sessions && Resolving(c.sessions[sid])
    requires PaddedSlice(chunk, 0, c.sessions[sid].state.volume.geometry.chunkSize)
          == ChunkAt(c.sessions[sid].state.volume.geometry, c.sessions[sid].state.files, c.sessions[sid].state.manifest,
                     c.store.chunks, CurrentRange(c.sessions[sid]).index)
    requires d == WithSession(c, sid, Deliver(c.sessions[sid], chunk)).(caches := d.caches) && CachesOk(d.caches)
    ensures Refines(c, d, Delivery(sid, c.sessions[sid]))
  {
    hide RepoOk, PointerOk, JobOk, SessionOk, View, ChunkAt, PaddedSlice, CurrentRange, CurrentPart;
    var s := c.sessions[sid];
    if s.phase.job.ReadJob? {
      DeliverToRead(s, c.store.chunks, chunk);
      QuietStep(c, d, sid);
    } else {
      DeliverToWrite(s, c.store.chunks, chunk);
      LocalStep(c, d, sid);
    }
  }

  /** What the cache or the store holds for a manifest entry is that entry's chunk. */
  lemma RemoteChunk(c: Cluster, sid: Id)
    requires Inv(c) && sid in c.sessions && ResolvingRemote(c.sessions[sid])
    ensures
      var s := c.sessions[sid];
      var id := s.state.manifest[CurrentRange(s).index];
      && id in c.store.chunks
      && |c.store.chunks[id]| == s.state.volume.geometry.chunkSize
      && HashChunk(c.store.chunks[id]) == id
      && ChunkAt(s.state.volume.geometry, s.state.files, s.state.manifest, c.store.chunks, CurrentRange(s).index)
      == c.store.chunks[id]
      && PaddedSlice(c.store.chunks[id], 0, s.state.volume.geometry.chunkSize) == c.store.chunks[id]
      && (id in CacheOf(c, s.node) ==> CacheOf(c, s.node)[id] == c.store.chunks[id])
  {
    hide ToWire, IsPrinted, Contents, PointerOk, PhaseOk, SnapshotOk, HashChunk;
    var s := c.sessions[sid];
    var id := s.state.manifest[CurrentRange(s).index];
    if id in CacheOf(c, s.node) {
      HashInjective(CacheOf(c, s.node)[id], c.store.chunks[id]);
    }
  }

  lemma ResolveLocalStep(c: Cluster, sid: Id)
    requires Inv(c) && sid in c.sessions && CallEnabled(c, c.sessions[sid], ResolveLocal)
    ensures Refines(c, NextCall(c, sid, ResolveLocal), CallEffect(c, sid, ResolveLocal))
  {
    hide Inv, Refines, RepoOk, PointerOk, PhaseOk, Delivery, Deliver, Ranges;
    SessionOf(c, sid);
    var s := c.sessions[sid];
    var g, i := s.state.volume.geometry, CurrentRange(s).index;
    var chunk := if i in s.state.dirty then s.state.files[i] else [];
    assert PaddedSlice(chunk, 0, g.chunkSize) == ChunkAt(g, s.state.files, s.state.manifest, c.store.chunks, i);
    DeliverStep(c, NextCall(c, sid, ResolveLocal), sid, chunk);
  }

  lemma CachePutStep(c: Cluster, sid: Id, reported: bool)
    requires Inv(c) && sid in c.sessions && CallEnabled(c, c.sessions[sid], CachePut(reported))
    ensures Refines(c, NextCall(c, sid, CachePut(reported)), CallEffect(c, sid, CachePut(reported)))
  {
    hide Inv, Refines, RepoOk, PointerOk, SessionOk, Delivery, Deliver, Ranges, ChunkAt, PaddedSlice, View, ManifestOk;
    SessionOf(c, sid);
    var s := c.sessions[sid];
    RemoteChunk(c, sid);
    CachesStayOk(c, s.node, s.state.manifest[CurrentRange(s).index], s.phase.access.chunk);
    if reported {
      DeliverStep(c, NextCall(c, sid, CachePut(reported)), sid, s.phase.access.chunk);
    } else {
      QuietStep(c, NextCall(c, sid, CachePut(reported)), sid);
    }
  }

  lemma CacheGetStep(c: Cluster, sid: Id)
    requires Inv(c) && sid in c.sessions && CallEnabled(c, c.sessions[sid], CacheGet)
    ensures Refines(c, NextCall(c, sid, CacheGet), CallEffect(c, sid, CacheGet))
  {
    hide Inv, Refines, RepoOk, PointerOk, SessionOk, Delivery, Deliver, Ranges, ChunkAt, PaddedSlice, View;
    SessionOf(c, sid);
    var s, d := c.sessions[sid], NextCall(c, sid, CacheGet);
    RemoteChunk(c, sid);
    var id := s.state.manifest[CurrentRange(s).index];
    if id in CacheOf(c, s.node) {
      DeliverStep(c, d, sid, CacheOf(c, s.node)[id]);
    } else {
      QuietStep(c, d, sid);
    }
  }

  lemma StoreGetStep(c: Cluster, sid: Id)
    requires Inv(c) && sid in c.sessions && CallEnabled(c, c.sessions[sid], StoreGet)
    ensures Refines(c, NextCall(c, sid, StoreGet), CallEffect(c, sid, StoreGet))
  {
    hide Inv, Refines, RepoOk, PointerOk, SessionOk, Delivery, Deliver, Ranges, ChunkAt, PaddedSlice, View;
    SessionOf(c, sid);
    RemoteChunk(c, sid);
    QuietStep(c, NextCall(c, sid, StoreGet), sid);
  }

  // ----- Commit -----

  lemma BeginCommitStep(c: Cluster, sid: Id, indexes: seq<int>)
    requires Inv(c) && sid in c.sessions && CallEnabled(c, c.sessions[sid], BeginCommit(indexes))
    ensures Refines(c, NextCall(c, sid, BeginCommit(indexes)), CallEffect(c, sid, BeginCommit(indexes)))
  {
    hide Refines, Inv, RepoOk, PointerOk, View, ManifestOk, FilesOk;
    SessionOf(c, sid);
    var s, d := c.sessions[sid], NextCall(c, sid, BeginCommit(indexes));
    assert Overlay(s.state.files, indexes[..0]) == map[];
    assert Committed(s.state.manifest, map[]) == s.state.manifest;
    QuietStep(c, d, sid);
  }

  lemma StoreExistsStep(c: Cluster, sid: Id)
    requires Inv(c) && sid in c.sessions && CallEnabled(c, c.sessions[sid], StoreExists)
    ensures Refines(c, NextCall(c, sid, StoreExists), CallEffect(c, sid, StoreExists))
  {
    hide Refines, Inv, RepoOk, PointerOk, View, SessionOk, Committed, Overlay;
    SessionOf(c, sid);
    var d := NextCall(c, sid, StoreExists);
    QuietStep(c, d, sid);
  }

  lemma CacheChunkStep(c: Cluster, sid: Id, reported: bool)
    requires Inv(c) && sid in c.sessions && CallEnabled(c, c.sessions[sid], CacheChunk(reported))
    ensures Refines(c, NextCall(c, sid, CacheChunk(reported)), CallEffect(c, sid, CacheChunk(reported)))
  {
    hide Refines, Inv, RepoOk, PointerOk, View, SessionOk, Committed, Overlay;
    SessionOf(c, sid);
    var s, d := c.sessions[sid], NextCall(c, sid, CacheChunk(reported));
    var indexes, next := s.phase.indexes, s.phase.next;
    CachesStayOk(c, s.node, HashChunk(CommitChunk(s)), CommitChunk(s));
    assert indexes[..next + 1] == indexes[..next] + [indexes[next]];
    OverlayGrows(s.state.manifest, s.state.files, indexes[..next], indexes[next]);
    QuietStep(c, d, sid);
  }

  lemma ClearingStep(c: Cluster, sid: Id, call: Call)
    requires Inv(c) && sid in c.sessions && CallEnabled(c, c.sessions[sid], call)
    requires call.RemoveFile? || call.ClearOverlay?
    ensures Refines(c, NextCall(c, sid, call), CallEffect(c, sid, call))
  {
    hide Inv, Refines, RepoOk, PointerOk, Contents, ManifestOk;
    SessionOf(c, sid);
    var s, d := c.sessions[sid], NextCall(c, sid, call);
    DroppedFiles(s.state.volume.geometry, s.state.files, s.state.manifest, c.store.chunks, d.sessions[sid].state.files);
    QuietStep(c, d, sid);
  }

  // ----- Steps that add to the store or the repository -----

  /** Puts framing, growth and the flat reading together for a step by session `sid`. */
  lemma GrowStep(c: Cluster, d: Cluster, sid: Id)
    requires Inv(c)
    requires sid in c.sessions && sid in d.sessions
    requires d.caches == c.caches && d.sessions == c.sessions[sid := d.sessions[sid]]
    requires RepoExtends(c.repo, d.repo) && StoreExtends(c.store, d.store) && RepoOk(d.repo, d.store)
    requires SessOk(d.repo, d.store, d.sessions[sid])
    requires forall t :: t in c.sessions && t != sid && c.sessions[t].phase.Recording? ==>
               && c.sessions[t].phase.snap !in d.repo.snapshots
               && (d.sessions[sid].phase.Recording? ==> c.sessions[t].phase.snap != d.sessions[sid].phase.snap)
    ensures Inv(d)
    ensures Abs(d).sessions == Abs(c).sessions[sid := Shown(d.repo, d.store, d.sessions[sid])]
  {
    hide RepoOk, SessOk, Shown, VolumeContents, SnapshotContents;
    Frame(c, d, sid);
  }

  /** A store that has only grown leaves volumes and snapshots as they were. */
  lemma StoreGrowStep(c: Cluster, d: Cluster, sid: Id)
    requires Inv(c)
    requires sid in c.sessions && sid in d.sessions
    requires d.caches == c.caches && d.repo == c.repo && d.sessions == c.sessions[sid := d.sessions[sid]]
    requires StoreExtends(c.store, d.store) && ChunksOk(d.store.chunks)
    requires forall v :: v in c.repo.volumes ==> c.repo.volumes[v].volumeId == v
    requires SessOk(d.repo, d.store, d.sessions[sid])
    requires Shown(d.repo, d.store, d.sessions[sid]) == Shown(c.repo, c.store, c.sessions[sid])
    requires d.sessions[sid].phase.Recording? ==>
               forall t :: t in c.sessions && t != sid && c.sessions[t].phase.Recording? ==>
                 c.sessions[t].phase.snap != d.sessions[sid].phase.snap
    ensures Refines(c, d, Nothing)
  {
    hide RepoOk, SessOk, Shown, VolumeContents, SnapshotContents;
    RepoQuiet(c.repo, c.store, d.repo, d.store);
    PendingUnrecorded(c);
    GrowStep(c, d, sid);
    assert Abs(d).sessions == Abs(c).sessions;
  }

  lemma StorePutStep(c: Cluster, sid: Id, reported: bool)
    requires Inv(c) && sid in c.sessions && CallEnabled(c, c.sessions[sid], StorePut(reported))
    ensures Refines(c, NextCall(c, sid, StorePut(reported)), CallEffect(c, sid, StorePut(reported)))
  {
    hide Inv, Refines, View, SnapshotOk, PointerOk, Committed, Overlay, SessionOk;
    SessionOf(c, sid);
    var s, d := c.sessions[sid], NextCall(c, sid, StorePut(reported));
    var b := CommitChunk(s);
    if HashChunk(b) in c.store.chunks {
      HashInjective(c.store.chunks[HashChunk(b)], b);
    }
    PhaseStable(c.repo, c.store, d.repo, d.store, s);
    StoreGrowStep(c, d, sid);
  }

  /** Once the last chunk is handled, the manifest is the finished one. */
  lemma AllUploaded(repo: Repo, store: Store, s: Session)
    requires SessOk(repo, store, s) && s.phase.Uploading? && s.phase.next == |s.phase.indexes|
    ensures CommitReady(s.state, s.phase.manifest, store.chunks)
  {
    hide Committed, Overlay, ManifestOk, PointerOk;
    var indexes := s.phase.indexes;
    assert indexes[..s.phase.next] == indexes;
    assert forall i :: i in s.state.dirty ==> i in indexes;
    OverlayAll(s.state.files, indexes);
  }

  /** A name with no manifest yet is neither recorded nor about to be. */
  lemma FreshSnapshot(c: Cluster, snap: Id)
    requires Inv(c) && ManifestKey(snap) !in c.store.manifests
    ensures snap !in c.repo.snapshots
    ensures forall t :: t in c.sessions && c.sessions[t].phase.Recording? ==> c.sessions[t].phase.snap != snap
  {
    hide PointerOk, ToWire, IsPrinted, SessionOk, CommitReady, ManifestOk, SnapshotManifest;
    assert snap in c.repo.snapshots ==> SnapshotOk(c.repo, c.store, snap);
  }

  lemma SaveManifestStep(c: Cluster, sid: Id, snap: Id, reported: bool)
    requires Inv(c) && sid in c.sessions && CallEnabled(c, c.sessions[sid], SaveManifest(snap, reported))
    ensures Refines(c, NextCall(c, sid, SaveManifest(snap, reported)), CallEffect(c, sid, SaveManifest(snap, reported)))
  {
    hide Inv, Refines, View, PointerOk, ToWire, SessionOk, CommitReady, SnapshotOk, Committed, Overlay;
    SessionOf(c, sid);
    FreshSnapshot(c, snap);
    var s, d := c.sessions[sid], NextCall(c, sid, SaveManifest(snap, reported));
    PhaseStable(c.repo, c.store, d.repo, d.store, s);
    AllUploaded(d.repo, d.store, s);
    StoreGrowStep(c, d, sid);
  }

  lemma CreateSnapshotStep(c: Cluster, sid: Id, reported: bool)
    requires Inv(c) && sid in c.sessions && CallEnabled(c, c.sessions[sid], CreateSnapshot(reported))
    ensures Refines(c, NextCall(c, sid, CreateSnapshot(reported)), CallEffect(c, sid, CreateSnapshot(reported)))
  {
    hide Inv, Refines, RepoOk, Shown, SessOk, SnapshotContent;
    SessionOf(c, sid);
    var s, d := c.sessions[sid], NextCall(c, sid, CreateSnapshot(reported));
    RecordedSession(c.repo, c.store, s, d.repo, reported);
    RecordStep(c, d, sid, s.phase.snap);
  }

  lemma RecordStep(c: Cluster, d: Cluster, sid: Id, snap: Id)
    requires Inv(c) && sid in c.sessions && sid in d.sessions
    requires c.sessions[sid].phase.Recording? && c.sessions[sid].phase.snap == snap
    requires d == c.(sessions := c.sessions[sid := d.sessions[sid]], repo := d.repo)
    requires snap !in c.repo.snapshots && snap in d.repo.snapshots
    requires d.repo == c.repo.(snapshots := c.repo.snapshots[snap := d.repo.snapshots[snap]])
    requires SnapshotOk(d.repo, d.store, snap)
    requires SessOk(c.repo, c.store, c.sessions[sid]) && SessOk(d.repo, d.store, d.sessions[sid])
    requires !d.sessions[sid].phase.Recording?
    requires Shown(d.repo, d.store, d.sessions[sid]) == Shown(c.repo, c.store, c.sessions[sid])
    requires SnapshotContent(d.repo, d.store, snap) == Shown(c.repo, c.store, c.sessions[sid])
    ensures Refines(c, d, Snap(snap, sid))
  {
    hide Inv, RepoOk, Shown, SessOk, SnapshotContent, SnapshotOk, VolumeContents, SnapshotContents, SessionContents;
    SessionOf(c, sid);
    RepoRecord(c.repo, c.store, d.repo, snap);
    OthersPending(c, sid);
    QuietGrowStep(c, d, sid);
    VolumeKeys(c);
  }

  /** Recording the snapshot, seen from the committing session. */
  lemma RecordedSession(repo: Repo, store: Store, s: Session, rb: Repo, reported: bool)
    requires RepoOk(repo, store) && SessOk(repo, store, s) && s.phase.Recording?
    requires
      var snap := s.phase.snap;
      var record := Snapshot(snap, s.state.volume.volumeId, ManifestKey(snap));
      rb == repo.(snapshots := repo.snapshots[snap := record])
    ensures SnapshotOk(rb, store, s.phase.snap)
    ensures SnapshotContent(rb, store, s.phase.snap) == Shown(repo, store, s)
    ensures
      var s' := s.(phase := if reported then Publishing(s.phase.manifest, s.phase.snap) else Idle);
      SessOk(rb, store, s') && Shown(rb, store, s') == Shown(repo, store, s)
  {
    hide View, PointerOk, ToWire, SessionOk, CommitReady, SnapshotOk, SnapshotContent;
    RecordedSnapshot(rb, store, s.state, s.phase.manifest, s.phase.snap);
    PhaseStable(repo, store, rb, store, s.(phase := Idle));
  }

  /** Moving the pointer, seen from the committing session. */
  lemma PublishedSession(repo: Repo, store: Store, s: Session, rb: Repo, reported: bool)
    requires RepoOk(repo, store) && SessOk(repo, store, s) && s.phase.Publishing?
    requires RepoExtends(repo, rb)
    ensures SnapshotContent(repo, store, s.phase.snap) == Shown(repo, store, s)
    ensures repo.volumes[repo.snapshots[s.phase.snap].volumeId].geometry == s.state.volume.geometry
    ensures
      var s' := if reported then
                  s.(state := s.state.(baseSnapshot := Some(s.phase.snap), manifest := s.phase.manifest),
                     phase := Clearing)
                else s.(phase := Idle);
      SessOk(rb, store, s') && Shown(rb, store, s') == Shown(repo, store, s)
  {
    hide View, PointerOk, ToWire, CommitReady, SnapshotOk, SnapshotContent, ManifestOk, FilesOk;
    RecordedSnapshot(repo, store, s.state, s.phase.manifest, s.phase.snap);
    AdoptedManifest(s.state, s.phase.manifest, store.chunks, s.phase.snap);
    PhaseStable(repo, store, rb, store, s.(phase := Idle));
  }

  /** Commits in flight elsewhere are about other snapshots, none of them recorded. */
  lemma OthersPending(c: Cluster, sid: Id)
    requires Inv(c) && sid in c.sessions
    ensures forall t :: t in c.sessions && t != sid && c.sessions[t].phase.Recording? ==>
              && c.sessions[t].phase.snap !in c.repo.snapshots
              && (c.sessions[sid].phase.Recording? ==> c.sessions[t].phase.snap != c.sessions[sid].phase.snap)
  {
    hide RepoOk, SessOk;
    PendingUnrecorded(c);
  }

  /** A growing step after which the session still shows the same device. */
  lemma QuietGrowStep(c: Cluster, d: Cluster, sid: Id)
    requires Inv(c)
    requires sid in c.sessions && sid in d.sessions
    requires d.caches == c.caches && d.sessions == c.sessions[sid := d.sessions[sid]]
    requires RepoExtends(c.repo, d.repo) && StoreExtends(c.store, d.store) && RepoOk(d.repo, d.store)
    requires SessOk(d.repo, d.store, d.sessions[sid])
    requires !d.sessions[sid].phase.Recording?
    requires Shown(d.repo, d.store, d.sessions[sid]) == Shown(c.repo, c.store, c.sessions[sid])
    requires forall t :: t in c.sessions && t != sid && c.sessions[t].phase.Recording? ==>
               c.sessions[t].phase.snap !in d.repo.snapshots
    ensures Inv(d)
    ensures Abs(d).sessions == Abs(c).sessions
    ensures Abs(c).sessions[sid] == Shown(c.repo, c.store, c.sessions[sid])
  {
    hide RepoOk, SessOk, Shown, VolumeContents, SnapshotContents;
    GrowStep(c, d, sid);
  }

  lemma UpdateLatestStep(c: Cluster, sid: Id, reported: bool)
    requires Inv(c) && sid in c.sessions && CallEnabled(c, c.sessions[sid], UpdateLatest(reported))
    ensures Refines(c, NextCall(c, sid, UpdateLatest(reported)), CallEffect(c, sid, UpdateLatest(reported)))
  {
    hide Inv, Refines, RepoOk, Shown, PointerOk, SessionOk, CommitReady, ToWire, SnapshotContent;
    SessionOf(c, sid);
    var s, d := c.sessions[sid], NextCall(c, sid, UpdateLatest(reported));
    PublishedSession(c.repo, c.store, s, d.repo, reported);
    PointStep(c, d, sid, s.state.volume.volumeId, s.phase.snap);
  }

  lemma PointStep(c: Cluster, d: Cluster, sid: Id, v: Id, snap: Id)
    requires Inv(c) && sid in c.sessions && sid in d.sessions
    requires v in c.repo.volumes && snap in c.repo.snapshots && SnapshotOk(c.repo, c.store, snap)
    requires c.repo.volumes[c.repo.snapshots[snap].volumeId].geometry == c.repo.volumes[v].geometry
    requires d == c.(sessions := c.sessions[sid := d.sessions[sid]], repo := d.repo)
    requires d.repo == c.repo.(volumes := c.repo.volumes[v := c.repo.volumes[v].(latest := Some(snap))])
    requires SessOk(c.repo, c.store, c.sessions[sid]) && SessOk(d.repo, d.store, d.sessions[sid])
    requires !d.sessions[sid].phase.Recording?
    requires Shown(d.repo, d.store, d.sessions[sid]) == Shown(c.repo, c.store, c.sessions[sid])
    requires SnapshotContent(c.repo, c.store, snap) == Shown(c.repo, c.store, c.sessions[sid])
    ensures Refines(c, d, Point(v, sid))
  {
    hide Inv, RepoOk, Shown, SessOk, SnapshotContent, SnapshotOk, VolumeContents, SnapshotContents, SessionContents;
    SessionOf(c, sid);
    RepoPoint(c.repo, c.store, d.repo, v, snap);
    OthersPending(c, sid);
    QuietGrowStep(c, d, sid);
    VolumeKeys(c);
  }

  /** The session goes away, and the record was updated all the same. */
  lemma LostUpdateLastNodeStep(c: Cluster, sid: Id)
    requires Inv(c) && sid in c.sessions && CallEnabled(c, c.sessions[sid], UpdateLastNode(false))
    ensures Refines(c, NextCall(c, sid, UpdateLastNode(false)), CallEffect(c, sid, UpdateLastNode(false)))
  {
    hide Inv, Abs;
    UpdateLastNodeStep(c, sid);
    CloseStep(NextCall(c, sid, UpdateLastNode(true)), NextCall(c, sid, UpdateLastNode(false)), {sid});
  }

  lemma UpdateLastNodeStep(c: Cluster, sid: Id)
    requires Inv(c) && sid in c.sessions && CallEnabled(c, c.sessions[sid], UpdateLastNode(true))
    ensures Refines(c, NextCall(c, sid, UpdateLastNode(true)), Nothing)
  {
    hide Inv, View, PointerOk, SessionOk, VolumeContents, SnapshotContents, SessionContents, SnapshotOk;
    SessionOf(c, sid);
    var s, d := c.sessions[sid], NextCall(c, sid, UpdateLastNode(true));
    RepoQuiet(c.repo, c.store, d.repo, d.store);
    hide RepoOk;
    PhaseStable(c.repo, c.store, d.repo, d.store, s);
    OthersPending(c, sid);
    QuietGrowStep(c, d, sid);
  }

  // ----- Failure, stopping and crashing -----

  lemma FailStep(c: Cluster, sid: Id)
    requires Inv(c) && sid in c.sessions && CallEnabled(c, c.sessions[sid], Fail)
    requires !c.sessions[sid].phase.Opening?
    ensures Refines(c, NextCall(c, sid, Fail), CallEffect(c, sid, Fail))
  {
    hide Inv, Refines, RepoOk, PointerOk, SessionOk, View, JobOk, CommitReady, ToWire;
    SessionOf(c, sid);
    QuietStep(c, NextCall(c, sid, Fail), sid);
  }

  /** Closing sessions, wherever they were, is invisible to all others. */
  lemma CloseStep(c: Cluster, d: Cluster, sids: set<Id>)
    requires Inv(c)
    requires d == c.(sessions := c.sessions - sids)
    ensures Refines(c, d, Close(sids))
  {
    hide RepoOk, SessOk, Shown, VolumeContents, SnapshotContents;
    assert Inv(d);
    assert Abs(d).sessions == Abs(c).sessions - sids;
  }

  // ----- Steps by nobody in particular -----

  lemma OpenedSession(repo: Repo, store: Store, s: Session, v: Id)
    requires RepoOk(repo, store) && v in repo.volumes
    requires s.state == SessionState(repo.volumes[v], repo.volumes[v].latest, map[], {}, map[])
    requires s.phase == Opening(if repo.volumes[v].latest.Some? then NeedSnapshot else NeedNode)
    ensures SessOk(repo, store, s)
    ensures Shown(repo, store, s) == LatestContent(repo, store, repo.volumes[v])
  {
    hide IsPrinted, Contents;
    EmptyContents(s.state.volume.geometry, store.chunks);
  }

  lemma GetVolumeStep(c: Cluster, e: Event)
    requires Inv(c) && e.GetVolume? && Enabled(c, e)
    ensures Refines(c, Next(c, e), Effect(c, e))
  {
    hide Inv, Refines, RepoOk, SessOk, Shown, LatestContent;
    var d := Next(c, e);
    SessionsOf(c);
    OpenedSession(c.repo, c.store, d.sessions[e.sid], e.v);
    OpenStep(c, d, e.sid, e.v);
  }

  lemma VolumeContentAt(c: Cluster, v: Id)
    requires Inv(c) && v in c.repo.volumes
    ensures v in Abs(c).volumes && Abs(c).volumes[v] == LatestContent(c.repo, c.store, c.repo.volumes[v])
  {
    hide SessOk, LatestContent, SnapshotContents, SessionContents;
  }

  lemma SessionsOf(c: Cluster)
    requires Inv(c)
    ensures RepoOk(c.repo, c.store)
  {
  }

  lemma OpenStep(c: Cluster, d: Cluster, sid: Id, v: Id)
    requires Inv(c) && sid !in c.sessions && v in c.repo.volumes && sid in d.sessions
    requires d == c.(sessions := c.sessions[sid := d.sessions[sid]])
    requires SessOk(c.repo, c.store, d.sessions[sid]) && !d.sessions[sid].phase.Recording?
    requires Shown(c.repo, c.store, d.sessions[sid]) == LatestContent(c.repo, c.store, c.repo.volumes[v])
    ensures Refines(c, d, Open(sid, v))
  {
    hide RepoOk, SessOk, Shown, VolumeContents, SnapshotContents, LatestContent;
    PendingUnrecorded(c);
    Frame(c, d, sid);
    VolumeContentAt(c, v);
    VolumeKeys(c);
    assert Abs(d).sessions == Abs(c).sessions[sid := Shown(c.repo, c.store, d.sessions[sid])];
  }

  /** A step of the repository alone that only adds records is invisible to every session. */
  lemma RepoStep(c: Cluster, d: Cluster)
    requires Inv(c)
    requires d == c.(repo := d.repo)
    requires RepoExtends(c.repo, d.repo) && RepoOk(d.repo, d.store)
    requires d.repo.snapshots == c.repo.snapshots
    ensures Inv(d)
    ensures Abs(d).sessions == Abs(c).sessions
  {
    hide RepoOk, SessOk, Shown;
    PendingUnrecorded(c);
    forall t | t in d.sessions
      ensures SessOk(d.repo, d.store, d.sessions[t])
      ensures Shown(d.repo, d.store, d.sessions[t]) == Shown(c.repo, c.store, c.sessions[t])
    {
      PhaseStable(c.repo, c.store, d.repo, d.store, c.sessions[t]);
    }
  }

  lemma CreateVolumeStep(c: Cluster, e: Event)
    requires Inv(c) && e.CreateVolume? && Enabled(c, e)
    ensures Refines(c, Next(c, e), Effect(c, e))
  {
    hide SessOk, VolumeContents, SnapshotContents, SnapshotOk, Contents;
    var d := Next(c, e);
    if e.v !in c.repo.volumes {
      RepoAddVolume(c.repo, c.store, d.repo, e.v);
      RepoStep(c, d);
      assert e.v !in Abs(c).volumes by { VolumeKeys(c); }
    }
  }

  lemma VolumeKeys(c: Cluster)
    requires Inv(c)
    ensures Abs(c).volumes.Keys == c.repo.volumes.Keys
    ensures Abs(c).snapshots.Keys == c.repo.snapshots.Keys
    ensures Abs(c).sessions.Keys == c.sessions.Keys
  {
    hide RepoOk, SessOk, Shown, LatestContent, SnapshotContent;
  }

  lemma CreateImageStep(c: Cluster, e: Event)
    requires Inv(c) && e.CreateImage? && Enabled(c, e)
    ensures Refines(c, Next(c, e), Effect(c, e))
  {
    hide SessOk, RepoOk, VolumeContents, SnapshotContents, SessionContents;
    var d := Next(c, e);
    AddedImage(c.repo, c.store, d.repo);
    RepoStep(c, d);
  }

  lemma ForkVolumeStep(c: Cluster, e: Event)
    requires Inv(c) && e.ForkVolume? && Enabled(c, e)
    ensures Refines(c, Next(c, e), Effect(c, e))
  {
    hide SessOk, VolumeContents, PointerOk, SnapshotOk, LatestContent, SnapshotContent;
    var d := Next(c, e);
    ForkedVolume(c.repo, c.store, d.repo, e.v, e.imageId);
    RepoAddVolume(c.repo, c.store, d.repo, e.v);
    RepoStep(c, d);
    assert e.v !in Abs(c).volumes && e.snap in Abs(c).snapshots by { VolumeKeys(c); }
  }

  lemma EvictStep(c: Cluster, e: Event)
    requires Inv(c) && e.Evict? && Enabled(c, e)
    ensures Refines(c, Next(c, e), Effect(c, e))
  {
    hide RepoOk, SessOk, Shown, VolumeContents, SnapshotContents;
    assert Abs(Next(c, e)).sessions == Abs(c).sessions;
  }

  // ----- All events -----

  lemma CallRefines(c: Cluster, sid: Id, call: Call)
    requires Inv(c) && sid in c.sessions && CallEnabled(c, c.sessions[sid], call)
    ensures Refines(c, NextCall(c, sid, call), CallEffect(c, sid, call))
  {
    hide Inv, Refines;
    match call
    case GetSnapshot => OpeningStep(c, sid, call);
    case LoadManifest(_) => OpeningStep(c, sid, call);
    case UpdateLastNode(reported) =>
      if reported {
        UpdateLastNodeStep(c, sid);
      } else {
        LostUpdateLastNodeStep(c, sid);
      }
    case BeginRead(_, _) => JobBoundaryStep(c, sid, call);
    case BeginWrite(_, _) => JobBoundaryStep(c, sid, call);
    case EndJob => JobBoundaryStep(c, sid, call);
    case ResolveLocal => ResolveLocalStep(c, sid);
    case CacheGet => CacheGetStep(c, sid);
    case StoreGet => StoreGetStep(c, sid);
    case CachePut(reported) => CachePutStep(c, sid, reported);
    case BeginCommit(indexes) => BeginCommitStep(c, sid, indexes);
    case StoreExists => StoreExistsStep(c, sid);
    case StorePut(reported) => StorePutStep(c, sid, reported);
    case CacheChunk(reported) => CacheChunkStep(c, sid, reported);
    case SaveManifest(snap, reported) => SaveManifestStep(c, sid, snap, reported);
    case CreateSnapshot(reported) => CreateSnapshotStep(c, sid, reported);
    case UpdateLatest(reported) => UpdateLatestStep(c, sid, reported);
    case RemoveFile(_) => ClearingStep(c, sid, call);
    case ClearOverlay => ClearingStep(c, sid, call);
    case Fail =>
      if c.sessions[sid].phase.Opening? {
        CloseStep(c, NextCall(c, sid, call), {sid});
      } else {
        FailStep(c, sid);
      }
    case Stop => CloseStep(c, NextCall(c, sid, call), {sid});
  }

  lemma CrashStep(c: Cluster, node: Id)
    requires Inv(c)
    ensures Refines(c, Next(c, Crash(node)), Effect(c, Crash(node)))
  {
    hide Inv, Refines;
    var sids := set t | t in c.sessions && c.sessions[t].node == node;
    assert Next(c, Crash(node)).sessions == c.sessions - sids;
    CloseStep(c, Next(c, Crash(node)), sids);
  }

  /** Every event keeps the invariant and is, flatly, exactly its effect. */
  lemma StepRefines(c: Cluster, e: Event)
    requires Inv(c) && Enabled(c, e)
    ensures Refines(c, Next(c, e), Effect(c, e))
  {
    hide Inv, Refines, CallEnabled, NextCall, CallEffect;
    match e
    case CreateVolume(_, _) => CreateVolumeStep(c, e);
    case CreateImage(_) => CreateImageStep(c, e);
    case ForkVolume(_, _, _) => ForkVolumeStep(c, e);
    case GetVolume(_, _, _) => GetVolumeStep(c, e);
    case By(sid, call) => CallRefines(c, sid, call);
    case Crash(node) => CrashStep(c, node);
    case Evict(_, _) => EvictStep(c, e);
  }
}
