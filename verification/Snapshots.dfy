/**
 Snapshots as values: what the repository's records decode to, how that
 content moves when a snapshot is recorded, a pointer is moved or a volume is
 added, and why a finished commit decodes to what its session shows.
 */
module Snapshots {
  import opened Bytes
  import opened Wire
  import opened Volumes

  predicate StrictlyIncreasing(s: seq<int>) {
    forall i, j :: 0 <= i < j < |s| ==> s[i] < s[j]
  }

  // ----- Contents of all records -----

  /** What snapshot `snap` decodes to on the volume it was taken of. */
  ghost function SnapshotContent(repo: Repo, store: Store, snap: Id): Bytes
    requires SnapshotOk(repo, store, snap)
  {
    Decode(repo, store, snap, repo.volumes[repo.snapshots[snap].volumeId].geometry)
  }

  ghost function VolumeContents(repo: Repo, store: Store): map<Id, Bytes>
    requires RepoOk(repo, store)
  {
    map v | v in repo.volumes :: LatestContent(repo, store, repo.volumes[v])
  }

  ghost function SnapshotContents(repo: Repo, store: Store): map<Id, Bytes>
    requires RepoOk(repo, store)
  {
    map snap | snap in repo.snapshots :: SnapshotContent(repo, store, snap)
  }

  // ----- Growth of the repository -----

  /**
   The repository stays well-formed when store and repository grow, as long as
   every pointer that moved and every snapshot and image that was added is good.
   */
  lemma RepoGrows(ra: Repo, sa: Store, rb: Repo, sb: Store)
    requires RepoOk(ra, sa) && ChunksOk(sb.chunks)
    requires RepoExtends(ra, rb) && StoreExtends(sa, sb)
    requires forall v :: v in rb.volumes ==>
               && rb.volumes[v].volumeId == v
               && rb.volumes[v].geometry.Int64Sized()
               && (|| (v in ra.volumes && rb.volumes[v].latest == ra.volumes[v].latest)
                   || PointerOk(rb, sb, rb.volumes[v]))
    requires forall snap :: snap in rb.snapshots && snap !in ra.snapshots ==> SnapshotOk(rb, sb, snap)
    requires forall i :: i in rb.images && i !in ra.images ==>
               && rb.images[i].snapshotId in rb.snapshots
               && rb.snapshots[rb.images[i].snapshotId].volumeId == rb.images[i].volumeId
    ensures RepoOk(rb, sb)
    ensures forall v :: v in ra.volumes && rb.volumes[v].latest == ra.volumes[v].latest ==>
              LatestContent(rb, sb, rb.volumes[v]) == LatestContent(ra, sa, ra.volumes[v])
    ensures forall snap :: snap in ra.snapshots ==> SnapshotContent(rb, sb, snap) == SnapshotContent(ra, sa, snap)
  {
    hide IsPrinted, Contents;
    forall snap | snap in ra.snapshots
      ensures SnapshotOk(rb, sb, snap) && SnapshotContent(rb, sb, snap) == SnapshotContent(ra, sa, snap)
    {
      SnapshotStable(ra, sa, rb, sb, snap, ra.volumes[ra.snapshots[snap].volumeId].geometry);
    }
    forall v | v in ra.volumes && rb.volumes[v].latest == ra.volumes[v].latest
      ensures PointerOk(rb, sb, rb.volumes[v])
      ensures LatestContent(rb, sb, rb.volumes[v]) == LatestContent(ra, sa, ra.volumes[v])
    {
      PointerStable(ra, sa, rb, sb, ra.volumes[v]);
    }
  }

  /** Growth that moves no pointer and records no snapshot changes no content. */
  lemma RepoQuiet(ra: Repo, sa: Store, rb: Repo, sb: Store)
    requires RepoOk(ra, sa) && ChunksOk(sb.chunks)
    requires RepoExtends(ra, rb) && StoreExtends(sa, sb)
    requires rb.volumes.Keys == ra.volumes.Keys && rb.snapshots == ra.snapshots && rb.images == ra.images
    requires forall v :: v in rb.volumes ==> rb.volumes[v].volumeId == v && rb.volumes[v].latest == ra.volumes[v].latest
    ensures RepoOk(rb, sb)
    ensures VolumeContents(rb, sb) == VolumeContents(ra, sa)
    ensures SnapshotContents(rb, sb) == SnapshotContents(ra, sa)
  {
    hide PointerOk, SnapshotOk, SnapshotContent, LatestContent;
    RepoGrows(ra, sa, rb, sb);
  }

  lemma RepoRecord(repo: Repo, store: Store, rb: Repo, snap: Id)
    requires RepoOk(repo, store) && snap !in repo.snapshots
    requires snap in rb.snapshots && rb == repo.(snapshots := repo.snapshots[snap := rb.snapshots[snap]])
    requires SnapshotOk(rb, store, snap)
    ensures RepoExtends(repo, rb) && RepoOk(rb, store)
    ensures VolumeContents(rb, store) == VolumeContents(repo, store)
    ensures SnapshotContents(rb, store) == SnapshotContents(repo, store)[snap := SnapshotContent(rb, store, snap)]
  {
    hide PointerOk, SnapshotOk, SnapshotContent, LatestContent;
    RepoGrows(repo, store, rb, store);
  }

  lemma RepoPoint(repo: Repo, store: Store, rb: Repo, v: Id, snap: Id)
    requires RepoOk(repo, store) && v in repo.volumes && snap in repo.snapshots
    requires repo.volumes[repo.snapshots[snap].volumeId].geometry == repo.volumes[v].geometry
    requires rb == repo.(volumes := repo.volumes[v := repo.volumes[v].(latest := Some(snap))])
    ensures RepoExtends(repo, rb) && RepoOk(rb, store)
    ensures SnapshotContents(rb, store) == SnapshotContents(repo, store)
    ensures VolumeContents(rb, store) == VolumeContents(repo, store)[v := SnapshotContent(repo, store, snap)]
  {
    hide PointerOk, SnapshotOk, SnapshotContent, LatestContent, SnapshotContents, VolumeContents;
    RepoPointGrows(repo, store, rb, v, snap);
    MovedPointer(repo, store, rb, v, snap);
    hide RepoOk;
    NewContents(repo, store, rb, store, v);
  }

  lemma RepoPointGrows(repo: Repo, store: Store, rb: Repo, v: Id, snap: Id)
    requires RepoOk(repo, store) && v in repo.volumes && snap in repo.snapshots
    requires repo.volumes[repo.snapshots[snap].volumeId].geometry == repo.volumes[v].geometry
    requires rb == repo.(volumes := repo.volumes[v := repo.volumes[v].(latest := Some(snap))])
    ensures RepoExtends(repo, rb) && RepoOk(rb, store)
    ensures forall u :: u in repo.volumes && u != v ==>
              LatestContent(rb, store, rb.volumes[u]) == LatestContent(repo, store, repo.volumes[u])
    ensures forall s :: s in repo.snapshots ==> SnapshotContent(rb, store, s) == SnapshotContent(repo, store, s)
  {
    hide PointerOk, SnapshotOk, SnapshotContent, LatestContent;
    MovedPointer(repo, store, rb, v, snap);
    RepoGrows(repo, store, rb, store);
  }

  lemma NewContents(ra: Repo, sa: Store, rb: Repo, sb: Store, v: Id)
    requires RepoOk(ra, sa) && RepoOk(rb, sb)
    requires rb.volumes.Keys == ra.volumes.Keys + {v} && rb.snapshots.Keys == ra.snapshots.Keys
    requires forall u :: u in ra.volumes && u != v ==>
               LatestContent(rb, sb, rb.volumes[u]) == LatestContent(ra, sa, ra.volumes[u])
    requires forall snap :: snap in ra.snapshots ==> SnapshotContent(rb, sb, snap) == SnapshotContent(ra, sa, snap)
    ensures SnapshotContents(rb, sb) == SnapshotContents(ra, sa)
    ensures VolumeContents(rb, sb) == VolumeContents(ra, sa)[v := LatestContent(rb, sb, rb.volumes[v])]
  {
    hide RepoOk, SnapshotContent, LatestContent;
  }

  lemma MovedPointer(repo: Repo, store: Store, rb: Repo, v: Id, snap: Id)
    requires RepoOk(repo, store) && v in repo.volumes && snap in repo.snapshots
    requires repo.volumes[repo.snapshots[snap].volumeId].geometry == repo.volumes[v].geometry
    requires rb == repo.(volumes := repo.volumes[v := repo.volumes[v].(latest := Some(snap))])
    ensures PointerOk(rb, store, rb.volumes[v])
    ensures LatestContent(rb, store, rb.volumes[v]) == SnapshotContent(repo, store, snap)
  {
    hide PointerOk, IsPrinted, Contents;
    SnapshotStable(repo, store, rb, store, snap, repo.volumes[v].geometry);
    MovedPointerContent(repo, store, rb, v, snap);
  }

  lemma MovedPointerContent(repo: Repo, store: Store, rb: Repo, v: Id, snap: Id)
    requires SnapshotOk(repo, store, snap) && SnapshotOk(rb, store, snap)
    requires v in rb.volumes && rb.volumes[v].latest == Some(snap)
    requires repo.volumes[repo.snapshots[snap].volumeId].geometry == rb.volumes[v].geometry
    requires rb.volumes[rb.snapshots[snap].volumeId].geometry == rb.volumes[v].geometry
    requires Decode(rb, store, snap, rb.volumes[v].geometry) == Decode(repo, store, snap, rb.volumes[v].geometry)
    ensures PointerOk(rb, store, rb.volumes[v])
    ensures LatestContent(rb, store, rb.volumes[v]) == SnapshotContent(repo, store, snap)
  {
    hide Decode;
  }

  lemma RepoAddVolume(repo: Repo, store: Store, rb: Repo, v: Id)
    requires RepoOk(repo, store) && v !in repo.volumes
    requires v in rb.volumes && rb == repo.(volumes := repo.volumes[v := rb.volumes[v]])
    requires rb.volumes[v].volumeId == v && rb.volumes[v].geometry.Int64Sized()
    requires PointerOk(rb, store, rb.volumes[v])
    ensures RepoExtends(repo, rb) && RepoOk(rb, store)
    ensures SnapshotContents(rb, store) == SnapshotContents(repo, store)
    ensures VolumeContents(rb, store) == VolumeContents(repo, store)[v := LatestContent(rb, store, rb.volumes[v])]
  {
    hide PointerOk, SnapshotOk, SnapshotContent, LatestContent, SnapshotContents, VolumeContents;
    RepoGrows(repo, store, rb, store);
    hide RepoOk;
    NewContents(repo, store, rb, store, v);
  }

  lemma AddedImage(repo: Repo, store: Store, rb: Repo)
    requires RepoOk(repo, store) && RepoExtends(repo, rb)
    requires rb == repo.(images := rb.images)
    requires forall i :: i in rb.images && i !in repo.images ==>
               && rb.images[i].snapshotId in rb.snapshots
               && rb.snapshots[rb.images[i].snapshotId].volumeId == rb.images[i].volumeId
    ensures RepoOk(rb, store)
    ensures VolumeContents(rb, store) == VolumeContents(repo, store)
    ensures SnapshotContents(rb, store) == SnapshotContents(repo, store)
  {
    hide SnapshotOk, PointerOk, LatestContent, SnapshotContent;
    RepoGrows(repo, store, rb, store);
  }

  lemma ForkedVolume(repo: Repo, store: Store, rb: Repo, v: Id, imageId: Id)
    requires RepoOk(repo, store) && v !in repo.volumes && imageId in repo.images && v in rb.volumes
    requires rb == repo.(volumes := repo.volumes[v := rb.volumes[v]])
    requires rb.volumes[v] == Volume(v, repo.volumes[repo.images[imageId].volumeId].geometry,
                                     Some(repo.images[imageId].snapshotId), "")
    ensures PointerOk(rb, store, rb.volumes[v])
    ensures LatestContent(rb, store, rb.volumes[v]) == SnapshotContent(repo, store, repo.images[imageId].snapshotId)
  {
    hide IsPrinted, Contents;
    SnapshotStable(repo, store, rb, store, repo.images[imageId].snapshotId, rb.volumes[v].geometry);
  }

  // ----- A commit, from the session that makes it -----

  /** The overlay chunks at `indexes` exist and are stored. */
  predicate Stored(files: map<int, Bytes>, indexes: seq<int>, chunks: map<ChunkId, Bytes>) {
    forall i :: i in indexes ==> i in files && HashChunk(files[i]) in chunks
  }

  lemma StoredNext(files: map<int, Bytes>, done: seq<int>, i: int, a: Store, b: Store)
    requires Stored(files, done, a.chunks) && StoreExtends(a, b)
    requires i in files && HashChunk(files[i]) in b.chunks
    ensures Stored(files, done + [i], b.chunks)
  {
    assert forall j :: j in done + [i] ==> j in done || j == i;
  }

  lemma StoredBoth(files: map<int, Bytes>, done: seq<int>, more: seq<int>, a: Store, b: Store)
    requires Stored(files, done, a.chunks) && StoreExtends(a, b) && Stored(files, more, b.chunks)
    ensures Stored(files, done + more, b.chunks)
  {
  }

  lemma ExtendsTransitive(a: Store, b: Store, c: Store)
    requires StoreExtends(a, b) && StoreExtends(b, c)
    ensures StoreExtends(a, c)
  {
  }

  /** `m` is the finished manifest of the session's commit and everything it names is stored. */
  predicate CommitReady(s: SessionState, m: Manifest, chunks: map<ChunkId, Bytes>) {
    && Intact(s)
    && m == Committed(s.manifest, s.files)
    && (forall i :: i in s.files ==> HashChunk(s.files[i]) in chunks)
  }

  /** A saved and recorded manifest is a good snapshot that decodes to what the committing session shows. */
  lemma RecordedSnapshot(repo: Repo, store: Store, s: SessionState, m: Manifest, snap: Id)
    requires ChunksOk(store.chunks) && SessionOk(s, store.chunks)
    requires CommitReady(s, m, store.chunks)
    requires ManifestKey(snap) in store.manifests && store.manifests[ManifestKey(snap)] == ToWire(m)
    requires snap in repo.snapshots && repo.snapshots[snap] == Snapshot(snap, s.volume.volumeId, ManifestKey(snap))
    requires s.volume.volumeId in repo.volumes
    requires repo.volumes[s.volume.volumeId].geometry == s.volume.geometry
    ensures SnapshotOk(repo, store, snap)
    ensures SnapshotContent(repo, store, snap) == View(s, store.chunks)
    ensures SnapshotManifest(repo, store, snap) == m
  {
    hide ToWire, Contents;
    ManifestOfPrinted(m);
    CommittedContents(s.volume.geometry, s.files, s.manifest, store.chunks, map[]);
  }

  /** Adopting the committed manifest leaves the session showing the same device, its overlay now redundant. */
  lemma AdoptedManifest(s: SessionState, m: Manifest, chunks: map<ChunkId, Bytes>, snap: Id)
    requires ChunksOk(chunks) && SessionOk(s, chunks) && CommitReady(s, m, chunks)
    ensures
      var s' := s.(baseSnapshot := Some(snap), manifest := m);
      && SessionOk(s', chunks)
      && View(s', chunks) == View(s, chunks)
      && (forall i :: i in s'.files ==> i in s'.manifest && chunks[s'.manifest[i]] == s'.files[i])
  {
    hide Contents;
    CommittedContents(s.volume.geometry, s.files, s.manifest, chunks, s.files);
    forall i | i in s.files
      ensures i in m && chunks[m[i]] == s.files[i]
    {
      HashInjective(chunks[m[i]], s.files[i]);
    }
  }

  /** Dropping overlay files whose chunks the manifest already names is invisible. */
  lemma DroppedFiles(g: Geometry, files: map<int, Bytes>, m: Manifest, chunks: map<ChunkId, Bytes>,
                     left: map<int, Bytes>)
    requires ManifestOk(m, g, chunks)
    requires forall i :: i in files ==> i in m && chunks[m[i]] == files[i]
    requires forall i :: i in left ==> i in files && left[i] == files[i]
    ensures Contents(g, left, m, chunks) == Contents(g, files, m, chunks)
  {
    SameChunksSameContents(g, left, m, chunks, files, m, chunks);
  }

  /** Uploading chunks disturbs neither the repository nor the session. */
  lemma StoreGrew(repo: Repo, a: Store, b: Store, s: SessionState)
    requires RepoOk(repo, a) && SessionOk(s, a.chunks) && StoreExtends(a, b) && ChunksOk(b.chunks)
    ensures RepoOk(repo, b) && SessionOk(s, b.chunks)
    ensures View(s, b.chunks) == View(s, a.chunks)
  {
    hide PointerOk, SnapshotOk, VolumeContents, SnapshotContents, Contents, ManifestOk;
    SessionStable(s, a.chunks, b.chunks);
    RepoQuiet(repo, a, repo, b);
  }

  /** A good session on a volume of the repository. */
  ghost predicate Held(s: SessionState, repo: Repo, store: Store) {
    && SessionOk(s, store.chunks)
    && s.volume.volumeId in repo.volumes
    && repo.volumes[s.volume.volumeId].geometry == s.volume.geometry
  }

  /** Growth of store and repository leaves it good and showing the same device. */
  lemma HeldStable(s: SessionState, ra: Repo, sa: Store, rb: Repo, sb: Store)
    requires Held(s, ra, sa) && RepoExtends(ra, rb) && StoreExtends(sa, sb)
    ensures Held(s, rb, sb) && View(s, sb.chunks) == View(s, sa.chunks)
  {
    SessionStable(s, sa.chunks, sb.chunks);
  }

  /** The pointer of volume `v` names the complete snapshot `snap`, which decodes to `view`. */
  ghost predicate PublishedIn(repo: Repo, store: Store, v: Id, snap: Id, view: Bytes) {
    && v in repo.volumes
    && repo.volumes[v].latest == Some(snap)
    && SnapshotOk(repo, store, snap)
    && LatestContent(repo, store, repo.volumes[v]) == view
  }

  /**
   What a commit does to repository, store and session. Whatever happens, the
   session goes on showing the same device. On success its overlay is empty and
   the volume's latest snapshot is complete and decodes to that device. On
   failure so it is too, or no volume moved and the session is as it was.
   */
  ghost predicate CommitOutcome(ra: Repo, sa: Store, s: SessionState, rb: Repo, sb: Store, s': SessionState,
                                snap: Id, r: Result<Snapshot>)
  {
    && View(s', sb.chunks) == View(s, sa.chunks)
    && (r.Ok? ==>
          && r.value == Snapshot(snap, s.volume.volumeId, ManifestKey(snap))
          && s' == SessionState(s.volume, Some(snap), Committed(s.manifest, s.files), {}, map[]))
    && (|| PublishedIn(rb, sb, s.volume.volumeId, snap, View(s, sa.chunks))
        || (r.Err? && rb.volumes == ra.volumes && s' == s))
  }

  lemma RepoExtendsTransitive(a: Repo, b: Repo, c: Repo)
    requires RepoExtends(a, b) && RepoExtends(b, c)
    ensures RepoExtends(a, c)
  {
  }

  lemma ExtendsSelf(repo: Repo)
    ensures RepoExtends(repo, repo)
  {
  }

  lemma RecordedIsOk(repo: Repo, store: Store, snap: Id)
    requires RepoOk(repo, store) && snap in repo.snapshots
    ensures SnapshotOk(repo, store, snap)
  {
  }
}
