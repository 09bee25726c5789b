/**
 The invariant of the cluster and its reading as flat byte strings.
 */
module ClusterInvariant {
  import opened Bytes
  import opened Chunks
  import opened Wire
  import opened Volumes
  import opened Snapshots
  import opened Cluster

  // ----- Invariant -----

  predicate CacheOk(cache: Cache) {
    forall id :: id in cache ==> HashChunk(cache[id]) == id
  }

  predicate CachesOk(caches: map<Id, Cache>) {
    forall n :: n in caches ==> CacheOk(caches[n])
  }

  ghost predicate JobOk(s: Session, chunks: map<ChunkId, Bytes>)
    requires s.phase.Working? && SessionOk(s.state, chunks)
  {
    var g := s.state.volume.geometry;
    var job := s.phase.job;
    && g.chunkSize > 0 && g.Takes(job.offset, job.Length())
    && job.offset + job.Length() <= g.Size()
    && s.phase.k <= |SessionRanges(s)|
    && job.offset <= Reached(job.offset, SessionRanges(s), s.phase.k) <= job.offset + job.Length()
    && var n := Reached(job.offset, SessionRanges(s), s.phase.k) - job.offset;
    && (job.ReadJob? ==> job.got == View(s.state, chunks)[job.offset..job.offset + n])
    && (job.WriteJob? ==>
          && |job.before| == g.Size()
          && View(s.state, chunks) == Splice(job.before, job.offset, job.data[..n]))
    && (!s.phase.access.Lookup? ==> ResolvingRemote(s))
    && (s.phase.access.Fill? ==> s.phase.access.chunk == chunks[s.state.manifest[CurrentRange(s).index]])
  }

  ghost predicate PhaseOk(repo: Repo, store: Store, s: Session)
    requires SessionOk(s.state, store.chunks)
  {
    match s.phase
    case Opening(need) =>
      && s.state.files == map[] && s.state.dirty == {}
      && (!need.NeedNode? ==> s.state.volume.latest.Some? && s.state.volume.latest.value in repo.snapshots)
      && (need.NeedManifest? ==> need.key == repo.snapshots[s.state.volume.latest.value].manifestKey)
    case Idle => true
    case Working(_, _, _) => JobOk(s, store.chunks)
    case Uploading(indexes, next, m, step) =>
      && next <= |indexes|
      && StrictlyIncreasing(indexes)
      && (set i | i in indexes) == s.state.dirty
      && (forall j :: 0 <= j < next ==>
            indexes[j] in s.state.files && HashChunk(s.state.files[indexes[j]]) in store.chunks)
      && m == Committed(s.state.manifest, Overlay(s.state.files, indexes[..next]))
      && (step.CacheIt? ==> CommittingChunk(s, CacheIt) && HashChunk(CommitChunk(s)) in store.chunks)
    case Recording(m, snap) =>
      && CommitReady(s.state, m, store.chunks)
      && ManifestKey(snap) in store.manifests
      && store.manifests[ManifestKey(snap)] == ToWire(m)
      && snap !in repo.snapshots
    case Publishing(m, snap) =>
      && CommitReady(s.state, m, store.chunks)
      && ManifestKey(snap) in store.manifests
      && store.manifests[ManifestKey(snap)] == ToWire(m)
      && snap in repo.snapshots
      && repo.snapshots[snap] == Snapshot(snap, s.state.volume.volumeId, ManifestKey(snap))
    case Clearing =>
      forall i :: i in s.state.files ==> i in s.state.manifest && store.chunks[s.state.manifest[i]] == s.state.files[i]
  }

  ghost predicate SessOk(repo: Repo, store: Store, s: Session) {
    && s.state.volume.volumeId in repo.volumes
    && repo.volumes[s.state.volume.volumeId].geometry == s.state.volume.geometry
    && PointerOk(repo, store, s.state.volume)
    && SessionOk(s.state, store.chunks)
    && PhaseOk(repo, store, s)
  }

  /** No two commits in flight are about to record the same snapshot. */
  predicate DistinctSnapshots(sessions: map<Id, Session>) {
    forall a, b :: a in sessions && b in sessions && a != b
                   && sessions[a].phase.Recording? && sessions[b].phase.Recording? ==>
                     sessions[a].phase.snap != sessions[b].phase.snap
  }

  ghost predicate Inv(c: Cluster) {
    && RepoOk(c.repo, c.store)
    && CachesOk(c.caches)
    && (forall sid :: sid in c.sessions ==> SessOk(c.repo, c.store, c.sessions[sid]))
    && DistinctSnapshots(c.sessions)
  }

  ghost predicate Init(c: Cluster) {
    && c.store == Store(map[], map[])
    && c.repo == Repo(map[], map[], map[])
    && c.sessions == map[]
    && c.caches == map[]
  }

  // ----- Flat reading -----

  /** The device a session shows: while it is still starting, the content its volume record points at. */
  ghost function Shown(repo: Repo, store: Store, s: Session): Bytes
    requires SessOk(repo, store, s)
  {
    if s.phase.Opening? && !s.phase.need.NeedNode? then LatestContent(repo, store, s.state.volume)
    else View(s.state, store.chunks)
  }

  ghost function SessionContents(c: Cluster): map<Id, Bytes>
    requires Inv(c)
  {
    map sid | sid in c.sessions :: Shown(c.repo, c.store, c.sessions[sid])
  }

  ghost function Abs(c: Cluster): Flat
    requires Inv(c)
  {
    Flat(VolumeContents(c.repo, c.store), SnapshotContents(c.repo, c.store), SessionContents(c))
  }

  // ----- Framing -----

  lemma PhaseStable(ra: Repo, sa: Store, rb: Repo, sb: Store, s: Session)
    requires SessOk(ra, sa, s)
    requires RepoExtends(ra, rb) && StoreExtends(sa, sb)
    requires s.phase.Recording? ==> s.phase.snap !in rb.snapshots
    ensures SessOk(rb, sb, s)
    ensures Shown(rb, sb, s) == Shown(ra, sa, s)
  {
    hide ToWire, Contents;
    PointerStable(ra, sa, rb, sb, s.state.volume);
    SessionStable(s.state, sa.chunks, sb.chunks);
  }

  lemma PendingUnrecorded(c: Cluster)
    requires Inv(c)
    ensures forall t :: t in c.sessions && c.sessions[t].phase.Recording? ==>
              c.sessions[t].phase.snap !in c.repo.snapshots
  {
    hide RepoOk, SessionOk, PointerOk, CommitReady, ToWire;
  }

  /**
   A step by one session (or by none, if `sid` is not open afterwards) that only
   adds to store and repository keeps the invariant, and no other session sees it.
   */
  lemma Frame(c: Cluster, d: Cluster, sid: Id)
    requires Inv(c)
    requires RepoExtends(c.repo, d.repo) && StoreExtends(c.store, d.store) && RepoOk(d.repo, d.store)
    requires CachesOk(d.caches)
    requires forall t :: t in d.sessions && t != sid ==> t in c.sessions && d.sessions[t] == c.sessions[t]
    requires sid in d.sessions ==> SessOk(d.repo, d.store, d.sessions[sid])
    requires forall t :: t in d.sessions && t != sid && d.sessions[t].phase.Recording? ==>
               && d.sessions[t].phase.snap !in d.repo.snapshots
               && (sid in d.sessions && d.sessions[sid].phase.Recording? ==>
                     d.sessions[t].phase.snap != d.sessions[sid].phase.snap)
    ensures Inv(d)
    ensures forall t :: t in d.sessions && t != sid ==>
              Shown(d.repo, d.store, d.sessions[t]) == Shown(c.repo, c.store, c.sessions[t])
  {
    hide RepoOk, SessOk, Shown;
    forall t | t in d.sessions && t != sid
      ensures SessOk(d.repo, d.store, d.sessions[t])
      ensures Shown(d.repo, d.store, d.sessions[t]) == Shown(c.repo, c.store, c.sessions[t])
    {
      PhaseStable(c.repo, c.store, d.repo, d.store, c.sessions[t]);
    }
  }
}
