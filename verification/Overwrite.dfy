/**
 What becomes of volumes when creating one replaces a record of the same name,
 as the in-memory repository does.
 */
module Overwrites {
  import opened Bytes
  import opened Wire
  import opened Volumes
  import opened Stores
  import opened Snapshots

  ghost function Overwritten(repo: Repo, v: Volume): Repo {
    repo.(volumes := repo.volumes[v.volumeId := v])
  }

  /** Every volume that was there keeps its geometry, a good pointer and its content. */
  ghost predicate Keeps(repo: Repo, store: Store, rb: Repo)
    requires RepoOk(repo, store)
  {
    forall u :: u in repo.volumes ==>
      && u in rb.volumes
      && rb.volumes[u].geometry == repo.volumes[u].geometry
      && PointerOk(rb, store, rb.volumes[u])
      && LatestContent(rb, store, rb.volumes[u]) == LatestContent(repo, store, repo.volumes[u])
  }

  /** The new record says of the volume what the old one did. */
  ghost predicate SameVolume(repo: Repo, store: Store, before: Volume, after: Volume)
    requires PointerOk(repo, store, before)
  {
    && after.geometry == before.geometry
    && PointerOk(repo, store, after)
    && LatestContent(repo, store, after) == LatestContent(repo, store, before)
  }

  /**
   Replacing records keeps every volume exactly when there was no record of
   that name, or the old one had the same geometry and content.
   */
  lemma OverwriteKeeps(repo: Repo, store: Store, v: Volume)
    requires RepoOk(repo, store)
    ensures Keeps(repo, store, Overwritten(repo, v)) <==>
            v.volumeId !in repo.volumes || SameVolume(repo, store, repo.volumes[v.volumeId], v)
  {
    var rb := Overwritten(repo, v);
    if v.volumeId !in repo.volumes || v.geometry == repo.volumes[v.volumeId].geometry {
      forall u: Volume | PointerOk(repo, store, u)
        ensures PointerOk(rb, store, u) && LatestContent(rb, store, u) == LatestContent(repo, store, u)
      {
        UntouchedPointer(repo, store, v, u);
      }
      if v.volumeId in repo.volumes && PointerOk(rb, store, v) {
        BackToPointer(repo, store, v);
      }
    }
  }

  /** Growing by a record, or replacing one by another of the same geometry, leaves every good pointer good. */
  lemma UntouchedPointer(repo: Repo, store: Store, v: Volume, u: Volume)
    requires v.volumeId in repo.volumes ==> v.geometry == repo.volumes[v.volumeId].geometry
    requires PointerOk(repo, store, u)
    ensures PointerOk(Overwritten(repo, v), store, u)
    ensures LatestContent(Overwritten(repo, v), store, u) == LatestContent(repo, store, u)
  {
    hide SnapshotOk;
    PointerStable(repo, store, Overwritten(repo, v), store, u);
  }

  /** And undoing such a replacement does too. */
  lemma BackToPointer(repo: Repo, store: Store, v: Volume)
    requires v.volumeId in repo.volumes && v.geometry == repo.volumes[v.volumeId].geometry
    requires PointerOk(Overwritten(repo, v), store, v)
    ensures PointerOk(repo, store, v)
    ensures LatestContent(repo, store, v) == LatestContent(Overwritten(repo, v), store, v)
  {
    hide SnapshotOk;
    PointerStable(Overwritten(repo, v), store, repo, store, v);
  }

  /** If it does, and the new record is good itself, so is the whole repository. */
  lemma OverwriteGood(repo: Repo, store: Store, v: Volume)
    requires RepoOk(repo, store) && Keeps(repo, store, Overwritten(repo, v))
    requires v.geometry.Int64Sized() && PointerOk(Overwritten(repo, v), store, v)
    ensures RepoOk(Overwritten(repo, v), store)
  {
    hide SnapshotOk, LatestContent;
    RepoGrows(repo, store, Overwritten(repo, v), store);
  }

  /**
   Asked for a new volume, as the services do, it keeps an existing one only if
   that has the same geometry and reads all zeros.
   */
  lemma RecreateKeeps(repo: Repo, store: Store, id: Id, g: Geometry)
    requires RepoOk(repo, store)
    ensures Keeps(repo, store, Overwritten(repo, Volume(id, WithDefaults(g), None, ""))) <==>
            || id !in repo.volumes
            || (&& WithDefaults(g) == repo.volumes[id].geometry
                && LatestContent(repo, store, repo.volumes[id]) == Zeros(WithDefaults(g).Size()))
  {
    hide Keeps, RepoOk, SnapshotOk;
    if id in repo.volumes {
      GoodPointer(repo, store, id);
    }
    OverwriteKeeps(repo, store, Volume(id, WithDefaults(g), None, ""));
  }

  lemma GoodPointer(repo: Repo, store: Store, v: Id)
    requires RepoOk(repo, store) && v in repo.volumes
    ensures PointerOk(repo, store, repo.volumes[v])
  {
    hide PointerOk;
  }

  /**
   It does fail: a volume of one byte, committed with the byte 1, is created
   again. Its pointer is gone and it reads 0; and asked for with another chunk
   size, it strands a session that is open on it.
   */
  lemma RecreateLosesCommit() returns (repo: Repo, store: Store, s: SessionState)
    ensures RepoOk(repo, store) && "v" in repo.volumes && Held(s, repo, store) && s.volume.volumeId == "v"
    ensures LatestContent(repo, store, repo.volumes["v"]) == [1]
    ensures
      var again := Overwritten(repo, Volume("v", WithDefaults(Geometry(1, 1)), None, ""));
      && again.volumes["v"].latest.None?
      && LatestContent(again, store, again.volumes["v"]) == [0]
    ensures !Held(s, Overwritten(repo, Volume("v", WithDefaults(Geometry(1, 2)), None, "")), store)
  {
    hide ToWire, SnapshotOk, Contents, ManifestOf;
    var g := Geometry(1, 1);
    var chunk: Bytes := [1];
    var m := map[0 := HashChunk(chunk)];
    var v := Volume("v", g, Some("s"), "");
    s := SessionState(v, None, map[], {0}, map[0 := chunk]);
    store := Store(map[HashChunk(chunk) := chunk], map[ManifestKey("s") := ToWire(m)]);
    repo := Repo(map["v" := v], map["s" := Snapshot("s", "v", ManifestKey("s"))], map[]);
    assert Committed(map[], s.files) == m;
    RecordedSnapshot(repo, store, s, m, "s");
    OneByte(g, s.files, store.chunks);
    assert Zeros(1) == [0];
  }

  lemma OneByte(g: Geometry, files: map<int, Bytes>, chunks: map<ChunkId, Bytes>)
    requires g == Geometry(1, 1) && 0 in files && files[0] == [1]
    ensures Contents(g, files, map[], chunks) == [1]
  {
    var b := Contents(g, files, map[], chunks);
    assert |b| == 1 && b[0] == ByteAt(g, files, map[], chunks, 0);
  }
}
