/**
 The shared object store and metadata repository.
 */
module Stores {
  import opened Bytes
  import opened Volumes

  /** Keys hold immutable objects; there is no delete. */
  class ObjectStore {
    const reliable: bool
    var chunks: map<ChunkId, Bytes>
    var manifests: map<ManifestKey, WireManifest>

    constructor (reliable: bool)
      ensures this.reliable == reliable && State() == Store(map[], map[])
    {
      this.reliable := reliable;
      chunks, manifests := map[], map[];
    }

    ghost function State(): Store
      reads this
    {
      Store(chunks, manifests)
    }

    method GetChunk(id: ChunkId) returns (r: Result<Bytes>)
      ensures r.Ok? ==> id in chunks && r.value == chunks[id]
      ensures r.Err? ==> r.error == Io || (r.error == NotFound && id !in chunks)
      ensures reliable ==> r == if id in chunks then Ok(chunks[id]) else Err(NotFound)
    {
      var fails := OperationFails(reliable);
      if fails {
        return Err(Io);
      }
      r := if id in chunks then Ok(chunks[id]) else Err(NotFound);
    }

    method ChunkExists(id: ChunkId) returns (r: Result<bool>)
      ensures r.Ok? ==> r.value == (id in chunks)
      ensures reliable ==> r.Ok?
    {
      var fails := OperationFails(reliable);
      if fails {
        return Err(Io);
      }
      r := Ok(id in chunks);
    }

    /** May report failure although the object was stored. */
    method PutChunk(id: ChunkId, b: Bytes) returns (r: Result<()>)
      modifies this`chunks
      ensures r.Ok? ==> chunks == old(chunks)[id := b]
      ensures chunks == old(chunks) || chunks == old(chunks)[id := b]
      ensures reliable ==> r.Ok?
    {
      var lost := OperationFails(reliable);
      if lost {
        return Err(Io);
      }
      chunks := chunks[id := b];
      var unreported := OperationFails(reliable);
      r := if unreported then Err(Io) else Ok(());
    }

    method GetManifest(key: ManifestKey) returns (r: Result<WireManifest>)
      ensures r.Ok? ==> key in manifests && r.value == manifests[key]
      ensures reliable ==> r == if key in manifests then Ok(manifests[key]) else Err(NotFound)
    {
      var fails := OperationFails(reliable);
      if fails {
        return Err(Io);
      }
      r := if key in manifests then Ok(manifests[key]) else Err(NotFound);
    }

    method PutManifest(key: ManifestKey, w: WireManifest) returns (r: Result<()>)
      modifies this`manifests
      ensures r.Ok? ==> manifests == old(manifests)[key := w]
      ensures manifests == old(manifests) || manifests == old(manifests)[key := w]
      ensures reliable ==> r.Ok?
    {
      var lost := OperationFails(reliable);
      if lost {
        return Err(Io);
      }
      manifests := manifests[key := w];
      var unreported := OperationFails(reliable);
      r := if unreported then Err(Io) else Ok(());
    }
  }

  const DEFAULT_SIZE_BYTES := 10 * 1024 * 1024 * 1024
  const DEFAULT_CHUNK_SIZE := 4 * 1024 * 1024

  /** Zero sizes mean the defaults. */
  function WithDefaults(g: Geometry): Geometry {
    Geometry(if g.sizeBytes == 0 then DEFAULT_SIZE_BYTES else g.sizeBytes,
             if g.chunkSize == 0 then DEFAULT_CHUNK_SIZE else g.chunkSize)
  }

  class Repository {
    const reliable: bool
    var volumes: map<Id, Volume>
    var snapshots: map<Id, Snapshot>
    var images: map<Id, BaseImage>

    constructor (reliable: bool)
      ensures this.reliable == reliable && State() == Repo(map[], map[], map[])
    {
      this.reliable := reliable;
      volumes, snapshots, images := map[], map[], map[];
    }

    ghost function State(): Repo
      reads this
    {
      Repo(volumes, snapshots, images)
    }

    /** Creates the volume unless one of that name exists, and returns whichever is there. */
    method CreateVolume(v: Volume) returns (r: Result<Volume>)
      modifies this`volumes
      ensures r.Ok? ==> v.volumeId in volumes && r.value == volumes[v.volumeId]
      ensures v.volumeId in old(volumes) ==> volumes == old(volumes)
      ensures volumes == old(volumes) || volumes == old(volumes)[v.volumeId := v.(geometry := WithDefaults(v.geometry))]
      ensures reliable ==> r.Ok?
    {
      var lost := OperationFails(reliable);
      if lost {
        return Err(Io);
      }
      if v.volumeId !in volumes {
        volumes := volumes[v.volumeId := v.(geometry := WithDefaults(v.geometry))];
      }
      var unreported := OperationFails(reliable);
      r := if unreported then Err(Io) else Ok(volumes[v.volumeId]);
    }

    /** How the in-memory repository creates a volume: a record of that name is replaced. */
    method CreateVolumeInMemory(v: Volume) returns (r: Volume)
      modifies this`volumes
      ensures r == v.(geometry := WithDefaults(v.geometry)) && volumes == old(volumes)[v.volumeId := r]
    {
      r := v.(geometry := Geometry(if v.geometry.sizeBytes == 0 then DEFAULT_SIZE_BYTES else v.geometry.sizeBytes,
                                   if v.geometry.chunkSize == 0 then DEFAULT_CHUNK_SIZE else v.geometry.chunkSize));
      volumes := volumes[v.volumeId := r];
    }

    method GetVolume(id: Id) returns (r: Result<Volume>)
      ensures r.Ok? ==> id in volumes && r.value == volumes[id]
      ensures reliable ==> r == if id in volumes then Ok(volumes[id]) else Err(NotFound)
    {
      var fails := OperationFails(reliable);
      if fails {
        return Err(Io);
      }
      r := if id in volumes then Ok(volumes[id]) else Err(NotFound);
    }

    method UpdateLatestSnapshot(id: Id, snap: Id) returns (r: Result<()>)
      modifies this`volumes
      ensures r.Ok? ==> id in old(volumes) && volumes == old(volumes)[id := old(volumes)[id].(latest := Some(snap))]
      ensures volumes == old(volumes) ||
              (id in old(volumes) && volumes == old(volumes)[id := old(volumes)[id].(latest := Some(snap))])
      ensures reliable && id in old(volumes) ==> r.Ok?
    {
      var lost := OperationFails(reliable);
      if lost {
        return Err(Io);
      }
      if id !in volumes {
        return Err(NotFound);
      }
      volumes := volumes[id := volumes[id].(latest := Some(snap))];
      var unreported := OperationFails(reliable);
      r := if unreported then Err(Io) else Ok(());
    }

    method UpdateLastNode(id: Id, node: Id) returns (r: Result<()>)
      modifies this`volumes
      ensures r.Ok? ==> id in old(volumes) && volumes == old(volumes)[id := old(volumes)[id].(lastNode := node)]
      ensures volumes == old(volumes) ||
              (id in old(volumes) && volumes == old(volumes)[id := old(volumes)[id].(lastNode := node)])
      ensures reliable && id in old(volumes) ==> r.Ok?
    {
      var lost := OperationFails(reliable);
      if lost {
        return Err(Io);
      }
      if id !in volumes {
        return Err(NotFound);
      }
      volumes := volumes[id := volumes[id].(lastNode := node)];
      var unreported := OperationFails(reliable);
      r := if unreported then Err(Io) else Ok(());
    }

    /** Fails on a name that is already recorded. */
    method CreateSnapshot(snap: Snapshot) returns (r: Result<()>)
      modifies this`snapshots
      ensures r.Ok? ==> snap.snapshotId !in old(snapshots) && snapshots == old(snapshots)[snap.snapshotId := snap]
      ensures snapshots == old(snapshots) ||
              (snap.snapshotId !in old(snapshots) && snapshots == old(snapshots)[snap.snapshotId := snap])
      ensures reliable && snap.snapshotId !in old(snapshots) ==> r.Ok?
    {
      var lost := OperationFails(reliable);
      if lost || snap.snapshotId in snapshots {
        return Err(Io);
      }
      snapshots := snapshots[snap.snapshotId := snap];
      var unreported := OperationFails(reliable);
      r := if unreported then Err(Io) else Ok(());
    }

    method GetSnapshot(id: Id) returns (r: Result<Snapshot>)
      ensures r.Ok? ==> id in snapshots && r.value == snapshots[id]
      ensures reliable ==> r == if id in snapshots then Ok(snapshots[id]) else Err(NotFound)
    {
      var fails := OperationFails(reliable);
      if fails {
        return Err(Io);
      }
      r := if id in snapshots then Ok(snapshots[id]) else Err(NotFound);
    }
  }
}
