# Orca Blocks: a verified model of the block-storage path

Orca Blocks is a content-addressed, copy-on-write, snapshotting block device.
Nodes with private caches share one object store and one metadata repository.
A session is a base manifest (chunk index to content hash) under an overlay of
dirty chunks; a commit uploads the dirty chunks, saves a manifest, records a
snapshot and moves the volume's latest pointer. An NBD server with sequential
read-ahead serves a session to a client.

The project models that path from chunk arithmetic up to the bytes on the
connection, and proves that everything below a session is invisible: whatever
manifests, overlays, caches, stores, read-ahead windows and other nodes do, a
session is one flat byte array, a snapshot is an immutable byte string, and the
server answers as if it held that array in memory, but for the exact exceptions
listed below.

Two ghost functions carry the meaning. `Volumes.View` is the byte string a
session shows; `Volumes.Decode` is the byte string a snapshot stands for.
Almost every contract is stated against these two.

## Main results

- **The cluster refines flat byte strings** (`ClusterTheorems.RunRefines`). A
  state machine whose steps are single store, repository and cache calls, with
  failures, lost replies, crashes and evictions between any two of them, does
  to volumes, snapshots and sessions exactly what a specification with one byte
  string per name does. From it follow: pointers always name complete
  snapshots, snapshots never change, sessions are isolated, the last pointer
  update wins, a starting session never sees a mixture. A commit that runs by
  itself has the outcome that the backend's method promises
  (`ClusterOutcomes.SoloCommitOutcome`).
- **The server refines a flat array** (`Servers.HandleRequests`,
  `Servers.ServeClient`). On every stream the replies are a trace over one
  array that only the client's writes change, whatever other nodes do between
  the requests. If nothing fails they are, byte for byte, those of a reference
  server over that array, through read-ahead, both cache tiers and the store,
  exactly when no request of a stated kind (below) is reached and the program
  does not crash; on which requests it may is stated too. An accepted
  disconnect that is to commit then leaves the array in the volume's latest
  snapshot and no session. If I/O fails, the client still reads back, from the
  bytes after the negotiation, one reply per request with its handle, and
  successful reads are true (`Servers.ServeClientThroughFailures`).
- **Commit preserves the view** (`Backends.Backend.CommitSession`,
  `Backends.Backend.CommitWithOptions`), on success and at every point of
  failure, for every batch size.
- **The cache is transparent**; memory keeps exactly the longest recency-ordered
  prefix that fits, and disk drops oldest files only as far as needed and never
  a directory (`Cache.LocalCache.Get`, `GetRange`, `Put`, `EvictLocked`).
- **The fetch bound** (`Backends.FetchBound`): with room in the cache, the
  fetches counted by all sessions are the chunks fetched plus the failed fills.
  A commit puts its chunks into the cache, and reading them back fetches nothing
  (`Clients.CommitThenRead`).
- **The formats mean what they should**, in bytes, digits and numbers, without
  the functions that write them: request headers and replies
  (`Nbd.AnswerOnWire`, `Exchanges.ExchangeOnWire`), the negotiation
  (`Handshake.NegotiationBytes`), and manifest keys (`Wire.FormatMeaning`,
  `Wire.ParseMeaning`).

## Where the source does not meet a stated property

- *Read-ahead agrees with direct reading.* False in three cases, and
  `Devices.StorageDevice.ReadAt` proves that there are no others. After at
  least one adjacent pair of reads, a third that continues them and straddles
  the end of the device is cut there instead of being refused (`Truncates`,
  shown by `Devices.ShortAnswer`). With a window in place, a read whose end
  overflows int64 when counted from the window passes the window test and then
  slices out of bounds, which is a panic (`Overflows`, shown by
  `Devices.WindowPanics`). And a valid read for which more is fetched panics if
  the fetch reaches a last chunk that ends past int64 (`FetchOverreaches`, shown
  by `Devices.PrefetchPanics`). Without I/O failures a read panics exactly if one
  of the last two holds, and else succeeds exactly if it is valid or cut.
- *The server answers as a flat array does.* False for requests whose end
  overflows int64, because the range test then passes: a flush is answered with
  success, a disconnect is accepted, a write or read gets an I/O error instead
  of a refusal, and a read may panic or, on a device that ends within 32 MiB of
  2^63, be cut. `Exchanges.OddRequests` gives two such requests. False also
  where the program panics on a request in range: on reads and writes whose last
  chunk ends past int64 (`Unfit`), and, with read-ahead, on reads for which as
  much could be fetched (`MayCrash`). `Exchanges.TraceIsServe` proves that
  without I/O failures the bytes sent are the reference's exactly on the streams
  on which no overflowing request is reached and no panic occurs.
  `Exchanges.PlainNeverCrashes` proves that there is no panic on such streams if
  all chunk ends of the volume are int64 values, and `Exchanges.CrashesOnUnfit`
  that without read-ahead there is one exactly if an unfit request is reached.
- *Chunk ranges are right whenever no error is returned.* False when the end of
  the last chunk exceeds int64: `Chunks.ChunkIndexes` says exactly what is
  returned then, and `Chunks.LastChunkOverflows` gives an input. A read of such a
  range panics in its last chunk, and all others do not
  (`Backends.Backend.Read`); `Volumes.AddressableExact` says which volumes have
  such ranges.
- *A write changes no byte outside its range.* False for a write of such a range
  from a slice with spare capacity, because the program slices past its length:
  if the capacity reaches to the end of the last chunk, the bytes there
  overwrite the rest of the volume, and if not, the write panics before its last
  chunk. `Backends.Backend.Write` takes the bytes of the spare capacity as a
  parameter and states all three outcomes; `Volumes.SpillExact` says when
  spilling does no harm, and `Volumes.SpillOverwrites` gives an input. The block-device server passes slices without spare capacity. Two other
  callers do not: the import passes the front of its buffer
  (`cmd/base-image-service/main.go:543-554`), and the HTTP write handler what it
  has read of a body (`cmd/node-service/main.go:365-370`). The import therefore
  never panics on a positive chunk size, and lays the end of its buffer over the
  volume after such a file (`Clients.Laid`), which a volume of the file's own
  size does not show (`Clients.ImportFresh`).
- *While the cache has room, no chunk is fetched twice.* False after a failed
  fill: `Backends.RefetchAfterFailedFill`. `Backends.FetchBound` gives the exact
  count and when the plain bound holds.
- *Loading a manifest and printing it again is the identity.* False for keys
  such as "+1": `Wire.WireCanonical` proves it for exactly the canonical wire
  forms, and `Wire.PlusOneLoads` gives an input.
- *The in-memory repository creates a volume if absent.* It overwrites
  (`pkg/storage/mem.go:36`); the Postgres repository does not
  (`pkg/storage/postgres.go:95-116`), and the rest of the model follows that one.
  `Overwrites.OverwriteKeeps` proves that overwriting keeps every volume exactly
  if the name was absent or the old record had that geometry and content, and
  `Overwrites.RecreateLosesCommit` gives a committed volume that is lost.

## Assumptions

- SHA-256 has no collisions: a chunk identifier is a free constructor over the
  chunk's bytes.
- UUIDs are fresh: a new snapshot name is on no manifest and no record
  (`FreshName`), a new session name is not in use.
- JSON is the identity on maps from strings to strings.
- Every store, repository and file operation may fail at any time; an operation
  with an effect may take effect and still report failure. `reliable` constants
  turn this off, so that success can be promised as well as correctness. A failed
  write of an overlay file leaves the file as it was.
- A panic ends the program; it is an outcome of its own (`Panic`, `Crashed`).
- The server's payload slice, made with a length, has no capacity beyond it
  (`pkg/nbd/server.go:239`).
- Operations on one session are serial. Operations of different sessions and
  nodes interleave freely in the cluster model.
- Clocks, fresh names and the set of export names are parameters.

## Files

| file | contents |
|---|---|
| `Bytes.dfy` | byte strings, splicing, big-endian integers, results |
| `Chunks.dfy`, `Wire.dfy` | chunk arithmetic in int64; manifests on the wire |
| `Volumes.dfy`, `Snapshots.dfy` | what manifests, overlays and records mean as byte strings |
| `Stores.dfy`, `Overwrite.dfy`, `Cache.dfy` | object store and repository; replacing records; two-tier cache |
| `Backend.dfy` | sessions: start, read, write, commit, stop |
| `Device.dfy`, `Nbd.dfy`, `Handshake.dfy` | read-ahead, protocol and reference server, negotiation |
| `Exchange.dfy`, `Server.dfy` | what the request loop may do, compared with the reference; the loop itself |
| `Cluster.dfy`, `ClusterInvariant.dfy`, `ClusterSteps.dfy`, `ClusterTheorems.dfy` | many nodes, interleaved |
| `ClusterOutcomes.dfy` | the cluster's operations against the backend's contracts |
| `FileDevice.dfy`, `Import.dfy` | the chunk-mode file device; import and cross-node use |

## Model

| member | source | states |
|---|---|---|
| Chunks.ChunkIndexes | pkg/storage/types.go:76-111 | with wrapping int64 arithmetic: the error cases exactly, the exact ranges returned, and that they are the true ones if and only if the end of the last chunk is representable |
| Chunks.RangeFacts | pkg/storage/types.go:76-111 | each range is non-empty, lies in its own chunk at `chunkStart`, one per consecutive chunk, and begins where its predecessor ended |
| Chunks.RangesPartition | pkg/storage/types.go:76-111 | over any byte string the ranges gather exactly the requested slice |
| Chunks.WrapMeaning | pkg/storage/types.go:76-111 | 64-bit truncation is the only int64 value that differs by a multiple of 2^64 |
| Chunks.FitsWhenRoomAbove | pkg/storage/types.go:90-109 | the bound under which no int64 intermediate overflows |
| Chunks.WrappedRangeExact | pkg/storage/types.go:98-109 | a range computed with wrap-around is the true one while the end of its chunk fits, and after that its end is 2^64 short |
| Chunks.MachineRangeFacts | pkg/storage/types.go:98-109 | what the program takes the length of each returned range to be: the true one, or, for a last range that does not fit, up to the end of its chunk |
| Chunks.LastChunkOverflows | pkg/storage/types.go:98-109 | a concrete request whose range goes wrong |
| Volumes.AddressableExact | pkg/storage/types.go:76-111 | every request in a volume can be cut into ranges if and only if the end of its last chunk is an int64 value |
| Volumes.LongerOverreaches | pkg/storage/types.go:76-111 | a longer request from the same offset overreaches if a shorter one does |
| Wire.ParseOfFormat | pkg/storage/types.go:113-131 | parsing inverts printing on exactly the int64 values, signs and bounds included |
| Wire.FormatInjective | pkg/storage/types.go:113-119 | different indexes print differently, so entries never merge |
| Wire.ParseDigitsMeaning | pkg/storage/types.go:121-131 | a string of digits means the sum of each digit times ten to the power of its place, and no other string means anything |
| Wire.FormatMeaning | pkg/storage/types.go:113-119 | what is printed for an index is its decimal spelling, with a minus sign if negative and no leading zeros, and nothing else is |
| Wire.ParseMeaning | pkg/storage/types.go:121-131 | a key is read as `k` if and only if it is at most one sign and at least one digit whose decimal value with that sign is `k`, and that fits 64 bits |
| Wire.WireMeaning | pkg/storage/types.go:113-119 | the wire form has each entry under the decimal spelling of its index, and no other entry |
| Wire.LoadsMeaning | pkg/storage/types.go:121-131 | which manifests a wire form may load as, in terms of the numbers that its keys denote |
| Wire.ManifestToWire | pkg/storage/types.go:113-119 | the loop builds the printed form of the whole manifest: each entry under the decimal spelling of its index, and no other |
| Wire.ManifestFromWire | pkg/storage/types.go:121-131 | it succeeds exactly when every key denotes an int64 number in decimal, and yields each chunk that a key denotes, with the entry of such a key, and no other |
| Wire.WireRoundTrip | pkg/storage/types.go:113-131 | the wire form of an int64-keyed manifest loads as that manifest and as nothing else |
| Wire.WireCanonical | pkg/storage/types.go:113-131 | load-then-print is the identity exactly on canonical wire forms |
| Wire.PlusOneLoads | pkg/storage/types.go:121-131 | a wire form that loads but does not print back |
| Volumes.RangeOfContents | pkg/storage/backend.go:140-150 | the part of a chunk that a range names is that range of the device |
| Volumes.PatchedContents | pkg/storage/backend.go:168-188 | patching one chunk into the overlay splices the patch into the device and changes no other byte |
| Volumes.ReadNext | pkg/storage/backend.go:140-150 | one round of a read extends what has been read by exactly the next range |
| Volumes.ReadingRound | pkg/storage/backend.go:140-150 | one round with the range int64 arithmetic gives: it adds exactly the next range, or overruns the buffer, and then the request does not fit |
| Volumes.WritePatch | pkg/storage/backend.go:168-188 | patching the next chunk splices the next part of the data into the device |
| Volumes.WriteNext | pkg/storage/backend.go:168-188 | one round of a write applies exactly the next part of the data |
| Volumes.WritingRound | pkg/storage/backend.go:168-188 | the next round with the range int64 arithmetic gives carries out one range more, or asks for more bytes than are left exactly if the range overruns |
| Volumes.SpillContents | pkg/storage/backend.go:168-188 | patching a last chunk to its end, past the end of the volume, overwrites the volume from the patch on with the front of it and changes nothing before |
| Volumes.ProgressRound | pkg/storage/backend.go:168-188 | the next round, for a slice of any spare capacity: it carries out one range more or spills, or asks for more than the capacity exactly if the range overruns and does not spill |
| Volumes.SpillOverwrites | pkg/storage/backend.go:168-188 | one byte written at 2^63-64, from a slice with capacity for a chunk, overwrites the 62 bytes after it |
| Volumes.SpillExact | pkg/storage/backend.go:168-188 | a write that spills leaves all other bytes alone if and only if the rest of the volume already reads as the spare bytes |
| Volumes.NoSpareNoSpill | pkg/nbd/server.go:239 | a slice without spare capacity never spills |
| Volumes.AppliedAll | pkg/storage/backend.go:154-190 | with all ranges done the whole of the data is in place |
| Volumes.WriteDone | pkg/storage/backend.go:154-190 | a write that fits and reports success has spliced in the whole of its data and nothing else |
| Volumes.CommittedContents | pkg/storage/backend.go:222-262 | once the overlay's chunks are stored, the committed manifest alone shows the device, with any part of the overlay still on top |
| Volumes.ContentsStable | pkg/storage/mem.go:180-186 | a growing store leaves every well-formed device as it was |
| Volumes.LoadedManifest | pkg/storage/backend.go:434-444 | loading what was saved yields the snapshot's manifest and nothing else |
| Volumes.SnapshotStable | pkg/storage/backend.go:246-260 | a snapshot stays complete and decodes the same while store and repository grow |
| Snapshots.RepoGrows | pkg/storage/backend.go:246-260 | growth that adds only good snapshots and pointers keeps the repository good and all old contents the same |
| Snapshots.RepoRecord | pkg/storage/backend.go:252-256 | recording a snapshot adds its content and changes no volume and no other snapshot |
| Snapshots.RepoPoint | pkg/storage/backend.go:258-260 | moving a pointer gives the volume the snapshot's content and changes nothing else |
| Snapshots.RecordedSnapshot | pkg/storage/backend.go:246-256 | a saved and recorded manifest is a complete snapshot that decodes to what the committing session shows |
| Snapshots.AdoptedManifest | pkg/storage/backend.go:261-262 | adopting the committed manifest leaves the view alone and makes the overlay redundant |
| Snapshots.DroppedFiles | pkg/storage/backend.go:533-542 | dropping overlay files the manifest already names is invisible, one file at a time |
| Snapshots.HeldStable | pkg/storage/backend.go:196-269 | growth of store and repository leaves every session good and showing the same device |
| Snapshots.ForkedVolume | cmd/control-service/main.go:352-364 | a forked volume's pointer is good and its content is the image's snapshot |
| Stores.ObjectStore.GetChunk | pkg/storage/mem.go:188-196 | the stored bytes, a missing object, or a failure; exact when reliable |
| Stores.ObjectStore.ChunkExists | pkg/storage/mem.go:198-203 | whether the object is there |
| Stores.ObjectStore.PutChunk | pkg/storage/mem.go:180-186 | the object is stored on success and possibly on reported failure |
| Stores.ObjectStore.GetManifest | pkg/storage/mem.go:188-196 | the saved wire form, or not found |
| Stores.ObjectStore.PutManifest | pkg/storage/mem.go:180-186 | the wire form is stored on success and possibly on reported failure |
| Stores.Repository.CreateVolume | pkg/storage/postgres.go:95-116 | creates with defaults if absent, returns whichever record is there, never replaces one |
| Stores.Repository.GetVolume | pkg/storage/mem.go:40-48 | the record, or not found |
| Stores.Repository.UpdateLatestSnapshot | pkg/storage/mem.go:50-60 | moves the pointer of that volume only; possibly on reported failure |
| Stores.Repository.UpdateLastNode | pkg/storage/mem.go:62-72 | sets the last node of that volume only |
| Stores.Repository.CreateSnapshot | pkg/storage/postgres.go:154-162 | records a new name; a recorded one is never replaced |
| Stores.Repository.GetSnapshot | pkg/storage/mem.go:81-89 | the recorded snapshot, or not found |
| Stores.Repository.CreateVolumeInMemory | pkg/storage/mem.go:27-38 | replaces whatever record of that name was there, with defaults |
| Overwrites.OverwriteKeeps | pkg/storage/mem.go:27-38 | replacing records keeps the geometry, pointer and content of every volume if and only if the name was absent or the old record had that geometry and content |
| Overwrites.OverwriteGood | pkg/storage/mem.go:27-38 | and then the repository stays good |
| Overwrites.RecreateKeeps | pkg/storage/backend.go:73-82 | creating an existing volume anew keeps it if and only if it has that geometry and reads all zeros |
| Overwrites.RecreateLosesCommit | pkg/storage/mem.go:27-38 | a committed volume whose pointer and content are lost, and an open session left without its geometry |
| Cache.BijectionMeaning | pkg/storage/cache.go:194-212 | map and list hold the same chunks, each under its own id, once |
| Cache.FrontFacts | pkg/storage/cache.go:194-212 | putting a chunk in front keeps map and list in step and the byte count exact |
| Cache.FittingIsLongest | pkg/storage/cache.go:214-226 | eviction leaves a prefix that fits, and no longer prefix fits |
| Cache.FittingKeepsFront | pkg/storage/cache.go:194-226 | eviction keeps the chunk just put |
| Cache.WithoutMeaning | pkg/storage/cache.go:194-212 | taking a chunk out of the list cuts out its place and leaves the others in their order |
| Cache.FrontedMeaning | pkg/storage/cache.go:194-226 | a put leaves the chunk in front of the old list less its id, cut to the longest prefix that fits; with room for all, every chunk stays |
| Cache.SortByModTime | pkg/storage/cache.go:281 | all listed files, once each, oldest first |
| Cache.ListFiles | pkg/storage/cache.go:260-280 | directories are passed over; the items are all chunk files with their sizes and times, and the total is the sum of their sizes |
| Cache.RemovedEnough | pkg/storage/cache.go:281-292 | removing from the old end until the rest fits removes only older files, and the last removal was needed |
| Cache.EvictionRound | pkg/storage/cache.go:282-291 | one removal takes the oldest file left, was needed, and keeps the running total exact |
| Cache.PutCoherent | pkg/storage/cache.go:106-137 | a chunk put under its own hash keeps every entry of both tiers true, and a cache with room for all it was given loses nothing |
| Cache.LookupCoherent | pkg/storage/cache.go:61-104 | looking a chunk up keeps every entry of both tiers true |
| Cache.LocalCache.constructor | pkg/storage/cache.go:45-59 | the default size; a cache over an existing directory of true chunks is coherent |
| Cache.LocalCache.GetMemory | pkg/storage/cache.go:160-170 | the entry, moved to the front |
| Cache.LocalCache.GetMemoryRange | pkg/storage/cache.go:172-186 | the zero-padded slice of the entry, moved to the front |
| Cache.LocalCache.EvictMemoryLocked | pkg/storage/cache.go:214-226 | terminates; the list becomes its longest prefix that fits, map, byte count and eviction count with it |
| Cache.LocalCache.PutMemoryLocked | pkg/storage/cache.go:194-212 | too large a chunk changes nothing; else the list is the longest prefix that fits of the chunk followed by the old list less its id, every chunk dropped is counted, and if the old bytes and the chunk fit together none is |
| Cache.LocalCache.Touch | pkg/storage/cache.go:228-233 | sets that file's time or, if that fails, nothing |
| Cache.LocalCache.Get | pkg/storage/cache.go:61-77 | returns what memory, then disk, holds; a hit moves its chunk to the front, a chunk from disk is put in front and its file touched |
| Cache.LocalCache.GetRange | pkg/storage/cache.go:79-104 | returns the zero-padded slice of what `Get` would, whichever tier answers |
| Cache.LocalCache.Put | pkg/storage/cache.go:106-137 | disk stays within its bound by dropping oldest files, each counted; memory is the longest prefix that fits of the chunk followed by what was there, and all of it if it fits; no entry is ever wrong |
| Cache.LocalCache.ReadDir | pkg/storage/cache.go:260-263 | every chunk file and every directory, once |
| Cache.LocalCache.Remove | pkg/storage/cache.go:286-288 | removes that file, or an empty directory, and nothing else |
| Cache.LocalCache.EvictLocked | pkg/storage/cache.go:254-293 | only oldest files go, only as many as needed, each counted; no directory, and so no overlay, is touched |
| Backends.SortedIndexes | pkg/storage/backend.go:206-211 | the dirty indexes, each once, strictly increasing |
| Backends.Session.ReadDirtyChunk | pkg/storage/backend.go:478-484 | the overlay file padded to a chunk; longer files are refused |
| Backends.Session.ReadDirtyRange | pkg/storage/backend.go:486-502 | the zero-padded slice of the overlay file |
| Backends.Session.WriteDirtyChunk | pkg/storage/backend.go:504-506 | replaces that file or leaves all files alone |
| Backends.Session.ClearDirtyOverlay | pkg/storage/backend.go:533-542 | empties the overlay, or fails having lost some of its files and no index |
| Backends.Backend.constructor | pkg/storage/backend.go:63-71 | a node over any good repository and coherent cache is valid |
| Backends.Backend.FetchChunk | pkg/storage/backend.go:378-395 | the stored chunk padded, and then the cache has been given it; zeros if missing, counted as a zero-fill; an error if too long; counters and the tally of fetches follow |
| Backends.Backend.FillCache | pkg/storage/backend.go:391-394 | a fetched chunk is put into the cache, and the fetch is entered as filled exactly if that succeeds |
| Backends.Backend.ResolveMapped | pkg/storage/backend.go:370-395 | a chunk of the manifest is exactly the stored object; if the cache has it, it is counted as a hit and nothing is fetched, and if not, as a miss and a fetch after which the cache has been given it |
| Backends.Backend.ResolveMappedRange | pkg/storage/backend.go:406-431 | the same for part of a chunk |
| Backends.Backend.ResolveChunk | pkg/storage/backend.go:362-396 | overlay, then cache, then store, then zeros: the chunk the session shows; nothing counts for the overlay, a chunk in no manifest is a zero-fill, and a chunk in a cache with room is not fetched |
| Backends.Backend.ResolveChunkRange | pkg/storage/backend.go:398-432 | the same for part of a chunk |
| Backends.Backend.KnownIsFound | pkg/storage/backend.go:362-432 | a cache with room for all it was given finds every chunk it was given |
| Backends.Backend.ReadRanges | pkg/storage/backend.go:140-152 | the loop returns exactly the slice of the view, or panics exactly if the last range overruns the buffer; it asks for each chunk outside the overlay once, and fetches nothing if all are known |
| Backends.Backend.ReadSession | pkg/storage/backend.go:133-152 | the range checks and the loop on int64, for volumes of any int64 sizes |
| Backends.Backend.Read | pkg/storage/backend.go:128-152 | returns exactly `View[offset..offset+length]`, changes no session state, succeeds only on a range truly inside the volume, wrap-around included, and panics exactly on ranges in the volume that do not fit; it misses and fetches nothing if every chunk it touches is dirty, in no manifest, or was given to a cache with room |
| Backends.Backend.WriteOneChunk | pkg/storage/backend.go:168-188 | the materialised chunk, patched, is in the overlay; on failure nothing changed; asking for more bytes than the slice's capacity holds is a panic |
| Backends.Backend.WriteRanges | pkg/storage/backend.go:168-190 | stopping after any number of ranges leaves exactly those applied; a last range that does not fit spills or panics, by capacity |
| Backends.Backend.WriteSession | pkg/storage/backend.go:159-190 | the range checks and the loop on int64, for volumes of any int64 sizes and slices of any spare capacity |
| Backends.Backend.Write | pkg/storage/backend.go:154-190 | a range that fits: splices the data into the view and changes no other byte, and a failed write has applied exactly the preceding ranges; one that does not: without failures it spills to the end of the volume exactly if the capacity reaches the end of its last chunk, and else panics after all but the last range; out of range: refused |
| Backends.Backend.CommitChunk | pkg/storage/backend.go:299-318 | the chunk is stored under its hash and then given to the cache, never the other way round, and counted as uploaded exactly if it was not there |
| Backends.Backend.ReadBatch | pkg/storage/backend.go:287-297 | the batch's overlay chunks, whole and in order |
| Backends.Backend.CommitLoaded | pkg/storage/backend.go:299-320 | the manifest is overridden at exactly the batch's indexes; uploads equal new objects even with equal chunks in one batch; the cache has been given exactly the batch's chunks |
| Backends.Backend.CommitDirtyBatch | pkg/storage/backend.go:278-321 | the same for a batch from overlay to store |
| Backends.Backend.UploadDirty | pkg/storage/backend.go:201-244 | for every batch size the manifest is the base overridden at exactly the dirty indexes, uploaded plus skipped is the number of dirty chunks, uploaded is the number of new objects, and the cache has been given exactly the dirty chunks |
| Backends.Backend.SaveManifest | pkg/storage/backend.go:446-452 | the wire form of the manifest is stored and nothing else changes |
| Backends.Backend.RecordSnapshot | pkg/storage/backend.go:252-256 | the recorded snapshot decodes to the session's view |
| Backends.Backend.PointAt | pkg/storage/backend.go:258-260 | only that pointer moves, possibly on reported failure, and then to the snapshot's content |
| Backends.Backend.Publish | pkg/storage/backend.go:246-260 | if the pointer moved at all it names a complete snapshot that decodes to the session's view |
| Backends.Backend.AdoptAndClear | pkg/storage/backend.go:261-266 | the view is the same before, during and after, even if clearing fails |
| Backends.Backend.FinishCommit | pkg/storage/backend.go:246-268 | the part of a commit after the uploads |
| Backends.Backend.CommitSession | pkg/storage/backend.go:196-269 | the view is preserved always; on success the overlay is empty, the pointer decodes to the view, and the cache has been given exactly the committed chunks; on failure either nothing visible changed or the pointer decodes to the view |
| Backends.Backend.CommitWithOptions | pkg/storage/backend.go:196-269 | the same by session id; no counter of the session moves, and no other session of the node sees anything |
| Backends.Backend.CreateVolume | pkg/storage/backend.go:73-82 | for any int64 sizes: an existing volume is returned untouched; a new one is empty, of 10 GiB if the size is zero and in chunks of 4 MiB if the chunk size is |
| Backends.Backend.LoadBase | pkg/storage/backend.go:88-99 | the loaded manifest shows exactly the volume's latest content |
| Backends.Backend.OpenSession | pkg/storage/backend.go:84-116 | a new session shows the content its volume record points at |
| Backends.Backend.NoteLastNode | pkg/storage/backend.go:118-124 | the last node is noted and no content changes |
| Backends.Backend.FinishStart | pkg/storage/backend.go:115-125 | the session is entered once the node is noted, and not at all if that fails |
| Backends.Backend.StartSession | pkg/storage/backend.go:84-126 | the session shows the volume's latest content with an empty overlay and is based on that snapshot; on failure there is no session |
| Backends.Backend.FlushDirty | pkg/storage/backend.go:344-350 | succeeds only if every dirty chunk has its file |
| Backends.Backend.Stop | pkg/storage/backend.go:323-332 | the session is gone, all others are as they were |
| Backends.Backend.GrownAround | pkg/storage/backend.go:196-269 | whatever other nodes add, this node stays valid and its sessions show what they showed |
| Backends.FetchTally | pkg/storage/backend.go:378-395 | one fetch keeps the account: sessions add up to the total, and with room the total is chunks fetched plus failed fills |
| Backends.FetchBound | pkg/storage/backend.go:362-432 | with room in the cache, without any assumption on failures: nothing was evicted, the RemoteFetches of all sessions, open and stopped, add up to the chunks fetched plus the failed fills, and so are at most the number of different chunks if and only if failed fills do not outnumber the chunks that came in otherwise |
| Backends.RefetchAfterFailedFill | pkg/storage/backend.go:387-394 | fetch, failed fill, second fetch: more fetches than chunks |
| Backends.EachResolutionCounted | pkg/storage/backend.go:362-432 | without I/O failures hits plus misses plus zero-fills equal the chunks asked for outside the overlay, and misses equal fetches |
| Devices.StreakMeansAdjacent | pkg/nbd/storage_device.go:123-132 | the streak counter is at least `n` exactly when the last `n` pairs of reads are adjacent |
| Devices.HitTestOnInt64 | pkg/nbd/storage_device.go:92-96 | the window test in int64 accepts exactly requests inside the window or with an overflowing end, and the slice bounds are crossed exactly in the second case |
| Devices.PlanCovers | pkg/nbd/storage_device.go:103-121 | a planned fetch covers a valid request, stays in the device, and is cut to the device exactly for a request that straddles its end |
| Devices.FetchAnswers | pkg/nbd/storage_device.go:49-60 | answering from a planned fetch agrees with reading the backend, except that a request that straddles the end is cut and that it panics exactly if the fetch overreaches |
| Devices.HitAnswers | pkg/nbd/storage_device.go:85-101 | so does answering from the window: the backend would have answered too |
| Devices.StorageDevice.RecordRead | pkg/nbd/storage_device.go:123-132 | the fields describe the reads since the last write |
| Devices.StorageDevice.ReadAheadHit | pkg/nbd/storage_device.go:85-101 | a hit is the slice of the view and exactly a request inside the window, a miss changes nothing, and it panics exactly when the end overflows |
| Devices.StorageDevice.PlanReadAhead | pkg/nbd/storage_device.go:103-121 | what was asked for before two adjacent pairs; after them the larger of that and the read-ahead size, or up to the end of the device if that is nearer; a window is kept exactly if that is more than was asked for |
| Devices.StorageDevice.FetchAhead | pkg/nbd/storage_device.go:49-60 | a miss answers from the view, panics without failures exactly if the planned fetch overreaches, and keeps the window a slice of the view that could be fetched |
| Devices.StorageDevice.ReadAt | pkg/nbd/storage_device.go:40-61 | for all int64 arguments: agrees with reading the backend, except exactly where `Truncates`, `Overflows` and `FetchOverreaches` say; a panic has one of the last two reasons, and each of them is one if nothing fails |
| Devices.ShortAnswer | pkg/nbd/storage_device.go:40-61 | three reads of which the last is cut short by the device and refused by the backend |
| Devices.WindowPanics | pkg/nbd/storage_device.go:85-101 | three one-byte reads and a fourth at the last int64 offset that panics, where the backend refuses it |
| Devices.PrefetchPanics | pkg/nbd/storage_device.go:103-121 | three adjacent one-byte reads near 2^63 of which the last is valid and answered by the backend, and panics through the device |
| Devices.StorageDevice.InvalidateReadAhead | pkg/nbd/storage_device.go:142-152 | no window and no history survive |
| Devices.StorageDevice.WriteAt | pkg/nbd/storage_device.go:63-66 | the outcomes of the backend's write, and no window survives |
| Devices.StorageDevice.Flush | pkg/nbd/storage_device.go:68-70 | succeeds only if every dirty chunk has its overlay file, and then unless I/O fails |
| Devices.StorageDevice.CommitAndStop | pkg/nbd/storage_device.go:76-81 | if anything fails the session is gone and the pointer decodes to the device, or the session is open and unchanged |
| Devices.StorageDevice.Disconnect | pkg/nbd/storage_device.go:72-83 | with commit-on-disconnect the pointer decodes to the device and the session is gone, or it failed and the device is still there; otherwise nothing changes, and success means that every dirty chunk has its overlay file |
| Nbd.HeaderRoundTrip | pkg/nbd/server.go:202-212 | a decoded header is the one encoded |
| Bytes.Uint8 | pkg/nbd/server.go:211-212 | an eight-byte number has its most significant byte first, written out |
| Nbd.HeaderBytes | pkg/nbd/server.go:202-213 | each field of a header as a written-out number of its bytes: magic 0 to 3, flags 4 and 5, command 6 and 7, handle 8 to 15, offset 16 to 23, length 24 to 27 |
| Nbd.AcceptableBytes | pkg/nbd/server.go:202-216 | the server acts on a header exactly if it starts with 25 60 95 13 and its length is at most 32 MiB |
| Nbd.IncomingBytes | pkg/nbd/server.go:202-246 | the command, offset, length and payload that the bytes of the stream give |
| Nbd.ReplyOnWire | pkg/nbd/server.go:302-315 | a reply is 67 44 66 98, the error in four bytes, the eight bytes of the request that stood for the handle, and the data |
| Nbd.AnswerOnWire | pkg/nbd/server.go:220-267 | the reference server in bytes and numbers: past the end 22, command 0 reads, 1 writes the bytes after the header, 2 leaves, 3 flushes, any other 22 |
| Nbd.ReplyRoundTrip | pkg/nbd/server.go:302-315 | a reply is read back field by field, data and following bytes included |
| Nbd.ServeEncoded | pkg/nbd/server.go:202-268 | a request takes exactly its own bytes off the stream |
| Nbd.ServeAllEncoded | pkg/nbd/server.go:84-95 | a stream of well-formed requests is answered request by request |
| Nbd.RepliesInStep | pkg/nbd/server.go:202-290 | a client reads back one reply per answered request of the reference server, in order, with its handle and the right amount of data |
| Exchanges.RequestsOfEncoded | pkg/nbd/server.go:202-268 | the requests that are to be answered are exactly those before the first accepted disconnect, and the stream ends in a disconnect exactly if there is one |
| Exchanges.RepliesReadBack | pkg/nbd/server.go:202-290 | however requests fared, the client reads their replies back one by one with the right handles |
| Exchanges.ExchangeIsReply | pkg/nbd/server.go:202-290 | whatever a turn does, it sends one reply with the handle and the right amount of data, unless a read was cut, and the device keeps its size |
| Exchanges.ExchangeOnWire | pkg/nbd/server.go:202-290 | every turn, failed or not, sends the reply magic, error 0, 5 or 22, the eight handle bytes of the request, and data only after a read; 5 only after a failure or an end past 2^63 |
| Exchanges.TraceIsServe | pkg/nbd/server.go:202-268 | without failures the bytes sent are the reference server's if and only if no odd request is reached and the program does not crash, and then so is the array |
| Exchanges.FetchMayCrash | pkg/nbd/storage_device.go:103-121 | every fetch for a read that overreaches is covered by the largest that could be made for it |
| Exchanges.CrashesOnUnfit | pkg/nbd/server.go:84-95 | without read-ahead and failures the loop crashes if and only if a request is unfit, and on the first of them |
| Exchanges.PlainNeverCrashes | pkg/nbd/server.go:84-95 | if all chunk ends are int64 values, no stream without odd requests crashes the program, whatever fails |
| Exchanges.OddRequests | pkg/nbd/server.go:220-225 | a flush and a disconnect that end past 2^63, on any device, and what becomes of them |
| Exchanges.ClientReadsBack | pkg/nbd/server.go:202-290 | whatever failed, one reply per answered request, in order, and successful reads hold the bytes that the writes before them left |
| Handshake.OptionRoundTrip | pkg/nbd/server.go:113-131 | an encoded option is read back whole |
| Handshake.OptionBytes | pkg/nbd/server.go:113-131 | an option is taken off the stream exactly if it starts with IHAVEOPT and its length, bytes 12 to 15, is at most 65536 and there; its number is in bytes 8 to 11 |
| Handshake.GoBytes | pkg/nbd/server.go:171-179 | the name in a GO payload: its length in four bytes, at most 4096, and at least two bytes after it |
| Handshake.NoZeroesBytes | pkg/nbd/server.go:107-111 | the no-zeroes flag is the second bit of the fourth byte |
| Handshake.OptionNumbers | pkg/nbd/server.go:133-152 | options 1 and 7 open exactly with an accepted name, 2 ends, all others are refused |
| Handshake.OpenBytes | pkg/nbd/server.go:156-200 | what a client reads when the export opens, byte for byte, for both ways of opening it |
| Handshake.NegotiationBytes | pkg/nbd/server.go:98-154 | the whole negotiation as a client reads it: greeting, one refusal of twenty bytes per unsupported option with its number, and the answer that opens |
| Handshake.OptionsInStep | pkg/nbd/server.go:98-154 | unsupported options are refused in turn, the final one is answered, and every byte after it is left for the requests |
| Handshake.GoOpens | pkg/nbd/server.go:171-200 | a GO option for an accepted name opens the export |
| Handshake.WriteOptionReply | pkg/nbd/server.go:317-331 | the bytes of an option reply |
| Handshake.HandleOptGo | pkg/nbd/server.go:171-200 | grants exactly well-formed payloads with an accepted name, and says nothing otherwise; the client reads an information reply of twelve bytes with size and flags 13, and an acknowledgement |
| Handshake.HandleOption | pkg/nbd/server.go:133-152 | ends the negotiation exactly on a supported option; the client reads the export with its size and flags 13, padded exactly if it did not ask for none, or the refusal of its option |
| Handshake.ReadOption | pkg/nbd/server.go:113-131 | takes exactly one option off the stream or gives up |
| Handshake.OptionLoop | pkg/nbd/server.go:113-153 | terminates on every stream and sends exactly the specified answers |
| Handshake.Negotiate | pkg/nbd/server.go:98-154 | greeting, flags and options, byte for byte; the greeting reads NBDMAGIC, IHAVEOPT and flags 3 |
| Servers.WriteReply | pkg/nbd/server.go:302-315 | the bytes of a simple reply |
| Servers.ServeRead | pkg/nbd/server.go:270-290 | the requested data, an I/O error, or a crash that `MayCrash` allows; without failures an unfit read is not answered |
| Servers.ServeWrite | pkg/nbd/server.go:234-246 | the reference effect, an I/O error after a front part of the payload, or a crash, which only an unfit write does, and does if nothing fails |
| Servers.ServeInside | pkg/nbd/server.go:226-267 | each command that passed the range test is one exchange or a crash that is allowed; a flush is answered with an I/O error unless every dirty chunk has its overlay file |
| Servers.ServeDisconnect | pkg/nbd/server.go:255-264 | with commit-on-disconnect and no failure the session is gone and the volume's latest snapshot decodes to the device; whatever fails, the device is still there or its content is published |
| Servers.HandleAccepted | pkg/nbd/server.go:219-267 | the range test on int64, refusal with the payload discarded, disconnect with its commit, cut-off payload with the device kept, and the rest |
| Servers.HandleRequest | pkg/nbd/server.go:202-268 | for every stream: a request that is answered takes header and payload and nothing else and is one exchange, with the handle bytes of the request in the reply and flushes as in `ServeInside`; the connection ends exactly on a bad header, a cut-off payload or an accepted disconnect, and which of them is reported |
| Servers.OthersAct | pkg/storage/backend.go:196-269 | whatever other nodes add to store and repository, a served device shows what it showed |
| Servers.HandleRequests | pkg/nbd/server.go:84-95 | for every stream and whatever other nodes do between requests: the replies are a trace over one array whatever fails; they are for all requests unless the program crashes on one that `MayCrash` allows; if nothing fails, they are the reference server's bytes exactly when no odd request is reached and there is no crash, and its array is left in the session or, by a disconnect that commits, in the latest snapshot |
| Servers.Handle | pkg/nbd/server.go:78-96 | the same from greeting to close, whatever the client sends |
| Servers.ServeClient | pkg/nbd/server.go:78-96 | end to end: a client that negotiates and sends any well-formed requests reads the negotiation as `NegotiationRead` says, byte for byte, and gets a reply to each request before its first accepted disconnect, unless the program crashes on one that may; without failures they are those of one flat array, with any read-ahead and cache sizes, exactly when none of them is odd and there is no crash; and if there is a disconnect that commits, the array is published and the session gone |
| Servers.ServeClientThroughFailures | pkg/nbd/server.go:78-96 | end to end with failures, for requests that do not overflow: from the bytes sent after the negotiation the client reads one reply per request before its disconnect, unless the program crashes, with its handle, and true data of an array that starts as the session's |
| ClusterSteps.StepRefines | pkg/storage/backend.go:84-269 | every single step keeps the invariant and does exactly its flat action |
| ClusterSteps.StorePutStep | pkg/storage/backend.go:305-313 | an upload, reported or not, changes nothing visible |
| ClusterSteps.CreateSnapshotStep | pkg/storage/backend.go:252-256 | recording a snapshot adds the committing session's view under a new name |
| ClusterSteps.UpdateLatestStep | pkg/storage/backend.go:258-262 | the pointer update, reported or not, gives the volume the session's view |
| ClusterTheorems.RunRefines | pkg/storage/backend.go:84-269 | along every interleaving the cluster does exactly the flat action of each event |
| ClusterTheorems.PointersComplete | pkg/storage/backend.go:222-268 | in every reachable state every pointer names a recorded snapshot whose manifest and chunks are stored, whole and under their hash |
| ClusterTheorems.NoFallback | pkg/storage/backend.go:379-391 | the zero-fill, padding and oversize branches are never taken for a manifest entry, from the store or from a cache |
| ClusterTheorems.StartNeverDangles | pkg/storage/backend.go:84-99 | a starting session always finds the snapshot and manifest its record named |
| ClusterTheorems.SnapshotsImmutable | pkg/storage/backend.go:246-260 | a recorded snapshot decodes to the same bytes in every later state |
| ClusterTheorems.OnlyOwnWrites | pkg/storage/backend.go:154-190 | only a session's own write changes its device |
| ClusterTheorems.SessionsIsolated | pkg/storage/backend.go:196-269 | a session that does not write shows the same device whatever all others do, on the same volume too |
| ClusterTheorems.OnlyCommitMoves | pkg/storage/backend.go:258-260 | only a commit's pointer update changes a volume's content |
| ClusterTheorems.VolumeKept | pkg/storage/backend.go:246-262 | without a pointer update a volume keeps its content |
| ClusterTheorems.LastUpdateWins | pkg/storage/backend.go:246-262 | a volume's content is the whole view of the session whose pointer update came last |
| ClusterTheorems.StartSeesOneContent | pkg/storage/backend.go:84-126 | a session opens on the content that was latest at its GetVolume call, however many commits came between |
| ClusterTheorems.ReadsAreSlices | pkg/storage/backend.go:128-152 | a finished read, interleaved with anything, holds the slice of the session's device |
| ClusterTheorems.WritesApplyInOrder | pkg/storage/backend.go:154-190 | a write has applied exactly the ranges it has resolved, at every moment |
| ClusterTheorems.ImagesKept | cmd/control-service/main.go:352-374 | no event changes or removes the record of an image |
| ClusterTheorems.ForksAreIsolated | cmd/control-service/main.go:352-374 | an environment volume starts as the image's snapshot, and nothing later changes that snapshot or the image record that names it |
| ClusterOutcomes.ReadIsAnswered | pkg/storage/backend.go:128-152 | a finished read of the cluster is an answer in the sense of the backend's contract |
| ClusterOutcomes.WriteIsAnswered | pkg/storage/backend.go:154-190 | a write of the cluster, stopped at any moment, has the outcome of the backend's contract |
| ClusterOutcomes.SoloCommitOutcome | pkg/storage/backend.go:196-269 | every commit of the cluster that runs by itself, wherever it fails, has the outcome of the backend's contract |
| FileDevices.FileDevice.ReadAtInto | cmd/local-nbd-file-server/main.go:106-120 | fills the buffer with the zero-padded slice of the file |
| FileDevices.FileDevice.ReadAtViaChunkInto | cmd/local-nbd-file-server/main.go:130-160 | terminates and fills the buffer with the same bytes as range mode, clipped last chunk and short file included |
| Clients.Laid | cmd/base-image-service/main.go:543-567 | what a copied file leaves: the file first, and after it what was there if the file's chunks fit int64 |
| Clients.LaidTail | cmd/base-image-service/main.go:543-567 | if they do not fit, each byte after the file is zero in the first chunk and else the byte one chunk before it |
| Clients.WritePart | cmd/base-image-service/main.go:553-557 | the piece at the front of the buffer is written, and the rest of the buffer after it exactly if the piece's chunk ends past int64; it never panics |
| Clients.CopyPart | cmd/base-image-service/main.go:549-557 | one turn: the buffer is filled from the file and the next piece extends what has been copied; after a short piece the copy is complete |
| Clients.CopyFile | cmd/base-image-service/main.go:543-567 | every file that fits the device lies over it from its start, and after it what was there, or, if the file's last chunk ends past int64, the rest of the buffer; it never panics |
| Clients.ImportFile | cmd/base-image-service/main.go:536-585 | the published snapshot decodes to the file laid over the old content; without failures it succeeds exactly for files that fit the device; the session is gone either way |
| Clients.ImportFresh | cmd/base-image-service/main.go:301-316 | for every file and chunk size: a file imported into a new volume of its size is published byte for byte, without failures exactly if the chunk size is positive; an empty file gives a volume of default size |
| Clients.ReadBack | pkg/storage/backend.go:84-152 | opening a published volume and reading it gives the published content |
| Clients.ImportThenReadElsewhere | cmd/base-image-service/main.go:536-585 | every file imported on one node is read back whole on another, with any coherent cache; without failures exactly if the chunk size is positive and all chunk ends are int64 values |
| Clients.CommitWarm | pkg/storage/backend.go:305-315 | after a commit every chunk of a request is in the node's cache if the cache has room and each of them was dirty, in no manifest, or given to the cache before |
| Clients.CommitThenRead | pkg/storage/backend.go:128-269 | and then a read of it misses and fetches nothing, and without failures each chunk is a hit or a zero-fill |
| Clients.CommitBeside | pkg/storage/backend.go:196-269 | a commit on one node leaves every session of another as it was |
| Clients.CommitThenOpenElsewhere | pkg/storage/backend.go:84-269 | a volume committed on one node and opened on another shows there what the committing session shows |

## Left out

- Servers.Handle: does not model a device of negative size or non-positive chunk size (`Serving`), nor errors of the connection's own writes.
- Clients.ImportFile: does not model a volume record with chunk size zero, which no repository creates.
- Backends.Backend.FlushDirty: does not model durability of fsync; a crash of a node loses its open sessions.
- Devices.StorageDevice.Flush: does not model durability either.
- Backends.Session.WriteDirtyChunk: does not model a torn overlay file; a failed write leaves the file as it was.
- Backends.Backend.ReadRanges: does not model running out of memory on a large length.
- Cache.LocalCache.Put: does not model leftover temporary files or the race of two removals of one file.
- Cache.LocalCache.GetMemory: does not model element aliasing of the linked list; the list is a sequence of values.
- Cache.LocalCache.EvictLocked: does not model recency of memory hits on disk; they do not touch the file's time in the source either.
- ClusterTheorems.RunRefines: does not model simultaneous operations on one session; batch loading and the fork of a volume are single steps, since they only read local files or immutable records.
- ClusterTheorems.WritesApplyInOrder: does not model requests whose ranges do not fit int64, on which the program panics or spills; `Backends.Backend.Write` does.
- Servers.HandleRequests: does not model other nodes acting within one request, only between two; `ClusterTheorems.SessionsIsolated` and `ReadsAreSlices` do. With read-ahead it says on which requests the program may crash; `Devices.StorageDevice.ReadAt` says exactly when.
- ClusterOutcomes.SoloCommitOutcome: does not model that each backend method is itself a run of cluster events; the two models meet in the same outcome predicates (`ReadAnswer`, `WriteAnswer`, `CommitOutcome`).
- Byte counters and progress callbacks of commits, `Stats` methods, NBD statistics and logging, which would add only easy members.
- The pooled buffer and the `ReadAtInto` path of the server, the `OnDisconnect` callback and the FUA flag.
- Environment records, base-image lookup by reference, and all HTTP handlers of the services, but for the slices that the write handler passes on.
- Firecracker, mount, network and process handling, and the `orca-init`, sandbox and benchmark programs.
- The Python and shell scripts, demos and the Kotlin stub.
- SHA-256 and JSON internals, and the S3 and Postgres clients beyond the contracts they give.
