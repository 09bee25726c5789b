/**
 What holds over every run of the cluster: any number of nodes and sessions,
 any interleaving of their calls, any failures and crashes.
 */
module ClusterTheorems {
  import opened Bytes
  import opened Chunks
  import opened Wire
  import opened Volumes
  import opened Snapshots
  import opened Cluster
  import opened ClusterInvariant
  import opened ClusterSteps

  /** `cs` are the states of a run whose events are `es`. */
  ghost predicate IsRun(cs: seq<Cluster>, es: seq<Event>) {
    && |cs| == |es| + 1
    && (forall i :: 0 <= i < |es| ==> Enabled(cs[i], es[i]) && cs[i + 1] == Next(cs[i], es[i]))
  }

  lemma InitInv(c: Cluster)
    requires Init(c)
    ensures Inv(c)
  {
  }

  /** Step `i` of a run, flatly. */
  ghost predicate StepIs(cs: seq<Cluster>, es: seq<Event>, i: nat)
    requires IsRun(cs, es) && i < |es|
  {
    && Inv(cs[i]) && Inv(cs[i + 1])
    && Allowed(Abs(cs[i]), Effect(cs[i], es[i]))
    && Abs(cs[i + 1]) == Apply(Abs(cs[i]), Effect(cs[i], es[i]))
  }

  /**
   Refinement. Along every run from a good state, the cluster does to its
   volumes, snapshots and sessions, read as flat byte strings, exactly the
   flat action of each event and nothing else.
   */
  lemma {:induction false} RunRefines(cs: seq<Cluster>, es: seq<Event>)
    requires IsRun(cs, es) && Inv(cs[0])
    ensures forall i :: 0 <= i < |cs| ==> Inv(cs[i])
    ensures forall i :: 0 <= i < |es| ==> StepIs(cs, es, i)
  {
    hide Inv, Abs, Apply, Allowed, Effect, Enabled, Next;
    var n := 0;
    while n < |es|
      invariant 0 <= n <= |es|
      invariant forall i :: 0 <= i <= n ==> Inv(cs[i])
      invariant forall i :: 0 <= i < n ==> StepIs(cs, es, i)
    {
      StepRefines(cs[n], es[n]);
      n := n + 1;
    }
  }

  lemma RunInv(cs: seq<Cluster>, es: seq<Event>, i: nat)
    requires IsRun(cs, es) && Init(cs[0]) && i < |cs|
    ensures Inv(cs[i])
  {
    hide Inv, Enabled, Next, StepIs;
    InitInv(cs[0]);
    RunRefines(cs, es);
  }

  // ----- Safety of what is published -----

  /**
   The volume's latest snapshot is recorded, and its manifest and chunks are all
   stored, whole and under their own hash.
   */
  ghost predicate Complete(c: Cluster, v: Id)
    requires v in c.repo.volumes && c.repo.volumes[v].latest.Some?
  {
    var sid := c.repo.volumes[v].latest.value;
    && sid in c.repo.snapshots
    && c.repo.snapshots[sid].manifestKey in c.store.manifests
    && AllParse(c.store.manifests[c.repo.snapshots[sid].manifestKey])
    && forall i :: i in SnapshotManifest(c.repo, c.store, sid) ==>
         var id := SnapshotManifest(c.repo, c.store, sid)[i];
         && id in c.store.chunks
         && |c.store.chunks[id]| == c.repo.volumes[v].geometry.chunkSize
         && HashChunk(c.store.chunks[id]) == id
  }

  lemma CompleteFromInv(c: Cluster, v: Id)
    requires Inv(c) && v in c.repo.volumes && c.repo.volumes[v].latest.Some?
    ensures Complete(c, v)
  {
    hide IsPrinted, SessOk, ManifestOf, AllParse;
    var sid := c.repo.volumes[v].latest.value;
    LoadedManifest(c.repo, c.store, sid, SnapshotManifest(c.repo, c.store, sid));
  }

  /** In every reachable state, every pointer that is set names a complete snapshot. */
  lemma PointersComplete(cs: seq<Cluster>, es: seq<Event>, i: nat, v: Id)
    requires IsRun(cs, es) && Init(cs[0]) && i < |cs|
    requires v in cs[i].repo.volumes && cs[i].repo.volumes[v].latest.Some?
    ensures Complete(cs[i], v)
  {
    hide Complete, Inv, Enabled, Next;
    RunInv(cs, es, i);
    CompleteFromInv(cs[i], v);
  }

  /**
   Resolving a manifest entry never meets a missing, short or oversized
   object, in the store or in a cache: the zero-fill, padding and size-error
   branches are dead for manifest entries.
   */
  lemma NoFallback(cs: seq<Cluster>, es: seq<Event>, i: nat, sid: Id)
    requires IsRun(cs, es) && Init(cs[0]) && i < |cs|
    requires sid in cs[i].sessions && ResolvingRemote(cs[i].sessions[sid])
    ensures
      var c := cs[i];
      var s := c.sessions[sid];
      var id := s.state.manifest[CurrentRange(s).index];
      && id in c.store.chunks
      && |c.store.chunks[id]| == s.state.volume.geometry.chunkSize
      && (id in CacheOf(c, s.node) ==> CacheOf(c, s.node)[id] == c.store.chunks[id])
  {
    hide Inv, Enabled, Next, ChunkAt, PaddedSlice;
    RunInv(cs, es, i);
    RemoteChunk(cs[i], sid);
  }

  /**
   A starting session always finds the snapshot and manifest its volume record
   named, whatever was committed since.
   */
  lemma StartNeverDangles(cs: seq<Cluster>, es: seq<Event>, i: nat, sid: Id)
    requires IsRun(cs, es) && Init(cs[0]) && i < |cs|
    requires sid in cs[i].sessions && cs[i].sessions[sid].phase.Opening?
    ensures cs[i].sessions[sid].phase.need.NeedSnapshot? ==> CallEnabled(cs[i], cs[i].sessions[sid], GetSnapshot)
    ensures cs[i].sessions[sid].phase.need.NeedManifest? ==>
              exists m :: CallEnabled(cs[i], cs[i].sessions[sid], LoadManifest(m))
  {
    RunInv(cs, es, i);
    hide Enabled, Next, LoadsAs, IsPrinted, IsRun, Init;
    var c, s := cs[i], cs[i].sessions[sid];
    if s.phase.need.NeedManifest? {
      var snap := s.state.volume.latest.value;
      var m := SnapshotManifest(c.repo, c.store, snap);
      LoadedManifest(c.repo, c.store, snap, m);
      assert CallEnabled(c, s, LoadManifest(m));
    }
  }

  // ----- Immutability and isolation -----

  /** Once recorded, a snapshot is there in every later state and decodes to the same bytes. */
  lemma {:induction false} SnapshotsImmutable(cs: seq<Cluster>, es: seq<Event>, i: nat, j: nat, snap: Id)
    requires IsRun(cs, es) && Inv(cs[0]) && i <= j < |cs|
    requires snap in cs[i].repo.snapshots
    ensures Inv(cs[i]) && Inv(cs[j])
    ensures snap in Abs(cs[i]).snapshots && snap in Abs(cs[j]).snapshots
    ensures Abs(cs[j]).snapshots[snap] == Abs(cs[i]).snapshots[snap]
  {
    hide Inv, Abs, Effect, Enabled, Next;
    RunRefines(cs, es);
    VolumeKeys(cs[i]);
    var n := i;
    while n < j
      invariant i <= n <= j
      invariant snap in Abs(cs[n]).snapshots && Abs(cs[n]).snapshots[snap] == Abs(cs[i]).snapshots[snap]
    {
      assert StepIs(cs, es, n);
      n := n + 1;
    }
  }

  /** The step writes to the device of session `t`. */
  predicate WritesTo(act: Action, t: Id) {
    act.Write? && act.sid == t
  }

  /** Only a call by the session itself, in the middle of its own write, writes to its device. */
  lemma OnlyOwnWrites(c: Cluster, e: Event, t: Id)
    requires Enabled(c, e) && WritesTo(Effect(c, e), t)
    ensures e.By? && e.sid == t && t in c.sessions
    ensures c.sessions[t].phase.Working? && c.sessions[t].phase.job.WriteJob?
  {
  }

  /** A session that stays open shows the same device for as long as it does not write, whatever all others do. */
  lemma {:induction false} SessionsIsolated(cs: seq<Cluster>, es: seq<Event>, i: nat, j: nat, t: Id)
    requires IsRun(cs, es) && Inv(cs[0]) && i <= j < |cs|
    requires forall n :: i <= n <= j ==> t in cs[n].sessions
    requires forall n :: i <= n < j ==> !WritesTo(Effect(cs[n], es[n]), t)
    ensures Inv(cs[i]) && Inv(cs[j])
    ensures t in Abs(cs[i]).sessions && t in Abs(cs[j]).sessions
    ensures Abs(cs[j]).sessions[t] == Abs(cs[i]).sessions[t]
  {
    hide Inv, Abs, Effect, Enabled, Next;
    RunRefines(cs, es);
    VolumeKeys(cs[i]);
    var n := i;
    while n < j
      invariant i <= n <= j
      invariant t in Abs(cs[n]).sessions && Abs(cs[n]).sessions[t] == Abs(cs[i]).sessions[t]
    {
      assert StepIs(cs, es, n);
      VolumeKeys(cs[n]);
      VolumeKeys(cs[n + 1]);
      n := n + 1;
    }
  }

  // ----- Which content is latest -----

  /** The step moves the pointer of volume `v`. */
  predicate Moves(act: Action, v: Id) {
    act.Point? && act.v == v
  }

  /** Only an update of the volume record by a session on that volume moves its pointer. */
  lemma OnlyCommitMoves(c: Cluster, e: Event, v: Id)
    requires Enabled(c, e) && Moves(Effect(c, e), v)
    ensures e.By? && e.call.UpdateLatest? && e.sid in c.sessions
    ensures c.sessions[e.sid].state.volume.volumeId == v && c.sessions[e.sid].phase.Publishing?
    ensures Effect(c, e) == Point(v, e.sid)
  {
  }

  /** While no pointer update runs on it, a volume's content stays what it was. */
  lemma {:induction false} VolumeKept(cs: seq<Cluster>, es: seq<Event>, i: nat, j: nat, v: Id)
    requires IsRun(cs, es) && Inv(cs[0]) && i <= j < |cs|
    requires v in cs[i].repo.volumes
    requires forall n :: i <= n < j ==> !Moves(Effect(cs[n], es[n]), v)
    ensures Inv(cs[i]) && Inv(cs[j])
    ensures v in Abs(cs[i]).volumes && v in Abs(cs[j]).volumes
    ensures Abs(cs[j]).volumes[v] == Abs(cs[i]).volumes[v]
  {
    hide Inv, Abs, Effect, Enabled, Next;
    RunRefines(cs, es);
    VolumeKeys(cs[i]);
    var n := i;
    while n < j
      invariant i <= n <= j
      invariant v in Abs(cs[n]).volumes && Abs(cs[n]).volumes[v] == Abs(cs[i]).volumes[v]
    {
      assert StepIs(cs, es, n);
      n := n + 1;
    }
  }

  /**
   A volume's latest content is the whole device shown by the session whose
   pointer update ran last, as it was when that update ran.
   */
  lemma LastUpdateWins(cs: seq<Cluster>, es: seq<Event>, i: nat, v: Id)
    requires IsRun(cs, es) && Inv(cs[0]) && i < |es|
    requires Moves(Effect(cs[i], es[i]), v)
    requires forall n :: i < n < |es| ==> !Moves(Effect(cs[n], es[n]), v)
    ensures es[i].By? && Inv(cs[i]) && Inv(cs[|es|])
    ensures es[i].sid in Abs(cs[i]).sessions && v in Abs(cs[|es|]).volumes
    ensures Abs(cs[|es|]).volumes[v] == Abs(cs[i]).sessions[es[i].sid]
  {
    hide Inv, Abs, Effect, Enabled, Next;
    OnlyCommitMoves(cs[i], es[i], v);
    RunRefines(cs, es);
    assert StepIs(cs, es, i);
    VolumeKeys(cs[i + 1]);
    VolumeKept(cs, es, i + 1, |es|, v);
  }

  // ----- Starting a session -----

  /** A call by a session that is still starting does not write. */
  lemma OpeningDoesNotWrite(c: Cluster, e: Event, t: Id)
    requires Enabled(c, e) && t in c.sessions && c.sessions[t].phase.Opening?
    ensures !WritesTo(Effect(c, e), t)
  {
    if WritesTo(Effect(c, e), t) {
      OnlyOwnWrites(c, e, t);
    }
  }

  lemma GetVolumeOpens(c: Cluster, e: Event)
    requires Enabled(c, e) && e.GetVolume?
    ensures Effect(c, e) == Open(e.sid, e.v)
  {
  }

  /**
   However many foreign commits run between a session's reading of the volume
   record and the end of its start, it opens on the content that was latest
   at that reading: never a later one, and never a mixture.
   */
  lemma StartSeesOneContent(cs: seq<Cluster>, es: seq<Event>, sid: Id)
    requires IsRun(cs, es) && Inv(cs[0]) && |es| > 1
    requires es[0].GetVolume? && es[0].sid == sid
    requires forall n :: 1 <= n < |es| ==> sid in cs[n].sessions && cs[n].sessions[sid].phase.Opening?
    requires sid in cs[|es|].sessions && cs[|es|].sessions[sid].phase.Idle?
    ensures Inv(cs[0]) && es[0].v in Abs(cs[0]).volumes
    ensures View(cs[|es|].sessions[sid].state, cs[|es|].store.chunks) == Abs(cs[0]).volumes[es[0].v]
  {
    hide Effect, Enabled, Next, Inv, Abs, View;
    forall n | 1 <= n < |es|
      ensures !WritesTo(Effect(cs[n], es[n]), sid)
    {
      OpeningDoesNotWrite(cs[n], es[n], sid);
    }
    GetVolumeOpens(cs[0], es[0]);
    RunRefines(cs, es);
    assert StepIs(cs, es, 0);
    SessionsIsolated(cs, es, 1, |es|, sid);
    ShownWhenIdle(cs[|es|], sid);
  }

  lemma ShownWhenIdle(c: Cluster, sid: Id)
    requires Inv(c) && sid in c.sessions && !c.sessions[sid].phase.Opening?
    ensures sid in Abs(c).sessions
    ensures Abs(c).sessions[sid] == View(c.sessions[sid].state, c.store.chunks)
  {
    hide RepoOk, SessOk, VolumeContents, SnapshotContents;
  }

  // ----- Reads and writes -----

  /** A finished read holds exactly the requested slice of the session's device. */
  lemma ReadsAreSlices(cs: seq<Cluster>, es: seq<Event>, i: nat, sid: Id)
    requires IsRun(cs, es) && Init(cs[0]) && i < |cs|
    requires sid in cs[i].sessions && cs[i].sessions[sid].phase.Working? && cs[i].sessions[sid].phase.job.ReadJob?
    requires CallEnabled(cs[i], cs[i].sessions[sid], EndJob)
    ensures
      var job := cs[i].sessions[sid].phase.job;
      && Inv(cs[i])
      && sid in Abs(cs[i]).sessions
      && job.offset + job.length <= |Abs(cs[i]).sessions[sid]|
      && job.got == Abs(cs[i]).sessions[sid][job.offset..job.offset + job.length]
  {
    RunInv(cs, es, i);
    hide Abs, Next, RepoOk, PointerOk, View, Enabled, Ranges;
    var s := cs[i].sessions[sid];
    ShownWhenIdle(cs[i], sid);
    ReachedFacts(s.phase.job.offset, s.phase.job.length, s.state.volume.geometry.chunkSize, s.phase.k);
  }

  /**
   A write that stops with `k` ranges done, for whatever reason, has applied
   exactly the data of those ranges to the device it began on; a finished one
   has applied all of it.
   */
  lemma WritesApplyInOrder(cs: seq<Cluster>, es: seq<Event>, i: nat, sid: Id)
    requires IsRun(cs, es) && Init(cs[0]) && i < |cs|
    requires sid in cs[i].sessions && cs[i].sessions[sid].phase.Working? && cs[i].sessions[sid].phase.job.WriteJob?
    ensures
      var s := cs[i].sessions[sid];
      var job := s.phase.job;
      && Inv(cs[i]) && sid in Abs(cs[i]).sessions
      && s.state.volume.geometry.chunkSize > 0
      && s.phase.k <= |SessionRanges(s)|
      && var n := Reached(job.offset, SessionRanges(s), s.phase.k) - job.offset;
      && 0 <= n <= |job.data|
      && job.offset + n <= |job.before|
      && Abs(cs[i]).sessions[sid] == Splice(job.before, job.offset, job.data[..n])
      && (s.phase.k == |SessionRanges(s)| ==> n == |job.data|)
  {
    RunInv(cs, es, i);
    hide Abs, Next, RepoOk, PointerOk, View, Enabled, Ranges;
    var s := cs[i].sessions[sid];
    ShownWhenIdle(cs[i], sid);
    ReachedFacts(s.phase.job.offset, |s.phase.job.data|, s.state.volume.geometry.chunkSize, s.phase.k);
  }

  // ----- Forking -----

  /** No event changes or removes the record of an image. */
  lemma {:induction false} ImagesKept(cs: seq<Cluster>, es: seq<Event>, i: nat, j: nat, imageId: Id)
    requires IsRun(cs, es) && i <= j < |cs| && imageId in cs[i].repo.images
    ensures imageId in cs[j].repo.images && cs[j].repo.images[imageId] == cs[i].repo.images[imageId]
    decreases j
  {
    if i < j {
      ImagesKept(cs, es, i, j - 1, imageId);
      ImageKept(cs[j - 1], es[j - 1], imageId);
    }
  }

  lemma ImageKept(c: Cluster, e: Event, imageId: Id)
    requires Enabled(c, e) && imageId in c.repo.images
    ensures imageId in Next(c, e).repo.images && Next(c, e).repo.images[imageId] == c.repo.images[imageId]
  {
    if e.By? {
      CallsKeepImages(c, e.sid, e.call);
    }
  }

  lemma CallsKeepImages(c: Cluster, sid: Id, call: Call)
    requires sid in c.sessions && CallEnabled(c, c.sessions[sid], call)
    ensures NextCall(c, sid, call).repo.images == c.repo.images
  {
    hide ToWire, Deliver, View, Ranges, LoadsAs, PaddedSlice;
  }

  lemma ForkNamesImage(c: Cluster, e: Event)
    requires Inv(c) && Enabled(c, e) && e.ForkVolume?
    ensures e.imageId in c.repo.images && c.repo.images[e.imageId].snapshotId == e.snap && e.snap in c.repo.snapshots
    ensures Effect(c, e) == Fork(e.v, e.snap)
  {
    hide SessOk, SnapshotOk, PointerOk;
  }

  /**
   An environment volume starts as the image's snapshot, and from then on
   nothing that is done to it, or to any other volume, changes the image: its
   record goes on naming that snapshot, and the snapshot's content stays.
   */
  lemma ForksAreIsolated(cs: seq<Cluster>, es: seq<Event>, j: nat)
    requires IsRun(cs, es) && Inv(cs[0]) && 0 < j < |cs|
    requires es[0].ForkVolume?
    ensures Inv(cs[0]) && Inv(cs[1]) && Inv(cs[j])
    ensures es[0].snap in Abs(cs[0]).snapshots && es[0].v in Abs(cs[1]).volumes && es[0].snap in Abs(cs[j]).snapshots
    ensures Abs(cs[1]).volumes[es[0].v] == Abs(cs[0]).snapshots[es[0].snap]
    ensures Abs(cs[j]).snapshots[es[0].snap] == Abs(cs[0]).snapshots[es[0].snap]
    ensures es[0].imageId in cs[j].repo.images && cs[j].repo.images[es[0].imageId].snapshotId == es[0].snap
  {
    hide Inv, Abs, Effect, Enabled, Next;
    ForkNamesImage(cs[0], es[0]);
    RunRefines(cs, es);
    assert StepIs(cs, es, 0);
    SnapshotsImmutable(cs, es, 0, j, es[0].snap);
    ImagesKept(cs, es, 0, j, es[0].imageId);
  }
}
