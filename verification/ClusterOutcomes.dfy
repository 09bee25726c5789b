/**
 The cluster's operations and the backend's methods have the same outcomes: what
 the contracts of `Read`, `Write` and `CommitWithOptions` promise is what the
 cluster's events add up to, when no other session's event comes between.
 */
module ClusterOutcomes {
  import opened Bytes
  import opened Chunks
  import opened Wire
  import opened Volumes
  import opened Snapshots
  import opened Cluster
  import opened ClusterInvariant
  import opened ClusterSteps
  import opened ClusterTheorems

  /** A finished read of the cluster is an answer in the backend's sense. */
  lemma ReadIsAnswered(c: Cluster, sid: Id)
    requires Inv(c) && sid in c.sessions && CallEnabled(c, c.sessions[sid], EndJob)
    requires c.sessions[sid].phase.job.ReadJob?
    ensures
      var s := c.sessions[sid];
      ReadAnswer(s.state.volume.geometry, View(s.state, c.store.chunks), s.phase.job.offset, s.phase.job.length,
                 false, Ok(s.phase.job.got))
  {
    hide Inv, RepoOk, PointerOk, SessionOk, View, Ranges, Fits;
    SessionOf(c, sid);
    var s := c.sessions[sid];
    ReachedFacts(s.phase.job.offset, s.phase.job.length, s.state.volume.geometry.chunkSize, s.phase.k);
  }

  /**
   A write of the cluster, at any moment, has done to the device what a
   backend's write that stops there has. The invariant says it, and the steps
   of `ClusterSteps` do the work; this puts it in the backend's terms.
   */
  lemma WriteIsAnswered(c: Cluster, sid: Id)
    requires Inv(c) && sid in c.sessions && c.sessions[sid].phase.Working? && c.sessions[sid].phase.job.WriteJob?
    ensures
      var s := c.sessions[sid];
      var job := s.phase.job;
      && s.state.volume.geometry.chunkSize > 0
      && WriteAnswer(s.state.volume.geometry, job.before, job.offset, job.data, [], s.phase.k,
                     View(s.state, c.store.chunks), false,
                     if s.phase.k == |SessionRanges(s)| then Ok(()) else Err(Io))
  {
    hide Inv, RepoOk, PointerOk, SessionOk, View, Ranges, Fits;
    SessionOf(c, sid);
  }

  /** What one session's commit has done so far, from the state `c0` in which it began with the session at `s0`. */
  ghost predicate Underway(c0: Cluster, s0: SessionState, c: Cluster, sid: Id) {
    && Inv(c) && sid in c.sessions
    && var s := c.sessions[sid];
    && var view := View(s0, c0.store.chunks);
    && View(s.state, c.store.chunks) == view
    && match s.phase
       case Uploading(_, _, _, _) => s.state == s0 && c.repo == c0.repo
       case Recording(_, _) => s.state == s0 && c.repo == c0.repo
       case Publishing(_, _) => s.state == s0 && c.repo.volumes == c0.repo.volumes
       case Clearing =>
         && s.state.baseSnapshot.Some?
         && s.state.volume == s0.volume && s.state.manifest == Committed(s0.manifest, s0.files)
         && PublishedIn(c.repo, c.store, s0.volume.volumeId, s.state.baseSnapshot.value, view)
       case Idle => exists snap, r :: CommitOutcome(c0.repo, c0.store, s0, c.repo, c.store, s.state, snap, r)
       case _ => false
  }

  /** The calls of a commit, after its beginning. */
  predicate CommitCall(call: Call) {
    match call
    case StoreExists => true
    case StorePut(_) => true
    case CacheChunk(_) => true
    case SaveManifest(_, _) => true
    case CreateSnapshot(_) => true
    case UpdateLatest(_) => true
    case RemoveFile(_) => true
    case ClearOverlay => true
    case Fail => true
    case _ => false
  }

  /** None of them changes what the session shows. */
  lemma CommitCallKeepsView(c: Cluster, sid: Id, call: Call)
    requires Inv(c) && sid in c.sessions && CallEnabled(c, c.sessions[sid], call)
    requires CommitCall(call) || call.BeginCommit?
    requires !c.sessions[sid].phase.Opening? && !c.sessions[sid].phase.Working?
    ensures
      var d := NextCall(c, sid, call);
      && Inv(d) && sid in d.sessions && !d.sessions[sid].phase.Opening?
      && View(d.sessions[sid].state, d.store.chunks) == View(c.sessions[sid].state, c.store.chunks)
  {
    hide Inv, View, NextCall, CallEnabled, CallEffect, Abs;
    StaysOpen(c, sid, call);
    CallRefines(c, sid, call);
    ShownWhenIdle(c, sid);
    ShownWhenIdle(NextCall(c, sid, call), sid);
  }

  lemma StaysOpen(c: Cluster, sid: Id, call: Call)
    requires sid in c.sessions && CallEnabled(c, c.sessions[sid], call)
    requires CommitCall(call) || call.BeginCommit?
    requires !c.sessions[sid].phase.Opening? && !c.sessions[sid].phase.Working?
    ensures sid in NextCall(c, sid, call).sessions && !NextCall(c, sid, call).sessions[sid].phase.Opening?
    ensures CallEffect(c, sid, call).Nothing? || CallEffect(c, sid, call).Snap? || CallEffect(c, sid, call).Point?
  {
    hide ToWire, View, HashChunk;
  }

  /** The pointer update publishes what the session shows, reported or not. */
  lemma UpdatePublishes(c: Cluster, sid: Id, reported: bool)
    requires Inv(c) && sid in c.sessions && CallEnabled(c, c.sessions[sid], UpdateLatest(reported))
    ensures c.sessions[sid].phase.Publishing?
    ensures
      var s, d := c.sessions[sid], NextCall(c, sid, UpdateLatest(reported));
      PublishedIn(d.repo, d.store, s.state.volume.volumeId, s.phase.snap, View(s.state, c.store.chunks))
  {
    hide Inv, SnapshotOk, LatestContent, View, Abs, NextCall, CallEnabled, CallEffect;
    UpdateShape(c, sid, reported);
    var s, d := c.sessions[sid], NextCall(c, sid, UpdateLatest(reported));
    RecordedSnap(c, sid);
    CallRefines(c, sid, UpdateLatest(reported));
    VolumeContentAt(d, s.state.volume.volumeId);
    ShownWhenIdle(c, sid);
    SessionsOf(d);
    RecordedIsOk(d.repo, d.store, s.phase.snap);
  }

  lemma UpdateShape(c: Cluster, sid: Id, reported: bool)
    requires sid in c.sessions && CallEnabled(c, c.sessions[sid], UpdateLatest(reported))
    ensures
      var s, d := c.sessions[sid], NextCall(c, sid, UpdateLatest(reported));
      && s.phase.Publishing? && sid in d.sessions
      && d.repo.snapshots == c.repo.snapshots
      && s.state.volume.volumeId in d.repo.volumes
      && d.repo.volumes[s.state.volume.volumeId].latest == Some(s.phase.snap)
      && CallEffect(c, sid, UpdateLatest(reported)) == Point(s.state.volume.volumeId, sid)
      && d.sessions[sid] == if reported
                            then s.(state := s.state.(baseSnapshot := Some(s.phase.snap), manifest := s.phase.manifest),
                                    phase := Clearing)
                            else s.(phase := Idle)
  {
  }

  /**
   Up to the pointer update the session and the pointers are as they were, and
   up to the recording the whole repository.
   */
  lemma BeforeUpdate(c: Cluster, sid: Id, call: Call)
    requires sid in c.sessions && CallEnabled(c, c.sessions[sid], call) && CommitCall(call)
    requires !call.UpdateLatest?
    requires c.sessions[sid].phase.Uploading? || c.sessions[sid].phase.Recording? || c.sessions[sid].phase.Publishing?
    ensures
      var s, d := c.sessions[sid], NextCall(c, sid, call);
      && sid in d.sessions && d.sessions[sid].state == s.state && d.repo.volumes == c.repo.volumes
      && (|| (d.sessions[sid].phase.Uploading? && s.phase.Uploading? && d.repo == c.repo)
          || (d.sessions[sid].phase.Recording? && s.phase.Uploading? && d.repo == c.repo)
          || d.sessions[sid].phase.Publishing?
          || d.sessions[sid].phase.Idle?)
      && !call.ClearOverlay?
  {
    hide ToWire, HashChunk;
  }

  /** After it the repository stays, and the session keeps its new manifest. */
  lemma AfterUpdate(c: Cluster, sid: Id, call: Call)
    requires sid in c.sessions && CallEnabled(c, c.sessions[sid], call) && CommitCall(call)
    requires c.sessions[sid].phase.Clearing?
    ensures
      var s, d := c.sessions[sid], NextCall(c, sid, call);
      && sid in d.sessions && d.repo == c.repo && d.store == c.store
      && (d.sessions[sid].phase.Clearing? || d.sessions[sid].phase.Idle?)
      && d.sessions[sid].state.volume == s.state.volume && d.sessions[sid].state.manifest == s.state.manifest
      && d.sessions[sid].state.baseSnapshot == s.state.baseSnapshot
      && (call.ClearOverlay? ==>
            d.sessions[sid].phase.Idle? && d.sessions[sid].state == s.state.(files := map[], dirty := {}))
  {
  }

  lemma RecordedSnap(c: Cluster, sid: Id)
    requires Inv(c) && sid in c.sessions && c.sessions[sid].phase.Publishing?
    ensures c.sessions[sid].phase.snap in c.repo.snapshots
    ensures c.sessions[sid].phase.manifest == Committed(c.sessions[sid].state.manifest, c.sessions[sid].state.files)
  {
    hide RepoOk, PointerOk, SessionOk, ToWire, Committed;
  }

  /** One more call of the commit. */
  lemma UnderwayStep(c0: Cluster, s0: SessionState, c: Cluster, sid: Id, call: Call)
    requires Underway(c0, s0, c, sid) && !c.sessions[sid].phase.Idle? && CommitCall(call)
    requires CallEnabled(c, c.sessions[sid], call)
    ensures Underway(c0, s0, NextCall(c, sid, call), sid)
    ensures call.ClearOverlay? ==> Finished(c0, s0, NextCall(c, sid, call), sid)
  {
    hide Inv, View, PublishedIn, Committed, NextCall, CallEnabled;
    CommitCallKeepsView(c, sid, call);
    var s, d := c.sessions[sid], NextCall(c, sid, call);
    if s.phase.Clearing? {
      AfterUpdate(c, sid, call);
    } else if call.UpdateLatest? {
      UpdateShape(c, sid, call.reported);
      UpdatePublishes(c, sid, call.reported);
      RecordedSnap(c, sid);
    } else {
      BeforeUpdate(c, sid, call);
    }
    if d.sessions[sid].phase.Idle? {
      var snap := if s.phase.Clearing? then s.state.baseSnapshot.value
                  else if s.phase.Publishing? then s.phase.snap
                  else "";
      var record := Snapshot(snap, s0.volume.volumeId, ManifestKey(snap));
      var r: Result<Snapshot> := if call.ClearOverlay? then Ok(record) else Err(Io);
      assert CommitOutcome(c0.repo, c0.store, s0, d.repo, d.store, d.sessions[sid].state, snap, r);
    }
  }

  /** The commit has succeeded. */
  ghost predicate Finished(c0: Cluster, s0: SessionState, c: Cluster, sid: Id) {
    && sid in c.sessions && c.sessions[sid].phase.Idle?
    && exists snap: Id, r: Result<Snapshot> ::
         r.Ok? && CommitOutcome(c0.repo, c0.store, s0, c.repo, c.store, c.sessions[sid].state, snap, r)
  }

  /** The events are a commit of `sid` and nothing else. */
  predicate SoloCommit(cs: seq<Cluster>, es: seq<Event>, sid: Id) {
    && |cs| == |es| + 1 && |es| > 0
    && es[0].By? && es[0].sid == sid && es[0].call.BeginCommit?
    && (forall i :: 1 <= i < |es| ==> es[i].By? && es[i].sid == sid && CommitCall(es[i].call))
    && (forall i :: 1 <= i < |es| ==> sid in cs[i].sessions && !cs[i].sessions[sid].phase.Idle?)
  }

  /**
   Every commit of the cluster that runs by itself, wherever it fails, has the
   outcome that the backend's commit promises; and a success if it gets to the
   end.
   */
  lemma {:induction false} SoloCommitOutcome(cs: seq<Cluster>, es: seq<Event>, sid: Id)
    requires IsRun(cs, es) && SoloCommit(cs, es, sid) && Inv(cs[0])
    ensures sid in cs[0].sessions && sid in cs[|es|].sessions
    ensures Underway(cs[0], cs[0].sessions[sid].state, cs[|es|], sid)
    ensures |es| > 1 && es[|es| - 1].call.ClearOverlay? ==> Finished(cs[0], cs[0].sessions[sid].state, cs[|es|], sid)
    decreases |es|
  {
    hide Inv, Underway, Finished;
    var n := |es|;
    assert Enabled(cs[n - 1], es[n - 1]) && cs[n] == Next(cs[n - 1], es[n - 1]);
    if n == 1 {
      BeginsUnderway(cs[0], sid, es[0].call);
    } else {
      SoloCommitOutcome(cs[..n], es[..n - 1], sid);
      InSession(cs[0], cs[0].sessions[sid].state, cs[n - 1], sid);
      UnderwayStep(cs[0], cs[0].sessions[sid].state, cs[n - 1], sid, es[n - 1].call);
      InSession(cs[0], cs[0].sessions[sid].state, cs[n], sid);
    }
  }

  lemma InSession(c0: Cluster, s0: SessionState, c: Cluster, sid: Id)
    requires Underway(c0, s0, c, sid)
    ensures sid in c.sessions
  {
  }

  lemma BeginsUnderway(c: Cluster, sid: Id, call: Call)
    requires Inv(c) && sid in c.sessions && CallEnabled(c, c.sessions[sid], call) && call.BeginCommit?
    ensures sid in NextCall(c, sid, call).sessions && Underway(c, c.sessions[sid].state, NextCall(c, sid, call), sid)
  {
    CommitCallKeepsView(c, sid, call);
    hide Inv, View, PublishedIn, Committed, ToWire;
  }
}
