/**
 The block device over a session, with sequential read-ahead.
 */
module Devices {
  import opened Bytes
  import opened Chunks
  import opened Volumes
  import opened Snapshots
  import opened Backends

  /** Where a read starts and how long it is. */
  datatype Extent = Extent(offset: int, length: int)

  /** How many of the last reads each began where the one before ended. */
  function Streak(history: seq<Extent>): nat {
    if |history| < 2 then 0
    else if Adjacent(history[|history| - 2], history[|history| - 1]) then 1 + Streak(history[..|history| - 1])
    else 0
  }

  predicate Adjacent(a: Extent, b: Extent) {
    b.offset == Wrap64(a.offset + a.length)
  }

  /** The last `n` pairs of neighbouring reads are all adjacent. */
  lemma {:induction false} StreakMeansAdjacent(history: seq<Extent>, n: nat)
    requires n < |history|
    ensures Streak(history) >= n <==>
            forall i :: |history| - n <= i < |history| ==> Adjacent(history[i - 1], history[i])
  {
    if n > 0 {
      var front := history[..|history| - 1];
      if |front| > n - 1 {
        StreakMeansAdjacent(front, n - 1);
      }
      if forall i :: |history| - n <= i < |history| ==> Adjacent(history[i - 1], history[i]) {
        assert forall i :: |front| - (n - 1) <= i < |front| ==> Adjacent(front[i - 1], front[i]);
      }
      if Streak(history) >= n {
        assert Adjacent(history[|history| - 2], history[|history| - 1]);
        forall i | |history| - n <= i < |history|
          ensures Adjacent(history[i - 1], history[i])
        {
          if i < |history| - 1 {
            assert Adjacent(front[i - 1], front[i]);
          }
        }
      }
    }
  }

  lemma StreakSnoc(history: seq<Extent>, e: Extent)
    ensures Streak(history + [e]) ==
            if history != [] && Adjacent(history[|history| - 1], e) then Streak(history) + 1 else 0
  {
    assert (history + [e])[..|history|] == history;
  }

  /** The window test as int64 computes it accepts a request exactly when it lies in the window or its end overflows. */
  lemma HitTestOnInt64(offset: Int64, length: Int64, windowOffset: Int64, windowLength: Int64)
    requires 0 <= windowOffset <= offset && 0 < length && 0 <= windowLength
    ensures
      var start := offset - windowOffset;
      && (Wrap64(start + length) <= windowLength <==> start + length <= windowLength || start + length >= TWO_63)
      && (Wrap64(start + length) < start <==> start + length >= TWO_63)
  {
  }

  /** How much to fetch for a read that brings the streak to `streak`. */
  function Planned(streak: nat, readAheadBytes: int, sizeBytes: int, offset: int, length: int): int {
    if streak < 2 then length
    else
      var most := Max(readAheadBytes, length);
      var remaining := Wrap64(sizeBytes - offset);
      if 0 < remaining < most then remaining else most
  }

  /**
   The outcome of a read through the device. It agrees with reading the
   backend, except that a request that straddles the end may be cut there
   (`truncates`), one whose end overflows may hit the window (`overflows`), and
   the fetch for one that misses it may overreach (`overreaches`).
   */
  ghost predicate DeviceAnswer(g: Geometry, view: Bytes, offset: int, length: int, truncates: bool, overflows: bool,
                               overreaches: bool, faultless: bool, r: Result<Bytes>)
    requires |view| == g.Size()
  {
    && (r.Ok? ==>
          && !overflows && !overreaches
          && !g.Overreaches(offset, length)
          && if g.Contains(offset, length) then r.value == view[offset..offset + length]
             else truncates && 0 <= offset <= |view| && r.value == view[offset..])
    && (r == Err(Panic) ==> overflows || overreaches)
    && (overflows ==> r == Err(Panic))
    && (faultless && !overflows ==>
          if overreaches then r == Err(Panic) else r.Ok? <==> g.Contains(offset, length) || truncates)
  }

  /** The answer cut to what was asked for. */
  function Cut(r: Result<Bytes>, length: int): Result<Bytes> {
    if r.Ok? && 0 <= length <= |r.value| then Ok(r.value[..length]) else r
  }

  /** The read straddles the end of the device and would be cut there. */
  predicate Straddles(g: Geometry, streak: nat, offset: int, length: int) {
    streak >= 2 && g.chunkSize > 0 && 0 <= offset < g.sizeBytes < offset + length
  }

  /** A planned fetch covers a valid request and stays in the device. */
  lemma PlanCovers(g: Geometry, streak: nat, readAheadBytes: Int64, offset: Int64, length: Int64)
    requires g.Int64Sized() && 0 < length && 0 < readAheadBytes
    ensures
      var n := Planned(streak, readAheadBytes, g.sizeBytes, offset, length);
      && 0 < n <= Max(readAheadBytes, length)
      && (g.Contains(offset, length) ==> length <= n && g.Contains(offset, n))
      && (Straddles(g, streak, offset, length) ==> n == g.sizeBytes - offset < length)
      && (g.Contains(offset, n) ==> g.Contains(offset, length) || Straddles(g, streak, offset, length))
  {
  }

  /** Answering from a planned fetch is right, and panics exactly if the fetch overreaches. */
  lemma FetchAnswers(g: Geometry, view: Bytes, offset: Int64, length: Int64, streak: nat, readAheadBytes: Int64,
                     faultless: bool, r: Result<Bytes>)
    requires |view| == g.Size() && g.Int64Sized() && 0 < length && 0 < readAheadBytes
    requires ReadAnswer(g, view, offset, Planned(streak, readAheadBytes, g.sizeBytes, offset, length), faultless, r)
    ensures DeviceAnswer(g, view, offset, length, Straddles(g, streak, offset, length), false,
                         g.Overreaches(offset, Planned(streak, readAheadBytes, g.sizeBytes, offset, length)),
                         faultless, Cut(r, length))
  {
    hide Planned, Fits;
    PlanCovers(g, streak, readAheadBytes, offset, length);
    if g.Overreaches(offset, length) {
      LongerOverreaches(g, offset, length, Planned(streak, readAheadBytes, g.sizeBytes, offset, length));
    }
  }

  /** So is answering directly. */
  lemma DirectAnswers(g: Geometry, view: Bytes, offset: int, length: int, faultless: bool, r: Result<Bytes>)
    requires |view| == g.Size() && ReadAnswer(g, view, offset, length, faultless, r)
    ensures DeviceAnswer(g, view, offset, length, false, false, g.Overreaches(offset, length), faultless, r)
  {
    hide Fits;
  }

  /** A request inside the window is one that the backend would answer. */
  lemma HitAnswers(g: Geometry, view: Bytes, offset: int, length: int, truncates: bool, faultless: bool, data: Bytes)
    requires |view| == g.Size() && 0 <= offset && 0 < length && offset + length <= |view|
    requires data == view[offset..offset + length] && !g.Overreaches(offset, length)
    ensures DeviceAnswer(g, view, offset, length, truncates, false, false, faultless, Ok(data))
  {
    hide Fits;
  }

  class StorageDevice {
    const backend: Backend
    const sessionId: Id
    const sizeBytes: Int64
    const commitOnDisconnect: bool
    const commitBatch: int
    const readAheadBytes: Int64

    var haveLastRead: bool
    var lastReadOffset: int
    var lastReadLength: int
    var sequentialStreak: nat
    var windowOffset: int
    var windowData: Option<Bytes>

    /** The reads that have passed through read-ahead since the last write. */
    ghost var history: seq<Extent>

    constructor (backend: Backend, sessionId: Id, commitOnDisconnect: bool, commitBatch: int, readAheadBytes: Int64)
      requires backend.Valid() && sessionId in backend.sessions
      ensures Valid() && this.backend == backend && this.sessionId == sessionId
      ensures this.commitOnDisconnect == commitOnDisconnect && this.commitBatch == commitBatch
      ensures this.readAheadBytes == readAheadBytes && history == [] && windowData.None?
    {
      this.backend, this.sessionId := backend, sessionId;
      sizeBytes := backend.sessions[sessionId].volume.geometry.sizeBytes;
      this.commitOnDisconnect, this.commitBatch, this.readAheadBytes := commitOnDisconnect, commitBatch, readAheadBytes;
      haveLastRead, lastReadOffset, lastReadLength, sequentialStreak := false, 0, 0, 0;
      windowOffset, windowData := 0, None;
      history := [];
    }

    /** The read history is what the fields say it is. */
    ghost predicate HistoryOk()
      reads this
    {
      && haveLastRead == (history != [])
      && (haveLastRead ==> history[|history| - 1] == Extent(lastReadOffset, lastReadLength))
      && sequentialStreak == Streak(history)
    }

    /** A window, when there is one, is a slice of `view`, and one that could be fetched. */
    ghost predicate WindowOk(view: Bytes, chunkSize: int)
      reads this
    {
      windowData.Some? ==>
        && chunkSize > 0
        && 0 <= windowOffset && windowOffset + |windowData.value| <= |view|
        && windowData.value == view[windowOffset..windowOffset + |windowData.value|]
        && Fits(windowOffset, |windowData.value|, chunkSize)
    }

    ghost predicate Valid()
      reads this, backend, backend.repo, backend.store, backend.cache, backend.sessions.Values
    {
      && backend.Valid()
      && sessionId in backend.sessions
      && backend.sessions[sessionId].volume.geometry.sizeBytes == sizeBytes
      && HistoryOk()
      && WindowOk(View(), Geometry().chunkSize)
    }

    ghost function View(): Bytes
      reads this, backend, backend.store, backend.sessions.Values
      requires sessionId in backend.sessions
    {
      backend.ViewOf(sessionId)
    }

    ghost predicate Intact()
      reads this, backend, backend.sessions.Values
      requires sessionId in backend.sessions
    {
      Volumes.Intact(backend.sessions[sessionId].State())
    }

    /** The request lies in the device. */
    ghost predicate InRange(offset: int, length: int)
      reads this, backend, backend.sessions.Values
      requires sessionId in backend.sessions
    {
      backend.sessions[sessionId].volume.geometry.Contains(offset, length)
    }

    /** No I/O operation fails and no overlay file is lost. */
    ghost predicate Faultless()
      reads this, backend, backend.sessions.Values
      requires sessionId in backend.sessions
    {
      backend.Reliable() && Intact()
    }

    ghost function VolumeId(): Id
      reads this, backend, backend.sessions.Values
      requires sessionId in backend.sessions
    {
      backend.sessions[sessionId].volume.volumeId
    }

    ghost function Geometry(): Geometry
      reads this, backend, backend.sessions.Values
      requires sessionId in backend.sessions
    {
      backend.sessions[sessionId].volume.geometry
    }

    /** The read continues the last one. */
    predicate Continues(offset: int)
      reads this
    {
      haveLastRead && offset == Wrap64(lastReadOffset + lastReadLength)
    }

    /** The streak that a read at `offset` makes. */
    function StreakWith(offset: int): nat
      reads this
    {
      if Continues(offset) then sequentialStreak + 1 else 0
    }

    /** The read continues a streak and straddles the end of the device. */
    ghost predicate Truncates(offset: int, length: int)
      reads this, backend, backend.sessions.Values
      requires sessionId in backend.sessions
    {
      readAheadBytes > 0 && length > 0 && Straddles(Geometry(), StreakWith(offset), offset, length)
    }

    /** The read starts in or after the window, and its end, counted from the start of the window, overflows. */
    predicate Overflows(offset: int, length: int)
      reads this
    {
      && readAheadBytes > 0 && length > 0
      && windowData.Some? && windowOffset <= offset && offset - windowOffset + length >= TWO_63
    }

    /** The read lies in the window. */
    predicate Hits(offset: int, length: int)
      reads this
    {
      && readAheadBytes > 0 && length > 0
      && windowData.Some? && windowOffset <= offset && offset - windowOffset + length <= |windowData.value|
    }

    /** What is asked of the backend for a read that misses the window. */
    function FetchLength(offset: int, length: int): int
      reads this
    {
      if readAheadBytes <= 0 || length <= 0 then length
      else Planned(StreakWith(offset), readAheadBytes, sizeBytes, offset, length)
    }

    /** The read misses the window, and what is fetched for it overreaches. */
    ghost predicate FetchOverreaches(offset: int, length: int)
      reads this, backend, backend.sessions.Values
      requires sessionId in backend.sessions
    {
      && !Hits(offset, length) && !Overflows(offset, length)
      && Geometry().Overreaches(offset, FetchLength(offset, length))
    }

    method RecordRead(offset: int, length: int)
      requires HistoryOk()
      modifies this`haveLastRead, this`lastReadOffset, this`lastReadLength, this`sequentialStreak, this`history
      ensures HistoryOk()
      ensures history == old(history) + [Extent(offset, length)]
      ensures sequentialStreak == old(StreakWith(offset))
    {
      StreakSnoc(history, Extent(offset, length));
      if Continues(offset) {
        sequentialStreak := sequentialStreak + 1;
      } else {
        sequentialStreak := 0;
      }
      haveLastRead := true;
      lastReadOffset, lastReadLength := offset, length;
      history := history + [Extent(offset, length)];
    }

    /**
     A hit needs the whole request inside the window. The end is computed in
     int64: an overflow passes the test, and the slice after it panics.
     */
    method ReadAheadHit(offset: Int64, length: Int64, ghost view: Bytes, ghost chunkSize: int)
      returns (r: Option<Result<Bytes>>)
      requires HistoryOk() && WindowOk(view, chunkSize) && |view| < TWO_63 && length > 0 && readAheadBytes > 0
      modifies this`haveLastRead, this`lastReadOffset, this`lastReadLength, this`sequentialStreak, this`history
      ensures HistoryOk()
      ensures r == Some(Err(Panic)) <==> Overflows(offset, length)
      ensures r.Some? && r.value.Ok? <==> Hits(offset, length)
      ensures r.Some? && r.value.Ok? ==>
                && 0 <= offset && offset + length <= |view| && r.value.value == view[offset..offset + length]
                && chunkSize > 0 && Fits(offset, length, chunkSize)
      ensures r.Some? && r.value.Err? ==> r.value.error == Panic
      ensures r.Some? ==> windowData.Some? && history == old(history) + [Extent(offset, length)]
      ensures r.None? ==> unchanged(this)
    {
      hide Streak, Fits;
      if windowData.None? || offset < windowOffset {
        return None;
      }
      HitTestOnInt64(offset, length, windowOffset, |windowData.value|);
      var start := Wrap64(offset - windowOffset);
      var end := Wrap64(start + length);
      if start < 0 || end > |windowData.value| {
        return None;
      }
      RecordRead(offset, length);
      if end < start {
        return Some(Err(Panic));
      }
      r := Some(Ok(windowData.value[start..end]));
      SliceOfSlice(view, windowOffset, |windowData.value|, start, end);
      FitsWithin(windowOffset, |windowData.value|, offset, length, chunkSize);
    }

    /** How much to fetch, and whether to keep it as a window. */
    method PlanReadAhead(offset: int, length: int) returns (fetchLength: int, storeWindow: bool)
      requires HistoryOk() && length > 0
      modifies this`haveLastRead, this`lastReadOffset, this`lastReadLength, this`sequentialStreak, this`history
      ensures HistoryOk()
      ensures history == old(history) + [Extent(offset, length)] && Streak(history) == old(StreakWith(offset))
      ensures fetchLength == Planned(Streak(history), readAheadBytes, sizeBytes, offset, length)
      ensures storeWindow <==> fetchLength > length
      ensures
        var most := if readAheadBytes < length then length else readAheadBytes;
        && (old(StreakWith(offset)) < 2 ==> fetchLength == length)
        && (old(StreakWith(offset)) >= 2 && 0 <= offset && 0 <= sizeBytes ==>
              fetchLength == if offset < sizeBytes < offset + most then sizeBytes - offset else most)
    {
      hide Streak;
      var sequential := Continues(offset);
      RecordRead(offset, length);
      if !sequential || sequentialStreak < 2 {
        return length, false;
      }
      fetchLength := readAheadBytes;
      if fetchLength < length {
        fetchLength := length;
      }
      var remaining := Wrap64(sizeBytes - offset);
      if remaining > 0 && fetchLength > remaining {
        fetchLength := remaining;
      }
      storeWindow := fetchLength > length;
    }

    /** A miss: fetches what the plan says, keeps a window if it is larger than the request, and answers from it. */
    method FetchAhead(offset: Int64, length: Int64, now: int) returns (r: Result<Bytes>, ghost fetched: int)
      requires Valid() && length > 0 && readAheadBytes > 0
      modifies this, backend`tally, backend.cache, backend.Of(sessionId)
      ensures Valid() && View() == old(View())
      ensures backend.sessions[sessionId].State() == old(backend.sessions[sessionId].State())
      ensures DeviceAnswer(Geometry(), View(), offset, length, old(Truncates(offset, length)), false,
                           Geometry().Overreaches(offset, fetched), Faultless(), r)
      ensures history == old(history) + [Extent(offset, length)] && fetched == old(FetchLength(offset, length))
      ensures fetched == Planned(Streak(history), readAheadBytes, sizeBytes, offset, length)
      ensures if r.Ok? && fetched > length then windowData.Some? && windowOffset == offset
              else windowData == old(windowData) && windowOffset == old(windowOffset)
    {
      hide Backend.Valid, Streak, Planned, Volumes.Intact, DeviceAnswer, Volumes.View;
      var fetchLength, storeWindow := PlanReadAhead(offset, length);
      SizeFacts();
      PlanCovers(Geometry(), Streak(history), readAheadBytes, offset, length);
      fetched := fetchLength;
      var data := backend.Read(sessionId, offset, fetchLength, now);
      FetchAnswers(Geometry(), View(), offset, length, Streak(history), readAheadBytes, Faultless(), data);
      if data.Ok? && storeWindow {
        windowOffset, windowData := offset, Some(data.value);
      }
      r := Cut(data, length);
    }

    lemma SizeFacts()
      requires Valid()
      ensures Geometry().Int64Sized() && |View()| == Geometry().Size() < TWO_63
    {
      hide RepoOk, Backend.Ready;
    }

    /**
     Reads through the window; see `DeviceAnswer`. `fetched` is what was asked of
     the backend, or nothing on a hit: no more than the request unless the
     last two pairs of reads were adjacent.
     */
    method ReadAt(offset: Int64, length: Int64, now: int) returns (r: Result<Bytes>, ghost fetched: Option<int>)
      requires Valid()
      modifies this, backend`tally, backend.cache, backend.Of(sessionId)
      ensures Valid() && View() == old(View())
      ensures backend.sessions[sessionId].State() == old(backend.sessions[sessionId].State())
      ensures DeviceAnswer(Geometry(), View(), offset, length, old(Truncates(offset, length)),
                           old(Overflows(offset, length)), old(FetchOverreaches(offset, length)), Faultless(), r)
      ensures history == if readAheadBytes > 0 && length > 0 then old(history) + [Extent(offset, length)]
                         else old(history)
      ensures old(windowData).None? ==> fetched.Some?
      ensures fetched.Some? ==>
                fetched.value == if readAheadBytes <= 0 || length <= 0 then length
                                 else Planned(Streak(history), readAheadBytes, sizeBytes, offset, length)
      ensures if r.Ok? && fetched.Some? && fetched.value > length then windowData.Some? && windowOffset == offset
              else windowData == old(windowData) && windowOffset == old(windowOffset)
    {
      hide Backend.Valid, Streak, Planned, Volumes.Intact, Volumes.View, Fits;
      SizeFacts();
      if readAheadBytes <= 0 || length <= 0 {
        fetched := Some(length);
        r := backend.Read(sessionId, offset, length, now);
        DirectAnswers(Geometry(), View(), offset, length, Faultless(), r);
        return;
      }
      var hit := ReadAheadHit(offset, length, View(), Geometry().chunkSize);
      if hit.Some? {
        if hit.value.Ok? {
          HitAnswers(Geometry(), View(), offset, length, old(Truncates(offset, length)), Faultless(), hit.value.value);
        }
        return hit.value, None;
      }
      ghost var n;
      r, n := FetchAhead(offset, length, now);
      fetched := Some(n);
    }

    method InvalidateReadAhead()
      modifies this
      ensures HistoryOk() && windowData.None? && history == []
    {
      haveLastRead, lastReadOffset, lastReadLength, sequentialStreak := false, 0, 0, 0;
      windowOffset, windowData := 0, None;
      history := [];
    }

    /** Writes through to the backend; see `WriteAnswer`. No window survives. */
    method WriteAt(offset: Int64, data: Bytes, spare: Bytes, now: int) returns (r: Result<()>, ghost done: nat)
      requires Valid() && |data| < TWO_63
      modifies this, backend`tally, backend.cache, backend.Of(sessionId)
      ensures Valid() && Geometry() == old(Geometry())
      ensures WriteAnswer(Geometry(), old(View()), offset, data, spare, done, View(),
                          backend.Reliable() && old(Intact()), r)
      ensures old(Intact()) ==> Intact()
      ensures windowData.None? && history == []
    {
      hide Backend.Valid, Volumes.Intact, WriteAnswer, Volumes.View;
      InvalidateReadAhead();
      r, done := backend.Write(sessionId, offset, data, spare, now);
    }

    /** Flushing succeeds only if every dirty chunk has its overlay file; the device is not changed. */
    method Flush() returns (r: Result<()>)
      requires Valid()
      ensures r.Ok? ==> Intact()
      ensures backend.Reliable() && Intact() ==> r.Ok?
    {
      hide RepoOk, Backend.Ready;
      r := backend.FlushDirty(sessionId);
    }

    /**
     Commits and stops. If anything fails the session is either gone, with the
     pointer at a snapshot that decodes to the device, or open and unchanged,
     with the pointer where it was or at such a snapshot.
     */
    method CommitAndStop(snap: Id, now: int) returns (r: Result<()>)
      requires Valid() && backend.FreshName(snap)
      modifies backend`sessions, backend`tally, backend.cache, backend.store, backend.repo`snapshots,
               backend.repo`volumes, backend.Of(sessionId)
      ensures backend.Valid()
      ensures r.Ok? ==> sessionId !in backend.sessions
      ensures if sessionId in backend.sessions
              then backend.sessions == old(backend.sessions) && Valid() && View() == old(View())
              else backend.sessions == old(backend.sessions) - {sessionId}
      ensures || (sessionId in backend.sessions && backend.repo.volumes == old(backend.repo.volumes))
              || backend.Published(old(VolumeId()), snap, old(View()))
      ensures backend.Reliable() && old(Intact()) ==> r.Ok?
    {
      hide Backend.Valid, PublishedIn, Volumes.View, Volumes.Intact, Volumes.Committed;
      hide HistoryOk, WindowOk, RepoExtends, StoreExtends, Backend.FreshName;
      var committed, stats := backend.CommitWithOptions(sessionId, commitBatch, snap, now);
      if committed.Err? {
        return Err(committed.error);
      }
      r := backend.Stop(sessionId);
    }

    /** Ends the session: with commit-on-disconnect by a commit and a stop, else by a flush. */
    method Disconnect(snap: Id, now: int) returns (r: Result<()>)
      requires Valid() && backend.FreshName(snap)
      modifies backend`sessions, backend`tally, backend.cache, backend.store, backend.repo`snapshots,
               backend.repo`volumes, backend.Of(sessionId)
      ensures backend.Valid()
      ensures commitOnDisconnect && r.Ok? ==> sessionId !in backend.sessions
      ensures if sessionId in backend.sessions
              then backend.sessions == old(backend.sessions) && Valid() && View() == old(View())
              else commitOnDisconnect && backend.sessions == old(backend.sessions) - {sessionId}
      ensures || (sessionId in backend.sessions && backend.repo.volumes == old(backend.repo.volumes))
              || (commitOnDisconnect && backend.Published(old(VolumeId()), snap, old(View())))
      ensures backend.Reliable() && old(Intact()) ==> r.Ok?
      ensures !commitOnDisconnect && r.Ok? ==> Intact()
    {
      hide Backend.Valid, PublishedIn, Volumes.View, HistoryOk, WindowOk;
      if commitOnDisconnect {
        r := CommitAndStop(snap, now);
      } else {
        r := Flush();
      }
    }
  }

  /** Two adjacent reads of one byte on an idle device make a streak of one and leave no window. */
  method ReadTwice(d: StorageDevice, at: Int64, now: int)
    requires d.Valid() && d.readAheadBytes > 0 && d.history == [] && d.windowData.None? && 0 <= at < TWO_63 - 2
    modifies d, d.backend`tally, d.backend.cache, d.backend.Of(d.sessionId)
    ensures d.Valid() && d.windowData.None? && d.history == [Extent(at, 1), Extent(at + 1, 1)]
    ensures d.backend.sessions[d.sessionId].State() == old(d.backend.sessions[d.sessionId].State())
  {
    hide Backend.Valid, StorageDevice.WindowOk, Volumes.Intact, View, Streak, Planned, DeviceAnswer;
    hide Volumes.Geometry.Overreaches;
    ghost var fetched;
    var data;
    data, fetched := d.ReadAt(at, 1, now);
    StreakFrom(d.history, at);
    NothingExtra(d.readAheadBytes, d.sizeBytes, 0, at);
    data, fetched := d.ReadAt(at + 1, 1, now);
    assert d.history == [Extent(at, 1), Extent(at + 1, 1)];
    StreakFrom(d.history, at);
    NothingExtra(d.readAheadBytes, d.sizeBytes, 1, at + 1);
  }

  /**
   Cutting does occur. On any idle device of at least three bytes two adjacent
   reads and a third that runs past the end succeed with a short answer, where
   the backend refuses the same request.
   */
  method ShortAnswer(d: StorageDevice, now: int) returns (device: Result<Bytes>, direct: Result<Bytes>)
    requires d.Valid() && d.Faultless() && d.Geometry().Addressable() && d.readAheadBytes > 0
    requires d.history == [] && d.windowData.None? && d.InRange(0, 3)
    modifies d, d.backend`tally, d.backend.cache, d.backend.Of(d.sessionId)
    ensures device.Ok? && |device.value| == d.sizeBytes - 2 < d.sizeBytes
    ensures direct.Err?
  {
    hide Backend.Valid, StorageDevice.WindowOk, Volumes.Intact, View, Streak, Planned, Fits;
    hide Volumes.Geometry.Overreaches;
    d.SizeFacts();
    ReadTwice(d, 0, now);
    StreakFrom(d.history, 0);
    direct := d.backend.Read(d.sessionId, 2, d.sizeBytes, now);
    AddressableNeverOverreaches(d.Geometry(), 2, d.FetchLength(2, d.sizeBytes));
    ghost var fetched;
    device, fetched := d.ReadAt(2, d.sizeBytes, now);
  }

  /**
   So does the panic. On any idle device of more than three bytes with
   read-ahead of more than one, three adjacent reads of one byte leave a
   window, and a read of four bytes at the last int64 offset then panics,
   where the backend refuses it.
   */
  method WindowPanics(d: StorageDevice, now: int) returns (device: Result<Bytes>, direct: Result<Bytes>)
    requires d.Valid() && d.Faultless() && d.Geometry().Addressable() && d.readAheadBytes > 1
    requires d.history == [] && d.windowData.None? && d.InRange(0, 4)
    modifies d, d.backend`tally, d.backend.cache, d.backend.Of(d.sessionId)
    ensures device == Err(Panic)
    ensures direct.Err? && direct.error != Panic
  {
    hide Backend.Valid, StorageDevice.WindowOk, Volumes.Intact, View, Streak, Planned, Fits;
    hide Volumes.Geometry.Overreaches;
    d.SizeFacts();
    ReadTwice(d, 0, now);
    StreakFrom(d.history, 0);
    SomethingExtra(d.readAheadBytes, d.sizeBytes);
    AddressableNeverOverreaches(d.Geometry(), 2, d.FetchLength(2, 1));
    ghost var fetched;
    var data;
    data, fetched := d.ReadAt(2, 1, now);
    StreakSnoc([Extent(0, 1), Extent(1, 1)], Extent(2, 1));
    direct := d.backend.Read(d.sessionId, TWO_63 - 1, 4, now);
    device, fetched := d.ReadAt(TWO_63 - 1, 4, now);
  }

  /**
   And the overreach. On a volume of 2^63-1 bytes in chunks of 4 with read-ahead
   of 4, the third of three adjacent reads of one byte is valid and the backend
   answers it, but the fetch of four bytes reaches into the last chunk.
   */
  method PrefetchPanics(d: StorageDevice, now: int) returns (device: Result<Bytes>, direct: Result<Bytes>)
    requires d.Valid() && d.Faultless() && d.Geometry() == Volumes.Geometry(TWO_63 - 1, 4) && d.readAheadBytes == 4
    requires d.history == [] && d.windowData.None?
    modifies d, d.backend`tally, d.backend.cache, d.backend.Of(d.sessionId)
    ensures direct.Ok? && |direct.value| == 1
    ensures device == Err(Panic)
  {
    hide Backend.Valid, StorageDevice.WindowOk, Volumes.Intact, View, Streak, Planned, Fits;
    d.SizeFacts();
    LastChunks();
    ReadTwice(d, TWO_63 - 8, now);
    StreakFrom(d.history, TWO_63 - 8);
    direct := d.backend.Read(d.sessionId, TWO_63 - 6, 1, now);
    ghost var fetched;
    device, fetched := d.ReadAt(TWO_63 - 6, 1, now);
  }

  lemma LastChunks()
    ensures Fits(TWO_63 - 6, 1, 4) && !Fits(TWO_63 - 6, 4, 4)
    ensures Planned(2, 4, TWO_63 - 1, TWO_63 - 6, 1) == 4
  {
  }

  lemma StreakFrom(history: seq<Extent>, at: int)
    requires 0 <= at < TWO_63 - 2
    ensures |history| == 1 ==> Streak(history) == 0
    ensures history == [Extent(at, 1), Extent(at + 1, 1)] ==> Streak(history) == 1
  {
  }

  lemma NothingExtra(readAheadBytes: int, sizeBytes: int, streak: nat, offset: int)
    requires streak < 2
    ensures Planned(streak, readAheadBytes, sizeBytes, offset, 1) == 1
  {
  }

  lemma SomethingExtra(readAheadBytes: Int64, sizeBytes: Int64)
    requires readAheadBytes > 1 && sizeBytes > 3
    ensures Planned(2, readAheadBytes, sizeBytes, 2, 1) > 1
  {
  }
}
