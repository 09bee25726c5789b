/**
 The request loop of the block-device server, over a storage device.
 */
module Servers {
  import opened Bytes
  import opened Chunks
  import opened Volumes
  import opened Snapshots
  import opened Backends
  import opened Devices
  import opened Nbd
  import opened Exchanges
  import opened Handshake

  /** The device is usable: it is valid and its size is the length of what it shows. */
  ghost predicate Serving(d: StorageDevice)
    reads d, d.backend, d.backend.repo, d.backend.store, d.backend.cache, d.backend.sessions.Values
  {
    d.Valid() && d.sizeBytes >= 0 && d.Geometry().chunkSize > 0
  }

  lemma ServingSize(d: StorageDevice)
    requires Serving(d)
    ensures |d.View()| == d.sizeBytes == d.Geometry().Size() && d.backend.Valid()
  {
    hide Backend.Valid;
  }

  /** What the nodes share. */
  datatype Shared = Shared(repo: Repo, store: Store)

  ghost function SharedBy(b: Backend): Shared
    reads b.repo, b.store
  {
    Shared(b.repo.State(), b.store.State())
  }

  /** What other nodes may make of it in turn: each state is good, grown from the one before, and leaves `snap` free. */
  ghost predicate Grows(before: Shared, others: seq<Shared>, snap: Id)
    decreases |others|
  {
    others != [] ==> Grown(before, others[0], snap) && Grows(others[0], others[1..], snap)
  }

  ghost predicate Grown(before: Shared, after: Shared, snap: Id) {
    && RepoOk(after.repo, after.store)
    && StoreExtends(before.store, after.store) && RepoExtends(before.repo, after.repo)
    && ManifestKey(snap) !in after.store.manifests && snap !in after.repo.snapshots
  }

  /** Other nodes act. The device shows what it showed. */
  method OthersAct(d: StorageDevice, next: Shared, ghost snap: Id)
    requires Serving(d) && Grown(SharedBy(d.backend), next, snap)
    modifies d.backend.store, d.backend.repo
    ensures Serving(d) && d.View() == old(d.View()) && SharedBy(d.backend) == next && d.backend.FreshName(snap)
  {
    hide Backend.Valid, RepoOk, StoreExtends, RepoExtends, Volumes.View, StorageDevice.HistoryOk;
    d.backend.store.chunks, d.backend.store.manifests := next.store.chunks, next.store.manifests;
    d.backend.repo.volumes, d.backend.repo.snapshots, d.backend.repo.images :=
      next.repo.volumes, next.repo.snapshots, next.repo.images;
    d.backend.GrownAround();
  }

  /** How a turn of the loop ends: with the next one, with the stream, with a disconnect, or with the program. */
  datatype Status = Next | Closed | Left | Crashed

  method WriteReply(conn: Connection, handle: nat, errno: nat, data: Bytes)
    modifies conn`output
    ensures conn.output == old(conn.output) + Reply(handle, errno, data)
  {
    conn.Write(PutUint(4, REPLY_MAGIC) + PutUint(4, errno) + PutUint(8, handle));
    if |data| > 0 {
      conn.Write(data);
    }
  }

  /** The reply to a read for what the device returned; none if that was a panic. */
  function ReadReply(q: Request, data: Result<Bytes>): Bytes {
    if data.Ok? then Reply(q.handle, 0, data.value)
    else if data.error == Panic then []
    else Reply(q.handle, EIO, [])
  }

  /** A read that passed the range test is answered as an exchange, or panics for a stated reason. */
  lemma ReadExchange(g: Geometry, readAheadBytes: int, flat: Bytes, q: Request, truncates: bool, overflows: bool,
                     overreaches: bool, faultless: bool, data: Result<Bytes>)
    requires g.chunkSize > 0 && g.sizeBytes == |flat| < TWO_63 && q.cmd == CMD_READ && Passes(|flat|, q)
    requires DeviceAnswer(g, flat, q.Signed(), q.length, truncates, overflows, overreaches, faultless, data)
    requires overflows ==> readAheadBytes > 0 && !q.Representable()
    requires overreaches ==> MayCrash(g, readAheadBytes, q)
    requires truncates ==> |flat| < q.Signed() + q.length && q.Signed() < |flat|
    ensures if data == Err(Panic) then MayCrash(g, readAheadBytes, q)
            else Exchange(flat, q, faultless, ReadReply(q, data), flat) && (faultless ==> !Unfit(g, q))
  {
    hide Reply, Fits;
  }

  /** Why a read through the device may panic. */
  lemma ReadMayCrash(d: StorageDevice, q: Request)
    requires d.Valid() && q.cmd == CMD_READ && q.length <= MAX_REQUEST_BYTES
    ensures d.Overflows(q.Signed(), q.length) ==> d.readAheadBytes > 0 && !q.Representable()
    ensures d.FetchOverreaches(q.Signed(), q.length) ==> MayCrash(d.Geometry(), d.readAheadBytes, q)
  {
    hide Backend.Valid, StorageDevice.HistoryOk, Volumes.View, Planned, Fits, MayCrash;
    d.SizeFacts();
    if d.FetchOverreaches(q.Signed(), q.length) {
      if d.readAheadBytes > 0 && q.length > 0 {
        PlanCovers(d.Geometry(), d.StreakWith(q.Signed()), d.readAheadBytes, q.Signed(), q.length);
      }
      FetchMayCrash(d.Geometry(), d.readAheadBytes, q, d.FetchLength(q.Signed(), q.length));
    }
  }

  /** A read that passed the range test. */
  method ServeRead(conn: Connection, d: StorageDevice, q: Request, now: int) returns (status: Status)
    requires Serving(d) && q.length <= MAX_REQUEST_BYTES && Passes(d.sizeBytes, q) && q.cmd == CMD_READ
    modifies conn`output, d, d.backend`tally, d.backend.cache, d.backend.Of(d.sessionId)
    ensures Serving(d) && d.View() == old(d.View())
    ensures d.Intact() == old(d.Intact()) && d.Geometry() == old(d.Geometry())
    ensures old(conn.output) <= conn.output
    ensures status == Next ==>
              && Exchange(d.View(), q, old(d.Faultless()), conn.output[|old(conn.output)|..], d.View())
              && (old(d.Faultless()) ==> !Unfit(d.Geometry(), q))
    ensures status == Crashed ==> conn.output == old(conn.output) && MayCrash(d.Geometry(), d.readAheadBytes, q)
    ensures status == Next || status == Crashed
  {
    hide Backend.Valid, Reply, Volumes.Intact, Volumes.View, DeviceAnswer, Exchange, MayCrash, Unfit, Planned;
    ServingSize(d);
    var data;
    ghost var fetched;
    ghost var at, n := q.Signed(), q.length;
    ghost var truncates, overflows, overreaches := d.Truncates(at, n), d.Overflows(at, n), d.FetchOverreaches(at, n);
    ReadMayCrash(d, q);
    data, fetched := d.ReadAt(q.Signed(), q.length, now);
    ReadExchange(d.Geometry(), d.readAheadBytes, d.View(), q, truncates, overflows, overreaches, d.Faultless(), data);
    if data.Err? {
      if data.error == Panic {
        return Crashed;
      }
      WriteReply(conn, q.handle, EIO, []);
      return Next;
    }
    WriteReply(conn, q.handle, 0, data.value);
    return Next;
  }

  /** A write that passed the range test is answered as an exchange, or panics exactly if it is unfit. */
  lemma WriteExchange(g: Geometry, flat: Bytes, q: Request, done: nat, after: Bytes, faultless: bool, r: Result<()>)
    requires g.chunkSize > 0 && g.sizeBytes == |flat| < TWO_63
    requires q.cmd == CMD_WRITE && Passes(|flat|, q) && |q.payload| == q.length
    requires WriteAnswer(g, flat, q.Signed(), q.payload, [], done, after, faultless, r)
    ensures if r == Err(Panic) then Unfit(g, q)
            else && Exchange(flat, q, faultless, Reply(q.handle, if r.Err? then EIO else 0, []), after)
                 && (faultless ==> !Unfit(g, q))
  {
    hide Reply, Splice, PrefixApplied, Fits, Spills, Applied, Ranges;
    if g.Contains(q.Signed(), q.length) {
      NoSpareNoSpill(q.Signed(), q.length, g.chunkSize);
      if r.Ok? {
        WriteDone(g, flat, q.Signed(), q.payload, [], done, after, faultless, r);
      } else {
        AppliedPrefix(g, flat, q.Signed(), q.payload, done, after);
      }
    }
  }

  /** A write that passed the range test, its payload already read into a buffer of just that size. */
  method ServeWrite(conn: Connection, d: StorageDevice, q: Request, now: int) returns (status: Status)
    requires Serving(d) && Passes(d.sizeBytes, q) && q.cmd == CMD_WRITE && |q.payload| == q.length <= MAX_REQUEST_BYTES
    modifies conn`output, d, d.backend`tally, d.backend.cache, d.backend.Of(d.sessionId)
    ensures Serving(d) && (old(d.Intact()) ==> d.Intact()) && d.Geometry() == old(d.Geometry())
    ensures old(conn.output) <= conn.output
    ensures status == Next ==>
              && Exchange(old(d.View()), q, old(d.Faultless()), conn.output[|old(conn.output)|..], d.View())
              && (old(d.Faultless()) ==> !Unfit(d.Geometry(), q))
    ensures status == Crashed ==> conn.output == old(conn.output) && Unfit(d.Geometry(), q)
    ensures status == Next || status == Crashed
  {
    hide Backend.Valid, Reply, Volumes.Intact, Volumes.View, Exchange, WriteAnswer, Unfit;
    ServingSize(d);
    d.SizeFacts();
    ghost var count;
    var done;
    done, count := d.WriteAt(q.Signed(), q.payload, [], now);
    WriteExchange(d.Geometry(), old(d.View()), q, count, d.View(), old(d.Faultless()), done);
    if done == Err(Panic) {
      return Crashed;
    }
    WriteReply(conn, q.handle, if done.Err? then EIO else 0, []);
    return Next;
  }

  lemma FlushExchange(flat: Bytes, q: Request, faultless: bool, failed: bool)
    requires q.cmd == CMD_FLUSH && Passes(|flat|, q) && (faultless ==> !failed)
    ensures Exchange(flat, q, faultless, Reply(q.handle, if failed then EIO else 0, []), flat)
  {
    hide Reply;
  }

  lemma UnknownExchange(flat: Bytes, q: Request, faultless: bool)
    requires q.cmd != CMD_READ && q.cmd != CMD_WRITE && q.cmd != CMD_FLUSH && q.cmd != CMD_DISCONNECT
    ensures Exchange(flat, q, faultless, Reply(q.handle, EINVAL, []), flat)
  {
    hide Reply;
  }

  /** A flush that passed the range test is answered with an I/O error unless every dirty chunk has its overlay file. */
  ghost predicate Synced(d: StorageDevice, q: Request, sent: Bytes)
    reads d, d.backend, d.backend.sessions.Values
    requires d.sessionId in d.backend.sessions && d.sizeBytes >= 0
  {
    q.cmd == CMD_FLUSH && Passes(d.sizeBytes, q) ==> d.Intact() || sent == Reply(q.handle, EIO, [])
  }

  /** A request that passed the range test and is not a disconnect, its payload already read. */
  method ServeInside(conn: Connection, d: StorageDevice, q: Request, now: int) returns (status: Status)
    requires Serving(d) && Passes(d.sizeBytes, q) && q.length <= MAX_REQUEST_BYTES && q.cmd != CMD_DISCONNECT
    requires q.cmd == CMD_WRITE ==> |q.payload| == q.length
    modifies conn`output, d, d.backend`tally, d.backend.cache, d.backend.Of(d.sessionId)
    ensures Serving(d) && (old(d.Intact()) ==> d.Intact()) && d.Geometry() == old(d.Geometry())
    ensures old(conn.output) <= conn.output
    ensures status == Next ==>
              && Exchange(old(d.View()), q, old(d.Faultless()), conn.output[|old(conn.output)|..], d.View())
              && (old(d.Faultless()) ==> !Unfit(d.Geometry(), q))
              && Synced(d, q, conn.output[|old(conn.output)|..])
    ensures status == Crashed ==> conn.output == old(conn.output) && MayCrash(d.Geometry(), d.readAheadBytes, q)
    ensures status == Next || status == Crashed
  {
    hide Backend.Valid, StorageDevice.HistoryOk, StorageDevice.WindowOk, Reply, Volumes.Intact, Exchange, Odd, Passes,
         Geometry.Overreaches;
    ServingSize(d);
    if q.cmd == CMD_READ {
      status := ServeRead(conn, d, q, now);
    } else if q.cmd == CMD_WRITE {
      status := ServeWrite(conn, d, q, now);
    } else if q.cmd == CMD_FLUSH {
      var done := d.Flush();
      FlushExchange(d.View(), q, d.Faultless(), done.Err?);
      WriteReply(conn, q.handle, if done.Err? then EIO else 0, []);
      status := Next;
    } else {
      UnknownExchange(d.View(), q, d.Faultless());
      WriteReply(conn, q.handle, EINVAL, []);
      status := Next;
    }
  }

  /**
   How the connection leaves the device. The session is open and shows `flat`,
   unless a disconnect was to commit it. Then the volume's latest snapshot
   decodes to `flat` and the session is gone; only a failure may keep the
   session, which still shows `flat`.
   */
  ghost predicate Ended(d: StorageDevice, v: Id, snap: Id, flat: Bytes, left: bool, faultless: bool)
    reads d, d.backend, d.backend.repo, d.backend.store, d.backend.cache, d.backend.sessions.Values
  {
    && (d.sessionId in d.backend.sessions ==> Serving(d) && d.View() == flat)
    && if left && d.commitOnDisconnect
       then && (d.sessionId !in d.backend.sessions ==> d.backend.Published(v, snap, flat))
            && (faultless ==> d.sessionId !in d.backend.sessions)
       else d.sessionId in d.backend.sessions
  }

  /** A request that the range test refuses. */
  lemma RefusedExchange(g: Geometry, flat: Bytes, q: Request, faultless: bool)
    requires !Passes(|flat|, q) && q.length <= MAX_REQUEST_BYTES && g.sizeBytes == |flat|
    ensures Exchange(flat, q, faultless, Reply(q.handle, EINVAL, []), flat) && !Unfit(g, q)
  {
    hide Reply, Fits;
  }

  /** The range test as int64 computes it. */
  lemma RangeTest(size: Int64, q: Request)
    requires size >= 0 && q.length <= MAX_REQUEST_BYTES
    ensures q.Signed() < 0 || Wrap64(q.Signed() + q.length) > size <==> !Passes(size, q)
  {
  }

  /** An accepted disconnect. Whatever fails, the device is still there or its content is published. */
  method ServeDisconnect(d: StorageDevice, snap: Id, now: int)
    requires Serving(d) && d.backend.FreshName(snap)
    modifies d.backend`sessions, d.backend`tally, d.backend.cache, d.backend.store, d.backend.repo`snapshots,
             d.backend.repo`volumes, d.backend.Of(d.sessionId)
    ensures d.backend.Valid()
    ensures Ended(d, old(d.VolumeId()), snap, old(d.View()), true, old(d.Faultless()))
  {
    hide Backend.Valid, StorageDevice.HistoryOk, StorageDevice.WindowOk, Volumes.View, PublishedIn, Volumes.Intact;
    var done := d.Disconnect(snap, now);
  }

  /** The rest of a turn, once a header has been accepted. */
  method HandleAccepted(conn: Connection, d: StorageDevice, header: Request, snap: Id, now: int)
    returns (status: Status)
    requires Serving(d) && d.backend.FreshName(snap) && header.length <= MAX_REQUEST_BYTES
    modifies conn, d, d.backend`tally, d.backend`sessions, d.backend.cache, d.backend.store,
             d.backend.repo`snapshots, d.backend.repo`volumes, d.backend.Of(d.sessionId)
    ensures d.backend.Valid() && old(conn.output) <= conn.output
    ensures status != Next ==> conn.output == old(conn.output)
    ensures status == Closed || status == Left <==> Last(d.sizeBytes, WithPayload(header, old(conn.input)))
    ensures status == Closed || status == Left ==>
              && (status == Left <==> header.cmd == CMD_DISCONNECT)
              && Ended(d, old(d.VolumeId()), snap, old(d.View()), status == Left, old(d.Faultless()))
    ensures status == Next ==>
              && Kept(d) && d.backend.FreshName(snap) && SharedBy(d.backend) == old(SharedBy(d.backend))
              && conn.input == AfterPayload(header, old(conn.input))
              && Exchange(old(d.View()), WithPayload(header, old(conn.input)), old(d.Faultless()),
                          conn.output[|old(conn.output)|..], d.View())
              && (old(d.Faultless()) ==> !Unfit(old(d.Geometry()), header))
              && Synced(d, header, conn.output[|old(conn.output)|..])
    ensures status == Crashed ==> MayCrash(old(d.Geometry()), d.readAheadBytes, header)
  {
    hide Backend.Valid, StorageDevice.HistoryOk, StorageDevice.WindowOk, Reply, Volumes.Intact, Volumes.View;
    hide Exchange, PublishedIn, MayCrash, Unfit, Passes;
    ServingSize(d);
    d.SizeFacts();
    ghost var q := WithPayload(header, conn.input);
    RangeTest(d.sizeBytes, header);
    SameRange(d.Geometry(), d.readAheadBytes, d.sizeBytes, header, q);
    var offset := header.Signed();
    if offset < 0 || Wrap64(offset + header.length) > d.sizeBytes {
      RefusedExchange(d.Geometry(), d.View(), q, d.Faultless());
      if header.cmd == CMD_WRITE && header.length > 0 {
        conn.Discard(header.length);
      }
      WriteReply(conn, header.handle, EINVAL, []);
      return Next;
    }
    if header.cmd == CMD_DISCONNECT {
      ServeDisconnect(d, snap, now);
      return Left;
    }
    var payload: Bytes := [];
    if header.cmd == CMD_WRITE {
      var data := conn.ReadFull(header.length);
      if data.Err? {
        return Closed;
      }
      payload := data.value;
    }
    status := ServeInside(conn, d, header.(payload := payload), now);
  }

  /** The device is still being served: same session, same geometry, no overlay file lost. */
  twostate predicate Kept(d: StorageDevice)
    reads d, d.backend, d.backend.repo, d.backend.store, d.backend.cache, d.backend.sessions.Values
    requires old(d.sessionId in d.backend.sessions)
  {
    && Serving(d) && d.backend.sessions == old(d.backend.sessions)
    && d.Geometry() == old(d.Geometry())
    && (old(d.Intact()) ==> d.Intact())
  }

  lemma SameRange(g: Geometry, readAheadBytes: int, size: nat, header: Request, q: Request)
    requires q == header.(payload := q.payload)
    ensures Passes(size, q) == Passes(size, header) && Unfit(g, q) == Unfit(g, header)
    ensures MayCrash(g, readAheadBytes, q) == MayCrash(g, readAheadBytes, header)
  {
    hide Geometry.Overreaches;
  }

  /**
   One turn of the request loop. Whatever the device does, a request that is
   answered takes its header and, if it is a write, its payload, and nothing
   else off the stream.
   */
  method HandleRequest(conn: Connection, d: StorageDevice, snap: Id, now: int) returns (status: Status)
    requires Serving(d) && d.backend.FreshName(snap)
    modifies conn, d, d.backend`tally, d.backend`sessions, d.backend.cache, d.backend.store,
             d.backend.repo`snapshots, d.backend.repo`volumes, d.backend.Of(d.sessionId)
    ensures d.backend.Valid() && old(conn.output) <= conn.output
    ensures status != Next ==> conn.output == old(conn.output)
    ensures status == Closed || status == Left <==>
            !Acceptable(old(conn.input)) || Last(d.sizeBytes, Incoming(old(conn.input)))
    ensures status == Closed || status == Left ==>
              && (status == Left <==>
                    Acceptable(old(conn.input)) && Incoming(old(conn.input)).cmd == CMD_DISCONNECT)
              && Ended(d, old(d.VolumeId()), snap, old(d.View()), status == Left, old(d.Faultless()))
    ensures status == Next ==>
              && Kept(d) && d.backend.FreshName(snap) && SharedBy(d.backend) == old(SharedBy(d.backend))
              && conn.input == Following(old(conn.input))
              && Exchange(old(d.View()), Incoming(old(conn.input)), old(d.Faultless()),
                          conn.output[|old(conn.output)|..], d.View())
              && (old(d.Faultless()) ==> !Unfit(old(d.Geometry()), Incoming(old(conn.input))))
              && Synced(d, Incoming(old(conn.input)), conn.output[|old(conn.output)|..])
              && |conn.output| >= |old(conn.output)| + 16
              && conn.output[|old(conn.output)|..][8..16] == old(conn.input)[8..16]
    ensures status == Crashed ==> MayCrash(old(d.Geometry()), d.readAheadBytes, Incoming(old(conn.input)))
  {
    hide Backend.Valid, StorageDevice.HistoryOk, StorageDevice.WindowOk, Reply, Volumes.Intact, Volumes.View;
    hide Exchange, DecodeHeader, Magic, WithPayload, AfterPayload, Last, Unfit, MayCrash, Passes, PublishedIn;
    ServingSize(d);
    d.SizeFacts();
    ghost var input := conn.input;
    var header := conn.ReadFull(HEADER_BYTES);
    if header.Err? || Magic(header.value) != REQUEST_MAGIC {
      return Closed;
    }
    var q := DecodeHeader(header.value);
    if q.length > MAX_REQUEST_BYTES {
      return Closed;
    }
    HeaderOf(q, conn.input);
    SameRange(d.Geometry(), d.readAheadBytes, d.sizeBytes, q, WithPayload(q, conn.input));
    status := HandleAccepted(conn, d, q, snap, now);
    if status == Next {
      ExchangeOnWire(old(d.View()), input, old(d.Faultless()), conn.output[|old(conn.output)|..], d.View());
    }
  }

  lemma HeaderOf(header: Request, rest: Bytes)
    ensures WithPayload(header, rest) == header.(payload := WithPayload(header, rest).payload)
  {
  }

  /**
   How a stream of requests was served: the replies and arrays are a `Trace`, a
   crash is one that `Ran` allows, it ends with a disconnect if it `Leaves`,
   and if nothing failed, the bytes are those of the reference server exactly
   when no odd request is reached and there is no crash.
   */
  ghost predicate Served(g: Geometry, readAheadBytes: int, flat: Bytes, input: Bytes, faultless: bool,
                         replies: seq<Bytes>, flats: seq<Bytes>, end: Status)
  {
    && |flats| == |replies| + 1 && flats[0] == flat
    && Trace(Requests(|flat|, input), flats, replies, faultless)
    && Ran(g, readAheadBytes, Requests(|flat|, input), replies, end == Crashed, faultless)
    && end != Next && (end != Crashed ==> (end == Left <==> Leaves(|flat|, input)))
    && (g.Addressable() && Plain(|flat|, input) ==> end != Crashed)
    && (faultless ==>
          && (Joined(replies) == Serve(flat, input).output <==> Plain(|flat|, input) && end != Crashed)
          && (Plain(|flat|, input) && end != Crashed ==> flats[|replies|] == Serve(flat, input).flat))
  }

  /** What the request loop knows after some requests: their replies, and what is left of the stream. */
  ghost predicate Looping(g: Geometry, flat: Bytes, stream: Bytes, faultless: bool, input: Bytes, taken: seq<Request>,
                          replies: seq<Bytes>, flats: seq<Bytes>)
  {
    && |taken| == |replies| && |flats| == |replies| + 1 && flats[0] == flat
    && Trace(taken, flats, replies, faultless)
    && (faultless ==> forall i :: 0 <= i < |taken| ==> !Unfit(g, taken[i]))
    && taken + Requests(|flat|, input) == Requests(|flat|, stream)
    && Leaves(|flat|, input) == Leaves(|flat|, stream)
  }

  /** The loop stops: nothing more to answer, or a crash on the next request. */
  lemma LoopEnds(g: Geometry, readAheadBytes: int, flat: Bytes, stream: Bytes, faultless: bool, input: Bytes,
                 taken: seq<Request>, replies: seq<Bytes>, flats: seq<Bytes>, end: Status)
    requires Looping(g, flat, stream, faultless, input, taken, replies, flats) && |flat| < TWO_63 && end != Next
    requires end == Closed || end == Left <==> !Acceptable(input) || Last(|flat|, Incoming(input))
    requires end != Crashed ==> (end == Left <==> Acceptable(input) && Incoming(input).cmd == CMD_DISCONNECT)
    requires end == Crashed ==> MayCrash(g, readAheadBytes, Incoming(input))
    ensures Served(g, readAheadBytes, flat, stream, faultless, replies, flats, end)
  {
    hide Magic, DecodeHeader, WithPayload, AfterPayload, Exchange, Last, MayCrash, Unfit, Serve, Plain, Joined;
    hide Geometry.Addressable;
    if Plain(|flat|, stream) && g.Addressable() {
      PlainNeverCrashes(g, readAheadBytes, |flat|, stream, replies, end == Crashed, faultless);
    }
    if faultless {
      TraceIsServe(stream, flats, replies);
    }
  }

  /** The loop goes on: one request, one reply, one new array. */
  lemma LoopGoesOn(g: Geometry, flat: Bytes, stream: Bytes, faultless: bool, input: Bytes, taken: seq<Request>,
                   replies: seq<Bytes>, flats: seq<Bytes>, reply: Bytes, after: Bytes)
    requires Looping(g, flat, stream, faultless, input, taken, replies, flats)
    requires Acceptable(input) && !Last(|flat|, Incoming(input)) && (faultless ==> !Unfit(g, Incoming(input)))
    requires Exchange(flats[|replies|], Incoming(input), faultless, reply, after)
    ensures Looping(g, flat, stream, faultless, Following(input), taken + [Incoming(input)], replies + [reply],
                    flats + [after])
    ensures Joined(replies + [reply]) == Joined(replies) + reply
  {
    hide Magic, DecodeHeader, Incoming, Following, Exchange, Last, Unfit, Requests, Leaves, Joined;
    JoinedSnoc(replies, reply);
    RequestsUnfold(|flat|, input);
    var q, rest := Incoming(input), Requests(|flat|, Following(input));
    assert taken + ([q] + rest) == taken + [q] + rest;
  }

  lemma RequestsUnfold(size: nat, input: Bytes)
    requires Acceptable(input) && !Last(size, Incoming(input))
    ensures Requests(size, input) == [Incoming(input)] + Requests(size, Following(input))
    ensures Leaves(size, input) == Leaves(size, Following(input))
  {
  }

  lemma LoopStarts(g: Geometry, flat: Bytes, stream: Bytes, faultless: bool)
    ensures Looping(g, flat, stream, faultless, stream, [], [], [flat]) && Joined([]) == []
  {
    hide Requests, Leaves;
  }

  /**
   The request loop, on every stream. What is sent is the replies of a `Trace`:
   one for each request, from one array that only the writes change, with an
   I/O error where something failed. It ends after the last request, with the
   array in the session or, after a disconnect that commits, in the volume's
   latest snapshot; or the program crashes, and `Ran` says on which requests it
   may. If nothing fails, the bytes sent are those of the reference server
   exactly when no odd request is reached and there is no crash, and then the
   array left behind is the reference's too. Between any two requests other
   nodes may act (`others`), and nothing of this changes.
   */
  method HandleRequests(conn: Connection, d: StorageDevice, snap: Id, now: int, others: seq<Shared>)
    returns (ghost replies: seq<Bytes>, ghost flats: seq<Bytes>, end: Status)
    requires Serving(d) && d.backend.FreshName(snap) && Grows(SharedBy(d.backend), others, snap)
    modifies conn, d, d.backend`tally, d.backend`sessions, d.backend.cache, d.backend.store,
             d.backend.repo, d.backend.Of(d.sessionId)
    ensures d.backend.Valid() && conn.output == old(conn.output) + Joined(replies)
    ensures Served(old(d.Geometry()), d.readAheadBytes, old(d.View()), old(conn.input), old(d.Faultless()), replies,
                   flats, end)
    ensures end != Crashed ==>
              Ended(d, old(d.VolumeId()), snap, flats[|replies|], end == Left, old(d.Faultless()))
  {
    hide Backend.Valid, StorageDevice.HistoryOk, StorageDevice.WindowOk, Volumes.Intact, Volumes.View, Ended, Serve;
    hide Magic, DecodeHeader, Exchange, Requests, Joined, Trace, Ran, Plain, Last, Leaves, Unfit, MayCrash;
    hide Backend.FreshName, Looping, Served, Grown, Synced;
    ServingSize(d);
    d.SizeFacts();
    ghost var stream, g, start, faultless := conn.input, d.Geometry(), d.View(), d.Faultless();
    ghost var taken: seq<Request> := [];
    replies, flats := [], [d.View()];
    LoopStarts(g, start, stream, faultless);
    var pending := others;
    while true
      invariant Kept(d) && d.backend.FreshName(snap)
      invariant Grows(SharedBy(d.backend), pending, snap)
      invariant |flats| == |replies| + 1 && flats[|replies|] == d.View()
      invariant conn.output == old(conn.output) + Joined(replies)
      invariant Looping(g, start, stream, faultless, conn.input, taken, replies, flats)
      decreases |conn.input|
    {
      if pending != [] {
        OthersAct(d, pending[0], snap);
        pending := pending[1..];
      }
      ghost var before, flat, input, sound := conn.output, d.View(), conn.input, d.Faultless();
      ServingSize(d);
      end := HandleRequest(conn, d, snap, now);
      if end != Next {
        if end != Crashed {
          EndedWeaker(d, old(d.VolumeId()), snap, flat, end == Left, sound, faultless);
        }
        LoopEnds(g, d.readAheadBytes, start, stream, faultless, input, taken, replies, flats, end);
        return;
      }
      ghost var q, reply := Incoming(input), conn.output[|before|..];
      ExchangeWeaker(flat, q, sound, faultless, reply, d.View());
      LoopGoesOn(g, start, stream, faultless, input, taken, replies, flats, reply, d.View());
      taken, replies, flats := taken + [q], replies + [reply], flats + [d.View()];
    }
  }

  lemma ExchangeWeaker(flat: Bytes, q: Request, sound: bool, faultless: bool, sent: Bytes, after: Bytes)
    requires Exchange(flat, q, sound, sent, after) && (faultless ==> sound)
    ensures Exchange(flat, q, faultless, sent, after)
  {
    hide Reply, Answer;
  }

  lemma EndedWeaker(d: StorageDevice, v: Id, snap: Id, flat: Bytes, left: bool, sound: bool, faultless: bool)
    requires Ended(d, v, snap, flat, left, sound) && (faultless ==> sound)
    ensures Ended(d, v, snap, flat, left, faultless)
  {
    hide Serving, PublishedIn;
  }

  lemma NotEnded(d: StorageDevice, v: Id, snap: Id, faultless: bool)
    requires Serving(d)
    ensures Ended(d, v, snap, d.View(), false, faultless)
  {
  }

  /** A connection from greeting to close. */
  method Handle(conn: Connection, d: StorageDevice, accepts: Bytes -> bool, snap: Id, now: int, others: seq<Shared>)
    returns (ghost replies: seq<Bytes>, ghost flats: seq<Bytes>, end: Status)
    requires Serving(d) && d.backend.FreshName(snap) && Grows(SharedBy(d.backend), others, snap)
    modifies conn, d, d.backend`tally, d.backend`sessions, d.backend.cache, d.backend.store,
             d.backend.repo, d.backend.Of(d.sessionId)
    ensures d.backend.Valid() && |flats| == |replies| + 1 && flats[0] == old(d.View())
    ensures end != Crashed ==>
              Ended(d, old(d.VolumeId()), snap, flats[|replies|], end == Left, old(d.Faultless()))
    ensures |old(conn.input)| < 4 ==>
              end == Closed && replies == [] && conn.output == old(conn.output) + Greeting()
    ensures |old(conn.input)| >= 4 ==>
              var n := Options(old(conn.input)[4..], d.sizeBytes, NoZeroes(old(conn.input)[..4]), accepts);
              && conn.output == old(conn.output) + Greeting() + n.output + Joined(replies)
              && (!n.granted ==> end == Closed && replies == [])
              && (n.granted ==>
                    Served(old(d.Geometry()), d.readAheadBytes, old(d.View()), n.rest, old(d.Faultless()), replies,
                           flats, end))
  {
    hide Backend.Valid, StorageDevice.HistoryOk, StorageDevice.WindowOk, Volumes.Intact, Volumes.View, Serve, Options;
    hide Joined, Trace, Ran, Requests, Greeting, Plain, Ended, Leaves;
    end, replies, flats := Closed, [], [d.View()];
    LoopStarts(d.Geometry(), d.View(), conn.input, d.Faultless());
    ServingSize(d);
    NotEnded(d, d.VolumeId(), snap, d.Faultless());
    var granted := Negotiate(conn, d.sizeBytes, accepts);
    if granted {
      replies, flats, end := HandleRequests(conn, d, snap, now, others);
    }
  }

  /** What a client sends: flags, some options the server does not know, one that opens the export, then requests. */
  ghost function Script(flags: Bytes, os: seq<ClientOption>, last: ClientOption, qs: seq<Request>): Bytes {
    flags + (EncodeOptions(os) + (EncodeOption(last) + EncodeAll(qs)))
  }

  /** What the server sends before the first reply. */
  ghost function Opening(os: seq<ClientOption>, last: ClientOption, size: nat, noZeroes: bool,
                         accepts: Bytes -> bool): Bytes
    requires OptionOutcome(last, size, noZeroes, accepts).Some?
  {
    Greeting() + (Refusals(os) + OptionOutcome(last, size, noZeroes, accepts).value)
  }

  /**
   End to end. A client that negotiates and then sends well-formed requests gets
   the replies of a `Trace` of those before its first accepted disconnect, all
   of them unless the program crashes. If nothing fails they are, byte for
   byte, those of a server that holds one flat array, with any read-ahead and
   any cache sizes, exactly when none of the requests is odd and there is no
   crash. That array is what the session shows in the end, or, after a
   disconnect that commits, what its volume's latest snapshot decodes to.
   */
  method ServeClient(conn: Connection, d: StorageDevice, accepts: Bytes -> bool, snap: Id, now: int,
                     others: seq<Shared>,
                     ghost flags: Bytes, ghost os: seq<ClientOption>, ghost last: ClientOption, ghost qs: seq<Request>)
    returns (ghost replies: seq<Bytes>, ghost flats: seq<Bytes>, end: Status)
    requires Serving(d) && d.backend.FreshName(snap) && Grows(SharedBy(d.backend), others, snap)
    requires |flags| == 4 && conn.input == Script(flags, os, last, qs)
    requires forall o :: o in os ==> o.WellFormed() && o.Unsupported()
    requires last.WellFormed() && OptionOutcome(last, d.sizeBytes, NoZeroes(flags), accepts).Some?
    requires forall q :: q in qs ==> q.WellFormed()
    modifies conn, d, d.backend`tally, d.backend`sessions, d.backend.cache, d.backend.store,
             d.backend.repo, d.backend.Of(d.sessionId)
    ensures
      var opening := Opening(os, last, d.sizeBytes, NoZeroes(flags), accepts);
      && conn.output == old(conn.output) + opening + Joined(replies)
      && NegotiationRead(os, last, d.sizeBytes, flags, opening)
    ensures
      var sent := qs[..BeforeDisconnect(d.sizeBytes, qs)];
      && Trace(sent, flats, replies, old(d.Faultless()))
      && Ran(old(d.Geometry()), d.readAheadBytes, sent, replies, end == Crashed, old(d.Faultless()))
    ensures flats[0] == old(d.View())
    ensures end != Crashed ==> (if BeforeDisconnect(d.sizeBytes, qs) < |qs| then end == Left else end == Closed)
    ensures end != Crashed ==>
              Ended(d, old(d.VolumeId()), snap, flats[|replies|], end == Left, old(d.Faultless()))
    ensures
      var plain := Plain(d.sizeBytes, EncodeAll(qs));
      && (old(d.Geometry()).Addressable() && plain ==> end != Crashed)
      && (old(d.Faultless()) ==>
            && (Joined(replies) == AnswerAll(old(d.View()), qs).output <==> plain && end != Crashed)
            && (plain && end != Crashed ==> flats[|replies|] == AnswerAll(old(d.View()), qs).flat))
  {
    hide Backend.Valid, StorageDevice.HistoryOk, StorageDevice.WindowOk, Volumes.Intact, Volumes.View, Ended, Serve;
    hide Options, Greeting, EncodeOptions, EncodeOption, EncodeAll, OptionOutcome, AnswerAll, Refusals;
    hide NegotiationRead, NoZeroes;
    hide Joined, Trace, Ran, Requests, Plain, BeforeDisconnect, Leaves, Geometry.Addressable;
    ghost var options := EncodeOptions(os) + (EncodeOption(last) + EncodeAll(qs));
    assert conn.input[..4] == flags && conn.input[4..] == options;
    OptionsInStep(os, last, EncodeAll(qs), d.sizeBytes, NoZeroes(flags), accepts);
    NegotiationBytes(os, last, d.sizeBytes, flags, accepts);
    RequestsOfEncoded(d.sizeBytes, qs);
    ServeAllEncoded(d.View(), qs);
    ServingSize(d);
    replies, flats, end := Handle(conn, d, accepts, snap, now, others);
  }

  /**
   The client's side, whatever fails under the device: if its requests do not
   overflow, then from the bytes that follow the negotiation it reads back one
   reply per request before its first accepted disconnect, or up to the one on
   which the program crashed, in order and with their handles. Each successful
   read holds the bytes of the array that its own successful writes, and front
   parts of failed ones, have left of what the session showed at the start.
   */
  method ServeClientThroughFailures(conn: Connection, d: StorageDevice, accepts: Bytes -> bool, snap: Id, now: int,
                                    others: seq<Shared>,
                                    ghost flags: Bytes, ghost os: seq<ClientOption>, ghost last: ClientOption,
                                    ghost qs: seq<Request>)
    returns (ghost replies: seq<Bytes>, ghost flats: seq<Bytes>, end: Status)
    requires Serving(d) && d.backend.FreshName(snap) && Grows(SharedBy(d.backend), others, snap)
    requires |flags| == 4 && conn.input == Script(flags, os, last, qs)
    requires forall o :: o in os ==> o.WellFormed() && o.Unsupported()
    requires last.WellFormed() && OptionOutcome(last, d.sizeBytes, NoZeroes(flags), accepts).Some?
    requires forall q :: q in qs ==> q.WellFormed() && q.Representable()
    modifies conn, d, d.backend`tally, d.backend`sessions, d.backend.cache, d.backend.store,
             d.backend.repo, d.backend.Of(d.sessionId)
    ensures
      var before := old(conn.output) + Opening(os, last, d.sizeBytes, NoZeroes(flags), accepts);
      var sent := qs[..BeforeDisconnect(d.sizeBytes, qs)];
      && before <= conn.output && NegotiationRead(os, last, d.sizeBytes, flags, before[|old(conn.output)|..])
      && Heard(sent, flats, conn.output[|before|..], replies)
      && Trace(sent, flats, replies, old(d.Faultless())) && flats[0] == old(d.View())
      && Ran(old(d.Geometry()), d.readAheadBytes, sent, replies, end == Crashed, old(d.Faultless()))
      && (end != Crashed ==> |replies| == |sent|)
    ensures old(d.Geometry()).Addressable() ==> end != Crashed
    ensures end != Crashed ==>
              Ended(d, old(d.VolumeId()), snap, flats[|replies|], end == Left, old(d.Faultless()))
  {
    hide Backend.Valid, StorageDevice.HistoryOk, StorageDevice.WindowOk, Volumes.Intact, Volumes.View, Ended;
    hide Opening, OptionOutcome, AnswerAll, Joined, Plain, BeforeDisconnect, Last, Exchange, MayCrash, Unfit, Heard;
    hide EncodeOptions, EncodeOption, EncodeAll, Geometry.Addressable, NegotiationRead, NoZeroes;
    ServingSize(d);
    EncodedPlain(d.sizeBytes, qs);
    replies, flats, end := ServeClient(conn, d, accepts, snap, now, others, flags, os, last, qs);
    ghost var sent := qs[..BeforeDisconnect(d.sizeBytes, qs)];
    SameSizes(sent, flats, replies, old(d.Faultless()), d.sizeBytes);
    ClientReadsBack(sent, flats, replies, old(d.Faultless()));
    ghost var before := old(conn.output) + Opening(os, last, d.sizeBytes, NoZeroes(flags), accepts);
    assert conn.output[|before|..] == Joined(replies);
    assert before[|old(conn.output)|..] == Opening(os, last, d.sizeBytes, NoZeroes(flags), accepts);
  }

  /** No array in a trace changes its size. */
  lemma {:induction false} SameSizes(qs: seq<Request>, flats: seq<Bytes>, replies: seq<Bytes>, faultless: bool,
                                     size: nat)
    requires Trace(qs, flats, replies, faultless) && |flats[0]| == size
    requires forall i :: 0 <= i < |qs| ==> !Last(size, qs[i])
    ensures forall i :: 0 <= i < |flats| ==> |flats[i]| == size
  {
    hide Exchange, Last, OneReply;
    var i := 0;
    while i < |replies|
      invariant 0 <= i <= |replies|
      invariant forall j :: 0 <= j <= i ==> |flats[j]| == size
    {
      ExchangeIsReply(flats[i], qs[i], faultless, replies[i], flats[i + 1]);
      i := i + 1;
    }
  }
}
