/**
 What the program's request loop does to a flat byte array, as a relation: with
 I/O failures, and with requests whose end overflows int64. It is compared with
 the reference server of the protocol module.
 */
module Exchanges {
  import opened Bytes
  import opened Chunks
  import opened Volumes
  import opened Nbd

  // ----- One reply per request -----

  /**
   `sent` is one reply to `q`: its handle, some error, and data of the requested
   length after exactly a successful read.
   */
  ghost predicate OneReply(q: Request, sent: Bytes) {
    exists errno: nat, data: Bytes :: IsReply(q, errno, data, sent)
  }

  predicate IsReply(q: Request, errno: nat, data: Bytes, sent: Bytes) {
    && errno < Pow256(4)
    && |data| == (if q.cmd == CMD_READ && errno == 0 then q.length else 0)
    && sent == Reply(q.handle, errno, data)
  }

  /** The server's own range test, which an end that overflows passes. */
  predicate Passes(size: nat, q: Request) {
    0 <= q.Signed() && (q.Signed() + q.length <= size || !q.Representable())
  }

  /** The server answers nothing from here on: an accepted disconnect, or an accepted write whose payload is cut off. */
  predicate Last(size: nat, q: Request) {
    Passes(size, q) && (q.cmd == CMD_DISCONNECT || (q.cmd == CMD_WRITE && |q.payload| != q.length))
  }

  /** The requests on a stream that a device of `size` bytes is to answer. */
  function Requests(size: nat, input: Bytes): seq<Request>
    decreases |input|
  {
    if !Acceptable(input) || Last(size, Incoming(input)) then []
    else [Incoming(input)] + Requests(size, Following(input))
  }

  /** The stream is served up to an accepted disconnect. */
  predicate Leaves(size: nat, input: Bytes)
    decreases |input|
  {
    && Acceptable(input)
    && if Last(size, Incoming(input)) then Incoming(input).cmd == CMD_DISCONNECT else Leaves(size, Following(input))
  }

  /** How many requests come before an accepted disconnect. */
  function BeforeDisconnect(size: nat, qs: seq<Request>): (n: nat)
    ensures n <= |qs|
    ensures forall i :: 0 <= i < n ==> !Last(size, qs[i])
    ensures n < |qs| ==> Last(size, qs[n])
  {
    if qs == [] || Last(size, qs[0]) then 0 else 1 + BeforeDisconnect(size, qs[1..])
  }

  /**
   On a stream of well-formed requests those are the requests before the first
   accepted disconnect, none lost or made up.
   */
  lemma {:induction false} RequestsOfEncoded(size: nat, qs: seq<Request>)
    requires forall q :: q in qs ==> q.WellFormed()
    ensures Requests(size, EncodeAll(qs)) == qs[..BeforeDisconnect(size, qs)]
    ensures Leaves(size, EncodeAll(qs)) <==> BeforeDisconnect(size, qs) < |qs|
    decreases |qs|
  {
    hide Encode, Acceptable, Incoming, Following, Passes;
    if qs == [] {
      NothingRequested(size);
    } else {
      assert qs[0].WellFormed();
      HeadOfEncoded(qs[0], EncodeAll(qs[1..]));
      RequestsOfEncoded(size, qs[1..]);
      var n := BeforeDisconnect(size, qs);
      if n > 0 {
        assert qs[..n] == [qs[0]] + qs[1..][..n - 1];
      }
    }
  }

  lemma NothingRequested(size: nat)
    ensures Requests(size, []) == [] && !Leaves(size, [])
  {
  }

  function Joined(replies: seq<Bytes>): Bytes {
    if replies == [] then [] else replies[0] + Joined(replies[1..])
  }

  lemma {:induction false} JoinedSnoc(replies: seq<Bytes>, reply: Bytes)
    ensures Joined(replies + [reply]) == Joined(replies) + reply
  {
    if replies != [] {
      assert (replies + [reply])[1..] == replies[1..] + [reply];
      JoinedSnoc(replies[1..], reply);
    }
  }

  /**
   However the requests fared, a client that knows what it sent reads the
   replies back one by one, each with the handle of its request.
   */
  lemma {:induction false} RepliesReadBack(qs: seq<Request>, replies: seq<Bytes>)
    requires |replies| <= |qs| && forall q :: q in qs ==> q.WellFormed()
    requires forall i :: 0 <= i < |replies| ==> OneReply(qs[i], replies[i])
    ensures
      var r := ReadReplies(qs, Joined(replies));
      && r.Some? && |r.value| == |replies|
      && (forall i :: 0 <= i < |replies| ==>
            r.value[i].handle == qs[i].handle && IsReply(qs[i], r.value[i].errno, r.value[i].data, replies[i]))
    decreases |qs|
  {
    hide OneReply, IsReply, ReadReplies;
    if replies == [] {
      NoReplies(qs);
    } else {
      assert OneReply(qs[0], replies[0]) && qs[0].WellFormed();
      assert forall i :: 0 <= i < |replies[1..]| ==> OneReply(qs[1..][i], replies[1..][i]) by {
        assert forall i :: 0 <= i < |replies[1..]| ==> qs[1..][i] == qs[i + 1] && replies[1..][i] == replies[i + 1];
      }
      RepliesReadBack(qs[1..], replies[1..]);
      var errno, data := NextReply(qs, replies[0], Joined(replies[1..]));
    }
  }

  lemma NoReplies(qs: seq<Request>)
    ensures ReadReplies(qs, []) == Some([])
  {
  }

  lemma NextReply(qs: seq<Request>, reply: Bytes, more: Bytes) returns (errno: nat, data: Bytes)
    requires qs != [] && qs[0].WellFormed() && OneReply(qs[0], reply)
    ensures IsReply(qs[0], errno, data, reply)
    ensures
      var rest := ReadReplies(qs[1..], more);
      ReadReplies(qs, reply + more) ==
        if rest.None? then None else Some([ReplyMessage(qs[0].handle, errno, data)] + rest.value)
  {
    hide Reply;
    errno, data :| IsReply(qs[0], errno, data, reply);
    ReplyRoundTrip(qs[0].handle, errno, data, more);
  }

  // ----- What one turn of the loop may do -----

  /**
   The request's end overflows, and the command is one that looks at it: the
   program does not do what the reference does.
   */
  predicate Odd(q: Request) {
    && !q.Representable()
    && (q.cmd == CMD_READ || q.cmd == CMD_WRITE || q.cmd == CMD_FLUSH || q.cmd == CMD_DISCONNECT)
  }

  /**
   What a failed request may leave behind: the device as it was, or, after a
   write, with a front part of its payload.
   */
  ghost predicate PartlyDone(flat: Bytes, q: Request, after: Bytes) {
    after == flat || (q.cmd == CMD_WRITE && PrefixApplied(flat, q.Signed(), q.payload, after))
  }

  /**
   An odd request is answered as if it were in range: success for a flush, an
   I/O error, or a read cut at the device's end.
   */
  predicate OddReply(flat: Bytes, q: Request, sent: Bytes) {
    || (q.cmd == CMD_FLUSH && sent == Reply(q.handle, 0, []))
    || ((q.cmd == CMD_READ || q.cmd == CMD_WRITE) && sent == Reply(q.handle, EIO, []))
    || (q.cmd == CMD_READ && 0 <= q.Signed() < |flat| && sent == Reply(q.handle, 0, flat[q.Signed()..]))
  }

  /**
   What a turn that goes on sends and leaves behind: the reference answer; for
   an odd request something else; or, if I/O can fail, an I/O error for the
   same handle after which nothing but a front part of a write has been done.
   */
  ghost predicate Exchange(flat: Bytes, q: Request, faultless: bool, sent: Bytes, after: Bytes) {
    || (!Odd(q) && Answerable(flat, q) && sent == Answer(flat, q).output && after == Answer(flat, q).flat)
    || (Odd(q) && OddReply(flat, q, sent) && after == flat)
    || (!faultless && sent == Reply(q.handle, EIO, []) && PartlyDone(flat, q, after))
  }

  /** A read that is cut: only at the end of a device that ends within one request of 2^63. */
  predicate Short(size: nat, q: Request) {
    q.cmd == CMD_READ && !q.Representable() && 0 <= q.Signed() < size
  }

  /** Either way it is one reply to that request, unless a read was cut, and the device keeps its size. */
  lemma ExchangeIsReply(flat: Bytes, q: Request, faultless: bool, sent: Bytes, after: Bytes)
    requires !Last(|flat|, q) && Exchange(flat, q, faultless, sent, after)
    ensures |after| == |flat|
    ensures Short(|flat|, q) || OneReply(q, sent)
  {
    hide Reply;
    Pow256Values();
    if !Odd(q) && Answerable(flat, q) && sent == Answer(flat, q).output {
      AnswerIsReply(flat, q);
      var m := ReplyTo(flat, q);
      assert IsReply(q, m.errno, m.data, sent);
    } else if sent == Reply(q.handle, EIO, []) {
      assert IsReply(q, EIO, [], sent);
    } else if sent == Reply(q.handle, 0, []) && q.cmd == CMD_FLUSH {
      assert IsReply(q, 0, [], sent);
    }
  }

  /**
   What a turn sends, in the bytes of the stream: the magic of a reply, an error
   of 0, 5 or 22, the eight bytes that stood for the handle, and data only
   after a read. Error 5 is a failure, or an end past 2^63.
   */
  lemma ExchangeOnWire(flat: Bytes, input: Bytes, faultless: bool, sent: Bytes, after: Bytes)
    requires Acceptable(input) && |flat| < TWO_63 && !Last(|flat|, Incoming(input))
    requires Exchange(flat, Incoming(input), faultless, sent, after)
    ensures |sent| >= 16 && sent[..7] == [0x67, 0x44, 0x66, 0x98, 0, 0, 0] && sent[8..16] == input[8..16]
    ensures sent[7] == 0 || sent[7] == 5 || sent[7] == 22
    ensures |sent| > 16 ==> sent[7] == 0 && Incoming(input).cmd == 0
    ensures sent[7] == 5 && faultless ==> Incoming(input).offset + Incoming(input).length >= 0x8000_0000_0000_0000
  {
    hide Uint, DecodeHeader, Magic, Reply;
    var q, h := Incoming(input), input[..28];
    IncomingBytes(input);
    SignedMeaning(q);
    assert h[8..16] == input[8..16];
    ReplyOnWire(h, 5, []);
    ReplyOnWire(h, 0, []);
    ReplyOnWire(h, 22, []);
    if Odd(q) && q.cmd == CMD_READ && 0 <= q.Signed() < |flat| {
      ReplyOnWire(h, 0, flat[q.Signed()..]);
    }
    if !Odd(q) && Answerable(flat, q) {
      AnswerOnWire(flat, input);
    }
  }

  // ----- A whole run of the loop -----

  /**
   `replies` are the replies to the first requests of `qs`, and `flats` the
   arrays before, between and after them: each read is answered from the one
   array that the writes before it have left.
   */
  ghost predicate Trace(qs: seq<Request>, flats: seq<Bytes>, replies: seq<Bytes>, faultless: bool) {
    && |replies| <= |qs| && |flats| == |replies| + 1
    && (forall i :: 0 <= i < |replies| ==> Exchange(flats[i], qs[i], faultless, replies[i], flats[i + 1]))
  }

  /** A read or write that lies in the device, but whose last chunk ends past int64. */
  predicate Unfit(g: Geometry, q: Request) {
    (q.cmd == CMD_READ || q.cmd == CMD_WRITE) && g.Overreaches(q.Signed(), q.length)
  }

  /** The most that is fetched for a request: with read-ahead, more than was asked for, but not past the end. */
  function Most(g: Geometry, readAheadBytes: int, q: Request): int {
    if readAheadBytes <= 0 then q.length
    else Min(Max(readAheadBytes, q.length), g.sizeBytes - q.Signed())
  }

  /**
   The program may crash on the request: it is unfit, or the device reads ahead
   and it is a read that is odd or that could be fetched with an unfit one.
   */
  predicate MayCrash(g: Geometry, readAheadBytes: int, q: Request) {
    || Unfit(g, q)
    || (readAheadBytes > 0 && q.cmd == CMD_READ && (Odd(q) || g.Overreaches(q.Signed(), Most(g, readAheadBytes, q))))
  }

  /** A fetch for a read that overreaches is one on which the program may crash. */
  lemma FetchMayCrash(g: Geometry, readAheadBytes: int, q: Request, n: int)
    requires q.cmd == CMD_READ && g.Overreaches(q.Signed(), n)
    requires n == q.length || (readAheadBytes > 0 && 0 < n <= Max(readAheadBytes, q.length))
    ensures MayCrash(g, readAheadBytes, q)
  {
    hide Fits;
    if n != q.length {
      LongerOverreaches(g, q.Signed(), n, Most(g, readAheadBytes, q));
    }
  }

  /** Where all chunk ends are int64 values, only odd reads may crash. */
  lemma AddressableMayCrash(g: Geometry, readAheadBytes: int, q: Request)
    requires g.Addressable() && MayCrash(g, readAheadBytes, q)
    ensures readAheadBytes > 0 && q.cmd == CMD_READ && Odd(q)
  {
    hide Geometry.Overreaches, Geometry.Addressable;
    AddressableNeverOverreaches(g, q.Signed(), q.length);
    AddressableNeverOverreaches(g, q.Signed(), Most(g, readAheadBytes, q));
  }

  /**
   The loop answered all requests, or the program crashed on one on which it
   may. It does crash on one that is unfit, unless an I/O failure comes first.
   */
  predicate Ran(g: Geometry, readAheadBytes: int, qs: seq<Request>, replies: seq<Bytes>, crashed: bool,
                faultless: bool)
  {
    && |replies| <= |qs|
    && (crashed <==> |replies| < |qs|)
    && (crashed ==> MayCrash(g, readAheadBytes, qs[|replies|]))
    && (faultless ==> forall i :: 0 <= i < |replies| ==> !Unfit(g, qs[i]))
  }

  /** A device that does not read ahead, and on which nothing fails, crashes exactly on the first unfit request. */
  lemma CrashesOnUnfit(g: Geometry, readAheadBytes: int, qs: seq<Request>, replies: seq<Bytes>, crashed: bool)
    requires Ran(g, readAheadBytes, qs, replies, crashed, true) && readAheadBytes <= 0
    ensures crashed <==> exists i :: 0 <= i < |qs| && Unfit(g, qs[i])
    ensures crashed ==> Unfit(g, qs[|replies|]) && forall i :: 0 <= i < |replies| ==> !Unfit(g, qs[i])
  {
    hide Unfit;
  }

  /** No request that is reached is odd. */
  predicate Plain(size: nat, input: Bytes)
    decreases |input|
  {
    Acceptable(input) ==>
      && !Odd(Incoming(input))
      && (!Last(size, Incoming(input)) ==> Plain(size, Following(input)))
  }

  /** On a plain stream no request that is to be answered is odd. */
  lemma {:induction false} PlainRequests(size: nat, input: Bytes)
    requires Plain(size, input)
    ensures forall q :: q in Requests(size, input) ==> !Odd(q)
    decreases |input|
  {
    hide Magic, DecodeHeader, Following, Last, Odd;
    if Acceptable(input) && !Last(size, Incoming(input)) {
      PlainRequests(size, Following(input));
    }
  }

  /** So where all chunk ends are int64 values it does not crash. */
  lemma PlainNeverCrashes(g: Geometry, readAheadBytes: int, size: nat, input: Bytes, replies: seq<Bytes>, crashed: bool,
                          faultless: bool)
    requires Plain(size, input) && g.Addressable()
    requires Ran(g, readAheadBytes, Requests(size, input), replies, crashed, faultless)
    ensures !crashed
  {
    hide Plain, Requests, MayCrash, Odd, Geometry.Addressable, Unfit;
    PlainRequests(size, input);
    if crashed {
      AddressableMayCrash(g, readAheadBytes, Requests(size, input)[|replies|]);
    }
  }

  /**
   Without I/O failures the program's replies are, byte for byte, those of the
   reference server exactly if no odd request is reached and it does not crash.
   */
  lemma {:induction false} TraceIsServe(input: Bytes, flats: seq<Bytes>, replies: seq<Bytes>)
    requires flats != [] && |flats[0]| < TWO_63
    requires Trace(Requests(|flats[0]|, input), flats, replies, true)
    ensures
      var crashed := |replies| < |Requests(|flats[0]|, input)|;
      && (Joined(replies) == Serve(flats[0], input).output <==> Plain(|flats[0]|, input) && !crashed)
      && (Plain(|flats[0]|, input) && !crashed ==> flats[|replies|] == Serve(flats[0], input).flat)
    decreases |input|
  {
    hide Answer, Magic, DecodeHeader, WithPayload, AfterPayload, Exchange, Odd, Last, Reply;
    var flat := flats[0];
    var size := |flat|;
    ServeUnfold(flat, input);
    if !Acceptable(input) {
    } else if Odd(Incoming(input)) {
      OddRefused(flat, Incoming(input));
      assert Requests(size, input) != [] ==> Requests(size, input)[0] == Incoming(input);
      if replies != [] {
        OddDiffers(flat, Incoming(input), replies[0], flats[1], Joined(replies[1..]),
                   Serve(flat, Following(input)).output);
      }
    } else if Last(size, Incoming(input)) {
      LastIsSilent(flat, Incoming(input));
    } else {
      var q, rest := Incoming(input), Requests(size, Following(input));
      assert Requests(size, input) == [q] + rest;
      assert Requests(size, input)[0] == q;
      if replies != [] {
        assert forall i :: 0 <= i < |replies| - 1 ==> Requests(size, input)[i + 1] == rest[i];
        NextExchange(flat, q, replies[0], flats[1]);
        assert Trace(rest, flats[1..], replies[1..], true);
        TraceIsServe(Following(input), flats[1..], replies[1..]);
        var first := Answer(flat, q);
        assert Joined(replies) == first.output + Joined(replies[1..]);
        SamePrefix(first.output, Joined(replies[1..]), Serve(first.flat, Following(input)).output);
      } else {
        AnsweredIsHeard(flat, q);
      }
    }
  }

  /** The reference sends something for a request after which it goes on. */
  lemma AnsweredIsHeard(flat: Bytes, q: Request)
    requires !Odd(q) && !Last(|flat|, q)
    ensures Answerable(flat, q) && Answer(flat, q).open && Answer(flat, q).output != []
  {
  }

  lemma SamePrefix(prefix: Bytes, a: Bytes, b: Bytes)
    ensures prefix + a == prefix + b <==> a == b
  {
    assert (prefix + a)[|prefix|..] == a && (prefix + b)[|prefix|..] == b;
  }

  lemma NextExchange(flat: Bytes, q: Request, sent: Bytes, after: Bytes)
    requires !Odd(q) && !Last(|flat|, q) && Exchange(flat, q, true, sent, after)
    ensures Answerable(flat, q) && Answer(flat, q).open
    ensures sent == Answer(flat, q).output && after == Answer(flat, q).flat && |after| == |flat|
  {
    hide Reply;
  }

  lemma LastIsSilent(flat: Bytes, q: Request)
    requires !Odd(q) && Last(|flat|, q)
    ensures Answerable(flat, q) ==> Answer(flat, q) == Effect([], flat, false)
  {
    hide Reply;
  }

  /** The reference refuses an odd request. */
  lemma OddRefused(flat: Bytes, q: Request)
    requires |flat| < TWO_63 && Odd(q)
    ensures Answerable(flat, q) && Answer(flat, q) == Effect(Reply(q.handle, EINVAL, []), flat, true)
  {
    hide Reply;
  }

  /** No answer that the program gives to an odd request begins as the refusal does. */
  lemma OddDiffers(flat: Bytes, q: Request, sent: Bytes, after: Bytes, more: Bytes, others: Bytes)
    requires Odd(q) && Exchange(flat, q, true, sent, after)
    ensures sent + more != Reply(q.handle, EINVAL, []) + others
  {
    hide Answer;
    var errno :| (errno == 0 || errno == EIO) && exists data :: sent == Reply(q.handle, errno, data);
    var data :| sent == Reply(q.handle, errno, data);
    Pow256Values();
    ReplyErrno(q.handle, errno, data, more);
    ReplyErrno(q.handle, EINVAL, [], others);
    UintOfPutUint(4, errno);
    UintOfPutUint(4, EINVAL);
  }

  lemma ReplyErrno(handle: nat, errno: nat, data: Bytes, more: Bytes)
    ensures (Reply(handle, errno, data) + more)[4..8] == PutUint(4, errno)
  {
    var a, b, c := PutUint(4, REPLY_MAGIC), PutUint(4, errno), PutUint(8, handle) + data + more;
    assert Reply(handle, errno, data) + more == a + b + c;
    assert (a + b + c)[4..8] == b;
  }

  lemma ServeUnfold(flat: Bytes, input: Bytes)
    ensures !Acceptable(input) || !Answerable(flat, Incoming(input)) ==> Serve(flat, input) == Effect([], flat, false)
    ensures Acceptable(input) && Answerable(flat, Incoming(input)) ==>
              var first := Answer(flat, Incoming(input));
              if first.open then
                && Serve(flat, input).output == first.output + Serve(first.flat, Following(input)).output
                && Serve(flat, input).flat == Serve(first.flat, Following(input)).flat
              else Serve(flat, input) == first
  {
    hide Magic, DecodeHeader, Answer, Answerable, Incoming, Following;
  }

  /** Two odd requests that a client may send to any device: a flush and a disconnect that end past 2^63. */
  lemma OddRequests(flat: Bytes, handle: nat)
    requires handle < Pow256(8) && |flat| < TWO_63
    ensures
      var flush := Request(0, CMD_FLUSH, handle, TWO_63 - 1, 4, []);
      var leave := flush.(cmd := CMD_DISCONNECT);
      && flush.WellFormed() && !Plain(|flat|, Encode(flush)) && OddReply(flat, flush, Reply(handle, 0, []))
      && Answer(flat, flush).output == Answer(flat, leave).output == Reply(handle, EINVAL, [])
      && leave.WellFormed() && !Plain(|flat|, Encode(leave)) && Last(|flat|, leave)
  {
    Pow256Values();
    hide Encode, Reply;
    var flush := Request(0, CMD_FLUSH, handle, TWO_63 - 1, 4, []);
    HeadOfEncoded(flush, []);
    HeadOfEncoded(flush.(cmd := CMD_DISCONNECT), []);
    assert Encode(flush) + [] == Encode(flush);
    assert Encode(flush.(cmd := CMD_DISCONNECT)) + [] == Encode(flush.(cmd := CMD_DISCONNECT));
  }

  // ----- What the client makes of it -----

  /** A stream of requests none of which is odd is plain. */
  lemma {:induction false} EncodedPlain(size: nat, qs: seq<Request>)
    requires forall q :: q in qs ==> q.WellFormed() && q.Representable()
    ensures Plain(size, EncodeAll(qs))
    decreases |qs|
  {
    if qs != [] {
      hide Acceptable, Incoming, Following;
      assert qs[0].WellFormed() && qs[0].Representable();
      HeadOfEncoded(qs[0], EncodeAll(qs[1..]));
      EncodedPlain(size, qs[1..]);
    }
  }

  /**
   What the client reads from the bytes `heard`: one reply for each of the
   first requests, in order and with its handle, and every successful read
   holds the bytes of the array as the writes before it left it.
   */
  predicate Heard(qs: seq<Request>, flats: seq<Bytes>, heard: Bytes, replies: seq<Bytes>) {
    var r := ReadReplies(qs, heard);
    && r.Some? && |r.value| == |replies| <= |qs| && |replies| < |flats|
    && (forall i :: 0 <= i < |replies| ==>
          && r.value[i].handle == qs[i].handle
          && (r.value[i].errno == 0 && qs[i].cmd == CMD_READ ==>
                && Inside(flats[i], qs[i])
                && r.value[i].data == flats[i][qs[i].Signed()..qs[i].Signed() + qs[i].length]))
  }

  /** Whatever failed, each reply of a trace of requests that do not overflow is one reply. */
  lemma RepliesAreSingle(qs: seq<Request>, flats: seq<Bytes>, replies: seq<Bytes>, faultless: bool)
    requires forall q :: q in qs ==> q.Representable()
    requires Trace(qs, flats, replies, faultless) && forall i :: 0 <= i < |replies| ==> !Last(|flats[i]|, qs[i])
    ensures forall i :: 0 <= i < |replies| ==> OneReply(qs[i], replies[i])
  {
    hide Exchange, OneReply, Last;
    forall i | 0 <= i < |replies|
      ensures OneReply(qs[i], replies[i])
    {
      assert qs[i] in qs;
      ExchangeIsReply(flats[i], qs[i], faultless, replies[i], flats[i + 1]);
      NeverShort(|flats[i]|, qs[i]);
    }
  }

  /** And so that is what the client reads. */
  lemma ClientReadsBack(qs: seq<Request>, flats: seq<Bytes>, replies: seq<Bytes>, faultless: bool)
    requires forall q :: q in qs ==> q.WellFormed() && q.Representable()
    requires Trace(qs, flats, replies, faultless) && forall i :: 0 <= i < |replies| ==> !Last(|flats[i]|, qs[i])
    ensures Heard(qs, flats, Joined(replies), replies)
  {
    hide Exchange, OneReply, IsReply, ReadReplies, Last, Joined;
    RepliesAreSingle(qs, flats, replies, faultless);
    RepliesReadBack(qs, replies);
    var r := ReadReplies(qs, Joined(replies)).value;
    forall i | 0 <= i < |replies| && r[i].errno == 0 && qs[i].cmd == CMD_READ
      ensures Inside(flats[i], qs[i]) && r[i].data == flats[i][qs[i].Signed()..qs[i].Signed() + qs[i].length]
    {
      assert qs[i] in qs;
      ReadFromArray(flats[i], qs[i], faultless, replies[i], flats[i + 1], r[i].data);
    }
  }

  lemma NeverShort(size: nat, q: Request)
    requires q.Representable()
    ensures !Short(size, q)
  {
  }

  lemma ReadFromArray(flat: Bytes, q: Request, faultless: bool, sent: Bytes, after: Bytes, data: Bytes)
    requires q.WellFormed() && q.Representable() && q.cmd == CMD_READ && Exchange(flat, q, faultless, sent, after)
    requires IsReply(q, 0, data, sent)
    ensures Inside(flat, q) && data == flat[q.Signed()..q.Signed() + q.length]
  {
    hide Reply;
    Pow256Values();
    ReplyInjective(q.handle, 0, data, EIO, []);
    if Inside(flat, q) {
      ReplyInjective(q.handle, 0, data, 0, flat[q.Signed()..q.Signed() + q.length]);
    } else {
      ReplyInjective(q.handle, 0, data, EINVAL, []);
    }
  }

  lemma ReplyInjective(handle: nat, errno: nat, data: Bytes, errno': nat, data': Bytes)
    requires handle < Pow256(8) && errno < Pow256(4) && errno' < Pow256(4)
    ensures Reply(handle, errno, data) == Reply(handle, errno', data') ==> errno == errno' && data == data'
  {
    ReplyRoundTrip(handle, errno, data, []);
    ReplyRoundTrip(handle, errno', data', []);
    hide Reply;
    var a, b := Reply(handle, errno, data), Reply(handle, errno', data');
    assert a + [] == a && b + [] == b;
    assert a[16..16 + |data|] == a[16..] && b[16..16 + |data'|] == b[16..];
  }
}
