/**
 The network block device protocol as byte strings: requests, replies,
 option negotiation, and a reference server that holds one flat byte array.
 See the NBD protocol document, sections "Fixed newstyle negotiation",
 "Request message" and "Simple reply message".
 */
module Nbd {
  import opened Bytes
  import opened Chunks

  const NBD_MAGIC := 0x4e42444d41474943
  const I_HAVE_OPT := 0x49484156454f5054
  const REQUEST_MAGIC := 0x25609513
  const REPLY_MAGIC := 0x67446698
  const OPT_REPLY_MAGIC := 0x3e889045565a9
  const OPT_EXPORT_NAME := 1
  const OPT_ABORT := 2
  const OPT_GO := 7
  const REP_ACK := 1
  const REP_INFO := 3
  const REP_ERR_UNSUP := 0x80000001
  const CMD_READ := 0
  const CMD_WRITE := 1
  const CMD_DISCONNECT := 2
  const CMD_FLUSH := 3
  const EIO := 5
  const EINVAL := 22
  const MAX_REQUEST_BYTES := 32 * 1024 * 1024
  const HEADER_BYTES := 28

  // ----- Messages -----

  datatype Request = Request(flags: nat, cmd: nat, handle: nat, offset: nat, length: nat, payload: Bytes) {
    /** The fields fit their widths, the length is acceptable, and a payload follows exactly a write. */
    predicate WellFormed() {
      && flags < Pow256(2) && cmd < Pow256(2) && handle < Pow256(8) && offset < Pow256(8)
      && length <= MAX_REQUEST_BYTES
      && |payload| == (if cmd == CMD_WRITE then length else 0)
    }

    /** The offset as the server reads it. */
    function Signed(): int {
      Wrap64(offset)
    }

    /** The end of the request is representable in int64. */
    predicate Representable() {
      Signed() + length < TWO_63
    }
  }

  function EncodeHeader(q: Request): (b: Bytes)
    ensures |b| == HEADER_BYTES
  {
    PutUint(4, REQUEST_MAGIC) + (PutUint(2, q.flags) + (PutUint(2, q.cmd)
      + (PutUint(8, q.handle) + (PutUint(8, q.offset) + PutUint(4, q.length)))))
  }

  function Encode(q: Request): Bytes {
    EncodeHeader(q) + q.payload
  }

  function EncodeAll(qs: seq<Request>): Bytes {
    if qs == [] then [] else Encode(qs[0]) + EncodeAll(qs[1..])
  }

  /** A simple reply: magic, error, handle, then the data. */
  function Reply(handle: nat, errno: nat, data: Bytes): (b: Bytes)
    ensures |b| == 16 + |data|
  {
    PutUint(4, REPLY_MAGIC) + PutUint(4, errno) + PutUint(8, handle) + data
  }

  /** The fields of a header, without a payload. */
  function DecodeHeader(h: Bytes): Request
    requires |h| == HEADER_BYTES
  {
    Request(Uint(h[4..6]), Uint(h[6..8]), Uint(h[8..16]), Uint(h[16..24]), Uint(h[24..28]), [])
  }

  function Magic(h: Bytes): nat
    requires |h| == HEADER_BYTES
  {
    Uint(h[0..4])
  }

  /** A decoded header is the one that was encoded. */
  lemma HeaderRoundTrip(q: Request)
    requires q.WellFormed()
    ensures Magic(EncodeHeader(q)) == REQUEST_MAGIC
    ensures DecodeHeader(EncodeHeader(q)) == q.(payload := [])
  {
    hide PutUint, Uint;
    Pow256Values();
    var h := EncodeHeader(q);
    assert h[0..4] == PutUint(4, REQUEST_MAGIC);
    assert h[4..6] == PutUint(2, q.flags);
    assert h[6..8] == PutUint(2, q.cmd);
    assert h[8..16] == PutUint(8, q.handle);
    assert h[16..24] == PutUint(8, q.offset);
    assert h[24..28] == PutUint(4, q.length);
    UintOfPutUint(4, REQUEST_MAGIC);
    UintOfPutUint(2, q.flags);
    UintOfPutUint(2, q.cmd);
    UintOfPutUint(8, q.handle);
    UintOfPutUint(8, q.offset);
    UintOfPutUint(4, q.length);
  }

  /** Where each field of a header stands, byte by byte. */
  lemma HeaderBytes(h: Bytes)
    requires |h| == 28
    ensures
      var x: seq<int> := h;
      var q := DecodeHeader(h);
      && Magic(h) == 0x100_0000 * x[0] + 0x1_0000 * x[1] + 0x100 * x[2] + x[3]
      && q.flags == 0x100 * x[4] + x[5]
      && q.cmd == 0x100 * x[6] + x[7]
      && q.handle
         == 0x100_0000_0000_0000 * x[8] + 0x1_0000_0000_0000 * x[9] + 0x100_0000_0000 * x[10] + 0x1_0000_0000 * x[11]
            + 0x100_0000 * x[12] + 0x1_0000 * x[13] + 0x100 * x[14] + x[15]
      && q.offset
         == 0x100_0000_0000_0000 * x[16] + 0x1_0000_0000_0000 * x[17] + 0x100_0000_0000 * x[18] + 0x1_0000_0000 * x[19]
            + 0x100_0000 * x[20] + 0x1_0000 * x[21] + 0x100 * x[22] + x[23]
      && q.length == 0x100_0000 * x[24] + 0x1_0000 * x[25] + 0x100 * x[26] + x[27]
      && q.payload == []
  {
    hide Uint;
    Uint4(h[0..4]);
    Uint2(h[4..6]);
    Uint2(h[6..8]);
    Uint8(h[8..16]);
    Uint8(h[16..24]);
    Uint4(h[24..28]);
  }

  /** A reply on the wire: its magic, one byte of error, the handle as it stood in the request, then the data. */
  function WireReply(h: Bytes, errno: Byte, data: Bytes): Bytes
    requires |h| >= 16
  {
    [0x67, 0x44, 0x66, 0x98, 0, 0, 0, errno] + h[8..16] + data
  }

  lemma ReplyOnWire(h: Bytes, errno: Byte, data: Bytes)
    requires |h| == 28
    ensures Reply(DecodeHeader(h).handle, errno, data)
         == [0x67, 0x44, 0x66, 0x98, 0, 0, 0, errno] + h[8..16] + data
         == WireReply(h, errno, data)
  {
    hide Uint, PutUint;
    Uint4([0x67, 0x44, 0x66, 0x98]);
    PutUintIs([0x67, 0x44, 0x66, 0x98], REPLY_MAGIC);
    Uint4([0, 0, 0, errno]);
    PutUintIs([0, 0, 0, errno], errno);
    PutUintOfUint(h[8..16]);
    assert [0x67, 0x44, 0x66, 0x98] + [0, 0, 0, errno] == [0x67, 0x44, 0x66, 0x98, 0, 0, 0, errno];
  }

  // ----- The reference server -----

  /** What one request does to a flat device: the reply bytes, the new device, and whether the connection stays open. */
  datatype Effect = Effect(output: Bytes, flat: Bytes, open: bool)

  predicate Inside(flat: Bytes, q: Request) {
    0 <= q.Signed() && q.Signed() + q.length <= |flat|
  }

  /** The request can be answered: a write that is to be carried out has its whole payload. */
  predicate Answerable(flat: Bytes, q: Request) {
    q.cmd == CMD_WRITE && Inside(flat, q) ==> |q.payload| == q.length
  }

  function Answer(flat: Bytes, q: Request): Effect
    requires Answerable(flat, q)
  {
    if !Inside(flat, q) then Effect(Reply(q.handle, EINVAL, []), flat, true)
    else if q.cmd == CMD_READ then Effect(Reply(q.handle, 0, flat[q.Signed()..q.Signed() + q.length]), flat, true)
    else if q.cmd == CMD_WRITE then Effect(Reply(q.handle, 0, []), Splice(flat, q.Signed(), q.payload), true)
    else if q.cmd == CMD_FLUSH then Effect(Reply(q.handle, 0, []), flat, true)
    else if q.cmd == CMD_DISCONNECT then Effect([], flat, false)
    else Effect(Reply(q.handle, EINVAL, []), flat, true)
  }

  /** A session of well-formed requests on a flat device. Nothing after an accepted disconnect is looked at. */
  function AnswerAll(flat: Bytes, qs: seq<Request>): Effect
    requires forall q :: q in qs ==> q.WellFormed()
    decreases |qs|
  {
    if qs == [] then Effect([], flat, true)
    else
      assert qs[0].WellFormed();
      var first := Answer(flat, qs[0]);
      if !first.open then first
      else
        var rest := AnswerAll(first.flat, qs[1..]);
        Effect(first.output + rest.output, rest.flat, rest.open)
  }

  // ----- The same, on the raw byte stream -----

  /** Whether the stream starts with a header that the server will act on. */
  predicate Acceptable(input: Bytes) {
    && |input| >= HEADER_BYTES
    && Magic(input[..HEADER_BYTES]) == REQUEST_MAGIC
    && DecodeHeader(input[..HEADER_BYTES]).length <= MAX_REQUEST_BYTES
  }

  /** How many payload bytes the server takes after a header; a short stream gives what it has. */
  function PayloadOf(header: Request, rest: Bytes): (n: nat)
    ensures n <= |rest|
  {
    if header.cmd == CMD_WRITE then Min(header.length, |rest|) else 0
  }

  function WithPayload(header: Request, rest: Bytes): Request {
    header.(payload := rest[..PayloadOf(header, rest)])
  }

  function AfterPayload(header: Request, rest: Bytes): Bytes {
    rest[PayloadOf(header, rest)..]
  }

  /** The request at the head of the stream, with the payload that is there. */
  function Incoming(input: Bytes): Request
    requires |input| >= HEADER_BYTES
  {
    WithPayload(DecodeHeader(input[..HEADER_BYTES]), input[HEADER_BYTES..])
  }

  /** The stream after the request at its head. */
  function Following(input: Bytes): (rest: Bytes)
    requires |input| >= HEADER_BYTES
    ensures |rest| < |input|
  {
    AfterPayload(DecodeHeader(input[..HEADER_BYTES]), input[HEADER_BYTES..])
  }

  /**
   The whole stream. A bad header, a stream that ends inside a header, or one
   that ends inside the payload of a write in range, ends the connection.
   */
  function Serve(flat: Bytes, input: Bytes): Effect
    decreases |input|
  {
    if !Acceptable(input) || !Answerable(flat, Incoming(input)) then Effect([], flat, false)
    else
      var first := Answer(flat, Incoming(input));
      if !first.open then first
      else
        var rest := Serve(first.flat, Following(input));
        Effect(first.output + rest.output, rest.flat, rest.open)
  }

  /** Which headers the server acts on, in the bytes of the stream. */
  lemma AcceptableBytes(input: Bytes)
    ensures
      var x: seq<int> := input;
      Acceptable(input) <==>
        && |x| >= 28 && x[..4] == [0x25, 0x60, 0x95, 0x13]
        && 0x100_0000 * x[24] + 0x1_0000 * x[25] + 0x100 * x[26] + x[27] <= 33554432
  {
    if |input| >= 28 {
      hide Uint, DecodeHeader, Magic;
      var h := input[..28];
      HeaderBytes(h);
      MagicBytes(h);
      assert input[..4] == h[0..4];
    }
  }

  lemma MagicBytes(h: Bytes)
    requires |h| == 28
    ensures Magic(h) == REQUEST_MAGIC <==> h[0..4] == [0x25, 0x60, 0x95, 0x13]
  {
    hide Uint;
    Uint4([0x25, 0x60, 0x95, 0x13]);
    if Magic(h) == REQUEST_MAGIC {
      UintInjective(h[0..4], [0x25, 0x60, 0x95, 0x13]);
    }
  }

  /** What a header asks for, and how much of the stream goes with it, in the bytes of the stream. */
  lemma IncomingBytes(input: Bytes)
    requires |input| >= 28
    ensures
      var x: seq<int> := input;
      var q := Incoming(input);
      && q.cmd == 0x100 * x[6] + x[7]
      && q.offset
         == 0x100_0000_0000_0000 * x[16] + 0x1_0000_0000_0000 * x[17] + 0x100_0000_0000 * x[18] + 0x1_0000_0000 * x[19]
            + 0x100_0000 * x[20] + 0x1_0000 * x[21] + 0x100 * x[22] + x[23]
      && q.length == 0x100_0000 * x[24] + 0x1_0000 * x[25] + 0x100 * x[26] + x[27]
      && |q.payload| == (if q.cmd == 1 then Min(q.length, |input| - 28) else 0)
      && input == input[..28] + q.payload + Following(input)
  {
    hide Uint, DecodeHeader;
    HeaderBytes(input[..28]);
  }

  /**
   The reference server in the bytes of the stream. A request past the end is
   refused with 22. Command 0 reads, 1 writes the bytes after the header, 2
   leaves, 3 flushes, and any other is refused with 22.
   */
  lemma AnswerOnWire(flat: Bytes, input: Bytes)
    requires Acceptable(input) && |flat| < TWO_63 && Answerable(flat, Incoming(input))
    ensures
      var q := Incoming(input);
      var at, n := q.offset, q.length;
      Answer(flat, q) ==
        if |flat| < at + n then Effect(WireReply(input, 22, []), flat, true)
        else if q.cmd == 0 then Effect(WireReply(input, 0, flat[at..at + n]), flat, true)
        else if q.cmd == 1 then
          Effect(WireReply(input, 0, []), flat[..at] + input[28..][..n] + flat[at + n..], true)
        else if q.cmd == 2 then Effect([], flat, false)
        else if q.cmd == 3 then Effect(WireReply(input, 0, []), flat, true)
        else Effect(WireReply(input, 22, []), flat, true)
  {
    hide Uint, DecodeHeader, Reply, Magic;
    IncomingBytes(input);
    var q, h := Incoming(input), input[..28];
    ReplyOnWire(h, 22, []);
    ReplyOnWire(h, 0, []);
    assert h[8..16] == input[8..16];
    SignedMeaning(q);
    if Inside(flat, q) {
      ReplyOnWire(h, 0, flat[q.offset..q.offset + q.length]);
      assert q.cmd == 1 ==> q.payload == input[28..][..q.length];
    }
  }

  lemma SignedMeaning(q: Request)
    requires q.offset < 2 * TWO_63
    ensures q.Signed() == if q.offset < TWO_63 then q.offset else q.offset - 2 * TWO_63
  {
  }

  /** Serving an encoded request takes exactly its bytes and answers it; the stream stays in step. */
  lemma ServeEncoded(flat: Bytes, q: Request, more: Bytes)
    requires q.WellFormed()
    ensures
      var first := Answer(flat, q);
      Serve(flat, Encode(q) + more) ==
        if !first.open then first
        else
          var rest := Serve(first.flat, more);
          Effect(first.output + rest.output, rest.flat, rest.open)
  {
    hide Reply, Answer, Magic, DecodeHeader, EncodeHeader;
    HeadOfEncoded(q, more);
  }

  lemma HeadOfEncoded(q: Request, more: Bytes)
    requires q.WellFormed()
    ensures
      var input := Encode(q) + more;
      Acceptable(input) && Incoming(input) == q && Following(input) == more
  {
    hide DecodeHeader, Magic, EncodeHeader;
    HeaderRoundTrip(q);
    var input := Encode(q) + more;
    assert input[..HEADER_BYTES] == EncodeHeader(q);
    assert input[HEADER_BYTES..] == q.payload + more;
    assert PayloadOf(q, q.payload + more) == |q.payload|;
  }

  /**
   Framing. A stream of well-formed requests is answered request by request,
   in order; at its end the connection is closed as at any end of stream.
   */
  lemma {:induction false} ServeAllEncoded(flat: Bytes, qs: seq<Request>)
    requires forall q :: q in qs ==> q.WellFormed()
    ensures Serve(flat, EncodeAll(qs)) == AnswerAll(flat, qs).(open := false)
    decreases |qs|
  {
    hide Encode, Answer, Acceptable;
    if qs == [] {
      NothingToServe(flat);
    } else {
      hide Serve;
      assert qs[0].WellFormed();
      ServeEncoded(flat, qs[0], EncodeAll(qs[1..]));
      var first := Answer(flat, qs[0]);
      if first.open {
        ServeAllEncoded(first.flat, qs[1..]);
      }
    }
  }

  lemma NothingToServe(flat: Bytes)
    ensures Serve(flat, []) == Effect([], flat, false)
  {
  }

  // ----- What a client reads back -----

  datatype ReplyMessage = ReplyMessage(handle: nat, errno: nat, data: Bytes)

  /** The requests that are answered: all of them, or those before the first accepted disconnect. */
  function Answered(flat: Bytes, qs: seq<Request>): (n: nat)
    requires forall q :: q in qs ==> q.WellFormed()
    ensures n <= |qs|
    decreases |qs|
  {
    if qs == [] then 0
    else
      assert qs[0].WellFormed();
      if !Answer(flat, qs[0]).open then 0 else 1 + Answered(Answer(flat, qs[0]).flat, qs[1..])
  }

  /**
   A client's reading of the reply stream against the requests it sent: data
   follows a reply exactly when the request was a read and the error is zero.
   */
  function ReadReplies(qs: seq<Request>, stream: Bytes): Option<seq<ReplyMessage>>
    decreases |qs|
  {
    if stream == [] then Some([])
    else if qs == [] || |stream| < 16 || Uint(stream[0..4]) != REPLY_MAGIC then None
    else
      var errno, handle := Uint(stream[4..8]), Uint(stream[8..16]);
      var n := if qs[0].cmd == CMD_READ && errno == 0 then qs[0].length else 0;
      if |stream| < 16 + n then None
      else
        match ReadReplies(qs[1..], stream[16 + n..])
        case None => None
        case Some(rest) => Some([ReplyMessage(handle, errno, stream[16..16 + n])] + rest)
  }

  lemma ReplyRoundTrip(handle: nat, errno: nat, data: Bytes, more: Bytes)
    requires handle < Pow256(8) && errno < Pow256(4)
    ensures
      var b := Reply(handle, errno, data) + more;
      && |b| >= 16 && Uint(b[0..4]) == REPLY_MAGIC && Uint(b[4..8]) == errno && Uint(b[8..16]) == handle
      && b[16..16 + |data|] == data && b[16 + |data|..] == more
  {
    hide PutUint, Uint;
    Pow256Values();
    var b := Reply(handle, errno, data) + more;
    assert b[0..4] == PutUint(4, REPLY_MAGIC);
    assert b[4..8] == PutUint(4, errno);
    assert b[8..16] == PutUint(8, handle);
    UintOfPutUint(4, REPLY_MAGIC);
    UintOfPutUint(4, errno);
    UintOfPutUint(8, handle);
  }

  /** The reply to a request that is answered at all. */
  function ReplyTo(flat: Bytes, q: Request): ReplyMessage {
    if !Inside(flat, q) then ReplyMessage(q.handle, EINVAL, [])
    else if q.cmd == CMD_READ then ReplyMessage(q.handle, 0, flat[q.Signed()..q.Signed() + q.length])
    else if q.cmd == CMD_WRITE || q.cmd == CMD_FLUSH then ReplyMessage(q.handle, 0, [])
    else ReplyMessage(q.handle, EINVAL, [])
  }

  lemma AnswerIsReply(flat: Bytes, q: Request)
    requires Answerable(flat, q) && Answer(flat, q).open
    ensures
      var m := ReplyTo(flat, q);
      && Answer(flat, q).output == Reply(m.handle, m.errno, m.data)
      && m.errno < Pow256(4)
      && |m.data| == (if q.cmd == CMD_READ && m.errno == 0 then q.length else 0)
  {
    Pow256Values();
    hide Reply;
  }

  /**
   Replies stay in step. The client reads back one reply per answered request,
   in order and with its handle, and data of the requested length after
   exactly the successful reads.
   */
  lemma {:induction false} RepliesInStep(flat: Bytes, qs: seq<Request>)
    requires forall q :: q in qs ==> q.WellFormed()
    ensures
      var r := ReadReplies(qs, AnswerAll(flat, qs).output);
      && r.Some? && |r.value| == Answered(flat, qs)
      && (forall i :: 0 <= i < |r.value| ==>
            && r.value[i].handle == qs[i].handle
            && |r.value[i].data| == (if qs[i].cmd == CMD_READ && r.value[i].errno == 0 then qs[i].length else 0))
    decreases |qs|
  {
    hide Answer, ReplyTo, ReadReplies, AnswerAll, Answered;
    RepliesUnfold(flat, qs);
    if qs != [] && Answer(flat, qs[0]).open {
      RepliesInStep(Answer(flat, qs[0]).flat, qs[1..]);
      FirstReply(flat, qs);
    }
  }

  /** What is answered first, or that nothing is. */
  lemma RepliesUnfold(flat: Bytes, qs: seq<Request>)
    requires forall q :: q in qs ==> q.WellFormed()
    ensures qs != [] ==> qs[0].WellFormed()
    ensures qs == [] || !Answer(flat, qs[0]).open ==>
              Answered(flat, qs) == 0 && ReadReplies(qs, AnswerAll(flat, qs).output) == Some([])
    ensures qs != [] && Answer(flat, qs[0]).open ==>
              Answered(flat, qs) == 1 + Answered(Answer(flat, qs[0]).flat, qs[1..])
  {
    hide Answer;
    if qs != [] {
      assert qs[0] in qs;
      if !Answer(flat, qs[0]).open {
        ClosedIsSilent(flat, qs[0]);
      }
    }
  }

  lemma FirstReply(flat: Bytes, qs: seq<Request>)
    requires qs != [] && (forall q :: q in qs ==> q.WellFormed()) && qs[0].WellFormed() && Answer(flat, qs[0]).open
    ensures
      var m := ReplyTo(flat, qs[0]);
      var next := Answer(flat, qs[0]).flat;
      var rest := ReadReplies(qs[1..], AnswerAll(next, qs[1..]).output);
      && ReadReplies(qs, AnswerAll(flat, qs).output) == (if rest.None? then None else Some([m] + rest.value))
      && m.handle == qs[0].handle
      && |m.data| == (if qs[0].cmd == CMD_READ && m.errno == 0 then qs[0].length else 0)
  {
    hide Answer, Reply, ReplyTo;
    var m := ReplyTo(flat, qs[0]);
    var rest := AnswerAll(Answer(flat, qs[0]).flat, qs[1..]).output;
    AnswerIsReply(flat, qs[0]);
    ReplyToHandle(flat, qs[0]);
    ReplyRoundTrip(m.handle, m.errno, m.data, rest);
  }

  lemma ReplyToHandle(flat: Bytes, q: Request)
    ensures ReplyTo(flat, q).handle == q.handle
  {
  }

  lemma ClosedIsSilent(flat: Bytes, q: Request)
    requires Answerable(flat, q) && !Answer(flat, q).open
    ensures Answer(flat, q) == Effect([], flat, false)
  {
  }
}
