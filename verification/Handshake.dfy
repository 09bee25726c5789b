/**
 Fixed newstyle negotiation: greeting, client flags, and the option loop.
 */
module Handshake {
  import opened Bytes
  import opened Nbd

  /** A connection: what the client has sent and not yet been read, and what it has been sent. */
  class Connection {
    var input: Bytes
    var output: Bytes

    constructor (input: Bytes)
      ensures this.input == input && output == []
    {
      this.input, output := input, [];
    }

    /** Reads exactly `n` bytes, or drains the stream and fails. */
    method ReadFull(n: nat) returns (r: Result<Bytes>)
      modifies this`input
      ensures r.Ok? <==> |old(input)| >= n
      ensures r.Ok? ==> r.value == old(input)[..n] && input == old(input)[n..]
      ensures r.Err? ==> input == []
    {
      if |input| < n {
        input := [];
        return Err(Io);
      }
      r := Ok(input[..n]);
      input := input[n..];
    }

    /** Skips `n` bytes, or as many as there are. */
    method Discard(n: nat)
      modifies this`input
      ensures input == old(input)[Min(n, |old(input)|)..]
    {
      input := input[Min(n, |input|)..];
    }

    method Write(b: Bytes)
      modifies this`output
      ensures output == old(output) + b
    {
      output := output + b;
    }
  }

  // ----- Messages of the negotiation -----

  const OPTION_HEADER_BYTES := 16
  const MAX_OPTION_BYTES := 64 * 1024
  const TRANSMISSION_FLAGS := 1 + 4 + 8

  function Greeting(): Bytes {
    PutUint(8, NBD_MAGIC) + PutUint(8, I_HAVE_OPT) + PutUint(2, 1 + 2)
  }

  function OptionReply(opt: nat, rep: nat, data: Bytes): Bytes {
    PutUint(8, OPT_REPLY_MAGIC) + PutUint(4, opt) + PutUint(4, rep) + PutUint(4, |data|) + data
  }

  function Export(size: nat): Bytes {
    PutUint(8, size) + PutUint(2, TRANSMISSION_FLAGS)
  }

  datatype ClientOption = ClientOption(opt: nat, payload: Bytes) {
    predicate WellFormed() {
      opt < Pow256(4) && |payload| <= MAX_OPTION_BYTES
    }

    predicate Unsupported() {
      opt != OPT_EXPORT_NAME && opt != OPT_GO && opt != OPT_ABORT
    }
  }

  function EncodeOption(o: ClientOption): (b: Bytes)
    ensures |b| == OPTION_HEADER_BYTES + |o.payload|
  {
    PutUint(8, I_HAVE_OPT) + (PutUint(4, o.opt) + (PutUint(4, |o.payload|) + o.payload))
  }

  function EncodeOptions(os: seq<ClientOption>): Bytes {
    if os == [] then [] else EncodeOption(os[0]) + EncodeOptions(os[1..])
  }

  /** The payload of a GO option: the export name and the information requests. */
  function GoPayload(name: Bytes, infos: Bytes): Bytes {
    PutUint(4, |name|) + (name + infos)
  }

  // ----- Specification -----

  /** How a negotiation ends: with the export open, or not; `rest` is the stream left for requests. */
  datatype Negotiated = Negotiated(output: Bytes, rest: Bytes, granted: bool)

  /** The export name in a GO payload, unless it is malformed. */
  function GoName(payload: Bytes): Option<Bytes> {
    if |payload| < 6 then None
    else
      var n := Uint(payload[0..4]);
      if n > 4096 || 4 + n + 2 > |payload| then None else Some(payload[4..4 + n])
  }

  /** What an option gets that ends the negotiation or goes on with it. */
  function OptionOutcome(o: ClientOption, size: nat, noZeroes: bool, accepts: Bytes -> bool): Option<Bytes> {
    if o.opt == OPT_EXPORT_NAME then
      if accepts(o.payload) then Some(Export(size) + (if noZeroes then [] else Zeros(124))) else None
    else if o.opt == OPT_GO then
      match GoName(o.payload)
      case None => None
      case Some(name) =>
        if accepts(name) then
          Some(OptionReply(OPT_GO, REP_INFO, PutUint(2, 0) + Export(size)) + OptionReply(OPT_GO, REP_ACK, []))
        else None
    else None
  }

  /** The option at the head of the stream, if a whole acceptable one is there. */
  function HeadOption(input: Bytes): (o: Option<ClientOption>)
    ensures o.Some? ==> OPTION_HEADER_BYTES + |o.value.payload| <= |input|
  {
    if |input| < OPTION_HEADER_BYTES || Uint(input[0..8]) != I_HAVE_OPT then None
    else
      var n := Uint(input[12..16]);
      if n > MAX_OPTION_BYTES || |input| < OPTION_HEADER_BYTES + n then None
      else Some(ClientOption(Uint(input[8..12]), input[16..16 + n]))
  }

  function Options(input: Bytes, size: nat, noZeroes: bool, accepts: Bytes -> bool): Negotiated
    decreases |input|
  {
    match HeadOption(input)
    case None => Negotiated([], [], false)
    case Some(o) =>
      var rest := input[OPTION_HEADER_BYTES + |o.payload|..];
      if o.Unsupported() then
        var more := Options(rest, size, noZeroes, accepts);
        more.(output := OptionReply(o.opt, REP_ERR_UNSUP, []) + more.output)
      else
        match OptionOutcome(o, size, noZeroes, accepts)
        case None => Negotiated([], [], false)
        case Some(reply) => Negotiated(reply, rest, true)
  }

  /** The client's second flag bit says that it wants no padding after the export. */
  function NoZeroes(flags: Bytes): bool {
    Uint(flags) / 2 % 2 == 1
  }

  // ----- Negotiation stays in step -----

  lemma OptionRoundTrip(o: ClientOption, more: Bytes)
    requires o.WellFormed()
    ensures HeadOption(EncodeOption(o) + more) == Some(o)
    ensures (EncodeOption(o) + more)[OPTION_HEADER_BYTES + |o.payload|..] == more
  {
    hide Uint, PutUint;
    OptionFields(o);
    var e := EncodeOption(o);
    var b := e + more;
    assert b[0..8] == e[0..8] && b[8..12] == e[8..12] && b[12..16] == e[12..16];
    assert b[16..16 + |o.payload|] == e[16..16 + |o.payload|];
  }

  lemma OptionFields(o: ClientOption)
    requires o.WellFormed()
    ensures
      var e := EncodeOption(o);
      && Uint(e[0..8]) == I_HAVE_OPT && Uint(e[8..12]) == o.opt && Uint(e[12..16]) == |o.payload|
      && e[16..16 + |o.payload|] == o.payload
  {
    hide Uint, PutUint;
    Pow256Values();
    var e := EncodeOption(o);
    assert e[0..8] == PutUint(8, I_HAVE_OPT);
    assert e[8..12] == PutUint(4, o.opt);
    assert e[12..16] == PutUint(4, |o.payload|);
    assert e[16..16 + |o.payload|] == o.payload;
    UintOfPutUint(8, I_HAVE_OPT);
    UintOfPutUint(4, o.opt);
    UintOfPutUint(4, |o.payload|);
  }

  function Refusals(os: seq<ClientOption>): Bytes {
    if os == [] then [] else OptionReply(os[0].opt, REP_ERR_UNSUP, []) + Refusals(os[1..])
  }

  /**
   Each unsupported option before the final one is refused in turn, the final
   one gets its answer, and every byte after it is left for the requests.
   */
  lemma {:induction false} OptionsInStep(os: seq<ClientOption>, last: ClientOption, more: Bytes,
                                         size: nat, noZeroes: bool, accepts: Bytes -> bool)
    requires forall o :: o in os ==> o.WellFormed() && o.Unsupported()
    requires last.WellFormed() && OptionOutcome(last, size, noZeroes, accepts).Some?
    ensures Options(EncodeOptions(os) + (EncodeOption(last) + more), size, noZeroes, accepts)
         == Negotiated(Refusals(os) + OptionOutcome(last, size, noZeroes, accepts).value, more, true)
    decreases |os|
  {
    hide EncodeOption, OptionReply, HeadOption, OptionOutcome;
    var tail := EncodeOption(last) + more;
    if os == [] {
      LastOption(last, size, noZeroes, accepts);
      OptionRoundTrip(last, more);
      assert EncodeOptions(os) + tail == tail;
    } else {
      assert os[0].WellFormed() && os[0].Unsupported();
      OptionsInStep(os[1..], last, more, size, noZeroes, accepts);
      var next := EncodeOptions(os[1..]) + tail;
      OptionRoundTrip(os[0], next);
      assert EncodeOptions(os) + tail == EncodeOption(os[0]) + next;
    }
  }

  lemma LastOption(o: ClientOption, size: nat, noZeroes: bool, accepts: Bytes -> bool)
    requires OptionOutcome(o, size, noZeroes, accepts).Some?
    ensures !o.Unsupported()
  {
  }

  /** A GO option for a name the server accepts opens the export. */
  lemma GoOpens(name: Bytes, infos: Bytes, size: nat, noZeroes: bool, accepts: Bytes -> bool)
    requires |name| <= 4096 && |infos| >= 2 && accepts(name)
    ensures GoName(GoPayload(name, infos)) == Some(name)
    ensures OptionOutcome(ClientOption(OPT_GO, GoPayload(name, infos)), size, noZeroes, accepts).Some?
  {
    Pow256Values();
    var p := GoPayload(name, infos);
    assert p[0..4] == PutUint(4, |name|);
    UintOfPutUint(4, |name|);
    assert p[4..4 + |name|] == name;
  }

  // ----- What the bytes are -----

  /** The client's second flag bit stands in the last of the four bytes. */
  lemma NoZeroesBytes(flags: Bytes)
    requires |flags| == 4
    ensures NoZeroes(flags) <==> flags[3] / 2 % 2 == 1
  {
    hide Uint;
    Uint4(flags);
  }

  /** An option on the stream: "IHAVEOPT", its number, the length of its payload, and the payload. */
  lemma OptionBytes(input: Bytes)
    ensures
      var x: seq<int> := input;
      if |x| < 16 then HeadOption(input).None?
      else
        var n := 0x100_0000 * x[12] + 0x1_0000 * x[13] + 0x100 * x[14] + x[15];
        && (HeadOption(input).Some? <==>
              x[..8] == [0x49, 0x48, 0x41, 0x56, 0x45, 0x4f, 0x50, 0x54] && n <= 65536 && 16 + n <= |x|)
        && (HeadOption(input).Some? ==>
              && HeadOption(input).value.opt == 0x100_0000 * x[8] + 0x1_0000 * x[9] + 0x100 * x[10] + x[11]
              && HeadOption(input).value.payload == input[16..16 + n])
  {
    hide Uint;
    if |input| >= 16 {
      Uint4(input[8..12]);
      Uint4(input[12..16]);
      Uint8([0x49, 0x48, 0x41, 0x56, 0x45, 0x4f, 0x50, 0x54]);
      assert input[..8] == input[0..8];
      if Uint(input[0..8]) == I_HAVE_OPT {
        UintInjective(input[0..8], [0x49, 0x48, 0x41, 0x56, 0x45, 0x4f, 0x50, 0x54]);
      }
    }
  }

  /** The name in a GO payload: its length in four bytes, at most 4096, and at least two bytes after it. */
  lemma GoBytes(payload: Bytes)
    ensures
      var x: seq<int> := payload;
      if |x| < 6 then GoName(payload).None?
      else
        var n := 0x100_0000 * x[0] + 0x1_0000 * x[1] + 0x100 * x[2] + x[3];
        GoName(payload) == if n <= 4096 && n + 6 <= |x| then Some(payload[4..4 + n]) else None
  {
    hide Uint;
    if |payload| >= 6 {
      Uint4(payload[0..4]);
    }
  }

  /**
   Option 1 with an accepted name, and option 7 with one in its payload, open the
   export; option 2, and either of them otherwise, end the negotiation without
   a word; all others are refused and the negotiation goes on.
   */
  lemma OptionNumbers(o: ClientOption, size: nat, noZeroes: bool, accepts: Bytes -> bool)
    ensures o.Unsupported() <==> o.opt != 1 && o.opt != 2 && o.opt != 7
    ensures OptionOutcome(o, size, noZeroes, accepts).Some? <==>
            || (o.opt == 1 && accepts(o.payload))
            || (o.opt == 7 && GoName(o.payload).Some? && accepts(GoName(o.payload).value))
  {
    hide OptionReply, Export, GoName;
  }

  /** "NBDMAGIC", "IHAVEOPT", and the flags for fixed newstyle and no zeroes. */
  predicate GreetingRead(b: Bytes) {
    b == [0x4e, 0x42, 0x44, 0x4d, 0x41, 0x47, 0x49, 0x43, 0x49, 0x48, 0x41, 0x56, 0x45, 0x4f, 0x50, 0x54, 0, 3]
  }

  /** A refusal of option `opt`. */
  predicate RefusalRead(opt: nat, b: Bytes) {
    && |b| == 20
    && b[0..8] == [0, 0x03, 0xe8, 0x89, 0x04, 0x55, 0x65, 0xa9]
    && (var x: seq<int> := b; opt == 0x100_0000 * x[8] + 0x1_0000 * x[9] + 0x100 * x[10] + x[11])
    && b[12..20] == [0x80, 0, 0, 1, 0, 0, 0, 0]
  }

  /** The size of the export in eight bytes, and flags 13: there are flags, and flush and forced unit access. */
  predicate ExportRead(size: nat, b: Bytes) {
    && |b| == 10
    && (var x: seq<int> := b;
        size == 0x100_0000_0000_0000 * x[0] + 0x1_0000_0000_0000 * x[1] + 0x100_0000_0000 * x[2] + 0x1_0000_0000 * x[3]
                + 0x100_0000 * x[4] + 0x1_0000 * x[5] + 0x100 * x[6] + x[7])
    && b[8..10] == [0, 13]
  }

  /**
   The answer to an option that opens the export. After EXPORT_NAME (1) it is the
   export, and 124 zeros unless the client wants none. After GO (7) it is an
   information reply of twelve bytes, type 0 and the export, and an
   acknowledgement.
   */
  predicate OpenRead(opt: nat, size: nat, noZeroes: bool, b: Bytes) {
    if opt == 1 then
      && |b| == (if noZeroes then 10 else 134) && ExportRead(size, b[0..10])
      && (forall i :: 10 <= i < |b| ==> b[i] == 0)
    else
      && opt == 7 && |b| == 52
      && b[0..22] == [0, 0x03, 0xe8, 0x89, 0x04, 0x55, 0x65, 0xa9, 0, 0, 0, 7, 0, 0, 0, 3, 0, 0, 0, 12, 0, 0]
      && ExportRead(size, b[22..32])
      && b[32..52] == [0, 0x03, 0xe8, 0x89, 0x04, 0x55, 0x65, 0xa9, 0, 0, 0, 7, 0, 0, 0, 1, 0, 0, 0, 0]
  }

  lemma GreetingBytes()
    ensures GreetingRead(Greeting())
  {
    hide Uint, PutUint;
    var a: Bytes := [0x4e, 0x42, 0x44, 0x4d, 0x41, 0x47, 0x49, 0x43];
    var b: Bytes := [0x49, 0x48, 0x41, 0x56, 0x45, 0x4f, 0x50, 0x54];
    Uint8(a);
    PutUintIs(a, NBD_MAGIC);
    Uint8(b);
    PutUintIs(b, I_HAVE_OPT);
    Uint2([0, 3]);
    PutUintIs([0, 3], 3);
  }

  lemma OptionReplyBytes(opt: nat, rep: Bytes, length: Byte, data: Bytes)
    requires opt < 0x1_0000_0000 && |rep| == 4 && |data| == length
    ensures
      var b := OptionReply(opt, Uint(rep), data);
      && |b| == 20 + length
      && b[0..8] == [0, 0x03, 0xe8, 0x89, 0x04, 0x55, 0x65, 0xa9]
      && (var x: seq<int> := b; opt == 0x100_0000 * x[8] + 0x1_0000 * x[9] + 0x100 * x[10] + x[11])
      && b[8..12] == PutUint(4, opt) && b[12..16] == rep && b[16..20] == [0, 0, 0, length] && b[20..] == data
  {
    hide Uint, PutUint;
    var magic: Bytes := [0, 0x03, 0xe8, 0x89, 0x04, 0x55, 0x65, 0xa9];
    Uint8(magic);
    PutUintIs(magic, OPT_REPLY_MAGIC);
    PutUintOfUint(rep);
    Uint4([0, 0, 0, length]);
    PutUintIs([0, 0, 0, length], |data|);
    Pow256Values();
    UintOfPutUint(4, opt);
    Uint4(PutUint(4, opt));
    var b := OptionReply(opt, Uint(rep), data);
    assert b == magic + PutUint(4, opt) + rep + [0, 0, 0, length] + data;
    assert b[8..12] == PutUint(4, opt);
  }

  lemma ExportBytes(size: nat)
    requires size < 0x1_0000_0000_0000_0000
    ensures ExportRead(size, Export(size))
  {
    hide Uint, PutUint;
    Pow256Values();
    UintOfPutUint(8, size);
    Uint8(PutUint(8, size));
    Uint2([0, 13]);
    PutUintIs([0, 13], TRANSMISSION_FLAGS);
  }

  lemma RefusalBytes(opt: nat)
    requires opt < 0x1_0000_0000
    ensures RefusalRead(opt, OptionReply(opt, REP_ERR_UNSUP, []))
  {
    hide Uint, PutUint, OptionReply;
    Uint4([0x80, 0, 0, 1]);
    OptionReplyBytes(opt, [0x80, 0, 0, 1], 0, []);
    var b := OptionReply(opt, REP_ERR_UNSUP, []);
    assert b[12..20] == b[12..16] + b[16..20];
  }

  /** Whatever opens the export is answered with what `OpenRead` says. */
  lemma OpenBytes(o: ClientOption, size: nat, noZeroes: bool, accepts: Bytes -> bool)
    requires size < 0x1_0000_0000_0000_0000
    ensures OptionOutcome(o, size, noZeroes, accepts).Some? ==>
              OpenRead(o.opt, size, noZeroes, OptionOutcome(o, size, noZeroes, accepts).value)
  {
    hide Uint, PutUint, OptionReply, Export, GoName;
    ExportBytes(size);
    if o.opt == OPT_EXPORT_NAME {
      assert (Export(size) + if noZeroes then [] else Zeros(124))[0..10] == Export(size);
    } else {
      GoReplyBytes(size);
    }
  }

  lemma GoReplyBytes(size: nat)
    requires size < 0x1_0000_0000_0000_0000
    ensures
      var info, ack := OptionReply(OPT_GO, REP_INFO, PutUint(2, 0) + Export(size)), OptionReply(OPT_GO, REP_ACK, []);
      OpenRead(7, size, true, info + ack)
  {
    hide Uint, PutUint, OptionReply, Export;
    ExportBytes(size);
    Uint2([0, 0]);
    PutUintIs([0, 0], 0);
    Uint4([0, 0, 0, 7]);
    PutUintIs([0, 0, 0, 7], 7);
    Uint4([0, 0, 0, 3]);
    Uint4([0, 0, 0, 1]);
    var info := [0, 0] + Export(size);
    OptionReplyBytes(7, [0, 0, 0, 3], 12, info);
    OptionReplyBytes(7, [0, 0, 0, 1], 0, []);
    var a, c := OptionReply(7, 3, info), OptionReply(7, 1, []);
    assert a == a[0..8] + a[8..12] + a[12..16] + a[16..20] + a[20..];
    assert c == c[0..8] + c[8..12] + c[12..16] + c[16..20] + c[20..];
    assert (a + c)[22..32] == Export(size);
    assert (a + c)[32..52] == c;
  }

  /** One refusal of twenty bytes for each option, in order. */
  lemma {:induction false} RefusalsBytes(os: seq<ClientOption>)
    requires forall o :: o in os ==> o.opt < 0x1_0000_0000
    ensures |Refusals(os)| == 20 * |os|
    ensures forall i :: 0 <= i < |os| ==> RefusalRead(os[i].opt, Refusals(os)[20 * i..20 * i + 20])
  {
    hide OptionReply, RefusalRead;
    if os != [] {
      assert os[0] in os;
      RefusalBytes(os[0].opt);
      RefusalsBytes(os[1..]);
      var first, rest := OptionReply(os[0].opt, REP_ERR_UNSUP, []), Refusals(os[1..]);
      RefusalLength(os[0].opt, first);
      forall i | 0 <= i < |os|
        ensures RefusalRead(os[i].opt, Refusals(os)[20 * i..20 * i + 20])
      {
        if i == 0 {
          assert (first + rest)[0..20] == first;
        } else {
          assert os[1..][i - 1] == os[i];
          assert (first + rest)[20 * i..20 * i + 20] == rest[20 * (i - 1)..20 * (i - 1) + 20];
        }
      }
    }
  }

  lemma RefusalLength(opt: nat, b: Bytes)
    requires RefusalRead(opt, b)
    ensures |b| == 20
  {
  }

  /** The negotiation as the client reads it: the greeting, a refusal of each option, and the answer that opens. */
  predicate NegotiationRead(os: seq<ClientOption>, last: ClientOption, size: nat, flags: Bytes, b: Bytes) {
    && |flags| == 4 && 18 + 20 * |os| <= |b|
    && GreetingRead(b[..18])
    && (forall i :: 0 <= i < |os| ==> RefusalRead(os[i].opt, b[18..][20 * i..20 * i + 20]))
    && OpenRead(last.opt, size, flags[3] / 2 % 2 == 1, b[18 + 20 * |os|..])
  }

  lemma NegotiationBytes(os: seq<ClientOption>, last: ClientOption, size: nat, flags: Bytes, accepts: Bytes -> bool)
    requires |flags| == 4 && size < 0x1_0000_0000_0000_0000
    requires forall o :: o in os ==> o.WellFormed()
    requires OptionOutcome(last, size, NoZeroes(flags), accepts).Some?
    ensures NegotiationRead(os, last, size, flags,
                            Greeting() + (Refusals(os) + OptionOutcome(last, size, NoZeroes(flags), accepts).value))
  {
    hide OptionReply, RefusalRead, OpenRead, OptionOutcome, Refusals, Greeting, NoZeroes;
    Pow256Values();
    GreetingBytes();
    RefusalsBytes(os);
    NoZeroesBytes(flags);
    OpenBytes(last, size, NoZeroes(flags), accepts);
    var g, r := Greeting(), Refusals(os);
    var a := OptionOutcome(last, size, NoZeroes(flags), accepts).value;
    var b := g + (r + a);
    assert b[..18] == g && b[18..] == r + a && b[18 + |r|..] == a;
    forall i | 0 <= i < |os|
      ensures RefusalRead(os[i].opt, b[18..][20 * i..20 * i + 20])
    {
      assert (r + a)[20 * i..20 * i + 20] == r[20 * i..20 * i + 20];
    }
  }

  // ----- The server's side -----

  method WriteOptionReply(conn: Connection, opt: nat, rep: nat, data: Bytes)
    modifies conn`output
    ensures conn.output == old(conn.output) + OptionReply(opt, rep, data)
  {
    hide PutUint;
    ghost var before := conn.output;
    var header := PutUint(8, OPT_REPLY_MAGIC) + PutUint(4, opt) + PutUint(4, rep) + PutUint(4, |data|);
    conn.Write(header);
    if |data| > 0 {
      conn.Write(data);
    }
    assert conn.output == before + (header + data);
  }

  method HandleOptGo(conn: Connection, payload: Bytes, size: nat, accepts: Bytes -> bool) returns (granted: bool)
    modifies conn`output
    ensures granted <==> OptionOutcome(ClientOption(OPT_GO, payload), size, true, accepts).Some?
    ensures
      var outcome := OptionOutcome(ClientOption(OPT_GO, payload), size, true, accepts);
      conn.output == old(conn.output) + if granted then outcome.value else []
    ensures granted && size < 0x1_0000_0000_0000_0000 ==> OpenRead(7, size, true, conn.output[|old(conn.output)|..])
  {
    hide OptionReply, Export, OpenRead, PutUint;
    if size < 0x1_0000_0000_0000_0000 {
      OpenBytes(ClientOption(OPT_GO, payload), size, true, accepts);
    }
    if |payload| < 6 {
      return false;
    }
    var nameLen := Uint(payload[0..4]);
    if nameLen > 4096 || 4 + nameLen + 2 > |payload| {
      return false;
    }
    if !accepts(payload[4..4 + nameLen]) {
      return false;
    }
    WriteOptionReply(conn, OPT_GO, REP_INFO, PutUint(2, 0) + Export(size));
    WriteOptionReply(conn, OPT_GO, REP_ACK, []);
    granted := true;
  }

  /** One option: its payload is read, and the negotiation ends or goes on. */
  method HandleOption(conn: Connection, o: ClientOption, size: nat, noZeroes: bool, accepts: Bytes -> bool)
    returns (granted: bool, done: bool)
    modifies conn`output
    ensures done <==> !o.Unsupported()
    ensures o.Unsupported() ==> conn.output == old(conn.output) + OptionReply(o.opt, REP_ERR_UNSUP, [])
    ensures !o.Unsupported() ==>
              && (granted <==> OptionOutcome(o, size, noZeroes, accepts).Some?)
              && var outcome := OptionOutcome(o, size, noZeroes, accepts);
                 conn.output == old(conn.output) + if granted then outcome.value else []
    ensures
      var sent := conn.output[|old(conn.output)|..];
      && (o.Unsupported() && o.opt < 0x1_0000_0000 ==> RefusalRead(o.opt, sent))
      && (granted && size < 0x1_0000_0000_0000_0000 ==> OpenRead(o.opt, size, noZeroes, sent))
  {
    hide OptionReply, Export, GoName, OpenRead, RefusalRead;
    if size < 0x1_0000_0000_0000_0000 {
      OpenBytes(o, size, noZeroes, accepts);
    }
    if o.opt < 0x1_0000_0000 {
      RefusalBytes(o.opt);
    }
    granted, done := false, true;
    if o.opt == OPT_EXPORT_NAME {
      if accepts(o.payload) {
        conn.Write(Export(size));
        if !noZeroes {
          conn.Write(Zeros(124));
        }
        granted := true;
      }
    } else if o.opt == OPT_GO {
      granted := HandleOptGo(conn, o.payload, size, accepts);
    } else if o.opt == OPT_ABORT {
    } else {
      WriteOptionReply(conn, o.opt, REP_ERR_UNSUP, []);
      done := false;
    }
  }

  /** Reads one option off the stream. */
  method ReadOption(conn: Connection) returns (r: Option<ClientOption>)
    modifies conn`input
    ensures r == HeadOption(old(conn.input))
    ensures r.Some? ==> conn.input == old(conn.input)[OPTION_HEADER_BYTES + |r.value.payload|..]
  {
    ghost var before := conn.input;
    var header := conn.ReadFull(OPTION_HEADER_BYTES);
    if header.Err? {
      return None;
    }
    var h := header.value;
    assert h[0..8] == before[0..8] && h[8..12] == before[8..12] && h[12..16] == before[12..16];
    if Uint(h[0..8]) != I_HAVE_OPT {
      return None;
    }
    var opt, n := Uint(h[8..12]), Uint(h[12..16]);
    if n > MAX_OPTION_BYTES {
      return None;
    }
    var payload: Bytes := [];
    if n > 0 {
      var body := conn.ReadFull(n);
      if body.Err? {
        return None;
      }
      payload := body.value;
    }
    assert payload == before[16..16 + n];
    r := Some(ClientOption(opt, payload));
  }

  lemma OptionsUnfold(input: Bytes, size: nat, noZeroes: bool, accepts: Bytes -> bool, sent: Bytes)
    ensures HeadOption(input).None? ==> Options(input, size, noZeroes, accepts) == Negotiated([], [], false)
    ensures HeadOption(input).Some? ==>
              var o := HeadOption(input).value;
              var rest := input[OPTION_HEADER_BYTES + |o.payload|..];
              var n := Options(input, size, noZeroes, accepts);
              if o.Unsupported() then
                var more := Options(rest, size, noZeroes, accepts);
                && n.rest == more.rest && n.granted == more.granted
                && sent + n.output == sent + OptionReply(o.opt, REP_ERR_UNSUP, []) + more.output
              else
                match OptionOutcome(o, size, noZeroes, accepts)
                case None => n == Negotiated([], [], false)
                case Some(reply) => n == Negotiated(reply, rest, true)
  {
    hide HeadOption, OptionOutcome, OptionReply;
  }

  /** The option loop. It ends on every stream: each round takes at least one option header. */
  method OptionLoop(conn: Connection, size: nat, noZeroes: bool, accepts: Bytes -> bool) returns (granted: bool)
    modifies conn
    ensures
      var n := Options(old(conn.input), size, noZeroes, accepts);
      && granted == n.granted
      && conn.output == old(conn.output) + n.output
      && (granted ==> conn.input == n.rest)
  {
    hide Options, OptionReply, HeadOption, OptionOutcome, ClientOption.Unsupported;
    ghost var goal := Options(conn.input, size, noZeroes, accepts);
    ghost var start, sent := conn.output, [];
    while true
      invariant conn.output == start + sent
      invariant Options(conn.input, size, noZeroes, accepts).rest == goal.rest
      invariant Options(conn.input, size, noZeroes, accepts).granted == goal.granted
      invariant sent + Options(conn.input, size, noZeroes, accepts).output == goal.output
      decreases |conn.input|
    {
      OptionsUnfold(conn.input, size, noZeroes, accepts, sent);
      var o := ReadOption(conn);
      if o.None? {
        return false;
      }
      var done;
      granted, done := HandleOption(conn, o.value, size, noZeroes, accepts);
      if done {
        return;
      }
      sent := sent + OptionReply(o.value.opt, REP_ERR_UNSUP, []);
    }
  }

  /** Greets the client, reads its flags and options, and opens the export or gives up. */
  method Negotiate(conn: Connection, size: nat, accepts: Bytes -> bool) returns (granted: bool)
    modifies conn
    ensures |old(conn.input)| < 4 ==> !granted && conn.output == old(conn.output) + Greeting()
    ensures |conn.output| >= |old(conn.output)| + 18 && GreetingRead(conn.output[|old(conn.output)|..][..18])
    ensures |old(conn.input)| >= 4 ==>
              var n := Options(old(conn.input)[4..], size, NoZeroes(old(conn.input)[..4]), accepts);
              && granted == n.granted
              && conn.output == old(conn.output) + Greeting() + n.output
              && (granted ==> conn.input == n.rest)
  {
    hide Greeting, Options;
    GreetingBytes();
    conn.Write(Greeting());
    var flags := conn.ReadFull(4);
    if flags.Err? {
      return false;
    }
    granted := OptionLoop(conn, size, NoZeroes(flags.value), accepts);
  }
}
